/** No scheduled client waits forever: a measure over the queue that every visit to another client takes down. */
module Starvation {
  import opened Clients
  import opened GenericLists
  import opened ManagerRuns
  import opened Schedules
  import opened Sequences
  import opened SleepTimes

  // ---------- the measure ----------

  /** How often a client due then can be visited up to the deadline, when d passes between two visits. */
  function Visits(due: real, deadline: real, d: real): nat
    requires 0.0 < d
  {
    if due <= deadline then
      QuotientIsNonnegative(deadline - due, d);
      ((deadline - due) / d).Floor + 1
    else 0
  }

  lemma QuotientIsNonnegative(x: real, d: real)
    requires 0.0 <= x && 0.0 < d
    ensures 0.0 <= x / d
  {
  }

  lemma QuotientFalls(x: real, y: real, d: real)
    requires 0.0 < d && x + d <= y
    ensures x / d + 1.0 <= y / d
  {
    var gap := y / d - x / d;
    assert gap * d == y - x;
    if gap < 1.0 {
      ProductShrinks(gap, d);
    }
  }

  lemma ProductShrinks(gap: real, d: real)
    requires gap < 1.0 && 0.0 < d
    ensures gap * d < d
  {
    assert (1.0 - gap) * d > 0.0;
  }

  /** A visit that is followed by a sleep of at least d is one visit less to come. */
  lemma VisitUsesUp(due: real, later: real, deadline: real, d: real)
    requires 0.0 < d && due + d <= later && due <= deadline
    ensures Visits(later, deadline, d) + 1 <= Visits(due, deadline, d)
  {
    QuotientIsNonnegative(deadline - due, d);
    if later <= deadline {
      QuotientFalls(deadline - later, deadline - due, d);
    }
  }

  /** All visits that can still come before the deadline. */
  function Potential(s: seq<Entry>, deadline: real, d: real): nat
    requires 0.0 < d
  {
    if s == [] then 0 else Visits(s[0].due, deadline, d) + Potential(s[1..], deadline, d)
  }

  lemma {:induction false} PotentialOfConcat(a: seq<Entry>, b: seq<Entry>, deadline: real, d: real)
    requires 0.0 < d
    ensures Potential(a + b, deadline, d) == Potential(a, deadline, d) + Potential(b, deadline, d)
  {
    if a == [] {
      assert a + b == b;
    } else {
      PotentialOfConcat(a[1..], b, deadline, d);
      assert (a + b)[1..] == a[1..] + b;
    }
  }

  lemma PotentialOfInsert(s: seq<Entry>, k: nat, e: Entry, deadline: real, d: real)
    requires 0.0 < d && k <= |s|
    ensures Potential(InsertAt(s, k, e), deadline, d) == Potential(s, deadline, d) + Visits(e.due, deadline, d)
  {
    assert s == s[..k] + s[k..];
    PotentialOfConcat(s[..k], s[k..], deadline, d);
    PotentialOfConcat(s[..k] + [e], s[k..], deadline, d);
    PotentialOfConcat(s[..k], [e], deadline, d);
    assert [e][1..] == [];
  }

  lemma PotentialOfRemove(s: seq<Entry>, k: nat, deadline: real, d: real)
    requires 0.0 < d && k < |s|
    ensures Potential(RemoveAt(s, k), deadline, d) + Visits(s[k].due, deadline, d) == Potential(s, deadline, d)
  {
    PotentialOfInsert(RemoveAt(s, k), k, s[k], deadline, d);
    assert InsertAt(RemoveAt(s, k), k, s[k]) == s;
  }

  lemma {:induction false} PotentialOfMember(s: seq<Entry>, e: Entry, d: real)
    requires 0.0 < d && e in s
    ensures 1 <= Potential(s, e.due, d)
  {
    var k :| 0 <= k < |s| && s[k] == e;
    PotentialOfRemove(s, k, e.due, d);
    QuotientIsNonnegative(0.0, d);
  }

  // ---------- one event ----------

  /** Whoever is visited is left alone for at least d. */
  predicate Unhurried(s: State, e: Event, d: real)
    requires AllCanSleep(s)
  {
    e.Timeout? && s.queue.entries != [] ==> d <= Interval(s.queue.entries[0].client, e)
  }

  predicate Serving(s: State, e: Event, x: Entry) {
    e.Timeout? && s.queue.entries != [] && s.queue.entries[0] == x
  }

  /** The event does not end the waiting in another way. */
  predicate LeavesAlone(e: Event, c: Client) {
    match e
    case ClientDown(gone, _) => !SameKey(c, gone)
    case Die(_) => false
    case _ => true
  }

  /** The visits that a client coming up adds. */
  function Arriving(s: State, e: Event, deadline: real, d: real): nat
    requires Deliverable(e) && 0.0 < d
  {
    if e.ClientUp? && e.passed.Some? && !Serves(s, e.passed.value) then
      Visits(Unslept(s.queue, e.timeLeft).now + RandomSleep(e.passed.value, e.rd), deadline, d)
    else 0
  }

  /** The waiting entry stays as it is, and a timeout that goes to somebody else brings it nearer. */
  lemma EventBringsNearer(s: State, e: Event, x: Entry, d: real)
    requires Consistent(s) && AllCanSleep(s) && Deliverable(e) && 0.0 < d
    requires x in s.queue.entries && !Serving(s, e, x) && LeavesAlone(e, x.client) && Unhurried(s, e, d)
    ensures var s' := Step(s, e);
      && x in s'.queue.entries
      && Potential(s'.queue.entries, x.due, d) + (if e.Timeout? then 1 else 0)
         <= Potential(s.queue.entries, x.due, d) + Arriving(s, e, x.due, d)
  {
    hide DistinctKeys, Scheduled, Ordered, CanSleep, Potential, Visits;
    match e {
      case Timeout(_, _, _, _) => TimeoutBringsNearer(s, e, x, d);
      case ClientUp(_, _, _) => ClientUpCounts(s, e, x, d);
      case ClientDown(_, _) => ClientDownCounts(s, e, x, d);
    }
  }

  lemma TimeoutBringsNearer(s: State, e: Event, x: Entry, d: real)
    requires Consistent(s) && AllCanSleep(s) && e.Timeout? && 0.0 < d
    requires x in s.queue.entries && s.queue.entries[0] != x && Unhurried(s, e, d)
    ensures var s' := OnTimeout(s, e);
      x in s'.queue.entries && Potential(s'.queue.entries, x.due, d) + 1 <= Potential(s.queue.entries, x.due, d)
  {
    hide DistinctKeys, Scheduled, CanSleep, Ordered, Potential, Visits, Insert, Pop, Interval;
    var q, head := s.queue, s.queue.entries[0];
    var t := Interval(head.client, e);
    PopCounts(q, x, d);
    VisitUsesUp(head.due, head.due + t, x.due, d);
    InsertCounts(Pop(q), head.client, t, x, d);
  }

  /** The head is due no later than anybody else, and takes its visits with it. */
  lemma PopCounts(q: Schedule, x: Entry, d: real)
    requires Ordered(q.entries) && x in q.entries && 0.0 < d
    ensures Pop(q).now == q.entries[0].due <= x.due && (x != q.entries[0] ==> x in Pop(q).entries)
    ensures Potential(Pop(q).entries, x.due, d) + Visits(q.entries[0].due, x.due, d) == Potential(q.entries, x.due, d)
  {
  }

  /** Inserting keeps every entry and adds the visits of the new one. */
  lemma InsertCounts(q: Schedule, c: Client, t: real, x: Entry, d: real)
    requires 0.0 < d
    ensures var q' := Insert(q, c, t);
      && (x in q.entries ==> x in q'.entries)
      && Potential(q'.entries, x.due, d) == Potential(q.entries, x.due, d) + Visits(q.now + t, x.due, d)
  {
    hide Potential, Visits, Place;
    var k := Place(q.entries, q.now + t);
    PotentialOfInsert(q.entries, k, Entry(c, q.now + t), x.due, d);
    InsertAtAdds(q.entries, k, Entry(c, q.now + t));
    assert x in q.entries ==> x in multiset(q.entries);
  }

  lemma ClientUpCounts(s: State, e: Event, x: Entry, d: real)
    requires e.ClientUp? && Deliverable(e) && 0.0 < d && x in s.queue.entries
    ensures var s' := OnClientUp(s, e);
      && x in s'.queue.entries
      && Potential(s'.queue.entries, x.due, d) == Potential(s.queue.entries, x.due, d) + Arriving(s, e, x.due, d)
  {
    hide Potential, Visits, Insert, CanSleep, RandomSleep, Find;
    if e.passed.Some? && !Serves(s, e.passed.value) {
      InsertCounts(Unslept(s.queue, e.timeLeft), e.passed.value, RandomSleep(e.passed.value, e.rd), x, d);
    }
  }

  lemma ClientDownCounts(s: State, e: Event, x: Entry, d: real)
    requires e.ClientDown? && 0.0 < d && Ordered(s.queue.entries)
    requires x in s.queue.entries && !SameKey(x.client, e.gone)
    ensures var s' := OnClientDown(s, e);
      x in s'.queue.entries && Potential(s'.queue.entries, x.due, d) <= Potential(s.queue.entries, x.due, d)
  {
    hide Potential, Visits, CanSleep, RemoveAt, SameKey, Find, PlaceOf, Ordered;
    var q := Unslept(s.queue, e.timeLeft);
    var k := PlaceOf(q.entries, e.gone);
    if Serves(s, e.gone) && k < |q.entries| {
      PotentialOfRemove(q.entries, k, x.due, d);
      RemoveKeepsOtherTimes(q, e.gone);
      assert x in multiset(q.entries);
      assert x in multiset(RemoveClient(q, e.gone).entries);
    }
  }

  // ---------- whole runs ----------

  /** At some event of the run, the entry is the one that is served. */
  ghost predicate ServedDuring(s: State, es: seq<Event>, x: Entry)
    requires Consistent(s) && forall e :: e in es ==> Deliverable(e)
    decreases |es|
  {
    ScheduledAreServed(s);
    es != [] && (Serving(s, es[0], x) || (StepKeepsConsistent(s, es[0]); ServedDuring(Step(s, es[0]), es[1..], x)))
  }

  /** Every timeout of the run leaves at least d until the next visit, and no event ends the waiting in another way. */
  ghost predicate Fair(s: State, es: seq<Event>, x: Entry, d: real)
    requires Consistent(s) && forall e :: e in es ==> Deliverable(e)
    decreases |es|
  {
    ScheduledAreServed(s);
    es != [] ==>
      && LeavesAlone(es[0], x.client) && Unhurried(s, es[0], d)
      && (StepKeepsConsistent(s, es[0]); Fair(Step(s, es[0]), es[1..], x, d))
  }

  function Timeouts(es: seq<Event>): nat {
    if es == [] then 0 else (if es[0].Timeout? then 1 else 0) + Timeouts(es[1..])
  }

  /** All visits that clients coming up during the run add. */
  ghost function Arrivals(s: State, es: seq<Event>, deadline: real, d: real): nat
    requires Consistent(s) && (forall e :: e in es ==> Deliverable(e)) && 0.0 < d
    decreases |es|
  {
    ScheduledAreServed(s);
    if es == [] then 0
    else
      StepKeepsConsistent(s, es[0]);
      Arriving(s, es[0], deadline, d) + Arrivals(Step(s, es[0]), es[1..], deadline, d)
  }

  /** A waiting client is served once there have been more timeouts than visits that could come before it. */
  lemma {:induction false} NobodyStarves(s: State, es: seq<Event>, x: Entry, d: real)
    requires Consistent(s) && (forall e :: e in es ==> Deliverable(e)) && 0.0 < d
    requires x in s.queue.entries && Fair(s, es, x, d)
    requires Potential(s.queue.entries, x.due, d) + Arrivals(s, es, x.due, d) <= Timeouts(es)
    ensures ServedDuring(s, es, x)
    decreases |es|
  {
    hide Potential, Visits, Consistent, Step;
    PotentialOfMember(s.queue.entries, x, d);
    ScheduledAreServed(s);
    if !Serving(s, es[0], x) {
      StepKeepsConsistent(s, es[0]);
      EventBringsNearer(s, es[0], x, d);
      NobodyStarves(Step(s, es[0]), es[1..], x, d);
    }
  }

  // ---------- where the pause between two visits comes from ----------

  lemma PausingClientsPause(s: State, e: Event)
    requires Consistent(s) && AllCanSleep(s) && forall c :: c in s.served ==> Pauses(c)
    ensures Unhurried(s, e, 0.001)
  {
    hide DistinctKeys, Scheduled, Ordered, Pauses, RandomSleep;
    ScheduledAreServed(s);
    if e.Timeout? && s.queue.entries != [] {
      PauseIsLong(s.queue.entries[0].client, e.rd);
    }
  }

  /** When the pause of no client can vanish, every run is fair. */
  lemma {:induction false} PausingRunsAreFair(s: State, es: seq<Event>, x: Entry)
    requires Consistent(s) && forall e :: e in es ==> Deliverable(e)
    requires forall c :: c in s.served ==> Pauses(c)
    requires forall e :: e in es ==>
      LeavesAlone(e, x.client) && (e.ClientUp? && e.passed.Some? ==> Pauses(e.passed.value))
    ensures Fair(s, es, x, 0.001)
    decreases |es|
  {
    hide Consistent, Pauses, Unhurried;
    if es != [] {
      ScheduledAreServed(s);
      PausingClientsPause(s, es[0]);
      StepKeepsConsistent(s, es[0]);
      StepKeepsPauses(s, es[0]);
      PausingRunsAreFair(Step(s, es[0]), es[1..], x);
    }
  }

  lemma StepKeepsPauses(s: State, e: Event)
    requires AllCanSleep(s) && Deliverable(e)
    requires forall c :: c in s.served ==> Pauses(c)
    requires e.ClientUp? && e.passed.Some? ==> Pauses(e.passed.value)
    ensures forall c :: c in Step(s, e).served ==> Pauses(c)
  {
    hide Pauses, CanSleep, Insert, RemoveClient, RemoveAt, Find, Interval;
  }
}
