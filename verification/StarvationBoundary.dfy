/** Exactly who can be kept waiting for ever, when only some clients are sure to pause between two visits. */
module StarvationBoundary {
  import opened Clients
  import opened ManagerRuns
  import opened Schedules
  import opened Sequences
  import opened SleepTimes
  import opened Starvation

  /** Nothing but timeouts, and none of them goes to the entry. */
  ghost predicate Waits(s: State, es: seq<Event>, x: Entry)
    requires Consistent(s)
  {
    (forall e :: e in es ==> e.Timeout?) && !ServedDuring(s, es, x)
  }

  /** The entry can be kept waiting for n timeouts. */
  ghost predicate CanWait(s: State, x: Entry, n: nat)
    requires Consistent(s)
  {
    exists es: seq<Event> :: |es| == n && Waits(s, es, x)
  }

  /** All who are due before the given time are sure to pause, and at most one of the others is not. */
  ghost predicate BoundedAhead(ahead: seq<Entry>, due: real) {
    && (forall i :: 0 <= i < |ahead| && ahead[i].due < due ==> Pauses(ahead[i].client))
    && (forall i, j :: 0 <= i < j < |ahead| ==> Pauses(ahead[i].client) || Pauses(ahead[j].client))
  }

  ghost predicate Bounded(q: Schedule, k: nat)
    requires k < |q.entries|
  {
    BoundedAhead(q.entries[..k], q.entries[k].due)
  }

  // ---------- one timeout ----------

  function Again(s: State, e: Event): Entry
    requires AllCanSleep(s) && e.Timeout? && s.queue.entries != []
  {
    var head := s.queue.entries[0];
    Entry(head.client, head.due + Interval(head.client, e))
  }

  function NewPlace(s: State, e: Event): (p: nat)
    requires AllCanSleep(s) && e.Timeout? && s.queue.entries != []
    ensures p < |s.queue.entries|
  {
    Place(s.queue.entries[1..], Again(s, e).due)
  }

  lemma TimeoutInserts(s: State, e: Event)
    requires AllCanSleep(s) && e.Timeout? && s.queue.entries != []
    ensures Step(s, e).queue.entries == InsertAt(s.queue.entries[1..], NewPlace(s, e), Again(s, e))
  {
  }

  /** A pause is at least a millisecond or nothing at all, and nothing only for a client whose sleep can vanish. */
  lemma PauseOrNothing(c: Client, e: Event)
    requires CanSleep(c) && e.Timeout?
    ensures 0.001 <= Interval(c, e) || (Interval(c, e) == 0.0 && !Pauses(c))
  {
    hide CanSleep, Pauses, Milliseconds;
    if Pauses(c) {
      PauseIsLong(c, e.rd);
    }
  }

  /** Where the entry at place k > 0 is after a timeout. */
  function PlaceAfter(s: State, e: Event, k: nat): (k': nat)
    requires AllCanSleep(s) && e.Timeout? && 0 < k < |s.queue.entries|
    ensures k - 1 <= k' <= k
  {
    if NewPlace(s, e) < k then k else k - 1
  }

  /** The entry stays, and those ahead of it are the ones that were there, with or without the head. */
  lemma AheadAfter(s: State, e: Event, k: nat)
    requires AllCanSleep(s) && e.Timeout? && 0 < k < |s.queue.entries|
    ensures var before, after, k' := s.queue.entries, Step(s, e).queue.entries, PlaceAfter(s, e, k);
      && k' < |after| == |before| && after[k'] == before[k]
      && after[..k'] == if k' == k then InsertAt(before[1..k], NewPlace(s, e), Again(s, e)) else before[1..k]
  {
    hide Step, CanSleep, Interval, Again, NewPlace;
    TimeoutInserts(s, e);
  }

  // ---------- bounded: everybody is served ----------

  /** A head that is not sure to pause is due together with the entry, and comes back no earlier. */
  lemma BoundedStays(s: State, e: Event, k: nat)
    requires Consistent(s) && AllCanSleep(s) && e.Timeout? && 0 < k < |s.queue.entries| && Bounded(s.queue, k)
    ensures PlaceAfter(s, e, k) < |Step(s, e).queue.entries| && Bounded(Step(s, e).queue, PlaceAfter(s, e, k))
  {
    hide DistinctKeys, Scheduled, Pauses, CanSleep, Interval, NewPlace, Step, InsertAt;
    var entries := s.queue.entries;
    var head := entries[0];
    AheadAfter(s, e, k);
    PauseOrNothing(head.client, e);
    assert entries[..k][0] == head;
    assert forall i :: 0 <= i < k - 1 ==> entries[1..k][i] == entries[..k][i + 1];
    if PlaceAfter(s, e, k) == k {
      BoundedInsert(entries[1..k], NewPlace(s, e), Again(s, e), entries[k].due);
    }
  }

  lemma BoundedInsert(a: seq<Entry>, p: nat, x: Entry, due: real)
    requires p <= |a| && BoundedAhead(a, due)
    requires x.due < due ==> Pauses(x.client)
    requires forall i :: 0 <= i < |a| ==> Pauses(x.client) || Pauses(a[i].client)
    ensures BoundedAhead(InsertAt(a, p, x), due)
  {
    hide Pauses, InsertAt;
  }

  /** How many timeouts the entry can still be kept waiting: after a vanishing pause, it is a sure one's turn. */
  ghost function Patience(q: Schedule, k: nat): nat
    requires k < |q.entries|
  {
    if k == 0 then 0
    else 2 * Potential(q.entries, q.entries[k].due, 0.001) + if Pauses(q.entries[0].client) then 0 else 1
  }

  lemma PotentialAfter(s: State, e: Event, x: Entry)
    requires Consistent(s) && AllCanSleep(s) && e.Timeout? && x in s.queue.entries
    ensures Potential(Step(s, e).queue.entries, x.due, 0.001) + Visits(s.queue.entries[0].due, x.due, 0.001)
      == Potential(s.queue.entries, x.due, 0.001) + Visits(Again(s, e).due, x.due, 0.001)
  {
    hide DistinctKeys, Scheduled, CanSleep, Potential, Visits, Insert, Interval;
    var head := s.queue.entries[0];
    PopCounts(s.queue, x, 0.001);
    InsertCounts(Pop(s.queue), head.client, Interval(head.client, e), x, 0.001);
  }

  lemma PatienceFalls(s: State, e: Event, k: nat)
    requires Consistent(s) && AllCanSleep(s) && e.Timeout? && 0 < k < |s.queue.entries| && Bounded(s.queue, k)
    ensures PlaceAfter(s, e, k) < |Step(s, e).queue.entries|
    ensures Patience(Step(s, e).queue, PlaceAfter(s, e, k)) < Patience(s.queue, k)
  {
    hide DistinctKeys, Scheduled, Pauses, CanSleep, Interval, NewPlace, Step, Potential, Visits, InsertAt;
    var entries, x := s.queue.entries, s.queue.entries[k];
    var head := entries[0];
    AheadAfter(s, e, k);
    PotentialAfter(s, e, x);
    PotentialOfMember(entries, x, 0.001);
    PauseOrNothing(head.client, e);
    if 0.001 <= Interval(head.client, e) {
      VisitUsesUp(head.due, Again(s, e).due, x.due, 0.001);
    } else {
      assert entries[..k][0] == head;
      TiedHeadSteps(s, e, k);
    }
  }

  /** A tied head that does not pause goes behind the next one, who is the entry itself or sure to pause. */
  lemma TiedHeadSteps(s: State, e: Event, k: nat)
    requires Consistent(s) && AllCanSleep(s) && e.Timeout? && 0 < k < |s.queue.entries| && Bounded(s.queue, k)
    requires Interval(s.queue.entries[0].client, e) == 0.0 && s.queue.entries[0].due == s.queue.entries[k].due
    requires !Pauses(s.queue.entries[0].client)
    ensures NewPlace(s, e) == 1
    ensures PlaceAfter(s, e, k) == 0 || (1 < k && Pauses(Step(s, e).queue.entries[0].client))
  {
    hide DistinctKeys, Scheduled, Pauses, CanSleep, Interval, Step, InsertAt;
    var entries := s.queue.entries;
    TimeoutInserts(s, e);
    assert entries[1..][0] == entries[1];
    if 1 < |entries[1..]| {
      assert entries[1..][1] == entries[2];
    }
    if 1 < k {
      assert entries[..k][0] == entries[0] && entries[..k][1] == entries[1];
    }
  }

  lemma {:induction false} BoundedIsServed(s: State, es: seq<Event>, k: nat)
    requires Consistent(s) && (forall e :: e in es ==> e.Timeout?) && k < |s.queue.entries|
    requires Bounded(s.queue, k) && Patience(s.queue, k) < |es|
    ensures ServedDuring(s, es, s.queue.entries[k])
    decreases |es|
  {
    hide Consistent, Bounded, Patience, Step, PlaceAfter;
    var x, e := s.queue.entries[k], es[0];
    assert e in es;
    ScheduledAreServed(s);
    if !Serving(s, e, x) {
      StepKeepsConsistent(s, e);
      BoundedStays(s, e, k);
      PatienceFalls(s, e, k);
      AheadAfter(s, e, k);
      BoundedIsServed(Step(s, e), es[1..], PlaceAfter(s, e, k));
    }
  }

  // ---------- not bounded: somebody can be kept waiting ----------

  /** Timeouts only, and whenever one of these clients is at the head it comes back without a pause. */
  ghost predicate Stalls(s: State, es: seq<Event>, cs: set<Client>)
    requires Consistent(s)
    decreases |es|
  {
    ScheduledAreServed(s);
    es != [] ==>
      && es[0].Timeout?
      && (s.queue.entries != [] && s.queue.entries[0].client in cs ==>
          Interval(s.queue.entries[0].client, es[0]) == 0.0)
      && (StepKeepsConsistent(s, es[0]); Stalls(Step(s, es[0]), es[1..], cs))
  }

  /** Clients whose sleep can vanish can stall for any number of timeouts. */
  lemma {:induction false} CanStall(s: State, n: nat, cs: set<Client>) returns (es: seq<Event>)
    requires Consistent(s) && forall c :: c in cs ==> CanSleep(c) && !Pauses(c)
    ensures |es| == n && (forall e :: e in es ==> e.Timeout?) && Stalls(s, es, cs)
    decreases n
  {
    hide Consistent, CanSleep, Pauses, Step, RandomSleep;
    if n == 0 {
      es := [];
    } else {
      ScheduledAreServed(s);
      var e := Timeout(QueryError, 0, false, 0);
      if s.queue.entries != [] && s.queue.entries[0].client in cs {
        PauseVanishes(s.queue.entries[0].client);
        e := Timeout(NonceFound, 0xFFFF_FFFF, true, Total(s.queue.entries[0].client));
      }
      StepKeepsConsistent(s, e);
      var rest := CanStall(Step(s, e), n - 1, cs);
      es := [e] + rest;
      assert es[1..] == rest;
    }
  }

  /** Behind a client that is due earlier and stalls, nobody is served, whatever the others do. */
  lemma {:induction false} NoPauseStarves(s: State, es: seq<Event>, x: Entry, y: Entry)
    requires Consistent(s) && forall e :: e in es ==> Deliverable(e)
    requires x in s.queue.entries && y in s.queue.entries && y.due < x.due
    requires Stalls(s, es, {y.client})
    ensures !ServedDuring(s, es, x)
    decreases |es|
  {
    hide DistinctKeys, Scheduled, CanSleep, Interval, Step;
    if es != [] {
      ScheduledAreServed(s);
      StepKeepsConsistent(s, es[0]);
      EntriesStay(s, es[0]);
      NoPauseStarves(Step(s, es[0]), es[1..], x, y);
    }
  }

  /** Everybody but the head stays, and so does a head that does not pause. */
  lemma EntriesStay(s: State, e: Event)
    requires AllCanSleep(s) && e.Timeout? && s.queue.entries != []
    ensures var entries, after := s.queue.entries, Step(s, e).queue.entries;
      && (forall w :: w in entries && w != entries[0] ==> w in after)
      && (Interval(entries[0].client, e) == 0.0 ==> entries[0] in after)
  {
    hide CanSleep, Interval, NewPlace, InsertAt, Step;
    var entries, p := s.queue.entries, NewPlace(s, e);
    TimeoutInserts(s, e);
    var after := Step(s, e).queue.entries;
    assert after[p] == Again(s, e);
    forall w | w in entries && w != entries[0]
      ensures w in after
    {
      var i :| 0 <= i < |entries| && entries[i] == w;
      assert after[Displaced(i - 1, p)] == entries[1..][i - 1];
    }
  }

  /** Where the element at place m is after an insertion at p. */
  function Displaced(m: nat, p: nat): nat {
    if m < p then m else m + 1
  }

  /** Two clients that are due together with the entry and ahead of it. */
  ghost predicate TiedAhead(q: Schedule, i: nat, j: nat, k: nat) {
    && i != j && i < k && j < k < |q.entries|
    && q.entries[i].due == q.entries[j].due == q.entries[k].due
  }

  /** When both stall they take turns: each goes behind the other, and neither behind the entry. */
  lemma {:induction false} TiedClientsStarve(s: State, es: seq<Event>, i: nat, j: nat, k: nat)
    requires Consistent(s) && forall e :: e in es ==> Deliverable(e)
    requires TiedAhead(s.queue, i, j, k)
    requires Stalls(s, es, {s.queue.entries[i].client, s.queue.entries[j].client})
    ensures !ServedDuring(s, es, s.queue.entries[k])
    decreases |es|
  {
    hide Consistent, CanSleep, Interval, Step;
    if es != [] {
      ScheduledAreServed(s);
      StepKeepsConsistent(s, es[0]);
      HeadDiffers(s, k);
      var i', j', k' := TurnTaken(s, es[0], i, j, k);
      TiedClientsStarve(Step(s, es[0]), es[1..], i', j', k');
    }
  }

  lemma HeadDiffers(s: State, k: nat)
    requires Consistent(s) && 0 < k < |s.queue.entries|
    ensures s.queue.entries[0] != s.queue.entries[k]
  {
    ServedExactlyOnce(s);
    var cs := ClientsOf(s.queue.entries);
    assert !SameKey(cs[0], cs[k]);
  }

  lemma TurnTaken(s: State, e: Event, i: nat, j: nat, k: nat) returns (i': nat, j': nat, k': nat)
    requires Consistent(s) && AllCanSleep(s) && e.Timeout? && TiedAhead(s.queue, i, j, k)
    requires i == 0 || j == 0 ==> Interval(s.queue.entries[0].client, e) == 0.0
    ensures var before, after := s.queue.entries, Step(s, e).queue.entries;
      && TiedAhead(Step(s, e).queue, i', j', k')
      && after[i'] == before[i] && after[j'] == before[j] && after[k'] == before[k]
  {
    hide DistinctKeys, Scheduled, CanSleep, Interval, Step, InsertAt;
    var entries, p := s.queue.entries, NewPlace(s, e);
    TimeoutInserts(s, e);
    if i == 0 || j == 0 {
      assert entries[1..][0] == entries[1] && entries[1..][1] == entries[2];
      assert p == 1;
    }
    i' := if i == 0 then 1 else Displaced(i - 1, p);
    j' := if j == 0 then 1 else Displaced(j - 1, p);
    k' := Displaced(k - 1, p);
  }

  // ---------- the boundary ----------

  lemma BoundedCannotWait(s: State, k: nat)
    requires Consistent(s) && k < |s.queue.entries| && Bounded(s.queue, k)
    ensures !CanWait(s, s.queue.entries[k], Patience(s.queue, k) + 1)
  {
    hide Consistent, Bounded, Patience;
    forall es: seq<Event> | |es| == Patience(s.queue, k) + 1
      ensures !Waits(s, es, s.queue.entries[k])
    {
      if forall e :: e in es ==> e.Timeout? {
        BoundedIsServed(s, es, k);
      }
    }
  }

  lemma OneKeepsWaiting(s: State, y: Entry, x: Entry, n: nat)
    requires Consistent(s) && x in s.queue.entries && y in s.queue.entries && y.due < x.due
    requires CanSleep(y.client) && !Pauses(y.client)
    ensures CanWait(s, x, n)
  {
    hide Consistent, CanSleep, Pauses, Stalls, ServedDuring;
    var es := CanStall(s, n, {y.client});
    NoPauseStarves(s, es, x, y);
    assert |es| == n && Waits(s, es, x);
  }

  lemma TwoKeepWaiting(s: State, i: nat, j: nat, k: nat, n: nat)
    requires Consistent(s) && TiedAhead(s.queue, i, j, k)
    requires var a, b := s.queue.entries[i].client, s.queue.entries[j].client;
      CanSleep(a) && CanSleep(b) && !Pauses(a) && !Pauses(b)
    ensures CanWait(s, s.queue.entries[k], n)
  {
    hide Consistent, CanSleep, Pauses, Stalls, ServedDuring;
    var es := CanStall(s, n, {s.queue.entries[i].client, s.queue.entries[j].client});
    TiedClientsStarve(s, es, i, j, k);
    assert |es| == n && Waits(s, es, s.queue.entries[k]);
  }

  lemma UnboundedCanWait(s: State, k: nat, n: nat)
    requires Consistent(s) && k < |s.queue.entries| && !Bounded(s.queue, k)
    ensures CanWait(s, s.queue.entries[k], n)
  {
    hide DistinctKeys, Scheduled, CanSleep, Pauses, CanWait;
    var entries, x := s.queue.entries, s.queue.entries[k];
    ScheduledAreServed(s);
    if i :| 0 <= i < k && entries[i].due < x.due && !Pauses(entries[i].client) {
      OneKeepsWaiting(s, entries[i], x, n);
    } else {
      var i, j :| 0 <= i < j < k && !Pauses(entries[..k][i].client) && !Pauses(entries[..k][j].client);
      TwoKeepWaiting(s, i, j, k, n);
    }
  }

  /**
   For every state and every entry: it can be kept waiting for any number of timeouts exactly if somebody who is due
   earlier is not sure to pause, or two who are ahead of it are not.
   */
  lemma StarvationIff(s: State, k: nat)
    requires Consistent(s) && k < |s.queue.entries|
    ensures (forall n: nat :: CanWait(s, s.queue.entries[k], n)) <==> !Bounded(s.queue, k)
  {
    hide Consistent, Bounded, CanWait, Patience;
    if Bounded(s.queue, k) {
      BoundedCannotWait(s, k);
    } else {
      forall n: nat
        ensures CanWait(s, s.queue.entries[k], n)
      {
        UnboundedCanWait(s, k, n);
      }
    }
  }
}
