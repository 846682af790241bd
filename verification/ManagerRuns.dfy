/** The manager as a state machine: what every event does to the served clients and to their schedule. */
module ManagerRuns {
  import opened Bytes
  import opened Clients
  import opened Defines
  import opened GenericLists
  import opened Schedules
  import opened Sequences
  import opened SleepTimes

  /** What the data base answers when it is asked for a valid nonce. */
  datatype NonceQuery = NonceFound | NoData | QueryError

  datatype Event =
    | Timeout(query: NonceQuery, noncesLeft: uint32, sent: bool, rd: Random)
    | ClientUp(passed: Option<Client>, timeLeft: real, rd: Random)
    | ClientDown(gone: Client, timeLeft: real)
    | Die(timeLeft: real)

  datatype State = State(
    served: seq<Client>,
    queue: Schedule,
    clientsCount: uint32,
    passingClient: Option<Client>,
    running: bool)

  function Initial(): State {
    State([], Schedule(0.0, []), 0, None, true)
  }

  /** `serve_client`: no data is not an error, but then there are too few nonces anyway. */
  predicate ServeClient(query: NonceQuery, noncesLeft: uint32, sent: bool) {
    query != QueryError && NONCE_CRITICAL_THRESHOLD <= noncesLeft && sent
  }

  /** When `serve_client` launches the extractor instead of sending a request. */
  predicate NeedsNonces(query: NonceQuery, noncesLeft: uint32) {
    query != QueryError && noncesLeft < NONCE_CRITICAL_THRESHOLD
  }

  /** The client for which the event launches the extractor. */
  function Launched(s: State, e: Event): Option<Client> {
    if e.Timeout? && s.queue.entries != [] && NeedsNonces(e.query, e.noncesLeft) then Some(s.queue.entries[0].client)
    else None
  }

  /** The time to the next visit, short when this one failed. */
  function Interval(client: Client, e: Event): real
    requires e.Timeout? && CanSleep(client)
  {
    if ServeClient(e.query, e.noncesLeft, e.sent) then RandomSleep(client, e.rd)
    else NOT_SERVED_RE_SCHEDULING_STANDARD_TIME
  }

  predicate AllCanSleep(s: State) {
    forall i :: 0 <= i < |s.queue.entries| ==> CanSleep(s.queue.entries[i].client)
  }

  /** The code would divide by 0 otherwise. */
  predicate Deliverable(e: Event) {
    e.ClientUp? && e.passed.Some? ==> CanSleep(e.passed.value)
  }

  function OnTimeout(s: State, e: Event): State
    requires e.Timeout? && AllCanSleep(s)
  {
    if s.queue.entries == [] then s
    else
      var client := s.queue.entries[0].client;
      s.(queue := Insert(Pop(s.queue), client, Interval(client, e)))
  }

  predicate Serves(s: State, client: Client) {
    Find(Compare, s.served, client) < |s.served|
  }

  function OnClientUp(s: State, e: Event): State
    requires e.ClientUp? && Deliverable(e)
  {
    var q := Unslept(s.queue, e.timeLeft);
    if e.passed == None || Serves(s, e.passed.value) then s.(queue := q, passingClient := e.passed)
    else
      var c := e.passed.value;
      State([c] + s.served, Insert(q, c, RandomSleep(c, e.rd)), Wrap32(|s.served| + 1), None, s.running)
  }

  function OnClientDown(s: State, e: Event): State
    requires e.ClientDown?
  {
    var q := Unslept(s.queue, e.timeLeft);
    if !Serves(s, e.gone) then s.(queue := q, passingClient := None)
    else
      var served := RemoveAt(s.served, Find(Compare, s.served, e.gone));
      State(served, RemoveClient(q, e.gone), Wrap32(|served|), None, s.running)
  }

  function Step(s: State, e: Event): State
    requires AllCanSleep(s) && Deliverable(e)
  {
    match e
    case Timeout(_, _, _, _) => OnTimeout(s, e)
    case ClientUp(_, _, _) => OnClientUp(s, e)
    case ClientDown(_, _) => OnClientDown(s, e)
    case Die(timeLeft) => s.(queue := Unslept(s.queue, timeLeft), running := false)
  }

  // ---------- what every run keeps ----------

  function Scheduled(q: Schedule): multiset<Client> {
    multiset(ClientsOf(q.entries))
  }

  ghost predicate DistinctKeys(s: seq<Client>) {
    forall i, j :: 0 <= i < j < |s| ==> !SameKey(s[i], s[j])
  }

  /** Every served client is scheduled once, nobody else is, and no two of them are the same. */
  ghost predicate Consistent(s: State) {
    && DistinctKeys(s.served)
    && Scheduled(s.queue) == multiset(s.served)
    && Ordered(s.queue.entries)
    && s.clientsCount == Wrap32(|s.served|)
    && forall c :: c in s.served ==> CanSleep(c)
  }

  lemma ScheduledAreServed(s: State)
    requires Consistent(s)
    ensures |s.queue.entries| == |s.served| && AllCanSleep(s)
    ensures forall i :: 0 <= i < |s.queue.entries| ==> s.queue.entries[i].client in s.served
    ensures forall c :: c in s.served ==> c in ClientsOf(s.queue.entries)
  {
    hide DistinctKeys, Ordered, CanSleep, ClientsOf;
    var cs := ClientsOf(s.queue.entries);
    assert |multiset(cs)| == |multiset(s.served)|;
    forall i | 0 <= i < |s.queue.entries|
      ensures s.queue.entries[i].client in s.served
    {
      assert cs[i] in multiset(cs);
    }
    forall c | c in s.served
      ensures c in cs
    {
      assert c in multiset(s.served);
    }
  }

  lemma SleepingKeepsClients(q: Schedule, timeLeft: real)
    ensures var q' := Unslept(q, timeLeft); q'.entries == q.entries && Scheduled(q') == Scheduled(q)
  {
  }

  lemma InsertSchedules(q: Schedule, client: Client, timeToSleep: real)
    requires Ordered(q.entries)
    ensures var q' := Insert(q, client, timeToSleep);
      Ordered(q'.entries) && Scheduled(q') == Scheduled(q) + multiset{client}
  {
    hide Ordered, ClientsOf, InsertAt, Place;
    InsertKeepsOrder(q, client, timeToSleep);
    InsertedDeltas(q, client, timeToSleep);
    InsertAtAdds(ClientsOf(q.entries), Place(q.entries, q.now + timeToSleep), client);
  }

  lemma PopUnschedules(q: Schedule)
    requires Ordered(q.entries) && q.entries != []
    ensures var q' := Pop(q);
      Ordered(q'.entries) && Scheduled(q') + multiset{q.entries[0].client} == Scheduled(q)
  {
    hide Ordered, ClientsOf, RemoveAt;
    PoppedDeltas(q);
    RemoveAtTakes(ClientsOf(q.entries), 0);
  }

  lemma RemoveUnschedules(q: Schedule, client: Client)
    requires Ordered(q.entries) && PlaceOf(q.entries, client) < |q.entries|
    ensures var q', gone := RemoveClient(q, client), q.entries[PlaceOf(q.entries, client)].client;
      Ordered(q'.entries) && SameKey(gone, client) && Scheduled(q') == Scheduled(q) - multiset{gone}
  {
    hide Ordered, ClientsOf, RemoveAt, SameKey;
    RemoveKeepsOtherTimes(q, client);
    RemovedDeltas(q, PlaceOf(q.entries, client));
    RemoveAtTakes(ClientsOf(q.entries), PlaceOf(q.entries, client));
  }

  lemma InitialIsConsistent()
    ensures Consistent(Initial())
  {
  }

  lemma TimeoutKeepsConsistent(s: State, e: Event)
    requires Consistent(s) && AllCanSleep(s) && e.Timeout?
    ensures Consistent(OnTimeout(s, e))
  {
    hide DistinctKeys, Ordered, CanSleep, Insert, Pop, Scheduled;
    if s.queue.entries != [] {
      var client := s.queue.entries[0].client;
      PopUnschedules(s.queue);
      InsertSchedules(Pop(s.queue), client, Interval(client, e));
      assert Scheduled(OnTimeout(s, e).queue) == Scheduled(s.queue);
    }
  }

  /** A client that is not served yet has a key of its own. */
  lemma NewcomerIsDistinct(s: State, c: Client)
    requires DistinctKeys(s.served) && !Serves(s, c)
    ensures DistinctKeys([c] + s.served)
  {
    hide Compare, SameKey;
    CompareIsZeroEverywhere();
    forall i | 0 <= i < |s.served|
      ensures !SameKey(c, s.served[i])
    {
      SameKeyTriangle(s.served[i], c, c);
    }
  }

  lemma SameKeyTriangle(a: Client, b: Client, c: Client)
    ensures SameKey(a, c) && SameKey(b, c) ==> SameKey(a, b) && SameKey(b, a)
    ensures SameKey(a, a) && (SameKey(a, b) <==> SameKey(b, a))
  {
  }

  lemma FirstAdds(c: Client, s: seq<Client>)
    ensures multiset([c] + s) == multiset(s) + multiset{c}
    ensures |[c] + s| == |s| + 1 && forall x :: x in [c] + s ==> x == c || x in s
  {
  }

  lemma ClientUpKeepsConsistent(s: State, e: Event)
    requires Consistent(s) && e.ClientUp? && Deliverable(e)
    ensures Consistent(OnClientUp(s, e))
  {
    hide Ordered, CanSleep, Insert, Find, DistinctKeys, Wrap, Scheduled;
    var q := Unslept(s.queue, e.timeLeft);
    SleepingKeepsClients(s.queue, e.timeLeft);
    if e.passed.Some? && !Serves(s, e.passed.value) {
      var c := e.passed.value;
      NewcomerIsDistinct(s, c);
      InsertSchedules(q, c, RandomSleep(c, e.rd));
      FirstAdds(c, s.served);
    }
  }

  /** List and queue pick the same client, and what stays behind stays consistent. */
  lemma ClientDownKeepsConsistent(s: State, e: Event)
    requires Consistent(s) && e.ClientDown?
    ensures Consistent(OnClientDown(s, e))
  {
    hide Ordered, CanSleep, RemoveClient, Find, PlaceOf, DistinctKeys, Scheduled;
    var q := Unslept(s.queue, e.timeLeft);
    SleepingKeepsClients(s.queue, e.timeLeft);
    if Serves(s, e.gone) {
      var k := Find(Compare, s.served, e.gone);
      GoneIsScheduled(s, e.gone);
      RemoveUnschedules(q, e.gone);
      RemoveAtTakes(s.served, k);
      RemoveKeepsKeys(s.served, k);
    }
  }

  lemma RemoveKeepsKeys(s: seq<Client>, k: nat)
    requires DistinctKeys(s) && k < |s|
    ensures DistinctKeys(RemoveAt(s, k)) && forall c :: c in RemoveAt(s, k) ==> c in s
  {
    hide SameKey, RemoveAt;
  }

  lemma GoneIsScheduled(s: State, gone: Client)
    requires Consistent(s) && Serves(s, gone)
    ensures var p := PlaceOf(s.queue.entries, gone);
      p < |s.queue.entries| && s.queue.entries[p].client == s.served[Find(Compare, s.served, gone)]
  {
    hide Ordered, CanSleep, Find, Compare, SameKey;
    var k, p := Find(Compare, s.served, gone), PlaceOf(s.queue.entries, gone);
    CompareIsZeroEverywhere();
    ScheduledAreServed(s);
    PlaceOfIsFirst(s.queue.entries, gone);
    assert s.served[k] in s.served;
    var c := s.queue.entries[p].client;
    var i :| 0 <= i < |s.served| && s.served[i] == c;
    SameKeyTriangle(s.served[k], c, gone);
  }

  lemma StepKeepsConsistent(s: State, e: Event)
    requires Consistent(s) && AllCanSleep(s) && Deliverable(e)
    ensures Consistent(Step(s, e)) && AllCanSleep(Step(s, e))
  {
    hide OnTimeout, OnClientUp, OnClientDown, Scheduled;
    match e {
      case Timeout(_, _, _, _) => TimeoutKeepsConsistent(s, e);
      case ClientUp(_, _, _) => ClientUpKeepsConsistent(s, e);
      case ClientDown(_, _) => ClientDownKeepsConsistent(s, e);
      case Die(timeLeft) => SleepingKeepsClients(s.queue, timeLeft);
    }
    ScheduledAreServed(Step(s, e));
  }

  /** The states after any sequence of events; what comes after the order to die is not handled any more. */
  function Run(s: State, es: seq<Event>): (s': State)
    requires Consistent(s) && forall e :: e in es ==> Deliverable(e)
    ensures Consistent(s')
    decreases |es|
  {
    ScheduledAreServed(s);
    if es == [] || !s.running then s
    else
      StepKeepsConsistent(s, es[0]);
      Run(Step(s, es[0]), es[1..])
  }

  // ---------- what an event does to its client ----------

  /**
   The visited client is the head of the queue. It is due again five seconds later after a failed query, with fewer
   than ten nonces left, or when the request could not be sent, and after its random sleep otherwise. The others wait
   as before.
   */
  lemma TimeoutReschedules(s: State, e: Event)
    requires e.Timeout? && AllCanSleep(s) && s.queue.entries != []
    ensures var head, s' := s.queue.entries[0], OnTimeout(s, e);
      && s' == s.(queue := s'.queue) && s'.queue.now == head.due
      && (if e.query == QueryError || e.noncesLeft < 10 || !e.sent then
            Entry(head.client, head.due + 5.0) in s'.queue.entries
          else
            Entry(head.client, head.due + RandomSleep(head.client, e.rd)) in s'.queue.entries)
      && |s'.queue.entries| == |s.queue.entries|
      && (forall x :: x in s.queue.entries[1..] ==> x in s'.queue.entries)
      && Launched(s, e) == if e.query != QueryError && e.noncesLeft < 10 then Some(head.client) else None
  {
    hide CanSleep, RandomSleep, Place, InsertAt;
    InsertAdds(Pop(s.queue), s.queue.entries[0].client, Interval(s.queue.entries[0].client, e));
  }

  /** The clock after a signal: what is left of the sleep comes off the due time of the head, if there was that much. */
  ghost predicate WokenAt(q: Schedule, timeLeft: real, now: real) {
    now == if q.entries == [] || q.entries[0].due - q.now < timeLeft then q.now else q.entries[0].due - timeLeft
  }

  /** A newcomer is put at the head of the list and into the queue; a client that is served already changes neither. */
  lemma ClientUpEnlists(s: State, e: Event)
    requires Consistent(s) && e.ClientUp? && Deliverable(e)
    ensures var s' := OnClientUp(s, e);
      && WokenAt(s.queue, e.timeLeft, s'.queue.now) && s'.running == s.running
      && (forall x :: x in s.queue.entries ==> x in s'.queue.entries)
      && if e.passed == None || exists c :: c in s.served && SameKey(c, e.passed.value) then
           && s'.served == s.served && s'.queue.entries == s.queue.entries
           && s'.clientsCount == s.clientsCount && s'.passingClient == e.passed
         else
           var c := e.passed.value;
           && s'.served == [c] + s.served && |s'.queue.entries| == |s.queue.entries| + 1
           && Entry(c, s'.queue.now + RandomSleep(c, e.rd)) in s'.queue.entries
           && s'.clientsCount == Wrap32(|s.served| + 1) && s'.passingClient == None
  {
    hide CanSleep, RandomSleep, Place, InsertAt, Ordered, DistinctKeys, Scheduled, Compare, SameKey, Wrap;
    CompareIsZeroEverywhere();
    if e.passed.Some? {
      var k, c := Find(Compare, s.served, e.passed.value), e.passed.value;
      assert k < |s.served| ==> s.served[k] in s.served;
      InsertAdds(Unslept(s.queue, e.timeLeft), c, RandomSleep(c, e.rd));
    }
  }

  /** All other clients keep their places in the list and their due times. */
  lemma ClientDownDelists(s: State, e: Event)
    requires Consistent(s) && e.ClientDown?
    ensures var s' := OnClientDown(s, e);
      && WokenAt(s.queue, e.timeLeft, s'.queue.now) && s'.running == s.running && s'.passingClient == None
      && (forall c :: c in s.served && !SameKey(c, e.gone) ==> c in s'.served)
      && (forall x :: x in s.queue.entries && !SameKey(x.client, e.gone) ==> x in s'.queue.entries)
      && (forall c :: c in s'.served ==> c in s.served) && (forall x :: x in s'.queue.entries ==> x in s.queue.entries)
  {
    hide CanSleep, Ordered, DistinctKeys, Scheduled, Compare, SameKey, Wrap, RemoveAt;
    CompareIsZeroEverywhere();
    var k, p := Find(Compare, s.served, e.gone), PlaceOf(s.queue.entries, e.gone);
    PlaceOfIsFirst(s.queue.entries, e.gone);
    if k < |s.served| {
      RemoveAtKeepsOthers(s.served, k);
    }
    if p < |s.queue.entries| {
      RemoveAtKeepsOthers(s.queue.entries, p);
    }
  }

  /** The order to die is the last event that counts: clients and due times stay as they are, whatever comes next. */
  lemma NothingAfterDie(s: State, timeLeft: real, es: seq<Event>)
    requires Consistent(s) && s.running && forall e :: e in es ==> Deliverable(e)
    ensures var s' := Run(s, [Die(timeLeft)] + es);
      && !s'.running && s'.served == s.served && s'.queue.entries == s.queue.entries
      && s'.clientsCount == s.clientsCount && s'.passingClient == s.passingClient
      && WokenAt(s.queue, timeLeft, s'.queue.now) && Launches(s, [Die(timeLeft)] + es) == []
  {
    hide Consistent, DistinctKeys, Scheduled, CanSleep;
    var all := [Die(timeLeft)] + es;
    ScheduledAreServed(s);
    StepKeepsConsistent(s, all[0]);
    assert all[1..] == es;
    assert Run(s, all) == Run(Step(s, all[0]), es) == Step(s, all[0]);
  }

  // ---------- launches of the extractor ----------

  /** The clients for which the extractor is launched, in order. */
  function Launches(s: State, es: seq<Event>): seq<Client>
    requires Consistent(s) && forall e :: e in es ==> Deliverable(e)
    decreases |es|
  {
    ScheduledAreServed(s);
    if es == [] || !s.running then []
    else
      StepKeepsConsistent(s, es[0]);
      (if Launched(s, es[0]).Some? then [Launched(s, es[0]).value] else []) + Launches(Step(s, es[0]), es[1..])
  }

  /** A client that is short of nonces is a served one, and due again five seconds after its turn. */
  lemma LaunchRetries(s: State, e: Event)
    requires Consistent(s) && AllCanSleep(s) && Deliverable(e) && Launched(s, e).Some?
    ensures var c, q := Launched(s, e).value, Step(s, e).queue;
      c in s.served && q.now == s.queue.entries[0].due && Entry(c, q.now + 5.0) in q.entries
  {
    hide DistinctKeys, Scheduled, Ordered, CanSleep, OnTimeout;
    ScheduledAreServed(s);
    TimeoutReschedules(s, e);
  }

  // ---------- what consistency means for a key ----------

  lemma OnceAmongDistinct(a: seq<Client>, p: nat)
    requires DistinctKeys(a) && p < |a|
    ensures multiset(a)[a[p]] == 1
  {
    hide SameKey, RemoveAt;
    RemoveAtTakes(a, p);
    SameKeyTriangle(a[p], a[p], a[p]);
    assert a[p] !in RemoveAt(a, p);
    assert multiset(RemoveAt(a, p))[a[p]] == 0;
    assert a[p] in a;
  }

  lemma TwiceByIndex(b: seq<Client>, i: nat, j: nat)
    requires i < j < |b| && b[i] == b[j]
    ensures multiset(b)[b[i]] >= 2
  {
    hide RemoveAt;
    RemoveAtTakes(b, j);
    assert RemoveAt(b, j)[i] in multiset(RemoveAt(b, j));
  }

  lemma DistinctKeysOfSame(a: seq<Client>, b: seq<Client>)
    requires DistinctKeys(a) && multiset(a) == multiset(b)
    ensures DistinctKeys(b)
  {
    hide SameKey, RemoveAt;
    forall i, j | 0 <= i < j < |b|
      ensures !SameKey(b[i], b[j])
    {
      assert b[i] in multiset(a) && b[j] in multiset(a);
      var p :| 0 <= p < |a| && a[p] == b[i];
      var q :| 0 <= q < |a| && a[q] == b[j];
      SameKeyTriangle(b[i], b[j], b[j]);
      if p == q {
        OnceAmongDistinct(a, p);
        TwiceByIndex(b, i, j);
      }
    }
  }

  /** Of all entries and all served clients, at most one each has a given key, and either both have it or neither. */
  lemma ServedExactlyOnce(s: State)
    requires Consistent(s)
    ensures |s.queue.entries| == |s.served|
    ensures DistinctKeys(s.served) && DistinctKeys(ClientsOf(s.queue.entries))
    ensures forall i :: 0 <= i < |s.served| ==>
      exists k :: 0 <= k < |s.queue.entries| && s.queue.entries[k].client == s.served[i]
    ensures forall k :: 0 <= k < |s.queue.entries| ==>
      exists i :: 0 <= i < |s.served| && s.served[i] == s.queue.entries[k].client
  {
    hide Ordered, CanSleep;
    ScheduledAreServed(s);
    DistinctKeysOfSame(s.served, ClientsOf(s.queue.entries));
    forall i | 0 <= i < |s.served|
      ensures exists k :: 0 <= k < |s.queue.entries| && s.queue.entries[k].client == s.served[i]
    {
      assert s.served[i] in ClientsOf(s.queue.entries);
      var k :| 0 <= k < |s.queue.entries| && ClientsOf(s.queue.entries)[k] == s.served[i];
      assert s.queue.entries[k].client == s.served[i];
    }
  }

  /** Taking out the first match leaves nothing of the client behind, in either list. */
  lemma DownLeavesNothing(s: State, e: Event)
    requires Consistent(s) && e.ClientDown?
    ensures var s' := OnClientDown(s, e);
      && (forall c :: c in s'.served ==> !SameKey(c, e.gone))
      && (forall x :: x in s'.queue.entries ==> !SameKey(x.client, e.gone))
  {
    hide Ordered, CanSleep, SameKey, Compare;
    var s', k := OnClientDown(s, e), Find(Compare, s.served, e.gone);
    CompareIsZeroEverywhere();
    ClientDownKeepsConsistent(s, e);
    ScheduledAreServed(s');
    forall i | 0 <= i < |s'.served|
      ensures !SameKey(s'.served[i], e.gone)
    {
      if Serves(s, e.gone) {
        SameKeyTriangle(s'.served[i], s.served[k], e.gone);
      }
    }
  }

  /** After any events: one entry per served client, exact counts, and no negative difference but the head's. */
  lemma InEveryRun(es: seq<Event>)
    requires forall e :: e in es ==> Deliverable(e)
    ensures Consistent(Initial())
    ensures var s := Run(Initial(), es);
      && |s.queue.entries| == |s.served| && s.clientsCount == Wrap32(|s.served|)
      && DistinctKeys(s.served) && DistinctKeys(ClientsOf(s.queue.entries))
      && Scheduled(s.queue) == multiset(s.served)
      && forall i :: 1 <= i < |s.queue.entries| ==> 0.0 <= DeltaAt(s.queue, i)
  {
    hide DistinctKeys, CanSleep, Scheduled;
    InitialIsConsistent();
    var s := Run(Initial(), es);
    ServedExactlyOnce(s);
    OrderedByDeltas(s.queue);
  }

  // ---------- who is overdue ----------

  ghost predicate NobodyOverdue(q: Schedule) {
    forall x :: x in q.entries ==> q.now <= x.due
  }

  /** Every signal comes before the end of the sleep that it ends. */
  predicate OnTime(e: Event) {
    match e
    case Timeout(_, _, _, _) => true
    case ClientUp(_, timeLeft, _) => 0.0 <= timeLeft
    case ClientDown(_, timeLeft) => 0.0 <= timeLeft
    case Die(timeLeft) => 0.0 <= timeLeft
  }

  /** A signal that is on time leaves nobody overdue; a late one, when it is accepted, does exactly to the nearest. */
  lemma OverdueAfterWaking(q: Schedule, timeLeft: real)
    requires Ordered(q.entries) && q.entries != [] && timeLeft <= DeltaAt(q, 0)
    ensures 0.0 <= timeLeft <==> NobodyOverdue(Unslept(q, timeLeft))
    ensures forall x :: x in q.entries ==> (x.due < Unslept(q, timeLeft).now <==> x.due - q.entries[0].due < -timeLeft)
  {
    assert q.entries[0] in q.entries;
  }

  lemma StepOnTime(s: State, e: Event)
    requires Consistent(s) && AllCanSleep(s) && Deliverable(e) && OnTime(e) && NobodyOverdue(s.queue)
    ensures NobodyOverdue(Step(s, e).queue)
  {
    hide DistinctKeys, Scheduled, CanSleep, Place, InsertAt, RemoveAt, Find, PlaceOf, Milliseconds;
    match e {
      case Timeout(_, _, _, _) =>
        if s.queue.entries != [] {
          InsertedIsDue(Pop(s.queue), s.queue.entries[0].client, Interval(s.queue.entries[0].client, e));
        }
      case ClientUp(passed, timeLeft, rd) =>
        UnsleptOnTime(s.queue, timeLeft);
        if passed.Some? {
          InsertedIsDue(Unslept(s.queue, timeLeft), passed.value, RandomSleep(passed.value, rd));
        }
      case ClientDown(gone, timeLeft) =>
        UnsleptOnTime(s.queue, timeLeft);
        RemovedIsNotNew(Unslept(s.queue, timeLeft), gone);
      case Die(timeLeft) => UnsleptOnTime(s.queue, timeLeft);
    }
  }

  lemma UnsleptOnTime(q: Schedule, timeLeft: real)
    requires Ordered(q.entries) && NobodyOverdue(q) && 0.0 <= timeLeft
    ensures NobodyOverdue(Unslept(q, timeLeft))
  {
  }

  lemma InsertedIsDue(q: Schedule, c: Client, timeToSleep: real)
    requires NobodyOverdue(q) && 0.0 <= timeToSleep
    ensures NobodyOverdue(Insert(q, c, timeToSleep))
  {
    hide Place;
  }

  lemma RemovedIsNotNew(q: Schedule, c: Client)
    requires NobodyOverdue(q)
    ensures NobodyOverdue(RemoveClient(q, c))
  {
    hide PlaceOf;
  }

  /** When every signal is on time, no client is ever overdue. */
  lemma {:induction false} PunctualRuns(s: State, es: seq<Event>)
    requires Consistent(s) && NobodyOverdue(s.queue)
    requires forall e :: e in es ==> Deliverable(e) && OnTime(e)
    ensures NobodyOverdue(Run(s, es).queue)
    decreases |es|
  {
    hide Consistent, NobodyOverdue, Step;
    if es != [] && s.running {
      ScheduledAreServed(s);
      StepKeepsConsistent(s, es[0]);
      StepOnTime(s, es[0]);
      PunctualRuns(Step(s, es[0]), es[1..]);
    }
  }
}
