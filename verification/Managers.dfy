/** The actual manager: a thread that keeps a list of served clients and a queue of when to visit them. */
module Managers {
  import opened Bytes
  import opened Clients
  import opened Defines
  import opened GenericLists
  import opened ManagerRuns
  import opened Schedules
  import opened Sequences
  import opened SchedulerQueues
  import opened SleepTimes

  lemma HeadCanSleep(s: State)
    requires AllCanSleep(s)
    ensures s.queue.entries != [] ==> CanSleep(s.queue.entries[0].client)
  {
  }

  class ActualManager {
    const clientsList: GenericList<Client>
    const scheduledClients: SchedulerQueue
    var clientsCount: uint32
    var passingClient: Option<Client>
    var running: bool

    ghost function View(): State
      reads this, clientsList, scheduledClients
    {
      State(clientsList.contents, scheduledClients.schedule, clientsCount, passingClient, running)
    }

    ghost predicate Parts()
      reads this, clientsList, clientsList.repr, scheduledClients, scheduledClients.repr
    {
      clientsList.Valid() && clientsList.compare == Compare && scheduledClients.Valid()
    }

    ghost predicate Valid()
      reads this, clientsList, clientsList.repr, scheduledClients, scheduledClients.repr
    {
      Parts() && Consistent(View())
    }

    /** The start of `actual_manager_routine`. */
    constructor ()
      ensures Valid() && View() == Initial()
      ensures fresh(clientsList) && fresh(clientsList.repr) && fresh(scheduledClients) && fresh(scheduledClients.repr)
    {
      hide Consistent, GenericList.Valid, SchedulerQueue.Valid;
      InitialIsConsistent();
      clientsList := new GenericList(Compare);
      scheduledClients := new SchedulerQueue();
      clientsCount, passingClient, running := 0, None, true;
    }

    /** `serve_client`, with what the data base and the connection answered. */
    static method Serve(query: NonceQuery, noncesLeft: uint32, sent: bool) returns (served: bool, launched: bool)
      ensures served == ServeClient(query, noncesLeft, sent) && launched == NeedsNonces(query, noncesLeft)
      ensures served <==> query != QueryError && 10 <= noncesLeft && sent
      ensures launched <==> query != QueryError && noncesLeft < 10
    {
      if query != NonceFound && query != NoData {
        return false, false;
      }
      if noncesLeft < NONCE_CRITICAL_THRESHOLD {
        return false, true;
      }
      return sent, false;
    }

    /** The sleep ran out: visit the head of the queue and put it back. */
    method OnTimeout(e: Event, ghost s: State) returns (launched: Option<Client>)
      requires Valid() && e.Timeout? && View() == s && AllCanSleep(s)
      modifies scheduledClients, scheduledClients.repr
      ensures Valid() && View() == ManagerRuns.OnTimeout(s, e) && launched == Launched(s, e)
      ensures s.queue.entries == [] ==> View() == s && launched == None
      ensures s.queue.entries != [] ==>
        var head, q := s.queue.entries[0], scheduledClients.schedule;
        && launched == (if e.query != QueryError && e.noncesLeft < 10 then Some(head.client) else None)
        && if e.query == QueryError || e.noncesLeft < 10 || !e.sent then Entry(head.client, head.due + 5.0) in q.entries
           else Entry(head.client, head.due + RandomSleep(head.client, e.rd)) in q.entries
      ensures fresh(scheduledClients.repr - old(scheduledClients.repr))
    {
      hide Consistent, CanSleep, AllCanSleep, RandomSleep, Schedules.Insert, Pop, GenericList.Valid,
        SchedulerQueue.Valid;
      TimeoutKeepsConsistent(s, e);
      HeadCanSleep(s);
      if s.queue.entries != [] {
        TimeoutReschedules(s, e);
      }
      launched := None;
      var clientToServe := scheduledClients.Remove();
      if clientToServe != None {
        var c := clientToServe.value;
        var served, short := Serve(e.query, e.noncesLeft, e.sent);
        launched := if short then Some(c) else None;
        var again := if served then RandomSleep(c, e.rd) else NOT_SERVED_RE_SCHEDULING_STANDARD_TIME;
        var rc := scheduledClients.Insert(c, again);
      }
    }

    /** A new client joins the list and the queue; one that is served already changes nothing. */
    method Enlist(c: Client, rd: Random)
      requires Parts() && CanSleep(c)
      modifies this, clientsList, scheduledClients, scheduledClients.repr
      ensures Parts() && running == old(running)
      ensures fresh(clientsList.repr - old(clientsList.repr))
      ensures fresh(scheduledClients.repr - old(scheduledClients.repr))
      ensures if Find(Compare, old(clientsList.contents), c) < |old(clientsList.contents)| then
          View() == old(View())
        else
          View() == State([c] + old(clientsList.contents),
                          Schedules.Insert(old(scheduledClients.schedule), c, RandomSleep(c, rd)),
                          Wrap32(|old(clientsList.contents)| + 1), None, old(running))
    {
      hide CanSleep, Schedules.Insert, GenericList.Valid, SchedulerQueue.Valid, Wrap;
      var rc := clientsList.Insert(c);
      if rc != GlErrorItemAlreadyPresent {
        clientsCount := clientsList.Count();
        var _ := scheduledClients.Insert(c, RandomSleep(c, rd));
        passingClient := None;
      }
    }

    /** A client has been launched. */
    method OnClientUp(e: Event, ghost s: State)
      requires Valid() && e.ClientUp? && Deliverable(e) && View() == s
      modifies this, clientsList, scheduledClients, scheduledClients.repr
      ensures Valid() && View() == ManagerRuns.OnClientUp(s, e)
      ensures fresh(clientsList.repr - old(clientsList.repr))
      ensures fresh(scheduledClients.repr - old(scheduledClients.repr))
    {
      hide Consistent, CanSleep, RandomSleep, Schedules.Insert, Unslept, Find, Wrap, GenericList.Valid,
        SchedulerQueue.Valid;
      ClientUpKeepsConsistent(s, e);
      passingClient := e.passed;
      var rc := scheduledClients.UpdateTimeUnslept(e.timeLeft);
      if passingClient != None {
        Enlist(passingClient.value, e.rd);
      }
    }

    /** A served client leaves the queue and the list. */
    method Delist(gone: Client)
      requires Parts()
      modifies this, clientsList, clientsList.repr, scheduledClients, scheduledClients.repr
      ensures Parts() && running == old(running)
      ensures clientsList.repr == old(clientsList.repr) && scheduledClients.repr == old(scheduledClients.repr)
      ensures passingClient == None
      ensures var k := Find(Compare, old(clientsList.contents), gone);
        if k < |old(clientsList.contents)| then
          && clientsList.contents == RemoveAt(old(clientsList.contents), k)
          && scheduledClients.schedule == RemoveClient(old(scheduledClients.schedule), gone)
          && clientsCount == Wrap32(|clientsList.contents|)
        else
          && clientsList.contents == old(clientsList.contents)
          && scheduledClients.schedule == old(scheduledClients.schedule)
          && clientsCount == old(clientsCount)
    {
      hide RemoveClient, GenericList.Valid, SchedulerQueue.Valid, Wrap, RemoveAt, PlaceOf;
      var contained := clientsList.IsContaining(gone);
      if contained {
        var unscheduled := scheduledClients.RemoveAllScheduled(gone);
        var clientToDestroy := clientsList.Remove(gone);
        clientsCount := clientsList.Count();
      }
      passingClient := None;
    }

    /** A client has been shut down. */
    method OnClientDown(e: Event, ghost s: State)
      requires Valid() && e.ClientDown? && View() == s
      modifies this, clientsList, clientsList.repr, scheduledClients, scheduledClients.repr
      ensures Valid() && View() == ManagerRuns.OnClientDown(s, e)
      ensures clientsList.repr == old(clientsList.repr) && scheduledClients.repr == old(scheduledClients.repr)
    {
      hide Consistent, RemoveClient, GenericList.Valid, SchedulerQueue.Valid, Wrap, Unslept, RemoveAt, Find;
      ClientDownKeepsConsistent(s, e);
      var rc := scheduledClients.UpdateTimeUnslept(e.timeLeft);
      Delist(e.gone);
    }

    /** The order to die ends the loop; the queue and the list are not used again. */
    method OnDie(e: Event, ghost s: State)
      requires Valid() && e.Die? && View() == s
      modifies this, scheduledClients, scheduledClients.repr
      ensures Valid() && View() == s.(queue := Unslept(s.queue, e.timeLeft), running := false)
      ensures scheduledClients.repr == old(scheduledClients.repr)
    {
      hide DistinctKeys, Scheduled, Ordered, CanSleep, GenericList.Valid, SchedulerQueue.Valid, Wrap, Unslept;
      SleepingKeepsClients(s.queue, e.timeLeft);
      var rc := scheduledClients.UpdateTimeUnslept(e.timeLeft);
      running := false;
    }

    method Handle(e: Event, ghost s: State) returns (launched: Option<Client>)
      requires Valid() && View() == s && AllCanSleep(s) && Deliverable(e)
      modifies this, clientsList, clientsList.repr, scheduledClients, scheduledClients.repr
      ensures Valid() && View() == Step(s, e) && launched == Launched(s, e)
      ensures fresh(clientsList.repr - old(clientsList.repr))
      ensures fresh(scheduledClients.repr - old(scheduledClients.repr))
    {
      hide Consistent, Parts, AllCanSleep, Unslept, ManagerRuns.OnTimeout, ManagerRuns.OnClientUp,
        ManagerRuns.OnClientDown;
      launched := None;
      match e {
        case Timeout(_, _, _, _) => launched := OnTimeout(e, s);
        case ClientUp(_, _, _) => OnClientUp(e, s);
        case ClientDown(_, _) => OnClientDown(e, s);
        case Die(_) => OnDie(e, s);
      }
    }

    /** `actual_manager_routine`, with the events in the order in which they are delivered. */
    method Routine(events: seq<Event>, ghost s: State) returns (launched: seq<Client>)
      requires Valid() && View() == s && forall e :: e in events ==> Deliverable(e)
      modifies this, clientsList, clientsList.repr, scheduledClients, scheduledClients.repr
      ensures Valid() && View() == Run(s, events) && launched == Launches(s, events)
    {
      hide Consistent, Parts, AllCanSleep, Step, Launched;
      var k := 0;
      launched := [];
      while running && k < |events|
        invariant k <= |events| && Valid() && Run(View(), events[k..]) == Run(s, events)
        invariant launched + Launches(View(), events[k..]) == Launches(s, events)
        invariant fresh(clientsList.repr - old(clientsList.repr))
        invariant fresh(scheduledClients.repr - old(scheduledClients.repr))
        decreases |events| - k
      {
        ghost var now := View();
        ScheduledAreServed(now);
        assert events[k..][1..] == events[k + 1..];
        var launch := Handle(events[k], now);
        launched := launched + if launch == None then [] else [launch.value];
        k := k + 1;
      }
    }
  }
}
