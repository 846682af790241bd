/** The delta queue: linked items that store how much later than their predecessor they are due. */
module SchedulerQueues {
  import opened Bytes
  import opened Clients
  import opened Defines
  import opened GenericLists
  import opened Schedules
  import opened Sequences

  datatype SqResult = SqSuccess | SqErrorInvalidTime

  class QueueItem {
    const client: Client
    var deltaTimeToSleep: real
    var next: QueueItem?

    constructor (client: Client)
      ensures this.client == client
    {
      this.client := client;
    }
  }

  ghost function Names(items: seq<QueueItem>): (cs: seq<Client>)
    ensures |cs| == |items|
    ensures forall i {:trigger cs[i]} {:trigger items[i]} :: 0 <= i < |items| ==> cs[i] == items[i].client
  {
    seq(|items|, i requires 0 <= i < |items| => items[i].client)
  }

  lemma NamesInserted(items: seq<QueueItem>, p: nat, item: QueueItem)
    requires p <= |items|
    ensures Names(InsertAt(items, p, item)) == InsertAt(Names(items), p, item.client)
  {
  }

  lemma NamesRemoved(items: seq<QueueItem>, k: nat)
    requires k < |items|
    ensures Names(RemoveAt(items, k)) == RemoveAt(Names(items), k)
  {
  }

  class SchedulerQueue {
    var head: QueueItem?
    var itemsCount: uint32
    ghost var schedule: Schedule
    ghost var items: seq<QueueItem>
    ghost var deltas: seq<real>
    ghost var repr: set<QueueItem>

    /** The chain of items, with what they store. */
    ghost predicate Linked()
      reads this`head, this`items, this`deltas, this`repr, repr
    {
      && |deltas| == |items|
      && (forall i {:trigger items[i]} :: 0 <= i < |items| ==>
        items[i] in repr && items[i].deltaTimeToSleep == deltas[i])
      && (forall i, j :: 0 <= i < j < |items| ==> items[i] != items[j])
      && (if items == [] then head == null else head == items[0] && items[|items| - 1].next == null)
      && (forall i :: 0 <= i < |items| - 1 ==> items[i].next == items[i + 1])
    }

    ghost predicate Valid()
      reads this, repr
    {
      && Linked()
      && Names(items) == ClientsOf(schedule.entries) && deltas == DeltasOf(schedule)
      && Ordered(schedule.entries)
      && itemsCount == Wrap32(|schedule.entries|)
    }

    /** `sq_create`. */
    constructor ()
      ensures Valid() && schedule == Schedule(0.0, []) && repr == {}
    {
      head, itemsCount := null, 0;
      schedule, items, deltas, repr := Schedule(0.0, []), [], [], {};
    }

    /** `sq_count`. */
    method Count() returns (n: uint32)
      requires Valid()
      ensures n == Wrap32(|schedule.entries|)
    {
      return itemsCount;
    }

    /** `sq_get_time_to_sleep`. */
    method GetTimeToSleep() returns (t: real)
      requires Valid()
      ensures t == if schedule.entries == [] then 3600.0 else schedule.entries[0].due - schedule.now
    {
      if head != null {
        return head.deltaTimeToSleep;
      } else {
        return EMPTY_SQ_LIST_TTS;
      }
    }

    method SetDelta(item: QueueItem, delta: real, ghost k: nat)
      requires Linked() && k < |items| && item == items[k]
      modifies this`deltas, item`deltaTimeToSleep
      ensures Linked() && deltas == old(deltas)[k := delta]
    {
      item.deltaTimeToSleep := delta;
      deltas := deltas[k := delta];
    }

    /** The item behind gets the difference of this one on top of, or taken off, its own. */
    method ShiftNext(item: QueueItem, away: bool, ghost k: nat)
      requires Linked() && k < |items| && item == items[k]
      modifies this`deltas, repr`deltaTimeToSleep
      ensures Linked() && deltas == Shifted(old(deltas), away, k)
    {
      assert k + 1 < |items| ==> items[k].next == items[k + 1];
      if item.next != null {
        var delta := item.next.deltaTimeToSleep + if away then item.deltaTimeToSleep else -item.deltaTimeToSleep;
        SetDelta(item.next, delta, k + 1);
      }
    }

    // ---------- insertion ----------

    /** The search loop of `sq_insert`: the item to insert behind, and when it is due, counted from now. */
    method Scan(timeToSleep: real) returns (iter: QueueItem, timeSum: real, ghost k: nat)
      requires Valid() && items != [] && DeltaAt(schedule, 0) <= timeToSleep
      ensures k < |items| && iter == items[k] && iter in repr && timeSum == schedule.entries[k].due - schedule.now
      ensures k + 1 == Place(schedule.entries, schedule.now + timeToSleep)
    {
      hide Ordered, Wrap, DeltasOf, ClientsOf, Names;
      ghost var s, due := schedule.entries, schedule.now + timeToSleep;
      iter, timeSum, k := head, head.deltaTimeToSleep, 0;
      assert 1 < |items| ==> items[0].next == items[1];
      while iter.next != null && timeSum + iter.next.deltaTimeToSleep < timeToSleep
        invariant k < |items| && iter == items[k] && iter.next == if k + 1 < |items| then items[k + 1] else null
        invariant timeSum == s[k].due - schedule.now
        invariant Behind(s, due, 1) == Behind(s, due, k + 1)
        decreases |items| - k
      {
        assert k + 2 < |items| ==> items[k + 1].next == items[k + 2];
        assert iter.next.deltaTimeToSleep == DeltaAt(schedule, k + 1);
        timeSum := timeSum + iter.next.deltaTimeToSleep;
        iter, k := iter.next, k + 1;
      }
    }

    /** The test of `sq_insert`: an empty queue, or a head that is due later. */
    method GoesFirst(timeToSleep: real) returns (first: bool)
      requires Valid()
      ensures first <==> Place(schedule.entries, schedule.now + timeToSleep) == 0
      ensures !first ==> items != [] && DeltaAt(schedule, 0) <= timeToSleep
    {
      hide Ordered, Wrap, DeltasOf, ClientsOf, Names;
      return head == null || head.deltaTimeToSleep > timeToSleep;
    }

    /** The new item becomes the head. */
    method LinkFront(item: QueueItem)
      requires Linked() && item !in repr
      modifies this`head, this`items, this`deltas, this`repr, item`next
      ensures Linked() && items == InsertAt(old(items), 0, item) && repr == old(repr) + {item}
      ensures deltas == InsertAt(old(deltas), 0, item.deltaTimeToSleep)
    {
      item.next := head;
      head := item;
      items, repr := InsertAt(items, 0, item), repr + {item};
      deltas := InsertAt(deltas, 0, item.deltaTimeToSleep);
    }

    /** The new item goes behind place k. */
    method LinkBehind(iter: QueueItem, item: QueueItem, ghost k: nat)
      requires Linked() && item !in repr && k < |items| && iter == items[k]
      modifies this`items, this`deltas, this`repr, item`next, iter`next
      ensures Linked() && items == InsertAt(old(items), k + 1, item) && repr == old(repr) + {item}
      ensures deltas == InsertAt(old(deltas), k + 1, item.deltaTimeToSleep)
    {
      assert k + 1 < |items| ==> items[k].next == items[k + 1];
      item.next := iter.next;
      iter.next := item;
      items, repr := InsertAt(items, k + 1, item), repr + {item};
      deltas := InsertAt(deltas, k + 1, item.deltaTimeToSleep);
    }

    /** The part of `sq_insert` that finds the place and links the new item. */
    method Link(item: QueueItem, timeToSleep: real) returns (ghost p: nat)
      requires Valid() && item !in repr
      modifies this`head, this`items, this`deltas, this`repr, repr`next, item
      ensures Linked() && repr == old(repr) + {item} && p < |items| && items[p] == item
      ensures p == Place(schedule.entries, schedule.now + timeToSleep) && items == InsertAt(old(items), p, item)
      ensures item.deltaTimeToSleep == timeToSleep - if p == 0 then 0.0 else schedule.entries[p - 1].due - schedule.now
      ensures deltas == InsertAt(old(deltas), p, item.deltaTimeToSleep)
    {
      hide Ordered, Wrap, DeltasOf, ClientsOf, Names, Linked, InsertAt, Place;
      p := Place(schedule.entries, schedule.now + timeToSleep);
      var first := GoesFirst(timeToSleep);
      if first {
        item.deltaTimeToSleep := timeToSleep;
        LinkFront(item);
      } else {
        var iter, timeSum, k := Scan(timeToSleep);
        item.deltaTimeToSleep := timeToSleep - timeSum;
        LinkBehind(iter, item, k);
      }
    }

    /** `sq_insert`. */
    method Insert(client: Client, timeToSleep: real) returns (rc: SqResult)
      requires Valid()
      modifies this, repr
      ensures Valid() && fresh(repr - old(repr))
      ensures rc == SqSuccess && schedule == Schedules.Insert(old(schedule), client, timeToSleep)
    {
      hide Ordered, Wrap, Place, DeltasOf, ClientsOf, Names, Linked, InsertAt, DeltaAt;
      InsertKeepsOrder(schedule, client, timeToSleep);
      InsertedDeltas(schedule, client, timeToSleep);
      WrapAdd(|schedule.entries|, 1, 0x1_0000_0000);
      var item := new QueueItem(client);
      ghost var before := items;
      var p := Link(item, timeToSleep);
      NamesInserted(before, p, item);
      itemsCount := Wrap32(itemsCount + 1);
      ShiftNext(item, false, p);
      schedule := Schedules.Insert(schedule, client, timeToSleep);
      return SqSuccess;
    }

    // ---------- time ----------

    /** `sq_update_time_unslept`. */
    method UpdateTimeUnslept(timeLeft: real) returns (rc: SqResult)
      requires Valid()
      modifies this`schedule, this`deltas, repr`deltaTimeToSleep
      ensures Valid() && schedule == Unslept(old(schedule), timeLeft)
      ensures var q := old(schedule);
        if q.entries == [] then rc == SqSuccess && schedule == q
        else if q.entries[0].due - q.now < timeLeft then rc == SqErrorInvalidTime && schedule == q
        else rc == SqSuccess && schedule == q.(now := q.entries[0].due - timeLeft)
    {
      hide Ordered, Wrap, DeltasOf, ClientsOf, Names;
      if head != null {
        if head.deltaTimeToSleep < timeLeft {
          return SqErrorInvalidTime;
        }
        SetDelta(head, timeLeft, 0);
      }
      schedule := Unslept(schedule, timeLeft);
      return SqSuccess;
    }

    // ---------- taking items out ----------

    /** `sq_remove`. */
    method Remove() returns (client: Option<Client>)
      requires Valid()
      modifies this
      ensures Valid() && repr == old(repr)
      ensures if old(schedule).entries == [] then client == None && schedule == old(schedule)
              else client == Some(old(schedule).entries[0].client) && schedule == Pop(old(schedule))
      ensures old(schedule).entries != [] ==>
        schedule == Schedule(old(schedule).entries[0].due, old(schedule).entries[1..])
    {
      hide Ordered, Wrap, DeltasOf, ClientsOf, Names, DeltaAt;
      if head == null {
        return None;
      }
      client := Some(head.client);
      PoppedDeltas(schedule);
      NamesRemoved(items, 0);
      UnlinkFront();
      DecrementCount();
      schedule := Pop(schedule);
    }

    method UnlinkFront()
      requires Linked() && items != []
      modifies this`head, this`items, this`deltas
      ensures Linked() && items == RemoveAt(old(items), 0) && deltas == RemoveAt(old(deltas), 0)
    {
      assert 1 < |items| ==> items[0].next == items[1];
      head := head.next;
      items, deltas := RemoveAt(items, 0), RemoveAt(deltas, 0);
    }

    /** Takes the item behind place k out of the chain. */
    method UnlinkBehind(iter: QueueItem, ghost k: nat)
      requires Linked() && k + 1 < |items| && iter == items[k]
      modifies this`items, this`deltas, iter`next
      ensures Linked() && items == RemoveAt(old(items), k + 1) && deltas == RemoveAt(old(deltas), k + 1)
    {
      var tmp := iter.next;
      assert k + 2 < |items| ==> items[k + 1].next == items[k + 2];
      iter.next := tmp.next;
      items, deltas := RemoveAt(items, k + 1), RemoveAt(deltas, k + 1);
    }

    /** The item in front of the client's first one, or the last item. */
    method Predecessor(client: Client) returns (iter: QueueItem, ghost k: nat)
      requires Linked() && items != [] && Compare(head.client, client) != 0
      ensures k < |items| && iter == items[k] && iter.next == if k + 1 < |items| then items[k + 1] else null
      ensures Find(Compare, Names(items), client) == k + 1
    {
      iter, k := head, 0;
      assert 1 < |items| ==> items[0].next == items[1];
      while iter.next != null && Compare(iter.next.client, client) != 0
        invariant k < |items| && iter == items[k] && iter.next == if k + 1 < |items| then items[k + 1] else null
        invariant forall i :: 0 <= i <= k ==> Compare(items[i].client, client) != 0
        decreases |items| - k
      {
        assert k + 2 < |items| ==> items[k + 1].next == items[k + 2];
        iter, k := iter.next, k + 1;
      }
      if iter.next == null {
        FindNothing(Compare, Names(items), client);
      } else {
        FindIsFirst(Compare, Names(items), client, k + 1);
      }
    }

    /** The head goes, and its difference goes to the next item. */
    method DropFront()
      requires Valid() && items != []
      modifies this`head, this`items, this`deltas, this`schedule, this`itemsCount, repr`deltaTimeToSleep
      ensures Valid() && schedule == old(schedule).(entries := RemoveAt(old(schedule).entries, 0))
    {
      hide Ordered, Wrap, DeltasOf, DeltaAt, ClientsOf, Names, RemoveAt, Shifted, Compare, InsertAt;
      RemovedDeltas(schedule, 0);
      NamesRemoved(items, 0);
      RemoveAtKeepsOrder(schedule.entries, 0);
      ShiftNext(head, true, 0);
      UnlinkFront();
      DecrementCount();
      schedule := schedule.(entries := RemoveAt(schedule.entries, 0));
    }

    /** The item behind place k goes, and its difference goes to the one behind it. */
    method DropBehind(iter: QueueItem, tmp: QueueItem, ghost k: nat)
      requires Valid() && k + 1 < |items| && iter == items[k] && tmp == items[k + 1]
      modifies this`items, this`deltas, this`schedule, this`itemsCount, repr
      ensures Valid() && schedule == old(schedule).(entries := RemoveAt(old(schedule).entries, k + 1))
    {
      hide Ordered, Wrap, DeltasOf, ClientsOf, Names, RemoveAt, Shifted, Linked;
      RemovedDeltas(schedule, k + 1);
      NamesRemoved(items, k + 1);
      RemoveAtKeepsOrder(schedule.entries, k + 1);
      ShiftNext(tmp, true, k + 1);
      UnlinkBehind(iter, k);
      DecrementCount();
      schedule := schedule.(entries := RemoveAt(schedule.entries, k + 1));
    }

    method DecrementCount()
      requires itemsCount == Wrap32(|items| + 1)
      modifies this`itemsCount
      ensures itemsCount == Wrap32(|items|)
    {
      WrapAdd(|items| + 1, -1, 0x1_0000_0000);
      itemsCount := Wrap32(itemsCount - 1);
    }

    /** `sq_remove_all_scheduled`: despite its name it stops at the first item of the client. */
    method RemoveAllScheduled(client: Client) returns (r: Option<Client>)
      requires Valid()
      modifies this, repr
      ensures Valid() && repr == old(repr) && schedule == RemoveClient(old(schedule), client)
      ensures var k := PlaceOf(old(schedule).entries, client);
        r == if k < |old(schedule).entries| then Some(old(schedule).entries[k].client) else None
    {
      hide Ordered, Wrap, DeltasOf, ClientsOf, Names, RemoveAt, Find;
      if head == null {
        return None;
      }
      if Compare(head.client, client) == 0 {
        FindIsFirst(Compare, Names(items), client, 0);
        r := Some(head.client);
        DropFront();
      } else {
        var iter, k := Predecessor(client);
        if iter.next == null {
          return None;
        }
        r := Some(iter.next.client);
        DropBehind(iter, iter.next, k);
      }
    }

    lemma NothingLinked()
      requires Linked() && items == []
      ensures head == null
    {
    }

    /** `sq_destroy`: as many items as were counted are released, each once; that is all of them below 2^32. */
    method Destroy() returns (ghost released: seq<QueueItem>)
      requires Valid()
      modifies this
      ensures itemsCount == 0 && |released| == Wrap32(|old(items)|) && released == old(items[..|released|])
      ensures |old(items)| < 0x1_0000_0000 ==> head == null && released == old(items)
    {
      hide Ordered, Wrap, DeltasOf, ClientsOf, Names, RemoveAt, Linked;
      released := [];
      ghost var all := items;
      WrapIsSmall(|all|, 0x1_0000_0000);
      while itemsCount > 0
        modifies this
        invariant Linked() && itemsCount <= |items| && all == released + items
        invariant |released| + itemsCount == Wrap32(|all|) && repr == old(repr)
        decreases itemsCount
      {
        released := released + [items[0]];
        UnlinkFront();
        itemsCount := itemsCount - 1;
      }
      if items == [] {
        NothingLinked();
      }
    }
  }
}
