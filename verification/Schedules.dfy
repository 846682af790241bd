/** What a delta queue stands for: clients with absolute wake-up times, in order, and the time it is now. */
module Schedules {
  import opened Clients
  import opened GenericLists
  import opened Sequences

  datatype Entry = Entry(client: Client, due: real)

  /** The clock is the queue's own: it moves when the queue is told how long the sleep lasted. */
  datatype Schedule = Schedule(now: real, entries: seq<Entry>)

  ghost predicate Ordered(s: seq<Entry>) {
    forall i, j :: 0 <= i < j < |s| ==> s[i].due <= s[j].due
  }

  /** The time between entry i and the one before it, or now. */
  function DeltaAt(q: Schedule, i: nat): real
    requires i < |q.entries|
  {
    q.entries[i].due - if i == 0 then q.now else q.entries[i - 1].due
  }

  function DeltasOf(q: Schedule): (ds: seq<real>)
    ensures |ds| == |q.entries| && forall i {:trigger ds[i]} :: 0 <= i < |ds| ==> ds[i] == DeltaAt(q, i)
  {
    seq(|q.entries|, i requires 0 <= i < |q.entries| => DeltaAt(q, i))
  }

  function ClientsOf(s: seq<Entry>): (cs: seq<Client>)
    ensures |cs| == |s| && forall i {:trigger cs[i]} {:trigger s[i]} :: 0 <= i < |s| ==> cs[i] == s[i].client
  {
    seq(|s|, i requires 0 <= i < |s| => s[i].client)
  }

  // ---------- insertion ----------

  /** The first entry from k on that is not due before the given time. */
  function Behind(s: seq<Entry>, due: real, k: nat): (p: nat)
    requires k <= |s|
    ensures k <= p <= |s|
    ensures forall i :: k <= i < p ==> s[i].due < due
    ensures p < |s| ==> due <= s[p].due
    decreases |s| - k
  {
    if k < |s| && s[k].due < due then Behind(s, due, k + 1) else k
  }

  /** In front of the entries that are due no earlier, but behind a head that is due at the same time. */
  function Place(s: seq<Entry>, due: real): (p: nat)
    ensures p <= |s|
  {
    if s == [] || due < s[0].due then 0 else Behind(s, due, 1)
  }

  function Insert(q: Schedule, client: Client, timeToSleep: real): Schedule {
    var due := q.now + timeToSleep;
    q.(entries := InsertAt(q.entries, Place(q.entries, due), Entry(client, due)))
  }

  lemma InsertAdds(q: Schedule, client: Client, timeToSleep: real)
    ensures Entry(client, q.now + timeToSleep) in Insert(q, client, timeToSleep).entries
    ensures forall x :: x in q.entries ==> x in Insert(q, client, timeToSleep).entries
  {
    hide Place, InsertAt;
    var s, due := q.entries, q.now + timeToSleep;
    InsertAtAdds(s, Place(s, due), Entry(client, due));
    forall x | x in s
      ensures x in Insert(q, client, timeToSleep).entries
    {
      assert x in multiset(s);
      assert x in multiset(Insert(q, client, timeToSleep).entries);
    }
    assert Entry(client, due) in multiset(Insert(q, client, timeToSleep).entries);
  }

  /** The entries in front of the new one are due before it, but for a head that may be due with it; the others not. */
  lemma InsertedPlace(q: Schedule, client: Client, timeToSleep: real) returns (p: nat)
    ensures p <= |q.entries|
    ensures var due, q' := q.now + timeToSleep, Insert(q, client, timeToSleep);
      && q'.entries == q.entries[..p] + [Entry(client, due)] + q.entries[p..]
      && (p == 0 <==> q.entries == [] || due < q.entries[0].due)
      && (forall i :: 1 <= i < p ==> q.entries[i].due < due)
      && (p < |q.entries| ==> due <= q.entries[p].due)
  {
    p := Place(q.entries, q.now + timeToSleep);
  }

  lemma InsertKeepsOrder(q: Schedule, client: Client, timeToSleep: real)
    requires Ordered(q.entries)
    ensures var q' := Insert(q, client, timeToSleep);
      && Ordered(q'.entries) && q'.now == q.now
      && multiset(q'.entries) == multiset(q.entries) + multiset{Entry(client, q.now + timeToSleep)}
  {
    hide Ordered, InsertAt;
    var s, due := q.entries, q.now + timeToSleep;
    PlaceFits(s, due);
    InsertAtAdds(s, Place(s, due), Entry(client, due));
    InsertAtKeepsOrder(s, Place(s, due), Entry(client, due));
  }

  lemma PlaceFits(s: seq<Entry>, due: real)
    requires Ordered(s)
    ensures var p := Place(s, due);
      (forall i :: 0 <= i < p ==> s[i].due <= due) && (forall i :: p <= i < |s| ==> due <= s[i].due)
  {
  }

  lemma InsertAtKeepsOrder(s: seq<Entry>, p: nat, e: Entry)
    requires Ordered(s) && p <= |s|
    requires (forall i :: 0 <= i < p ==> s[i].due <= e.due) && (forall i :: p <= i < |s| ==> e.due <= s[i].due)
    ensures Ordered(InsertAt(s, p, e))
  {
    var r := InsertAt(s, p, e);
    forall i, j | 0 <= i < j < |r|
      ensures r[i].due <= r[j].due
    {
      assert r[i] == (if i < p then s[i] else if i == p then e else s[i - 1]);
    }
  }

  /** The difference behind place k grows, or shrinks, by the one at k. */
  function Shifted(ds: seq<real>, away: bool, k: nat): (r: seq<real>)
    requires k < |ds|
    ensures |r| == |ds|
  {
    if k + 1 == |ds| then ds else ds[k + 1 := ds[k + 1] + if away then ds[k] else -ds[k]]
  }

  /** Only the two differences next to the new entry are new, and together they make up the one that was there. */
  function DeltasWith(q: Schedule, p: nat, due: real): (ds: seq<real>)
    requires p <= |q.entries|
    ensures |ds| == |q.entries| + 1
  {
    var delta := due - if p == 0 then q.now else q.entries[p - 1].due;
    Shifted(InsertAt(DeltasOf(q), p, delta), false, p)
  }

  lemma DeltaWith(q: Schedule, p: nat, e: Entry, i: nat)
    requires p <= |q.entries| && i <= |q.entries|
    ensures DeltaAt(q.(entries := InsertAt(q.entries, p, e)), i) == DeltasWith(q, p, e.due)[i]
  {
    var r := InsertAt(q.entries, p, e);
    hide InsertAt;
    assert r[i] == if i < p then q.entries[i] else if i == p then e else q.entries[i - 1];
    if i > 0 {
      assert r[i - 1] == if i - 1 < p then q.entries[i - 1] else if i - 1 == p then e else q.entries[i - 2];
    }
  }

  lemma InsertedDeltas(q: Schedule, client: Client, timeToSleep: real)
    ensures var q', due := Insert(q, client, timeToSleep), q.now + timeToSleep;
      && DeltasOf(q') == DeltasWith(q, Place(q.entries, due), due)
      && ClientsOf(q'.entries) == InsertAt(ClientsOf(q.entries), Place(q.entries, due), client)
  {
    hide Place, DeltasWith, DeltaAt;
    var q', due := Insert(q, client, timeToSleep), q.now + timeToSleep;
    forall i: nat | i <= |q.entries|
      ensures DeltaAt(q', i) == DeltasWith(q, Place(q.entries, due), due)[i]
    {
      DeltaWith(q, Place(q.entries, due), Entry(client, due), i);
    }
  }

  // ---------- taking entries out ----------

  /** The head, which becomes due now. */
  function Pop(q: Schedule): Schedule
    requires q.entries != []
  {
    Schedule(q.entries[0].due, q.entries[1..])
  }

  lemma PopTakesMinimum(q: Schedule)
    requires Ordered(q.entries) && q.entries != []
    ensures Ordered(Pop(q).entries)
    ensures forall e :: e in q.entries ==> Pop(q).now <= e.due
    ensures multiset(Pop(q).entries) == multiset(q.entries) - multiset{q.entries[0]}
  {
    assert q.entries == [q.entries[0]] + q.entries[1..];
  }

  /** The other differences stay as they are: sleeping until the head was due has used its difference up. */
  lemma PoppedDeltas(q: Schedule)
    requires q.entries != [] && Ordered(q.entries)
    ensures DeltasOf(Pop(q)) == RemoveAt(DeltasOf(q), 0)
    ensures ClientsOf(Pop(q).entries) == RemoveAt(ClientsOf(q.entries), 0)
    ensures Ordered(Pop(q).entries)
  {
  }

  /** The place of the first entry of the client, or the number of entries. */
  function PlaceOf(s: seq<Entry>, client: Client): (k: nat)
    ensures k <= |s|
  {
    Find(Compare, ClientsOf(s), client)
  }

  /** Only the first entry of the client goes. */
  function RemoveClient(q: Schedule, client: Client): Schedule {
    var k := PlaceOf(q.entries, client);
    if k == |q.entries| then q else q.(entries := RemoveAt(q.entries, k))
  }

  lemma RemoveKeepsOtherTimes(q: Schedule, client: Client)
    requires Ordered(q.entries)
    ensures var q' := RemoveClient(q, client); Ordered(q'.entries) && q'.now == q.now
    ensures var q', k := RemoveClient(q, client), PlaceOf(q.entries, client);
      if k < |q.entries| then
        && SameKey(q.entries[k].client, client)
        && (forall i :: 0 <= i < k ==> !SameKey(q.entries[i].client, client))
        && multiset(q'.entries) == multiset(q.entries) - multiset{q.entries[k]}
      else
        q' == q && forall e :: e in q.entries ==> !SameKey(e.client, client)
  {
    hide Ordered, RemoveAt, SameKey, Compare;
    var k := PlaceOf(q.entries, client);
    PlaceOfIsFirst(q.entries, client);
    if k < |q.entries| {
      RemoveAtTakes(q.entries, k);
      RemoveAtKeepsOrder(q.entries, k);
    }
  }

  /** The entry behind takes over the difference of the one that goes. */
  function DeltasWithout(ds: seq<real>, k: nat): (r: seq<real>)
    requires k < |ds|
    ensures |r| == |ds| - 1
  {
    RemoveAt(Shifted(ds, true, k), k)
  }

  lemma DeltaWithout(q: Schedule, k: nat, i: nat)
    requires k < |q.entries| && i + 1 < |q.entries|
    ensures DeltaAt(q.(entries := RemoveAt(q.entries, k)), i) == DeltasWithout(DeltasOf(q), k)[i]
  {
    hide RemoveAt, DeltasOf;
    var r := RemoveAt(q.entries, k);
    var ds := DeltasOf(q);
    assert DeltasWithout(ds, k)[i] == if i < k then ds[i] else if i == k then ds[k + 1] + ds[k] else ds[i + 1];
    assert r[i] == if i < k then q.entries[i] else q.entries[i + 1];
    if i > 0 {
      assert r[i - 1] == if i - 1 < k then q.entries[i - 1] else q.entries[i];
    }
  }

  lemma RemovedDeltas(q: Schedule, k: nat)
    requires k < |q.entries|
    ensures var q' := q.(entries := RemoveAt(q.entries, k));
      && DeltasOf(q') == DeltasWithout(DeltasOf(q), k)
      && ClientsOf(q'.entries) == RemoveAt(ClientsOf(q.entries), k)
  {
    hide DeltasWithout, DeltaAt;
    var q' := q.(entries := RemoveAt(q.entries, k));
    forall i: nat | i < |q'.entries|
      ensures DeltaAt(q', i) == DeltasWithout(DeltasOf(q), k)[i]
    {
      DeltaWithout(q, k, i);
    }
  }

  lemma PlaceOfIsFirst(s: seq<Entry>, client: Client)
    ensures var k := PlaceOf(s, client);
      && (forall i :: 0 <= i < k ==> !SameKey(s[i].client, client))
      && (k < |s| ==> SameKey(s[k].client, client))
  {
    hide SameKey, Compare;
    CompareIsZeroEverywhere();
    assert forall i :: 0 <= i < PlaceOf(s, client) ==> Compare(ClientsOf(s)[i], client) != 0;
  }

  lemma RemoveAtKeepsOrder(s: seq<Entry>, k: nat)
    requires Ordered(s) && k < |s|
    ensures Ordered(RemoveAt(s, k))
  {
  }

  // ---------- time ----------

  /** The sleep ended early, with this much of it left; refused when it is more than there was. */
  function Unslept(q: Schedule, timeLeft: real): Schedule {
    if q.entries == [] || DeltaAt(q, 0) < timeLeft then q else q.(now := q.entries[0].due - timeLeft)
  }

  /** Sleeping brings every client nearer by the same time. */
  lemma UnsleptShiftsAll(q: Schedule, timeLeft: real)
    requires q.entries != [] && timeLeft <= DeltaAt(q, 0)
    ensures var q' := Unslept(q, timeLeft);
      && q'.entries == q.entries && DeltaAt(q', 0) == timeLeft && q'.now == q.entries[0].due - timeLeft
      && forall i :: 1 <= i < |q.entries| ==> DeltaAt(q', i) == DeltaAt(q, i)
    ensures forall e :: e in q.entries ==>
      e.due - Unslept(q, timeLeft).now == (e.due - q.now) - (DeltaAt(q, 0) - timeLeft)
  {
  }

  /** The sum of the first n differences. */
  function DeltaSum(q: Schedule, n: nat): real
    requires n <= |q.entries|
  {
    if n == 0 then 0.0 else DeltaSum(q, n - 1) + DeltaAt(q, n - 1)
  }

  /** The differences up to an entry add up to the time until it is due. */
  lemma {:induction false} DeltasAddUp(q: Schedule, n: nat)
    requires 1 <= n <= |q.entries|
    ensures DeltaSum(q, n) == q.entries[n - 1].due - q.now
  {
    if n > 1 {
      DeltasAddUp(q, n - 1);
    }
  }

  /** Order is what it takes for all differences but the first to be times to sleep. */
  lemma {:induction false} OrderedByDeltas(q: Schedule)
    ensures Ordered(q.entries) <==> forall i :: 1 <= i < |q.entries| ==> 0.0 <= DeltaAt(q, i)
  {
    if forall i :: 1 <= i < |q.entries| ==> 0.0 <= DeltaAt(q, i) {
      forall i, j | 0 <= i < j < |q.entries|
        ensures q.entries[i].due <= q.entries[j].due
      {
        Climb(q, i, j);
      }
    }
  }

  lemma {:induction false} Climb(q: Schedule, i: nat, j: nat)
    requires i <= j < |q.entries| && forall k :: 1 <= k < |q.entries| ==> 0.0 <= DeltaAt(q, k)
    ensures q.entries[i].due <= q.entries[j].due
  {
    if i < j {
      Climb(q, i, j - 1);
      assert 0.0 <= DeltaAt(q, j);
    }
  }
}
