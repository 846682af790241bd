/** How long a client is left alone after it has been served. */
module SleepTimes {
  import opened Bytes
  import opened Clients
  import opened NumberTheory

  /** `rand()` returns a non-negative `int`. */
  type Random = n: int | 0 <= n < 0x8000_0000

  /** The code divides by this 32-bit product; nothing keeps it from being 0. */
  function Spread(client: Client): uint32 {
    Wrap32(Wrap32(2 * client.sleepVarSeconds) * 1000)
  }

  predicate CanSleep(client: Client) {
    Spread(client) != 0
  }

  /** The code divides by 0 exactly on the multiples of 2^28: the spread is 2000 times the variation, in 32 bits. */
  lemma CanSleepIff(client: Client)
    ensures CanSleep(client) <==> client.sleepVarSeconds % 0x1000_0000 != 0
  {
    var v, m := client.sleepVarSeconds, 0x1000_0000;
    var q, r := v / m, v % m;
    SpreadInOne(client);
    var k := WrapDifference(2000 * v, 16 * m);
    if r == 0 {
      WrapShift(0, 16 * m, 125 * q);
    }
    if Spread(client) == 0 {
      var e := k - 125 * q;
      assert 125 * r == m * e;
      assert r == m * (115964117 * e - 54 * r); // 115964117 is the inverse of 125 modulo m
      SmallMultiple(r, m, 115964117 * e - 54 * r);
    }
  }

  lemma SpreadInOne(client: Client)
    ensures Spread(client) == Wrap32(2000 * client.sleepVarSeconds)
  {
    var k := WrapDifference(2 * client.sleepVarSeconds, 0x1_0000_0000);
    WrapShift(1000 * Wrap32(2 * client.sleepVarSeconds), 0x1_0000_0000, 1000 * k);
  }

  /** The longest pause: average and variation together, in milliseconds of 32 bits. */
  function Total(client: Client): uint32 {
    Wrap32(1000 * Wrap32(client.sleepAvgSeconds + client.sleepVarSeconds))
  }

  /** `compute_random_sleep`, in milliseconds of 32 bits. */
  function Milliseconds(client: Client, rd: Random): uint32
    requires CanSleep(client)
  {
    Wrap32(Total(client) - rd % Spread(client))
  }

  function RandomSleep(client: Client, rd: Random): real
    requires CanSleep(client)
  {
    Milliseconds(client, rd) as real / 1000.0
  }

  /** Every wrap-around of the computation in one formula, for every client whose division is defined. */
  lemma SleepFormula(client: Client, rd: Random)
    requires CanSleep(client)
    ensures var avg, v := client.sleepAvgSeconds, client.sleepVarSeconds;
      && (2000 * v) % 0x1_0000_0000 != 0
      && RandomSleep(client, rd) ==
         ((1000 * (avg + v) - rd % ((2000 * v) % 0x1_0000_0000)) % 0x1_0000_0000) as real / 1000.0
  {
    hide Wrap;
    var avg: int, v: int := client.sleepAvgSeconds, client.sleepVarSeconds;
    SpreadInOne(client);
    TotalInOne(client);
    WrapIsModulo(2000 * v, 0x1_0000_0000);
    var taken := rd % Spread(client);
    WrapAdd(1000 * (avg + v), -taken, 0x1_0000_0000);
    WrapIsModulo(1000 * (avg + v) - taken, 0x1_0000_0000);
  }

  /** The most that a random number can take off the total. */
  function MostTaken(client: Client): Random
    requires CanSleep(client)
  {
    (if Spread(client) < 0x8000_0000 then Spread(client) else 0x8000_0000) - 1
  }

  lemma TakenOff(client: Client, rd: Random)
    requires CanSleep(client)
    ensures var t, r := Total(client), rd % Spread(client);
      && 0 <= r <= MostTaken(client)
      && Milliseconds(client, rd) == (if r <= t then t - r else t - r + 0x1_0000_0000)
  {
    var t, r := Total(client), rd % Spread(client);
    RemainderBounds(rd, Spread(client));
    WrapSubtract(t, r);
  }

  lemma RemainderBounds(a: nat, m: nat)
    requires 0 < m
    ensures 0 <= a % m <= a && a % m < m && (a < m ==> a % m == a)
  {
    ProductBounds(m, a / m);
  }

  /** Every amount up to the most is taken off by some random number, namely by itself. */
  lemma AnythingTakenOff(client: Client, r: Random)
    requires CanSleep(client) && r <= MostTaken(client)
    ensures var t := Total(client);
      Milliseconds(client, r) == if r <= t then t - r else t - r + 0x1_0000_0000
  {
    TakenOff(client, r);
    RemainderBounds(r, Spread(client));
  }

  // ---------- when there is always a pause ----------

  /** No random number takes off everything. */
  predicate Pauses(client: Client) {
    CanSleep(client) && MostTaken(client) < Total(client)
  }

  lemma PauseIsLong(client: Client, rd: Random)
    requires Pauses(client)
    ensures 0.001 <= RandomSleep(client, rd)
  {
    TakenOff(client, rd);
  }

  lemma PauseVanishes(client: Client)
    requires CanSleep(client) && !Pauses(client)
    ensures Total(client) < 0x8000_0000 && RandomSleep(client, Total(client)) == 0.0
  {
    AnythingTakenOff(client, Total(client));
  }

  /** For every client that does not divide by 0: there is a pause, under every random number, exactly then. */
  lemma PausesIff(client: Client)
    requires CanSleep(client)
    ensures (forall rd: Random :: 0.0 < RandomSleep(client, rd)) <==> Pauses(client)
    ensures (forall rd: Random :: 0.001 <= RandomSleep(client, rd)) <==> Pauses(client)
  {
    if Pauses(client) {
      forall rd: Random
        ensures 0.001 <= RandomSleep(client, rd)
      {
        PauseIsLong(client, rd);
      }
    } else {
      PauseVanishes(client);
      var rd: Random := Total(client);
      assert RandomSleep(client, rd) == 0.0;
    }
  }

  // ---------- when the pause stays within the variation ----------

  predicate Within(client: Client, t: real) {
    client.sleepAvgSeconds as real - client.sleepVarSeconds as real < t
    <= client.sleepAvgSeconds as real + client.sleepVarSeconds as real
  }

  /** The shortest and the longest pause are in range; with the wrap-around of the sum or of the difference in view. */
  predicate StaysWithin(client: Client)
    requires CanSleep(client)
  {
    var avg, v := client.sleepAvgSeconds, client.sleepVarSeconds;
    if v <= avg then 1000 * (avg - v) < Total(client) - MostTaken(client)
    else 0x1_0000_0000 <= 1000 * (avg + v) || MostTaken(client) <= Total(client)
  }

  /** For every client that does not divide by 0: the pause is in (avg - var, avg + var], always, exactly then. */
  lemma SleepStaysWithin(client: Client)
    requires CanSleep(client)
    ensures (forall rd: Random :: Within(client, RandomSleep(client, rd))) <==> StaysWithin(client)
  {
    if StaysWithin(client) {
      forall rd: Random
        ensures Within(client, RandomSleep(client, rd))
      {
        TotalInOne(client);
        TakenOff(client, rd);
      }
    } else {
      LeavesRange(client);
    }
  }

  lemma LeavesRange(client: Client)
    requires CanSleep(client) && !StaysWithin(client)
    ensures exists rd: Random :: !Within(client, RandomSleep(client, rd))
  {
    var t, most := Total(client), MostTaken(client);
    TotalInOne(client);
    var rd: Random := if most <= t then most else if client.sleepVarSeconds <= client.sleepAvgSeconds then t else t + 1;
    AnythingTakenOff(client, rd);
    assert !Within(client, RandomSleep(client, rd));
  }

  lemma TotalInOne(client: Client)
    ensures Total(client) == Wrap32(1000 * (client.sleepAvgSeconds + client.sleepVarSeconds))
    ensures 1000 * (client.sleepAvgSeconds + client.sleepVarSeconds) < 0x1_0000_0000 ==>
      Total(client) == 1000 * (client.sleepAvgSeconds + client.sleepVarSeconds)
    ensures Total(client) <= 1000 * (client.sleepAvgSeconds + client.sleepVarSeconds)
  {
    var sum := client.sleepAvgSeconds + client.sleepVarSeconds;
    var k := WrapDifference(sum, 0x1_0000_0000);
    WrapShift(1000 * Wrap32(sum), 0x1_0000_0000, 1000 * k);
    WrapIsSmall(1000 * sum, 0x1_0000_0000);
  }

  // ---------- clients without wrap-around ----------

  /** No product and no sum wraps around, and `rand()` can reach the whole spread. */
  predicate Moderate(client: Client) {
    && 0 < client.sleepVarSeconds
    && 1000 * (client.sleepAvgSeconds + client.sleepVarSeconds) < 0x1_0000_0000
    && 2000 * client.sleepVarSeconds <= 0x8000_0000
  }

  /** For these, "no more variation than average" is the boundary of everything. */
  lemma ModerateBoundary(client: Client)
    requires Moderate(client)
    ensures CanSleep(client)
    ensures Total(client) == 1000 * (client.sleepAvgSeconds + client.sleepVarSeconds)
    ensures MostTaken(client) == 2000 * client.sleepVarSeconds - 1
    ensures Pauses(client) <==> client.sleepVarSeconds <= client.sleepAvgSeconds
    ensures StaysWithin(client) <==> client.sleepVarSeconds <= client.sleepAvgSeconds
  {
    SpreadInOne(client);
    WrapIsSmall(2000 * client.sleepVarSeconds, 0x1_0000_0000);
    TotalInOne(client);
  }

  /** With no more variation than average, and no wrap-around, the pause has a closed form. */
  lemma PatientSleep(client: Client, rd: Random)
    requires 0 < client.sleepVarSeconds <= client.sleepAvgSeconds
    requires 1000 * (client.sleepAvgSeconds + client.sleepVarSeconds) < 0x1_0000_0000
    ensures Pauses(client)
    ensures RandomSleep(client, rd) ==
      (1000 * (client.sleepAvgSeconds + client.sleepVarSeconds) - rd % (2000 * client.sleepVarSeconds)) as real / 1000.0
    ensures Within(client, RandomSleep(client, rd)) && 0.001 <= RandomSleep(client, rd)
  {
    SpreadInOne(client);
    WrapIsSmall(2000 * client.sleepVarSeconds, 0x1_0000_0000);
    TotalInOne(client);
    TakenOff(client, rd);
  }
}
