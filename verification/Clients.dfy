/** The attested clients, and the comparison that decides which two of them are the same. */
module Clients {
  import opened Bytes
  import opened Defines

  datatype Client = Client(
    aid: Aid,
    attestatorNumber: uint64,
    attestatorId: uint64,
    sleepAvgSeconds: uint32,
    sleepVarSeconds: uint32,
    sessionId: uint64)

  /** What `(int)` makes of an unsigned 64-bit number: its low 32 bits, read as a signed number. */
  function ToInt(n: int): (r: int)
    ensures -0x8000_0000 <= r < 0x8000_0000
  {
    var low := Wrap32(n);
    if low < 0x8000_0000 then low else low - 0x1_0000_0000
  }

  /** `memcmp` over equally long byte strings: the first difference decides. */
  function MemCompare(first: seq<byte>, second: seq<byte>): (r: int)
    requires |first| == |second|
    ensures r == 0 <==> first == second
  {
    if first == [] then 0
    else if first[0] != second[0] then first[0] as int - second[0] as int
    else
      assert first == [first[0]] + first[1..] && second == [second[0]] + second[1..];
      MemCompare(first[1..], second[1..])
  }

  /** At the first difference, and only there, the sign is decided. */
  lemma {:induction false} FirstDifferenceDecides(first: seq<byte>, second: seq<byte>, i: nat)
    requires |first| == |second| && i < |first| && first[..i] == second[..i] && first[i] != second[i]
    ensures MemCompare(first, second) < 0 <==> first[i] < second[i]
  {
    if i > 0 {
      assert first[0] == first[..i][0] && second[0] == second[..i][0];
      assert first[1..][..i - 1] == first[..i][1..] && second[1..][..i - 1] == second[..i][1..];
      FirstDifferenceDecides(first[1..], second[1..], i - 1);
    }
  }

  /** `RA_CLI_compare`. */
  function Compare(first: Client, second: Client): int {
    if first.attestatorNumber == second.attestatorNumber && MemCompare(first.aid, second.aid) == 0 then 0
    else
      var res := MemCompare(first.aid, second.aid);
      if res != 0 then res
      else ToInt(Wrap64(first.attestatorNumber - second.attestatorNumber))
  }

  /** Between two applications, the first different byte decides. */
  lemma CompareByApplication(first: Client, second: Client, i: nat)
    requires i < AID_SIZE && first.aid[..i] == second.aid[..i] && first.aid[i] != second.aid[i]
    ensures Compare(first, second) != 0 && (Compare(first, second) < 0 <==> first.aid[i] < second.aid[i])
  {
    FirstDifferenceDecides(first.aid, second.aid, i);
  }

  /** What it takes for the comparison to see no difference. */
  predicate SameKey(first: Client, second: Client) {
    first.aid == second.aid && Wrap32(first.attestatorNumber) == Wrap32(second.attestatorNumber)
  }

  /** Comparing equal ignores the upper half of the attestator number. */
  lemma CompareIsZero(first: Client, second: Client)
    ensures Compare(first, second) == 0 <==> SameKey(first, second)
  {
    hide Wrap32, Wrap64;
    var a: int, b: int := first.attestatorNumber, second.attestatorNumber;
    NarrowTwice(a - b);
    SameLowWord(a, b);
  }

  /** Narrowing to 64 bits first makes no difference to the low 32 bits. */
  lemma NarrowTwice(n: int)
    ensures Wrap32(Wrap64(n)) == Wrap32(n)
  {
    var k := WrapDifference(n, 0x1_0000_0000_0000_0000);
    WrapShift(Wrap64(n), 0x1_0000_0000, 0x1_0000_0000 * k);
  }

  lemma SameLowWord(a: int, b: int)
    ensures Wrap32(a - b) == 0 <==> Wrap32(a) == Wrap32(b)
  {
    var p := WrapDifference(a, 0x1_0000_0000);
    var q := WrapDifference(b, 0x1_0000_0000);
    WrapShift(Wrap32(a) - Wrap32(b), 0x1_0000_0000, p - q);
    WrapSubtract(Wrap32(a), Wrap32(b));
  }

  lemma CompareIsZeroEverywhere()
    ensures forall first, second :: Compare(first, second) == 0 <==> SameKey(first, second)
  {
    forall first, second
      ensures Compare(first, second) == 0 <==> SameKey(first, second)
    {
      CompareIsZero(first, second);
    }
  }

  /** Below 2^32, and not beyond, comparing equal means the same application and the same attestator. */
  lemma CompareIsExact(first: Client, second: Client)
    requires first.attestatorNumber < 0x1_0000_0000 && second.attestatorNumber < 0x1_0000_0000
    ensures Compare(first, second) == 0 <==>
      first.aid == second.aid && first.attestatorNumber == second.attestatorNumber
  {
    CompareIsZero(first, second);
  }

  lemma CompareMissesUpperHalf(c: Client)
    ensures var d := c.(attestatorNumber := Wrap64(c.attestatorNumber + 0x1_0000_0000));
      d.attestatorNumber != c.attestatorNumber && Compare(c, d) == 0
  {
    var a: int := c.attestatorNumber;
    WrapOnce(a + 0x1_0000_0000, 0x1_0000_0000_0000_0000);
    NarrowTwice(a + 0x1_0000_0000);
    WrapShift(a, 0x1_0000_0000, 1);
    CompareIsZero(c, c.(attestatorNumber := Wrap64(a + 0x1_0000_0000)));
  }

  /** The sign of the comparison is that of the order of the numbers. */
  predicate SignIsRight(first: Client, second: Client) {
    var c, x, y := Compare(first, second), first.attestatorNumber, second.attestatorNumber;
    (0 < c <==> x > y) && (c < 0 <==> x < y)
  }

  /** For one application: the sign is right exactly if the low word of the distance is not 0 and not too large. */
  lemma CompareOrdersIff(first: Client, second: Client)
    requires first.aid == second.aid
    ensures var x, y := first.attestatorNumber, second.attestatorNumber;
      SignIsRight(first, second) <==>
        || x == y
        || (x > y && 0 < (x - y) % 0x1_0000_0000 < 0x8000_0000)
        || (x < y && 0 < (y - x) % 0x1_0000_0000 <= 0x8000_0000)
  {
    var x: int, y: int := first.attestatorNumber, second.attestatorNumber;
    NarrowTwice(x - y);
    if x > y {
      WrapIsModulo(x - y, 0x1_0000_0000);
    } else {
      LowWordNegates(y - x);
      WrapIsModulo(y - x, 0x1_0000_0000);
    }
  }

  lemma LowWordNegates(n: int)
    ensures Wrap32(-n) == if Wrap32(n) == 0 then 0 else 0x1_0000_0000 - Wrap32(n)
  {
    var w: int := Wrap32(n);
    var k := WrapDifference(n, 0x1_0000_0000);
    WrapShift(-w, 0x1_0000_0000, -k);
    WrapSubtract(0, w);
  }

  /** Below 2^31 that is always so, and the comparison is the difference. */
  lemma CompareOrders(first: Client, second: Client)
    requires first.aid == second.aid
    requires first.attestatorNumber < 0x8000_0000 && second.attestatorNumber < 0x8000_0000
    ensures Compare(first, second) == first.attestatorNumber - second.attestatorNumber
    ensures SignIsRight(first, second)
  {
    var d: int := first.attestatorNumber as int - second.attestatorNumber;
    if d < 0 {
      assert Wrap64(d) == Wrap64(d + 0x1_0000_0000_0000_0000);
      WrapShift(d + 0x1_0000_0000, 0x1_0000_0000, 0xFFFF_FFFF);
    }
  }

  /** At a distance of 2^31, the larger number compares as the smaller one. */
  lemma CompareMisorders(c: Client)
    ensures var first, second := c.(attestatorNumber := 0x8000_0000), c.(attestatorNumber := 0);
      first.attestatorNumber > second.attestatorNumber && Compare(first, second) < 0
  {
    NarrowTwice(0x8000_0000);
  }
}
