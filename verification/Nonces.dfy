/**
 What the four diversified nonce interpretations decode: a window of the chosen area and a generator.
 The properties say which bytes of the area the resulting walk reads.
 */
module Nonces {
  import opened Blocks
  import opened Bytes
  import opened NumberTheory

  datatype Version = V1 | V2 | V3 | V4

  datatype Decoded = Decoded(
    areaLabel: uint16,
    bufferSize: uint32,
    actualBufferSize: uint32,
    generator: uint32,
    initialOffset: uint32)

  /** `*((uint16_t *) (nonce + at))`. */
  function Word16(nonce: seq<byte>, at: nat): (w: uint16)
    requires at + 2 <= |nonce|
    ensures w == nonce[at] as int + 0x100 * nonce[at + 1] as int
  {
    Capacities();
    assert nonce[at..at + 2] == [nonce[at], nonce[at + 1]];
    DecodeTwo(nonce[at], nonce[at + 1]);
    Decode(nonce[at..at + 2])
  }

  /** `*((uint32_t *) (nonce + at))`. */
  function Word32(nonce: seq<byte>, at: nat): (w: uint32)
    requires at + 4 <= |nonce|
    ensures w == nonce[at] as int + 0x100 * nonce[at + 1] as int + 0x1_0000 * nonce[at + 2] as int
      + 0x100_0000 * nonce[at + 3] as int
  {
    Capacities();
    assert nonce[at..at + 4] == [nonce[at], nonce[at + 1], nonce[at + 2], nonce[at + 3]];
    DecodeFour(nonce[at], nonce[at + 1], nonce[at + 2], nonce[at + 3]);
    Decode(nonce[at..at + 4])
  }

  /** Which area a nonce selects; all four versions read the two bytes that start three from the end. */
  function AreaIndex(nonce: seq<byte>, count: uint16): (i: nat)
    requires 3 <= |nonce| && 0 < count
    ensures i < count
    ensures i == (nonce[|nonce| - 3] as int + 0x100 * nonce[|nonce| - 2] as int) % count
  {
    Word16(nonce, |nonce| - 3) % count
  }

  /** Whatever stands in front: the two bytes before the last one choose, and the earlier of them is the low one. */
  lemma LastBytesSelect(prefix: seq<byte>, lo: byte, hi: byte, x: byte, count: uint16)
    requires 0 < count
    ensures AreaIndex(prefix + [lo, hi, x], count) == (lo as int + 0x100 * hi as int) % count
  {
    var nonce := prefix + [lo, hi, x];
    assert nonce[|nonce| - 3] == lo && nonce[|nonce| - 2] == hi;
  }

  function AtLeastTwo(g: uint32): uint32 {
    if g == 1 || g == 0 then 2 else g
  }

  /** The nonce is long enough for everything that the version reads from it. */
  predicate NonceFits(v: Version, size: uint32, nonce: seq<byte>) {
    3 <= |nonce| && (v.V1? ==> 4 <= |nonce| && (IsPrime(size) || 8 <= |nonce|))
  }

  /** The area sizes on which the version decodes; on smaller ones 2, 3 and 4 report an error, 1 does not. */
  predicate Decodable(v: Version, size: uint32) {
    if v.V4? then 3 <= size else 2 <= size
  }

  ghost function Interpret(v: Version, areaLabel: uint16, size: uint32, nonce: seq<byte>): Decoded
    requires NonceFits(v, size, nonce) && Decodable(v, size)
  {
    var p: uint32 := ClosestPrime(size);
    match v
    case V1 =>
      var offset := if size == p then 0 else Word32(nonce, 4) % (size - p);
      Decoded(areaLabel, size, p, AtLeastTwo(Word32(nonce, 0) % p), offset)
    case V2 => Decoded(areaLabel, size, size, AtLeastTwo(p), 0)
    case V3 => Decoded(areaLabel, size, size, AtLeastTwo(p), 0)
    case V4 => Decoded(areaLabel, size, p, AtLeastTwo(ClosestPrime(p - 1)), 0)
  }

  /** Every decoded window lies inside its area, whatever the nonce. */
  lemma WindowInsideArea(v: Version, areaLabel: uint16, size: uint32, nonce: seq<byte>)
    requires NonceFits(v, size, nonce) && Decodable(v, size)
    ensures var d := Interpret(v, areaLabel, size, nonce);
      0 < d.actualBufferSize && d.initialOffset + d.actualBufferSize <= d.bufferSize == size && 2 <= d.generator
  {
  }

  /** Version 4 always gives an odd prime window and a smaller prime generator. */
  lemma Version4Primes(areaLabel: uint16, size: uint32, nonce: seq<byte>)
    requires NonceFits(V4, size, nonce) && Decodable(V4, size)
    ensures var d := Interpret(V4, areaLabel, size, nonce);
      && IsPrime(d.actualBufferSize) && 3 <= d.actualBufferSize
      && IsPrime(d.generator) && 2 <= d.generator < d.actualBufferSize
  {
  }

  /** The area sizes on which every walk of the version is a full permutation of its window. */
  ghost predicate WalksFully(v: Version, size: uint32)
    requires Decodable(v, size)
  {
    match v
    case V1 => 3 <= size
    case V4 => true
    case _ => size % ClosestPrime(size) != 0
  }

  /** Generator and window size are coprime exactly when the size allows it; the nonce has no say in it. */
  lemma GeneratorIsCoprime(v: Version, areaLabel: uint16, size: uint32, nonce: seq<byte>)
    requires NonceFits(v, size, nonce) && Decodable(v, size)
    ensures var d := Interpret(v, areaLabel, size, nonce);
      Gcd(d.generator, d.actualBufferSize) == 1 <==> WalksFully(v, size)
  {
    var d := Interpret(v, areaLabel, size, nonce);
    var p := ClosestPrime(size);
    if v.V1? || v.V4? {
      PrimeIsCoprime(d.generator, p);
      if 3 <= size {
        DivisionIsUnique(d.generator, p, 0, d.generator);
      }
    } else {
      GcdSymmetric(p, size);
      PrimeIsCoprime(size, p);
    }
  }

  // ---------- decoding against a table ----------

  /** There is an area to choose from, the nonce can choose, and sizes are what their 32-bit fields say. */
  ghost predicate CanDecode(v: Version, view: seq<AreaInfo>, nonce: seq<byte>) {
    && 0 < |view| < 0x1_0000 && 3 <= |nonce|
    && (forall i :: 0 <= i < |view| ==> Sum(view[i].blocks) < 0x1_0000_0000)
    && NonceFits(v, Sum(Selected(view, nonce).blocks), nonce)
  }

  ghost function Selected(view: seq<AreaInfo>, nonce: seq<byte>): AreaInfo
    requires 0 < |view| < 0x1_0000 && 3 <= |nonce|
  {
    view[AreaIndex(nonce, |view|)]
  }

  ghost function SelectedSize(v: Version, view: seq<AreaInfo>, nonce: seq<byte>): uint32
    requires CanDecode(v, view, nonce)
  {
    Sum(Selected(view, nonce).blocks)
  }

  ghost predicate Succeeds(v: Version, view: seq<AreaInfo>, nonce: seq<byte>)
    requires CanDecode(v, view, nonce)
  {
    Decodable(v, SelectedSize(v, view, nonce))
  }

  /** What a successful decode gives. */
  ghost function Expected(v: Version, view: seq<AreaInfo>, nonce: seq<byte>): Decoded
    requires CanDecode(v, view, nonce) && Succeeds(v, view, nonce)
  {
    Interpret(v, Selected(view, nonce).areaLabel, SelectedSize(v, view, nonce), nonce)
  }

  lemma ExpectedWindow(v: Version, view: seq<AreaInfo>, nonce: seq<byte>)
    requires CanDecode(v, view, nonce) && Succeeds(v, view, nonce)
    ensures var d, size := Expected(v, view, nonce), SelectedSize(v, view, nonce);
      && d.areaLabel == Selected(view, nonce).areaLabel
      && 0 < d.actualBufferSize && d.initialOffset + d.actualBufferSize <= d.bufferSize == size
  {
    WindowInsideArea(v, Selected(view, nonce).areaLabel, SelectedSize(v, view, nonce), nonce);
  }

  /** The fields that do not depend on the version: the label and the size of the area that the last bytes select. */
  lemma SelectedFields(v: Version, view: seq<AreaInfo>, nonce: seq<byte>)
    requires CanDecode(v, view, nonce)
    ensures var area := view[(nonce[|nonce| - 3] as int + 0x100 * nonce[|nonce| - 2] as int) % |view|];
      Selected(view, nonce) == area && SelectedSize(v, view, nonce) == Sum(area.blocks)
  {
  }

  // ---------- which bytes of the area are read ----------

  /** The walk reads byte k of the area. */
  ghost predicate Reads(d: Decoded, k: int)
    requires 0 < d.actualBufferSize
  {
    0 <= k - d.initialOffset && (k - d.initialOffset) in Visited(d.generator, d.actualBufferSize)
  }

  lemma FullWalkReads(d: Decoded, k: nat)
    requires 0 < d.actualBufferSize && Gcd(d.generator, d.actualBufferSize) == 1
    ensures Reads(d, k) <==> d.initialOffset <= k < d.initialOffset + d.actualBufferSize
  {
    DistinctVisits(d.generator, d.actualBufferSize);
    DivisionIsUnique(k - d.initialOffset, 1, k - d.initialOffset, 0);
  }

  /** Version 4 reads the bytes below the largest prime, under every nonce, and never the ones above. */
  lemma Version4Reads(areaLabel: uint16, size: uint32, nonce: seq<byte>, k: nat)
    requires NonceFits(V4, size, nonce) && Decodable(V4, size)
    ensures Reads(Interpret(V4, areaLabel, size, nonce), k) <==> k < ClosestPrime(size)
  {
    GeneratorIsCoprime(V4, areaLabel, size, nonce);
    FullWalkReads(Interpret(V4, areaLabel, size, nonce), k);
  }

  /** On a prime area size, versions 2 and 3 read byte 0 again and again and nothing else. */
  lemma PrimeSizeReadsOneByte(v: Version, areaLabel: uint16, size: uint32, nonce: seq<byte>, k: nat)
    requires v == V2 || v == V3
    requires NonceFits(v, size, nonce) && Decodable(v, size) && IsPrime(size)
    ensures Reads(Interpret(v, areaLabel, size, nonce), k) <==> k == 0
  {
    var d := Interpret(v, areaLabel, size, nonce);
    PrimeIsCoprime(d.generator, size);
    DivisionIsUnique(size, size, 1, 0);
    DistinctVisits(d.generator, size);
    if 0 < k < size {
      DivisionIsUnique(k, size, 0, k);
    }
  }

  function WordNonce(offset: uint32): (nonce: seq<byte>)
    ensures |nonce| == 8 && Word32(nonce, 4) == offset
  {
    FixedWidths(0, offset, 0);
    var nonce := Encode(0, 4) + Encode(offset, 4);
    assert nonce[4..8] == Encode(offset, 4);
    nonce
  }

  ghost predicate ReadUnder(v: Version, areaLabel: uint16, size: uint32, nonce: seq<byte>, k: nat) {
    NonceFits(v, size, nonce) && Decodable(v, size) && Reads(Interpret(v, areaLabel, size, nonce), k)
  }

  /** What version 1 reads is the window that its offset selects. */
  lemma Version1Reads(areaLabel: uint16, size: uint32, nonce: seq<byte>, k: nat)
    requires 3 <= size && NonceFits(V1, size, nonce)
    ensures var d := Interpret(V1, areaLabel, size, nonce);
      ReadUnder(V1, areaLabel, size, nonce, k) <==> d.initialOffset <= k < d.initialOffset + ClosestPrime(size)
  {
    GeneratorIsCoprime(V1, areaLabel, size, nonce);
    FullWalkReads(Interpret(V1, areaLabel, size, nonce), k);
  }

  /**
   Over all its nonces, version 1 reaches every byte of a prime-sized area, but on any other size never the
   last byte: the offset is taken modulo the slack, so it is always smaller than the slack.
   */
  lemma Version1Reaches(areaLabel: uint16, size: uint32, k: nat)
    requires 3 <= size && k < size
    ensures (exists nonce :: ReadUnder(V1, areaLabel, size, nonce, k)) <==> IsPrime(size) || k < size - 1
  {
    var p := ClosestPrime(size);
    forall nonce | ReadUnder(V1, areaLabel, size, nonce, k)
      ensures IsPrime(size) || k < size - 1
    {
      Version1Reads(areaLabel, size, nonce, k);
    }
    if IsPrime(size) || k < size - 1 {
      var offset := if k < p then 0 else k - p + 1;
      var nonce := WordNonce(offset);
      if !IsPrime(size) {
        DivisionIsUnique(offset, size - p, 0, offset);
      }
      Version1Reads(areaLabel, size, nonce, k);
    }
  }
}
