/** BLAKE2s as sections 2 and 3 of RFC 7693 define it. */
module Rfc7693 {
  import opened Bytes

  type Word = bv32

  function ToWord(n: uint32): Word {
    n as bv32
  }

  // ---------- constants (sections 2.6 and 2.7) ----------

  const IV: seq<Word> := [
    0x6A09E667, 0xBB67AE85, 0x3C6EF372, 0xA54FF53A, 0x510E527F, 0x9B05688C, 0x1F83D9AB, 0x5BE0CD19]

  const SIGMA: seq<seq<nat>> := [
    [ 0,  1,  2,  3,  4,  5,  6,  7,  8,  9, 10, 11, 12, 13, 14, 15],
    [14, 10,  4,  8,  9, 15, 13,  6,  1, 12,  0,  2, 11,  7,  5,  3],
    [11,  8, 12,  0,  5,  2, 15, 13, 10, 14,  3,  6,  7,  1,  9,  4],
    [ 7,  9,  3,  1, 13, 12, 11, 14,  2,  6,  5, 10,  4,  0, 15,  8],
    [ 9,  0,  5,  7,  2,  4, 10, 15, 14,  1, 11, 12,  6,  8,  3, 13],
    [ 2, 12,  6, 10,  0, 11,  8,  3,  4, 13,  7,  5, 15, 14,  1,  9],
    [12,  5,  1, 15, 14, 13,  4, 10,  0,  7,  6,  3,  9,  2,  8, 11],
    [13, 11,  7, 14, 12,  1,  3,  9,  5,  0, 15,  4,  8,  6,  2, 10],
    [ 6, 15, 14,  9, 11,  3,  0,  8, 12,  2, 13,  7,  1,  4, 10,  5],
    [10,  2,  8,  4,  7,  6,  1,  5, 15, 11,  9, 14,  3, 12, 13,  0]]

  /** The four positions that one application of the mixing function works on. */
  datatype Lane = Lane(a: nat, b: nat, c: nat, d: nat) {
    predicate Valid() {
      a < 16 && b < 16 && c < 16 && d < 16 && a != b && a != c && a != d && b != c && b != d && c != d
    }
  }

  /** Four columns, then four diagonals (section 3.2). */
  const LANES: seq<Lane> := [
    Lane(0, 4,  8, 12), Lane(1, 5,  9, 13), Lane(2, 6, 10, 14), Lane(3, 7, 11, 15),
    Lane(0, 5, 10, 15), Lane(1, 6, 11, 12), Lane(2, 7,  8, 13), Lane(3, 4,  9, 14)]

  /** The message word that round r schedules at place k. */
  function Scheduled(m: seq<Word>, r: nat, k: nat): Word
    requires |m| == 16 && r < 10 && k < 16
  {
    var s := SIGMA[r][k];
    m[s]
  }

  function LaneAt(j: nat): (l: Lane)
    requires j < 8
    ensures l.Valid()
  {
    LANES[j]
  }

  // ---------- the mixing function G (section 3.1) ----------

  datatype Quad = Quad(a: Word, b: Word, c: Word, d: Word)

  function Rotr16(w: Word): Word { (w >> 16) | (w << 16) }

  function Rotr12(w: Word): Word { (w >> 12) | (w << 20) }

  function Rotr8(w: Word): Word { (w >> 8) | (w << 24) }

  function Rotr7(w: Word): Word { (w >> 7) | (w << 25) }

  function Plus(a: Word, b: Word): Word { a + b }

  function Xor(a: Word, b: Word): Word { a ^ b }

  function FirstHalf(q: Quad, x: Word): Quad {
    var a := Plus(Plus(q.a, q.b), x);
    var d := Rotr16(Xor(q.d, a));
    var c := Plus(q.c, d);
    var b := Rotr12(Xor(q.b, c));
    Quad(a, b, c, d)
  }

  function SecondHalf(q: Quad, y: Word): Quad {
    var a := Plus(Plus(q.a, q.b), y);
    var d := Rotr8(Xor(q.d, a));
    var c := Plus(q.c, d);
    var b := Rotr7(Xor(q.b, c));
    Quad(a, b, c, d)
  }

  function Mix(q: Quad, x: Word, y: Word): Quad {
    SecondHalf(FirstHalf(q, x), y)
  }

  function Get(v: seq<Word>, l: Lane): Quad
    requires |v| == 16 && l.Valid()
  {
    Quad(v[l.a], v[l.b], v[l.c], v[l.d])
  }

  function Put(v: seq<Word>, l: Lane, q: Quad): (w: seq<Word>)
    requires |v| == 16 && l.Valid()
    ensures |w| == 16
  {
    v[l.a := q.a][l.b := q.b][l.c := q.c][l.d := q.d]
  }

  function G(v: seq<Word>, l: Lane, x: Word, y: Word): (w: seq<Word>)
    requires |v| == 16 && l.Valid()
    ensures |w| == 16
  {
    Put(v, l, Mix(Get(v, l), x, y))
  }

  // ---------- rounds and the compression function F (section 3.2) ----------

  /** The first n of the eight mixings of round r. */
  function Lanes(v: seq<Word>, m: seq<Word>, r: nat, n: nat): (w: seq<Word>)
    requires |v| == 16 && |m| == 16 && r < 10 && n <= 8
    ensures |w| == 16
  {
    if n == 0 then v
    else G(Lanes(v, m, r, n - 1), LaneAt(n - 1), Scheduled(m, r, 2 * n - 2), Scheduled(m, r, 2 * n - 1))
  }

  function Rounds(v: seq<Word>, m: seq<Word>, n: nat): (w: seq<Word>)
    requires |v| == 16 && |m| == 16 && n <= 10
    ensures |w| == 16
  {
    if n == 0 then v else Lanes(Rounds(v, m, n - 1), m, n - 1, 8)
  }

  /** The working vector: chaining value, IV, offset counter and final flag. */
  function Start(h: seq<Word>, t: uint64, last: bool): (v: seq<Word>)
    requires |h| == 8
    ensures |v| == 16
  {
    h + IV[..4] + [
      Xor(IV[4], ToWord(t % 0x1_0000_0000)),
      Xor(IV[5], ToWord(t / 0x1_0000_0000)),
      if last then Xor(IV[6], 0xFFFF_FFFF) else IV[6],
      IV[7]]
  }

  /** Both halves of the working vector go into the chaining value. */
  function Folded(h: seq<Word>, v: seq<Word>): (h': seq<Word>)
    requires |h| == 8 && |v| == 16
    ensures |h'| == 8
  {
    seq(8, i requires 0 <= i < 8 => Xor(Xor(h[i], v[i]), v[i + 8]))
  }

  function F(h: seq<Word>, m: seq<Word>, t: uint64, last: bool): (h': seq<Word>)
    requires |h| == 8 && |m| == 16
    ensures |h'| == 8
  {
    Folded(h, Rounds(Start(h, t, last), m, 10))
  }

  // ---------- the hash (section 3.3) ----------

  const BLOCK: nat := 64

  /** Sixteen little-endian words. */
  function LoadBlock(block: seq<byte>): (m: seq<Word>)
    requires |block| == 64
    ensures |m| == 16
  {
    seq(16, i requires 0 <= i < 16 => LoadWord(block[4 * i..4 * i + 4]))
  }

  function LoadWord(s: seq<byte>): Word
    requires |s| == 4
  {
    Capacities();
    ToWord(Decode(s))
  }

  /** Block i of the data, filled up with zeros. */
  function PaddedBlock(d: seq<byte>, i: nat): (block: seq<byte>)
    ensures |block| == 64
  {
    seq(64, j requires 0 <= j < 64 => if 64 * i + j < |d| then d[64 * i + j] else 0)
  }

  /** The chaining value after the first k blocks, none of them the last. */
  function Chain(h0: seq<Word>, d: seq<byte>, k: nat): (h: seq<Word>)
    requires |h0| == 8
    ensures |h| == 8
  {
    if k == 0 then h0
    else F(Chain(h0, d, k - 1), LoadBlock(PaddedBlock(d, k - 1)), Wrap64(64 * k), false)
  }

  /** How many blocks the data makes; an empty input still makes one. */
  function BlockCount(d: seq<byte>): (dd: nat)
    ensures 1 <= dd && 64 * (dd - 1) <= |d| <= 64 * dd
    ensures d != [] ==> 64 * (dd - 1) < |d|
  {
    if d == [] then 1 else (|d| + 63) / 64
  }

  /** The whole chain: all blocks but the last, then the last with the total length and the final flag. */
  function Finish(h0: seq<Word>, d: seq<byte>): (h: seq<Word>)
    requires |h0| == 8
    ensures |h| == 8
  {
    var dd := BlockCount(d);
    F(Chain(h0, d, dd - 1), LoadBlock(PaddedBlock(d, dd - 1)), Wrap64(|d|), true)
  }

  /** Parameter word 0 is 0x0101kknn; the other parameter words are 0 (section 2.5). */
  function Initial(kk: nat, nn: nat): (h: seq<Word>)
    requires kk <= 32 && nn <= 32
    ensures |h| == 8
  {
    IV[0 := Xor(IV[0], ToWord(0x0101_0000 + 0x100 * kk + nn))]
  }

  /** The key, if there is one, fills a zero-padded block of its own in front of the message. */
  function Keyed(key: seq<byte>, message: seq<byte>): (d: seq<byte>)
    ensures |d| == |message| + if key == [] then 0 else 64
  {
    if key == [] then message else PaddedBlock(key, 0) + message
  }

  function StoreWords(h: seq<Word>): (s: seq<byte>)
    ensures |s| == 4 * |h|
  {
    if h == [] then [] else StoreWords(h[..|h| - 1]) + Encode(h[|h| - 1] as int, 4)
  }

  function Digest(message: seq<byte>, key: seq<byte>, nn: nat): (s: seq<byte>)
    requires |key| <= 32 && 1 <= nn <= 32
    ensures |s| == nn
  {
    StoreWords(Finish(Initial(|key|, nn), Keyed(key, message)))[..nn]
  }
}
