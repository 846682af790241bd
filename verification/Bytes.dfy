/** Machine integers of fixed width and their little-endian byte images, as memcpy moves them. */
module Bytes {
  import NumberTheory

  newtype byte = n: int | 0 <= n < 0x100
  type uint16 = n: int | 0 <= n < 0x1_0000
  type uint32 = n: int | 0 <= n < 0x1_0000_0000
  type uint64 = n: int | 0 <= n < 0x1_0000_0000_0000_0000

  /** What is left of n in an unsigned register with m values. */
  function Wrap(n: int, m: int): (r: int)
    requires 0 < m
    ensures 0 <= r < m
    decreases if n < 0 then m - n else n
  {
    if n < 0 then Wrap(n + m, m) else if m <= n then Wrap(n - m, m) else n
  }

  function Wrap32(n: int): uint32 {
    Wrap(n, 0x1_0000_0000)
  }

  function Wrap64(n: int): uint64 {
    Wrap(n, 0x1_0000_0000_0000_0000)
  }

  lemma {:induction false} WrapDifference(n: int, m: int) returns (k: int)
    requires 0 < m
    ensures n == Wrap(n, m) + m * k
    decreases if n < 0 then m - n else n
  {
    if n < 0 {
      k := WrapDifference(n + m, m);
      k := k - 1;
    } else if m <= n {
      k := WrapDifference(n - m, m);
      k := k + 1;
    } else {
      k := 0;
    }
  }

  lemma {:induction false} WrapShift(n: int, m: int, k: int)
    requires 0 < m
    ensures Wrap(n + m * k, m) == Wrap(n, m)
    decreases if k < 0 then -k else k
  {
    if k < 0 {
      WrapShift(n, m, k + 1);
      NumberTheory.Distribute(m, k, 1);
      WrapStep(n + m * k, m);
    } else if 0 < k {
      WrapShift(n, m, k - 1);
      NumberTheory.Distribute(m, k, 1);
      WrapStep(n + m * (k - 1), m);
    }
  }

  lemma WrapStep(n: int, m: int)
    requires 0 < m
    ensures Wrap(n + m, m) == Wrap(n, m)
  {
  }

  /** Wrapping may be put off to the end of a sum. */
  lemma WrapAdd(a: int, b: int, m: int)
    requires 0 < m
    ensures Wrap(Wrap(a, m) + b, m) == Wrap(a + b, m)
    ensures Wrap(a + Wrap(b, m), m) == Wrap(a + b, m)
  {
    var p := WrapDifference(a, m);
    var q := WrapDifference(b, m);
    WrapShift(Wrap(a, m) + b, m, p);
    WrapShift(a + Wrap(b, m), m, q);
  }

  lemma WrapIsModulo(n: int, m: int)
    requires 0 < m
    ensures Wrap(n, m) == n % m
  {
    var k := WrapDifference(n, m);
    NumberTheory.DivisionIsUnique(n, m, k, Wrap(n, m));
  }

  lemma WrapOnce(n: int, m: int)
    requires 0 <= n < 2 * m
    ensures Wrap(n, m) == if n < m then n else n - m
  {
    if m <= n {
      assert Wrap(n - m, m) == n - m;
    }
  }

  lemma {:induction false} WrapIsSmall(n: int, m: int)
    requires 0 < m && 0 <= n
    ensures Wrap(n, m) <= n && (n < m ==> Wrap(n, m) == n)
    decreases n
  {
    if m <= n {
      WrapIsSmall(n - m, m);
    }
  }

  /** Unsigned subtraction. */
  lemma WrapSubtract(a: uint32, b: uint32)
    ensures Wrap32(a - b) == if b <= a then a - b else a - b + 0x1_0000_0000
  {
    if a < b {
      assert Wrap(a - b + 0x1_0000_0000, 0x1_0000_0000) == a - b + 0x1_0000_0000;
    }
  }

  datatype Option<+T> = None | Some(value: T)

  /** The number of values of `width` bytes. */
  function Capacity(width: nat): (c: nat)
    ensures 1 <= c
  {
    if width == 0 then 1 else 256 * Capacity(width - 1)
  }

  lemma Capacities()
    ensures Capacity(2) == 0x1_0000 && Capacity(4) == 0x1_0000_0000 && Capacity(8) == 0x1_0000_0000_0000_0000
  {
    assert Capacity(4) == 256 * (256 * Capacity(2));
    assert Capacity(6) == 256 * (256 * Capacity(4));
    assert Capacity(8) == 256 * (256 * Capacity(6));
  }

  /** The `width` bytes of `n`, least significant first. */
  function Encode(n: nat, width: nat): (s: seq<byte>)
    ensures |s| == width
    decreases width, n
  {
    if width == 0 then [] else [(n % 256) as byte] + Encode(n / 256, width - 1)
  }

  /** The number that the bytes `s`, least significant first, stand for. */
  function Decode(s: seq<byte>): (n: nat)
    ensures n < Capacity(|s|)
  {
    if s == [] then 0 else s[0] as int + 256 * Decode(s[1..])
  }

  lemma {:induction false} DecodeEncode(n: nat, width: nat)
    requires n < Capacity(width)
    ensures Decode(Encode(n, width)) == n
  {
    if width > 0 {
      DecodeEncode(n / 256, width - 1);
      var s := Encode(n, width);
      assert s[1..] == Encode(n / 256, width - 1);
    }
  }

  lemma {:induction false} EncodeDecode(s: seq<byte>)
    ensures Encode(Decode(s), |s|) == s
  {
    if s != [] {
      EncodeDecode(s[1..]);
      var n := Decode(s);
      assert n % 256 == s[0] as int && n / 256 == Decode(s[1..]);
      assert s == [s[0]] + s[1..];
    }
  }

  lemma DecodeTwo(a: byte, b: byte)
    ensures Decode([a, b]) == a as int + 0x100 * b as int
  {
    assert [b][1..] == [];
    assert [a, b][1..] == [b];
  }

  lemma DecodeFour(a: byte, b: byte, c: byte, d: byte)
    ensures Decode([a, b, c, d]) == a as int + 0x100 * b as int + 0x1_0000 * c as int + 0x100_0000 * d as int
  {
    DecodeTwo(c, d);
    assert [b, c, d][1..] == [c, d];
    assert [a, b, c, d][1..] == [b, c, d];
  }

  lemma DecodeEight(s: seq<byte>)
    requires |s| == 8
    ensures Decode(s) ==
      s[0] as int + 0x100 * s[1] as int + 0x1_0000 * s[2] as int + 0x100_0000 * s[3] as int
      + 0x1_0000_0000 * s[4] as int + 0x100_0000_0000 * s[5] as int + 0x1_0000_0000_0000 * s[6] as int
      + 0x100_0000_0000_0000 * s[7] as int
  {
    assert s[4..] == [s[4], s[5], s[6], s[7]];
    DecodeFour(s[4], s[5], s[6], s[7]);
    assert s[3..][1..] == s[4..] && s[2..][1..] == s[3..] && s[1..][1..] == s[2..];
    assert Decode(s[3..]) == s[3] as int + 0x100 * Decode(s[4..]);
    assert Decode(s[2..]) == s[2] as int + 0x100 * Decode(s[3..]);
    assert Decode(s[1..]) == s[1] as int + 0x100 * Decode(s[2..]);
  }

  /** Fixed-width numbers survive a trip through memory. */
  lemma FixedWidths(a: uint16, b: uint32, c: uint64)
    ensures Decode(Encode(a, 2)) == a && Decode(Encode(b, 4)) == b && Decode(Encode(c, 8)) == c
  {
    Capacities();
    DecodeEncode(a, 2);
    DecodeEncode(b, 4);
    DecodeEncode(c, 8);
  }

  /** `memcpy(dst + at, src, |src|)`. */
  method Memcpy(dst: array<byte>, at: nat, src: seq<byte>)
    requires at + |src| <= dst.Length
    modifies dst
    ensures dst[..] == old(dst[..at]) + src + old(dst[at + |src|..])
    ensures dst[..at + |src|] == old(dst[..at]) + src && dst[at + |src|..] == old(dst[at + |src|..])
  {
    forall i | 0 <= i < |src| {
      dst[at + i] := src[i];
    }
  }
}
