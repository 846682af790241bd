/** The Goldbach walk: two prime-sized halves of the window are walked at once, each with the other's generator. */
module GoldbachWalks {
  import opened Bytes
  import opened Nonces
  import opened NumberTheory

  /** The partition table: for every even size from 4 to 20480, two primes that sum to it, the smaller first. */
  datatype Partitions = Partitions(left: nat -> uint32, right: nat -> uint32) {
    ghost predicate Valid() {
      forall x: nat :: 4 <= x <= 20480 && x % 2 == 0 ==>
        left(x) + right(x) == x && IsPrime(left(x)) && IsPrime(right(x)) && left(x) <= right(x)
    }
  }

  function Even(n: uint32): uint32 {
    if n % 2 != 0 then n - 1 else n
  }

  /** Two adjacent halves from `offset` on; each is walked with the generator's residue modulo the other. */
  datatype Split = Split(offset: nat, left: nat, right: nat, generator: nat) {
    predicate Valid() {
      IsPrime(left) && IsPrime(right) && left <= right
    }

    function LeftStep(): nat
      requires Valid()
    {
      generator % right
    }

    function RightStep(): nat
      requires Valid()
    {
      generator % left
    }

    function LeftAt(i: nat): nat
      requires Valid()
    {
      offset + Index(LeftStep(), i, left)
    }

    function RightAt(i: nat): nat
      requires Valid()
    {
      offset + left + Index(RightStep(), i, right)
    }

    /** Step i reads byte k. */
    predicate ReadsAt(i: nat, k: nat)
      requires Valid()
    {
      LeftAt(i) == k || RightAt(i) == k
    }
  }

  /** The halves of a decoded window. */
  ghost function SplitOf(d: Decoded, t: Partitions): (s: Split)
    requires t.Valid() && 4 <= Even(d.actualBufferSize) <= 20480
    ensures s.Valid() && s.offset + s.left + s.right == d.initialOffset + Even(d.actualBufferSize)
  {
    var x := Even(d.actualBufferSize);
    Split(d.initialOffset, t.left(x), t.right(x), d.generator)
  }

  /** The sum of two bytes in a register of eight bits. */
  function Add(a: byte, b: byte): byte {
    ((a as int + b as int) % 256) as byte
  }

  ghost function Prepared(flat: seq<byte>, s: Split): (data: seq<byte>)
    requires s.Valid() && s.offset + s.left + s.right <= |flat|
    ensures |data| == s.right
  {
    seq(s.right, i requires 0 <= i < s.right => Add(flat[s.LeftAt(i)], flat[s.RightAt(i)]))
  }

  /**
   Byte i of the data is the sum, in eight bits, of two bytes: one of `left` bytes from `offset` on, the other of
   the `right` bytes behind them, each at the i-th multiple of the generator's residue modulo the other size.
   */
  ghost predicate AddsHalves(data: seq<byte>, flat: seq<byte>, offset: nat, left: nat, right: nat, generator: nat) {
    && 0 < left && 0 < right && offset + left + right <= |flat| && |data| == right
    && forall i {:trigger data[i]} :: 0 <= i < right ==>
      data[i] as int == (
        flat[offset + ((generator % right) * i) % left] as int +
        flat[offset + left + ((generator % left) * i) % right] as int) % 0x100
  }

  lemma PreparedInOrder(flat: seq<byte>, s: Split)
    requires s.Valid() && s.offset + s.left + s.right <= |flat|
    ensures AddsHalves(Prepared(flat, s), flat, s.offset, s.left, s.right, s.generator)
  {
    var data := Prepared(flat, s);
    forall i: nat | i < s.right
      ensures data[i] as int == (
        flat[s.offset + ((s.generator % s.right) * i) % s.left] as int +
        flat[s.offset + s.left + ((s.generator % s.left) * i) % s.right] as int) % 0x100
    {
      assert data[i] == Add(flat[s.LeftAt(i)], flat[s.RightAt(i)]);
    }
  }

  /** At every step, the bytes that the two walks read add up to the same in both images. */
  ghost predicate SumsAgree(a: seq<byte>, b: seq<byte>, s: Split)
    requires s.Valid() && s.offset + s.left + s.right <= |a| == |b|
  {
    forall i: nat :: i < s.right ==> Add(a[s.LeftAt(i)], a[s.RightAt(i)]) == Add(b[s.LeftAt(i)], b[s.RightAt(i)])
  }

  /** Two images prepare alike exactly if all those sums agree. */
  lemma PreparedAgrees(a: seq<byte>, b: seq<byte>, s: Split)
    requires s.Valid() && s.offset + s.left + s.right <= |a| == |b|
    ensures Prepared(a, s) == Prepared(b, s) <==> SumsAgree(a, b, s)
  {
    hide Add;
    var p, q := Prepared(a, s), Prepared(b, s);
    if p == q {
      forall i: nat | i < s.right
        ensures Add(a[s.LeftAt(i)], a[s.RightAt(i)]) == Add(b[s.LeftAt(i)], b[s.RightAt(i)])
      {
        assert p[i] == q[i];
      }
    }
  }

  /** Every read of the two walks is inside the decoded window, so inside the area. */
  lemma ReadsInBounds(d: Decoded, t: Partitions, size: nat, i: nat)
    requires t.Valid() && 4 <= Even(d.actualBufferSize) <= 20480
    requires d.initialOffset + d.actualBufferSize <= size
    ensures var s := SplitOf(d, t); s.LeftAt(i) < s.offset + s.left <= s.RightAt(i) < size
  {
  }

  /** Whether the m-step walk modulo a prime covers all indices, or never leaves index 0. */
  lemma PrimeWalk(g: nat, p: nat)
    requires IsPrime(p)
    ensures g % p != 0 ==> Gcd(g, p) == 1
    ensures g % p == 0 ==> forall i: nat :: Index(g, i, p) == 0
  {
    PrimeIsCoprime(g, p);
    if g % p == 0 {
      forall i: nat
        ensures Index(g, i, p) == 0
      {
        PeriodicIndex(i, p, g);
        assert Index(i, g, p) == Index(i, 0, p);
        assert i * g == g * i && i * 0 == 0;
      }
    }
  }

  /** The right half is walked once through exactly when its multiplier is not 0 modulo its size. */
  lemma RightHalfOnce(s: Split, r: nat)
    requires s.Valid() && r < s.right && s.RightStep() % s.right != 0
    ensures |StepsTo(s.RightStep(), s.right, r)| == 1
  {
    PrimeWalk(s.RightStep(), s.right);
    VisitsPerIndex(s.RightStep(), s.right, r);
    DivisionIsUnique(r, 1, r, 0);
  }

  /** The left half is covered within the steps of the right one, since it is not larger. */
  lemma LeftHalfCovered(s: Split, r: nat) returns (i: nat)
    requires s.Valid() && r < s.left && s.LeftStep() % s.left != 0
    ensures i < s.right && s.LeftAt(i) == s.offset + r
  {
    PrimeWalk(s.LeftStep(), s.left);
    i := WalkReaches(s.LeftStep(), s.left, r);
  }

  lemma RightHalfCovered(s: Split, r: nat) returns (i: nat)
    requires s.Valid() && r < s.right && s.RightStep() % s.right != 0
    ensures i < s.right && s.RightAt(i) == s.offset + s.left + r
    ensures forall j: nat :: j < s.right && s.RightAt(j) == s.offset + s.left + r ==> j == i
  {
    PrimeWalk(s.RightStep(), s.right);
    i := WalkReaches(s.RightStep(), s.right, r);
    forall j: nat | j < s.right && s.RightAt(j) == s.offset + s.left + r
      ensures j == i
    {
      WalkIsInjective(s.RightStep(), s.right, j, i);
    }
  }

  /** Some step reads byte k. */
  ghost predicate IsRead(s: Split, k: nat)
    requires s.Valid()
  {
    exists i: nat :: i < s.right && s.ReadsAt(i, k)
  }

  /** Every byte of the window is read exactly when neither multiplier is 0 modulo the size it walks. */
  lemma CoversBothHalves(s: Split)
    requires s.Valid()
    ensures (forall k: nat :: s.offset <= k < s.offset + s.left + s.right ==> IsRead(s, k))
      <==> s.LeftStep() % s.left != 0 && s.RightStep() % s.right != 0
  {
    if s.LeftStep() % s.left != 0 && s.RightStep() % s.right != 0 {
      forall k: nat | s.offset <= k < s.offset + s.left + s.right
        ensures IsRead(s, k)
      {
        if k < s.offset + s.left {
          var i := LeftHalfCovered(s, k - s.offset);
          assert s.ReadsAt(i, k);
        } else {
          var i := RightHalfCovered(s, k - s.offset - s.left);
          assert s.ReadsAt(i, k);
        }
      }
    }
    PrimeWalk(s.LeftStep(), s.left);
    PrimeWalk(s.RightStep(), s.right);
    if s.LeftStep() % s.left == 0 {
      assert !IsRead(s, s.offset + 1);
    } else if s.RightStep() % s.right == 0 {
      assert !IsRead(s, s.offset + s.left + 1);
    }
  }

  /** In terms of the decoded generator: it must not be a multiple of the left size, nor must its right residue. */
  lemma DecodedCoverage(d: Decoded, t: Partitions)
    requires t.Valid() && 4 <= Even(d.actualBufferSize) <= 20480
    ensures var s := SplitOf(d, t);
      (forall k: nat :: s.offset <= k < s.offset + Even(d.actualBufferSize) ==> IsRead(s, k))
      <==> d.generator % s.left != 0 && (d.generator % s.right) % s.left != 0
  {
    var s := SplitOf(d, t);
    CoversBothHalves(s);
    DivisionIsUnique(s.RightStep(), s.right, 0, s.RightStep());
  }

  /** Changing one byte changes exactly the output positions whose step reads it. */
  lemma ChangedPositions(flat: seq<byte>, s: Split, k: nat, value: byte, i: nat)
    requires s.Valid() && s.offset + s.left + s.right <= |flat| && k < |flat| && value != flat[k] && i < s.right
    ensures Prepared(flat[k := value], s)[i] != Prepared(flat, s)[i] <==> s.ReadsAt(i, k)
  {
    var x, y := flat[s.LeftAt(i)], flat[s.RightAt(i)];
    assert value as int != flat[k] as int;
    AddIsInjective(x, value, y);
    AddIsInjective(y, value, x);
  }

  lemma AddIsInjective(a: byte, b: byte, c: byte)
    ensures Add(a, c) == Add(b, c) <==> a == b
    ensures Add(c, a) == Add(c, b) <==> a == b
  {
  }

  /** So a single-byte change shows exactly when the byte is read; in a covered window that is always. */
  lemma SingleChangeShows(flat: seq<byte>, s: Split, k: nat, value: byte)
    requires s.Valid() && s.offset + s.left + s.right <= |flat| && k < |flat| && value != flat[k]
    ensures Prepared(flat[k := value], s) != Prepared(flat, s) <==> IsRead(s, k)
  {
    var p, q := Prepared(flat[k := value], s), Prepared(flat, s);
    forall i: nat | i < s.right
      ensures p[i] != q[i] <==> s.ReadsAt(i, k)
    {
      ChangedPositions(flat, s, k, value, i);
    }
    if !IsRead(s, k) {
      assert p == q;
    }
  }

  /** The same window with 1 more in every byte of the left half and 1 less in every byte of the right half. */
  function Balanced(flat: seq<byte>, s: Split): (other: seq<byte>)
    requires s.Valid() && s.offset + s.left + s.right <= |flat|
    ensures |other| == |flat|
  {
    seq(|flat|, i requires 0 <= i < |flat| =>
      if s.offset <= i < s.offset + s.left then Add(flat[i], 1)
      else if s.offset + s.left <= i < s.offset + s.left + s.right then Add(flat[i], 255)
      else flat[i])
  }

  /** The data never pins down the window: every image has another, different in every byte, that prepares alike. */
  lemma NeverBinds(flat: seq<byte>, s: Split)
    requires s.Valid() && s.offset + s.left + s.right <= |flat|
    ensures Prepared(Balanced(flat, s), s) == Prepared(flat, s)
    ensures forall k :: s.offset <= k < s.offset + s.left + s.right ==> Balanced(flat, s)[k] != flat[k]
  {
    var other := Balanced(flat, s);
    forall i: nat | i < s.right
      ensures Prepared(other, s)[i] == Prepared(flat, s)[i]
    {
      AddsUp(flat[s.LeftAt(i)], flat[s.RightAt(i)]);
    }
    forall k | s.offset <= k < s.offset + s.left + s.right
      ensures other[k] != flat[k]
    {
      AddsUp(flat[k], 0);
    }
  }

  lemma AddsUp(a: byte, b: byte)
    ensures Add(Add(a, 1), Add(b, 255)) == Add(a, b)
    ensures Add(a, 1) != a && Add(a, 255) != a
  {
  }

  /** A change in the right half shows at exactly one output position. */
  lemma RightChangeShowsOnce(flat: seq<byte>, s: Split, r: nat, value: byte) returns (i: nat)
    requires s.Valid() && s.offset + s.left + s.right <= |flat| && r < s.right && s.RightStep() % s.right != 0
    requires value != flat[s.offset + s.left + r]
    ensures i < s.right
    ensures forall j: nat :: j < s.right ==>
      (Prepared(flat[s.offset + s.left + r := value], s)[j] != Prepared(flat, s)[j] <==> j == i)
  {
    var k := s.offset + s.left + r;
    i := RightHalfCovered(s, r);
    forall j: nat | j < s.right
      ensures Prepared(flat[k := value], s)[j] != Prepared(flat, s)[j] <==> j == i
    {
      ChangedPositions(flat, s, k, value, j);
    }
  }
}
