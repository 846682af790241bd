/** How much of an area a nonce covers, now that the next prime is known to be close. */
module Coverage {
  import opened Bytes
  import opened GoldbachWalks
  import opened Nonces
  import opened NumberTheory
  import opened PrimeChain

  /** Versions 2 and 3 walk a whole area exactly when its size is not itself a prime. */
  lemma FullUnlessPrime(size: uint32)
    requires 2 <= size
    ensures WalksFully(V2, size) <==> !IsPrime(size)
    ensures WalksFully(V3, size) <==> !IsPrime(size)
  {
    var p := ClosestPrime(size);
    ClosestPrimeIsClose(size);
    DivisionIsUnique(size, p, 1, size - p);
  }

  /** Under every nonce of every version, the decoded window is more than half of the area. */
  lemma WindowIsMoreThanHalf(v: Version, areaLabel: uint16, size: uint32, nonce: seq<byte>)
    requires NonceFits(v, size, nonce) && Decodable(v, size)
    ensures var d := Interpret(v, areaLabel, size, nonce); d.bufferSize < 2 * d.actualBufferSize <= 2 * d.bufferSize
  {
    ClosestPrimeIsClose(size);
  }

  // ---------- the Goldbach walk ----------

  /** What the residues of the generator are when it is a prime just below the evened size, or just above it. */
  lemma PrimeResidues(g: nat, left: nat, right: nat)
    requires IsPrime(g) && IsPrime(left) && IsPrime(right) && left <= right && (left + right) % 2 == 0
    requires g == left + right + 1 || (right <= g < left + right < 2 * g)
    ensures g % left != 0 && (g % right) % left != 0 <==> right != g
  {
    PrimeIsNoMultiple(g, left);
    if g == right {
      DivisionIsUnique(g, right, 1, 0);
    } else if g == left + right + 1 {
      if left + 1 < right {
        DivisionIsUnique(g, right, 1, left + 1);
        DivisionIsUnique(left + 1, left, 1, 1);
      } else {
        DivisionIsUnique(g, right, 2, 1);
        DivisionIsUnique(1, left, 0, 1);
      }
    } else {
      DivisionIsUnique(g, right, 1, g - right);
      DivisionIsUnique(g - right, left, 0, g - right);
    }
  }

  lemma PrimeIsNoMultiple(g: nat, p: nat)
    requires IsPrime(g) && 2 <= p < g
    ensures g % p != 0
  {
    assert !Divides(p, g);
  }

  lemma PrimeIsOdd(p: nat)
    requires IsPrime(p) && 2 < p
    ensures p % 2 == 1
  {
    assert !Divides(2, p);
  }

  /** The generator is a prime above half of the evened size, and no smaller than the right half. */
  lemma PrimeAboveHalf(n: nat, x: nat, left: nat, right: nat)
    requires 4 <= x == left + right <= n <= x + 1 < 0x1_0000_0000 && x % 2 == 0
    requires IsPrime(left) && IsPrime(right)
    ensures var g := ClosestPrime(n); g == x + 1 || right <= g < x < 2 * g
  {
    ClosestPrimeIsClose(n);
    assert Divides(2, x);
  }

  lemma SplitCoverage(d: Decoded, t: Partitions, n: nat)
    requires t.Valid() && 4 <= Even(d.actualBufferSize) <= 20480
    requires Even(d.actualBufferSize) <= n <= Even(d.actualBufferSize) + 1 && d.generator == ClosestPrime(n)
    ensures var s := SplitOf(d, t);
      (forall k: nat :: s.offset <= k < s.offset + Even(d.actualBufferSize) ==> IsRead(s, k))
      <==> s.right != d.generator
  {
    hide IsPrime, IsRead;
    var s := SplitOf(d, t);
    DecodedCoverage(d, t);
    PrimeAboveHalf(n, Even(d.actualBufferSize), s.left, s.right);
    PrimeResidues(d.generator, s.left, s.right);
  }

  /**
   Versions 2, 3 and 4, whose generator the nonce does not choose: the Goldbach walk reads the whole window exactly
   when the generator is not the right half's size.
   */
  lemma GoldbachCoverage(v: Version, areaLabel: uint16, size: uint32, nonce: seq<byte>, t: Partitions)
    requires v != V1 && NonceFits(v, size, nonce) && Decodable(v, size) && t.Valid()
    requires 4 <= Even(Interpret(v, areaLabel, size, nonce).actualBufferSize) <= 20480
    ensures var d := Interpret(v, areaLabel, size, nonce);
      var s := SplitOf(d, t);
      (forall k: nat :: s.offset <= k < s.offset + Even(d.actualBufferSize) ==> IsRead(s, k))
      <==> s.right != d.generator
  {
    hide IsPrime, IsRead, SplitOf;
    var d := Interpret(v, areaLabel, size, nonce);
    if v == V4 {
      PrimeIsOdd(ClosestPrime(size));
      SplitCoverage(d, t, d.actualBufferSize - 1);
    } else {
      SplitCoverage(d, t, size);
    }
  }
}
