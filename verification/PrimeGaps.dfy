/**
 How far away the next smaller prime can be. Primes of the form h 2^k + 1 are certified by repeated squaring (Proth),
 and a chain of them in which no step more than doubles leaves no larger gap below it.
 */
module PrimeGaps {
  import opened NumberTheory
  import opened Permutations
  import opened Sequences

  // ---------- powers modulo n ----------

  function PowerMod(b: nat, e: nat, n: nat): (r: nat)
    requires 0 < n
    ensures r < n
  {
    if e == 0 then 1 % n else (b * PowerMod(b, e - 1, n)) % n
  }

  function TwoTo(k: nat): (t: nat)
    ensures 1 <= t
  {
    if k == 0 then 1 else 2 * TwoTo(k - 1)
  }

  /** b squared k times. */
  function Squared(b: nat, k: nat, n: nat): (r: nat)
    requires 0 < n
    ensures r < n
  {
    if k == 0 then b % n else var r := Squared(b, k - 1, n); (r * r) % n
  }

  /** A factor may be reduced before multiplying. */
  lemma ReduceFactor(x: nat, y: nat, n: nat)
    requires 0 < n
    ensures ((x % n) * y) % n == (x * y) % n && (y * (x % n)) % n == (y * x) % n
  {
    var q, r := x / n, x % n;
    var t, u := (r * y) / n, (r * y) % n;
    assert x == n * q + r;
    Distribute(y, n * q, r);
    Associate(n, q, y);
    Distribute(n, q * y, t);
    DivisionIsUnique(x * y, n, q * y + t, u);
  }

  lemma {:induction false} PowerModAdds(b: nat, i: nat, j: nat, n: nat)
    requires 0 < n
    ensures PowerMod(b, i + j, n) == (PowerMod(b, i, n) * PowerMod(b, j, n)) % n
  {
    if i == 0 {
      ReduceFactor(1, PowerMod(b, j, n), n);
      DivisionIsUnique(PowerMod(b, j, n), n, 0, PowerMod(b, j, n));
    } else {
      PowerModAdds(b, i - 1, j, n);
      PowerModStep(b, PowerMod(b, i - 1, n), PowerMod(b, j, n), n);
      assert PowerMod(b, i + j, n) == (b * PowerMod(b, i - 1 + j, n)) % n;
    }
  }

  lemma PowerModStep(b: nat, x: nat, y: nat, n: nat)
    requires 0 < n
    ensures (b * ((x * y) % n)) % n == (((b * x) % n) * y) % n
  {
    ReduceFactor(x * y, b, n);
    ReduceFactor(b * x, y, n);
    Associate(b, x, y);
  }

  lemma {:induction false} SquaredIsPower(b: nat, k: nat, n: nat)
    requires 0 < n
    ensures Squared(b, k, n) == PowerMod(b, TwoTo(k), n)
  {
    if k == 0 {
      assert PowerMod(b, 1, n) == (b * PowerMod(b, 0, n)) % n;
      ReduceFactor(1, b, n);
    } else {
      SquaredIsPower(b, k - 1, n);
      PowerModAdds(b, TwoTo(k - 1), TwoTo(k - 1), n);
    }
  }

  lemma ReduceTwice(x: nat, d: nat, q: nat)
    requires 0 < d && 0 < q
    ensures (x % (d * q)) % d == x % d
  {
    var n := d * q;
    ProductBounds(d, q);
    var a, r := x / n, x % n;
    Associate(d, q, a);
    Distribute(d, q * a, r / d);
    DivisionIsUnique(x, d, q * a + r / d, r % d);
  }

  /** Powers modulo n tell powers modulo its divisors. */
  lemma {:induction false} PowerModDivisor(b: nat, e: nat, d: nat, q: nat)
    requires 0 < d && 0 < q
    ensures 0 < d * q && PowerMod(b, e, d * q) % d == PowerMod(b, e, d)
  {
    ProductBounds(d, q);
    if e == 0 {
      ReduceTwice(1, d, q);
    } else {
      PowerModDivisor(b, e - 1, d, q);
      var x := PowerMod(b, e - 1, d * q);
      ReduceTwice(b * x, d, q);
      ReduceFactor(x, b, d);
    }
  }

  // ---------- the order of b modulo a divisor ----------

  lemma {:induction false} PowersOfOne(b: nat, e: nat, m: nat, d: nat)
    requires 1 < d && PowerMod(b, e, d) == 1
    ensures PowerMod(b, e * m, d) == 1
  {
    if m == 0 {
      DivisionIsUnique(1, d, 0, 1);
    } else {
      PowersOfOne(b, e, m - 1, d);
      Distribute(e, m - 1, 1);
      PowerModAdds(b, e * (m - 1), e, d);
      DivisionIsUnique(1, d, 0, 1);
    }
  }

  /** Odd powers of -1 are -1, even ones are 1. */
  lemma {:induction false} PowersOfMinusOne(b: nat, e: nat, u: nat, d: nat)
    requires 2 < d && PowerMod(b, e, d) == d - 1
    ensures PowerMod(b, e * u, d) == if u % 2 == 0 then 1 else d - 1
  {
    DivisionIsUnique(1, d, 0, 1);
    if u > 0 {
      PowersOfMinusOne(b, e, u - 1, d);
      Distribute(e, u - 1, 1);
      PowerModAdds(b, e * (u - 1), e, d);
      MinusOneSquared(d);
    }
  }

  lemma MinusOneSquared(d: nat)
    requires 2 < d
    ensures ((d - 1) * (d - 1)) % d == 1 && (1 * (d - 1)) % d == d - 1
  {
    DivisionIsUnique(d - 1, d, 0, d - 1);
    Distribute(d - 1, d, 1);
    Distribute(d, d, 2);
    DivisionIsUnique((d - 1) * (d - 1), d, d - 2, 1);
  }

  /** Every positive number below 2^k is an odd number times a power of two below 2^k. */
  lemma {:induction false} OddPart(e: nat, k: nat) returns (s: nat, u: nat)
    requires 0 < e < TwoTo(k)
    ensures s < k && u % 2 == 1 && e == TwoTo(s) * u
  {
    if e % 2 == 1 {
      s, u := 0, e;
    } else {
      s, u := OddPart(e / 2, k - 1);
      Associate(2, TwoTo(s), u);
      s := s + 1;
    }
  }

  lemma {:induction false} TwoToAdds(i: nat, j: nat)
    ensures TwoTo(i + j) == TwoTo(i) * TwoTo(j)
  {
    if i > 0 {
      TwoToAdds(i - 1, j);
      Associate(2, TwoTo(i - 1), TwoTo(j));
    }
  }

  /** If b squared k - 1 times is -1, no positive power below 2^k is 1. */
  lemma NoEarlierOne(b: nat, k: nat, d: nat, e: nat)
    requires 2 < d && 1 <= k && PowerMod(b, TwoTo(k - 1), d) == d - 1 && 0 < e < TwoTo(k)
    ensures PowerMod(b, e, d) != 1
  {
    if PowerMod(b, e, d) == 1 {
      var s, u := OddPart(e, k);
      PowersOfOne(b, e, TwoTo(k - 1 - s), d);
      TwoToAdds(s, k - 1 - s);
      Associate(TwoTo(s), u, TwoTo(k - 1 - s));
      PowersOfMinusOne(b, TwoTo(k - 1), u, d);
    }
  }

  lemma PowersDiffer(b: nat, k: nat, d: nat, i: nat, j: nat)
    requires 2 < d && 1 <= k && PowerMod(b, TwoTo(k - 1), d) == d - 1 && i < j < TwoTo(k)
    ensures PowerMod(b, i, d) != PowerMod(b, j, d)
  {
    if PowerMod(b, i, d) == PowerMod(b, j, d) {
      var all := TwoTo(k);
      PowersOfMinusOne(b, TwoTo(k - 1), 2, d);
      PowerModAdds(b, all - i, i, d);
      PowerModAdds(b, all - i, j, d);
      PowerModAdds(b, all, j - i, d);
      DivisionIsUnique(PowerMod(b, j - i, d), d, 0, PowerMod(b, j - i, d));
      NoEarlierOne(b, k, d, j - i);
    }
  }

  lemma {:induction false} Pigeonhole(s: seq<nat>, n: nat)
    requires NoRepeats(s) && forall i :: 0 <= i < |s| ==> s[i] < n
    ensures |s| <= n
    decreases n
  {
    if s != [] {
      assert s[0] < n;
      if n - 1 in s {
        var j :| 0 <= j < |s| && s[j] == n - 1;
        Pigeonhole(RemoveAt(s, j), n - 1);
      } else {
        Pigeonhole(s, n - 1);
      }
    }
  }

  /** So the divisor is at least 2^k. */
  lemma DivisorIsLarge(b: nat, k: nat, d: nat)
    requires 2 < d && 1 <= k && PowerMod(b, TwoTo(k - 1), d) == d - 1
    ensures TwoTo(k) <= d
  {
    var s := seq(TwoTo(k), i requires 0 <= i < TwoTo(k) => PowerMod(b, i, d));
    forall i, j | 0 <= i < j < |s|
      ensures s[i] != s[j]
    {
      PowersDiffer(b, k, d, i, j);
    }
    Pigeonhole(s, d);
  }

  // ---------- certificates ----------

  /** b squared k - 1 times is -1 modulo the odd n. */
  predicate Certifies(b: nat, k: nat, n: nat) {
    1 <= k && 1 < n && n % 2 == 1 && Squared(b, k - 1, n) == n - 1
  }

  lemma DivisorsAreLarge(b: nat, k: nat, d: nat, q: nat)
    requires 2 <= d && 0 < q && Certifies(b, k, d * q)
    ensures TwoTo(k) < d
  {
    SquaredIsPower(b, k - 1, d * q);
    MinusOneModDivisor(b, TwoTo(k - 1), d, q);
    DivisorOfOdd(d, q);
    DivisorIsLarge(b, k, d);
    TwoToIsEven(k);
  }

  lemma TwoToIsEven(k: nat)
    requires 1 <= k
    ensures TwoTo(k) % 2 == 0
  {
  }

  /** A power that is -1 modulo n is -1 modulo the divisors of n. */
  lemma MinusOneModDivisor(b: nat, e: nat, d: nat, q: nat)
    requires 2 <= d && 0 < q && 0 < d * q && PowerMod(b, e, d * q) == d * q - 1
    ensures PowerMod(b, e, d) == d - 1
  {
    hide PowerMod;
    PowerModDivisor(b, e, d, q);
    Distribute(d, q, 1);
    DivisionIsUnique(d * q - 1, d, q - 1, d - 1);
  }

  lemma DivisorOfOdd(d: nat, q: nat)
    requires (d * q) % 2 == 1
    ensures d % 2 == 1
  {
    if d % 2 == 0 {
      Associate(2, d / 2, q);
      DivisionIsUnique(d * q, 2, (d / 2) * q, 0);
    }
  }

  /** What h 2^k + 1 is when h is at most 2^k. */
  predicate Bounded(k: nat, n: nat) {
    n <= TwoTo(k) * TwoTo(k) + 1
  }

  lemma CertifiedIsPrime(b: nat, k: nat, n: nat)
    requires Certifies(b, k, n) && Bounded(k, n)
    ensures IsPrime(n)
  {
    hide Certifies, Bounded;
    CertifiedIsOdd(b, k, n);
    forall d | 2 <= d < n
      ensures !Divides(d, n)
    {
      if Divides(d, n) {
        var q := n / d;
        assert n == d * q;
        Composite(b, k, d, q);
      }
    }
  }

  lemma CertifiedIsOdd(b: nat, k: nat, n: nat)
    requires Certifies(b, k, n)
    ensures 3 <= n
  {
  }

  lemma Composite(b: nat, k: nat, d: nat, q: nat)
    requires 2 <= d < d * q && 0 < q
    ensures !Certifies(b, k, d * q) || !Bounded(k, d * q)
  {
    hide Certifies, Bounded;
    if Certifies(b, k, d * q) {
      DivisorsAreLarge(b, k, d, q);
      Associate(1, d, q);
      ProperCofactor(d, q);
      DivisorsAreLarge(b, k, q, d);
      LargeProduct(k, d, q);
    }
  }

  lemma ProperCofactor(d: nat, q: nat)
    requires 2 <= d < d * q
    ensures 2 <= q && d * q == q * d
  {
  }

  lemma LargeProduct(k: nat, d: nat, q: nat)
    requires TwoTo(k) < d && TwoTo(k) < q
    ensures !Bounded(k, d * q)
  {
    var t := TwoTo(k);
    var x, y := d - t, q - t;
    assert d * q == t * t + t * y + x * t + x * y;
    ProductBounds(t, y);
    ProductBounds(t, x);
    ProductBounds(x, y);
  }

  /** No number from d up to the square root divides n. */
  predicate NoDivisorFrom(d: nat, n: nat)
    requires 2 <= d
    decreases n - d
  {
    d * d > n || d >= n || (n % d != 0 && NoDivisorFrom(d + 1, n))
  }

  lemma {:induction false} TrialDivision(d: nat, n: nat, x: nat)
    requires 2 <= d <= x && x * x <= n && NoDivisorFrom(d, n)
    ensures x < n ==> !Divides(x, n)
    decreases n - d
  {
    SquareIsMonotone(d, x);
    if d < x {
      TrialDivision(d + 1, n, x);
    }
  }

  lemma SquareIsMonotone(d: nat, x: nat)
    requires d <= x
    ensures d * d <= x * x
  {
  }

  lemma TriedIsPrime(n: nat)
    requires 2 <= n && NoDivisorFrom(2, n)
    ensures IsPrime(n)
  {
    forall x | 2 <= x < n
      ensures !Divides(x, n)
    {
      if Divides(x, n) {
        var y := n / x;
        assert n == x * y;
        SmallerFactor(x, y);
        DivisionIsUnique(n, y, x, 0);
        TrialDivision(2, n, if x <= y then x else y);
      }
    }
  }

  lemma SmallerFactor(x: nat, y: nat)
    requires 2 <= x < x * y
    ensures 2 <= y < x * y
    ensures x <= y ==> x * x <= x * y
    ensures y <= x ==> y * y <= x * y
  {
    Distribute(x, y, 1);
  }

  /** Successive squares. */
  datatype Trace = End | Then(square: nat, rest: Trace)

  /** The trace squares its way from x to y modulo n, and for each square a number doubles from p to q. */
  predicate Squares(x: nat, p: nat, t: Trace, n: nat, y: nat, q: nat)
    requires 0 < n
    decreases t
  {
    match t
    case End => x == y && p == q
    case Then(z, rest) => (x * x) % n == z && Squares(z, 2 * p, rest, n, y, q)
  }

  lemma {:induction false} TraceSquares(b: nat, j: nat, x: nat, p: nat, t: Trace, n: nat, y: nat, q: nat)
    returns (k: nat)
    requires 1 < n && x == Squared(b, j, n) && p == TwoTo(j + 1) && Squares(x, p, t, n, y, q)
    ensures y == Squared(b, k, n) && q == TwoTo(k + 1)
    decreases t
  {
    match t
    case End => k := j;
    case Then(z, rest) => k := TraceSquares(b, j + 1, z, 2 * p, rest, n, y, q);
  }

  /** A certificate in two halves. */
  lemma TracedIsPrime(n: nat, b: nat, t: Trace, y: nat, q: nat, t': Trace, q': nat)
    requires 1 < n && b < n && n % 2 == 1 && n <= q' * q' + 1
    requires Squares(b, 2, t, n, y, q) && Squares(y, q, t', n, n - 1, q')
    ensures IsPrime(n)
  {
    DivisionIsUnique(b, n, 0, b);
    assert TwoTo(1) == 2 * TwoTo(0);
    var j := TraceSquares(b, 0, b, 2, t, n, y, q);
    var k := TraceSquares(b, j, y, q, t', n, n - 1, q');
    CertifiedIsPrime(b, k + 1, n);
  }

  // ---------- a chain of primes, each less than twice the one before it ----------

  datatype Chain = Bottom | Above(prime: nat, below: Chain)

  ghost predicate AllPrime(c: Chain) {
    match c
    case Bottom => true
    case Above(p, below) => IsPrime(p) && AllPrime(below)
  }

  predicate Dense(limit: nat, c: Chain)
    decreases c
  {
    match c
    case Bottom => limit <= 2
    case Above(p, below) => limit <= 2 * p && Dense(p, below)
  }

  lemma {:induction false} ChainIsClose(n: nat, limit: nat, c: Chain)
    requires 2 <= n < limit && Dense(limit, c) && AllPrime(c)
    ensures n < 2 * ClosestPrime(n)
    decreases c
  {
    if n < c.prime {
      ChainIsClose(n, c.prime, c.below);
    }
  }
}
