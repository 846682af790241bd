/** Primes, greatest common divisors, and the walk `i -> g*i mod m` that the attestator takes over a window. */
module NumberTheory {

  // ---------- multiplication and division ----------

  lemma ProductBounds(m: int, k: int)
    requires 0 < m
    ensures 1 <= k ==> m <= m * k
    ensures k <= -1 ==> m * k <= -m
  {
    if 1 <= k {
      assert 0 <= m * (k - 1);
    } else if k <= -1 {
      assert 0 <= m * (-1 - k);
    }
  }

  /** A multiple of m that is smaller than m is 0. */
  lemma SmallMultiple(n: int, m: int, k: int)
    requires -m < n < m && n == m * k
    ensures n == 0
  {
    ProductBounds(m, k);
  }

  lemma Cancel(d: int, a: int, b: int)
    requires 0 < d && d * a == d * b
    ensures a == b
  {
    ProductBounds(d, a - b);
  }

  /** Quotient and remainder are unique. */
  lemma DivisionIsUnique(n: int, m: int, q: int, r: int)
    requires 0 < m && n == m * q + r && 0 <= r < m
    ensures n % m == r && n / m == q
  {
    ProductBounds(m, q - n / m);
    assert m * (q - n / m) == n % m - r;
  }

  lemma Distribute(a: int, b: int, c: int)
    ensures a * (b + c) == a * b + a * c && a * (b - c) == a * b - a * c
    ensures (b + c) * a == b * a + c * a && (b - c) * a == b * a - c * a
  {
  }

  lemma Associate(a: int, b: int, c: int)
    ensures (a * b) * c == a * (b * c) && a * (b * c) == b * (a * c) && (a * b) * c == (a * c) * b
  {
  }

  // ---------- primes ----------

  predicate Divides(d: int, n: int)
    requires d != 0
  {
    n % d == 0
  }

  predicate IsPrime(n: int) {
    2 <= n && forall d :: 2 <= d < n ==> !Divides(d, n)
  }

  lemma ThreeIsPrime()
    ensures IsPrime(3)
  {
    assert !Divides(2, 3);
  }

  /** p is the largest prime not above n. */
  ghost predicate IsClosestPrime(p: int, n: int) {
    IsPrime(p) && p <= n && forall q :: p < q <= n ==> !IsPrime(q)
  }

  ghost function ClosestPrime(n: int): (p: int)
    requires 2 <= n
    ensures IsClosestPrime(p, n)
    ensures p == n <==> IsPrime(n)
    ensures 3 <= n ==> 3 <= p
  {
    ThreeIsPrime();
    if IsPrime(n) then n else ClosestPrime(n - 1)
  }

  lemma ClosestPrimeIsUnique(p: int, n: int)
    requires IsClosestPrime(p, n)
    ensures 2 <= n && p == ClosestPrime(n)
  {
  }

  // ---------- greatest common divisor ----------

  function Gcd(a: nat, b: nat): (d: nat)
    ensures 0 < a || 0 < b ==> 0 < d
    decreases b
  {
    if b == 0 then a else Gcd(b, a % b)
  }

  lemma Recombine(a: int, b: int, d: int, p: int, q: int)
    requires 0 < b && b == d * p && a % b == d * q
    ensures a == d * (p * (a / b) + q)
  {
    var k := a / b;
    assert a == b * k + d * q;
    Associate(d, p, k);
    Distribute(d, p * k, q);
  }

  lemma {:induction false} GcdFactors(a: nat, b: nat) returns (p: nat, q: nat)
    ensures a == Gcd(a, b) * p && b == Gcd(a, b) * q
    decreases b
  {
    if b == 0 {
      p, q := 1, 0;
    } else {
      var p', q' := GcdFactors(b, a % b);
      p, q := p' * (a / b) + q', p';
      Recombine(a, b, Gcd(a, b), p', q');
    }
  }

  lemma {:induction false} Bezout(a: nat, b: nat) returns (x: int, y: int)
    ensures a * x + b * y == Gcd(a, b)
    decreases b
  {
    if b == 0 {
      x, y := 1, 0;
    } else {
      var k := a / b;
      var x', y' := Bezout(b, a % b);
      x, y := y', x' - k * y';
      Distribute(b, x', k * y');
      Associate(b, k, y');
      Distribute(y', a, b * k);
      assert a % b == a - b * k;
    }
  }

  lemma GcdSymmetric(a: nat, b: nat)
    ensures Gcd(a, b) == Gcd(b, a)
  {
    if a < b {
      DivisionIsUnique(a, b, 0, a);
    } else if b < a {
      DivisionIsUnique(b, a, 0, b);
    }
  }

  /** Euclid: a prime is coprime to everything it does not divide. */
  lemma PrimeIsCoprime(g: nat, p: nat)
    requires IsPrime(p)
    ensures Gcd(g, p) == if g % p == 0 then p else 1
  {
    var d, k := Gcd(g, p), g / p;
    var a, b := GcdFactors(g, p);
    var x, y := Bezout(g, p);
    ProductBounds(d, b);
    DivisionIsUnique(p, d, b, 0);
    assert Divides(d, p);
    Associate(p, k, x);
    Distribute(p, k * x, y);
    ProductBounds(p, k * x + y);
    if d == p {
      DivisionIsUnique(g, p, a, 0);
    }
  }

  // ---------- the walk ----------

  /** What `calculate_index` computes: a product, not a power. */
  function Index(g: nat, i: nat, m: nat): (r: nat)
    requires 0 < m
    ensures r < m
  {
    (g * i) % m
  }

  /** So the walk starts at 0 and goes on by g at a time, around the window. */
  lemma WalkSteps(g: nat, i: nat, m: nat)
    requires 0 < m
    ensures Index(g, 0, m) == 0
    ensures Index(g, i + 1, m) == (Index(g, i, m) + g) % m
  {
    var r := Index(g, i, m);
    var p, q := (g * i) / m, (r + g) / m;
    Distribute(g, i, 1);
    Distribute(m, p, q);
    DivisionIsUnique(g * (i + 1), m, p + q, (r + g) % m);
  }

  lemma InverseStep(g: int, m: int, x: int, y: int, r: int, q: int)
    requires g * x + m * y == 1
    ensures g * (x * r - m * q) == m * (-(y * r) - g * q) + r
  {
    Distribute(g, x * r, m * q);
    Associate(g, x, r);
    Associate(g, m, q);
    Associate(m, y, r);
    Distribute(r, g * x, m * y);
    Distribute(m, -(y * r), g * q);
  }

  /** The step at which a walk with coprime generator reaches index r. */
  lemma WalkReaches(g: nat, m: nat, r: nat) returns (i: nat)
    requires 0 < m && Gcd(g, m) == 1 && r < m
    ensures i < m && Index(g, i, m) == r
  {
    var x, y := Bezout(g, m);
    var n := x * r;
    var q := n / m;
    i := n % m;
    assert i == n - m * q;
    InverseStep(g, m, x, y, r, q);
    DivisionIsUnique(g * i, m, -(y * r) - g * q, r);
  }

  lemma SameRemainder(a: int, b: int, m: int) returns (k: int)
    requires 0 < m && a % m == b % m
    ensures a - b == m * k
  {
    k := a / m - b / m;
    Distribute(m, a / m, b / m);
  }

  lemma DifferenceStep(g: int, m: int, x: int, y: int, n: int, k: int)
    requires g * x + m * y == 1 && g * n == m * k
    ensures n == m * (x * k + y * n)
  {
    Distribute(n, g * x, m * y);
    Associate(g, x, n);
    Associate(x, g, n);
    Associate(x, m, k);
    Associate(m, y, n);
    Distribute(m, x * k, y * n);
  }

  lemma WalkIsInjective(g: nat, m: nat, i: nat, j: nat)
    requires 0 < m && Gcd(g, m) == 1 && i < m && j < m
    requires Index(g, i, m) == Index(g, j, m)
    ensures i == j
  {
    var x, y := Bezout(g, m);
    var k := SameRemainder(g * i, g * j, m);
    Distribute(g, i, j);
    DifferenceStep(g, m, x, y, i - j, k);
    SmallMultiple(i - j, m, x * k + y * (i - j));
  }

  // ---------- how often each index is visited ----------

  /** The steps of the m-step walk that land on index r. */
  ghost function StepsTo(g: nat, m: nat, r: nat): set<nat>
    requires 0 < m
  {
    set i: nat | 0 <= i < m && Index(g, i, m) == r
  }

  /** The indices that the m-step walk visits. */
  ghost function Visited(g: nat, m: nat): set<nat>
    requires 0 < m
  {
    set i: nat | 0 <= i < m :: Index(g, i, m)
  }

  function Term(a: nat, s: nat, k: nat): nat {
    a + s * k
  }

  /** The terms `a, a + s, ..., a + (n-1)*s`. */
  ghost function Progression(a: nat, s: nat, n: nat): set<nat> {
    set k: nat | 0 <= k < n :: Term(a, s, k)
  }

  lemma {:induction false} ProgressionSize(a: nat, s: nat, n: nat)
    requires 0 < s
    ensures |Progression(a, s, n)| == n
  {
    if n == 0 {
      assert Progression(a, s, 0) == {};
    } else {
      ProgressionSize(a, s, n - 1);
      var last := Term(a, s, n - 1);
      forall k: nat | k < n - 1
        ensures Term(a, s, k) != last
      {
        Distribute(s, n - 1, k);
        ProductBounds(s, n - 1 - k);
      }
      assert Progression(a, s, n) == Progression(a, s, n - 1) + {last};
    }
  }

  /** Dividing generator and modulus by their gcd leaves coprime factors. */
  lemma ReducedIsCoprime(g: nat, m: nat, g': nat, m': nat)
    requires 0 < m && g == Gcd(g, m) * g' && m == Gcd(g, m) * m'
    ensures 0 < m' && Gcd(g', m') == 1
  {
    var d, e := Gcd(g, m), Gcd(g', m');
    assert d * 0 == 0;
    var x, y := Bezout(g, m);
    var a, b := GcdFactors(g', m');
    Associate(d, g', x);
    Associate(d, m', y);
    Distribute(d, g' * x, m' * y);
    Cancel(d, 1, g' * x + m' * y);
    Associate(e, a, x);
    Associate(e, b, y);
    Distribute(e, a * x, b * y);
    ProductBounds(e, a * x + b * y);
  }

  /** The walk of a common multiple is the multiple of the walk. */
  lemma ScaledIndex(g: nat, m: nat, d: nat, i: nat)
    requires 0 < m && 0 < d
    ensures 0 < d * m
    ensures Index(d * g, i, d * m) == d * Index(g, i, m)
  {
    var q, r := (g * i) / m, Index(g, i, m);
    ProductBounds(d, m);
    ProductBounds(d, m - r);
    Distribute(d, m, r);
    Associate(d, g, i);
    Associate(d, m, q);
    Distribute(d, m * q, r);
    assert g * i == m * q + r;
    DivisionIsUnique((d * g) * i, d * m, q, d * r);
  }

  lemma PeriodicIndex(g: nat, m: nat, i: nat)
    requires 0 < m
    ensures Index(g, i, m) == Index(g, i % m, m)
  {
    var q, t := i / m, i % m;
    var c := (g * t) / m;
    Associate(g, m, q);
    Distribute(g, m * q, t);
    Distribute(m, g * q, c);
    assert i == m * q + t;
    assert g * t == m * c + Index(g, t, m);
    DivisionIsUnique(g * i, m, g * q + c, Index(g, t, m));
  }

  lemma QuotientBelow(i: nat, m: nat, d: nat)
    requires 0 < m && i < m * d
    ensures i / m < d && i == m * (i / m) + i % m
  {
    Distribute(m, i / m, d);
    ProductBounds(m, i / m - d);
  }

  lemma TermIndex(g: nat, m: nat, first: nat, k: nat)
    requires first < m
    ensures Index(g, Term(first, m, k), m) == Index(g, first, m)
  {
    DivisionIsUnique(Term(first, m, k), m, k, first);
    PeriodicIndex(g, m, Term(first, m, k));
  }

  lemma InProgression(m: nat, d: nat, first: nat, i: nat)
    requires 0 < m && i / m < d && i % m == first
    ensures i in Progression(first, m, d)
  {
    assert i == Term(first, m, i / m);
  }

  /** With a coprime generator, the steps that land on one index during d rounds are a progression. */
  lemma StepsOfCoprimeWalk(g: nat, m: nat, d: nat, first: nat, i: nat)
    requires Gcd(g, m) == 1 && first < m && i / m < d
    ensures Index(g, i, m) == Index(g, first, m) <==> i in Progression(first, m, d)
  {
    if Index(g, i, m) == Index(g, first, m) {
      PeriodicIndex(g, m, i);
      WalkIsInjective(g, m, i % m, first);
      InProgression(m, d, first, i);
    }
    forall k: nat | k < d
      ensures Index(g, Term(first, m, k), m) == Index(g, first, m)
    {
      TermIndex(g, m, first, k);
    }
  }

  lemma MultiplesBelow(d: nat, m: nat, r: nat)
    requires 0 < d
    ensures d * r < d * m <==> r < m
    ensures (d * r) % d == 0 && (d * r) / d == r
  {
    Distribute(d, r, m);
    ProductBounds(d, r - m);
    DivisionIsUnique(d * r, d, r, 0);
  }

  /** The gcd and the walk of the coprime factors, in which every index is a multiple of the gcd. */
  lemma Reduce(g: nat, m: nat) returns (d: nat, g': nat, m': nat)
    requires 0 < m
    ensures d == Gcd(g, m) && 0 < d && 0 < m' && g == d * g' && m == d * m' && Gcd(g', m') == 1
    ensures forall i: nat :: Index(g, i, m) == d * Index(g', i, m') && Index(g, i, m) % d == 0
  {
    d := Gcd(g, m);
    g', m' := GcdFactors(g, m);
    ReducedIsCoprime(g, m, g', m');
    forall i: nat
      ensures Index(g, i, m) == d * Index(g', i, m') && Index(g, i, m) % d == 0
    {
      ScaledIndex(g', m', d, i);
      MultiplesBelow(d, m', Index(g', i, m'));
    }
  }

  lemma ReachedFirst(d: nat, g: nat, m: nat, r: nat) returns (first: nat)
    requires 0 < d && 0 < m && Gcd(g, m) == 1 && r < d * m && r % d == 0
    ensures first < m && r == d * Index(g, first, m)
  {
    assert r == d * (r / d);
    MultiplesBelow(d, m, r / d);
    first := WalkReaches(g, m, r / d);
  }

  /** General walk law, per index: multiples of the gcd are visited gcd times, other indices never. */
  lemma VisitsPerIndex(g: nat, m: nat, r: nat)
    requires 0 < m && r < m
    ensures |StepsTo(g, m, r)| == if r % Gcd(g, m) == 0 then Gcd(g, m) else 0
  {
    var d, g', m' := Reduce(g, m);
    if r % d == 0 {
      VisitsOfMultiple(g, m, d, g', m', r);
    } else {
      assert StepsTo(g, m, r) == {};
    }
  }

  lemma VisitsOfMultiple(g: nat, m: nat, d: nat, g': nat, m': nat, r: nat)
    requires 0 < d && 0 < m' && 0 < m && m == d * m' && Gcd(g', m') == 1
    requires forall i: nat :: Index(g, i, m) == d * Index(g', i, m')
    requires r < m && r % d == 0
    ensures |StepsTo(g, m, r)| == d
  {
    var first := ReachedFirst(d, g', m', r);
    StepsAreProgression(g, m, d, g', m', first, r);
    ProgressionSize(first, m', d);
  }

  lemma StepsAreProgression(g: nat, m: nat, d: nat, g': nat, m': nat, first: nat, r: nat)
    requires 0 < d && 0 < m' && 0 < m && m == m' * d && Gcd(g', m') == 1
    requires first < m' && r == d * Index(g', first, m')
    requires forall i: nat :: Index(g, i, m) == d * Index(g', i, m')
    ensures StepsTo(g, m, r) == Progression(first, m', d)
  {
    forall i: nat | i < m
      ensures Index(g, i, m) == r <==> i in Progression(first, m', d)
    {
      QuotientBelow(i, m', d);
      StepsOfCoprimeWalk(g', m', d, first, i);
      if Index(g, i, m) == r {
        Cancel(d, Index(g', i, m'), Index(g', first, m'));
      }
    }
    forall k: nat | k < d
      ensures Term(first, m', k) < m
    {
      Distribute(m', d, k);
      ProductBounds(m', d - k);
    }
  }

  /** General walk law, in total: exactly m / gcd(g,m) distinct indices, the multiples of the gcd, are visited. */
  lemma DistinctVisits(g: nat, m: nat)
    requires 0 < m
    ensures |Visited(g, m)| == m / Gcd(g, m)
    ensures forall r: nat :: r in Visited(g, m) <==> r < m && r % Gcd(g, m) == 0
  {
    var d, g', m' := Reduce(g, m);
    MultiplesBelow(d, m', m');
    forall r: nat
      ensures r in Visited(g, m) <==> r < m && r % d == 0
      ensures r in Visited(g, m) <==> r in Progression(0, d, m')
    {
      if r in Visited(g, m) {
        var i: nat :| 0 <= i < m && Index(g, i, m) == r;
        assert r == Term(0, d, Index(g', i, m'));
      }
      if r in Progression(0, d, m') {
        var k: nat :| 0 <= k < m' && r == Term(0, d, k);
        MultiplesBelow(d, m', k);
      }
      if r < m && r % d == 0 {
        VisitsPerIndex(g, m, r);
        assert StepsTo(g, m, r) != {};
        var i :| i in StepsTo(g, m, r);
      }
    }
    assert Visited(g, m) == Progression(0, d, m');
    ProgressionSize(0, d, m');
  }

  /** The walk covers its window exactly when generator and window size are coprime. */
  lemma CoversWindow(g: nat, m: nat)
    requires 0 < m
    ensures (forall r: nat :: r < m ==> r in Visited(g, m)) <==> Gcd(g, m) == 1
  {
    DistinctVisits(g, m);
    var d := Gcd(g, m);
    var a, b := GcdFactors(g, m);
    ProductBounds(d, b);
    assert d * 0 == 0;
    if d > 1 {
      DivisionIsUnique(1, d, 0, 1);
      assert 1 !in Visited(g, m);
    } else {
      forall r: nat
        ensures r % d == 0
      {
        DivisionIsUnique(r, d, r, 0);
      }
    }
  }
}
