/** The number theory behind inversion and the Legendre symbol modulo a prime:
    Euclid's lemma, Fermat's little theorem and Euler's criterion for a prime
    that leaves 3 modulo 4. */
module NumberTheory {
  import opened Common

  predicate Prime(p: nat) {
    p >= 2 && forall d :: 2 <= d < p ==> p % d != 0
  }

  function Pow(base: nat, exponent: nat): nat {
    if exponent == 0 then 1 else Pow(base, exponent - 1) * base
  }

  function Factorial(n: nat): nat {
    if n == 0 then 1 else n * Factorial(n - 1)
  }

  // ----- products and remainders -----

  lemma MulSwap(x: int, y: int, z: int)
    ensures x * (y * z) == y * (x * z)
  {
  }

  lemma MulAssociates(x: int, y: int, z: int)
    ensures x * y * z == x * (y * z)
  {
  }

  lemma FourFactors(a: int, b: int, c: int, d: int)
    ensures (a * b) * (c * d) == (a * c) * (b * d)
  {
    MulAssociates(a, b, c * d);
    MulSwap(b, c, d);
    MulAssociates(a, c, b * d);
  }

  lemma DifferenceOfSquares(h: int)
    ensures (h - 1) * (h + 1) == h * h - 1
  {
  }

  lemma SmallRemainder(n: nat, m: nat)
    requires n < m
    ensures n % m == n
  {
  }

  lemma MulAtLeast(k: nat, m: nat)
    requires k >= 1
    ensures k * m >= m
  {
  }

  lemma QuotientIsUnique(m: nat, q: int, r: int, q': int, r': int)
    requires 0 <= r < m && 0 <= r' < m && q * m + r == q' * m + r'
    ensures q == q' && r == r'
  {
    var d := q' - q;
    assert d * m == r - r' by {
      assert d * m == q' * m - q * m;
    }
    assert -d * m == -(d * m);
    if d >= 1 {
      MulAtLeast(d, m);
    } else if d <= -1 {
      MulAtLeast(-d, m);
    }
  }

  lemma Remainder(n: int, m: nat, q: int, r: int)
    requires 0 <= r < m && n == q * m + r
    ensures n % m == r
  {
    QuotientIsUnique(m, q, r, n / m, n % m);
  }

  lemma AddMultiple(n: int, k: int, m: nat)
    requires m > 0
    ensures (n + k * m) % m == n % m
  {
    var q := n / m;
    assert n + k * m == (q + k) * m + n % m by {
      assert (q + k) * m == q * m + k * m;
    }
    Remainder(n + k * m, m, q + k, n % m);
  }

  lemma MulMod(a: int, b: int, m: nat)
    requires m > 0
    ensures (a % m * b) % m == (a * b) % m
  {
    var q := a / m;
    assert a == q * m + a % m;
    assert a * b == a % m * b + (q * b) * m;
    AddMultiple(a % m * b, q * b, m);
  }

  lemma MulModBoth(a: int, b: int, c: int, d: int, m: nat)
    requires m > 0 && a % m == b % m && c % m == d % m
    ensures (a * c) % m == (b * d) % m
  {
    MulMod(a, c, m);
    MulMod(b, c, m);
    MulMod(c, b, m);
    MulMod(d, b, m);
  }

  lemma NextWord(n: nat, m: nat)
    requires m > 1
    ensures (n + 1) % m == if n % m == m - 1 then 0 else n % m + 1
  {
    var q, r := n / m, n % m;
    assert n == q * m + r;
    if r + 1 == m {
      assert (q + 1) * m == q * m + m;
      Remainder(n + 1, m, q + 1, 0);
    } else {
      Remainder(n + 1, m, q, r + 1);
    }
  }

  /** Two numbers with the same remainder differ by a multiple. */
  lemma SameRemainder(a: int, b: int, m: nat)
    requires m > 0 && a % m == b % m
    ensures (a - b) % m == 0
  {
    var q, q' := a / m, b / m;
    assert a - b == (q - q') * m by {
      assert (q - q') * m == q * m - q' * m;
    }
    Remainder(a - b, m, q - q', 0);
  }

  lemma ZeroRemainder(a: int, b: int, m: nat)
    requires m > 0 && (a - b) % m == 0
    ensures a % m == b % m
  {
    var k := (a - b) / m;
    assert a == b + k * m;
    AddMultiple(b, k, m);
  }

  // ----- Euclid's lemma -----

  /** Descend from `b` to the remainder of `p` by `b` until it is 1. */
  lemma {:induction false} EuclidBelow(p: nat, a: int, b: nat)
    requires Prime(p) && 0 < b < p && (a * b) % p == 0
    ensures a % p == 0
    decreases b
  {
    if b == 1 {
    } else {
      var q, r := p / b, p % b;
      assert p == q * b + r;
      var k := a * b / p;
      assert a * b == k * p;
      assert a * r == (a - q * k) * p by {
        assert a * r == a * p - q * (a * b);
        assert (a - q * k) * p == a * p - q * (k * p);
      }
      Remainder(a * r, p, a - q * k, 0);
      EuclidBelow(p, a, r);
    }
  }

  lemma Euclid(p: nat, a: int, b: int)
    requires Prime(p) && (a * b) % p == 0
    ensures a % p == 0 || b % p == 0
  {
    if b % p != 0 {
      MulMod(b, a, p);
      EuclidBelow(p, a, b % p);
    }
  }

  /** A factor that `p` does not divide cancels. */
  lemma Cancel(p: nat, a: int, b: int, c: int)
    requires Prime(p) && c % p != 0 && (a * c) % p == (b * c) % p
    ensures a % p == b % p
  {
    SameRemainder(a * c, b * c, p);
    assert (a - b) * c == a * c - b * c;
    Euclid(p, a - b, c);
    ZeroRemainder(a, b, p);
  }

  lemma {:induction false} FactorialNotDivisible(p: nat, n: nat)
    requires Prime(p) && n < p
    ensures Factorial(n) % p != 0
  {
    if n == 0 {
    } else {
      FactorialNotDivisible(p, n - 1);
      if Factorial(n) % p == 0 {
        Euclid(p, n, Factorial(n - 1));
      }
    }
  }

  // ----- products over finite sets -----

  ghost function Product(s: set<nat>): nat {
    if s == {} then 1 else var x :| x in s; x * Product(s - {x})
  }

  lemma {:induction false} ProductWithout(s: set<nat>, x: nat)
    requires x in s
    ensures Product(s) == x * Product(s - {x})
    decreases s
  {
    var y :| y in s && Product(s) == y * Product(s - {y});
    if y != x {
      ProductWithout(s - {y}, x);
      ProductWithout(s - {x}, y);
      assert s - {y} - {x} == s - {x} - {y};
      MulSwap(y, x, Product(s - {x} - {y}));
    }
  }

  function Upto(k: nat): set<nat> {
    Range(1, k + 1)
  }

  lemma {:induction false} ProductUpto(k: nat)
    ensures Product(Upto(k)) == Factorial(k)
    ensures |Upto(k)| == k
  {
    if k == 0 {
    } else {
      ProductUpto(k - 1);
      assert Upto(k) == Upto(k - 1) + {k} && Upto(k) - {k} == Upto(k - 1);
      ProductWithout(Upto(k), k);
    }
  }

  /** The multiples of `a` up to `k * a`, reduced modulo `p`. */
  function Multiples(p: nat, a: nat, k: nat): set<nat>
    requires p > 0
  {
    if k == 0 then {} else Multiples(p, a, k - 1) + {(k * a) % p}
  }

  lemma DistinctMultiples(p: nat, a: nat, j: nat, k: nat)
    requires Prime(p) && a % p != 0 && k < j < p
    ensures (j * a) % p != (k * a) % p
  {
    if (j * a) % p == (k * a) % p {
      Cancel(p, j, k, a);
      SmallRemainder(j, p);
      SmallRemainder(k, p);
    }
  }

  lemma {:induction false} MultiplesAreDistinct(p: nat, a: nat, k: nat, j: nat)
    requires Prime(p) && a % p != 0 && k < j < p
    ensures (j * a) % p !in Multiples(p, a, k)
  {
    if k == 0 {
    } else {
      MultiplesAreDistinct(p, a, k - 1, j);
      DistinctMultiples(p, a, j, k);
    }
  }

  lemma MultipleInside(p: nat, a: nat, k: nat)
    requires Prime(p) && a % p != 0 && 0 < k < p
    ensures 1 <= (k * a) % p <= p - 1
  {
    if (k * a) % p == 0 {
      Euclid(p, k, a);
      SmallRemainder(k, p);
    }
  }

  lemma {:induction false} MultiplesInside(p: nat, a: nat, k: nat)
    requires Prime(p) && a % p != 0 && k < p
    ensures Multiples(p, a, k) <= Upto(p - 1)
    ensures |Multiples(p, a, k)| == k
  {
    if k == 0 {
    } else {
      MultiplesInside(p, a, k - 1);
      MultiplesAreDistinct(p, a, k - 1, k);
      MultipleInside(p, a, k);
    }
  }

  lemma {:induction false} ProductOfMultiples(p: nat, a: nat, k: nat)
    requires Prime(p) && a % p != 0 && k < p
    ensures Product(Multiples(p, a, k)) % p == (Factorial(k) * Pow(a, k)) % p
  {
    if k == 0 {
    } else {
      ProductOfMultiples(p, a, k - 1);
      MultiplesAreDistinct(p, a, k - 1, k);
      var smaller, x := Multiples(p, a, k - 1), (k * a) % p;
      assert Multiples(p, a, k) - {x} == smaller;
      ProductWithout(Multiples(p, a, k), x);
      ProductStep(p, a, k, x, Product(smaller));
    }
  }

  lemma ProductStep(p: nat, a: nat, k: nat, x: nat, product: nat)
    requires p > 0 && k > 0 && x == (k * a) % p
    requires product % p == (Factorial(k - 1) * Pow(a, k - 1)) % p
    ensures (x * product) % p == (Factorial(k) * Pow(a, k)) % p
  {
    var f, w := Factorial(k - 1), Pow(a, k - 1);
    SmallRemainder(x, p);
    MulModBoth(x, k * a, product, f * w, p);
    FourFactors(k, a, f, w);
    assert Factorial(k) == k * f && Pow(a, k) == w * a;
    assert a * w == w * a;
  }

  lemma SubsetOfSameSize(s: set<nat>, t: set<nat>)
    requires s <= t && |s| == |t|
    ensures s == t
  {
    if s != t {
      var x :| x in t && x !in s;
      SmallerSubset(s, t - {x});
    }
  }

  lemma {:induction false} SmallerSubset(s: set<nat>, t: set<nat>)
    requires s <= t
    ensures |s| <= |t|
    decreases s
  {
    if s == {} {
    } else {
      var x :| x in s;
      SmallerSubset(s - {x}, t - {x});
    }
  }

  // ----- Fermat and Euler -----

  lemma Fermat(p: nat, a: nat)
    requires Prime(p) && a % p != 0
    ensures Pow(a, p - 1) % p == 1
  {
    var f, w := Factorial(p - 1), Pow(a, p - 1);
    ProductUpto(p - 1);
    MultiplesInside(p, a, p - 1);
    SubsetOfSameSize(Multiples(p, a, p - 1), Upto(p - 1));
    ProductOfMultiples(p, a, p - 1);
    FactorialNotDivisible(p, p - 1);
    CancelToOne(p, w, f);
  }

  lemma CancelToOne(p: nat, w: nat, f: nat)
    requires Prime(p) && f % p != 0 && f % p == (f * w) % p
    ensures w % p == 1
  {
    assert f * w == w * f;
    assert 1 * f == f;
    Cancel(p, w, 1, f);
    SmallRemainder(1, p);
  }

  lemma {:induction false} PowAdd(a: nat, m: nat, n: nat)
    ensures Pow(a, m + n) == Pow(a, m) * Pow(a, n)
  {
    if n == 0 {
    } else {
      PowAdd(a, m, n - 1);
      MulAssociates(Pow(a, m), Pow(a, n - 1), a);
    }
  }

  lemma {:induction false} PowOfProduct(a: nat, b: nat, n: nat)
    ensures Pow(a * b, n) == Pow(a, n) * Pow(b, n)
  {
    if n == 0 {
    } else {
      PowOfProduct(a, b, n - 1);
      FourFactors(Pow(a, n - 1), Pow(b, n - 1), a, b);
    }
  }

  lemma {:induction false} PowMod(a: nat, b: nat, n: nat, m: nat)
    requires m > 0 && a % m == b % m
    ensures Pow(a, n) % m == Pow(b, n) % m
  {
    if n == 0 {
    } else {
      PowMod(a, b, n - 1, m);
      MulModBoth(Pow(a, n - 1), Pow(b, n - 1), a, b, m);
    }
  }

  /** Below `p` at most one number is an inverse of `v`. */
  lemma InverseIsUnique(p: nat, v: nat, r: nat, r': nat)
    requires Prime(p) && v % p != 0 && r < p && r' < p
    requires (r * v) % p == (r' * v) % p
    ensures r == r'
  {
    Cancel(p, r, r', v);
    SmallRemainder(r, p);
    SmallRemainder(r', p);
  }

  /** The power `p - 2` is the inverse, and there is no other below `p`. */
  lemma FermatInverse(p: nat, v: nat, r: nat)
    requires Prime(p) && 0 < v < p && r < p
    ensures r == Pow(v, p - 2) % p <==> (r * v) % p == 1
  {
    var w := Pow(v, p - 2);
    SmallRemainder(v, p);
    Fermat(p, v);
    assert Pow(v, p - 1) == w * v;
    MulMod(w, v, p);
    if (r * v) % p == 1 {
      InverseIsUnique(p, v, r, w % p);
    }
  }

  /** `v` is a non-zero square modulo `p`. */
  ghost predicate QuadraticResidue(p: nat, v: nat)
    requires p > 0
  {
    v % p != 0 && exists y: nat :: (y * y) % p == v % p
  }

  /** A square root of one modulo a prime is 1 or -1. */
  lemma RootOfOne(p: nat, h: nat)
    requires Prime(p) && (h * h) % p == 1
    ensures h % p == 1 || h % p == p - 1
  {
    SmallRemainder(1, p);
    SameRemainder(h * h, 1, p);
    DifferenceOfSquares(h);
    Euclid(p, h - 1, h + 1);
    if (h - 1) % p == 0 {
      ZeroRemainder(h, 1, p);
    } else {
      AddMultiple(h + 1, -1, p);
      assert h - (p - 1) == (h + 1) + -1 * p;
      ZeroRemainder(h, p - 1, p);
      SmallRemainder(p - 1, p);
    }
  }

  lemma PowOfMultiple(p: nat, v: nat, n: nat)
    requires p > 0 && v % p == 0 && n > 0
    ensures Pow(v, n) % p == 0
  {
    MultipleOfMultiple(p, v, Pow(v, n - 1));
    assert Pow(v, n) == Pow(v, n - 1) * v;
  }

  lemma MultipleOfMultiple(p: nat, v: nat, w: nat)
    requires p > 0 && v % p == 0
    ensures (v * w) % p == 0 && (w * v) % p == 0
  {
    var k := v / p;
    assert v == k * p;
    MulAssociates(w, k, p);
    Remainder((w * k) * p, p, w * k, 0);
    assert v * w == w * v;
  }

  lemma OddPrime(p: nat)
    requires Prime(p) && p > 2
    ensures p % 2 == 1
  {
    assert p % 2 != 0;
  }

  /** The half power is zero for multiples of `p` and otherwise a square root of one. */
  lemma HalfPower(p: nat, v: nat)
    requires Prime(p) && p > 2
    ensures var h := Pow(v, (p - 1) / 2) % p;
            if v % p == 0 then h == 0 else h == 1 || h == p - 1
  {
    var n := (p - 1) / 2;
    OddPrime(p);
    if v % p == 0 {
      PowOfMultiple(p, v, n);
    } else {
      Fermat(p, v);
      PowAdd(v, n, n);
      RootOfOne(p, Pow(v, n));
    }
  }

  lemma ResidueHasPowerOne(p: nat, v: nat)
    requires Prime(p) && p > 2 && QuadraticResidue(p, v)
    ensures Pow(v, (p - 1) / 2) % p == 1
  {
    var y: nat :| (y * y) % p == v % p;
    var n := (p - 1) / 2;
    OddPrime(p);
    RootIsNotMultiple(p, v, y);
    Fermat(p, y);
    PowMod(v, y * y, n, p);
    PowOfProduct(y, y, n);
    PowAdd(y, n, n);
  }

  lemma RootIsNotMultiple(p: nat, v: nat, y: nat)
    requires p > 0 && v % p != 0 && (y * y) % p == v % p
    ensures y % p != 0
  {
    MulMod(y, y, p);
    assert 0 * y == 0;
  }

  lemma PowerOneHasRoot(p: nat, v: nat)
    requires Prime(p) && p % 4 == 3 && v % p != 0 && Pow(v, (p - 1) / 2) % p == 1
    ensures QuadraticResidue(p, v)
  {
    var m, n := (p + 1) / 4, (p - 1) / 2;
    var y := Pow(v, m);
    PowAdd(v, m, m);
    assert m + m == n + 1;
    MulMod(Pow(v, n), v, p);
    assert 1 * v == v;
    assert (y * y) % p == v % p;
  }

  /** Euler's criterion: which of 0, 1 and -1 the half power is says whether `v`
      is a multiple of `p`, a square or a non-square. */
  lemma EulersCriterion(p: nat, v: nat)
    requires Prime(p) && p % 4 == 3
    ensures var h := Pow(v, (p - 1) / 2) % p;
            && (h == 0 <==> v % p == 0)
            && (h == 1 <==> QuadraticResidue(p, v))
            && (h == p - 1 <==> v % p != 0 && !QuadraticResidue(p, v))
  {
    HalfPower(p, v);
    if QuadraticResidue(p, v) {
      ResidueHasPowerOne(p, v);
    } else if v % p != 0 && Pow(v, (p - 1) / 2) % p == 1 {
      PowerOneHasRoot(p, v);
    }
  }
}
