/** The number theory behind the two sieves. */
module Primes {

  predicate Prime(p: nat) {
    p >= 2 && forall d :: 2 <= d < p ==> p % d != 0
  }

  lemma MultipleSize(d: nat, k: int)
    ensures k >= 1 ==> d * k >= d
    ensures k == 0 ==> d * k == 0
    ensures k <= -1 ==> d * k + d <= 0
  {
    if k >= 1 {
      assert d * k == d + d * (k - 1);
      assert d * (k - 1) >= 0;
    } else if k <= -1 {
      assert d * k + d == d * (k + 1);
      assert d * (-k - 1) >= 0;
    }
  }

  lemma ProductDivides(n: nat, d: nat, q: nat)
    requires 0 < d && n == d * q
    ensures n % d == 0 && n / d == q
  {
    assert d * (q - n / d) == n % d;
    MultipleSize(d, q - n / d);
  }

  lemma DividesIsProduct(n: nat, d: nat)
    requires 0 < d && n % d == 0
    ensures n == d * (n / d)
  {}

  /** Two different multiples of d are at least d apart. */
  lemma NextMultiple(d: nat, a: nat, b: nat)
    requires 0 < d && a % d == 0 && b % d == 0 && a < b
    ensures a + d <= b
  {
    var x, y := a / d, b / d;
    assert a == d * x && b == d * y;
    assert d * (y - x) == d * y - d * x;
    MultipleSize(d, y - x);
  }

  lemma MultipleStep(d: nat, a: nat)
    requires 0 < d && a % d == 0
    ensures (a + d) % d == 0
  {
    assert a + d == d * (a / d + 1);
    ProductDivides(a + d, d, a / d + 1);
  }

  lemma DividesTransitive(p: nat, d: nat, n: nat)
    requires 0 < p && 0 < d && d % p == 0 && n % d == 0
    ensures n % p == 0
  {
    var a, b := d / p, n / d;
    assert d == p * a && n == d * b;
    assert (p * a) * b == p * (a * b);
    ProductDivides(n, p, a * b);
  }

  /** Every number from two on has a prime divisor. */
  lemma {:induction false} PrimeDivisor(n: nat) returns (p: nat)
    requires n >= 2
    ensures Prime(p) && p <= n && n % p == 0
  {
    if Prime(n) {
      p := n;
    } else {
      var d :| 2 <= d < n && n % d == 0;
      p := PrimeDivisor(d);
      DividesTransitive(p, d, n);
    }
  }

  /** A composite number has a prime divisor of at most half its size. */
  lemma ProperPrimeDivisor(n: nat) returns (p: nat)
    requires n >= 2 && !Prime(n)
    ensures Prime(p) && 2 * p <= n && n % p == 0
  {
    p := PrimeDivisor(n);
    assert n % p == 0 && p % p == 0;
    NextMultiple(p, p, n);
  }

  /** A number with a divisor strictly between one and itself is not prime. */
  lemma DivisorMakesComposite(n: nat, d: nat)
    requires 2 <= d < n && n % d == 0
    ensures !Prime(n)
  {}

  /** The primes from lo to hi in ascending order. */
  function PrimeList(lo: nat, hi: nat): seq<nat> {
    if hi < lo then []
    else if hi == 0 then []
    else PrimeList(lo, hi - 1) + if Prime(hi) then [hi] else []
  }

  /** How many primes there are up to n. */
  function PrimePi(n: nat): nat {
    if n == 0 then 0 else PrimePi(n - 1) + if Prime(n) then 1 else 0
  }

  /** How many numbers from 2 to n are not prime. */
  function Composites(n: nat): nat {
    if n < 2 then 0 else Composites(n - 1) + if Prime(n) then 0 else 1
  }

  lemma {:induction false} PrimeOrComposite(n: nat)
    requires n >= 1
    ensures PrimePi(n) + Composites(n) == n - 1
  {
    if n > 1 {
      PrimeOrComposite(n - 1);
    } else {
      assert PrimePi(1) == PrimePi(0) == 0;
    }
  }

  lemma {:induction false} PrimeListCounts(n: nat)
    ensures |PrimeList(2, n)| == PrimePi(n)
  {
    if n > 0 {
      PrimeListCounts(n - 1);
    }
  }

  /** Splitting off the only even prime. */
  lemma {:induction false} PrimeListSplit(n: nat)
    requires n >= 2
    ensures PrimeList(2, n) == [2] + PrimeList(3, n)
  {
    if n > 2 {
      PrimeListSplit(n - 1);
    } else {
      assert PrimeList(2, 1) == [];
    }
  }

  lemma EvenNotPrime(n: nat)
    requires n > 2 && n % 2 == 0
    ensures !Prime(n)
  {}

  /** Sundaram's identity: i + j + 2ij names the odd number (2i+1)(2j+1). */
  lemma SundaramIdentity(i: nat, j: nat)
    ensures 2 * (i + j + 2 * i * j) + 1 == (2 * i + 1) * (2 * j + 1)
  {}

  /** Every index Sundaram strikes names a composite odd number. */
  lemma SundaramSound(i: nat, j: nat, x: nat)
    requires 1 <= i && 1 <= j && x == i + j + 2 * i * j
    ensures !Prime(2 * x + 1)
  {
    SundaramIdentity(i, j);
    var n, d, q := 2 * x + 1, 2 * i + 1, 2 * j + 1;
    assert n == d * q;
    ProductDivides(n, d, q);
    assert d * q >= d * 2;
    DivisorMakesComposite(n, d);
  }

  /** Every composite odd number is named by a pair 1 <= i <= j. */
  lemma SundaramComplete(x: nat) returns (i: nat, j: nat)
    requires 1 <= x && !Prime(2 * x + 1)
    ensures 1 <= i <= j && x == i + j + 2 * i * j
  {
    var n := 2 * x + 1;
    var p := ProperPrimeDivisor(n);
    var q := n / p;
    DividesIsProduct(n, p);
    CofactorAtLeastTwo(n, p, q);
    EvenProduct(p, q);
    assert q * p == p * q;
    EvenProduct(q, p);
    if p <= q {
      i, j := OddPair(x, p, q);
    } else {
      i, j := OddPair(x, q, p);
    }
  }

  lemma CofactorAtLeastTwo(n: nat, p: nat, q: nat)
    requires 1 <= p && 2 * p <= n && n == p * q
    ensures 2 <= q
  {
    assert p * 1 == p && p * 0 == 0;
  }

  lemma OddPair(x: nat, a: nat, b: nat) returns (i: nat, j: nat)
    requires 2 <= a <= b && a % 2 == 1 && b % 2 == 1 && 2 * x + 1 == a * b
    ensures 1 <= i <= j && x == i + j + 2 * i * j
  {
    i, j := (a - 1) / 2, (b - 1) / 2;
    assert a == 2 * i + 1 && b == 2 * j + 1;
    SundaramIdentity(i, j);
  }

  lemma EvenProduct(p: nat, q: nat)
    ensures p % 2 == 0 ==> (p * q) % 2 == 0
  {
    if p % 2 == 0 {
      assert p * q == 2 * ((p / 2) * q);
    }
  }
}
