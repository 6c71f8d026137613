/** Powers, quotients and remainders, as far as positional notation needs them. */
module Arithmetic {

  function Pow(b: nat, k: nat): (p: nat)
    ensures b > 0 ==> p > 0
  {
    if k == 0 then 1 else b * Pow(b, k - 1)
  }

  lemma Regroup(a: int, b: int, c: int)
    ensures a * (b * c) == (a * b) * c == b * (a * c)
  {
  }

  lemma Distribute(a: int, b: int, c: int)
    ensures a * (b + c) == a * b + a * c
  {
  }

  lemma {:induction false} PowAdd(b: nat, j: nat, k: nat)
    ensures Pow(b, j + k) == Pow(b, j) * Pow(b, k)
  {
    if j == 0 {
    } else {
      PowAdd(b, j - 1, k);
      Regroup(b, Pow(b, j - 1), Pow(b, k));
    }
  }

  lemma {:induction false} PowGrows(b: nat, j: nat, k: nat)
    requires b > 0 && j <= k
    ensures Pow(b, j) <= Pow(b, k)
    decreases k - j
  {
    if j == k {
    } else {
      PowGrows(b, j, k - 1);
      assert Pow(b, k) == b * Pow(b, k - 1) >= Pow(b, k - 1);
    }
  }

  /** A non-zero multiple of d is at least d away from zero. */
  lemma MultipleIsFar(e: int, d: int)
    requires d > 0
    ensures e >= 1 ==> e * d >= d
    ensures e <= -1 ==> e * d <= -d
  {
    if e >= 1 {
      assert e * d == d + (e - 1) * d;
    } else if e <= -1 {
      assert e * d == -d + (e + 1) * d;
    }
  }

  lemma QuotientIsUnique(n: int, d: int, q: int, r: int)
    requires d > 0 && n == q * d + r && 0 <= r < d
    ensures n / d == q && n % d == r
  {
    var e := n / d - q;
    assert e * d == r - n % d;
    MultipleIsFar(e, d);
  }

  lemma ProductMonotone(a: nat, b: nat, c: nat)
    requires a <= b
    ensures a * c <= b * c && (a < b && c > 0 ==> a * c < b * c)
  {
    Distribute(c, a, b - a);
    if a < b && c > 0 {
      MultipleIsFar(b - a, c);
    }
  }

  /** Taking off the lowest digit in base b. */
  lemma ModuloStep(n: nat, b: nat, p: nat)
    requires b > 0 && p > 0
    ensures b * p > 0
    ensures n % (b * p) == n % b + b * ((n / b) % p)
    ensures n / (b * p) == (n / b) / p
  {
    var m, low := n / b, n % b;
    var q, r := m / p, m % p;
    MultipleIsFar(b, p);
    assert n == b * m + low && m == p * q + r;
    DigitsRecombine(n, b, p, m, low, q, r);
  }

  lemma DigitsRecombine(n: nat, b: nat, p: nat, m: nat, low: nat, q: nat, r: nat)
    requires b > 0 && p > 0 && b * p > 0 && low < b && r < p
    requires n == b * m + low && m == p * q + r
    ensures n % (b * p) == low + b * r && n / (b * p) == q
  {
    Distribute(b, p * q, r);
    Regroup(b, p, q);
    ProductMonotone(r + 1, p, b);
    Distribute(b, r, 1);
    QuotientIsUnique(n, b * p, q, b * r + low);
  }
}
