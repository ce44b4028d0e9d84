/** Facts about products and quotients, each on its own: the other modules reason about them by calling
    these lemmas, never by leaving a non-linear step to the verifier. */
module Arithmetic {

  function Min(a: int, b: int): int {
    if a <= b then a else b
  }

  lemma Commutes(a: int, b: int)
    ensures a * b == b * a
  {
  }

  lemma Distributes(a: int, x: int, y: int)
    ensures a * (x + y) == a * x + a * y
    ensures a * (x - y) == a * x - a * y
    ensures (x + y) * a == x * a + y * a
    ensures (x - y) * a == x * a - y * a
  {
  }

  lemma {:induction false} ProductIsNat(a: nat, b: nat)
    ensures 0 <= a * b
  {
    if b > 0 {
      ProductIsNat(a, b - 1);
      Distributes(a, b - 1, 1);
    }
  }

  lemma TimesKeepsOrder(a: int, b: int, d: nat)
    requires a <= b
    ensures a * d <= b * d && d * a <= d * b
  {
    ProductIsNat(b - a, d);
    Distributes(d, b, a);
    Commutes(a, d);
    Commutes(b, d);
  }

  lemma MultiplesLieApart(d: nat, a: nat, b: nat)
    ensures a <= b ==> d * a <= d * b
    ensures a < b ==> d * a + d <= d * b
  {
    if a < b {
      TimesKeepsOrder(a + 1, b, d);
      Distributes(d, a, 1);
    }
  }

  /** Division with remainder: the quotient and the remainder are the ones that add up. */
  lemma QuotientIs(n: nat, d: nat, q: nat, rest: nat)
    requires n == d * q + rest && rest < d
    ensures n / d == q && n % d == rest
  {
    assert n == d * (n / d) + n % d;
    MultiplesLieApart(d, q, n / d);
    MultiplesLieApart(d, n / d, q);
  }

  lemma QuotientOfMultiple(d: nat, q: nat)
    requires d > 0
    ensures d * q / d == q && d * q % d == 0
  {
    ProductIsNat(d, q);
    QuotientIs(d * q, d, q, 0);
  }

  lemma Associates(a: int, b: int, c: int)
    ensures a * (b * c) == a * b * c
  {
  }

  /** Two divisions with remainder are one: the remainders combine. */
  lemma RemaindersCombine(a: nat, b: nat, p: nat, s: nat, r: nat)
    requires r < a && s < b
    ensures a * (b * p + s) + r == a * b * p + (a * s + r)
    ensures 0 <= a * s + r < a * b
  {
    Associates(a, b, p);
    Distributes(a, b * p, s);
    ProductIsNat(a, s);
    MultiplesLieApart(a, s, b);
  }

  lemma QuotientOfProduct(n: nat, a: nat, b: nat, q: nat, p: nat, s: nat, r: nat)
    requires n == a * q + r && r < a && q == b * p + s && s < b
    ensures a * b > 0 && n / (a * b) == p
  {
    RemaindersCombine(a, b, p, s, r);
    var d, rest := a * b, a * s + r;
    assert n == d * p + rest;
    QuotientIs(n, d, p, rest);
  }

  /** Dividing by one number and then by another is dividing by their product. */
  lemma DivideTwice(n: nat, a: nat, b: nat)
    requires a > 0 && b > 0
    ensures a * b > 0 && n / (a * b) == n / a / b
  {
    DivisionHolds(n, a);
    DivisionHolds(n / a, b);
    QuotientOfProduct(n, a, b, n / a, n / a / b, n / a % b, n % a);
  }

  lemma DivisionHolds(n: nat, d: nat)
    requires d > 0
    ensures n == d * (n / d) + n % d && 0 <= n / d && 0 <= n % d < d
  {
  }
}
