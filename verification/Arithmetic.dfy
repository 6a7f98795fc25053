/** Integer arithmetic several modules share. Products and quotients are kept out of larger proofs. */
module Arithmetic {

  function Min(a: nat, b: nat): nat { if a <= b then a else b }

  function Max(a: int, b: int): int { if a >= b then a else b }

  /** How many times `each` fits into `total`. */
  function Share(total: nat, each: nat): (n: nat)
    requires each >= 1
    ensures n * each <= total < n * each + each
  {
    total / each
  }

  /** A product, under a name a proof can keep closed. */
  function Times(n: nat, m: nat): nat { n * m }

  lemma TimesNext(n: nat, m: nat)
    ensures Times(n + 1, m) == Times(n, m) + m && Times(0, m) == 0
  {
  }

  lemma TimesGrows(a: nat, b: nat, m: nat)
    requires a <= b
    ensures Times(a, m) <= Times(b, m)
  {
    Grows(a, b, m, m);
  }

  lemma Grows(a: nat, b: nat, c: nat, d: nat)
    requires a <= b && c <= d
    ensures a * c <= b * d
  {
    assert a * c <= b * c <= b * d;
  }

  /** No more than its share fits. */
  lemma ShareIsMost(total: nat, each: nat, n: nat)
    requires each >= 1
    ensures n * each <= total <==> n <= Share(total, each)
  {
    var most := Share(total, each);
    hide Share;
    if n > most {
      Grows(most + 1, n, each, each);
      OneMore(most, each);
    } else {
      Grows(n, most, each, each);
    }
  }

  lemma OneMore(n: nat, each: nat)
    ensures (n + 1) * each == n * each + each
  {
  }

  /** A product of a positive factor is positive only where the other factor is. */
  lemma PositiveFactor(p: nat, f: int)
    requires p * f > 0
    ensures p > 0 && f > 0
  {
    if f <= 0 { NotPositive(p, f); }
  }

  lemma NotPositive(p: nat, f: int)
    requires f <= 0
    ensures p * f <= 0
  {
  }

  /** `p` times twice `a` less three times `b`. */
  lemma Spread(p: nat, a: int, b: int)
    ensures p * (2 * a - 3 * b) == 2 * (p * a) - 3 * (p * b)
    ensures p * (a - 3 * b) == p * a - 3 * (p * b)
  {
  }

  lemma Twice(p: nat, a: nat)
    ensures (2 * p) * a == 2 * (p * a) && (2 * p + 1) * a == 2 * (p * a) + a && (p + 1) * a == p * a + a
  {
  }
}
