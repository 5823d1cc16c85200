/** The few facts about products and remainders that the other modules share. */
module Arithmetic {

  function Pow2(k: nat): (p: nat)
    ensures p > 0
  {
    if k == 0 then 1 else 2 * Pow2(k - 1)
  }

  lemma Multiples(n: int, m: nat)
    ensures n <= 0 ==> n * m <= 0
    ensures n >= 1 ==> n * m >= m
    ensures n >= 2 ==> n * m >= 2 * m
  {
  }

  /** Quotient and remainder are the only pair of their kind. */
  lemma DivModUnique(a: nat, m: nat, q: int, r: int)
    requires 0 <= r < m && a == q * m + r
    ensures a / m == q && a % m == r
  {
    var q', r' := a / m, a % m;
    assert a == q' * m + r';
    assert (q - q') * m == r' - r;
    Multiples(q - q', m);
    Multiples(q' - q, m);
  }

  /** Quotient and remainder determine the number. */
  lemma SamePlace(k: nat, l: nat, m: nat)
    requires m > 0
    ensures k == l <==> k / m == l / m && k % m == l % m
  {
    assert k == (k / m) * m + k % m && l == (l / m) * m + l % m;
  }

  /** Row-major positions below different rows differ. */
  lemma RowsApart(w: nat, i: int, j: int, i': int, j': int)
    requires 0 <= j < w && 0 <= j' < w && w * i + j == w * i' + j'
    ensures i == i' && j == j'
  {
    assert (i - i') * w == w * i - w * i' == j' - j;
    Multiples(i - i', w);
    Multiples(i' - i, w);
  }

  lemma RowFits(h: nat, w: nat, i: nat, j: nat)
    requires i < h && j < w
    ensures w * i + j < h * w
  {
    Multiples(h - i, w);
    assert (h - i) * w == h * w - w * i;
  }
}
