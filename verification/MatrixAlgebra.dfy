/** Dense matrices over the integers: the mathematical product and its laws. A matrix value is the list
    of its rows. */
module MatrixAlgebra {

  type Rows = seq<seq<int>>

  ghost predicate Shape(m: Rows, h: nat, w: nat) {
    |m| == h && forall i :: 0 <= i < h ==> |m[i]| == w
  }

  /** Row i of a times column j of b, the first n terms. */
  function Dot(a: Rows, b: Rows, i: nat, j: nat, n: nat): int
    requires i < |a| && n <= |a[i]| && n <= |b| && forall k :: 0 <= k < n ==> j < |b[k]|
  {
    if n == 0 then 0 else Dot(a, b, i, j, n - 1) + a[i][n - 1] * b[n - 1][j]
  }

  function Product(a: Rows, b: Rows, h: nat, n: nat, w: nat): (m: Rows)
    requires Shape(a, h, n) && Shape(b, n, w)
    ensures Shape(m, h, w)
    ensures forall i, j :: 0 <= i < h && 0 <= j < w ==> m[i][j] == Dot(a, b, i, j, n)
  {
    seq(h, i requires 0 <= i < h => seq(w, j requires 0 <= j < w => Dot(a, b, i, j, n)))
  }

  function Plus(a: Rows, b: Rows, h: nat, w: nat): (m: Rows)
    requires Shape(a, h, w) && Shape(b, h, w)
    ensures Shape(m, h, w)
    ensures forall i, j :: 0 <= i < h && 0 <= j < w ==> m[i][j] == a[i][j] + b[i][j]
  {
    seq(h, i requires 0 <= i < h => seq(w, j requires 0 <= j < w => a[i][j] + b[i][j]))
  }

  function Minus(a: Rows, b: Rows, h: nat, w: nat): (m: Rows)
    requires Shape(a, h, w) && Shape(b, h, w)
    ensures Shape(m, h, w)
    ensures forall i, j :: 0 <= i < h && 0 <= j < w ==> m[i][j] == a[i][j] - b[i][j]
  {
    seq(h, i requires 0 <= i < h => seq(w, j requires 0 <= j < w => a[i][j] - b[i][j]))
  }

  function Identity(h: nat, w: nat): (m: Rows)
    ensures Shape(m, h, w)
    ensures forall i, j :: 0 <= i < h && 0 <= j < w ==> m[i][j] == if i == j then 1 else 0
  {
    seq(h, i requires 0 <= i < h => seq(w, j requires 0 <= j < w => if i == j then 1 else 0))
  }

  lemma SameRows(a: Rows, b: Rows, h: nat, w: nat)
    requires Shape(a, h, w) && Shape(b, h, w)
    requires forall i, j :: 0 <= i < h && 0 <= j < w ==> a[i][j] == b[i][j]
    ensures a == b
  {
    forall i | 0 <= i < h ensures a[i] == b[i] {
      assert forall j :: 0 <= j < w ==> a[i][j] == b[i][j];
    }
  }

  // ---------- A double sum may be taken in either order ----------

  function RowSum(f: Rows, k: nat, m: nat): int
    requires k < |f| && m <= |f[k]|
  {
    if m == 0 then 0 else RowSum(f, k, m - 1) + f[k][m - 1]
  }

  function ColSum(f: Rows, l: nat, n: nat): int
    requires n <= |f| && forall k :: 0 <= k < n ==> l < |f[k]|
  {
    if n == 0 then 0 else ColSum(f, l, n - 1) + f[n - 1][l]
  }

  function ByRows(f: Rows, n: nat, m: nat): int
    requires n <= |f| && forall k :: 0 <= k < n ==> m <= |f[k]|
  {
    if n == 0 then 0 else ByRows(f, n - 1, m) + RowSum(f, n - 1, m)
  }

  function ByCols(f: Rows, n: nat, m: nat): int
    requires n <= |f| && forall k :: 0 <= k < n ==> m <= |f[k]|
  {
    if m == 0 then 0 else ByCols(f, n, m - 1) + ColSum(f, m - 1, n)
  }

  lemma {:induction false} LastRow(f: Rows, n: nat, m: nat)
    requires 0 < n <= |f| && forall k :: 0 <= k < n ==> m <= |f[k]|
    ensures ByCols(f, n, m) == ByCols(f, n - 1, m) + RowSum(f, n - 1, m)
  {
    if m > 0 { LastRow(f, n, m - 1); }
  }

  lemma {:induction false} NoRows(f: Rows, m: nat)
    ensures ByCols(f, 0, m) == 0
  {
    if m > 0 { NoRows(f, m - 1); }
  }

  lemma {:induction false} SumExchange(f: Rows, n: nat, m: nat)
    requires n <= |f| && forall k :: 0 <= k < n ==> m <= |f[k]|
    ensures ByRows(f, n, m) == ByCols(f, n, m)
  {
    if n == 0 {
      NoRows(f, m);
    } else {
      SumExchange(f, n - 1, m);
      LastRow(f, n, m);
    }
  }

  // ---------- Associativity ----------

  /** The terms of cell (i, j) of a b c: row k, column l holds a[i][l] b[l][k] c[k][j]. */
  function Terms(a: Rows, b: Rows, c: Rows, i: nat, j: nat, n: nat, p: nat): (f: Rows)
    requires i < |a| && |a[i]| == n && Shape(b, n, p) && |c| == p && forall k :: 0 <= k < p ==> j < |c[k]|
    ensures Shape(f, p, n)
    ensures forall k, l :: 0 <= k < p && 0 <= l < n ==> f[k][l] == a[i][l] * b[l][k] * c[k][j]
  {
    seq(p, k requires 0 <= k < p => seq(n, l requires 0 <= l < n => a[i][l] * b[l][k] * c[k][j]))
  }

  lemma {:induction false} TermsRow(a: Rows, b: Rows, c: Rows, i: nat, j: nat, n: nat, p: nat, k: nat, m: nat)
    requires i < |a| && |a[i]| == n && Shape(b, n, p) && |c| == p && forall k :: 0 <= k < p ==> j < |c[k]|
    requires k < p && m <= n
    ensures RowSum(Terms(a, b, c, i, j, n, p), k, m) == Dot(a, b, i, k, m) * c[k][j]
  {
    if m > 0 {
      TermsRow(a, b, c, i, j, n, p, k, m - 1);
      Distribute(Dot(a, b, i, k, m - 1), a[i][m - 1] * b[m - 1][k], c[k][j]);
    }
  }

  lemma {:induction false} TermsCol(a: Rows, b: Rows, c: Rows, i: nat, j: nat, n: nat, p: nat, l: nat, m: nat)
    requires i < |a| && |a[i]| == n && Shape(b, n, p) && |c| == p && forall k :: 0 <= k < p ==> j < |c[k]|
    requires l < n && m <= p
    ensures ColSum(Terms(a, b, c, i, j, n, p), l, m) == a[i][l] * Dot(b, c, l, j, m)
  {
    if m > 0 {
      TermsCol(a, b, c, i, j, n, p, l, m - 1);
      Distribute(Dot(b, c, l, j, m - 1), b[l][m - 1] * c[m - 1][j], a[i][l]);
      assert a[i][l] * b[l][m - 1] * c[m - 1][j] == (b[l][m - 1] * c[m - 1][j]) * a[i][l];
    }
  }

  lemma Distribute(x: int, y: int, z: int)
    ensures (x + y) * z == x * z + y * z == z * x + z * y
  {
  }

  lemma {:induction false} LeftNested(a: Rows, b: Rows, c: Rows,
                                      i: nat, j: nat, h: nat, n: nat, p: nat, w: nat, m: nat)
    requires Shape(a, h, n) && Shape(b, n, p) && Shape(c, p, w) && i < h && j < w && m <= p
    ensures Dot(Product(a, b, h, n, p), c, i, j, m) == ByRows(Terms(a, b, c, i, j, n, p), m, n)
  {
    if m > 0 {
      LeftNested(a, b, c, i, j, h, n, p, w, m - 1);
      TermsRow(a, b, c, i, j, n, p, m - 1, n);
    }
  }

  lemma {:induction false} RightNested(a: Rows, b: Rows, c: Rows,
                                      i: nat, j: nat, h: nat, n: nat, p: nat, w: nat, m: nat)
    requires Shape(a, h, n) && Shape(b, n, p) && Shape(c, p, w) && i < h && j < w && m <= n
    ensures Dot(a, Product(b, c, n, p, w), i, j, m) == ByCols(Terms(a, b, c, i, j, n, p), p, m)
  {
    if m > 0 {
      RightNested(a, b, c, i, j, h, n, p, w, m - 1);
      TermsCol(a, b, c, i, j, n, p, m - 1, p);
    }
  }

  lemma ProductAssociative(a: Rows, b: Rows, c: Rows, h: nat, n: nat, p: nat, w: nat)
    requires Shape(a, h, n) && Shape(b, n, p) && Shape(c, p, w)
    ensures Product(Product(a, b, h, n, p), c, h, p, w) == Product(a, Product(b, c, n, p, w), h, n, w)
  {
    var l, r := Product(Product(a, b, h, n, p), c, h, p, w), Product(a, Product(b, c, n, p, w), h, n, w);
    forall i, j | 0 <= i < h && 0 <= j < w ensures l[i][j] == r[i][j] {
      LeftNested(a, b, c, i, j, h, n, p, w, p);
      RightNested(a, b, c, i, j, h, n, p, w, n);
      SumExchange(Terms(a, b, c, i, j, n, p), p, n);
    }
    SameRows(l, r, h, w);
  }

  // ---------- Distributivity and identity ----------

  lemma {:induction false} DotOfPlusRight(a: Rows, b: Rows, c: Rows, i: nat, j: nat, h: nat, n: nat, w: nat, m: nat)
    requires Shape(a, h, n) && Shape(b, n, w) && Shape(c, n, w) && i < h && j < w && m <= n
    ensures Dot(a, Plus(b, c, n, w), i, j, m) == Dot(a, b, i, j, m) + Dot(a, c, i, j, m)
  {
    if m > 0 {
      DotOfPlusRight(a, b, c, i, j, h, n, w, m - 1);
      Distribute(b[m - 1][j], c[m - 1][j], a[i][m - 1]);
    }
  }

  lemma {:induction false} DotOfPlusLeft(a: Rows, b: Rows, c: Rows, i: nat, j: nat, h: nat, n: nat, w: nat, m: nat)
    requires Shape(a, h, n) && Shape(b, h, n) && Shape(c, n, w) && i < h && j < w && m <= n
    ensures Dot(Plus(a, b, h, n), c, i, j, m) == Dot(a, c, i, j, m) + Dot(b, c, i, j, m)
  {
    if m > 0 {
      DotOfPlusLeft(a, b, c, i, j, h, n, w, m - 1);
      Distribute(a[i][m - 1], b[i][m - 1], c[m - 1][j]);
    }
  }

  lemma ProductDistributes(a: Rows, b: Rows, c: Rows, h: nat, n: nat, w: nat)
    requires Shape(a, h, n) && Shape(b, n, w) && Shape(c, n, w)
    ensures Product(a, Plus(b, c, n, w), h, n, w) == Plus(Product(a, b, h, n, w), Product(a, c, h, n, w), h, w)
  {
    var l, r := Product(a, Plus(b, c, n, w), h, n, w), Plus(Product(a, b, h, n, w), Product(a, c, h, n, w), h, w);
    forall i, j | 0 <= i < h && 0 <= j < w ensures l[i][j] == r[i][j] {
      DotOfPlusRight(a, b, c, i, j, h, n, w, n);
    }
    SameRows(l, r, h, w);
  }

  lemma PlusDistributes(a: Rows, b: Rows, c: Rows, h: nat, n: nat, w: nat)
    requires Shape(a, h, n) && Shape(b, h, n) && Shape(c, n, w)
    ensures Product(Plus(a, b, h, n), c, h, n, w) == Plus(Product(a, c, h, n, w), Product(b, c, h, n, w), h, w)
  {
    var l, r := Product(Plus(a, b, h, n), c, h, n, w), Plus(Product(a, c, h, n, w), Product(b, c, h, n, w), h, w);
    forall i, j | 0 <= i < h && 0 <= j < w ensures l[i][j] == r[i][j] {
      DotOfPlusLeft(a, b, c, i, j, h, n, w, n);
    }
    SameRows(l, r, h, w);
  }

  lemma {:induction false} DotIdentityLeft(a: Rows, i: nat, j: nat, h: nat, w: nat, m: nat)
    requires Shape(a, h, w) && i < h && j < w && m <= h
    ensures Dot(Identity(h, h), a, i, j, m) == if i < m then a[i][j] else 0
  {
    if m > 0 { DotIdentityLeft(a, i, j, h, w, m - 1); }
  }

  lemma {:induction false} DotIdentityRight(a: Rows, i: nat, j: nat, h: nat, w: nat, m: nat)
    requires Shape(a, h, w) && i < h && j < w && m <= w
    ensures Dot(a, Identity(w, w), i, j, m) == if j < m then a[i][j] else 0
  {
    if m > 0 { DotIdentityRight(a, i, j, h, w, m - 1); }
  }

  lemma IdentityNeutral(a: Rows, h: nat, w: nat)
    requires Shape(a, h, w)
    ensures Product(Identity(h, h), a, h, h, w) == a == Product(a, Identity(w, w), h, w, w)
  {
    var l, r := Product(Identity(h, h), a, h, h, w), Product(a, Identity(w, w), h, w, w);
    forall i, j | 0 <= i < h && 0 <= j < w ensures l[i][j] == a[i][j] == r[i][j] {
      DotIdentityLeft(a, i, j, h, w, h);
      DotIdentityRight(a, i, j, h, w, w);
    }
    SameRows(l, a, h, w);
    SameRows(r, a, h, w);
  }
}
