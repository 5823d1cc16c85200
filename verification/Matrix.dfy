/** Dense matrices in one flat store, and their operators as the nested loops compute them. */
module Matrix {
  import opened Arithmetic
  import opened MatrixAlgebra

  // ---------- The flat store ----------

  function FlattenIndex(w: nat, i: nat, j: nat): nat {
    w * i + j
  }

  /** Cells inside the matrix have places inside the store, and different cells different places. */
  lemma FlatInRange(h: nat, w: nat, i: nat, j: nat)
    requires i < h && j < w
    ensures FlattenIndex(w, i, j) < h * w
  {
    RowFits(h, w, i, j);
  }

  lemma FlatInjective(w: nat, i: nat, j: nat, i': nat, j': nat)
    requires j < w && j' < w
    ensures FlattenIndex(w, i, j) == FlattenIndex(w, i', j') <==> i == i' && j == j'
  {
    if FlattenIndex(w, i, j) == FlattenIndex(w, i', j') { RowsApart(w, i, j, i', j'); }
  }

  /** Row-major order: the first cell comes first, the next cell of a row right behind, and the next row
      behind all cells of the row. */
  lemma RowMajor(w: nat, i: nat, j: nat)
    ensures FlattenIndex(w, 0, 0) == 0
    ensures FlattenIndex(w, i, j + 1) == FlattenIndex(w, i, j) + 1
    ensures FlattenIndex(w, i + 1, 0) == FlattenIndex(w, i, w)
    ensures w > 0 ==> FlattenIndex(w, i + 1, 0) == FlattenIndex(w, i, w - 1) + 1
  {
    assert w * (i + 1) == w * i + w;
  }

  /** And nothing else is: an index with these properties is this one. */
  lemma {:induction false} RowMajorUnique(w: nat, f: (nat, nat) -> nat, i: nat, j: nat)
    requires f(0, 0) == 0
    requires forall p: nat, q: nat :: f(p, q + 1) == f(p, q) + 1
    requires forall p: nat :: f(p + 1, 0) == f(p, w)
    ensures f(i, j) == FlattenIndex(w, i, j)
    decreases i, j
  {
    if j > 0 {
      RowMajorUnique(w, f, i, j - 1);
      assert f(i, j - 1 + 1) == f(i, j - 1) + 1;
      RowMajor(w, i, j - 1);
    } else if i > 0 {
      RowMajorUnique(w, f, i - 1, w);
      assert f(i - 1 + 1, 0) == f(i - 1, w);
      RowMajor(w, i - 1, 0);
    }
  }

  class Mat {
    const h: nat
    const w: nat
    const data: array<int>

    ghost predicate Ok() {
      data.Length == h * w
    }

    /** Read one cell. */
    function Get(i: nat, j: nat): int
      requires Ok() && i < h && j < w
      reads data
    {
      FlatInRange(h, w, i, j);
      data[FlattenIndex(w, i, j)]
    }

    ghost function View(): (m: Rows)
      requires Ok()
      reads data
      ensures Shape(m, h, w)
      ensures forall i, j :: 0 <= i < h && 0 <= j < w ==> m[i][j] == Get(i, j)
    {
      seq(h, i requires 0 <= i < h reads data => seq(w, j requires 0 <= j < w reads data => Get(i, j)))
    }

    /** The matrix of default values. */
    constructor Zeros(h: nat, w: nat)
      ensures Ok() && this.h == h && this.w == w && fresh(data)
      ensures forall k :: 0 <= k < data.Length ==> data[k] == 0
    {
      this.h, this.w := h, w;
      data := new int[h * w](_ => 0);
    }

    constructor Copy(orig: Mat)
      requires orig.Ok()
      ensures Ok() && h == orig.h && w == orig.w && fresh(data) && data[..] == orig.data[..]
    {
      h, w := orig.h, orig.w;
      data := new int[orig.data.Length](_ => 0);
      new;
      var k := 0;
      while k < data.Length
        invariant k <= data.Length && forall m :: 0 <= m < k ==> data[m] == orig.data[m]
      {
        data[k] := orig.data[k];
        k := k + 1;
      }
    }

    /** Write one cell. */
    method Put(i: nat, j: nat, v: int)
      requires Ok() && i < h && j < w
      modifies data
      ensures Get(i, j) == v
      ensures forall i', j' :: 0 <= i' < h && 0 <= j' < w && !(i' == i && j' == j) ==> Get(i', j') == old(Get(i', j'))
    {
      FlatInRange(h, w, i, j);
      data[FlattenIndex(w, i, j)] := v;
      forall i', j' | 0 <= i' < h && 0 <= j' < w && !(i' == i && j' == j)
        ensures Get(i', j') == old(Get(i', j'))
      {
        FlatInRange(h, w, i', j');
        FlatInjective(w, i', j', i, j);
      }
    }
  }

  lemma SameStore(a: Mat, b: Mat)
    requires a.Ok() && b.Ok() && a.h == b.h && a.w == b.w && a.data[..] == b.data[..]
    ensures a.View() == b.View()
  {
    forall i, j | 0 <= i < a.h && 0 <= j < a.w ensures a.Get(i, j) == b.Get(i, j) {
      FlatInRange(a.h, a.w, i, j);
      assert a.data[..][FlattenIndex(a.w, i, j)] == b.data[..][FlattenIndex(a.w, i, j)];
    }
    SameRows(a.View(), b.View(), a.h, a.w);
  }

  /** The rows, one after the other. */
  function Flat(rows: Rows): seq<int> {
    if rows == [] then [] else Flat(rows[..|rows| - 1]) + rows[|rows| - 1]
  }

  lemma {:induction false} FlatLength(rows: Rows, h: nat, w: nat)
    requires Shape(rows, h, w)
    ensures |Flat(rows)| == h * w
  {
    if h > 0 {
      FlatLength(rows[..h - 1], h - 1, w);
      assert h * w == (h - 1) * w + w;
    }
  }

  lemma {:induction false} FlatAt(rows: Rows, h: nat, w: nat, i: nat, j: nat)
    requires Shape(rows, h, w) && i < h && j < w
    ensures w * i + j < |Flat(rows)| && Flat(rows)[w * i + j] == rows[i][j]
    decreases h
  {
    FlatLength(rows[..h - 1], h - 1, w);
    assert w * (h - 1) == (h - 1) * w;
    if i < h - 1 {
      FlatAt(rows[..h - 1], h - 1, w, i, j);
    }
  }

  /** The store of a matrix is its rows, one after the other. */
  lemma StoreIsRows(m: Mat)
    requires m.Ok()
    ensures m.data[..] == Flat(m.View())
  {
    hide Flat;
    var V := m.View();
    FlatLength(V, m.h, m.w);
    forall k | 0 <= k < m.data.Length ensures m.data[k] == Flat(V)[k] {
      PlaceInRow(m.h, m.w, k);
      var i, j := k / m.w, k % m.w;
      FlatAt(V, m.h, m.w, i, j);
      assert V[i][j] == m.Get(i, j);
    }
  }

  lemma PlaceInRow(h: nat, w: nat, k: nat)
    requires k < h * w
    ensures w > 0 && k / w < h && k % w < w && k == w * (k / w) + k % w
  {
    assert w > 0;
    var q := k / w;
    assert k == w * q + k % w;
    assert (h - q) * w == h * w - w * q;
    Multiples(h - q, w);
  }

  lemma ZeroStore(m: Mat)
    requires m.Ok() && forall k :: 0 <= k < m.data.Length ==> m.data[k] == 0
    ensures forall i, j :: 0 <= i < m.h && 0 <= j < m.w ==> m.Get(i, j) == 0
  {
    forall i, j | 0 <= i < m.h && 0 <= j < m.w ensures m.Get(i, j) == 0 {
      FlatInRange(m.h, m.w, i, j);
    }
  }

  /** The identity, also for a rectangle. */
  method Eye(h: nat, w: nat) returns (m: Mat)
    ensures m.Ok() && m.h == h && m.w == w && fresh(m) && fresh(m.data)
    ensures m.View() == Identity(h, w)
  {
    m := new Mat.Zeros(h, w);
    ZeroStore(m);
    var i := 0;
    var n := if h <= w then h else w;
    while i < n
      invariant i <= n
      invariant forall a, b :: 0 <= a < h && 0 <= b < w ==> m.Get(a, b) == if a == b && a < i then 1 else 0
    {
      m.Put(i, i, 1);
      i := i + 1;
    }
    SameRows(m.View(), Identity(h, w), h, w);
  }

  // ---------- Sums ----------

  /** a += b. A mismatch throws before anything is written; a and b may be the same matrix. */
  method AddAssign(a: Mat, b: Mat) returns (ok: bool)
    requires a.Ok() && b.Ok() && (a != b ==> a.data != b.data)
    modifies a.data
    ensures ok <==> a.h == b.h && a.w == b.w
    ensures !ok ==> a.data[..] == old(a.data[..])
    ensures ok ==> a.View() == Plus(old(a.View()), old(b.View()), a.h, a.w)
  {
    if a.h != b.h || a.w != b.w {
      return false;
    }
    ghost var A, B := a.View(), b.View();
    var i := 0;
    while i < b.h
      invariant i <= b.h
      invariant a != b ==> b.View() == B
      invariant forall p, q :: 0 <= p < a.h && 0 <= q < a.w ==>
                  a.Get(p, q) == if p < i then A[p][q] + B[p][q] else A[p][q]
    {
      var j := 0;
      while j < b.w
        invariant j <= b.w
        invariant a != b ==> b.View() == B
        invariant forall p, q :: 0 <= p < a.h && 0 <= q < a.w ==>
                    a.Get(p, q) == if p < i || (p == i && q < j) then A[p][q] + B[p][q] else A[p][q]
      {
        assert b.Get(i, j) == b.View()[i][j];
        a.Put(i, j, a.Get(i, j) + b.Get(i, j));
        j := j + 1;
      }
      i := i + 1;
    }
    SameRows(a.View(), Plus(A, B, a.h, a.w), a.h, a.w);
    ok := true;
  }

  /** a -= b, like a += b. */
  method SubAssign(a: Mat, b: Mat) returns (ok: bool)
    requires a.Ok() && b.Ok() && (a != b ==> a.data != b.data)
    modifies a.data
    ensures ok <==> a.h == b.h && a.w == b.w
    ensures !ok ==> a.data[..] == old(a.data[..])
    ensures ok ==> a.View() == Minus(old(a.View()), old(b.View()), a.h, a.w)
  {
    if a.h != b.h || a.w != b.w {
      return false;
    }
    ghost var A, B := a.View(), b.View();
    var i := 0;
    while i < b.h
      invariant i <= b.h
      invariant a != b ==> b.View() == B
      invariant forall p, q :: 0 <= p < a.h && 0 <= q < a.w ==>
                  a.Get(p, q) == if p < i then A[p][q] - B[p][q] else A[p][q]
    {
      var j := 0;
      while j < b.w
        invariant j <= b.w
        invariant a != b ==> b.View() == B
        invariant forall p, q :: 0 <= p < a.h && 0 <= q < a.w ==>
                    a.Get(p, q) == if p < i || (p == i && q < j) then A[p][q] - B[p][q] else A[p][q]
      {
        assert b.Get(i, j) == b.View()[i][j];
        a.Put(i, j, a.Get(i, j) - b.Get(i, j));
        j := j + 1;
      }
      i := i + 1;
    }
    SameRows(a.View(), Minus(A, B, a.h, a.w), a.h, a.w);
    ok := true;
  }

  /** a + b: a copy of a, and the sum into the copy. */
  method Add(a: Mat, b: Mat) returns (out: Mat, ok: bool)
    requires a.Ok() && b.Ok()
    ensures out.Ok() && fresh(out) && fresh(out.data)
    ensures ok <==> a.h == b.h && a.w == b.w
    ensures ok ==> out.h == a.h && out.w == a.w && out.View() == Plus(a.View(), b.View(), a.h, a.w)
  {
    out := new Mat.Copy(a);
    SameStore(out, a);
    ok := AddAssign(out, b);
  }

  method Sub(a: Mat, b: Mat) returns (out: Mat, ok: bool)
    requires a.Ok() && b.Ok()
    ensures out.Ok() && fresh(out) && fresh(out.data)
    ensures ok <==> a.h == b.h && a.w == b.w
    ensures ok ==> out.h == a.h && out.w == a.w && out.View() == Minus(a.View(), b.View(), a.h, a.w)
  {
    out := new Mat.Copy(a);
    SameStore(out, a);
    ok := SubAssign(out, b);
  }

  // ---------- Products ----------

  /** A with its first w columns replaced by those of the product with B. */
  function Overwritten(A: Rows, B: Rows, h: nat, n: nat, w: nat): (m: Rows)
    requires Shape(A, h, n) && Shape(B, n, w) && w <= n
    ensures Shape(m, h, n)
    ensures forall i, j :: 0 <= i < h && 0 <= j < n ==> m[i][j] == if j < w then Dot(A, B, i, j, n) else A[i][j]
  {
    seq(h, i requires 0 <= i < h =>
      seq(n, j requires 0 <= j < n => if j < w then Dot(A, B, i, j, n) else A[i][j]))
  }

  /** The innermost loop: one cell of the product, summed into the buffer. */
  method DotInto(a: Mat, b: Mat, i: nat, j: nat, vec: array<int>)
    requires a.Ok() && b.Ok() && a.w == b.h && i < a.h && j < b.w == vec.Length
    requires vec != a.data && vec != b.data && vec[j] == 0
    modifies vec
    ensures vec[j] == Dot(a.View(), b.View(), i, j, b.h)
    ensures forall q :: 0 <= q < vec.Length && q != j ==> vec[q] == old(vec[q])
  {
    ghost var A, B := a.View(), b.View();
    var k := 0;
    while k < a.w
      invariant k <= a.w && a.View() == A && b.View() == B
      invariant forall q :: 0 <= q < vec.Length && q != j ==> vec[q] == old(vec[q])
      invariant vec[j] == Dot(A, B, i, j, k)
    {
      assert A[i][k] == a.Get(i, k) && B[k][j] == b.Get(k, j);
      vec[j] := vec[j] + a.Get(i, k) * b.Get(k, j);
      k := k + 1;
    }
  }

  /** One row of the product. */
  method RowInto(a: Mat, b: Mat, i: nat, vec: array<int>)
    requires a.Ok() && b.Ok() && a.w == b.h && i < a.h && vec.Length == b.w
    requires vec != a.data && vec != b.data
    requires forall q :: 0 <= q < vec.Length ==> vec[q] == 0
    modifies vec
    ensures forall q :: 0 <= q < vec.Length ==> vec[q] == Dot(a.View(), b.View(), i, q, b.h)
  {
    hide Dot;
    ghost var A, B := a.View(), b.View();
    var j := 0;
    while j < b.w
      invariant j <= b.w && a.View() == A && b.View() == B
      invariant forall q :: 0 <= q < vec.Length ==> vec[q] == if q < j then Dot(A, B, i, q, b.h) else 0
    {
      DotInto(a, b, i, j, vec);
      j := j + 1;
    }
  }

  /** Move the buffer into one row and clear it. */
  method StoreRow(a: Mat, i: nat, vec: array<int>)
    requires a.Ok() && i < a.h && vec.Length <= a.w && vec != a.data
    modifies a.data, vec
    ensures forall q :: 0 <= q < vec.Length ==> vec[q] == 0 && a.Get(i, q) == old(vec[q])
    ensures forall p, q :: 0 <= p < a.h && 0 <= q < a.w && !(p == i && q < vec.Length) ==>
              a.Get(p, q) == old(a.Get(p, q))
  {
    var j := 0;
    while j < vec.Length
      invariant j <= vec.Length
      invariant forall q :: 0 <= q < vec.Length ==> vec[q] == if q < j then 0 else old(vec[q])
      invariant forall q :: 0 <= q < j ==> a.Get(i, q) == old(vec[q])
      invariant forall p, q :: 0 <= p < a.h && 0 <= q < a.w && !(p == i && q < j) ==> a.Get(p, q) == old(a.Get(p, q))
    {
      a.Put(i, j, vec[j]);
      vec[j] := 0;
      j := j + 1;
    }
  }

  /** M with the start of row i replaced by that row of the product with R. */
  function RowDone(M: Rows, R: Rows, i: nat, h: nat, n: nat, w: nat): (m: Rows)
    requires Shape(M, h, n) && Shape(R, n, w) && w <= n && i < h
    ensures Shape(m, h, n)
    ensures forall p, q :: 0 <= p < h && 0 <= q < n ==>
              m[p][q] == if p == i && q < w then Dot(M, R, i, q, n) else M[p][q]
  {
    seq(h, p requires 0 <= p < h =>
      seq(n, q requires 0 <= q < n => if p == i && q < w then Dot(M, R, i, q, n) else M[p][q]))
  }

  /** The first i passes of a *= b for different matrices: the right operand stays as it is. */
  function Rowwise(A: Rows, B: Rows, h: nat, n: nat, w: nat, i: nat): (m: Rows)
    requires Shape(A, h, n) && Shape(B, n, w) && w <= n && i <= h
    ensures Shape(m, h, n)
  {
    if i == 0 then A else RowDone(Rowwise(A, B, h, n, w, i - 1), B, i - 1, h, n, w)
  }

  /** The first i passes of a *= a: the right operand changes with the left one. */
  function Squared(A: Rows, n: nat, i: nat): (m: Rows)
    requires Shape(A, n, n) && i <= n
    ensures Shape(m, n, n)
  {
    if i == 0 then A else var M := Squared(A, n, i - 1); RowDone(M, M, i - 1, n, n, n)
  }

  /** Every row of R is that row of A times the matrix as it then stands: the rows above are those of R
      already, this row and those below are still those of A. */
  ghost predicate SquaredInPlace(A: Rows, R: Rows, n: nat)
    requires Shape(A, n, n) && Shape(R, n, n)
  {
    forall i, j :: 0 <= i < n && 0 <= j < n ==> R[i][j] == Dot(A, R[..i] + A[i..], i, j, n)
  }

  /** One pass of the outer loop. */
  method MulRow(a: Mat, b: Mat, i: nat, vec: array<int>)
    requires a.Ok() && b.Ok() && (a != b ==> a.data != b.data)
    requires a.w == b.h && b.w <= a.w && i < a.h && vec.Length == b.w
    requires vec != a.data && vec != b.data
    requires forall q :: 0 <= q < vec.Length ==> vec[q] == 0
    modifies a.data, vec
    ensures forall q :: 0 <= q < vec.Length ==> vec[q] == 0
    ensures a.View() == RowDone(old(a.View()), old(b.View()), i, a.h, a.w, b.w)
  {
    ghost var A, B := a.View(), b.View();
    RowInto(a, b, i, vec);
    StoreRow(a, i, vec);
    SameRows(a.View(), RowDone(A, B, i, a.h, a.w, b.w), a.h, a.w);
  }

  /** a *= b through a buffer of one row; a and b may be the same matrix. */
  method MulAssign(a: Mat, b: Mat) returns (ok: bool)
    requires a.Ok() && b.Ok() && (a != b ==> a.data != b.data)
    requires a.w == b.h ==> b.w <= a.w
    modifies a.data
    ensures ok <==> a.w == b.h
    ensures !ok ==> a.data[..] == old(a.data[..])
    ensures ok && a != b ==> a.View() == Overwritten(old(a.View()), old(b.View()), a.h, a.w, b.w)
    ensures ok && a != b && b.w == a.w ==> a.View() == Product(old(a.View()), old(b.View()), a.h, a.w, a.w)
    ensures ok && a == b ==> SquaredInPlace(old(a.View()), a.View(), a.h)
    ensures ok && a == b ==> forall i, j :: 0 <= i < a.h && 0 <= j < a.w ==>
              a.Get(i, j) == Dot(old(a.View()), a.View()[..i] + old(a.View())[i..], i, j, a.h)
  {
    hide RowDone, Overwritten, Dot, Product;
    if a.w != b.h {
      return false;
    }
    ghost var A, B := a.View(), b.View();
    var vec := new int[b.w](_ => 0);
    var i := 0;
    while i < a.h
      invariant i <= a.h && (a != b ==> b.View() == B)
      invariant forall q :: 0 <= q < vec.Length ==> vec[q] == 0
      invariant a.View() == if a == b then Squared(A, a.h, i) else Rowwise(A, B, a.h, a.w, b.w, i)
    {
      MulRow(a, b, i, vec);
      i := i + 1;
    }
    if a != b {
      RowwiseIs(A, B, a.h, a.w, b.w, a.h);
    } else {
      SquaredIs(A, a.h);
    }
    ok := true;
  }

  /** A dot product depends on one row only. */
  lemma {:induction false} SameDot(A: Rows, A': Rows, B: Rows, i: nat, j: nat, n: nat)
    requires i < |A| && i < |A'| && A[i] == A'[i] && n <= |A[i]| && n <= |B|
    requires forall k :: 0 <= k < n ==> j < |B[k]|
    ensures Dot(A, B, i, j, n) == Dot(A', B, i, j, n)
  {
    if n > 0 { SameDot(A, A', B, i, j, n - 1); }
  }

  lemma SameDots(A: Rows, A': Rows, B: Rows, i: nat, n: nat, w: nat)
    requires i < |A| && i < |A'| && |A[i]| == n == |A'[i]| && Shape(B, n, w)
    requires forall q :: 0 <= q < n ==> A[i][q] == A'[i][q]
    ensures forall q :: 0 <= q < w ==> Dot(A, B, i, q, n) == Dot(A', B, i, q, n)
  {
    assert A[i] == A'[i];
    forall q | 0 <= q < w ensures Dot(A, B, i, q, n) == Dot(A', B, i, q, n) {
      SameDot(A, A', B, i, q, n);
    }
  }

  /** The rows below the current one are still those of the original operand when they are needed. */
  lemma {:induction false} RowwiseStep(A: Rows, B: Rows, h: nat, n: nat, w: nat, i: nat)
    requires Shape(A, h, n) && Shape(B, n, w) && w <= n && i <= h
    ensures forall p, q :: 0 <= p < h && 0 <= q < n ==>
              Rowwise(A, B, h, n, w, i)[p][q] == if p < i && q < w then Dot(A, B, p, q, n) else A[p][q]
  {
    if i > 0 {
      RowwiseStep(A, B, h, n, w, i - 1);
      SameDots(A, Rowwise(A, B, h, n, w, i - 1), B, i - 1, n, w);
    }
  }

  /** So for different matrices the passes give the product, in the columns that b has. */
  lemma RowwiseIs(A: Rows, B: Rows, h: nat, n: nat, w: nat, i: nat)
    requires Shape(A, h, n) && Shape(B, n, w) && w <= n && i == h
    ensures Rowwise(A, B, h, n, w, i) == Overwritten(A, B, h, n, w)
    ensures w == n ==> Rowwise(A, B, h, n, w, i) == Product(A, B, h, n, n)
  {
    RowwiseStep(A, B, h, n, w, i);
    SameRows(Rowwise(A, B, h, n, w, i), Overwritten(A, B, h, n, w), h, n);
    if w == n {
      SameRows(Rowwise(A, B, h, n, w, i), Product(A, B, h, n, n), h, n);
    }
  }

  /** What a * b computes: only as many columns as a has rows. */
  function Clipped(A: Rows, B: Rows, h: nat, n: nat, w: nat): (m: Rows)
    requires Shape(A, h, n) && Shape(B, n, w)
    ensures Shape(m, h, w)
    ensures forall i, j :: 0 <= i < h && 0 <= j < w ==> m[i][j] == if j < h then Dot(A, B, i, j, n) else 0
  {
    seq(h, i requires 0 <= i < h => seq(w, j requires 0 <= j < w => if j < h then Dot(A, B, i, j, n) else 0))
  }

  /** a * b. The column loop runs to the height of the result, not to its width. */
  method Mul(a: Mat, b: Mat) returns (out: Mat, ok: bool)
    requires a.Ok() && b.Ok()
    requires a.w == b.h ==> a.h <= b.w || a.w == 0
    ensures ok <==> a.w == b.h
    ensures ok ==> out.Ok() && out.h == a.h && out.w == b.w && fresh(out.data)
    ensures ok ==> out.View() == Clipped(a.View(), b.View(), a.h, a.w, b.w)
  {
    if a.w != b.h {
      return a, false;
    }
    ghost var A, B := a.View(), b.View();
    out := new Mat.Zeros(a.h, b.w);
    ZeroStore(out);
    var i := 0;
    while i < a.h
      invariant i <= a.h && a.View() == A && b.View() == B
      invariant forall p, q :: 0 <= p < out.h && 0 <= q < out.w ==>
                  out.Get(p, q) == if p < i && q < a.h then Dot(A, B, p, q, a.w) else 0
    {
      var j := 0;
      while j < a.h
        invariant j <= a.h && a.View() == A && b.View() == B
        invariant forall p, q :: 0 <= p < out.h && 0 <= q < out.w ==>
                    out.Get(p, q) == if (p < i && q < a.h) || (p == i && q < j) then Dot(A, B, p, q, a.w) else 0
      {
        MulCell(a, b, out, i, j);
        j := j + 1;
      }
      i := i + 1;
    }
    SameRows(out.View(), Clipped(A, B, a.h, a.w, b.w), a.h, b.w);
    ok := true;
  }

  /** The innermost loop: one cell of the product. */
  method MulCell(a: Mat, b: Mat, out: Mat, i: nat, j: nat)
    requires a.Ok() && b.Ok() && out.Ok() && a.w == b.h && out.h == a.h && out.w == b.w
    requires out.data != a.data && out.data != b.data
    requires i < a.h && (j < b.w ==> out.Get(i, j) == 0) && (j < b.w || a.w == 0)
    modifies out.data
    ensures j < b.w ==> out.Get(i, j) == Dot(a.View(), b.View(), i, j, a.w)
    ensures forall p, q :: 0 <= p < out.h && 0 <= q < out.w && !(p == i && q == j) ==>
              out.Get(p, q) == old(out.Get(p, q))
  {
    ghost var A, B := a.View(), b.View();
    var k := 0;
    while k < a.w
      invariant k <= a.w && a.View() == A && b.View() == B
      invariant j < b.w ==> out.Get(i, j) == Dot(A, B, i, j, k)
      invariant forall p, q :: 0 <= p < out.h && 0 <= q < out.w && !(p == i && q == j) ==>
                  out.Get(p, q) == old(out.Get(p, q))
    {
      assert A[i][k] == a.Get(i, k) && B[k][j] == b.Get(k, j);
      out.Put(i, j, out.Get(i, j) + a.Get(i, k) * b.Get(k, j));
      k := k + 1;
    }
  }

  // ---------- The operators meet the algebra ----------

  /** a * b is the product if and only if the product is zero in every column past the height. */
  lemma ClippedIsProductIff(A: Rows, B: Rows, h: nat, n: nat, w: nat)
    requires Shape(A, h, n) && Shape(B, n, w)
    ensures Clipped(A, B, h, n, w) == Product(A, B, h, n, w) <==> ZeroPast(A, B, h, n, w)
  {
    var c, p := Clipped(A, B, h, n, w), Product(A, B, h, n, w);
    if ZeroPast(A, B, h, n, w) {
      SameRows(c, p, h, w);
    }
    if c == p {
      forall i, j | 0 <= i < h && h <= j < w ensures Dot(A, B, i, j, n) == 0 {
        assert c[i][j] == p[i][j] == Dot(A, B, i, j, n);
      }
    }
  }

  ghost predicate ZeroPast(A: Rows, B: Rows, h: nat, n: nat, w: nat)
    requires Shape(A, h, n) && Shape(B, n, w)
  {
    forall i, j :: 0 <= i < h && h <= j < w ==> Dot(A, B, i, j, n) == 0
  }

  function Ones(h: nat, w: nat): (m: Rows)
    ensures Shape(m, h, w) && forall i, j :: 0 <= i < h && 0 <= j < w ==> m[i][j] == 1
  {
    seq(h, i requires 0 <= i < h => seq(w, j requires 0 <= j < w => 1))
  }

  lemma {:induction false} DotOfOnes(h: nat, n: nat, w: nat, i: nat, j: nat, m: nat)
    requires i < h && j < w && m <= n
    ensures Dot(Ones(h, n), Ones(n, w), i, j, m) == m
  {
    if m > 0 { DotOfOnes(h, n, w, i, j, m - 1); }
  }

  /** What the loops sum up is the product of operands of any content exactly if the result is not wider
      than high, or one of the operands has no cells to multiply. */
  lemma ClippedRightIff(h: nat, n: nat, w: nat)
    ensures (forall A: Rows, B: Rows :: Shape(A, h, n) && Shape(B, n, w) ==>
               Clipped(A, B, h, n, w) == Product(A, B, h, n, w))
       <==> w <= h || h == 0 || n == 0
  {
    if w <= h || h == 0 || n == 0 {
      forall A: Rows, B: Rows | Shape(A, h, n) && Shape(B, n, w)
        ensures Clipped(A, B, h, n, w) == Product(A, B, h, n, w)
      {
        ClippedIsProductIff(A, B, h, n, w);
      }
    } else {
      DotOfOnes(h, n, w, 0, h, n);
      ClippedIsProductIff(Ones(h, n), Ones(n, w), h, n, w);
      assert Shape(Ones(h, n), h, n) && Shape(Ones(n, w), n, w);
    }
  }

  /** The cells a[i, k], b[k, j] and out[i, j] that one pass of the innermost loop touches lie in their
      stores. */
  predicate PassInside(h: nat, n: nat, w: nat, i: nat, j: nat, k: nat) {
    FlattenIndex(n, i, k) < h * n && FlattenIndex(w, k, j) < n * w && FlattenIndex(w, i, j) < h * w
  }

  /** All passes of the loops of a * b do. */
  ghost predicate Inside(h: nat, n: nat, w: nat) {
    forall i: nat, j: nat, k: nat :: i < h && j < h && k < n ==> PassInside(h, n, w, i, j, k)
  }

  /** The accesses to the left operand always are inside; the others, and with them all passes, exactly if
      the result is not higher than wide, or there is nothing to sum up. */
  lemma InsideIff(h: nat, n: nat, w: nat)
    ensures forall i: nat, k: nat :: i < h && k < n ==> FlattenIndex(n, i, k) < h * n
    ensures (forall k: nat, j: nat :: k < n && j < h ==> FlattenIndex(w, k, j) < n * w) <==> h <= w || h == 0 || n == 0
    ensures (forall i: nat, j: nat :: i < h && j < h ==> FlattenIndex(w, i, j) < h * w) <==> h <= w || h == 0
    ensures Inside(h, n, w) <==> h <= w || h == 0 || n == 0
  {
    RowsInside(h, n, n);
    RowsInside(n, w, h);
    RowsInside(h, w, h);
    if n > 0 && w < h {
      assert FlattenIndex(w, n - 1, w) == n * w;
      assert !PassInside(h, n, w, 0, w, n - 1);
    }
  }

  /** The first m cells of all rows are inside the store exactly if no row is shorter. */
  lemma RowsInside(h: nat, w: nat, m: nat)
    ensures (forall i: nat, j: nat :: i < h && j < m ==> FlattenIndex(w, i, j) < h * w) <==> m <= w || h == 0
  {
    if m <= w {
      forall i: nat, j: nat | i < h && j < m ensures FlattenIndex(w, i, j) < h * w {
        FlatInRange(h, w, i, j);
      }
    } else if h > 0 {
      assert FlattenIndex(w, h - 1, w) == h * w;
    }
  }

  /** operator* stays inside its operands and gives the product, for operands of any content, exactly if
      the result is square or there is nothing to sum up. */
  lemma MulRightIff(h: nat, n: nat, w: nat)
    ensures (Inside(h, n, w)
             && forall A: Rows, B: Rows :: Shape(A, h, n) && Shape(B, n, w) ==>
                  Clipped(A, B, h, n, w) == Product(A, B, h, n, w))
       <==> h == w || h == 0 || n == 0
  {
    InsideIff(h, n, w);
    ClippedRightIff(h, n, w);
  }

  /** The smallest wrong result: a single one times a row of two ones. */
  lemma MulWrong()
    ensures Clipped([[1]], [[1, 1]], 1, 1, 2) == [[1, 0]] && Product([[1]], [[1, 1]], 1, 1, 2) == [[1, 1]]
  {
    assert Dot([[1]], [[1, 1]], 0, 0, 1) == 1 && Dot([[1]], [[1, 1]], 0, 1, 1) == 1;
    SameRows(Clipped([[1]], [[1, 1]], 1, 1, 2), [[1, 0]], 1, 2);
    SameRows(Product([[1]], [[1, 1]], 1, 1, 2), [[1, 1]], 1, 2);
  }

  lemma {:induction false} SquaredKeeps(A: Rows, n: nat, p: nat, i: nat)
    requires Shape(A, n, n) && p < i <= n
    ensures forall q :: 0 <= q < n ==> Squared(A, n, i)[p][q] == Squared(A, n, p + 1)[p][q]
  {
    if p + 1 < i { SquaredKeeps(A, n, p, i - 1); }
  }

  lemma {:induction false} SquaredBelow(A: Rows, n: nat, p: nat, i: nat)
    requires Shape(A, n, n) && i <= p < n
    ensures forall q :: 0 <= q < n ==> Squared(A, n, i)[p][q] == A[p][q]
  {
    if i > 0 { SquaredBelow(A, n, p, i - 1); }
  }

  /** The matrix before pass i is made of the finished rows above and the old rows from i on. */
  lemma SquaredStands(A: Rows, n: nat, i: nat)
    requires Shape(A, n, n) && i < n
    ensures Squared(A, n, i) == Squared(A, n, n)[..i] + A[i..]
  {
    hide Squared;
    var M, R := Squared(A, n, i), Squared(A, n, n);
    forall p, q | 0 <= p < n && 0 <= q < n ensures M[p][q] == (R[..i] + A[i..])[p][q] {
      if p < i {
        SquaredKeeps(A, n, p, i);
        SquaredKeeps(A, n, p, n);
      } else {
        SquaredBelow(A, n, p, i);
      }
    }
    SameRows(M, R[..i] + A[i..], n, n);
  }

  lemma SquaredIs(A: Rows, n: nat)
    requires Shape(A, n, n)
    ensures SquaredInPlace(A, Squared(A, n, n), n)
  {
    var R := Squared(A, n, n);
    forall i, j | 0 <= i < n && 0 <= j < n ensures R[i][j] == Dot(A, R[..i] + A[i..], i, j, n) {
      var M := Squared(A, n, i);
      SquaredKeeps(A, n, i, n);
      SquaredStands(A, n, i);
      assert Squared(A, n, i + 1) == RowDone(M, M, i, n, n, n);
      assert M[i] == A[i];
      SameDot(M, A, M, i, j, n);
    }
  }

  /** Only one matrix has its rows made that way, so this says what a *= a leaves. */
  lemma {:induction false} SquaredInPlaceUnique(A: Rows, R: Rows, S: Rows, n: nat, i: nat)
    requires Shape(A, n, n) && Shape(R, n, n) && Shape(S, n, n) && i <= n
    requires SquaredInPlace(A, R, n) && SquaredInPlace(A, S, n)
    ensures R[..i] == S[..i] && (i == n ==> R == S)
  {
    if i > 0 {
      var p := i - 1;
      SquaredInPlaceUnique(A, R, S, n, p);
      forall j | 0 <= j < n ensures R[p][j] == S[p][j] {
        assert R[p][j] == Dot(A, R[..p] + A[p..], p, j, n);
      }
      assert R[p] == S[p];
      assert R[..i] == R[..p] + [R[p]] && S[..i] == S[..p] + [S[p]];
    }
    assert R[..n] == R && S[..n] == S;
  }

  /** After the first pass over all ones, the second row meets the new first row. */
  lemma {:induction false} SecondRow(n: nat, m: nat)
    requires 2 <= n && m <= n
    ensures Dot(Squared(Ones(n, n), n, 1), Squared(Ones(n, n), n, 1), 1, 0, m) == if m == 0 then 0 else n + m - 1
  {
    if m > 0 {
      SecondRow(n, m - 1);
      DotOfOnes(n, n, n, 0, 0, n);
      var M := Squared(Ones(n, n), n, 1);
      assert M == RowDone(Ones(n, n), Ones(n, n), 0, n, n, n);
      assert M[1][m - 1] == 1 && M[m - 1][0] == if m == 1 then n else 1;
    }
  }

  /** a *= a is right for every content exactly if a has at most one cell. */
  lemma SquareInPlaceIff(n: nat)
    ensures (forall A: Rows, R: Rows :: Shape(A, n, n) && Shape(R, n, n) && SquaredInPlace(A, R, n) ==>
               R == Product(A, A, n, n, n))
       <==> n <= 1
  {
    if n <= 1 {
      forall A: Rows, R: Rows | Shape(A, n, n) && Shape(R, n, n) && SquaredInPlace(A, R, n)
        ensures R == Product(A, A, n, n, n)
      {
        forall i, j | 0 <= i < n && 0 <= j < n ensures R[i][j] == Product(A, A, n, n, n)[i][j] {
          assert R[i][j] == Dot(A, R[..i] + A[i..], i, j, n) && R[..i] + A[i..] == A;
        }
        SameRows(R, Product(A, A, n, n, n), n, n);
      }
    } else {
      var A, R := Ones(n, n), Squared(Ones(n, n), n, n);
      SquaredIs(A, n);
      SecondRow(n, n);
      SquaredKeeps(A, n, 1, n);
      DotOfOnes(n, n, n, 1, 0, n);
      assert R[1][0] == 2 * n - 1 && Product(A, A, n, n, n)[1][0] == n;
    }
  }

  /** For a square result a * b is the product, and for square b in place and out of place agree. */
  lemma SquareProducts(A: Rows, B: Rows, n: nat)
    requires Shape(A, n, n) && Shape(B, n, n)
    ensures Clipped(A, B, n, n, n) == Product(A, B, n, n, n) == Overwritten(A, B, n, n, n)
  {
    SameRows(Clipped(A, B, n, n, n), Product(A, B, n, n, n), n, n);
    SameRows(Overwritten(A, B, n, n, n), Product(A, B, n, n, n), n, n);
  }

  /** On square matrices the code's operators form a ring with eye as its one. */
  lemma SquareRing(A: Rows, B: Rows, C: Rows, n: nat)
    requires Shape(A, n, n) && Shape(B, n, n) && Shape(C, n, n)
    ensures Clipped(Clipped(A, B, n, n, n), C, n, n, n) == Clipped(A, Clipped(B, C, n, n, n), n, n, n)
    ensures Clipped(A, Plus(B, C, n, n), n, n, n) == Plus(Clipped(A, B, n, n, n), Clipped(A, C, n, n, n), n, n)
    ensures Clipped(Plus(A, B, n, n), C, n, n, n) == Plus(Clipped(A, C, n, n, n), Clipped(B, C, n, n, n), n, n)
    ensures Clipped(A, Identity(n, n), n, n, n) == A == Clipped(Identity(n, n), A, n, n, n)
  {
    forall X: Rows, Y: Rows | Shape(X, n, n) && Shape(Y, n, n)
      ensures Clipped(X, Y, n, n, n) == Product(X, Y, n, n, n)
    {
      SquareProducts(X, Y, n);
    }
    ProductAssociative(A, B, C, n, n, n, n);
    ProductDistributes(A, B, C, n, n, n);
    PlusDistributes(A, B, C, n, n, n);
    IdentityNeutral(A, n, n);
  }
}
