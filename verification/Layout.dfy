/** Where a header with a run of elements behind it lies in memory, and the cells of a matrix in such a
    block. Addresses and sizes are numbers of bytes. */
module Layout {
  import opened Arithmetic
  import opened Matrix

  /** Size and alignment of the header type and of the element type. */
  datatype Types = Types(sizeHdr: nat, alignHdr: nat, sizeElem: nat, alignElem: nat)

  ghost predicate IsPow2(n: nat) {
    exists k: nat :: Pow2(k) == n
  }

  /** What is needed of the two types, and what the language guarantees of all object types. */
  ghost predicate Lawful(t: Types) {
    && IsPow2(t.alignHdr) && IsPow2(t.alignElem)
    && t.sizeElem % t.alignElem == 0
  }

  function Alignment(t: Types): nat {
    if t.alignHdr >= t.alignElem then t.alignHdr else t.alignElem
  }

  function Offset(t: Types): nat
    requires t.alignElem > 0
  {
    var over := t.sizeHdr % t.alignElem;
    if over == 0 then t.sizeHdr else t.sizeHdr + t.alignElem - over
  }

  function RequiredBytes(t: Types, count: nat): nat
    requires t.alignElem > 0
  {
    Offset(t) + t.sizeElem * count
  }

  /** A block without elements still holds its header, and every element adds its own size. */
  lemma RequiredGrows(t: Types, count: nat)
    requires t.alignElem > 0
    ensures RequiredBytes(t, 0) == Offset(t) >= t.sizeHdr
    ensures RequiredBytes(t, count + 1) == RequiredBytes(t, count) + t.sizeElem
    ensures RequiredBytes(t, count) >= t.sizeHdr
  {
    OffsetLeast(t, 0);
    assert t.sizeElem * (count + 1) == t.sizeElem * count + t.sizeElem;
  }

  lemma PowPositive(n: nat)
    requires IsPow2(n)
    ensures n > 0
  {
    var k: nat :| Pow2(k) == n;
  }

  /** The offset is the least aligned position behind the header. */
  lemma OffsetLeast(t: Types, p: nat)
    requires t.alignElem > 0
    ensures Offset(t) >= t.sizeHdr && Offset(t) % t.alignElem == 0
    ensures p >= t.sizeHdr && p % t.alignElem == 0 ==> Offset(t) <= p
  {
    var m, q, over := t.alignElem, t.sizeHdr / t.alignElem, t.sizeHdr % t.alignElem;
    assert t.sizeHdr == q * m + over;
    assert (q + 1) * m == q * m + m;
    if over != 0 {
      DivModUnique(Offset(t), m, q + 1, 0);
    }
    if p >= t.sizeHdr && p % m == 0 {
      var r := p / m;
      assert p == r * m;
      assert (q - r) * m == q * m - r * m;
      Multiples(q - r, m);
      if over != 0 {
        assert (q + 1 - r) * m == q * m + m - r * m;
        Multiples(q + 1 - r, m);
      }
    }
  }

  lemma {:induction false} PowDivides(j: nat, k: nat)
    requires j <= k
    ensures Pow2(k) % Pow2(j) == 0
    decreases k - j
  {
    if j < k {
      PowDivides(j + 1, k);
      var d := Pow2(k) / Pow2(j + 1);
      assert Pow2(k) == d * Pow2(j + 1) == (2 * d) * Pow2(j);
      DivModUnique(Pow2(k), Pow2(j), 2 * d, 0);
    } else {
      DivModUnique(Pow2(k), Pow2(j), 1, 0);
    }
  }

  lemma {:induction false} PowOrder(j: nat, k: nat)
    requires Pow2(j) <= Pow2(k)
    ensures j <= k
  {
    if k > 0 && j > 0 {
      PowOrder(j - 1, k - 1);
    }
  }

  /** Of two powers of two the smaller divides the larger, so the block is aligned for both types. */
  lemma AlignmentSuits(t: Types)
    requires Lawful(t)
    ensures t.alignElem > 0 && t.alignHdr > 0
    ensures Alignment(t) % t.alignElem == 0 && Alignment(t) % t.alignHdr == 0
  {
    PowPositive(t.alignHdr);
    PowPositive(t.alignElem);
    var j: nat, k: nat :| Pow2(j) == t.alignHdr && Pow2(k) == t.alignElem;
    PowDivides(j, j);
    PowDivides(k, k);
    if t.alignHdr >= t.alignElem {
      PowOrder(k, j);
      PowDivides(k, j);
    } else {
      PowOrder(j, k);
      PowDivides(j, k);
    }
  }

  /** No smaller alignment suits both. */
  lemma AlignmentLeast(t: Types, p: nat)
    requires t.alignElem > 0 && t.alignHdr > 0
    requires p > 0 && p % t.alignElem == 0 && p % t.alignHdr == 0
    ensures Alignment(t) <= p
  {
    var a := Alignment(t);
    assert p == (p / a) * a;
    Multiples(p / a, a);
  }

  lemma MultipleOfMultiple(x: nat, a: nat, b: nat)
    requires a > 0 && b > 0 && x % a == 0 && a % b == 0
    ensures x % b == 0
  {
    var p, q := x / a, a / b;
    assert x == p * a && a == q * b;
    assert x == (p * q) * b;
    DivModUnique(x, b, p * q, 0);
  }

  lemma SumOfMultiples(x: nat, y: nat, m: nat)
    requires m > 0 && x % m == 0 && y % m == 0
    ensures (x + y) % m == 0
  {
    assert x == (x / m) * m && y == (y / m) * m;
    assert x + y == (x / m + y / m) * m;
    DivModUnique(x + y, m, x / m + y / m, 0);
  }

  /** The first byte of cell (i, j) of a matrix of width w whose block starts at base. */
  function CellAddress(t: Types, base: nat, w: nat, i: nat, j: nat): nat
    requires t.alignElem > 0
  {
    base + Offset(t) + t.sizeElem * FlattenIndex(w, i, j)
  }

  /** The first cell is the first element behind the header, and every next cell, of a row or of the next
      row, lies right behind the one before. */
  lemma CellsFollow(t: Types, base: nat, w: nat, i: nat, j: nat)
    requires t.alignElem > 0
    ensures CellAddress(t, base, w, 0, 0) == base + Offset(t)
    ensures CellAddress(t, base, w, i, j + 1) == CellAddress(t, base, w, i, j) + t.sizeElem
    ensures w > 0 ==> CellAddress(t, base, w, i + 1, 0) == CellAddress(t, base, w, i, w - 1) + t.sizeElem
  {
    RowMajor(w, i, j);
    var k := FlattenIndex(w, i, j);
    assert t.sizeElem * (k + 1) == t.sizeElem * k + t.sizeElem;
    if w > 0 {
      var l := FlattenIndex(w, i, w - 1);
      assert t.sizeElem * (l + 1) == t.sizeElem * l + t.sizeElem;
    }
  }

  /** Every cell lies aligned for its type, behind the header and inside the allocated block. */
  lemma CellPlaced(t: Types, base: nat, h: nat, w: nat, i: nat, j: nat)
    requires Lawful(t) && base % Alignment(t) == 0
    requires Alignment(t) > 0 && t.alignElem > 0
    requires i < h && j < w
    ensures CellAddress(t, base, w, i, j) % t.alignElem == 0
    ensures base + t.sizeHdr <= CellAddress(t, base, w, i, j)
    ensures CellAddress(t, base, w, i, j) + t.sizeElem <= base + RequiredBytes(t, h * w)
  {
    var k := FlattenIndex(w, i, j);
    AlignmentSuits(t);
    OffsetLeast(t, Offset(t));
    MultipleOfMultiple(base, Alignment(t), t.alignElem);
    SumOfMultiples(base, Offset(t), t.alignElem);
    assert t.sizeElem * k == k * t.sizeElem;
    Scaled(t.sizeElem, k, t.alignElem);
    SumOfMultiples(base + Offset(t), t.sizeElem * k, t.alignElem);
    FlatInRange(h, w, i, j);
    Multiples(h * w - k, t.sizeElem);
    assert (h * w - k) * t.sizeElem == t.sizeElem * (h * w) - t.sizeElem * k;
  }

  /** The last cell ends with the block: no byte is requested in vain. */
  lemma LastCellEnds(t: Types, base: nat, h: nat, w: nat)
    requires t.alignElem > 0 && h > 0 && w > 0
    ensures CellAddress(t, base, w, h - 1, w - 1) + t.sizeElem == base + RequiredBytes(t, h * w)
  {
    var k := FlattenIndex(w, h - 1, w - 1);
    assert h * w == w * (h - 1) + w;
    assert t.sizeElem * (k + 1) == t.sizeElem * k + t.sizeElem;
  }

  lemma Scaled(x: nat, k: nat, m: nat)
    requires m > 0 && x % m == 0
    ensures (x * k) % m == 0
  {
    assert x == (x / m) * m;
    assert x * k == ((x / m) * k) * m;
    DivModUnique(x * k, m, (x / m) * k, 0);
  }

  /** Different cells share no byte. */
  lemma CellsDisjoint(t: Types, base: nat, h: nat, w: nat, i: nat, j: nat, i': nat, j': nat)
    requires Lawful(t) && t.alignElem > 0
    requires i < h && i' < h && j < w && j' < w && (i != i' || j != j')
    ensures var a, b := CellAddress(t, base, w, i, j), CellAddress(t, base, w, i', j');
      a + t.sizeElem <= b || b + t.sizeElem <= a
  {
    var k, l := FlattenIndex(w, i, j), FlattenIndex(w, i', j');
    FlatInjective(w, i, j, i', j');
    assert (k - l) * t.sizeElem == t.sizeElem * k - t.sizeElem * l;
    Multiples(k - l, t.sizeElem);
    Multiples(l - k, t.sizeElem);
  }
}
