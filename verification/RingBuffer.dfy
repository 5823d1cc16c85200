/** A buffer over a fixed number of slots that drops its oldest element when full. The offset is a
    running count that is never reduced; only push reduces it modulo the capacity. */
module RingBuffer {
  import opened Arithmetic

  /** Slot of the i-th live element. */
  function Slot(offset: nat, i: nat, capacity: nat): (k: nat)
    requires capacity > 0
    ensures k < capacity
  {
    (offset + i) % capacity
  }

  /** Different live elements have different slots, and a full buffer writes over none but its oldest. */
  lemma SlotsDiffer(offset: nat, i: nat, j: nat, capacity: nat)
    requires i < j < capacity || (0 < i < j == capacity)
    ensures Slot(offset, i, capacity) != Slot(offset, j, capacity)
  {
    var a, b := (offset + i) / capacity, (offset + j) / capacity;
    assert offset + i == a * capacity + Slot(offset, i, capacity);
    assert offset + j == b * capacity + Slot(offset, j, capacity);
    assert (b - a) * capacity == b * capacity - a * capacity;
    Multiples(b - a, capacity);
  }

  lemma SlotWraps(offset: nat, capacity: nat)
    requires capacity > 0
    ensures Slot(offset, capacity, capacity) == Slot(offset, 0, capacity)
    ensures offset < capacity ==> Slot(offset, 0, capacity) == offset
  {
    var q, r := offset / capacity, offset % capacity;
    assert offset == q * capacity + r;
    assert (q + 1) * capacity == q * capacity + capacity;
    DivModUnique(offset + capacity, capacity, q + 1, r);
  }

  /** What a push does to the live elements. */
  function Pushed<T>(view: seq<T>, capacity: nat, x: T): (r: seq<T>)
    requires 0 < capacity
    ensures |view| <= capacity ==> |r| <= capacity
  {
    if |view| < capacity then view + [x] else view[|view| - capacity + 1..] + [x]
  }

  class RingBuffer<T(0)> {
    const data: array<T>
    var offset: nat
    var count: nat

    ghost predicate Valid()
      reads this
    {
      count <= data.Length
    }

    /** The live elements, oldest first. */
    ghost function View(): (v: seq<T>)
      requires Valid()
      reads this, data
      ensures |v| == count
    {
      if data.Length == 0 then [] else
      seq(count, i requires 0 <= i < count reads this, data => data[Slot(offset, i, data.Length)])
    }

    constructor (capacity: nat)
      ensures Valid() && View() == [] && data.Length == capacity && offset == 0 && fresh(data)
    {
      data := new T[capacity];
      offset, count := 0, 0;
    }

    method Push(x: T)
      requires Valid() && data.Length > 0
      modifies this, data
      ensures Valid() && View() == Pushed(old(View()), data.Length, x)
      ensures offset == old(offset) + if old(count) == data.Length then 1 else 0
      ensures offset + count == old(offset + count) + 1
    {
      var cap := data.Length;
      var idx := (offset + count) % cap;
      ghost var view, o, c := View(), offset, count;
      forall i | 0 <= i < c && !(c == cap && i == 0) ensures Slot(o, i, cap) != idx {
        SlotsDiffer(o, i, c, cap);
      }
      if count == cap {
        SlotWraps(o, cap);
        offset := offset + 1;
      } else {
        count := count + 1;
      }
      data[idx] := x;
      assert forall i :: 0 <= i < count - 1 ==> View()[i] == Pushed(view, cap, x)[i];
      assert View()[count - 1] == x;
    }

    method Front() returns (x: T)
      requires Valid() && count > 0 && offset < data.Length
      ensures x == View()[0]
    {
      SlotWraps(offset, data.Length);
      x := data[offset];
    }

    method Pop()
      requires Valid() && count > 0 && offset < data.Length
      modifies `offset, `count
      ensures Valid() && View() == old(View())[1..]
      ensures offset == old(offset) + 1 && offset + count == old(offset + count)
    {
      offset := offset + 1;
      count := count - 1;
    }

    method Size() returns (n: nat)
      requires Valid()
      ensures n == |View()|
    {
      n := count;
    }

    method Empty() returns (r: bool)
      requires Valid()
      ensures r <==> View() == []
    {
      r := count == 0;
    }
  }

  // ---------- Runs ----------

  function PushedAll<T>(view: seq<T>, capacity: nat, xs: seq<T>): seq<T>
    requires 0 < capacity
    decreases |xs|
  {
    if xs == [] then view else PushedAll(Pushed(view, capacity, xs[0]), capacity, xs[1..])
  }

  function Last<T>(s: seq<T>, n: nat): seq<T> {
    if |s| <= n then s else s[|s| - n..]
  }

  lemma NothingLost<T>(view: seq<T>, capacity: nat)
    requires |view| <= capacity
    ensures Last(view, capacity) == view
  {
  }

  lemma PushKeepsLast<T>(view: seq<T>, capacity: nat, x: T, rest: seq<T>)
    requires 0 < capacity && |view| <= capacity
    ensures Last(Pushed(view, capacity, x) + rest, capacity) == Last(view + [x] + rest, capacity)
  {
  }

  /** Pushes alone, however many, leave exactly the last values in order. */
  lemma {:induction false} PushesKeepLast<T>(view: seq<T>, capacity: nat, xs: seq<T>)
    requires 0 < capacity && |view| <= capacity
    ensures PushedAll(view, capacity, xs) == Last(view + xs, capacity)
    decreases |xs|
  {
    hide Last, Pushed;
    if xs == [] {
      assert view + xs == view;
      NothingLost(view, capacity);
    } else {
      var v := Pushed(view, capacity, xs[0]);
      PushesKeepLast(v, capacity, xs[1..]);
      assert view + xs == view + [xs[0]] + xs[1..];
      PushKeepsLast(view, capacity, xs[0], xs[1..]);
    }
  }

  datatype Op<T> = PushOp(value: T) | PopOp

  /** The abstract buffer: live elements, and how many elements have left since construction. */
  datatype Fifo<T> = Fifo(live: seq<T>, gone: nat)

  function Apply<T>(f: Fifo<T>, capacity: nat, op: Op<T>): Fifo<T>
    requires 0 < capacity && (op.PopOp? ==> f.live != [])
  {
    match op
    case PushOp(x) => Fifo(Pushed(f.live, capacity, x), f.gone + if |f.live| == capacity then 1 else 0)
    case PopOp => Fifo(f.live[1..], f.gone + 1)
  }

  /** The run is one the code survives: it pops only what is there, and only while fewer than capacity
      elements have left. */
  ghost predicate Safe<T>(f: Fifo<T>, capacity: nat, ops: seq<Op<T>>)
    requires 0 < capacity
    decreases |ops|
  {
    ops == [] || (
      && (ops[0].PopOp? ==> f.live != [] && f.gone < capacity)
      && Safe(Apply(f, capacity, ops[0]), capacity, ops[1..]))
  }

  function ApplyAll<T>(f: Fifo<T>, capacity: nat, ops: seq<Op<T>>): Fifo<T>
    requires 0 < capacity && Safe(f, capacity, ops)
    decreases |ops|
  {
    if ops == [] then f else ApplyAll(Apply(f, capacity, ops[0]), capacity, ops[1..])
  }

  /** Any safe run of the code refines the abstract buffer. */
  method RunAll<T(0)>(b: RingBuffer<T>, ops: seq<Op<T>>)
    requires b.Valid() && b.data.Length > 0
    requires Safe(Fifo(b.View(), b.offset), b.data.Length, ops)
    modifies b, b.data
    ensures b.Valid()
    ensures Fifo(b.View(), b.offset) == ApplyAll(old(Fifo(b.View(), b.offset)), b.data.Length, ops)
    decreases |ops|
  {
    if ops != [] {
      match ops[0] {
        case PushOp(x) => b.Push(x);
        case PopOp => b.Pop();
      }
      RunAll(b, ops[1..]);
    }
  }

  // ---------- The limit in pushes ----------

  function PushCount<T>(ops: seq<Op<T>>): nat {
    if ops == [] then 0 else (if ops[0].PushOp? then 1 else 0) + PushCount(ops[1..])
  }

  /** Every push moves the end of the live elements by one, a pop or a drop only their beginning. */
  lemma {:induction false} EndIsPushes<T>(f: Fifo<T>, capacity: nat, ops: seq<Op<T>>)
    requires 0 < capacity && |f.live| <= capacity && Safe(f, capacity, ops)
    ensures var g := ApplyAll(f, capacity, ops);
      |g.live| <= capacity && g.gone + |g.live| == f.gone + |f.live| + PushCount(ops)
    decreases |ops|
  {
    if ops != [] {
      EndIsPushes(Apply(f, capacity, ops[0]), capacity, ops[1..]);
    }
  }

  /** After any safe run of a new buffer the next pop is safe if and only if something is there and the
      pushes exceed it by less than the capacity. */
  lemma NextPopIff<T>(capacity: nat, ops: seq<Op<T>>)
    requires 0 < capacity && Safe(Fifo([], 0), capacity, ops)
    ensures var g := ApplyAll(Fifo([], 0), capacity, ops);
      Safe(g, capacity, [PopOp]) <==> g.live != [] && PushCount(ops) - |g.live| < capacity
  {
    EndIsPushes(Fifo([], 0), capacity, ops);
    var g := ApplyAll(Fifo([], 0), capacity, ops);
    assert g.live != [] && g.gone < capacity ==> Safe(Apply(g, capacity, PopOp), capacity, [PopOp][1..]);
  }

  // ---------- A run that ends where nothing can be read ----------

  function Pushes<T>(xs: seq<T>): seq<Op<T>> {
    if xs == [] then [] else [PushOp(xs[0])] + Pushes(xs[1..])
  }

  /** Pushes alone are always safe, and each one into a full buffer moves the offset on. */
  lemma {:induction false} PushesCount<T>(f: Fifo<T>, capacity: nat, xs: seq<T>)
    requires 0 < capacity && |f.live| <= capacity
    ensures Safe(f, capacity, Pushes(xs))
    ensures var over := |f.live| + |xs| - capacity;
      ApplyAll(f, capacity, Pushes(xs))
        == Fifo(PushedAll(f.live, capacity, xs), f.gone + if over > 0 then over else 0)
    decreases |xs|
  {
    if xs != [] {
      PushesCount(Apply(f, capacity, PushOp(xs[0])), capacity, xs[1..]);
    }
  }

  /** A new buffer filled twice over is full of the second half, and its offset is past its slots: nothing
      can be read or popped any more. */
  lemma FilledTwice<T>(xs: seq<T>, ys: seq<T>)
    requires xs != [] && |xs| == |ys|
    ensures Safe(Fifo([], 0), |xs|, Pushes(xs + ys))
    ensures ApplyAll(Fifo([], 0), |xs|, Pushes(xs + ys)) == Fifo(ys, |xs|)
    ensures !Safe(Fifo(ys, |xs|), |xs|, [PopOp])
  {
    PushesCount(Fifo([], 0), |xs|, xs + ys);
    PushesKeepLast([], |xs|, xs + ys);
    assert [] + (xs + ys) == xs + ys;
  }
}
