/** A singly linked list threaded through nodes it does not own. */
module IntrusiveList {
  import opened Sequences

  class Node {
    var next: Node?

    constructor ()
      ensures next == null
    {
      next := null;
    }
  }

  class List {
    var first: Node?
    var last: Node?
    ghost var items: seq<Node>

    /** The chain from first is items. Nothing is said about last while the list is empty: popping the
        final node leaves it pointing at that node. */
    ghost predicate Valid()
      reads this, items
    {
      && first == At(items, 0, null)
      && NoDup(items)
      && (forall i {:trigger items[i].next} :: 0 <= i < |items| ==> items[i].next == At(items, i + 1, null))
      && (items != [] ==> last == items[|items| - 1])
    }

    constructor ()
      ensures Valid() && items == []
    {
      first, last, items := null, null, [];
    }

    method PushBack(t: Node)
      requires Valid() && t !in items
      modifies this, t`next, (set x | x in items)`next
      ensures Valid() && items == old(items) + [t]
    {
      t.next := null;
      if first == null {
        first := t;
        last := t;
        items := [t];
        return;
      }
      last.next := t;
      last := t;
      items := items + [t];
    }

    method PopFront()
      requires Valid() && items != []
      modifies `first, `items
      ensures Valid() && items == old(items)[1..]
      ensures last == old(last)
    {
      assert first.next == At(items, 1, null);
      first := first.next;
      assert forall i :: 0 < i < |items| ==> items[i].next == At(items[1..], i, null);
      items := items[1..];
    }

    method Front() returns (t: Node)
      requires Valid() && items != []
      ensures t == items[0]
    {
      t := first;
    }

    method Back() returns (t: Node)
      requires Valid() && items != []
      ensures t == items[|items| - 1]
    {
      t := last;
    }

    method Empty() returns (r: bool)
      requires Valid()
      ensures r <==> items == []
    {
      r := first == null;
    }

    method Size() returns (counter: nat)
      requires Valid()
      ensures counter == |items|
    {
      var ptr := first;
      counter := 0;
      while ptr != null
        invariant counter <= |items| && ptr == At(items, counter, null)
        decreases |items| - counter
      {
        counter := counter + 1;
        ptr := ptr.next;
      }
    }

    /** Dereferencing and advancing an iterator from begin to end visits the items in order. */
    method Iterate() returns (visited: seq<Node>)
      requires Valid()
      ensures visited == items
    {
      var ptr := first;
      visited := [];
      while ptr != null
        invariant |visited| <= |items| && visited == items[..|visited|] && ptr == At(items, |visited|, null)
        decreases |items| - |visited|
      {
        visited := visited + [ptr];
        ptr := ptr.next;
      }
    }
  }

  // ---------- Runs ----------

  datatype Op = PushOp(node: Node) | PopOp

  /** The run pushes only nodes that are not linked and pops only what is there. */
  ghost predicate Safe(items: seq<Node>, ops: seq<Op>)
    decreases |ops|
  {
    ops == [] || match ops[0]
      case PushOp(t) => t !in items && Safe(items + [t], ops[1..])
      case PopOp => items != [] && Safe(items[1..], ops[1..])
  }

  function Queued(items: seq<Node>, ops: seq<Op>): seq<Node>
    requires Safe(items, ops)
    decreases |ops|
  {
    if ops == [] then items else match ops[0]
      case PushOp(t) => Queued(items + [t], ops[1..])
      case PopOp => Queued(items[1..], ops[1..])
  }

  function Touched(ops: seq<Op>): set<Node> {
    set i | 0 <= i < |ops| && ops[i].PushOp? :: ops[i].node
  }

  /** Any such run is a run of a first-in first-out queue, also through the states in which the list is
      empty and its tail pointer stale. */
  method RunAll(l: List, ops: seq<Op>)
    requires l.Valid() && Safe(l.items, ops)
    modifies l, l.items, Touched(ops)
    ensures l.Valid() && l.items == Queued(old(l.items), ops)
    decreases |ops|
  {
    if ops != [] {
      match ops[0] {
        case PushOp(t) => l.PushBack(t);
        case PopOp => l.PopFront();
      }
      RunAll(l, ops[1..]);
    }
  }
}
