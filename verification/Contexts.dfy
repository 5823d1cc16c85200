/** The node type of the logging-context registry and the vocabulary of lists of nodes
    that the other registry modules share. */
module Contexts {
  import opened Sequences

  datatype Level = Trace | Debug | Info | Note | Warn | Error | Fatal | Unset

  /** The level in effect at a node: its own if it is set, else the one it inherited. */
  function Resolve(own: Level, inherited: Level): Level {
    if own != Unset then own else inherited
  }

  /** One logging context. The parent never changes after construction; the links and the two
      levels are rewritten in place. */
  class Context {
    const parent: Context?
    var next: Context?
    var prev: Context?
    var lvl: Level
    var inherited: Level

    constructor (parent: Context?)
      ensures this.parent == parent
      ensures next == null && prev == null && lvl == Unset && inherited == Unset
    {
      this.parent := parent;
      next, prev := null, null;
      lvl, inherited := Unset, Unset;
    }

    /** The two loads of effective_level, with nothing in between. */
    function EffectiveLevel(): Level
      reads this
    {
      Resolve(lvl, inherited)
    }
  }

  // ---------- Sequences of nodes ----------

  /** The node at index i, or null past either end. */
  function Nth(s: seq<Context>, i: int): (c: Context?)
    ensures c != null ==> 0 <= i < |s| && c == s[i]
  {
    At(s, i, null)
  }

  /** The heap holds exactly the doubly linked list s. */
  ghost predicate Linked(s: seq<Context>)
    reads (set x | x in s)`next, (set x | x in s)`prev
  {
    && (forall i {:trigger s[i].next} :: 0 <= i < |s| ==> s[i].next == Nth(s, i + 1))
    && (forall i {:trigger s[i].prev} :: 0 <= i < |s| ==> s[i].prev == Nth(s, i - 1))
  }

  /** The children of p in s, in order. */
  function Kids(p: Context?, s: seq<Context>): seq<Context> {
    if s == [] then [] else (if s[0].parent == p then [s[0]] else []) + Kids(p, s[1..])
  }

  /** The other nodes of s, in order. */
  function Others(p: Context?, s: seq<Context>): seq<Context> {
    if s == [] then [] else (if s[0].parent == p then [] else [s[0]]) + Others(p, s[1..])
  }

  lemma {:induction false} KidsConcat(p: Context?, a: seq<Context>, b: seq<Context>)
    ensures Kids(p, a + b) == Kids(p, a) + Kids(p, b)
    ensures Others(p, a + b) == Others(p, a) + Others(p, b)
  {
    if a == [] {
      assert a + b == b;
    } else {
      var k, o := if a[0].parent == p then [a[0]] else [], if a[0].parent == p then [] else [a[0]];
      KidsConcat(p, a[1..], b);
      assert (a + b)[1..] == a[1..] + b;
      Associative(k, Kids(p, a[1..]), Kids(p, b));
      Associative(o, Others(p, a[1..]), Others(p, b));
    }
  }

  lemma {:induction false} KidsMember(p: Context?, s: seq<Context>, x: Context)
    ensures x in Kids(p, s) <==> x in s && x.parent == p
    ensures x in Others(p, s) <==> x in s && x.parent != p
  {
    if s != [] {
      KidsMember(p, s[1..], x);
      assert s == [s[0]] + s[1..];
    }
  }

  lemma {:induction false} NoKids(p: Context?, s: seq<Context>)
    requires forall i :: 0 <= i < |s| ==> s[i].parent != p
    ensures Kids(p, s) == [] && Others(p, s) == s
  {
    if s != [] {
      NoKids(p, s[1..]);
    }
  }

  lemma {:induction false} AllKids(p: Context?, s: seq<Context>)
    requires forall i :: 0 <= i < |s| ==> s[i].parent == p
    ensures Kids(p, s) == s && Others(p, s) == []
  {
    if s != [] {
      AllKids(p, s[1..]);
    }
  }

  lemma {:induction false} KidsParent(p: Context?, s: seq<Context>)
    ensures forall i :: 0 <= i < |Kids(p, s)| ==> Kids(p, s)[i].parent == p
    ensures forall i :: 0 <= i < |Others(p, s)| ==> Others(p, s)[i].parent != p
  {
    if s != [] {
      KidsParent(p, s[1..]);
    }
  }

  /** Taking out the children of p leaves every other family as it was. */
  lemma {:induction false} KidsOfOthers(p: Context?, q: Context?, s: seq<Context>)
    requires p != q
    ensures Kids(q, Others(p, s)) == Kids(q, s)
  {
    if s != [] {
      KidsOfOthers(p, q, s[1..]);
      KidsConcat(q, if s[0].parent == p then [] else [s[0]], Others(p, s[1..]));
    }
  }

  lemma {:induction false} KidsMultiset(p: Context?, s: seq<Context>)
    ensures multiset(Kids(p, s)) + multiset(Others(p, s)) == multiset(s)
    ensures |Kids(p, s)| + |Others(p, s)| == |s|
  {
    if s != [] {
      KidsMultiset(p, s[1..]);
      assert s == [s[0]] + s[1..];
    }
  }
}
