/** The registry as a state machine: construction, destruction of childless nodes and set_level, and
    when the levels it caches are the levels its documentation promises. */
module Levels {
  import opened Contexts
  import opened Sequences
  import opened Preorder
  import opened Inheritance
  import opened ListEdits

  /** What the global registry and the atomics of its nodes hold. */
  datatype State = State(
    order: seq<Context>, organized: bool, lvl: map<Context, Level>, inh: map<Context, Level>)

  ghost predicate Shaped(st: State) {
    && ParentTree(st.order) && NoDup(st.order)
    && (forall x :: x in st.order ==> x in st.lvl && x in st.inh)
    && (forall x :: x in st.lvl ==> x in st.order)
    && (forall x :: x in st.inh ==> x in st.order)
  }

  /** The registry invariant: once organized the list is a preorder, before that no level was ever set;
      and the root never inherits anything. */
  ghost predicate Valid(st: State) {
    && Shaped(st)
    && (st.organized ==> IsPreorder(st.order))
    && (!st.organized ==> forall x :: x in st.order ==> st.lvl[x] == Unset && st.inh[x] == Unset)
    && st.inh[st.order[0]] == Unset
  }

  function Explicit(lvl: map<Context, Level>): set<Context> {
    set x | x in lvl && lvl[x] != Unset
  }

  /** What effective_level returns. */
  function Effective(st: State, x: Context): Level
    requires x in st.lvl && x in st.inh
  {
    Resolve(st.lvl[x], st.inh[x])
  }

  // ---------- The documented levels ----------

  /** The level of the nearest explicit node among x and its ancestors, n links to the root; Unset if
      there is none. */
  function Nearest(lvl: map<Context, Level>, x: Context, n: nat): Level {
    if x in lvl && lvl[x] != Unset then lvl[x]
    else if n == 0 || x.parent == null then Unset
    else Nearest(lvl, x.parent, n - 1)
  }

  /** Every effective level is the documented one. */
  ghost predicate Documented(st: State)
    requires Shaped(st)
  {
    forall x, n: nat :: x in st.order && AtDepth(x, n) ==> Effective(st, x) == Nearest(st.lvl, x, n)
  }

  ghost predicate FollowsParent(st: State, x: Context)
    requires Shaped(st) && x in st.order
  {
    st.inh[x] == if x == st.order[0] then Unset else (RootOrChild(st, x); Effective(st, x.parent))
  }

  lemma RootOrChild(st: State, x: Context)
    requires Shaped(st) && x in st.order
    ensures x == st.order[0] <==> x.parent == null
    ensures x.parent != null ==> x.parent in st.order
  {
    var i := Pos(st.order, x);
    assert i > 0 ==> HasParent(st.order, i);
  }

  /** Every cached level agrees with the effective level of the parent, where it is in use. */
  ghost predicate Coherent(st: State)
    requires Shaped(st)
  {
    forall x :: x in st.order && st.lvl[x] == Unset ==> FollowsParent(st, x)
  }

  lemma {:induction false} CoherentAtDepth(st: State, x: Context, n: nat)
    requires Shaped(st) && Coherent(st) && x in st.order && AtDepth(x, n)
    ensures Effective(st, x) == Nearest(st.lvl, x, n)
    decreases n
  {
    RootOrChild(st, x);
    if st.lvl[x] == Unset {
      assert FollowsParent(st, x);
      if n > 0 { CoherentAtDepth(st, x.parent, n - 1); }
    }
  }

  /** The local condition on the cache and the documented levels are the same thing. */
  lemma CoherentIffDocumented(st: State)
    requires Shaped(st)
    ensures Coherent(st) <==> Documented(st)
  {
    if Coherent(st) {
      forall x, n: nat | x in st.order && AtDepth(x, n) ensures Effective(st, x) == Nearest(st.lvl, x, n) {
        CoherentAtDepth(st, x, n);
      }
    }
    if Documented(st) {
      forall x | x in st.order && st.lvl[x] == Unset ensures FollowsParent(st, x) {
        RootOrChild(st, x);
        var n: nat :| AtDepth(x, n);
        if n > 0 {
          assert AtDepth(x.parent, n - 1);
        }
      }
    }
  }

  // ---------- The transitions ----------

  datatype Op = Construct(node: Context) | Destroy(node: Context) | SetLevel(node: Context, level: Level)

  /** A new node goes behind its parent once the list is organized, and behind the root before. */
  ghost predicate Constructs(st: State, c: Context, st': State)
    requires Valid(st)
  {
    && c !in st.order && c.parent != null && c.parent in st.order
    && st'.organized == st.organized
    && st'.order == Insert(st.order, if st.organized then Pos(st.order, c.parent) else 0, c)
    && st'.lvl == st.lvl[c := Unset]
    && st'.inh == st.inh[c := if st.organized then Effective(st, c.parent) else Unset]
  }

  /** Children are destroyed before their parents, and the root last of all. */
  ghost predicate Destroys(st: State, c: Context, st': State)
    requires Valid(st)
  {
    && c in st.order && c != st.order[0] && (forall x :: x in st.order ==> x.parent != c)
    && st'.organized == st.organized
    && st'.order == Remove(st.order, Pos(st.order, c))
    && st'.lvl == st.lvl - {c}
    && st'.inh == st.inh - {c}
  }

  /** set_level: the first call organizes the list; then the level goes to the nodes the walk writes. */
  ghost predicate SetsLevel(st: State, n: Context, l: Level, st': State)
    requires Valid(st)
  {
    && n in st.order
    && st'.organized
    && (if st.organized then st'.order == st.order else Organizes(st.order, st'.order))
    && n in st'.order
    && st'.lvl == st.lvl[n := l]
    && var i := Pos(st'.order, n);
       var W := SyncAll(st'.order, Explicit(st'.lvl), i, i + 1);
       st'.inh == map x | x in st.inh :: if x in W then Resolve(l, st.inh[n]) else st.inh[x]
  }

  ghost predicate Next(st: State, op: Op, st': State)
    requires Valid(st)
  {
    match op
    case Construct(c) => Constructs(st, c, st')
    case Destroy(c) => Destroys(st, c, st')
    case SetLevel(n, l) => SetsLevel(st, n, l, st')
  }

  /** The registry as the program finds it: the root alone. */
  ghost predicate Init(st: State) {
    && |st.order| == 1 && st.order[0].parent == null
    && !st.organized
    && st.lvl == map[st.order[0] := Unset] && st.inh == map[st.order[0] := Unset]
  }

  // ---------- The registry invariant ----------

  /** What the operations on the heap need to know about a valid state. */
  lemma ValidFacts(st: State)
    requires Valid(st)
    ensures |st.order| > 0 && NoDup(st.order) && ParentTree(st.order)
    ensures st.organized ==> IsPreorder(st.order)
    ensures forall x :: x in st.order ==> x in st.lvl && x in st.inh
  {
  }

  lemma InitValid(st: State)
    requires Init(st)
    ensures Valid(st) && Coherent(st)
  {
    assert AtDepth(st.order[0], 0);
  }

  lemma OrganizedTree(s: seq<Context>, t: seq<Context>)
    requires ParentTree(s) && Organizes(s, t)
    ensures ParentTree(t) && forall x :: x in t <==> x in s
  {
    SameMembers(s, t);
  }

  lemma ConstructValid(st: State, c: Context, st': State)
    requires Valid(st) && Constructs(st, c, st')
    ensures Valid(st')
  {
    var i := if st.organized then Pos(st.order, c.parent) else 0;
    InsertKeepsTree(st.order, i, c);
    assert st'.order[0] == st.order[0];
    forall x | x in st'.order || x in st'.lvl || x in st'.inh
      ensures x in st'.order && x in st'.lvl && x in st'.inh
      ensures !st.organized ==> st'.lvl[x] == Unset && st'.inh[x] == Unset
    {
      InsertMembers(st.order, i, c, x);
    }
    if st.organized {
      InsertKeepsPreorder(st.order, i, c);
    }
  }

  lemma DestroyValid(st: State, c: Context, st': State)
    requires Valid(st) && Destroys(st, c, st')
    ensures Valid(st')
  {
    hide ParentTree, IsPreorder, NoDup, Remove;
    ValidFacts(st);
    var i := Pos(st.order, c);
    RemoveKeepsTree(st.order, i);
    RemoveMembers(st.order, i);
    if st.organized {
      RemoveKeepsPreorder(st.order, i);
    }
  }

  /** The order set_level leaves is a preorder of the same nodes, and the root is not written. */
  lemma SetLevelOrder(st: State, n: Context, l: Level, st': State)
    requires Valid(st) && SetsLevel(st, n, l, st')
    ensures IsPreorder(st'.order) && st'.order[0] == st.order[0]
    ensures forall x :: x in st'.order <==> x in st.order
    ensures Shaped(st')
  {
    if !st.organized {
      OrganizedTree(st.order, st'.order);
    }
  }

  /** A node is written exactly if the walk reaches it. */
  lemma SetLevelWrites(st: State, n: Context, l: Level, st': State, x: Context)
    requires Valid(st) && SetsLevel(st, n, l, st') && x in st.order
    ensures IsPreorder(st'.order) && x in st'.order && x in st'.inh
    ensures var E := Explicit(st'.lvl); var i, k := Pos(st'.order, n), Pos(st'.order, x);
      st'.inh[x] == if Reached(st'.order, E, i, k) then Resolve(l, st.inh[n]) else st.inh[x]
  {
    hide ParentTree, IsPreorder, NoDup, Organizes, SyncAll, Reached;
    SetLevelOrder(st, n, l, st');
    SetLevelReaches(st'.order, Explicit(st'.lvl), Pos(st'.order, n), Pos(st'.order, x));
  }

  /** A node that is explicit, no strict descendant of n, or hidden behind an explicit node keeps its
      inherited level, and what is written is the effective level of n. */
  lemma SetLevelFrame(st: State, n: Context, l: Level, st': State, x: Context)
    requires Valid(st) && SetsLevel(st, n, l, st') && x in st.order
    ensures x in st'.inh && n in st'.inh && n in st'.order && x in st'.order && IsPreorder(st'.order)
    ensures !Heir(Explicit(st'.lvl), n, x) ==> st'.inh[x] == st.inh[x]
    ensures st'.inh[x] != st.inh[x] ==> st'.inh[x] == Effective(st', n)
    ensures Heir(Explicit(st'.lvl), n, x)
       <==> st'.lvl[x] == Unset && Open(st'.order, Explicit(st'.lvl), Pos(st'.order, n), Pos(st'.order, x))
  {
    hide SyncAll, Heir, IsPreorder, Organizes, ParentTree;
    var E, i := Explicit(st'.lvl), Pos(st'.order, n);
    SetLevelOrder(st, n, l, st');
    SetLevelWrites(st, n, l, st', n);
    if x in SyncAll(st'.order, E, i, i + 1) {
      SyncAllHeirs(st'.order, E, i, i + 1, x);
    }
    HeirIffOpen(st'.order, E, i, Pos(st'.order, x));
  }

  lemma SetLevelValid(st: State, n: Context, l: Level, st': State)
    requires Valid(st) && SetsLevel(st, n, l, st')
    ensures Valid(st')
  {
    SetLevelOrder(st, n, l, st');
    SetLevelWrites(st, n, l, st', st.order[0]);
  }

  /** Every step keeps the registry invariant. */
  lemma NextValid(st: State, op: Op, st': State)
    requires Valid(st) && Next(st, op, st')
    ensures Valid(st')
  {
    match op
    case Construct(c) => ConstructValid(st, c, st');
    case Destroy(c) => DestroyValid(st, c, st');
    case SetLevel(n, l) => SetLevelValid(st, n, l, st');
  }

  // ---------- Which steps keep the documented levels ----------

  /** Below n, everything that inherits through nodes without explicit level has the level of n. */
  lemma {:induction false} OpenHasLevel(st: State, i: nat, k: nat)
    requires Shaped(st) && Coherent(st) && IsPreorder(st.order) && i < |st.order| && k < |st.order|
    requires Open(st.order, Explicit(st.lvl), i, k) && st.lvl[st.order[k]] == Unset
    ensures Effective(st, st.order[k]) == Effective(st, st.order[i])
    decreases k
  {
    assert HasParent(st.order, k);
    assert FollowsParent(st, st.order[k]);
    var p := Par(st.order, k);
    if p != i {
      OpenHasLevel(st, i, p);
    }
  }

  /** Every node that inherits from n, directly or through nodes without explicit level, is reached. */
  ghost predicate Spreads(st: State, n: Context)
    requires Valid(st) && n in st.order
  {
    st.organized ==> Complete(st.order, Explicit(st.lvl), Pos(st.order, n))
  }

  /** The inherited level of n is the effective level of its parent, or n has no parent. */
  ghost predicate Fresh(st: State, n: Context)
    requires Valid(st) && n in st.order
  {
    FollowsParent(st, n)
  }

  /** The exact condition, checked before the call: a level taken back must be fresh, and unless nothing
      changes every heir must be within reach. */
  ghost predicate Keeps(st: State, n: Context, l: Level)
    requires Valid(st) && n in st.order
  {
    && (l == Unset ==> Fresh(st, n))
    && (Resolve(l, st.inh[n]) != Effective(st, n) ==> Spreads(st, n))
  }

  /** The state just before the level is passed down: the old levels on the organized list. */
  function Sorted(st: State, st': State): State {
    State(st'.order, true, st.lvl, st.inh)
  }

  lemma SortedValid(st: State, n: Context, l: Level, st': State)
    requires Valid(st) && SetsLevel(st, n, l, st')
    ensures Valid(Sorted(st, st'))
  {
    SetLevelOrder(st, n, l, st');
  }

  lemma SortedCoherent(st: State, st': State)
    requires Valid(st) && Valid(Sorted(st, st')) && st.order[0] == st'.order[0]
    requires forall x :: x in st'.order <==> x in st.order
    ensures Coherent(st) ==> Coherent(Sorted(st, st'))
    ensures forall x :: x in st.order && Fresh(st, x) ==> Fresh(Sorted(st, st'), x)
    ensures forall x :: x in st.order && Fresh(Sorted(st, st'), x) ==> Fresh(st, x)
  {
    var so := Sorted(st, st');
    forall x | x in st.order ensures FollowsParent(so, x) <==> FollowsParent(st, x) {
      RootOrChild(st, x);
    }
  }

  /** Sorting changes neither the cache nor the condition, so one may start from the sorted list. */
  lemma SortedSame(st: State, n: Context, l: Level, st': State)
    requires Valid(st) && SetsLevel(st, n, l, st')
    ensures Valid(Sorted(st, st')) && SetsLevel(Sorted(st, st'), n, l, st')
    ensures Coherent(st) ==> Coherent(Sorted(st, st'))
    ensures Keeps(Sorted(st, st'), n, l) <==> Keeps(st, n, l)
  {
    hide ParentTree, IsPreorder, NoDup, Organizes, SyncAll, Coherent, Complete, FollowsParent;
    var so := Sorted(st, st');
    if st.organized {
      assert so == st;
    } else {
      SortedValid(st, n, l, st');
      SetLevelOrder(st, n, l, st');
      SortedCoherent(st, st');
      SortedSpreads(st, st', n);
    }
  }

  lemma SortedSpreads(st: State, st': State, n: Context)
    requires Valid(st) && Valid(Sorted(st, st')) && !st.organized && n in st.order && n in st'.order
    ensures Spreads(st, n) && Spreads(Sorted(st, st'), n)
  {
    assert Explicit(st.lvl) == {};
    NothingStops(st'.order, Pos(st'.order, n));
  }

  lemma NothingStops(s: seq<Context>, i: nat)
    requires IsPreorder(s) && i < |s|
    ensures Complete(s, {}, i)
  {
  }

  lemma ExplicitBelow(st: State, n: Context, l: Level, st': State)
    requires Valid(st) && st.organized && SetsLevel(st, n, l, st')
    ensures IsPreorder(st.order)
    ensures SameBelow(st.order, Explicit(st.lvl), Explicit(st'.lvl), Pos(st.order, n))
    ensures SameBelow(st.order, Explicit(st'.lvl), Explicit(st.lvl), Pos(st.order, n))
  {
  }

  /** Nodes left of n in the list, and n itself, keep their inherited level. */
  lemma LeftUnwritten(st: State, n: Context, l: Level, st': State, x: Context)
    requires Valid(st) && st.organized && SetsLevel(st, n, l, st')
    requires x in st.order && Pos(st.order, x) <= Pos(st.order, n)
    ensures x in st'.inh && st'.inh[x] == st.inh[x]
  {
    SetLevelWrites(st, n, l, st', x);
  }

  lemma TakenBackIsFresh(st: State, n: Context, st': State)
    requires Valid(st) && st.organized && SetsLevel(st, n, Unset, st')
    requires Shaped(st') && Coherent(st')
    ensures Fresh(st, n)
  {
    var s := st.order;
    LeftUnwritten(st, n, Unset, st', n);
    RootOrChild(st, n);
    assert FollowsParent(st', n);
    if n != s[0] {
      assert HasParent(s, Pos(s, n));
      LeftUnwritten(st, n, Unset, st', n.parent);
    }
  }

  lemma UnreachedKeepsLevel(st: State, n: Context, l: Level, st': State, k: nat)
    requires Valid(st) && st.organized && SetsLevel(st, n, l, st')
    requires Coherent(st) && Shaped(st') && Coherent(st') && k < |st.order|
    requires var E := Explicit(st'.lvl); var i := Pos(st.order, n);
      Open(st.order, E, i, k) && st'.lvl[st.order[k]] == Unset && !Reached(st.order, E, i, k)
    ensures Resolve(l, st.inh[n]) == Effective(st, n)
  {
    var s, E, F, i := st.order, Explicit(st.lvl), Explicit(st'.lvl), Pos(st.order, n);
    ExplicitBelow(st, n, l, st');
    OpenSame(s, F, E, i, k);
    OpenHasLevel(st, i, k);
    OpenHasLevel(st', i, k);
    SetLevelWrites(st, n, l, st', s[k]);
    LeftUnwritten(st, n, l, st', n);
  }

  /** Only if: a call outside the condition leaves some documented level wrong. */
  lemma SetLevelKeepsOnlyIf(st: State, n: Context, l: Level, st': State)
    requires Valid(st) && st.organized && SetsLevel(st, n, l, st')
    requires Coherent(st) && Shaped(st') && Coherent(st')
    ensures Keeps(st, n, l)
  {
    hide Complete, ParentTree;
    if l == Unset { TakenBackIsFresh(st, n, st'); }
    if Resolve(l, st.inh[n]) != Effective(st, n) {
      var E, F, i := Explicit(st.lvl), Explicit(st'.lvl), Pos(st.order, n);
      CompleteIffAllReached(st.order, F, i);
      if !Complete(st.order, F, i) {
        var x :| x in st.order && Heir(F, n, x) && x !in SyncAll(st.order, F, i, i + 1);
        var k := Pos(st.order, x);
        HeirIffOpen(st.order, F, i, k);
        SetLevelReaches(st.order, F, i, k);
        UnreachedKeepsLevel(st, n, l, st', k);
      } else {
        ExplicitBelow(st, n, l, st');
        CompleteSame(st.order, F, E, i);
      }
    }
  }

  /** A written node that inherits follows its parent afterwards. */
  lemma WrittenFollows(st: State, n: Context, l: Level, st': State, k: nat)
    requires Valid(st) && st.organized && SetsLevel(st, n, l, st') && Shaped(st')
    requires k < |st.order| && Reached(st.order, Explicit(st'.lvl), Pos(st.order, n), k)
    ensures FollowsParent(st', st.order[k])
  {
    var s, F, i := st.order, Explicit(st'.lvl), Pos(st.order, n);
    ReachedParent(s, F, i, k);
    SetLevelWrites(st, n, l, st', s[k]);
    SetLevelWrites(st, n, l, st', s[Par(s, k)]);
    LeftUnwritten(st, n, l, st', n);
    RootOrChild(st', s[k]);
  }

  /** A node outside the walk whose parent is n or was written: it was an heir of n and missed. */
  lemma MissedHeir(st: State, n: Context, l: Level, st': State, k: nat)
    requires Valid(st) && st.organized && SetsLevel(st, n, l, st') && Coherent(st)
    requires 0 < k < |st.order| && st.lvl[st.order[k]] == Unset && st.order[k] != n
    requires HasParent(st.order, k)
    requires var F := Explicit(st'.lvl); var i, p := Pos(st.order, n), Par(st.order, k);
      && !Reached(st.order, F, i, k) && (p == i || Reached(st.order, F, i, p))
      && (Resolve(l, st.inh[n]) == Effective(st, n) || Complete(st.order, F, i))
    ensures Resolve(l, st.inh[n]) == Effective(st, n) == Effective(st, st.order[Par(st.order, k)])
  {
    var s, E, F, i := st.order, Explicit(st.lvl), Explicit(st'.lvl), Pos(st.order, n);
    assert Open(s, F, i, k);
    CompleteIffAllReached(s, F, i);
    HeirIffOpen(s, F, i, k);
    SetLevelReaches(s, F, i, k);
    if Par(s, k) != i {
      ExplicitBelow(st, n, l, st');
      OpenSame(s, F, E, i, Par(s, k));
      OpenHasLevel(st, i, Par(s, k));
    }
  }

  /** An unwritten node that inherits still follows its parent, if every heir of n was reached or the
      level of n did not change. */
  lemma UnwrittenFollows(st: State, n: Context, l: Level, st': State, k: nat)
    requires Valid(st) && st.organized && SetsLevel(st, n, l, st') && Shaped(st') && Coherent(st)
    requires k < |st.order| && st.lvl[st.order[k]] == Unset && st.order[k] != n
    requires var F := Explicit(st'.lvl); var i := Pos(st.order, n);
      && !Reached(st.order, F, i, k)
      && (Resolve(l, st.inh[n]) == Effective(st, n) || Complete(st.order, F, i))
    ensures FollowsParent(st', st.order[k])
  {
    hide IsPreorder, ParentTree, Complete, Reached;
    var s, F, i := st.order, Explicit(st'.lvl), Pos(st.order, n);
    RootOrChild(st, s[k]);
    assert FollowsParent(st, s[k]);
    SetLevelWrites(st, n, l, st', s[k]);
    if s[k].parent != null {
      assert HasParent(s, k);
      SetLevelWrites(st, n, l, st', s[Par(s, k)]);
      LeftUnwritten(st, n, l, st', n);
      if Par(s, k) == i || Reached(s, F, i, Par(s, k)) {
        MissedHeir(st, n, l, st', k);
      }
    }
  }

  /** If: a call inside the condition leaves every documented level right. */
  lemma SetLevelKeepsIf(st: State, n: Context, l: Level, st': State)
    requires Valid(st) && st.organized && SetsLevel(st, n, l, st')
    requires Coherent(st) && Shaped(st') && Keeps(st, n, l)
    ensures Coherent(st')
  {
    hide Complete, Reached, ParentTree;
    var s, E, F, i := st.order, Explicit(st.lvl), Explicit(st'.lvl), Pos(st.order, n);
    ExplicitBelow(st, n, l, st');
    if Complete(s, E, i) { CompleteSame(s, E, F, i); }
    forall x | x in st'.order && st'.lvl[x] == Unset ensures FollowsParent(st', x) {
      var k := Pos(s, x);
      if Reached(s, F, i, k) {
        WrittenFollows(st, n, l, st', k);
      } else if x != n {
        UnwrittenFollows(st, n, l, st', k);
      } else {
        LeftUnwritten(st, n, l, st', n);
        RootOrChild(st, n);
        if n != s[0] {
          assert HasParent(s, k);
          LeftUnwritten(st, n, l, st', n.parent);
        }
      }
    }
  }

  /** From documented levels, set_level leaves documented levels if and only if the condition holds. */
  lemma SetLevelExact(st: State, n: Context, l: Level, st': State)
    requires Valid(st) && Documented(st) && SetsLevel(st, n, l, st')
    ensures Valid(st') && (Documented(st') <==> Keeps(st, n, l))
  {
    SetLevelValid(st, n, l, st');
    SortedSame(st, n, l, st');
    CoherentIffDocumented(st);
    CoherentIffDocumented(st');
    var so := Sorted(st, st');
    if Keeps(st, n, l) { SetLevelKeepsIf(so, n, l, st'); }
    if Coherent(st') { SetLevelKeepsOnlyIf(so, n, l, st'); }
  }

  // ---------- Which steps show at one node only ----------

  /** A call shows exactly at its own node and at the nodes it writes, as far as they had another level
      than the one passed down. */
  lemma SetLevelShows(st: State, n: Context, l: Level, st': State, x: Context)
    requires Valid(st) && SetsLevel(st, n, l, st') && x in st.order
    ensures x in st'.lvl && x in st'.inh
    ensures var i := Pos(st'.order, n); var W := SyncAll(st'.order, Explicit(st'.lvl), i, i + 1);
      Effective(st', x) == if x == n || x in W then Resolve(l, st.inh[n]) else Effective(st, x)
  {
    hide ParentTree, IsPreorder, Organizes, SyncAll, Reached;
    var s, E, i := st'.order, Explicit(st'.lvl), Pos(st'.order, n);
    SetLevelOrder(st, n, l, st');
    SetLevelReaches(s, E, i, Pos(s, x));
    assert !Reached(s, E, i, i) by { NotReachedItself(s, E, i); }
    SetLevelReaches(s, E, i, i);
    if x in SyncAll(s, E, i, i + 1) {
      SyncAllHeirs(s, E, i, i + 1, x);
    }
  }

  lemma NotReachedItself(s: seq<Context>, E: set<Context>, n: nat)
    requires IsPreorder(s) && n < |s|
    ensures !Reached(s, E, n, n)
  {
  }

  /** Everything that inherits from n has the level of n, whatever the order of the list. */
  lemma {:induction false} HeirHasLevel(st: State, E: set<Context>, n: Context, x: Context, d: nat)
    requires Shaped(st) && Coherent(st) && n in st.order && x in st.order && st.lvl[x] == Unset
    requires forall y :: y in st.order && y != n && y !in E ==> st.lvl[y] == Unset
    requires Under(E, n, x, d)
    ensures Effective(st, x) == Effective(st, n)
    decreases d
  {
    RootOrChild(st, x);
    assert FollowsParent(st, x);
    if x.parent != n {
      HeirHasLevel(st, E, n, x.parent, d - 1);
    }
  }

  /** A child without explicit level is written. */
  lemma ChildWritten(s: seq<Context>, E: set<Context>, n: nat, c: Context)
    requires IsPreorder(s) && n < |s| && c in s && c.parent == s[n] && c !in E
    ensures c in SyncAll(s, E, n, n + 1)
  {
    var k := Pos(s, c);
    assert k > 0 && HasParent(s, k) && Par(s, k) == n;
    SubtreeIsRun(s, n, k);
    SetLevelReaches(s, E, n, k);
  }

  /** Where something is written, a child is. */
  lemma WrittenHasChild(s: seq<Context>, E: set<Context>, n: nat, x: Context) returns (c: Context)
    requires IsPreorder(s) && n < |s| && x in SyncAll(s, E, n, n + 1) && x in s
    ensures c in s && c.parent == s[n] && c !in E
  {
    hide SyncAll;
    var k := Pos(s, x);
    SetLevelReaches(s, E, n, k);
    var b := Branch(s, n, k);
    BranchRun(s, n, k);
    if b < k {
      OpenThroughChild(s, E, n, b, k);
    }
    c := s[b];
  }

  ghost predicate ShowsAt(st: State, st': State, x: Context) {
    x in st.lvl && x in st.inh && x in st'.lvl && x in st'.inh && Effective(st, x) != Effective(st', x)
  }

  ghost predicate ShowsOnce(st: State, st': State) {
    forall x, y :: x in st.order && y in st.order && ShowsAt(st, st', x) && ShowsAt(st, st', y) ==> x == y
  }

  /** The condition before the call: the level passed down is the one in effect already, or no child takes
      it over. */
  ghost predicate Local(st: State, n: Context, l: Level)
    requires Valid(st) && n in st.order
  {
    Resolve(l, st.inh[n]) == Effective(st, n) || forall c :: c in st.order && c.parent == n ==> st.lvl[c] != Unset
  }

  lemma ShowsOnceOnlyIf(st: State, n: Context, l: Level, st': State, c: Context)
    requires Valid(st) && Coherent(st) && SetsLevel(st, n, l, st')
    requires Resolve(l, st.inh[n]) != Effective(st, n) && c in st.order && c.parent == n && st.lvl[c] == Unset
    ensures !ShowsOnce(st, st')
  {
    hide ParentTree, IsPreorder, Organizes, SyncAll;
    RootOrChild(st, c);
    assert FollowsParent(st, c);
    assert c != n by { RootOrChild(st, n); NotOwnParent(st, c); }
    SetLevelOrder(st, n, l, st');
    ChildWritten(st'.order, Explicit(st'.lvl), Pos(st'.order, n), c);
    SetLevelShows(st, n, l, st', n);
    SetLevelShows(st, n, l, st', c);
    assert ShowsAt(st, st', n) && ShowsAt(st, st', c);
  }

  lemma NotOwnParent(st: State, c: Context)
    requires Shaped(st) && c in st.order
    ensures c.parent != c
  {
    var n: nat :| AtDepth(c, n);
    if c.parent == c { NoLoop(c, n); }
  }

  lemma {:induction false} NoLoop(c: Context, n: nat)
    requires c.parent == c
    ensures !AtDepth(c, n)
  {
    if n > 0 { NoLoop(c, n - 1); }
  }

  lemma ShowsOnceIf(st: State, n: Context, l: Level, st': State, x: Context)
    requires Valid(st) && Coherent(st) && SetsLevel(st, n, l, st') && Local(st, n, l)
    requires x in st.order && x != n
    ensures !ShowsAt(st, st', x)
  {
    hide ParentTree, IsPreorder, Organizes, SyncAll;
    var s, E, i := st'.order, Explicit(st'.lvl), Pos(st'.order, n);
    SetLevelOrder(st, n, l, st');
    SetLevelShows(st, n, l, st', x);
    if x in SyncAll(s, E, i, i + 1) {
      var c := WrittenHasChild(s, E, i, x);
      SyncAllHeirs(s, E, i, i + 1, x);
      var d: nat :| Under(E, n, x, d);
      assert c != n by { NotOwnParent(st, n); }
      HeirHasLevel(st, E, n, x, d);
    }
  }

  /** From documented levels, a call shows at one node at most if and only if it is local. */
  lemma ShowsOnceIff(st: State, n: Context, l: Level, st': State)
    requires Valid(st) && Documented(st) && SetsLevel(st, n, l, st')
    ensures ShowsOnce(st, st') <==> Local(st, n, l)
  {
    hide ParentTree, IsPreorder, Organizes, SyncAll, Coherent, Documented, ShowsAt;
    CoherentIffDocumented(st);
    if Local(st, n, l) {
      forall x, y | x in st.order && y in st.order && ShowsAt(st, st', x) && ShowsAt(st, st', y) ensures x == y {
        if x != n { ShowsOnceIf(st, n, l, st', x); }
        if y != n { ShowsOnceIf(st, n, l, st', y); }
      }
    } else {
      var c :| c in st.order && c.parent == n && st.lvl[c] == Unset;
      ShowsOnceOnlyIf(st, n, l, st', c);
    }
  }
}
