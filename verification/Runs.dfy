/** Whole runs of the registry. */
module Runs {
  import opened Contexts
  import opened Sequences
  import opened Preorder
  import opened Inheritance
  import opened ListEdits
  import opened Levels

  /** A run: from the lone root, one transition after the other. */
  ghost predicate Run(states: seq<State>, ops: seq<Op>) {
    && |states| == |ops| + 1
    && Init(states[0])
    && (forall i :: 0 <= i < |ops| && Valid(states[i]) ==> Next(states[i], ops[i], states[i + 1]))
  }

  lemma {:induction false} RunValid(states: seq<State>, ops: seq<Op>, i: nat)
    requires Run(states, ops) && i < |states|
    ensures Valid(states[i])
  {
    hide Valid, Next, Init;
    if i == 0 {
      InitValid(states[0]);
    } else {
      RunValid(states, ops, i - 1);
      NextValid(states[i - 1], ops[i - 1], states[i]);
    }
  }

  lemma InitRuns(st: State)
    requires Init(st)
    ensures Run([st], [])
  {
  }

  /** A run goes on with any transition. */
  lemma RunGrows(states: seq<State>, ops: seq<Op>, op: Op, st': State)
    requires Run(states, ops) && Valid(states[|ops|]) && Next(states[|ops|], op, st')
    ensures Run(states + [st'], ops + [op]) && |states| == |ops| + 1
  {
    hide Valid, Next, Init;
    forall i | 0 <= i < |ops| + 1 && Valid((states + [st'])[i])
      ensures Next((states + [st'])[i], (ops + [op])[i], (states + [st'])[i + 1])
    {
      assert i < |ops| ==> Valid(states[i]);
    }
  }

  lemma ConstructCoherent(st: State, c: Context, st': State)
    requires Valid(st) && Coherent(st) && Constructs(st, c, st')
    ensures Valid(st') && Coherent(st')
  {
    ConstructValid(st, c, st');
    assert st'.order[0] == st.order[0];
    forall x | x in st'.order && st'.lvl[x] == Unset ensures FollowsParent(st', x) {
      RootOrChild(st', x);
      if x != c {
        RootOrChild(st, x);
        assert FollowsParent(st, x);
      }
    }
  }

  lemma DestroyCoherent(st: State, c: Context, st': State)
    requires Valid(st) && Coherent(st) && Destroys(st, c, st')
    ensures Valid(st') && Coherent(st')
  {
    DestroyValid(st, c, st');
    assert st'.order[0] == st.order[0];
    forall x | x in st'.order && st'.lvl[x] == Unset ensures FollowsParent(st', x) {
      RootOrChild(st', x);
      RootOrChild(st, x);
      assert FollowsParent(st, x);
    }
  }

  /** The call made at step i meets the exact condition of set_level; other steps are free. */
  ghost predicate Careful(states: seq<State>, ops: seq<Op>, i: nat)
    requires i < |ops| && i < |states| && Valid(states[i])
  {
    ops[i].SetLevel? ==> ops[i].node in states[i].order && Keeps(states[i], ops[i].node, ops[i].level)
  }

  lemma StepExact(states: seq<State>, ops: seq<Op>, i: nat)
    requires Run(states, ops) && i < |ops|
    requires Valid(states[i]) && Documented(states[i])
    ensures Valid(states[i + 1])
    ensures Documented(states[i + 1]) <==> Careful(states, ops, i)
  {
    var st, st' := states[i], states[i + 1];
    NextValid(st, ops[i], st');
    CoherentIffDocumented(st);
    match ops[i]
    case Construct(c) =>
      ConstructCoherent(st, c, st');
      CoherentIffDocumented(st');
    case Destroy(c) =>
      DestroyCoherent(st, c, st');
      CoherentIffDocumented(st');
    case SetLevel(n, l) =>
      SetLevelExact(st, n, l, st');
  }

  /** All states of the run up to i are valid, and show the documented levels. */
  ghost predicate DocumentedUpTo(states: seq<State>, i: nat)
    requires i < |states|
  {
    forall k :: 0 <= k <= i ==> Valid(states[k]) && Documented(states[k])
  }

  ghost predicate CarefulUpTo(states: seq<State>, ops: seq<Op>, i: nat)
    requires i <= |ops| < |states|
  {
    forall k :: 0 <= k < i ==> Valid(states[k]) && Careful(states, ops, k)
  }

  /** The documentation holds throughout a run if and only if every call of set_level met its condition
      when it was made. */
  lemma {:induction false} RunExact(states: seq<State>, ops: seq<Op>, i: nat)
    requires Run(states, ops) && i < |states|
    ensures DocumentedUpTo(states, i) <==> CarefulUpTo(states, ops, i)
  {
    hide Valid, Next, Init, Documented, Coherent, Keeps;
    RunValid(states, ops, i);
    if i == 0 {
      InitValid(states[0]);
      CoherentIffDocumented(states[0]);
    } else {
      RunExact(states, ops, i - 1);
      RunValid(states, ops, i - 1);
      if DocumentedUpTo(states, i - 1) {
        StepExact(states, ops, i - 1);
      }
    }
  }

  /** A simple discipline that is enough: only the root is ever set to Unset, and an explicit node three
      or more levels below the caller has a later sibling. */
  ghost predicate Disciplined(st: State, op: Op)
    requires Valid(st)
  {
    op.SetLevel? ==>
      && op.node in st.order
      && (op.level == Unset ==> op.node == st.order[0])
      && (st.organized ==> DeepSiblings(st.order, Explicit(st.lvl), Pos(st.order, op.node)))
  }

  lemma {:induction false} DisciplineSuffices(states: seq<State>, ops: seq<Op>, i: nat)
    requires Run(states, ops) && i < |states|
    requires forall k :: 0 <= k < |ops| && Valid(states[k]) ==> Disciplined(states[k], ops[k])
    ensures DocumentedUpTo(states, i)
  {
    forall k | 0 <= k < i ensures Valid(states[k]) && Careful(states, ops, k) {
      RunValid(states, ops, k);
      var st, op := states[k], ops[k];
      assert Disciplined(st, op);
      if op.SetLevel? && st.organized {
        DeepSiblingsSuffice(st.order, Explicit(st.lvl), Pos(st.order, op.node));
      }
    }
    RunExact(states, ops, i);
  }

  // ---------- The order inside a family ----------

  /** s without c. */
  function Without(s: seq<Context>, c: Context): seq<Context> {
    if s == [] then [] else (if s[0] == c then [] else [s[0]]) + Without(s[1..], c)
  }

  /** The nodes alive after these operations on the lone root, in the order of their construction. */
  function Alive(ops: seq<Op>): seq<Context> {
    if ops == [] then [] else
    var alive := Alive(ops[..|ops| - 1]);
    match ops[|ops| - 1]
    case Construct(c) => alive + [c]
    case Destroy(c) => Without(alive, c)
    case SetLevel(_, _) => alive
  }

  lemma {:induction false} WithoutConcat(a: seq<Context>, b: seq<Context>, c: Context)
    ensures Without(a + b, c) == Without(a, c) + Without(b, c)
  {
    if a == [] {
      assert a + b == b;
    } else {
      WithoutConcat(a[1..], b, c);
      assert (a + b)[1..] == a[1..] + b;
      Associative(if a[0] == c then [] else [a[0]], Without(a[1..], c), Without(b, c));
    }
  }

  lemma {:induction false} WithoutNone(s: seq<Context>, c: Context)
    requires c !in s
    ensures Without(s, c) == s
  {
    if s != [] {
      WithoutNone(s[1..], c);
    }
  }

  lemma {:induction false} WithoutRev(s: seq<Context>, c: Context)
    ensures Without(Rev(s), c) == Rev(Without(s, c))
  {
    if s != [] {
      WithoutRev(s[1..], c);
      WithoutConcat(Rev(s[1..]), [s[0]], c);
      RevConcat(if s[0] == c then [] else [s[0]], Without(s[1..], c));
    }
  }

  /** Unlinking the node at i drops it and nothing else. */
  lemma RemoveIsWithout(s: seq<Context>, i: nat)
    requires NoDup(s) && i < |s|
    ensures Remove(s, i) == Without(s, s[i])
  {
    var rest := s[i..];
    assert s == s[..i] + rest && rest[1..] == s[i + 1..];
    WithoutConcat(s[..i], rest, s[i]);
    WithoutNone(s[..i], s[i]);
    WithoutNone(rest[1..], s[i]);
    assert Without(rest, s[i]) == [] + rest[1..] == s[i + 1..];
  }

  lemma InsertSecond(root: Context, rest: seq<Context>, c: Context)
    ensures Insert([root] + rest, 0, c) == [root] + ([c] + rest)
  {
  }

  lemma DropBehindRoot(root: Context, alive: seq<Context>, i: nat)
    requires var s := [root] + Rev(alive); NoDup(s) && 0 < i < |s|
    ensures var s := [root] + Rev(alive); Remove(s, i) == [root] + Rev(Without(alive, s[i]))
  {
    var s := [root] + Rev(alive);
    RemoveIsWithout(s, i);
    WithoutConcat([root], Rev(alive), s[i]);
    WithoutNone([root], s[i]);
    WithoutRev(alive, s[i]);
  }

  lemma ConstructNewest(st: State, c: Context, st': State, root: Context, alive: seq<Context>)
    requires Valid(st) && !st.organized && st.order == [root] + Rev(alive) && Constructs(st, c, st')
    ensures !st'.organized && st'.order == [root] + Rev(alive + [c])
  {
    hide Shaped, IsPreorder;
    RevConcat(alive, [c]);
    InsertSecond(root, Rev(alive), c);
  }

  lemma DestroyNewest(st: State, c: Context, st': State, root: Context, alive: seq<Context>)
    requires Valid(st) && !st.organized && st.order == [root] + Rev(alive) && Destroys(st, c, st')
    ensures !st'.organized && st'.order == [root] + Rev(Without(alive, c))
  {
    hide ParentTree, IsPreorder, Rev;
    DropBehindRoot(root, alive, Pos(st.order, c));
  }

  /** Before the first set_level the list is the root and then the living nodes, newest first. */
  lemma {:induction false} NewestFirst(states: seq<State>, ops: seq<Op>, i: nat)
    requires Run(states, ops) && i < |states| && forall k :: 0 <= k < i ==> !ops[k].SetLevel?
    ensures !states[i].organized
    ensures states[i].order == [states[0].order[0]] + Rev(Alive(ops[..i]))
  {
    hide Valid, Constructs, Destroys, SetsLevel;
    if i == 0 {
      InitValid(states[0]);
      assert Rev(Alive(ops[..0])) == [];
    } else {
      NewestFirst(states, ops, i - 1);
      RunValid(states, ops, i - 1);
      assert ops[..i][..i - 1] == ops[..i - 1];
      var root, alive := states[0].order[0], Alive(ops[..i - 1]);
      match ops[i - 1]
      case Construct(c) =>
        ConstructNewest(states[i - 1], c, states[i], root, alive);
      case Destroy(c) =>
        DestroyNewest(states[i - 1], c, states[i], root, alive);
      case SetLevel(_, _) =>
    }
  }

  lemma InsertFamilies(s: seq<Context>, i: nat, c: Context, x: Context)
    requires i < |s|
    ensures Kids(x, Insert(s, i, c)) == Kids(x, s[..i + 1]) + (Kids(x, [c]) + Kids(x, s[i + 1..]))
    ensures Kids(x, s) == Kids(x, s[..i + 1]) + Kids(x, s[i + 1..])
  {
    assert s == s[..i + 1] + s[i + 1..];
    KidsConcat(x, s[..i + 1], s[i + 1..]);
    assert Insert(s, i, c) == s[..i + 1] + ([c] + s[i + 1..]);
    KidsConcat(x, s[..i + 1], [c] + s[i + 1..]);
    KidsConcat(x, [c], s[i + 1..]);
  }

  /** Up to the place of the new node stands no child of its parent. */
  lemma NoKidsBefore(st: State, c: Context, i: nat)
    requires Valid(st) && c.parent != null && c.parent in st.order
    requires i == if st.organized then Pos(st.order, c.parent) else 0
    ensures Kids(c.parent, st.order[..i + 1]) == []
  {
    var s := st.order;
    forall j | 0 <= j < i + 1 ensures s[j].parent != c.parent {
      assert j > 0 ==> HasParent(s, j) && Par(s, j) < j;
    }
    NoKids(c.parent, s[..i + 1]);
  }

  /** A new node becomes the first child of its parent, whether the list is organized or not, and no other
      family changes. */
  lemma ConstructFamilies(st: State, c: Context, st': State, x: Context)
    requires Valid(st) && Constructs(st, c, st') && x in st.order
    ensures Kids(x, st'.order) == if x == c.parent then [c] + Kids(x, st.order) else Kids(x, st.order)
  {
    hide Valid, Insert;
    var i := if st.organized then Pos(st.order, c.parent) else 0;
    InsertFamilies(st.order, i, c, x);
    NoKidsBefore(st, c, i);
    assert Kids(x, [c]) == if x == c.parent then [c] else [];
  }

  /** A destroyed node leaves its family, and no other family changes. */
  lemma DestroyFamilies(st: State, c: Context, st': State, x: Context)
    requires Valid(st) && Destroys(st, c, st')
    ensures Kids(x, st'.order) == Without(Kids(x, st.order), c)
  {
    hide ParentTree, IsPreorder, Without;
    RemoveIsWithout(st.order, Pos(st.order, c));
    KidsWithout(x, st.order, c);
  }

  lemma {:induction false} KidsWithout(x: Context, s: seq<Context>, c: Context)
    ensures Kids(x, Without(s, c)) == Without(Kids(x, s), c)
  {
    if s != [] {
      KidsWithout(x, s[1..], c);
      KidsConcat(x, if s[0] == c then [] else [s[0]], Without(s[1..], c));
      WithoutConcat(if s[0].parent == x then [s[0]] else [], Kids(x, s[1..]), c);
    }
  }

  /** So the first set_level leaves every family in construction order. */
  lemma FamiliesInConstructionOrder(states: seq<State>, ops: seq<Op>, i: nat, x: Context)
    requires Run(states, ops) && i < |ops| && forall k :: 0 <= k < i ==> !ops[k].SetLevel?
    requires ops[i].SetLevel? && x in states[i].order
    ensures Kids(x, states[i + 1].order) == Kids(x, Alive(ops[..i]))
  {
    var root, alive := states[0].order[0], Alive(ops[..i]);
    NewestFirst(states, ops, i);
    RunValid(states, ops, i);
    KidsConcat(x, [root], Rev(alive));
    KidsOfRev(x, alive);
  }

  lemma {:induction false} KidsOfRev(x: Context, s: seq<Context>)
    ensures Kids(x, Rev(s)) == Rev(Kids(x, s))
  {
    if s != [] {
      var head := if s[0].parent == x then [s[0]] else [];
      KidsOfRev(x, s[1..]);
      KidsConcat(x, Rev(s[1..]), [s[0]]);
      RevConcat(head, Kids(x, s[1..]));
    }
  }

  // ---------- Runs that leave a wrong level ----------

  /** Four constructions, with ab linked in after aaa, and a level for aaa. */
  ghost predicate FiveCalls(ops: seq<Op>, root: Context, a: Context, aa: Context, aaa: Context, ab: Context) {
    && 5 <= |ops|
    && ops[0] == Construct(a) && ops[1] == Construct(aa) && ops[2] == Construct(aaa) && ops[3] == Construct(ab)
    && ops[4] == SetLevel(aaa, Error)
    && a.parent == root && aa.parent == a && aaa.parent == aa && ab.parent == a
  }

  lemma FiveAlive(ops: seq<Op>, root: Context, a: Context, aa: Context, aaa: Context, ab: Context)
    requires FiveCalls(ops, root, a, aa, aaa, ab)
    ensures Alive(ops[..4]) == [a, aa, aaa, ab]
  {
    assert ops[..4][..3] == ops[..3] && ops[..3][..2] == ops[..2] && ops[..2][..1] == ops[..1];
    assert ops[..1][..0] == [];
    assert Alive(ops[..1]) == [] + [a] == [a];
    assert Alive(ops[..2]) == [a] + [aa] == [a, aa];
    assert Alive(ops[..3]) == [a, aa] + [aaa] == [a, aa, aaa];
    assert [a, aa, aaa] + [ab] == [a, aa, aaa, ab];
  }

  /** Before the level is set the newest node comes first. */
  lemma FiveBuilt(states: seq<State>, ops: seq<Op>, a: Context, aa: Context, aaa: Context, ab: Context)
    requires Run(states, ops) && FiveCalls(ops, states[0].order[0], a, aa, aaa, ab)
    ensures Valid(states[4]) && !states[4].organized && SetsLevel(states[4], aaa, Error, states[5])
    ensures states[4].order == [states[0].order[0], ab, aaa, aa, a]
    ensures FiveNodes([states[0].order[0], a, aa, aaa, ab])
  {
    hide ParentTree, Organizes, IsPreorder, SyncAll;
    hide SetsLevel, Constructs, Destroys, Rev, Alive, FiveNodes;
    RunValid(states, ops, 4);
    NewestFirst(states, ops, 4);
    FiveAlive(ops, states[0].order[0], a, aa, aaa, ab);
    FiveReversed(states[4].order, states[0].order[0], a, aa, aaa, ab);
  }

  lemma FiveReversed(s: seq<Context>, root: Context, a: Context, aa: Context, aaa: Context, ab: Context)
    requires s == [root] + Rev([a, aa, aaa, ab]) && NoDup(s) && s[0].parent == null
    requires a.parent == root && aa.parent == a && aaa.parent == aa && ab.parent == a
    ensures s == [root, ab, aaa, aa, a] && FiveNodes([root, a, aa, aaa, ab])
  {
    assert s[1] == ab && s[2] == aaa && s[3] == aa && s[4] == a;
  }

  /** Setting it sorts them. */
  lemma FiveSorted(states: seq<State>, ops: seq<Op>, a: Context, aa: Context, aaa: Context, ab: Context)
    requires Run(states, ops) && FiveCalls(ops, states[0].order[0], a, aa, aaa, ab)
    ensures states[5].order == [states[0].order[0], a, aa, aaa, ab]
  {
    hide Kids, Valid, Organizes, IsPreorder, SetsLevel, Alive;
    var root := states[0].order[0];
    var t := [root, a, aa, aaa, ab];
    FiveBuilt(states, ops, a, aa, aaa, ab);
    FiveAlive(ops, root, a, aa, aaa, ab);
    SetLevelOrder(states[4], aaa, Error, states[5]);
    FivePlaces(t);
    forall x | x in states[5].order || x in t ensures Kids(x, states[5].order) == Kids(x, t) {
      FamiliesInConstructionOrder(states, ops, 4, x);
      FiveKids(x, root, [a, aa, aaa, ab]);
      assert t == [root] + [a, aa, aaa, ab];
    }
    PreorderUnique(states[5].order, t);
  }

  lemma FiveKids(x: Context, root: Context, rest: seq<Context>)
    requires root.parent == null
    ensures Kids(x, [root] + rest) == Kids(x, rest)
  {
    assert ([root] + rest)[1..] == rest;
  }

  /** A fresh level on a leaf of the sorted five spreads nowhere. */
  lemma FiveLevels(st: State, st': State)
    requires Valid(st) && !st.organized && FiveNodes(st'.order)
    requires SetsLevel(st, st'.order[3], Error, st')
    ensures Valid(st') && st'.organized && OnlyInner(st'.order, Explicit(st'.lvl))
    ensures st'.inh[st'.order[4]] == Unset
  {
    hide ParentTree, Organizes, IsPreorder;
    var s := st'.order;
    SetLevelOrder(st, s[3], Error, st');
    SetLevelValid(st, s[3], Error, st');
    assert Pos(s, s[3]) == 3;
    assert SyncAll(s, Explicit(st'.lvl), 3, 4) == {};
  }

  /** root := Trace then misses ab. */
  lemma MissedStep(st: State, st': State)
    requires Valid(st) && st.organized && OnlyInner(st.order, Explicit(st.lvl))
    requires st.inh[st.order[4]] == Unset && SetsLevel(st, st.order[0], Trace, st')
    ensures Valid(st') && st.order[4] in st'.order && Effective(st', st.order[4]) == Unset
    ensures AtDepth(st.order[4], 2) && Nearest(st'.lvl, st.order[4], 2) == Trace
  {
    hide ParentTree, IsPreorder, SyncAll;
    var s := st.order;
    SetLevelValid(st, s[0], Trace, st');
    assert OnlyInner(s, Explicit(st'.lvl));
    LastSiblingCutsOff(s, Explicit(st'.lvl));
    assert Pos(s, s[0]) == 0;
    assert AtDepth(s[0], 0) && AtDepth(s[1], 1);
    assert Nearest(st'.lvl, s[1], 1) == Nearest(st'.lvl, s[0], 0) == Trace;
  }

  /** Without later siblings a level can fail to arrive: after these five calls every level is the
      documented one, and then root := Trace leaves ab without any level, where Trace is documented. */
  lemma MissedLevel(states: seq<State>, ops: seq<Op>, a: Context, aa: Context, aaa: Context, ab: Context)
    requires Run(states, ops) && FiveCalls(ops, states[0].order[0], a, aa, aaa, ab)
    requires 6 <= |ops| && ops[5] == SetLevel(states[0].order[0], Trace)
    ensures DocumentedUpTo(states, 5)
    ensures Valid(states[6]) && !Documented(states[6]) && ab in states[6].order
    ensures Effective(states[6], ab) == Unset && AtDepth(ab, 2) && Nearest(states[6].lvl, ab, 2) == Trace
  {
    hide Valid, Shaped, AtDepth, Nearest, SyncAll, Keeps, Complete;
    FiveBuilt(states, ops, a, aa, aaa, ab);
    FiveSorted(states, ops, a, aa, aaa, ab);
    FiveLevels(states[4], states[5]);
    MissedStep(states[5], states[6]);
    FiveCareful(states, ops, a, aa, aaa, ab);
    RunExact(states, ops, 5);
  }

  lemma FiveCareful(states: seq<State>, ops: seq<Op>, a: Context, aa: Context, aaa: Context, ab: Context)
    requires Run(states, ops) && FiveCalls(ops, states[0].order[0], a, aa, aaa, ab)
    ensures CarefulUpTo(states, ops, 5)
  {
    hide Shaped, SyncAll, Complete, IsPreorder, Organizes;
    FiveBuilt(states, ops, a, aa, aaa, ab);
    forall k | 0 <= k < 5 ensures Valid(states[k]) {
      RunValid(states, ops, k);
    }
  }

  /** Without the first half of the discipline: for any child a of the root without explicit level, the
      calls root := Trace, a := Debug, root := Error, a := Unset leave a with the level Trace, where
      Error is documented. */
  lemma StaleLevel(st0: State, st1: State, st2: State, st3: State, st4: State, root: Context, a: Context)
    requires Valid(st0) && root == st0.order[0] && a in st0.order && a.parent == root && st0.lvl[a] == Unset
    requires SetsLevel(st0, root, Trace, st1)
    requires Valid(st1) ==> SetsLevel(st1, a, Debug, st2)
    requires Valid(st2) ==> SetsLevel(st2, root, Error, st3)
    requires Valid(st3) ==> SetsLevel(st3, a, Unset, st4)
    ensures Valid(st4) && a in st4.order
    ensures Effective(st4, a) == Trace && AtDepth(a, 1) && Nearest(st4.lvl, a, 1) == Error
  {
    hide Shaped, SyncAll, Organizes;
    RootOrChild(st0, root);
    FirstLevelReached(st0, root, Trace, st1, a);
    OwnLevelKept(st1, a, Debug, st2, a);
    ExplicitKept(st2, root, Error, st3, a);
    OwnLevelKept(st3, a, Unset, st4, a);
    assert AtDepth(root, 0);
  }

  lemma FirstLevelReached(st: State, n: Context, l: Level, st': State, a: Context)
    requires Valid(st) && SetsLevel(st, n, l, st') && l != Unset
    requires a in st.order && a.parent == n && a != n && st.lvl[a] == Unset
    ensures Valid(st') && a in st'.order && st'.inh[a] == l
  {
    SetLevelValid(st, n, l, st');
    SetLevelOrder(st, n, l, st');
    SetLevelWrites(st, n, l, st', a);
    var s, k := st'.order, Pos(st'.order, a);
    assert k > 0 by { RootOrChild(st', a); }
    assert HasParent(s, k);
    SubtreeIsRun(s, Pos(s, n), k);
  }

  lemma OwnLevelKept(st: State, n: Context, l: Level, st': State, a: Context)
    requires Valid(st) && SetsLevel(st, n, l, st') && a == n
    ensures Valid(st') && a in st'.order && st'.inh[a] == st.inh[a]
  {
    SetLevelValid(st, n, l, st');
    SetLevelOrder(st, n, l, st');
    SetLevelWrites(st, n, l, st', a);
  }

  lemma ExplicitKept(st: State, n: Context, l: Level, st': State, a: Context)
    requires Valid(st) && SetsLevel(st, n, l, st') && a in st.order && a != n && st.lvl[a] != Unset
    ensures Valid(st') && a in st'.order && st'.inh[a] == st.inh[a]
  {
    SetLevelValid(st, n, l, st');
    SetLevelOrder(st, n, l, st');
    SetLevelWrites(st, n, l, st', a);
  }
}
