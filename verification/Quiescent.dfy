/** The interleavings of Concurrency against the registry of Levels: what every behaviour has done at the
    instants when the mutex is free is a run of the registry. */
module Quiescent {
  import opened Contexts
  import opened Sequences
  import opened Preorder
  import opened OrganizeSpec
  import opened Inheritance
  import opened ListEdits
  import opened Levels
  import opened Runs
  import C = Concurrency

  /** The instants of a behaviour at which the mutex is free, in order, from the first on. */
  ghost predicate Cuts(states: seq<C.Shared>, cuts: seq<nat>) {
    && |cuts| > 0 && cuts[0] == 0
    && (forall k :: 0 <= k < |cuts| ==> cuts[k] < |states| && C.Free(states[cuts[k]]))
    && (forall k :: 0 <= k < |cuts| - 1 ==> Successive(states, cuts[k], cuts[k + 1]))
  }

  ghost predicate Successive(states: seq<C.Shared>, i: nat, e: nat) {
    i < e < |states| && forall m :: i < m < e ==> !C.Free(states[m])
  }

  /** Every behaviour has them: the free instants up to j. */
  ghost function FreeUpTo(states: seq<C.Shared>, j: nat): seq<nat>
    requires j < |states|
  {
    if j == 0 then [0] else FreeUpTo(states, j - 1) + if C.Free(states[j]) then [j] else []
  }

  lemma {:induction false} EveryFreeInstantIsCut(states: seq<C.Shared>, j: nat)
    requires j < |states| && C.Init(states[0])
    ensures Cuts(states, FreeUpTo(states, j)) && Latest(states, FreeUpTo(states, j), j)
  {
    hide C.Free;
    if j == 0 {
      FreeAtFirst(states[0]);
    } else {
      EveryFreeInstantIsCut(states, j - 1);
      var cuts := FreeUpTo(states, j - 1);
      if C.Free(states[j]) {
        CutsGrow(states, cuts, j);
      }
    }
  }

  lemma FreeAtFirst(s: C.Shared)
    requires C.Init(s)
    ensures C.Free(s)
  {
  }

  /** None is left out. */
  lemma {:induction false} FreeInstantsAreCuts(states: seq<C.Shared>, j: nat, m: nat)
    requires j < |states| && C.Init(states[0])
    ensures m in FreeUpTo(states, j) <==> m <= j && C.Free(states[m])
  {
    hide C.Free;
    if j == 0 {
      FreeAtFirst(states[0]);
    } else {
      FreeInstantsAreCuts(states, j - 1, m);
    }
  }

  /** No free instant up to j comes after the last cut. */
  ghost predicate Latest(states: seq<C.Shared>, cuts: seq<nat>, j: nat)
    requires j < |states|
  {
    && |cuts| > 0 && cuts[|cuts| - 1] <= j
    && (forall m :: cuts[|cuts| - 1] < m <= j ==> !C.Free(states[m]))
  }

  lemma CutsGrow(states: seq<C.Shared>, cuts: seq<nat>, j: nat)
    requires 0 < j < |states| && Cuts(states, cuts) && Latest(states, cuts, j - 1) && C.Free(states[j])
    ensures Cuts(states, cuts + [j]) && Latest(states, cuts + [j], j)
  {
    hide C.Free;
    var more := cuts + [j];
    assert Successive(states, cuts[|cuts| - 1], j);
    forall k | 0 <= k < |more| - 1 ensures Successive(states, more[k], more[k + 1]) {
      assert k < |cuts| - 1 ==> Successive(states, cuts[k], cuts[k + 1]);
    }
  }

  // ---------- The history of the registry ----------

  /** The call that an access at a free instant begins. */
  function Call(step: C.Step): Op
    requires step.Acquire? || step.Construct? || step.Destroy?
  {
    match step
    case Acquire(_, n, l) => SetLevel(n, l)
    case Construct(c, _, _) => Construct(c)
    case Destroy(c) => Destroy(c)
  }

  /** What the operation makes of the list, which only the owner of the mutex sees. */
  ghost function NextOrder(st: State, op: Op): seq<Context> {
    match op
    case Construct(c) =>
      if c.parent != null && c.parent in st.order
      then Insert(st.order, if st.organized then Pos(st.order, c.parent) else 0, c) else st.order
    case Destroy(c) =>
      if c in st.order then Remove(st.order, Pos(st.order, c)) else st.order
    case SetLevel(_, _) =>
      if !st.organized && ParentTree(st.order) && NoDup(st.order) then Organized(st.order) else st.order
  }

  /** The registry after the operation, showing the levels that the memory then holds. */
  ghost function After(st: State, op: Op, s: C.Shared): State {
    State(NextOrder(st, op), st.organized || op.SetLevel?, s.lvl, s.inh)
  }

  ghost function CallAt(states: seq<C.Shared>, steps: seq<C.Step>, cuts: seq<nat>, k: nat): Op
    requires C.Behaviour(states, steps) && Cuts(states, cuts) && k < |cuts| - 1
  {
    CutStep(states, steps, cuts, k);
    Call(steps[cuts[k]])
  }

  lemma CutStep(states: seq<C.Shared>, steps: seq<C.Step>, cuts: seq<nat>, k: nat)
    requires C.Behaviour(states, steps) && Cuts(states, cuts) && k < |cuts| - 1
    ensures cuts[k] < |steps|
    ensures var step := steps[cuts[k]]; step.Acquire? || step.Construct? || step.Destroy?
  {
    assert Successive(states, cuts[k], cuts[k + 1]);
    C.BetweenFree(states, steps, cuts[k], cuts[k + 1]);
  }

  /** The registry at the k-th free instant: the list follows from the calls, the levels are those in
      memory. */
  ghost function Reg(states: seq<C.Shared>, steps: seq<C.Step>, cuts: seq<nat>, root: Context, k: nat): State
    requires C.Behaviour(states, steps) && Cuts(states, cuts) && k < |cuts|
  {
    if k == 0 then State([root], false, states[0].lvl, states[0].inh)
    else After(Reg(states, steps, cuts, root, k - 1), CallAt(states, steps, cuts, k - 1), states[cuts[k]])
  }

  ghost function Calls(states: seq<C.Shared>, steps: seq<C.Step>, cuts: seq<nat>): (ops: seq<Op>)
    requires C.Behaviour(states, steps) && Cuts(states, cuts)
    ensures |ops| == |cuts| - 1 && forall k :: 0 <= k < |ops| ==> ops[k] == CallAt(states, steps, cuts, k)
  {
    seq(|cuts| - 1, k requires 0 <= k < |cuts| - 1 => CallAt(states, steps, cuts, k))
  }

  ghost function Regs(states: seq<C.Shared>, steps: seq<C.Step>, cuts: seq<nat>, root: Context): (regs: seq<State>)
    requires C.Behaviour(states, steps) && Cuts(states, cuts)
    ensures |regs| == |cuts| && forall k :: 0 <= k < |regs| ==> regs[k] == Reg(states, steps, cuts, root, k)
  {
    seq(|cuts|, k requires 0 <= k < |cuts| => Reg(states, steps, cuts, root, k))
  }

  /** The memory before anything is constructed. */
  ghost predicate Lone(s: C.Shared, root: Context) {
    root.parent == null && s.lvl == map[root := Unset] && s.inh == map[root := Unset]
  }

  /** What the program and the walk owe at one call that begins at i and ends at e: a new node inherits from
      its parent, once the list is organized; children go before their parents and the root stays; and
      set_level writes the nodes that the list prescribes. */
  ghost predicate Proper(
      states: seq<C.Shared>, steps: seq<C.Step>, i: nat, e: nat, st: State, op: Op, st': State)
    requires C.Behaviour(states, steps) && i < e < |states|
  {
    match op
    case Construct(c) => c.parent != null && steps[i] == C.Construct(c, c.parent, st.organized)
    case Destroy(c) => st.order != [] && c != st.order[0] && forall x :: x in st.order ==> x.parent != c
    case SetLevel(n, l) =>
      n in st'.order ==>
        var k := Pos(st'.order, n);
        C.Written(states, steps, i, e) == SyncAll(st'.order, Explicit(st.lvl[n := l]), k, k + 1)
  }

  ghost predicate ProperlyUsed(states: seq<C.Shared>, steps: seq<C.Step>, cuts: seq<nat>, root: Context)
    requires C.Behaviour(states, steps) && Cuts(states, cuts)
  {
    && Lone(states[0], root)
    && (forall k :: 0 <= k < |cuts| - 1 ==>
          Proper(states, steps, cuts[k], cuts[k + 1], Reg(states, steps, cuts, root, k),
                 CallAt(states, steps, cuts, k), Reg(states, steps, cuts, root, k + 1)))
  }

  // ---------- It is a run ----------

  ghost predicate Shows(s: C.Shared, st: State) {
    st.lvl == s.lvl && st.inh == s.inh
  }

  lemma ConstructIsNext(s: C.Shared, s': C.Shared, st: State, c: Context)
    requires Valid(st) && Shows(s, st)
    requires c.parent != null && C.Next(s, C.Construct(c, c.parent, st.organized), s')
    ensures Constructs(st, c, After(st, Construct(c), s'))
  {
    hide ParentTree, IsPreorder;
  }

  lemma DestroyIsNext(s: C.Shared, s': C.Shared, st: State, c: Context)
    requires Valid(st) && Shows(s, st) && C.Next(s, C.Destroy(c), s')
    requires c != st.order[0] && forall x :: x in st.order ==> x.parent != c
    ensures Destroys(st, c, After(st, Destroy(c), s'))
  {
    hide ParentTree, IsPreorder;
  }

  lemma StillListed(st: State, n: Context, l: Level)
    requires Valid(st) && n in st.order
    ensures var t := NextOrder(st, SetLevel(n, l));
      && n in t && if st.organized then t == st.order else Organizes(st.order, t)
  {
    hide Organizes, IsPreorder;
    if !st.organized {
      OrganizedTree(st.order, Organized(st.order));
    }
  }

  lemma SectionIsNext(s: C.Shared, s': C.Shared, st: State, n: Context, l: Level, V: set<Context>)
    requires Valid(st) && Shows(s, st)
    requires n in s.lvl && n in s.inh && s'.lvl == s.lvl[n := l] && s'.inh == C.Spread(s, n, l, V)
    requires var t := NextOrder(st, SetLevel(n, l));
      n in t ==> V == SyncAll(t, Explicit(st.lvl[n := l]), Pos(t, n), Pos(t, n) + 1)
    ensures SetsLevel(st, n, l, After(st, SetLevel(n, l), s'))
  {
    hide ParentTree, IsPreorder, SyncAll, Organizes, NextOrder;
    StillListed(st, n, l);
  }

  /** One call, from one free instant to the next, is one transition of the registry. */
  lemma EpisodeIsNext(states: seq<C.Shared>, steps: seq<C.Step>, i: nat, e: nat, st: State, op: Op)
    requires C.Behaviour(states, steps) && Successive(states, i, e) && C.Free(states[i]) && C.Free(states[e])
    requires steps[i].Acquire? || steps[i].Construct? || steps[i].Destroy?
    requires op == Call(steps[i]) && Valid(st) && Shows(states[i], st)
    requires Proper(states, steps, i, e, st, op, After(st, op, states[e]))
    ensures Next(st, op, After(st, op, states[e]))
  {
    hide SyncAll, Shaped, IsPreorder, Constructs, Destroys, SetsLevel, Shows, NextOrder, C.Next, C.Free, C.Section;
    C.BetweenFree(states, steps, i, e);
    match op
    case Construct(c) =>
      assert C.Next(states[i], steps[i], states[i + 1]);
      ConstructIsNext(states[i], states[e], st, c);
    case Destroy(c) =>
      assert C.Next(states[i], steps[i], states[i + 1]);
      DestroyIsNext(states[i], states[e], st, c);
    case SetLevel(n, l) =>
      C.SectionEffect(states, steps, steps[i].t, n, l, i, e - 1);
      SectionIsNext(states[i], states[e], st, n, l, C.Written(states, steps, i, e));
  }

  lemma RegShows(states: seq<C.Shared>, steps: seq<C.Step>, cuts: seq<nat>, root: Context, k: nat)
    requires C.Behaviour(states, steps) && Cuts(states, cuts) && k < |cuts|
    ensures Shows(states[cuts[k]], Reg(states, steps, cuts, root, k))
  {
  }

  /** At the free instants every behaviour is a run of the registry. */
  lemma QuiescentIsRun(states: seq<C.Shared>, steps: seq<C.Step>, cuts: seq<nat>, root: Context)
    requires C.Behaviour(states, steps) && Cuts(states, cuts) && ProperlyUsed(states, steps, cuts, root)
    ensures Run(Regs(states, steps, cuts, root), Calls(states, steps, cuts))
    ensures forall k :: 0 <= k < |cuts| ==> Shows(states[cuts[k]], Regs(states, steps, cuts, root)[k])
  {
    hide Valid, Next, Proper, After, C.Behaviour, C.Free;
    var regs, ops := Regs(states, steps, cuts, root), Calls(states, steps, cuts);
    forall k | 0 <= k < |cuts| ensures Shows(states[cuts[k]], regs[k]) {
      RegShows(states, steps, cuts, root, k);
    }
    forall k | 0 <= k < |ops| && Valid(regs[k]) ensures Next(regs[k], ops[k], regs[k + 1]) {
      CutStep(states, steps, cuts, k);
      EpisodeIsNext(states, steps, cuts[k], cuts[k + 1], regs[k], ops[k]);
    }
  }

  // ---------- What readers see at the free instants ----------

  /** Both loads of effective_level, made at this instant, return the documented level of every node. */
  ghost predicate ReadsDocumented(s: C.Shared, st: State) {
    forall x, n: nat :: x in st.order && AtDepth(x, n) ==>
      x in s.lvl && x in s.inh && Resolve(s.lvl[x], s.inh[x]) == Nearest(s.lvl, x, n)
  }

  lemma ReadsAre(s: C.Shared, st: State)
    requires Valid(st) && Shows(s, st)
    ensures Documented(st) <==> ReadsDocumented(s, st)
  {
  }

  /** Reads at the free instants up to the i-th return documented levels if and only if every call of
      set_level so far met its condition. */
  lemma QuiescentExact(states: seq<C.Shared>, steps: seq<C.Step>, cuts: seq<nat>, root: Context, i: nat)
    requires C.Behaviour(states, steps) && Cuts(states, cuts) && ProperlyUsed(states, steps, cuts, root)
    requires i < |cuts|
    ensures var regs, ops := Regs(states, steps, cuts, root), Calls(states, steps, cuts);
      CarefulUpTo(regs, ops, i) <==> forall k :: 0 <= k <= i ==> ReadsDocumented(states[cuts[k]], regs[k])
  {
    hide Shaped, IsPreorder, Documented, Careful, C.Behaviour, ReadsDocumented;
    var regs, ops := Regs(states, steps, cuts, root), Calls(states, steps, cuts);
    QuiescentIsRun(states, steps, cuts, root);
    RunExact(regs, ops, i);
    forall k | 0 <= k <= i
      ensures Valid(regs[k]) && (Documented(regs[k]) <==> ReadsDocumented(states[cuts[k]], regs[k]))
    {
      RunValid(regs, ops, k);
      ReadsAre(states[cuts[k]], regs[k]);
    }
  }

  // ---------- What readers see at any instant ----------

  lemma {:induction false} CutsClimb(states: seq<C.Shared>, cuts: seq<nat>, a: nat, b: nat)
    requires Cuts(states, cuts) && a <= b < |cuts|
    ensures cuts[a] <= cuts[b]
    decreases b
  {
    hide C.Free;
    if a < b {
      CutsClimb(states, cuts, a, b - 1);
      assert Successive(states, cuts[b - 1], cuts[b]);
    }
  }

  /** The free instants on either side of k. */
  lemma {:induction false} CutsAround(states: seq<C.Shared>, cuts: seq<nat>, a: nat, b: nat, k: nat)
    returns (c: nat)
    requires Cuts(states, cuts) && a <= b < |cuts| && cuts[a] <= k <= cuts[b]
    ensures a <= c <= b && cuts[c] <= k && (k == cuts[c] || (c < b && k < cuts[c + 1]))
    decreases b - a
  {
    hide C.Free;
    c := a;
    if a < b && cuts[a + 1] <= k {
      c := CutsAround(states, cuts, a + 1, b, k);
    }
  }

  /** At every instant x has its level from the free instant before or from the free instant after. */
  lemma InstantShowsCut(
      states: seq<C.Shared>, steps: seq<C.Step>, cuts: seq<nat>, x: Context, c: nat, k: nat)
    requires C.Behaviour(states, steps) && Cuts(states, cuts) && c < |cuts| - 1 && cuts[c] <= k <= cuts[c + 1]
    requires C.AliveFromTo(states, x, cuts[c], cuts[c + 1])
    ensures C.Effective(states[k], x)
         in {C.Effective(states[cuts[c]], x), C.Effective(states[cuts[c + 1]], x)}
  {
    hide C.Next, C.Free, C.Effective;
    var i, e := cuts[c], cuts[c + 1];
    assert Successive(states, i, e);
    C.BetweenFree(states, steps, i, e);
    if steps[i].Acquire? {
      C.SectionShowsTwoLevels(states, steps, steps[i].t, steps[i].n, steps[i].l, i, e - 1, x, k);
    }
  }

  lemma InstantIsAtCut(
      states: seq<C.Shared>, steps: seq<C.Step>, cuts: seq<nat>, x: Context, a: nat, b: nat, k: nat)
    returns (c: nat)
    requires C.Behaviour(states, steps) && Cuts(states, cuts) && a <= b < |cuts|
    requires cuts[a] <= k <= cuts[b] && C.AliveFromTo(states, x, cuts[a], cuts[b])
    ensures a <= c <= b && cuts[a] <= cuts[c] <= cuts[b]
    ensures C.Effective(states[k], x) == C.Effective(states[cuts[c]], x)
  {
    hide C.Next, C.Free, C.Effective, Successive;
    c := CutsAround(states, cuts, a, b, k);
    CutsClimb(states, cuts, a, c);
    CutsClimb(states, cuts, c, b);
    if k != cuts[c] {
      CutsClimb(states, cuts, a, c + 1);
      CutsClimb(states, cuts, c + 1, b);
      InstantShowsCut(states, steps, cuts, x, c, k);
      if C.Effective(states[k], x) != C.Effective(states[cuts[c]], x) {
        c := c + 1;
      }
    }
  }

  /** Whatever effective_level returns, at any moment and over any number of calls, the node had this level
      at a free instant around the read. */
  lemma ReadIsAtCut(
      states: seq<C.Shared>, steps: seq<C.Step>, cuts: seq<nat>, x: Context, a: nat, b: nat, p: nat, q: nat)
    returns (c: nat)
    requires C.Behaviour(states, steps) && Cuts(states, cuts) && a <= b < |cuts|
    requires cuts[a] <= p <= q <= cuts[b] && C.AliveFromTo(states, x, cuts[a], cuts[b])
    ensures a <= c <= b && cuts[a] <= cuts[c] <= cuts[b]
    ensures C.Effective(states[cuts[c]], x) == Resolve(states[p].lvl[x], states[q].inh[x])
  {
    hide C.Next, C.Free, C.Effective, Resolve, Successive;
    C.EffectiveLevelLinearizable(states, steps, x, p, q);
    var k :| p <= k <= q && C.Effective(states[k], x) == Resolve(states[p].lvl[x], states[q].inh[x]);
    c := InstantIsAtCut(states, steps, cuts, x, a, b, k);
  }

  /** So if every call of set_level up to the free instant b met its condition, every read between a and b
      returns a documented level. */
  lemma CarefulRead(
      states: seq<C.Shared>, steps: seq<C.Step>, cuts: seq<nat>, root: Context,
      x: Context, n: nat, a: nat, b: nat, p: nat, q: nat)
    returns (c: nat)
    requires C.Behaviour(states, steps) && Cuts(states, cuts) && ProperlyUsed(states, steps, cuts, root)
    requires a <= b < |cuts| && CarefulUpTo(Regs(states, steps, cuts, root), Calls(states, steps, cuts), b)
    requires cuts[a] <= p <= q <= cuts[b] && C.AliveFromTo(states, x, cuts[a], cuts[b]) && AtDepth(x, n)
    ensures a <= c <= b
    ensures Resolve(states[p].lvl[x], states[q].inh[x]) == Nearest(states[cuts[c]].lvl, x, n)
  {
    hide C.Next, C.Free, AtDepth, Careful, Nearest, ParentTree, IsPreorder, NoDup;
    c := ReadIsAtCut(states, steps, cuts, x, a, b, p, q);
    var regs := Regs(states, steps, cuts, root);
    QuiescentIsRun(states, steps, cuts, root);
    RunValid(regs, Calls(states, steps, cuts), c);
    QuiescentExact(states, steps, cuts, root, b);
    assert ReadsDocumented(states[cuts[c]], regs[c]);
    assert x in states[cuts[c]].lvl && x in regs[c].order;
  }

  // ---------- Which calls are one instant ----------

  lemma DiffersSame(s: C.Shared, s': C.Shared, st: State, st': State)
    requires Valid(st) && Shows(s, st) && Shows(s', st')
    ensures C.OneDiffers(s, s') <==> ShowsOnce(st, st')
  {
    hide ParentTree, IsPreorder;
    forall x | x in s.lvl ensures C.Differs(s, s', x) <==> ShowsAt(st, st', x) {
    }
  }

  /** A call of set_level that finds documented levels is one instant for lock-free readers of all nodes if
      and only if it is local. */
  lemma SectionIsOneInstantIff(
      states: seq<C.Shared>, steps: seq<C.Step>, t: C.Thread, n: Context, l: Level, i: nat, r: nat,
      st: State, st': State)
    requires C.Behaviour(states, steps) && C.Section(states, steps, t, n, l, i, r)
    requires Valid(st) && Documented(st) && SetsLevel(st, n, l, st')
    requires Shows(states[i], st) && Shows(states[r + 1], st')
    ensures C.OneInstant(states, steps, t, n, l, i, r) <==> Local(st, n, l)
  {
    hide C.Next, Shaped, IsPreorder, SyncAll, Organizes, Documented, Local, C.OneInstant, C.OneDiffers;
    C.OneInstantIff(states, steps, t, n, l, i, r);
    DiffersSame(states[i], states[r + 1], st, st');
    ShowsOnceIff(st, n, l, st');
  }

  /** That is what a call finds, and does, when all calls before met their conditions. */
  lemma SectionFinds(
      states: seq<C.Shared>, steps: seq<C.Step>, cuts: seq<nat>, root: Context,
      k: nat, t: C.Thread, n: Context, l: Level)
    requires C.Behaviour(states, steps) && Cuts(states, cuts) && ProperlyUsed(states, steps, cuts, root)
    requires k < |cuts| - 1 && cuts[k] < |steps| && steps[cuts[k]] == C.Acquire(t, n, l)
    requires CarefulUpTo(Regs(states, steps, cuts, root), Calls(states, steps, cuts), k)
    ensures C.Section(states, steps, t, n, l, cuts[k], cuts[k + 1] - 1)
    ensures var st, st' := Reg(states, steps, cuts, root, k), Reg(states, steps, cuts, root, k + 1);
      && Valid(st) && Documented(st) && SetsLevel(st, n, l, st')
      && Shows(states[cuts[k]], st) && Shows(states[cuts[k + 1]], st')
  {
    hide C.Next, C.Free, Careful, Shaped, IsPreorder, SyncAll, Documented, Reg;
    var regs, ops := Regs(states, steps, cuts, root), Calls(states, steps, cuts);
    QuiescentIsRun(states, steps, cuts, root);
    RunValid(regs, ops, k);
    RunExact(regs, ops, k);
    assert Successive(states, cuts[k], cuts[k + 1]);
    C.BetweenFree(states, steps, cuts[k], cuts[k + 1]);
    assert ops[k] == SetLevel(n, l) && Next(regs[k], ops[k], regs[k + 1]);
  }

  // ---------- Such behaviours exist ----------

  lemma LoneOrganized(root: Context)
    requires root.parent == null
    ensures ParentTree([root]) && NoDup([root]) && Organized([root]) == [root]
  {
    assert AtDepth(root, 0);
    assert Kids(root, [root]) == [];
    assert Organizes([root], [root]);
    OrganizedUnique([root], [root], Organized([root]));
  }

  lemma LoneSection(root: Context)
    requires root.parent == null
    ensures SyncAll([root], {root}, 0, 1) == {}
  {
  }

  /** A level for the root, a node below it, and the end of that node. */
  ghost predicate SmallUse(states: seq<C.Shared>, steps: seq<C.Step>, root: Context, a: Context) {
    && |states| == 7
    && steps == [C.Acquire(0, root, Trace), C.StoreLevel(0), C.LoadLevel(0), C.Release(0),
                 C.Construct(a, root, true), C.Destroy(a)]
    && C.Behaviour(states, steps)
    && states[0].lvl == states[0].inh == map[root := Unset]
    && C.Free(states[0]) && C.Free(states[4]) && C.Free(states[5]) && C.Free(states[6])
    && !C.Free(states[1]) && !C.Free(states[2]) && !C.Free(states[3])
  }

  lemma BuildAndDrop(s4: C.Shared, root: Context, a: Context) returns (s5: C.Shared, s6: C.Shared)
    requires C.Free(s4) && a !in s4.lvl && root in s4.lvl && root in s4.inh
    ensures C.Next(s4, C.Construct(a, root, true), s5) && C.Next(s5, C.Destroy(a), s6)
    ensures C.Free(s5) && C.Free(s6)
  {
    s5 := s4.(lvl := s4.lvl[a := Unset], inh := s4.inh[a := C.Effective(s4, root)]);
    s6 := s5.(lvl := s5.lvl - {a}, inh := s5.inh - {a});
  }

  lemma SmallUseExists(root: Context, a: Context) returns (states: seq<C.Shared>, steps: seq<C.Step>)
    requires a != root
    ensures SmallUse(states, steps, root, a)
  {
    hide C.Next, C.Inv;
    var s0 := C.Shared(map[root := Unset], map[root := Unset], (t: C.Thread) => false, (t: C.Thread) => C.Outside);
    var s1, s2, s3 := C.EnterSection(s0, 0, root, Trace);
    var s4 := C.LeaveSection(s3, 0);
    FirstHeld([s0, s1, s2, s3, s4], [C.Acquire(0, root, Trace), C.StoreLevel(0), C.LoadLevel(0), C.Release(0)]);
    var s5, s6 := BuildAndDrop(s4, root, a);
    states := [s0, s1, s2, s3, s4, s5, s6];
    steps := [C.Acquire(0, root, Trace), C.StoreLevel(0), C.LoadLevel(0), C.Release(0), C.Construct(a, root, true),
              C.Destroy(a)];
  }

  lemma FirstHeld(states: seq<C.Shared>, steps: seq<C.Step>)
    requires C.Behaviour(states, steps) && |steps| == 4 && states[3].owner(0) && steps[3] == C.Release(0)
    ensures C.Free(states[4])
  {
    C.BehaviourInv(states, steps, 3);
    assert C.Next(states[3], steps[3], states[4]);
    C.HeldStep(states[3], steps[3], states[4], 0);
  }

  lemma SmallUseCuts(states: seq<C.Shared>, steps: seq<C.Step>, root: Context, a: Context)
    requires SmallUse(states, steps, root, a)
    ensures Cuts(states, [0, 4, 5, 6])
    ensures Calls(states, steps, [0, 4, 5, 6]) == [SetLevel(root, Trace), Construct(a), Destroy(a)]
  {
    hide C.Next, C.Free;
    assert Successive(states, 0, 4) && Successive(states, 4, 5) && Successive(states, 5, 6);
  }

  lemma SmallUseRegs(states: seq<C.Shared>, steps: seq<C.Step>, root: Context, a: Context)
    requires SmallUse(states, steps, root, a) && Cuts(states, [0, 4, 5, 6])
    requires root.parent == null && a.parent == root
    ensures var cuts := [0, 4, 5, 6];
      && Reg(states, steps, cuts, root, 0).order == [root]
      && Reg(states, steps, cuts, root, 1).order == [root] && Reg(states, steps, cuts, root, 1).organized
      && Reg(states, steps, cuts, root, 2).order == [root, a]
  {
    hide C.Next, C.Free, C.Behaviour, Cuts, Organized, ParentTree;
    LoneOrganized(root);
    var cuts := [0, 4, 5, 6];
    assert CallAt(states, steps, cuts, 0) == SetLevel(root, Trace);
    assert CallAt(states, steps, cuts, 1) == Construct(a);
    assert Reg(states, steps, cuts, root, 0).order == [root];
    assert Reg(states, steps, cuts, root, 1).order == [root];
    assert Pos([root], root) == 0;
    assert Insert([root], 0, a) == [root, a];
  }

  /** It is proper use, so what is said of properly used behaviours is said of something. */
  lemma ProperUseExists(root: Context, a: Context)
    returns (states: seq<C.Shared>, steps: seq<C.Step>, cuts: seq<nat>)
    requires root.parent == null && a.parent == root
    ensures C.Behaviour(states, steps) && Cuts(states, cuts) && ProperlyUsed(states, steps, cuts, root)
    ensures Calls(states, steps, cuts) == [SetLevel(root, Trace), Construct(a), Destroy(a)]
  {
    hide C.Next, C.Free, SyncAll, Organized, ParentTree, NextOrder;
    states, steps := SmallUseExists(root, a);
    cuts := [0, 4, 5, 6];
    SmallUseCuts(states, steps, root, a);
    SmallUseProper(states, steps, root, a);
  }

  lemma SmallUseProper(states: seq<C.Shared>, steps: seq<C.Step>, root: Context, a: Context)
    requires SmallUse(states, steps, root, a) && Cuts(states, [0, 4, 5, 6])
    requires root.parent == null && a.parent == root
    ensures ProperlyUsed(states, steps, [0, 4, 5, 6], root)
  {
    hide C.Next, C.Free, C.Behaviour, Cuts, SyncAll, Organized, ParentTree, NextOrder;
    var cuts := [0, 4, 5, 6];
    SmallUseRegs(states, steps, root, a);
    SmallUseWrites(states, steps);
    LoneSection(root);
    var st := Reg(states, steps, cuts, root, 0);
    assert Explicit(st.lvl[root := Trace]) == {root};
    assert Pos([root], root) == 0;
    assert Proper(states, steps, 0, 4, st, CallAt(states, steps, cuts, 0), Reg(states, steps, cuts, root, 1));
    assert CallAt(states, steps, cuts, 1) == Construct(a) && CallAt(states, steps, cuts, 2) == Destroy(a);
  }

  lemma SmallUseWrites(states: seq<C.Shared>, steps: seq<C.Step>)
    requires |states| == 7 && |steps| == 6
    requires !steps[0].Write? && !steps[1].Write? && !steps[2].Write? && !steps[3].Write?
    ensures C.Written(states, steps, 0, 4) == {}
  {
    assert C.Written(states, steps, 0, 1) == {} && C.Written(states, steps, 0, 2) == {};
    assert C.Written(states, steps, 0, 3) == {};
  }
}
