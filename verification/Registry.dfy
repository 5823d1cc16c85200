/** The global registry: construction and destruction of contexts, set_level and effective_level, on
    the linked nodes. Each operation is a transition of the state machine in Levels. */
module Registry {
  import opened Contexts
  import opened Sequences
  import opened Preorder
  import Sort = Organize
  import Walk = Inheritance
  import opened ListEdits
  import opened Levels
  import opened Runs

  ghost function Lvls(s: seq<Context>): map<Context, Level>
    reads (set x | x in s)`lvl
  {
    map x | x in s :: x.lvl
  }

  ghost function Inhs(s: seq<Context>): map<Context, Level>
    reads (set x | x in s)`inherited
  {
    map x | x in s :: x.inherited
  }

  lemma LvlsAre(s: seq<Context>, m: map<Context, Level>)
    requires forall x :: x in s ==> x in m && x.lvl == m[x]
    requires forall x :: x in m ==> x in s
    ensures Lvls(s) == m
  {
  }

  lemma InhsAre(s: seq<Context>, m: map<Context, Level>)
    requires forall x :: x in s ==> x in m && x.inherited == m[x]
    requires forall x :: x in m ==> x in s
    ensures Inhs(s) == m
  {
  }

  class Registry {
    const root: Context
    var organized: bool
    ghost var order: seq<Context>
    ghost var past: seq<State>   // all states so far, the present one last
    ghost var ops: seq<Op>       // the calls that led to them

    ghost function St(): State
      reads `order, `organized, order
    {
      State(order, organized, Lvls(order), Inhs(order))
    }

    ghost predicate Ok()
      reads this, order
    {
      Sound() && Recorded()
    }

    ghost predicate Sound()
      reads `order, `organized, order
    {
      Valid(St()) && Linked(order) && order[0] == root
    }

    /** The history is a run of the state machine. */
    ghost predicate Recorded()
      reads this, order
    {
      Run(past, ops) && past[|ops|] == St()
    }

    constructor ()
      ensures Ok() && Init(St()) && fresh(root) && past == [St()] && ops == []
    {
      var r := new Context(null);
      root, organized, order := r, false, [r];
      new;
      assert St().lvl == map[r := Unset] && St().inh == map[r := Unset];
      InitValid(St());
      past, ops := [St()], [];
      InitRuns(St());
    }

    /** Write the transition just made into the history. */
    ghost method Record(st: State, op: Op)
      requires Run(past, ops) && past[|ops|] == st && Valid(st) && Next(st, op, St())
      modifies `past, `ops
      ensures Recorded() && past == old(past) + [St()] && ops == old(ops) + [op]
    {
      hide Run, Valid, Next;
      RunGrows(past, ops, op, St());
      past, ops := past + [St()], ops + [op];
    }

    /** Link the new node c in behind the node at i and let it inherit. */
    method Attach(at: Context, c: Context, inherited: Level, ghost i: nat)
      requires Linked(order) && NoDup(order) && i < |order| && order[i] == at
      requires c !in order
      modifies `order, c`next, c`prev, c`inherited, at`next, (set x | x in order)`prev
      ensures order == Insert(old(order), i, c) && |order| > 0 && order[0] == old(order[0])
      ensures Linked(order) && c.inherited == inherited
    {
      hide Insert, NoDup;
      c.inherited := inherited;
      LinkBehind(at, c, order, i);
      InsertPlaces(order, i, c);
      order := Insert(order, i, c);
    }

    /** A new context below parent. */
    method Construct(parent: Context) returns (c: Context)
      requires Ok() && parent in order
      modifies this, order
      ensures Ok() && fresh(c) && c.parent == parent
      ensures Constructs(old(St()), c, St())
      ensures past == old(past) + [St()] && ops == old(ops) + [Op.Construct(c)]
    {
      hide Sound, Constructs, Run;
      ghost var st := St();
      c := Create(parent);
      Record(st, Op.Construct(c));
    }

    method Create(parent: Context) returns (c: Context)
      requires Sound() && parent in order
      modifies `order, order
      ensures Sound() && Valid(old(St())) && fresh(c) && c.parent == parent
      ensures Constructs(old(St()), c, St())
    {
      hide Valid, Shaped, ParentTree, IsPreorder, NoDup, Insert, Linked, Constructs;
      ghost var st := St();
      ValidFacts(st);
      c := new Context(parent);
      if organized {
        Attach(parent, c, parent.EffectiveLevel(), Pos(order, parent));
      } else {
        Attach(root, c, Unset, 0);
      }
      Constructed(st, c, St());
    }

    /** The end of a context. The root stays; any other context is unlinked. */
    method Destroy(c: Context)
      requires Ok() && c in order
      requires c != root ==> forall x :: x in order ==> x.parent != c
      modifies this, order
      ensures Ok()
      ensures if c == root then St() == old(St()) && past == old(past) && ops == old(ops) else
              && Destroys(old(St()), c, St())
              && past == old(past) + [St()] && ops == old(ops) + [Op.Destroy(c)]
    {
      hide Valid, Shaped, ParentTree, IsPreorder, NoDup, Remove, Destroys, Run;
      RootAlone(St(), c);
      if c.prev == null {
        return;
      }
      ghost var st := St();
      Unlink(c);
      Record(st, Op.Destroy(c));
    }

    method Unlink(c: Context)
      requires Sound() && c in order && c != root && forall x :: x in order ==> x.parent != c
      modifies `order, order
      ensures Sound() && Valid(old(St())) && Destroys(old(St()), c, St())
    {
      hide Valid, Shaped, ParentTree, IsPreorder, NoDup, Remove, Destroys;
      ghost var st, i := St(), Pos(order, c);
      ValidFacts(st);
      RootAlone(st, c);
      Detach(c, i);
      Destroyed(st, c, St());
    }

    method Detach(c: Context, ghost i: nat)
      requires Linked(order) && NoDup(order) && 0 < i < |order| && order[i] == c
      modifies `order, (set x | x in order)`next, (set x | x in order)`prev
      ensures order == Remove(old(order), i) && |order| > 0 && order[0] == old(order[0])
      ensures Linked(order)
    {
      hide Remove;
      assert c.prev == order[i - 1] && c.next == Nth(order, i + 1);
      c.prev.next := c.next;
      if c.next != null {
        c.next.prev := c.prev;
      }
      RemoveLinks(order, i);
      RemovePlaces(order, i);
      order := Remove(order, i);
    }

    method EnsureOrganized()
      requires Linked(order) && ParentTree(order) && NoDup(order) && order[0] == root
      modifies `organized, `order, (set x | x in order)`next, (set x | x in order)`prev
      ensures Linked(order) && organized
      ensures if old(organized) then order == old(order) else Organizes(old(order), order)
    {
      hide ParentTree, NoDup, Organizes;
      if organized {
        return;
      }
      order := Sort.Organize(root, order, set x | x in order);
      organized := true;
    }

    /** The part of set_level before the loop: store the level, organize, find the level to pass down. */
    method StoreLevel(n: Context, newLevel: Level) returns (lvl: Level)
      requires Linked(order) && ParentTree(order) && NoDup(order) && order[0] == root && n in order
      modifies n`lvl, `organized, `order, (set x | x in order)`next, (set x | x in order)`prev
      ensures Linked(order) && organized && n.lvl == newLevel
      ensures if old(organized) then order == old(order) else Organizes(old(order), order)
      ensures lvl == if newLevel != Unset then newLevel else old(n.inherited)
    {
      hide ParentTree, NoDup, Organizes, Linked;
      n.lvl := newLevel;
      EnsureOrganized();
      lvl := n.lvl;
      if lvl == Unset {
        lvl := n.inherited;
      }
    }

    /** The rest of set_level: from the state st before the call, with the level stored and the list
        organized, passing the level down completes the transition. */
    method SpreadLevel(n: Context, lvl: Level, ghost st: State, ghost newLevel: Level)
      requires Linked(order) && organized && Valid(st) && n in st.order && n in order
      requires if st.organized then order == st.order else Organizes(st.order, order)
      requires forall x :: x in order ==> x in st.lvl && x in st.inh
      requires forall x :: x in order ==> x.lvl == if x == n then newLevel else st.lvl[x]
      requires forall x :: x in order ==> x.inherited == st.inh[x]
      requires lvl == Resolve(newLevel, st.inh[n])
      modifies (set x | x in order)`inherited
      ensures Linked(order) && SetsLevel(st, n, newLevel, St()) && Valid(St())
    {
      hide Valid, Organizes, SetsLevel, Linked, Resolve, Walk.SyncAll;
      ghost var E := set x | x in order && x.lvl != Unset;
      PassDown(n, lvl, order, E, Pos(order, n));
      LevelSet(st, n, newLevel, order, E, Walk.SyncAll(order, E, Pos(order, n), Pos(order, n) + 1));
    }

    /** Set the level of n and pass its effective level down. */
    method SetLevel(n: Context, newLevel: Level)
      requires Ok() && n in order
      modifies this, order
      ensures Ok() && SetsLevel(old(St()), n, newLevel, St())
      ensures past == old(past) + [St()] && ops == old(ops) + [Op.SetLevel(n, newLevel)]
    {
      hide Sound, SetsLevel, Run;
      ghost var st := St();
      ChangeLevel(n, newLevel);
      Record(st, Op.SetLevel(n, newLevel));
    }

    method ChangeLevel(n: Context, newLevel: Level)
      requires Sound() && n in order
      modifies `organized, `order, order
      ensures Sound() && Valid(old(St())) && SetsLevel(old(St()), n, newLevel, St())
    {
      hide Valid, ParentTree, NoDup, Organizes, SetsLevel, Linked;
      ghost var st := St();
      ValidFacts(st);
      var lvl := StoreLevel(n, newLevel);
      StillThere(st, order, n);
      SpreadLevel(n, lvl, st, newLevel);
    }
  }

  lemma RemoveLinks(s: seq<Context>, i: nat)
    requires 0 < i < |s| && NoDup(s)
    requires s[i - 1].next == Nth(s, i + 1) && (i + 1 < |s| ==> s[i + 1].prev == s[i - 1])
    requires forall j {:trigger s[j].next} :: 0 <= j < |s| && j != i - 1 && j != i ==> s[j].next == Nth(s, j + 1)
    requires forall j {:trigger s[j].prev} :: 0 <= j < |s| && j != i && j != i + 1 ==> s[j].prev == Nth(s, j - 1)
    ensures Linked(Remove(s, i))
  {
    var t := Remove(s, i);
    RemovePlaces(s, i);
    forall j | 0 <= j < |t| ensures t[j].next == Nth(t, j + 1) && t[j].prev == Nth(t, j - 1) {
    }
  }

  lemma RootAlone(st: State, c: Context)
    requires Valid(st) && c in st.order && Linked(st.order)
    ensures c.prev == null <==> c == st.order[0]
    ensures Pos(st.order, c) == 0 <==> c == st.order[0]
  {
  }

  lemma Destroyed(st: State, c: Context, st': State)
    requires Valid(st) && c in st.order && c != st.order[0] && forall x :: x in st.order ==> x.parent != c
    requires st'.organized == st.organized && st'.order == Remove(st.order, Pos(st.order, c))
    requires st'.lvl == Lvls(st'.order) && st'.inh == Inhs(st'.order)
    requires forall x :: x in st.order ==> x.lvl == st.lvl[x] && x.inherited == st.inh[x]
    ensures Destroys(st, c, st') && Valid(st')
  {
    RemovePlaces(st.order, Pos(st.order, c));
    LvlsAre(st'.order, st.lvl - {c});
    InhsAre(st'.order, st.inh - {c});
    DestroyValid(st, c, st');
  }

  lemma Constructed(st: State, c: Context, st': State)
    requires Valid(st) && c !in st.order && c.parent != null && c.parent in st.order
    requires st'.organized == st.organized
    requires st'.order == Insert(st.order, if st.organized then Pos(st.order, c.parent) else 0, c)
    requires st'.lvl == Lvls(st'.order) && st'.inh == Inhs(st'.order)
    requires forall x :: x in st.order ==> x.lvl == st.lvl[x] && x.inherited == st.inh[x]
    requires c.lvl == Unset && c.inherited == if st.organized then Effective(st, c.parent) else Unset
    ensures Constructs(st, c, st') && Valid(st')
  {
    LvlsAre(st.order, st.lvl);
    InhsAre(st.order, st.inh);
    InsertMaps(st.order, if st.organized then Pos(st.order, c.parent) else 0, c);
    ConstructValid(st, c, st');
  }

  lemma InsertMaps(s: seq<Context>, i: nat, c: Context)
    requires i < |s|
    ensures Lvls(Insert(s, i, c)) == Lvls(s)[c := c.lvl]
    ensures Inhs(Insert(s, i, c)) == Inhs(s)[c := c.inherited]
  {
    forall x | x in Insert(s, i, c) || x in s || x == c ensures x in Insert(s, i, c) <==> x in s || x == c {
      InsertMembers(s, i, c, x);
    }
  }

  lemma InsertLinks(s: seq<Context>, i: nat, c: Context)
    requires i < |s| && NoDup(s) && c !in s
    requires c.next == Nth(s, i + 1) && c.prev == s[i] && s[i].next == c
    requires i + 1 < |s| ==> s[i + 1].prev == c
    requires forall j {:trigger s[j].next} :: 0 <= j < |s| && j != i ==> s[j].next == Nth(s, j + 1)
    requires forall j {:trigger s[j].prev} :: 0 <= j < |s| && j != i + 1 ==> s[j].prev == Nth(s, j - 1)
    ensures Linked(Insert(s, i, c))
  {
    var t := Insert(s, i, c);
    InsertPlaces(s, i, c);
    forall j | 0 <= j < |t| ensures t[j].next == Nth(t, j + 1) && t[j].prev == Nth(t, j - 1) {
    }
  }

  /** Link c in right behind the node at i. */
  method LinkBehind(p: Context, c: Context, ghost s: seq<Context>, ghost i: nat)
    requires Linked(s) && NoDup(s) && i < |s| && s[i] == p && c !in s
    modifies c`next, c`prev, p`next, (set x | x in s)`prev
    ensures Linked(Insert(s, i, c))
  {
    assert p.next == Nth(s, i + 1);
    c.next := p.next;
    p.next := c;
    if c.next != null {
      c.next.prev := c;
    }
    c.prev := p;
    InsertLinks(s, i, c);
  }

  /** What callers see of the registry is documented. */
  ghost predicate ShowsDocumented(r: Registry)
    reads r, r.order
  {
    forall x, n: nat :: x in r.order && AtDepth(x, n) ==> x.EffectiveLevel() == Nearest(Lvls(r.order), x, n)
  }

  /** Callers see documented levels exactly if the state of the machine is documented. */
  lemma ShowsIffDocumented(r: Registry)
    requires r.Ok()
    ensures ShowsDocumented(r) <==> Documented(r.St())
  {
    forall x | x in r.order ensures x.EffectiveLevel() == Effective(r.St(), x) {
    }
  }

  /** However the registry was used: if every call of set_level met its condition, callers see documented
      levels, and the first call that did not shows at once. */
  lemma HistoryExact(r: Registry)
    requires r.Ok()
    ensures CarefulUpTo(r.past, r.ops, |r.ops|) ==> ShowsDocumented(r)
    ensures |r.ops| > 0 && CarefulUpTo(r.past, r.ops, |r.ops| - 1) ==>
              (ShowsDocumented(r) <==> CarefulUpTo(r.past, r.ops, |r.ops|))
  {
    hide Valid, Next, Init, Careful, Documented, ShowsDocumented, Linked;
    ShowsIffDocumented(r);
    RunExact(r.past, r.ops, |r.ops|);
    RunValid(r.past, r.ops, |r.ops|);
    if |r.ops| > 0 {
      RunExact(r.past, r.ops, |r.ops| - 1);
    }
  }

  // ---------- Passing a level down ----------

  method FindNextSibling(node: Context, ghost s: seq<Context>, ghost j: nat) returns (r: Context?)
    requires Linked(s) && j < |s| && s[j] == node
    ensures r == Nth(s, Walk.NextSibling(s, j))
  {
    r := node.next;
    ghost var k := j + 1;
    while r != null
      invariant j < k <= |s| && r == Nth(s, k)
      invariant Walk.NextSibling(s, j) == Walk.NextFrom(s, node.parent, k)
      decreases |s| - k
    {
      if r.parent == node.parent {
        return;
      }
      r := r.next;
      k := k + 1;
    }
  }

  ghost predicate ExplicitIn(s: seq<Context>, E: set<Context>)
    reads (set x | x in s)`lvl
  {
    forall x :: x in s ==> (x in E <==> x.lvl != Unset)
  }

  method SyncInheritedLevels(branch: Context, lvl: Level, ghost s: seq<Context>, ghost E: set<Context>,
                             ghost j: nat, ghost nodes: set<Context>)
    returns (r: Context?)
    requires Linked(s) && ExplicitIn(s, E) && forall x :: x in s ==> x in nodes
    requires j < |s| && s[j] == branch
    modifies nodes`inherited
    ensures r == Nth(s, Walk.Sync(s, E, j).1)
    ensures forall x :: x in s ==> x.inherited == if x in Walk.Sync(s, E, j).0 then lvl else old(x.inherited)
    decreases |s| - j
  {
    hide Walk.SyncKids, Walk.Resumed;
    if branch.lvl != Unset {
      r := FindNextSibling(branch, s, j);
      return;
    }
    branch.inherited := lvl;
    var i := branch.next;
    if i == null {
      return null;
    }
    if i.parent == branch.parent {
      r := SyncInheritedLevels(i, lvl, s, E, j + 1, nodes);
      return;
    }
    Walk.SyncKidsStart(s, E, j);
    ghost var W, k := {branch}, j + 1;
    while i != null && i.parent == branch
      invariant j < k <= |s| && i == Nth(s, k)
      invariant Linked(s) && ExplicitIn(s, E)
      invariant forall x :: x in s ==> x.inherited == if x in W then lvl else old(x.inherited)
      invariant Walk.Sync(s, E, j) == Walk.Resumed(s, E, j, k, W)
      decreases |s| - k
    {
      i := SyncInheritedLevels(i, lvl, s, E, k, nodes);
      Walk.SyncKidsStep(s, E, j, k, W);
      W, k := W + Walk.Sync(s, E, k).0, Walk.Sync(s, E, k).1;
    }
    Walk.SyncKidsEnd(s, E, j, k, W);
    r := i;
  }

  /** The loop of set_level over the children of n. The frame needs no order of the list: only heirs of n
      can change. */
  method PassDown(n: Context, lvl: Level, ghost s: seq<Context>, ghost E: set<Context>, ghost j: nat)
    requires Linked(s) && ExplicitIn(s, E) && j < |s| && s[j] == n
    modifies (set x | x in s)`inherited
    ensures Linked(s)
    ensures forall x :: x in s ==> x.inherited == if x in Walk.SyncAll(s, E, j, j + 1) then lvl else old(x.inherited)
    ensures forall x :: x in s && x.inherited != old(x.inherited) ==> Walk.Heir(E, n, x) && x.inherited == lvl
  {
    hide Walk.Sync, Walk.Heir;
    var i := n.next;
    ghost var W, k := {}, j + 1;
    while i != null && i.parent == n
      invariant j < k <= |s| && i == Nth(s, k)
      invariant Linked(s) && ExplicitIn(s, E)
      invariant forall x :: x in s ==> x.inherited == if x in W then lvl else old(x.inherited)
      invariant Walk.SyncAll(s, E, j, j + 1) == W + Walk.SyncAll(s, E, j, k)
      decreases |s| - k
    {
      var _ := SyncInheritedLevels(i, lvl, s, E, k, set x | x in s);
      i := FindNextSibling(i, s, k);
      W, k := W + Walk.Sync(s, E, k).0, Walk.NextSibling(s, k);
    }
    assert W + {} == W;
    forall x | x in Walk.SyncAll(s, E, j, j + 1) ensures Walk.Heir(E, n, x) {
      Walk.SyncAllHeirs(s, E, j, j + 1, x);
    }
  }

  /** The nodes of an organized list are the nodes it was made from. */
  lemma SameNodes(st: State, t: seq<Context>)
    requires Valid(st) && if st.organized then t == st.order else Organizes(st.order, t)
    ensures forall x :: x in t <==> x in st.order
  {
    if !st.organized { SameMembers(st.order, t); }
  }

  lemma StillThere(st: State, t: seq<Context>, n: Context)
    requires Valid(st) && n in st.order
    requires if st.organized then t == st.order else Organizes(st.order, t)
    ensures |t| > 0 && t[0] == st.order[0] && n in t && n in st.inh
    ensures forall x :: x in t ==> x in st.order
  {
    SameNodes(st, t);
  }

  lemma LevelStored(st: State, n: Context, l: Level, s: seq<Context>, E: set<Context>)
    requires Valid(st) && n in st.order
    requires forall x :: x in s <==> x in st.order
    requires ExplicitIn(s, E) && forall x :: x in E ==> x in s
    requires forall x :: x in st.order ==> x.lvl == if x == n then l else st.lvl[x]
    ensures Lvls(s) == st.lvl[n := l]
    ensures Explicit(Lvls(s)) == E
  {
    LvlsAre(s, st.lvl[n := l]);
  }

  lemma LevelPassed(st: State, s: seq<Context>, W: set<Context>, v: Level)
    requires Valid(st)
    requires forall x :: x in s <==> x in st.order
    requires forall x :: x in s ==> x.inherited == if x in W then v else st.inh[x]
    ensures Inhs(s) == map x | x in st.inh :: if x in W then v else st.inh[x]
  {
    InhsAre(s, map x | x in st.inh :: if x in W then v else st.inh[x]);
  }

  lemma LevelSet(st: State, n: Context, l: Level, s: seq<Context>, E: set<Context>, W: set<Context>)
    requires Valid(st) && n in st.order && n in s && n in st.inh
    requires if st.organized then s == st.order else Organizes(st.order, s)
    requires forall x :: x in s ==> x in st.lvl && x in st.inh
    requires ExplicitIn(s, E) && forall x :: x in E ==> x in s
    requires W == Walk.SyncAll(s, E, Pos(s, n), Pos(s, n) + 1)
    requires forall x :: x in s ==> x.lvl == if x == n then l else st.lvl[x]
    requires forall x :: x in s ==> x.inherited == if x in W then Resolve(l, st.inh[n]) else st.inh[x]
    ensures var st' := State(s, true, Lvls(s), Inhs(s)); SetsLevel(st, n, l, st') && Valid(st')
  {
    hide Valid, Organizes, Walk.SyncAll, Explicit, ExplicitIn, Resolve;
    SameNodes(st, s);
    LevelStored(st, n, l, s, E);
    LevelPassed(st, s, W, Resolve(l, st.inh[n]));
    SetLevelValid(st, n, l, State(s, true, Lvls(s), Inhs(s)));
  }
}
