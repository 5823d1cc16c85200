/** set_level under the mutex against effective_level without it: every interleaving of the single
    atomic accesses, with sequentially consistent memory. The walk of set_level may visit any nodes in
    any order here, so the results hold for the walk the code makes; Quiescent says what follows when it
    visits the nodes that the list prescribes. */
module Concurrency {
  import opened Contexts

  type Thread = nat

  /** Where a thread stands inside a locked section. */
  datatype Pc =
    | Outside
    | Locked(node: Context, level: Level)                  // g_mut taken
    | Stored(node: Context)                                // m_lvl stored, list organized
    | SawUnset(node: Context)                              // m_lvl loaded again: unset
    | Walking(node: Context, passed: Level)                // the level to pass down is known
    | Writing(node: Context, passed: Level, at: Context)   // at was seen without explicit level

  datatype Shared = Shared(
    lvl: map<Context, Level>, inh: map<Context, Level>, owner: Thread -> bool, pc: Thread -> Pc)

  /** effective_level in one instant. */
  function Effective(s: Shared, x: Context): Level
    requires x in s.lvl && x in s.inh
  {
    Resolve(s.lvl[x], s.inh[x])
  }

  datatype Step =
    | Acquire(t: Thread, n: Context, l: Level)
    | StoreLevel(t: Thread)
    | LoadLevel(t: Thread)
    | LoadInherited(t: Thread)
    | Check(t: Thread, b: Context)
    | Write(t: Thread)
    | Release(t: Thread)
    | Construct(c: Context, p: Context, organized: bool)
    | Destroy(c: Context)

  ghost predicate Free(s: Shared) {
    forall t :: !s.owner(t)
  }

  function Put<T>(f: Thread -> T, t: Thread, v: T): Thread -> T {
    (u: Thread) => if u == t then v else f(u)
  }

  function At(s: Shared, t: Thread, pc: Pc): Shared {
    s.(pc := Put(s.pc, t, pc))
  }

  /** One atomic access by one thread. The constructor and destructor hold the mutex throughout and
      touch no other node, so they are one step each. */
  ghost predicate Next(s: Shared, step: Step, s': Shared) {
    match step
    case Acquire(t, n, l) =>
      Free(s) && s.pc(t) == Outside && n in s.lvl
      && s' == At(s.(owner := Put(s.owner, t, true)), t, Locked(n, l))
    case StoreLevel(t) =>
      s.pc(t).Locked? && s.pc(t).node in s.lvl
      && s' == At(s.(lvl := s.lvl[s.pc(t).node := s.pc(t).level]), t, Stored(s.pc(t).node))
    case LoadLevel(t) =>
      s.pc(t).Stored? && s.pc(t).node in s.lvl
      && var n := s.pc(t).node;
         s' == At(s, t, if s.lvl[n] != Unset then Walking(n, s.lvl[n]) else SawUnset(n))
    case LoadInherited(t) =>
      s.pc(t).SawUnset? && s.pc(t).node in s.inh
      && s' == At(s, t, Walking(s.pc(t).node, s.inh[s.pc(t).node]))
    case Check(t, b) =>
      s.pc(t).Walking? && b in s.lvl && b != s.pc(t).node
      && s' == if s.lvl[b] != Unset then s else At(s, t, Writing(s.pc(t).node, s.pc(t).passed, b))
    case Write(t) =>
      s.pc(t).Writing?
      && s' == At(s.(inh := s.inh[s.pc(t).at := s.pc(t).passed]), t, Walking(s.pc(t).node, s.pc(t).passed))
    case Release(t) =>
      s.pc(t).Walking?
      && s' == At(s.(owner := Put(s.owner, t, false)), t, Outside)
    case Construct(c, p, organized) =>
      Free(s) && c !in s.lvl && p in s.lvl && p in s.inh
      && s' == s.(lvl := s.lvl[c := Unset], inh := s.inh[c := if organized then Effective(s, p) else Unset])
    case Destroy(c) =>
      Free(s) && c in s.lvl
      && s' == s.(lvl := s.lvl - {c}, inh := s.inh - {c})
  }

  ghost predicate SameNodes(s: Shared) {
    (forall x :: x in s.lvl ==> x in s.inh) && (forall x :: x in s.inh ==> x in s.lvl)
  }

  ghost predicate Init(s: Shared) {
    && SameNodes(s)
    && (forall t :: !s.owner(t) && s.pc(t) == Outside)
  }

  // ---------- What the mutex buys ----------

  /** What a thread may rely on at its program point. */
  ghost predicate Sure(s: Shared, t: Thread) {
    && (s.pc(t) != Outside ==> s.owner(t) && s.pc(t).node in s.lvl && s.pc(t).node in s.inh)
    && (s.pc(t).SawUnset? ==> s.lvl[s.pc(t).node] == Unset)
    && (s.pc(t).Walking? || s.pc(t).Writing? ==> s.pc(t).passed == Effective(s, s.pc(t).node))
    && (s.pc(t).Writing? ==> s.pc(t).at != s.pc(t).node && s.pc(t).at in s.lvl && s.lvl[s.pc(t).at] == Unset)
  }

  /** At most one thread is inside; what it saw still holds; the level it passes down is, at every
      instant of the walk, the effective level of the node it was called on. */
  ghost predicate Inv(s: Shared) {
    && SameNodes(s)
    && (forall t, u :: s.owner(t) && s.owner(u) ==> t == u)
    && (forall t :: Sure(s, t))
  }

  lemma NextInv(s: Shared, step: Step, s': Shared)
    requires Inv(s) && Next(s, step, s')
    ensures Inv(s')
  {
    if step.Write? {
      assert Sure(s, step.t);
    }
    forall t ensures Sure(s', t) {
      assert Sure(s, t);
      if !step.Construct? && !step.Destroy? {
        assert Sure(s, step.t);
      }
    }
  }

  /** Inherited levels are written only while the node has no explicit level, and never in the same
      access that changes the explicit level. */
  lemma WritesOnlyUnset(s: Shared, step: Step, s': Shared, x: Context)
    requires Inv(s) && Next(s, step, s')
    requires x in s.lvl && x in s'.lvl
    ensures x in s.inh && x in s'.inh
    ensures s'.inh[x] != s.inh[x] ==> s.lvl[x] == Unset && s'.lvl[x] == Unset
  {
    NextInv(s, step, s');
    if step.Write? {
      assert Sure(s, step.t);
    }
  }

  // ---------- Behaviours and readers ----------

  /** Every interleaving: states, and the access that leads from each to the next. */
  ghost predicate Behaviour(states: seq<Shared>, steps: seq<Step>) {
    && |states| == |steps| + 1
    && Init(states[0])
    && (forall i :: 0 <= i < |steps| ==> Next(states[i], steps[i], states[i + 1]))
  }

  lemma {:induction false} BehaviourInv(states: seq<Shared>, steps: seq<Step>, i: nat)
    requires Behaviour(states, steps) && i < |states|
    ensures Inv(states[i])
  {
    if i > 0 {
      BehaviourInv(states, steps, i - 1);
      NextInv(states[i - 1], steps[i - 1], states[i]);
    }
  }

  ghost predicate AliveFromTo(states: seq<Shared>, x: Context, i: nat, j: nat)
    requires i <= j < |states|
  {
    forall k :: i <= k <= j ==> x in states[k].lvl && x in states[k].inh
  }

  /** If x had no explicit level at i, what is read from its inherited level at j was its effective
      level at some instant between. */
  lemma {:induction false} LastUnset(states: seq<Shared>, steps: seq<Step>, x: Context, i: nat, j: nat)
    returns (k: nat)
    requires Behaviour(states, steps) && i <= j < |states| && AliveFromTo(states, x, i, j)
    requires states[i].lvl[x] == Unset
    ensures i <= k <= j && states[k].lvl[x] == Unset && states[k].inh[x] == states[j].inh[x]
    decreases j
  {
    if states[j].lvl[x] == Unset {
      k := j;
    } else {
      BehaviourInv(states, steps, j - 1);
      WritesOnlyUnset(states[j - 1], steps[j - 1], states[j], x);
      k := LastUnset(states, steps, x, i, j - 1);
    }
  }

  /** effective_level is linearizable although it takes no lock: whatever the other threads do between
      its two loads, it returns the effective level the node had at one instant between them. */
  lemma EffectiveLevelLinearizable(states: seq<Shared>, steps: seq<Step>, x: Context, i: nat, j: nat)
    requires Behaviour(states, steps) && i <= j < |states| && AliveFromTo(states, x, i, j)
    ensures exists k :: i <= k <= j && Effective(states[k], x) == Resolve(states[i].lvl[x], states[j].inh[x])
  {
    if states[i].lvl[x] == Unset {
      var k := LastUnset(states, steps, x, i, j);
      assert Effective(states[k], x) == states[j].inh[x];
    } else {
      assert Effective(states[i], x) == states[i].lvl[x];
    }
  }

  // ---------- What a locked section does ----------

  /** Thread t holds the mutex in all states after i up to j. */
  ghost predicate Inside(states: seq<Shared>, t: Thread, i: nat, j: nat)
    requires i <= j < |states|
  {
    forall k :: i < k <= j ==> states[k].owner(t)
  }

  /** A whole call set_level(l) on n by t: the mutex is taken at step i and released at step r. */
  ghost predicate Section(
      states: seq<Shared>, steps: seq<Step>, t: Thread, n: Context, l: Level, i: nat, r: nat)
    requires Behaviour(states, steps)
  {
    i < r < |steps| && steps[i] == Acquire(t, n, l) && steps[r] == Release(t) && Inside(states, t, i, r)
  }

  /** The nodes whose inherited level is written in the steps from i up to j. */
  ghost function Written(states: seq<Shared>, steps: seq<Step>, i: nat, j: nat): set<Context>
    requires i <= j <= |steps| < |states|
  {
    if i == j then {} else
    Written(states, steps, i, j - 1)
    + match steps[j - 1]
      case Write(t) => if states[j - 1].pc(t).Writing? then {states[j - 1].pc(t).at} else {}
      case _ => {}
  }

  /** The inherited levels of b with the passed level at the nodes of V. */
  function Spread(b: Shared, n: Context, l: Level, V: set<Context>): (m: map<Context, Level>)
    requires n in b.inh
    ensures m.Keys == b.inh.Keys
    ensures forall x :: x in b.inh ==> m[x] == if x in V then Resolve(l, b.inh[n]) else b.inh[x]
  {
    map x | x in b.inh :: if x in V then Resolve(l, b.inh[n]) else b.inh[x]
  }

  /** What a section entered at b has done when its thread stands where it stands in s, having written
      the nodes of V. */
  ghost predicate SectionSoFar(b: Shared, s: Shared, t: Thread, n: Context, l: Level, V: set<Context>)
    requires n in b.lvl && SameNodes(b)
  {
    && s.pc(t) != Outside && s.pc(t).node == n
    && s.lvl == (if s.pc(t).Locked? then b.lvl else b.lvl[n := l])
    && s.inh == Spread(b, n, l, V)
    && (s.pc(t).Locked? ==> s.pc(t).level == l)
    && (s.pc(t).SawUnset? ==> l == Unset)
    && (s.pc(t).Walking? || s.pc(t).Writing? ==> s.pc(t).passed == Resolve(l, b.inh[n]))
    && (!s.pc(t).Walking? && !s.pc(t).Writing? ==> V == {})
    && (forall x :: x in V ==> x in b.lvl && x != n && b.lvl[x] == Unset)
  }

  /** While a thread is inside, every access to the levels is its own. */
  lemma OnlyOwnerMoves(s: Shared, step: Step, s': Shared, t: Thread)
    requires Inv(s) && Next(s, step, s') && s.owner(t)
    ensures !step.Construct? && !step.Destroy? && !step.Acquire? && step.t == t
  {
    if !step.Construct? && !step.Destroy? && !step.Acquire? {
      assert Sure(s, step.t);
    }
  }

  lemma {:induction false} SectionProgress(
      states: seq<Shared>, steps: seq<Step>, t: Thread, n: Context, l: Level, i: nat, j: nat)
    requires Behaviour(states, steps) && i < j < |states| && steps[i] == Acquire(t, n, l)
    requires Inside(states, t, i, j)
    ensures n in states[i].lvl && SameNodes(states[i])
    ensures SectionSoFar(states[i], states[j], t, n, l, Written(states, steps, i, j))
    decreases j
  {
    hide SectionSoFar, Inv;
    BehaviourInv(states, steps, i);
    assert Next(states[i], steps[i], states[i + 1]);
    if j == i + 1 {
      SectionStart(states[i], states[j], t, n, l);
      assert Written(states, steps, i, i) == {} && Written(states, steps, i, j) == {};
    } else {
      SectionProgress(states, steps, t, n, l, i, j - 1);
      BehaviourInv(states, steps, j - 1);
      assert Next(states[j - 1], steps[j - 1], states[j]);
      OnlyOwnerMoves(states[j - 1], steps[j - 1], states[j], t);
      var V := Written(states, steps, i, j - 1);
      if steps[j - 1].Write? {
        SectionWrite(states[i], states[j - 1], states[j], t, n, l, V);
      } else {
        SectionStep(states[i], states[j - 1], steps[j - 1], states[j], t, n, l, V);
        assert V + {} == V;
      }
    }
  }

  lemma SectionStart(b: Shared, s: Shared, t: Thread, n: Context, l: Level)
    requires Inv(b) && Next(b, Acquire(t, n, l), s)
    ensures n in b.lvl && SameNodes(b) && SectionSoFar(b, s, t, n, l, {})
  {
  }

  lemma SectionStep(
      b: Shared, s: Shared, step: Step, s': Shared, t: Thread, n: Context, l: Level, V: set<Context>)
    requires n in b.lvl && SameNodes(b) && SectionSoFar(b, s, t, n, l, V)
    requires Inv(s) && Next(s, step, s') && s'.owner(t)
    requires !step.Construct? && !step.Destroy? && !step.Acquire? && !step.Write? && step.t == t
    ensures SectionSoFar(b, s', t, n, l, V)
  {
    hide Spread;
  }

  lemma SectionWrite(b: Shared, s: Shared, s': Shared, t: Thread, n: Context, l: Level, V: set<Context>)
    requires n in b.lvl && SameNodes(b) && SectionSoFar(b, s, t, n, l, V)
    requires Inv(s) && Next(s, Write(t), s')
    ensures SectionSoFar(b, s', t, n, l, V + {s.pc(t).at})
  {
    hide Spread;
    assert Sure(s, t);
    SpreadOne(b, n, l, V, s.pc(t).at);
  }

  lemma SpreadOne(b: Shared, n: Context, l: Level, V: set<Context>, x: Context)
    requires n in b.inh && x in b.inh
    ensures Spread(b, n, l, V)[x := Resolve(l, b.inh[n])] == Spread(b, n, l, V + {x})
  {
  }

  /** What a whole section leaves is a function of the state in which the mutex was taken and of the set
      of nodes written: the stored level, and the passed level at exactly those nodes. */
  lemma SectionEffect(states: seq<Shared>, steps: seq<Step>, t: Thread, n: Context, l: Level, i: nat, r: nat)
    requires Behaviour(states, steps) && Section(states, steps, t, n, l, i, r)
    ensures n in states[i].lvl && n in states[i].inh
    ensures states[r + 1].lvl == states[i].lvl[n := l]
    ensures states[r + 1].inh == Spread(states[i], n, l, Written(states, steps, i, r + 1))
    ensures forall x :: x in Written(states, steps, i, r + 1) ==>
              x in states[i].lvl && x != n && states[i].lvl[x] == Unset
    ensures Free(states[i]) && Free(states[r + 1])
  {
    hide Spread;
    SectionProgress(states, steps, t, n, l, i, r);
    BehaviourInv(states, steps, r);
    assert Next(states[i], steps[i], states[i + 1]) && Next(states[r], steps[r], states[r + 1]);
    assert Written(states, steps, i, r + 1) == Written(states, steps, i, r);
  }

  // ---------- What readers can see of it ----------

  lemma {:induction false} WrittenGrows(states: seq<Shared>, steps: seq<Step>, i: nat, j: nat, k: nat)
    requires i <= j <= k <= |steps| < |states|
    ensures Written(states, steps, i, j) <= Written(states, steps, i, k)
    decreases k
  {
    if j < k { WrittenGrows(states, steps, i, j, k - 1); }
  }

  lemma TwoLevels(b: Shared, s: Shared, e: Shared, t: Thread, n: Context, l: Level,
                  V: set<Context>, W: set<Context>, x: Context)
    requires n in b.lvl && SameNodes(b) && SectionSoFar(b, s, t, n, l, V) && x in b.lvl
    requires e.lvl == b.lvl[n := l] && e.inh == Spread(b, n, l, W)
    requires V <= W && n !in W
    ensures x in s.lvl && x in s.inh && x in e.lvl && x in e.inh
    ensures Effective(s, x) == Effective(b, x) || Effective(s, x) == Effective(e, x)
  {
    hide Spread;
  }

  /** At every instant of a section every node has the level it had before or the level it has after. */
  lemma SectionShowsTwoLevels(
      states: seq<Shared>, steps: seq<Step>, t: Thread, n: Context, l: Level, i: nat, r: nat, x: Context, k: nat)
    requires Behaviour(states, steps) && Section(states, steps, t, n, l, i, r)
    requires x in states[i].lvl && i <= k <= r + 1
    ensures x in states[i].inh && x in states[k].lvl && x in states[k].inh
    ensures x in states[r + 1].lvl && x in states[r + 1].inh
    ensures Effective(states[k], x) in {Effective(states[i], x), Effective(states[r + 1], x)}
  {
    hide Spread, Next, SectionSoFar, Effective;
    BehaviourInv(states, steps, i);
    SectionEffect(states, steps, t, n, l, i, r);
    if i < k <= r {
      SectionProgress(states, steps, t, n, l, i, k);
      WrittenGrows(states, steps, i, k, r + 1);
      TwoLevels(states[i], states[k], states[r + 1], t, n, l,
                Written(states, steps, i, k), Written(states, steps, i, r + 1), x);
    }
  }

  /** From lo to hi the only section is the one from i to r. */
  ghost predicate OnlySection(states: seq<Shared>, steps: seq<Step>, lo: nat, i: nat, r: nat, hi: nat)
    requires lo <= i <= r < hi <= |steps|
  {
    forall k :: lo <= k < i || r < k < hi ==> steps[k].Construct? || steps[k].Destroy?
  }

  /** Construction and destruction of other nodes do not show. */
  lemma {:induction false} NothingShows(states: seq<Shared>, steps: seq<Step>, x: Context, j: nat, k: nat)
    requires Behaviour(states, steps) && j <= k < |states| && AliveFromTo(states, x, j, k)
    requires forall m :: j <= m < k ==> steps[m].Construct? || steps[m].Destroy?
    ensures Effective(states[j], x) == Effective(states[k], x)
    decreases k
  {
    if j < k {
      NothingShows(states, steps, x, j, k - 1);
      assert Next(states[k - 1], steps[k - 1], states[k]);
    }
  }

  /** So effective_level, run against one call of set_level, returns the level from before the call or
      the level from after it, however its two loads fall. */
  lemma ReaderSeesBeforeOrAfter(
      states: seq<Shared>, steps: seq<Step>, t: Thread, n: Context, l: Level,
      lo: nat, i: nat, r: nat, hi: nat, x: Context, p: nat, q: nat)
    requires Behaviour(states, steps) && Section(states, steps, t, n, l, i, r)
    requires lo <= i && r < hi <= |steps| && OnlySection(states, steps, lo, i, r, hi)
    requires AliveFromTo(states, x, lo, hi) && lo <= p <= q <= hi
    ensures Resolve(states[p].lvl[x], states[q].inh[x]) in {Effective(states[i], x), Effective(states[r + 1], x)}
  {
    EffectiveLevelLinearizable(states, steps, x, p, q);
    var k :| p <= k <= q && Effective(states[k], x) == Resolve(states[p].lvl[x], states[q].inh[x]);
    if k < i {
      NothingShows(states, steps, x, k, i);
    } else if k <= r + 1 {
      SectionShowsTwoLevels(states, steps, t, n, l, i, r, x, k);
    } else {
      NothingShows(states, steps, x, r + 1, k);
    }
  }

  lemma EnterSection(s0: Shared, t: Thread, n: Context, l: Level)
    returns (s1: Shared, s2: Shared, s3: Shared)
    requires Free(s0) && s0.pc(t) == Outside && n in s0.lvl && l != Unset
    ensures Next(s0, Acquire(t, n, l), s1) && Next(s1, StoreLevel(t), s2) && Next(s2, LoadLevel(t), s3)
    ensures s1.owner(t) && s2.owner(t) && s3.owner(t) && s3.pc(t) == Walking(n, l)
    ensures s1.lvl == s0.lvl && s2.lvl == s3.lvl == s0.lvl[n := l] && s1.inh == s2.inh == s3.inh == s0.inh
  {
    s1 := At(s0.(owner := Put(s0.owner, t, true)), t, Locked(n, l));
    s2 := At(s1.(lvl := s1.lvl[n := l]), t, Stored(n));
    s3 := At(s2, t, Walking(n, l));
  }

  lemma WriteInSection(s: Shared, t: Thread, x: Context) returns (m: Shared, s': Shared)
    requires s.pc(t).Walking? && s.owner(t) && x in s.lvl && x != s.pc(t).node && s.lvl[x] == Unset
    ensures Next(s, Check(t, x), m) && Next(m, Write(t), s')
    ensures m.owner(t) && s'.owner(t) && s'.pc(t) == s.pc(t)
    ensures m.lvl == s'.lvl == s.lvl && m.inh == s.inh && s'.inh == s.inh[x := s.pc(t).passed]
  {
    m := At(s, t, Writing(s.pc(t).node, s.pc(t).passed, x));
    s' := At(m.(inh := m.inh[x := s.pc(t).passed]), t, Walking(s.pc(t).node, s.pc(t).passed));
  }

  lemma LeaveSection(s: Shared, t: Thread) returns (s': Shared)
    requires s.pc(t).Walking?
    ensures Next(s, Release(t), s') && s'.lvl == s.lvl && s'.inh == s.inh
  {
    s' := At(s.(owner := Put(s.owner, t, false)), t, Outside);
  }

  ghost predicate Shows(s: Shared, a: Context, la: Level, b: Context, lb: Level) {
    && a in s.lvl && a in s.inh && b in s.lvl && b in s.inh
    && Effective(s, a) == la && Effective(s, b) == lb
  }

  lemma ThreeUnset(t: Thread, root: Context, a: Context, b: Context)
    returns (s0: Shared, s1: Shared, s2: Shared, s3: Shared)
    requires root != a && root != b && a != b
    ensures Init(s0)
    ensures Next(s0, Acquire(t, root, Trace), s1) && Next(s1, StoreLevel(t), s2) && Next(s2, LoadLevel(t), s3)
    ensures s1.owner(t) && s2.owner(t) && s3.owner(t) && s3.pc(t) == Walking(root, Trace)
    ensures Shows(s0, a, Unset, b, Unset) && Shows(s1, a, Unset, b, Unset)
    ensures Shows(s2, a, Unset, b, Unset) && Shows(s3, a, Unset, b, Unset)
  {
    hide Next;
    var none := map[root := Unset, a := Unset, b := Unset];
    s0 := Shared(none, none, (u: Thread) => false, (u: Thread) => Outside);
    s1, s2, s3 := EnterSection(s0, t, root, Trace);
  }

  lemma TwoWrites(s3: Shared, t: Thread, root: Context, a: Context, b: Context)
    returns (s4: Shared, s5: Shared, s6: Shared, s7: Shared, s8: Shared)
    requires s3.pc(t) == Walking(root, Trace) && s3.owner(t) && a != root && b != root && a != b
    requires Shows(s3, a, Unset, b, Unset)
    ensures Next(s3, Check(t, a), s4) && Next(s4, Write(t), s5) && Next(s5, Check(t, b), s6)
    ensures Next(s6, Write(t), s7) && Next(s7, Release(t), s8)
    ensures s4.owner(t) && s5.owner(t) && s6.owner(t) && s7.owner(t)
    ensures Shows(s4, a, Unset, b, Unset) && Shows(s5, a, Trace, b, Unset) && Shows(s6, a, Trace, b, Unset)
    ensures Shows(s7, a, Trace, b, Trace) && Shows(s8, a, Trace, b, Trace)
  {
    hide Next;
    s4, s5 := WriteInSection(s3, t, a);
    s6, s7 := WriteInSection(s5, t, b);
    s8 := LeaveSection(s7, t);
  }

  /** That is for one node. Two nodes can be seen in the middle of a section, one written and one not, so
      a section is not one instant for readers. */
  lemma SectionIsNotOneInstant(root: Context, a: Context, b: Context)
    returns (states: seq<Shared>, steps: seq<Step>)
    requires root != a && root != b && a != b
    ensures Behaviour(states, steps) && |steps| == 8 && Section(states, steps, 0, root, Trace, 0, 7)
    ensures forall k :: 0 <= k <= 8 ==>
              Shows(states[k], a, if k < 5 then Unset else Trace, b, if k < 7 then Unset else Trace)
    ensures !OneInstant(states, steps, 0, root, Trace, 0, 7)
  {
    hide Next, Shows;
    var s0, s1, s2, s3 := ThreeUnset(0, root, a, b);
    var s4, s5, s6, s7, s8 := TwoWrites(s3, 0, root, a, b);
    states := [s0, s1, s2, s3, s4, s5, s6, s7, s8];
    steps := [Acquire(0, root, Trace), StoreLevel(0), LoadLevel(0), Check(0, a), Write(0), Check(0, b), Write(0),
              Release(0)];
    TwoDiffer(s0, s8, a, b);
    OneInstantIff(states, steps, 0, root, Trace, 0, 7);
  }

  lemma TwoDiffer(s0: Shared, s8: Shared, a: Context, b: Context)
    requires a != b && Shows(s0, a, Unset, b, Unset) && Shows(s8, a, Trace, b, Trace)
    ensures !OneDiffers(s0, s8)
  {
    assert Differs(s0, s8, a) && Differs(s0, s8, b);
  }

  // ---------- When a section is one instant ----------

  /** x is shown with its level from i before the instant k and with its level from e from then on. */
  ghost predicate Switches(states: seq<Shared>, x: Context, i: nat, k: nat, e: nat)
    requires i <= k <= e < |states| && AliveFromTo(states, x, i, e)
  {
    && (forall m :: i <= m < k ==> Effective(states[m], x) == Effective(states[i], x))
    && (forall m :: k <= m <= e ==> Effective(states[m], x) == Effective(states[e], x))
  }

  lemma AliveInSection(
      states: seq<Shared>, steps: seq<Step>, t: Thread, n: Context, l: Level, i: nat, r: nat, x: Context)
    requires Behaviour(states, steps) && Section(states, steps, t, n, l, i, r) && x in states[i].lvl
    ensures AliveFromTo(states, x, i, r + 1)
  {
    forall k | i <= k <= r + 1 ensures x in states[k].lvl && x in states[k].inh {
      SectionShowsTwoLevels(states, steps, t, n, l, i, r, x, k);
    }
  }

  /** To whoever reads the levels of any nodes at any instants, the section happens at the instant k. */
  ghost predicate AtOnce(
      states: seq<Shared>, steps: seq<Step>, t: Thread, n: Context, l: Level, i: nat, r: nat, k: nat)
    requires Behaviour(states, steps) && Section(states, steps, t, n, l, i, r) && i <= k <= r + 1
  {
    forall x :: x in states[i].lvl ==>
      (AliveInSection(states, steps, t, n, l, i, r, x); Switches(states, x, i, k, r + 1))
  }

  ghost predicate OneInstant(
      states: seq<Shared>, steps: seq<Step>, t: Thread, n: Context, l: Level, i: nat, r: nat)
    requires Behaviour(states, steps) && Section(states, steps, t, n, l, i, r)
  {
    exists k :: i <= k <= r + 1 && AtOnce(states, steps, t, n, l, i, r, k)
  }

  ghost predicate Differs(b: Shared, e: Shared, x: Context) {
    x in b.lvl && x in b.inh && x in e.lvl && x in e.inh && Effective(b, x) != Effective(e, x)
  }

  /** At most one node has another level in e than in b. */
  ghost predicate OneDiffers(b: Shared, e: Shared) {
    forall x, y :: x in b.lvl && y in b.lvl && Differs(b, e, x) && Differs(b, e, y) ==> x == y
  }

  /** No single access shows at two nodes. */
  lemma StepShowsOnce(s: Shared, step: Step, s': Shared, x: Context, y: Context)
    requires Next(s, step, s') && Differs(s, s', x) && Differs(s, s', y)
    ensures x == y
  {
  }

  lemma OneInstantOneDiffers(
      states: seq<Shared>, steps: seq<Step>, t: Thread, n: Context, l: Level, i: nat, r: nat, x: Context, y: Context)
    requires Behaviour(states, steps) && Section(states, steps, t, n, l, i, r)
    requires OneInstant(states, steps, t, n, l, i, r)
    requires Differs(states[i], states[r + 1], x) && Differs(states[i], states[r + 1], y)
    ensures x == y
  {
    hide Next, Effective;
    var k :| i <= k <= r + 1 && AtOnce(states, steps, t, n, l, i, r, k);
    AliveInSection(states, steps, t, n, l, i, r, x);
    AliveInSection(states, steps, t, n, l, i, r, y);
    assert Switches(states, x, i, k, r + 1) && Switches(states, y, i, k, r + 1);
    assert k > i;
    assert Next(states[k - 1], steps[k - 1], states[k]);
    StepShowsOnce(states[k - 1], steps[k - 1], states[k], x, y);
  }

  /** One access of a section does not take back a level it has shown. */
  lemma NewStaysStep(
      b: Shared, s: Shared, step: Step, s': Shared, e: Shared, t: Thread, n: Context, l: Level,
      V: set<Context>, W: set<Context>, z: Context)
    requires n in b.lvl && SameNodes(b) && SectionSoFar(b, s, t, n, l, V) && Sure(s, t) && Next(s, step, s')
    requires !step.Construct? && !step.Destroy? && !step.Acquire? && step.t == t
    requires e.lvl == b.lvl[n := l] && e.inh == Spread(b, n, l, W) && n !in W
    requires step.Write? ==> s.pc(t).Writing? && s.pc(t).at in W
    requires Differs(b, e, z) && z in s.lvl && z in s.inh && Effective(s, z) == Effective(e, z)
    ensures z in s'.lvl && z in s'.inh && Effective(s', z) == Effective(e, z)
  {
    hide Spread;
  }

  lemma SureOf(s: Shared, t: Thread)
    requires Inv(s)
    ensures Sure(s, t)
  {
  }

  lemma WrittenHas(states: seq<Shared>, steps: seq<Step>, i: nat, j: nat, r: nat)
    requires Behaviour(states, steps) && i <= j <= r < |steps| && steps[j].Write?
    ensures states[j].pc(steps[j].t).Writing? && states[j].pc(steps[j].t).at in Written(states, steps, i, r + 1)
  {
    assert Next(states[j], steps[j], states[j + 1]);
    WrittenGrows(states, steps, i, j + 1, r + 1);
  }

  lemma {:induction false} NewStays(
      states: seq<Shared>, steps: seq<Step>, t: Thread, n: Context, l: Level, i: nat, r: nat,
      z: Context, m: nat, j: nat)
    requires Behaviour(states, steps) && Section(states, steps, t, n, l, i, r)
    requires Differs(states[i], states[r + 1], z) && i <= m <= j <= r + 1
    requires AliveFromTo(states, z, i, r + 1) && Effective(states[m], z) == Effective(states[r + 1], z)
    ensures Effective(states[j], z) == Effective(states[r + 1], z)
    decreases j
  {
    hide Next, Inv, Sure, Effective, SectionSoFar, Spread;
    if m < j <= r {
      NewStays(states, steps, t, n, l, i, r, z, m, j - 1);
      assert j - 1 > i;
      SectionEffect(states, steps, t, n, l, i, r);
      SectionProgress(states, steps, t, n, l, i, j - 1);
      BehaviourInv(states, steps, j - 1);
      SureOf(states[j - 1], t);
      assert Next(states[j - 1], steps[j - 1], states[j]);
      OnlyOwnerMoves(states[j - 1], steps[j - 1], states[j], t);
      if steps[j - 1].Write? { WrittenHas(states, steps, i, j - 1, r); }
      NewStaysStep(states[i], states[j - 1], steps[j - 1], states[j], states[r + 1], t, n, l,
                   Written(states, steps, i, j - 1), Written(states, steps, i, r + 1), z);
    }
  }

  /** The instant at which z changes. */
  lemma {:induction false} FirstNew(
      states: seq<Shared>, steps: seq<Step>, t: Thread, n: Context, l: Level, i: nat, r: nat, z: Context, j: nat)
    returns (k: nat)
    requires Behaviour(states, steps) && Section(states, steps, t, n, l, i, r)
    requires Differs(states[i], states[r + 1], z) && AliveFromTo(states, z, i, r + 1)
    requires i <= j <= r + 1 && Effective(states[j], z) == Effective(states[r + 1], z)
    ensures i <= k <= r + 1 && Switches(states, z, i, k, r + 1)
    decreases j
  {
    hide Next, Effective;
    if j > i && Effective(states[j - 1], z) == Effective(states[r + 1], z) {
      k := FirstNew(states, steps, t, n, l, i, r, z, j - 1);
    } else {
      k := j;
      forall m | j <= m <= r + 1 ensures Effective(states[m], z) == Effective(states[r + 1], z) {
        NewStays(states, steps, t, n, l, i, r, z, j, m);
      }
      forall m | i <= m < j ensures Effective(states[m], z) == Effective(states[i], z) {
        SectionShowsTwoLevels(states, steps, t, n, l, i, r, z, m);
        if Effective(states[m], z) == Effective(states[r + 1], z) {
          NewStays(states, steps, t, n, l, i, r, z, m, j - 1);
        }
      }
    }
  }

  lemma UnchangedSwitches(
      states: seq<Shared>, steps: seq<Step>, t: Thread, n: Context, l: Level, i: nat, r: nat, x: Context, k: nat)
    requires Behaviour(states, steps) && Section(states, steps, t, n, l, i, r)
    requires x in states[i].lvl && !Differs(states[i], states[r + 1], x) && i <= k <= r + 1
    requires AliveFromTo(states, x, i, r + 1)
    ensures Switches(states, x, i, k, r + 1)
  {
    hide Next, Effective;
    forall m | i <= m <= r + 1
      ensures Effective(states[m], x) == Effective(states[i], x) == Effective(states[r + 1], x)
    {
      SectionShowsTwoLevels(states, steps, t, n, l, i, r, x, m);
    }
  }

  /** A call of set_level is one instant for lock-free readers of all nodes if and only if it changes the
      effective level of at most one node. */
  lemma OneInstantIff(
      states: seq<Shared>, steps: seq<Step>, t: Thread, n: Context, l: Level, i: nat, r: nat)
    requires Behaviour(states, steps) && Section(states, steps, t, n, l, i, r)
    ensures OneInstant(states, steps, t, n, l, i, r) <==> OneDiffers(states[i], states[r + 1])
  {
    hide Next, Effective, Switches, Differs, AliveFromTo;
    var b, e := states[i], states[r + 1];
    if OneInstant(states, steps, t, n, l, i, r) {
      forall x, y | x in b.lvl && y in b.lvl && Differs(b, e, x) && Differs(b, e, y) ensures x == y {
        OneInstantOneDiffers(states, steps, t, n, l, i, r, x, y);
      }
    }
    if OneDiffers(b, e) {
      var k := i;
      if z :| z in b.lvl && Differs(b, e, z) {
        AliveInSection(states, steps, t, n, l, i, r, z);
        k := FirstNew(states, steps, t, n, l, i, r, z, r + 1);
      }
      forall x | x in states[i].lvl
        ensures AliveFromTo(states, x, i, r + 1) && Switches(states, x, i, k, r + 1)
      {
        AliveInSection(states, steps, t, n, l, i, r, x);
        if !Differs(states[i], states[r + 1], x) {
          UnchangedSwitches(states, steps, t, n, l, i, r, x, k);
        }
      }
      assert AtOnce(states, steps, t, n, l, i, r, k);
    }
  }

  // ---------- Nobody is stuck ----------

  /** A thread inside a section always has a next step of its own, and it leads towards the release. */
  lemma NeverStuck(s: Shared, t: Thread) returns (step: Step, s': Shared)
    requires Inv(s) && s.pc(t) != Outside
    ensures Next(s, step, s') && !step.Construct? && !step.Destroy? && !step.Acquire? && step.t == t
    ensures s.pc(t).Walking? ==> step == Release(t)
    ensures !s.pc(t).Walking? ==> s'.pc(t) != Outside && Left(s'.pc(t)) < Left(s.pc(t))
  {
    assert Sure(s, t);
    var n := s.pc(t).node;
    match s.pc(t)
    case Locked(_, l) =>
      step, s' := StoreLevel(t), At(s.(lvl := s.lvl[n := l]), t, Stored(n));
    case Stored(_) =>
      step, s' := LoadLevel(t), At(s, t, if s.lvl[n] != Unset then Walking(n, s.lvl[n]) else SawUnset(n));
    case SawUnset(_) =>
      step, s' := LoadInherited(t), At(s, t, Walking(n, s.inh[n]));
    case Writing(_, v, at) =>
      step, s' := Write(t), At(s.(inh := s.inh[at := v]), t, Walking(n, v));
    case Walking(_, _) =>
      step, s' := Release(t), At(s.(owner := Put(s.owner, t, false)), t, Outside);
  }

  /** Steps a thread has to make before it may release the mutex. */
  function Left(pc: Pc): nat {
    match pc
    case Outside => 0
    case Locked(_, _) => 3
    case Stored(_) => 2
    case SawUnset(_) => 1
    case Writing(_, _, _) => 1
    case Walking(_, _) => 0
  }

  /** While the mutex is free every thread can take it for any node, a node can be constructed below any
      other and any node can be destroyed. */
  lemma FreeForAll(s: Shared, t: Thread, n: Context, l: Level, c: Context, organized: bool)
    requires Inv(s) && Free(s) && n in s.lvl && c !in s.lvl
    ensures exists s' :: Next(s, Acquire(t, n, l), s')
    ensures exists s' :: Next(s, Construct(c, n, organized), s')
    ensures exists s' :: Next(s, Destroy(n), s')
  {
    assert Sure(s, t);
    var inherited := if organized then Effective(s, n) else Unset;
    assert Next(s, Acquire(t, n, l), At(s.(owner := Put(s.owner, t, true)), t, Locked(n, l)));
    assert Next(s, Construct(c, n, organized), s.(lvl := s.lvl[c := Unset], inh := s.inh[c := inherited]));
    assert Next(s, Destroy(n), s.(lvl := s.lvl - {n}, inh := s.inh - {n}));
  }

  // ---------- Between two sections ----------

  /** In a state with the mutex free the next step takes it or constructs or destroys. */
  lemma FreeStep(s: Shared, step: Step, s': Shared)
    requires Inv(s) && Next(s, step, s') && Free(s)
    ensures step.Acquire? || step.Construct? || step.Destroy?
    ensures step.Acquire? ==> s'.owner(step.t)
    ensures !step.Acquire? ==> Free(s')
  {
    if !step.Construct? && !step.Destroy? {
      assert Sure(s, step.t);
    }
  }

  /** Who holds the mutex keeps it until he releases it. */
  lemma HeldStep(s: Shared, step: Step, s': Shared, t: Thread)
    requires Inv(s) && Next(s, step, s') && s.owner(t)
    ensures step == Release(t) || s'.owner(t)
    ensures step == Release(t) ==> Free(s')
  {
    OnlyOwnerMoves(s, step, s', t);
  }

  lemma {:induction false} HeldUntil(states: seq<Shared>, steps: seq<Step>, t: Thread, i: nat, e: nat)
    requires Behaviour(states, steps) && i < e < |states| && states[i + 1].owner(t)
    requires forall k :: i < k < e ==> !Free(states[k])
    ensures Inside(states, t, i, e - 1)
    decreases e
  {
    if i + 1 < e - 1 {
      HeldUntil(states, steps, t, i, e - 1);
      BehaviourInv(states, steps, e - 2);
      HeldStep(states[e - 2], steps[e - 2], states[e - 1], t);
    }
  }

  /** Between two successive states with the mutex free lies one construction, one destruction, or one
      whole section. */
  lemma BetweenFree(states: seq<Shared>, steps: seq<Step>, i: nat, e: nat)
    requires Behaviour(states, steps) && i < e < |states|
    requires Free(states[i]) && Free(states[e]) && forall k :: i < k < e ==> !Free(states[k])
    ensures match steps[i]
            case Construct(_, _, _) => e == i + 1
            case Destroy(_) => e == i + 1
            case Acquire(t, n, l) => Section(states, steps, t, n, l, i, e - 1)
            case _ => false
  {
    BehaviourInv(states, steps, i);
    FreeStep(states[i], steps[i], states[i + 1]);
    if steps[i].Acquire? {
      var t := steps[i].t;
      HeldUntil(states, steps, t, i, e);
      BehaviourInv(states, steps, e - 1);
      HeldStep(states[e - 1], steps[e - 1], states[e], t);
    }
  }
}
