/** The in-place sort: list order becomes tree preorder by pointer surgery alone. */
module Organize {
  import opened Contexts
  import opened Sequences
  import opened Preorder
  import opened OrganizeSpec

  /** The node at c moves to the place right behind p. */
  function Moved(s: seq<Context>, p: nat, c: nat): seq<Context>
    requires p < c < |s|
  {
    s[..p + 1] + [s[c]] + s[p + 1..c] + s[c + 1..]
  }

  /** Gather, interrupted when the scan has reached e. */
  function Half(s: seq<Context>, p: nat, m: nat, e: nat): seq<Context>
    requires p < m <= e <= |s|
  {
    s[..p + 1] + Rev(Kids(s[p], s[m..e])) + s[p + 1..m] + Others(s[p], s[m..e]) + s[e..]
  }

  lemma HalfLength(s: seq<Context>, p: nat, m: nat, e: nat)
    requires p < m <= e <= |s|
    ensures |Half(s, p, m, e)| == |s|
    ensures Half(s, p, m, e)[..p + 1] == s[..p + 1]
    ensures Half(s, p, m, e)[e..] == s[e..]
  {
    KidsMultiset(s[p], s[m..e]);
  }

  lemma KidsOfOne(p: Context?, x: Context)
    ensures if x.parent == p
            then Kids(p, [x]) == Rev([x]) == [x] && Others(p, [x]) == []
            else Kids(p, [x]) == [] && Others(p, [x]) == [x]
  {
  }

  lemma HalfAt(s: seq<Context>, p: nat, m: nat, e: nat)
    requires p < m <= e < |s|
    ensures |Half(s, p, m, e)| == |s| && Half(s, p, m, e)[e] == s[e]
  {
    HalfLength(s, p, m, e);
    assert Half(s, p, m, e)[e] == Half(s, p, m, e)[e..][0];
  }

  /** The scan passes one node: a child moves behind its parent, any other node stays. */
  lemma HalfStep(s: seq<Context>, p: nat, m: nat, e: nat)
    requires p < m <= e < |s|
    ensures |Half(s, p, m, e)| == |s| && Half(s, p, m, e)[e] == s[e]
    ensures Half(s, p, m, e + 1)
         == if s[e].parent == s[p] then Moved(Half(s, p, m, e), p, e) else Half(s, p, m, e)
  {
    hide Kids, Others, Rev;
    var x, A, B, C := s[e], s[..p + 1], s[p + 1..m], s[e + 1..];
    var K, O := Kids(s[p], s[m..e]), Others(s[p], s[m..e]);
    HalfAt(s, p, m, e);
    KidsMultiset(s[p], s[m..e]);
    assert s[e..] == [x] + C;
    assert Half(s, p, m, e) == A + Rev(K) + B + O + ([x] + C);
    assert s[m..e + 1] == s[m..e] + [x];
    KidsConcat(s[p], s[m..e], [x]);
    KidsOfOne(s[p], x);
    if x.parent == s[p] {
      RevConcat(K, [x]);
      assert O + [] == O;
      assert Half(s, p, m, e + 1) == A + ([x] + Rev(K)) + B + O + C;
      MovedPieces(A, Rev(K), B, O, x, C, p, e);
    } else {
      assert K + [] == K;
      assert Half(s, p, m, e + 1) == A + Rev(K) + B + (O + [x]) + C;
      StayingPieces(A + Rev(K) + B, O, x, C);
    }
  }

  lemma StayingPieces(a: seq<Context>, o: seq<Context>, x: Context, c: seq<Context>)
    ensures a + (o + [x]) + c == a + o + ([x] + c)
  {
  }

  lemma MovedPieces(a: seq<Context>, k: seq<Context>, b: seq<Context>, o: seq<Context>, x: Context,
                    c: seq<Context>, p: nat, e: nat)
    requires |a| == p + 1 && |a| + |k| + |b| + |o| == e
    ensures var h := a + k + b + o + ([x] + c);
      p < e < |h| && Moved(h, p, e) == a + ([x] + k) + b + o + c
  {
    var h := a + k + b + o + ([x] + c);
    assert h[..p + 1] == a && h[e] == x && h[p + 1..e] == k + b + o && h[e + 1..] == c;
  }

  lemma HalfEnds(s: seq<Context>, p: nat, m: nat)
    requires p < m <= |s|
    ensures Half(s, p, m, m) == s
    ensures Half(s, p, m, |s|) == Gather(s, p, m)
  {
    assert s[m..|s|] == s[m..];
  }

  lemma MovedPlaces(s: seq<Context>, p: nat, c: nat)
    requires p < c < |s|
    ensures var t := Moved(s, p, c);
      && |t| == |s|
      && (forall i :: 0 <= i <= p ==> t[i] == s[i])
      && t[p + 1] == s[c]
      && (forall i :: p + 1 < i <= c ==> t[i] == s[i - 1])
      && (forall i :: c < i < |s| ==> t[i] == s[i])
  {
  }

  /** The links of Moved(s, p, c), place by place of s. */
  lemma MovedLinks(s: seq<Context>, p: nat, c: nat)
    requires p + 1 < c < |s|
    requires s[p].next == s[c] && s[c].next == s[p + 1] && s[c - 1].next == Nth(s, c + 1)
    requires s[c].prev == s[p] && s[p + 1].prev == s[c] && (c + 1 < |s| ==> s[c + 1].prev == s[c - 1])
    requires forall i {:trigger s[i].next} ::
               0 <= i < |s| && i != p && i != c - 1 && i != c ==> s[i].next == Nth(s, i + 1)
    requires forall i {:trigger s[i].prev} ::
               0 <= i < |s| && i != p + 1 && i != c && i != c + 1 ==> s[i].prev == Nth(s, i - 1)
    ensures Linked(Moved(s, p, c))
  {
    var t := Moved(s, p, c);
    MovedPlaces(s, p, c);
    forall i | 0 <= i < |t| ensures t[i].next == Nth(t, i + 1) && t[i].prev == Nth(t, i - 1) {
    }
  }

  /** Unlink curr and link it in again right behind parent. */
  method Relocate(parent: Context, curr: Context, ghost s: seq<Context>, ghost p: nat, ghost c: nat,
                  ghost nodes: set<Context>)
    requires Linked(s) && NoDup(s) && forall i :: 0 <= i < |s| ==> s[i] in nodes
    requires p + 1 < c < |s| && s[p] == parent && s[c] == curr
    modifies nodes`next, nodes`prev
    ensures Linked(Moved(s, p, c))
  {
    assert curr.prev == s[c - 1] && curr.next == Nth(s, c + 1) && parent.next == s[p + 1];
    curr.prev.next := curr.next;
    if curr.next != null {
      curr.next.prev := curr.prev;
    }
    assert parent.next == s[p + 1];
    curr.next := parent.next;
    curr.prev := parent;
    parent.next := curr;
    curr.next.prev := curr;
    MovedLinks(s, p, c);
  }

  // ---------- One scan for children ----------

  /** The first place at which a child of s[p] can move when the scan starts at c0. */
  function ScanFrom(p: nat, c0: nat): nat {
    if c0 <= p then p + 1 else c0
  }

  /** Whether the scan meets a child that already stands right behind its parent. */
  ghost predicate StaysPut(s: seq<Context>, p: nat, c0: nat)
    requires p < |s|
  {
    c0 <= p + 1 < |s| && s[p + 1].parent == s[p]
  }

  /** A scan of s for the children of s[p], begun with the pivot at q0 and the cursor at c0: the list
      now reads t, the pivot stands at q and the cursor at c. */
  ghost predicate Scan(s: seq<Context>, p: nat, q0: nat, c0: nat, t: seq<Context>, q: nat, c: nat) {
    && p < |s| && q0 <= c0 <= c <= |s| && q <= c && (c < |s| ==> q < |s|)
    && (forall j :: 0 <= j <= p ==> s[j].parent != s[p])
    && (StaysPut(s, p, c0) ==> c <= p + 1)
    && if c <= p then t == s && q == q0 else
         && t == Half(s, p, ScanFrom(p, c0), c)
         && q <= ScanFrom(p, q0) + |Kids(s[p], s[ScanFrom(p, c0)..c])|
         && (c <= p + 1 ==> q == q0)
  }

  lemma ScanFacts(s: seq<Context>, p: nat, q0: nat, c0: nat, t: seq<Context>, q: nat, c: nat)
    requires Scan(s, p, q0, c0, t, q, c) && NoDup(s)
    ensures |t| == |s| && t[p] == s[p] && NoDup(t)
    ensures forall x :: x in t <==> x in s
    ensures c <= |s| && q <= c && (c < |s| ==> q < |s| && t[c] == s[c])
    ensures c < |s| && s[c].parent == s[p] ==> p < c
  {
    if p < c {
      var m := ScanFrom(p, c0);
      HalfLength(s, p, m, c);
      HalfMultiset(s, p, m, c);
      SameMembers(s, t);
      NoDupMultiset(s, t);
      assert t[p] == t[..p + 1][p];
      assert c < |s| ==> t[c] == t[c..][0] == s[c..][0];
      HalfEnds(s, p, m);
    }
  }

  lemma HalfMultiset(s: seq<Context>, p: nat, m: nat, e: nat)
    requires p < m <= e <= |s|
    ensures multiset(Half(s, p, m, e)) == multiset(s)
  {
    hide Kids, Others, Rev;
    KidsMultiset(s[p], s[m..e]);
    RevMultiset(Kids(s[p], s[m..e]));
    assert s == s[..p + 1] + s[p + 1..m] + s[m..e] + s[e..];
  }

  lemma ScanStart(s: seq<Context>, p: nat, q0: nat, c0: nat)
    requires p < |s| && q0 <= c0 < |s|
    requires forall j :: 0 <= j <= p ==> s[j].parent != s[p]
    ensures Scan(s, p, q0, c0, s, q0, c0)
  {
    HalfEnds(s, p, ScanFrom(p, c0));
  }

  lemma ScanSkip(s: seq<Context>, p: nat, q0: nat, c0: nat, t: seq<Context>, q: nat, c: nat)
    requires Scan(s, p, q0, c0, t, q, c) && c < |s| && s[c].parent != s[p]
    ensures Scan(s, p, q0, c0, t, q, c + 1)
  {
    var m := ScanFrom(p, c0);
    if p < c {
      HalfStep(s, p, m, c);
      ScanCount(s, p, m, c);
    } else {
      HalfEnds(s, p, p + 1);
    }
  }

  lemma ScanCount(s: seq<Context>, p: nat, m: nat, c: nat)
    requires p < m <= c < |s|
    ensures |Kids(s[p], s[m..c + 1])| == |Kids(s[p], s[m..c])| + if s[c].parent == s[p] then 1 else 0
  {
    assert s[m..c + 1] == s[m..c] + [s[c]];
    KidsConcat(s[p], s[m..c], [s[c]]);
  }

  /** Where a node that stood at q stands after the node at c has moved behind p. */
  function Shifted(p: nat, c: nat, q: nat): nat
    requires p < c
  {
    if q == c then p + 1 else if p < q < c then q + 1 else q
  }

  lemma ScanMove(s: seq<Context>, p: nat, q0: nat, c0: nat, t: seq<Context>, q: nat, c: nat)
    requires Scan(s, p, q0, c0, t, q, c) && p + 1 < c < |s| && s[c].parent == s[p]
    ensures |t| == |s|
    ensures Scan(s, p, q0, c0, Moved(t, p, c), Shifted(p, c, q), c + 1)
    ensures q < |t| && Moved(t, p, c)[Shifted(p, c, q)] == t[q]
  {
    var m := ScanFrom(p, c0);
    HalfStep(s, p, m, c);
    ScanCount(s, p, m, c);
    MovedPlaces(t, p, c);
  }

  /** A child right behind its parent is met before anything has moved. */
  lemma ScanMeetsFirst(s: seq<Context>, p: nat, q0: nat, c0: nat, t: seq<Context>, q: nat, c: nat)
    requires Scan(s, p, q0, c0, t, q, c) && c == p + 1 < |s| && s[c].parent == s[p]
    ensures StaysPut(s, p, c0) && t == s && q == q0
  {
    HalfEnds(s, p, p + 1);
  }

  lemma ScanEnd(s: seq<Context>, p: nat, q0: nat, c0: nat, t: seq<Context>, q: nat, c: nat)
    requires Scan(s, p, q0, c0, t, q, c) && c == |s|
    ensures !StaysPut(s, p, c0)
    ensures t == Gather(s, p, ScanFrom(p, c0))
    ensures q <= ScanFrom(p, q0) + |Kids(s[p], s[ScanFrom(p, c0)..])|
  {
    HalfEnds(s, p, ScanFrom(p, c0));
    assert s[ScanFrom(p, c0)..|s|] == s[ScanFrom(p, c0)..];
  }

  /** The branch that moves the child under the cursor. */
  method MoveChild(parent: Context, curr0: Context, ghost s: seq<Context>, ghost p: nat, ghost q0: nat,
                   ghost c0: nat, ghost t0: seq<Context>, ghost q1: nat, ghost c: nat,
                   ghost nodes: set<Context>)
    returns (curr: Context?, ghost t: seq<Context>, ghost q: nat)
    requires Scan(s, p, q0, c0, t0, q1, c) && Linked(t0) && |t0| == |s| && NoDup(t0)
    requires forall i :: 0 <= i < |t0| ==> t0[i] in nodes
    requires p + 1 < c < |s| && s[c].parent == s[p] && t0[p] == s[p] == parent && t0[c] == s[c] == curr0
    modifies nodes`next, nodes`prev
    ensures Scan(s, p, q0, c0, t, q, c + 1) && Linked(t) && |t| == |s|
    ensures curr == Nth(t, c + 1) && Nth(t, q) == Nth(t0, q1)
  {
    hide Scan, Moved;
    curr := curr0.next;
    t, q := Moved(t0, p, c), Shifted(p, c, q1);
    ScanMove(s, p, q0, c0, t0, q1, c);
    MovedPlaces(t0, p, c);
    Relocate(parent, curr0, t0, p, c, nodes);
  }

  /** One call either steps the pivot over the first child, which stays put, and restarts the scan at
      the pivot; or it gathers every child from the scan position on and ends the scan. */
  method OrganizeNextChild(parent: Context, pivot0: Context, curr0: Context,
                           ghost s: seq<Context>, ghost p: nat, ghost q0: nat, ghost c0: nat,
                           ghost nodes: set<Context>)
    returns (pivot: Context?, curr: Context?, ghost t: seq<Context>, ghost q: nat)
    requires Linked(s) && NoDup(s) && forall x :: x in s ==> x in nodes
    requires p < |s| && s[p] == parent
    requires q0 <= c0 < |s| && s[q0] == pivot0 && s[c0] == curr0
    requires forall j :: 0 <= j <= p ==> s[j].parent != parent
    modifies nodes`next, nodes`prev
    ensures Linked(t) && |t| == |s| && q <= |t| && pivot == Nth(t, q)
    ensures StaysPut(s, p, c0) ==> t == s && q == q0 + 1 && curr == pivot
    ensures !StaysPut(s, p, c0) ==>
              && curr == null
              && t == Gather(s, p, ScanFrom(p, c0))
              && q <= ScanFrom(p, q0) + |Kids(parent, s[ScanFrom(p, c0)..])|
  {
    hide Scan, StaysPut, Gather, Kids;
    pivot, curr, t, q := pivot0, curr0, s, q0;
    ghost var c := c0;
    ScanStart(s, p, q0, c0);
    while true
      invariant Scan(s, p, q0, c0, t, q, c)
      invariant |t| == |s| && Linked(t)
      invariant curr == Nth(t, c) && pivot == Nth(t, q)
      decreases |s| - c
    {
      ScanFacts(s, p, q0, c0, t, q, c);
      if curr == null {
        ScanEnd(s, p, q0, c0, t, q, c);
        return;
      }
      if curr.parent == parent {
        if parent.next == curr {
          ScanMeetsFirst(s, p, q0, c0, t, q, c);
          pivot := pivot.next;
          curr := pivot;
          q := q + 1;
          return;
        } else {
          curr, t, q := MoveChild(parent, curr, s, p, q0, c0, t, q, c, nodes);
        }
      } else {
        ScanSkip(s, p, q0, c0, t, q, c);
        curr := curr.next;
      }
      c := c + 1;
    }
  }

  lemma GatherAfterFirst(s: seq<Context>, p: nat)
    requires p + 1 < |s| && s[p + 1].parent == s[p]
    ensures Gather(s, p, p + 2) == Place(s, p)
    ensures p + 2 == |s| ==> Place(s, p) == s
    ensures |Kids(s[p], s[p + 2..])| + 1 == |Kids(s[p], s[p + 1..])|
  {
    var K, O := Kids(s[p], s[p + 2..]), Others(s[p], s[p + 2..]);
    assert s[p + 1..] == [s[p + 1]] + s[p + 2..];
    KidsConcat(s[p], [s[p + 1]], s[p + 2..]);
    KidsOfOne(s[p], s[p + 1]);
    RevConcat([s[p + 1]], K);
    assert s[p + 1..p + 2] == [s[p + 1]] && s[p + 1..p + 1] == [];
    assert Place(s, p) == s[..p + 1] + (Rev(K) + [s[p + 1]]) + [] + O;
    if p + 2 == |s| {
      assert s[p + 2..] == [] && Rev(K) == [];
    }
  }

  /** Any scan that starts left of the first child does the whole visit. */
  lemma GatherBeforeFirst(s: seq<Context>, p: nat, u: nat, m: nat)
    requires FamilyUnplaced(s, p, u) && p < m <= u
    ensures Gather(s, p, m) == Place(s, p)
    ensures Kids(s[p], s[m..]) == Kids(s[p], s)
  {
    assert s == s[..m] + s[m..];
    KidsSkip(s[p], s[..m], s[m..]);
    assert s[p + 1..] == s[p + 1..m] + s[m..];
    KidsSkip(s[p], s[p + 1..m], s[m..]);
    assert s[p + 1..p + 1] == [];
  }

  /** The family of one node, placed. Nodes left of u were placed before the call; the pivot never
      passes a node that is not placed when the call ends. */
  method OrganizeChildren(parent: Context, pivot0: Context,
                          ghost s: seq<Context>, ghost p: nat, ghost q0: nat, ghost u: nat,
                          ghost nodes: set<Context>)
    returns (pivot: Context?, ghost t: seq<Context>, ghost q: nat)
    requires Linked(s) && NoDup(s) && forall x :: x in s ==> x in nodes
    requires FamilyUnplaced(s, p, u) && s[p] == parent
    requires q0 <= u && q0 < |s| && s[q0] == pivot0
    modifies nodes`next, nodes`prev
    ensures Linked(t) && t == Place(s, p) && |t| == |s| && t[p] == parent
    ensures q <= u + |Kids(parent, s)| <= |t| && pivot == Nth(t, q)
  {
    hide Place, Gather, Kids;
    pivot, t, q := pivot0, s, q0;
    var curr: Context? := pivot;
    while true
      invariant t == s && q0 <= q < |s| && Linked(s) && curr == pivot == s[q]
      invariant q <= u || (q == u + 1 == p + 2 && s[p + 1].parent == parent)
      decreases |s| - q
    {
      ghost var c := q;
      pivot, curr, t, q := OrganizeNextChild(parent, pivot, curr, s, p, c, c, nodes);
      GatherBeforeFirst(s, p, u, if c <= p then p + 1 else if c <= u then c else u);
      if p + 1 < |s| && s[p + 1].parent == parent {
        GatherBeforeFirst(s, p, u, p + 1);
        GatherAfterFirst(s, p);
      }
      if curr == null {
        break;
      }
    }
    PlacePlaces(s, p, u, t, |Kids(parent, s)|);
  }

  /** Whatever order the list was in, it ends as the preorder of its parent tree with every family in
      reverse list order (construction order, as new nodes are linked in behind the root). */
  method Organize(root: Context, ghost s: seq<Context>, ghost nodes: set<Context>)
    returns (ghost t: seq<Context>)
    requires Linked(s) && NoDup(s) && ParentTree(s) && s[0] == root
    requires forall x :: x in s ==> x in nodes
    modifies nodes`next, nodes`prev
    ensures Linked(t) && Organizes(s, t)
  {
    hide Place, Kids, Partial, Organizes;
    t := s;
    var parent: Context? := root;
    var pivot := root.next;
    ghost var p: nat, q: nat, u: nat := 0, 1, 1;
    PartialStart(s);
    while pivot != null && parent != null
      invariant Linked(t) && Partial(s, t, p, u)
      invariant |t| == |s| && p <= |t| && q <= u <= |t|
      invariant parent == Nth(t, p) && pivot == Nth(t, q)
      decreases |s| - p
    {
      WaitingOrDone(s, t, p, u);
      PartialFacts(s, t, p, u);
      PlaceKeeps(s, t, p, u);
      ghost var placed := u + |Kids(parent, t)|;
      pivot, t, q := OrganizeChildren(parent, pivot, t, p, q, u, nodes);
      parent := parent.next;
      p, u := p + 1, placed;
    }
    PartialFacts(s, t, p, u);
    PartialEnd(s, t, p, u);
  }
}
