/** One visit of organize as a function on lists, and why visiting every node once sorts the list. */
module OrganizeSpec {
  import opened Contexts
  import opened Sequences
  import opened Preorder

  /** The children of s[p] found at m or later move, one by one, to the place right behind s[p]. */
  function Gather(s: seq<Context>, p: nat, m: nat): seq<Context>
    requires p < m <= |s|
  {
    s[..p + 1] + Rev(Kids(s[p], s[m..])) + s[p + 1..m] + Others(s[p], s[m..])
  }

  function Place(s: seq<Context>, p: nat): seq<Context>
    requires p < |s|
  {
    Gather(s, p, p + 1)
  }

  /** After p visits the list reads: visited nodes [..p], nodes waiting for their visit [p..u], and
      unplaced nodes [u..] whose parent has not been visited. */
  ghost predicate Staged(s: seq<Context>, p: nat, u: nat) {
    && p <= u <= |s| && 0 < u
    && s[0].parent == null
    && NoDup(s)
    && (forall j :: 0 < j < |s| ==> HasParent(s, j))
    && (forall j :: 0 < j < u ==> Par(s, j) < j && Par(s, j) < p)
    && (forall j :: u <= j < |s| ==> p <= Par(s, j))
    && (forall k, j :: 0 < k < j < u && Par(s, j) < k ==> Par(s, j) <= Par(s, k))
  }

  /** The nodes are those of s0; the families of the p visited nodes are reversed. */
  ghost predicate Reversed(s0: seq<Context>, s: seq<Context>, p: nat)
    requires p <= |s|
  {
    && |s| == |s0| > 0 && s[0] == s0[0]
    && multiset(s) == multiset(s0)
    && (forall x :: x in s0 ==> Kids(x, s) == if x in s[..p] then Rev(Kids(x, s0)) else Kids(x, s0))
  }

  ghost predicate Partial(s0: seq<Context>, s: seq<Context>, p: nat, u: nat) {
    Staged(s, p, u) && Reversed(s0, s, p)
  }

  lemma PartialStart(s0: seq<Context>)
    requires ParentTree(s0) && NoDup(s0)
    ensures Partial(s0, s0, 0, 1)
  {
  }

  lemma PartialEnd(s0: seq<Context>, s: seq<Context>, p: nat, u: nat)
    requires Partial(s0, s, p, u) && u == |s|
    ensures Organizes(s0, s)
  {
    forall x | x in s0 ensures Kids(x, s) == Rev(Kids(x, s0)) {
      if x !in s[..p] {
        // everything placed has a visited parent, so x has no children at all
        forall i | 0 <= i < |s| ensures s[i].parent != x {
          assert i > 0 ==> s[Par(s, i)] == s[i].parent;
        }
        NoKids(x, s);
      }
    }
  }

  /** While something is unplaced something waits: otherwise a parent chain would never end. */
  lemma {:induction false} ChainIsPlaced(s: seq<Context>, p: nat, j: nat, n: nat)
    requires Staged(s, p, p) && j < |s|
    requires AtDepth(s[j], n)
    ensures j < p
    decreases n
  {
    if p <= j {
      ChainIsPlaced(s, p, Par(s, j), n - 1);
    }
  }

  lemma WaitingOrDone(s0: seq<Context>, s: seq<Context>, p: nat, u: nat)
    requires ParentTree(s0) && Partial(s0, s, p, u) && p < |s|
    ensures p < u
  {
    if p == u {
      SameMembers(s, s0);
      assert s[p] in s0;
      var n: nat :| AtDepth(s[p], n);
      ChainIsPlaced(s, p, p, n);
    }
  }

  // ---------- One visit keeps the division ----------

  /** No node left of u is a child of s[p]. */
  ghost predicate FamilyUnplaced(s: seq<Context>, p: nat, u: nat) {
    && p < u <= |s|
    && (forall j :: 0 <= j < u ==> s[j].parent != s[p])
  }

  lemma VisitFindsFamily(s: seq<Context>, p: nat, u: nat)
    requires Staged(s, p, u) && p < u
    ensures FamilyUnplaced(s, p, u)
  {
    forall j | 0 <= j < u ensures s[j].parent != s[p] {
      assert j > 0 ==> s[Par(s, j)] == s[j].parent;
    }
  }

  lemma PartialFacts(s0: seq<Context>, s: seq<Context>, p: nat, u: nat)
    requires Partial(s0, s, p, u)
    ensures NoDup(s) && p <= u && |s| == |s0| && u <= |s|
    ensures forall x :: x in s ==> x in s0
    ensures p < u ==> FamilyUnplaced(s, p, u)
  {
    if p < u { VisitFindsFamily(s, p, u); }
    SameMembers(s, s0);
  }

  lemma KidsSkip(x: Context, b: seq<Context>, c: seq<Context>)
    requires forall i :: 0 <= i < |b| ==> b[i].parent != x
    ensures Kids(x, b + c) == Kids(x, c)
    ensures Others(x, b + c) == b + Others(x, c)
  {
    NoKids(x, b);
    KidsConcat(x, b, c);
  }

  /** Only unplaced nodes move. */
  lemma PlaceShape(s: seq<Context>, p: nat, u: nat)
    requires FamilyUnplaced(s, p, u)
    ensures Kids(s[p], s[u..]) == Kids(s[p], s)
    ensures Place(s, p) == s[..p + 1] + Rev(Kids(s[p], s)) + (s[p + 1..u] + Others(s[p], s[u..]))
  {
    var x, A, B, C := s[p], s[..p + 1], s[p + 1..u], s[u..];
    assert s[p + 1..] == B + C && s[p + 1..p + 1] == [];
    assert s == A + (B + C);
    KidsSkip(x, B, C);
    KidsSkip(x, A, B + C);
    var K, O := Kids(x, C), Others(x, C);
    assert A + Rev(K) + [] + (B + O) == A + Rev(K) + (B + O);
  }

  lemma PlaceMultiset(s: seq<Context>, p: nat)
    requires p < |s|
    ensures multiset(Place(s, p)) == multiset(s)
  {
    KidsMultiset(s[p], s[p + 1..]);
    RevMultiset(Kids(s[p], s[p + 1..]));
    assert s == s[..p + 1] + s[p + 1..];
    assert s[p + 1..p + 1] == [];
  }

  /** Where every place of the new list comes from. */
  lemma PlacePlaces(s: seq<Context>, p: nat, u: nat, t: seq<Context>, k: nat)
    requires FamilyUnplaced(s, p, u)
    requires t == Place(s, p) && k == |Kids(s[p], s)|
    ensures |t| == |s| && u + k <= |t|
    ensures forall j :: 0 <= j <= p ==> t[j] == s[j]
    ensures forall j :: p < j <= p + k ==> t[j].parent == s[p]
    ensures forall j :: p + k < j < u + k ==> t[j] == s[j - k]
    ensures forall j :: u + k <= j < |t| ==> t[j].parent != s[p]
  {
    hide Kids, Others, Rev, Place;
    PlaceShape(s, p, u);
    KidsMultiset(s[p], s[u..]);
    KidsParent(s[p], s);
    KidsParent(s[p], s[u..]);
    Pieces(s[..p + 1], Rev(Kids(s[p], s)), s[p + 1..u], Others(s[p], s[u..]));
  }

  lemma Pieces<T>(a: seq<T>, b: seq<T>, c: seq<T>, d: seq<T>)
    ensures var t := a + b + (c + d);
      && |t| == |a| + |b| + |c| + |d|
      && (forall j :: 0 <= j < |a| ==> t[j] == a[j])
      && (forall j :: |a| <= j < |a| + |b| ==> t[j] == b[j - |a|])
      && (forall j :: |a| + |b| <= j < |a| + |b| + |c| ==> t[j] == c[j - |a| - |b|])
      && (forall j :: |a| + |b| + |c| <= j < |t| ==> t[j] == d[j - |a| - |b| - |c|])
  {
  }

  lemma FamilyOnly(p: Context, s: seq<Context>, x: Context)
    ensures Kids(x, Rev(Kids(p, s))) == if x == p then Rev(Kids(p, s)) else []
  {
    KidsParent(p, s);
    if x == p { AllKids(x, Rev(Kids(p, s))); } else { NoKids(x, Rev(Kids(p, s))); }
  }

  lemma OthersKids(p: Context, s: seq<Context>, x: Context)
    ensures Kids(x, Others(p, s)) == if x == p then [] else Kids(x, s)
  {
    if x == p {
      KidsParent(p, s);
      NoKids(p, Others(p, s));
    } else {
      KidsOfOthers(p, x, s);
    }
  }

  lemma KidsOfPieces(x: Context, a: seq<Context>, b: seq<Context>, c: seq<Context>, d: seq<Context>)
    ensures Kids(x, a + b + (c + d)) == Kids(x, a) + Kids(x, b) + (Kids(x, c) + Kids(x, d))
  {
    KidsConcat(x, a + b, c + d);
    KidsConcat(x, a, b);
    KidsConcat(x, c, d);
  }

  /** The family of s[p] is reversed and every other family keeps its order. */
  lemma PlaceKids(s: seq<Context>, p: nat, u: nat, x: Context)
    requires FamilyUnplaced(s, p, u)
    ensures Kids(x, Place(s, p)) == if x == s[p] then Rev(Kids(x, s)) else Kids(x, s)
  {
    hide Kids, Others, Rev, Place;
    var A, B, C := s[..p + 1], s[p + 1..u], s[u..];
    PlaceShape(s, p, u);
    KidsOfPieces(x, A, Rev(Kids(s[p], s)), B, Others(s[p], C));
    FamilyOnly(s[p], s, x);
    OthersKids(s[p], C, x);
    if x == s[p] {
      assert forall i :: 0 <= i < |B| ==> B[i] == s[p + 1 + i];
      NoKids(x, A);
      NoKids(x, B);
    } else {
      assert s == A + [] + (B + C);
      KidsOfPieces(x, A, [], B, C);
      NoKids(x, []);
    }
  }

  /** Where every place of t comes from when k children move behind place p of s, as PlacePlaces
      states it for t == Place(s, p). */
  ghost predicate Placed(s: seq<Context>, p: nat, u: nat, t: seq<Context>, k: nat)
    requires p < u <= |s|
  {
    && |t| == |s| && u + k <= |t|
    && (forall j :: 0 <= j <= p ==> t[j] == s[j])
    && (forall j :: p < j <= p + k ==> t[j].parent == s[p])
    && (forall j :: p + k < j < u + k ==> t[j] == s[j - k])
    && (forall j :: u + k <= j < |t| ==> t[j].parent != s[p])
  }

  lemma KeptParent(s: seq<Context>, t: seq<Context>, i: nat, j: nat)
    requires NoDup(t) && i < |s| && j < |t| && s[i] == t[j]
    requires HasParent(s, i) && HasParent(t, j)
    requires Par(s, i) < |t| && t[Par(s, i)] == s[Par(s, i)]
    ensures Par(t, j) == Par(s, i)
  {
  }

  /** A child of a visited node was placed before, so it does not stand among the unplaced. */
  lemma UnplacedParent(s: seq<Context>, p: nat, u: nat, t: seq<Context>, k: nat, j: nat, i: nat)
    requires Staged(s, p, u) && p < u && Placed(s, p, u, t, k) && NoDup(t)
    requires u + k <= j < |t| && HasParent(t, j) && i < |s| && s[i] == t[j]
    ensures p < Par(t, j)
  {
    assert forall m :: 0 <= m < u ==> s[m] == t[if m <= p then m else m + k];
    assert u <= i;
    assert t[Par(t, j)] == s[Par(s, i)];
  }

  /** Where the parents stand after the visit. */
  lemma PlaceParents(s: seq<Context>, p: nat, u: nat, t: seq<Context>, k: nat)
    requires Staged(s, p, u) && p < u && Placed(s, p, u, t, k) && NoDup(t)
    requires forall j :: 0 < j < |t| ==> HasParent(t, j)
    ensures forall j :: 0 < j <= p ==> Par(t, j) == Par(s, j)
    ensures forall j :: p < j <= p + k ==> Par(t, j) == p
    ensures forall j :: p + k < j < u + k ==> Par(t, j) == Par(s, j - k)
  {
    forall j | 0 < j <= p ensures Par(t, j) == Par(s, j) {
      KeptParent(s, t, j, j);
    }
    forall j | p < j <= p + k ensures Par(t, j) == p {
      assert t[p] == s[p] == t[j].parent;
    }
    forall j | p + k < j < u + k ensures Par(t, j) == Par(s, j - k) {
      KeptParent(s, t, j - k, j);
    }
  }

  lemma PlaceStages(s: seq<Context>, p: nat, u: nat, t: seq<Context>, k: nat)
    requires Staged(s, p, u) && p < u && Placed(s, p, u, t, k) && NoDup(t)
    requires forall x :: x in t <==> x in s
    ensures Staged(t, p + 1, u + k)
  {
    assert t[0] == s[0];
    forall j | 0 < j < |t| ensures HasParent(t, j) {
      assert HasParent(s, Pos(s, t[j]));
    }
    PlaceParents(s, p, u, t, k);
    forall j | u + k <= j < |t| ensures p + 1 <= Par(t, j) {
      UnplacedParent(s, p, u, t, k, j, Pos(s, t[j]));
    }
  }

  lemma PlaceReverses(s0: seq<Context>, s: seq<Context>, p: nat, u: nat)
    requires FamilyUnplaced(s, p, u) && Reversed(s0, s, p) && NoDup(s)
    ensures |Place(s, p)| == |s| && Reversed(s0, Place(s, p), p + 1)
  {
    hide Kids, Others, Rev, Place;
    var t := Place(s, p);
    PlaceMultiset(s, p);
    PlacePlaces(s, p, u, t, |Kids(s[p], s)|);
    assert t[..p + 1] == s[..p] + [s[p]];
    forall x | x in s0
      ensures Kids(x, t) == if x in t[..p + 1] then Rev(Kids(x, s0)) else Kids(x, s0)
    {
      PlaceKids(s, p, u, x);
    }
  }

  /** The invariant of the outer loop: one more node visited, its whole family placed. */
  lemma PlaceKeeps(s0: seq<Context>, s: seq<Context>, p: nat, u: nat)
    requires Partial(s0, s, p, u) && p < u
    ensures Partial(s0, Place(s, p), p + 1, u + |Kids(s[p], s)|)
  {
    hide Kids, Others, Rev, Place;
    var t, k := Place(s, p), |Kids(s[p], s)|;
    VisitFindsFamily(s, p, u);
    PlaceReverses(s0, s, p, u);
    PlacePlaces(s, p, u, t, k);
    PlaceMultiset(s, p);
    NoDupMultiset(s, t);
    SameMembers(s, t);
    PlaceStages(s, p, u, t, k);
  }

  // ---------- Every registry can be organized ----------

  lemma {:induction false} PlaceAll(s0: seq<Context>, s: seq<Context>, p: nat, u: nat) returns (t: seq<Context>)
    requires ParentTree(s0) && Partial(s0, s, p, u)
    ensures Organizes(s0, t)
    decreases |s0| - p
  {
    hide Place, Partial, Organizes, ParentTree;
    PartialFacts(s0, s, p, u);
    if u == |s| {
      PartialEnd(s0, s, p, u);
      t := s;
    } else {
      WaitingOrDone(s0, s, p, u);
      PlaceKeeps(s0, s, p, u);
      t := PlaceAll(s0, Place(s, p), p + 1, u + |Kids(s[p], s)|);
    }
  }

  /** Placing the families one after the other from the root on ends with a list that organizes s. */
  lemma OrganizedExists(s: seq<Context>)
    requires ParentTree(s) && NoDup(s)
    ensures exists t :: Organizes(s, t)
  {
    hide Organizes;
    PartialStart(s);
    var t := PlaceAll(s, s, 0, 1);
  }

  /** The list that organize makes of s; by OrganizedUnique there is no other. */
  ghost function Organized(s: seq<Context>): (t: seq<Context>)
    requires ParentTree(s) && NoDup(s)
    ensures Organizes(s, t)
  {
    OrganizedExists(s);
    var t :| Organizes(s, t);
    t
  }
}
