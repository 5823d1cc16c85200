/** How set_level spreads a level over the organized list: the recursive walk with its returned
    positions, and which descendants it reaches. Positions stand for nodes, |s| for null; E is the
    set of nodes with an explicit level, which no step of the walk changes. */
module Inheritance {
  import opened Contexts
  import opened Sequences
  import opened Preorder

  // ---------- The walk ----------

  /** The first place from k on whose node has parent p. */
  function NextFrom(s: seq<Context>, p: Context?, k: nat): (r: nat)
    requires k <= |s|
    ensures k <= r <= |s|
    ensures r < |s| ==> s[r].parent == p
    ensures forall i :: k <= i < r ==> s[i].parent != p
    decreases |s| - k
  {
    if k == |s| then k else if s[k].parent == p then k else NextFrom(s, p, k + 1)
  }

  function NextSibling(s: seq<Context>, j: nat): (r: nat)
    requires j < |s|
    ensures j < r <= |s|
  {
    NextFrom(s, s[j].parent, j + 1)
  }

  /** sync_inherited_log_levels at place j: the nodes it writes, and the place it returns. */
  function Sync(s: seq<Context>, E: set<Context>, j: nat): (res: (set<Context>, nat))
    requires j < |s|
    ensures j < res.1 <= |s|
    decreases |s| - j, 0
  {
    if s[j] in E then ({}, NextSibling(s, j))
    else if j + 1 == |s| then ({s[j]}, |s|)
    else if s[j + 1].parent == s[j].parent then
      var (W, r) := Sync(s, E, j + 1);
      ({s[j]} + W, r)
    else
      var (W, r) := SyncKids(s, E, j, j + 1);
      ({s[j]} + W, r)
  }

  /** The loop of sync_inherited_log_levels over the children of the node at b. */
  function SyncKids(s: seq<Context>, E: set<Context>, b: nat, j: nat): (res: (set<Context>, nat))
    requires b < |s| && j <= |s|
    ensures j <= res.1 <= |s|
    decreases |s| - j, 1
  {
    if j == |s| || s[j].parent != s[b] then ({}, j)
    else
      var (W1, r1) := Sync(s, E, j);
      var (W2, r2) := SyncKids(s, E, b, r1);
      (W1 + W2, r2)
  }

  /** The loop of set_level over the children of the node at n, from the child at j on. */
  function SyncAll(s: seq<Context>, E: set<Context>, n: nat, j: nat): set<Context>
    requires n < |s| && j <= |s|
    decreases |s| - j
  {
    if j == |s| || s[j].parent != s[n] then {}
    else Sync(s, E, j).0 + SyncAll(s, E, n, NextSibling(s, j))
  }

  /** The walk over the children of j, with the nodes of W written before the child at k. */
  function Resumed(s: seq<Context>, E: set<Context>, j: nat, k: nat, W: set<Context>): (set<Context>, nat)
    requires j < |s| && k <= |s|
  {
    (W + SyncKids(s, E, j, k).0, SyncKids(s, E, j, k).1)
  }

  lemma SyncKidsStart(s: seq<Context>, E: set<Context>, j: nat)
    requires j + 1 < |s| && s[j] !in E && s[j + 1].parent != s[j].parent
    ensures Sync(s, E, j) == Resumed(s, E, j, j + 1, {s[j]})
  {
  }

  lemma SyncKidsStep(s: seq<Context>, E: set<Context>, j: nat, k: nat, W: set<Context>)
    requires j < |s| && k < |s| && s[k].parent == s[j]
    ensures Resumed(s, E, j, k, W) == Resumed(s, E, j, Sync(s, E, k).1, W + Sync(s, E, k).0)
  {
    var (V, r) := Sync(s, E, k);
    assert W + (V + SyncKids(s, E, j, r).0) == W + V + SyncKids(s, E, j, r).0;
  }

  lemma SyncKidsEnd(s: seq<Context>, E: set<Context>, j: nat, k: nat, W: set<Context>)
    requires j < |s| && k <= |s| && (k == |s| || s[k].parent != s[j])
    ensures Resumed(s, E, j, k, W) == (W, k)
  {
    assert W + {} == W;
  }

  // ---------- What the walk can touch, whatever the order of the list ----------

  /** x is reached from n by d or fewer further steps down the tree, through nodes without explicit
      level. Only parents are looked at, never places. */
  ghost predicate Under(E: set<Context>, n: Context?, x: Context, d: nat) {
    x.parent == n || (d > 0 && x.parent != null && x.parent !in E && Under(E, n, x.parent, d - 1))
  }

  /** A node the walk may write when it is called on n: without explicit level, and an heir of n. */
  ghost predicate Heir(E: set<Context>, n: Context?, x: Context) {
    x !in E && exists d: nat :: Under(E, n, x, d)
  }

  lemma {:induction false} UnderChild(E: set<Context>, n: Context?, m: Context, x: Context, d: nat)
    requires m.parent == n && m !in E && Under(E, m, x, d)
    ensures Under(E, n, x, d + 1)
  {
    if x.parent == m {
      assert Under(E, n, m, 0);
    } else {
      UnderChild(E, n, m, x.parent, d - 1);
    }
  }

  lemma HeirOfChild(E: set<Context>, n: Context?, m: Context, x: Context)
    requires m.parent == n && m !in E && Heir(E, m, x)
    ensures Heir(E, n, x)
  {
    var d: nat :| Under(E, m, x, d);
    UnderChild(E, n, m, x, d);
  }

  lemma {:induction false} SyncHeirs(s: seq<Context>, E: set<Context>, j: nat, x: Context)
    requires j < |s| && x in Sync(s, E, j).0
    ensures Heir(E, s[j].parent, x)
    decreases |s| - j, 0
  {
    if x == s[j] {
      assert Under(E, s[j].parent, x, 0);
    } else if s[j + 1].parent == s[j].parent {
      SyncHeirs(s, E, j + 1, x);
    } else {
      SyncKidsHeirs(s, E, j, j + 1, x);
      HeirOfChild(E, s[j].parent, s[j], x);
    }
  }

  lemma {:induction false} SyncKidsHeirs(s: seq<Context>, E: set<Context>, b: nat, j: nat, x: Context)
    requires b < |s| && j <= |s| && x in SyncKids(s, E, b, j).0
    ensures Heir(E, s[b], x)
    decreases |s| - j, 1
  {
    if x in Sync(s, E, j).0 {
      SyncHeirs(s, E, j, x);
    } else {
      SyncKidsHeirs(s, E, b, Sync(s, E, j).1, x);
    }
  }

  /** On any list whatsoever, sorted or not, set_level writes only heirs of the node it is called on. */
  lemma {:induction false} SyncAllHeirs(s: seq<Context>, E: set<Context>, n: nat, j: nat, x: Context)
    requires n < |s| && j <= |s| && x in SyncAll(s, E, n, j)
    ensures Heir(E, s[n], x)
    decreases |s| - j
  {
    if x in Sync(s, E, j).0 {
      SyncHeirs(s, E, j, x);
    } else {
      SyncAllHeirs(s, E, n, NextSibling(s, j), x);
    }
  }

  // ---------- Subtrees ----------

  /** The end of the subtree of b: the first place from k on whose parent is left of b. */
  ghost function EndFrom(s: seq<Context>, b: nat, k: nat): (r: nat)
    requires IsPreorder(s) && b < k <= |s|
    ensures k <= r <= |s|
    ensures r < |s| ==> Par(s, r) < b
    ensures forall i :: k <= i < r ==> b <= Par(s, i)
    decreases |s| - k
  {
    assert k < |s| ==> HasParent(s, k);
    if k == |s| then k else if Par(s, k) < b then k else EndFrom(s, b, k + 1)
  }

  ghost function End(s: seq<Context>, b: nat): (r: nat)
    requires IsPreorder(s) && b < |s|
    ensures b < r <= |s|
    ensures r < |s| ==> Par(s, r) < b
    ensures forall i :: b < i < r ==> b <= Par(s, i)
  {
    EndFrom(s, b, b + 1)
  }

  /** k is a strict descendant of b. */
  ghost predicate Below(s: seq<Context>, b: nat, k: nat)
    requires IsPreorder(s) && k < |s|
    decreases k
  {
    b < k && (assert HasParent(s, k); Par(s, k) == b || Below(s, b, Par(s, k)))
  }

  /** In a preorder the descendants of b are exactly the run of places right behind b. */
  lemma {:induction false} SubtreeIsRun(s: seq<Context>, b: nat, k: nat)
    requires IsPreorder(s) && b < |s| && k < |s|
    ensures Below(s, b, k) <==> b < k < End(s, b)
    decreases k
  {
    if b < k {
      assert HasParent(s, k);
      var m := End(s, b);
      if Par(s, k) > b {
        SubtreeIsRun(s, b, Par(s, k));
      }
      if m < k && Par(s, k) < m {
        assert Par(s, k) <= Par(s, m);
      }
    }
  }

  /** Behind the subtree of a child of b comes the next child of b or the end of b's subtree. */
  lemma AfterChild(s: seq<Context>, b: nat, j: nat)
    requires IsPreorder(s) && 0 < j < |s| && HasParent(s, j) && Par(s, j) == b
    ensures b < j < End(s, j) <= End(s, b)
    ensures End(s, j) < End(s, b) ==> Par(s, End(s, j)) == b
    ensures NextSibling(s, j) == if End(s, j) < End(s, b) then End(s, j) else |s|
  {
    var m, r := End(s, j), NextSibling(s, j);
    SubtreeIsRun(s, b, j);
    assert m < |s| ==> HasParent(s, m);
    assert End(s, b) < |s| ==> HasParent(s, End(s, b));
    if m < End(s, b) {
      assert b <= Par(s, m) < j;
      assert Par(s, m) <= Par(s, j);
    }
    if r < |s| {
      assert HasParent(s, r) && Par(s, r) == b;
      SubtreeIsRun(s, b, r);
    }
  }

  // ---------- What the walk can see ----------

  /** k is a strict descendant of b and every node strictly between them is without explicit level. */
  ghost predicate Open(s: seq<Context>, E: set<Context>, b: nat, k: nat)
    requires IsPreorder(s) && k < |s|
    decreases k
  {
    && b < k
    && assert HasParent(s, k);
    && (Par(s, k) == b || (b < Par(s, k) && s[Par(s, k)] !in E && Open(s, E, b, Par(s, k))))
  }

  /** An explicit node without a later sibling: the walk returns null from it. */
  ghost predicate Stopper(s: seq<Context>, E: set<Context>, e: nat)
    requires e < |s|
  {
    s[e] in E && NextSibling(s, e) == |s|
  }

  lemma {:induction false} OpenIsBelow(s: seq<Context>, E: set<Context>, b: nat, k: nat)
    requires IsPreorder(s) && b < |s| && k < |s| && Open(s, E, b, k)
    ensures b < k < End(s, b)
    decreases k
  {
    assert HasParent(s, k);
    if Par(s, k) != b { OpenIsBelow(s, E, b, Par(s, k)); SubtreeIsRun(s, b, Par(s, k)); }
    SubtreeIsRun(s, b, k);
  }

  lemma {:induction false} UnderIsOpen(s: seq<Context>, E: set<Context>, b: nat, k: nat, d: nat)
    requires IsPreorder(s) && b < |s| && k < |s| && Under(E, s[b], s[k], d)
    ensures Open(s, E, b, k)
    decreases d
  {
    assert k > 0;
    assert HasParent(s, k);
    if s[k].parent != s[b] {
      UnderIsOpen(s, E, b, Par(s, k), d - 1);
    }
  }

  lemma {:induction false} OpenIsUnder(s: seq<Context>, E: set<Context>, b: nat, k: nat)
    requires IsPreorder(s) && b < |s| && k < |s| && Open(s, E, b, k)
    ensures Under(E, s[b], s[k], k)
    decreases k
  {
    assert HasParent(s, k);
    if Par(s, k) != b {
      OpenIsUnder(s, E, b, Par(s, k));
      UnderMonotone(E, s[b], s[Par(s, k)], Par(s, k), k - 1);
    }
  }

  lemma {:induction false} UnderMonotone(E: set<Context>, n: Context?, x: Context, d: nat, e: nat)
    requires d <= e && Under(E, n, x, d)
    ensures Under(E, n, x, e)
    decreases d
  {
    if x.parent != n {
      UnderMonotone(E, n, x.parent, d - 1, e - 1);
    }
  }

  /** On a preorder the heirs of a node are exactly its open descendants without explicit level. */
  lemma HeirIffOpen(s: seq<Context>, E: set<Context>, b: nat, k: nat)
    requires IsPreorder(s) && b < |s| && k < |s|
    ensures Heir(E, s[b], s[k]) <==> s[k] !in E && Open(s, E, b, k)
  {
    if Heir(E, s[b], s[k]) {
      var d: nat :| Under(E, s[b], s[k], d);
      UnderIsOpen(s, E, b, k, d);
    }
    if Open(s, E, b, k) {
      OpenIsUnder(s, E, b, k);
    }
  }

  /** Inside the subtree of a child of b, openness is inherited from the child unless it is explicit. */
  lemma {:induction false} OpenThroughChild(s: seq<Context>, E: set<Context>, b: nat, j: nat, k: nat)
    requires IsPreorder(s) && 0 < j < |s| && HasParent(s, j) && Par(s, j) == b
    requires j < k < End(s, j)
    ensures Open(s, E, b, k) <==> s[j] !in E && Open(s, E, j, k)
    decreases k
  {
    assert HasParent(s, k) && j <= Par(s, k);
    if j < Par(s, k) {
      OpenThroughChild(s, E, b, j, Par(s, k));
    }
  }

  /** W is exactly the open nodes of b in [lo, hi) without explicit level, and nothing there stops
      the walk. */
  ghost predicate Sweep(s: seq<Context>, E: set<Context>, b: nat, lo: nat, hi: nat, W: set<Context>)
    requires IsPreorder(s) && hi <= |s|
  {
    && (forall k :: 0 <= k < |s| ==> (s[k] in W <==> lo <= k < hi && s[k] !in E && Open(s, E, b, k)))
    && (forall k :: lo <= k < hi && Open(s, E, b, k) ==> !Stopper(s, E, k))
  }

  /** The walk below b from lo ended regularly at r. */
  ghost predicate Clean(s: seq<Context>, E: set<Context>, b: nat, lo: nat, W: set<Context>, r: nat)
    requires IsPreorder(s) && b < |s|
  {
    && lo <= r <= End(s, b)
    && (r < End(s, b) ==> HasParent(s, r) && Par(s, r) == b)
    && Sweep(s, E, b, lo, r, W)
  }

  /** The walk below b from lo was cut off at the stopper e and returned null. */
  ghost predicate Cut(s: seq<Context>, E: set<Context>, b: nat, lo: nat, W: set<Context>, r: nat, e: nat)
    requires IsPreorder(s) && b < |s|
  {
    && r == |s|
    && lo <= e < End(s, b)
    && Open(s, E, b, e) && Stopper(s, E, e)
    && Sweep(s, E, b, lo, e, W)
  }

  ghost predicate Walked(s: seq<Context>, E: set<Context>, b: nat, lo: nat, W: set<Context>, r: nat)
    requires IsPreorder(s) && b < |s|
  {
    Clean(s, E, b, lo, W, r) || exists e: nat :: Cut(s, E, b, lo, W, r, e)
  }

  lemma SweepJoin(s: seq<Context>, E: set<Context>, b: nat, lo: nat, mid: nat, hi: nat,
                  V: set<Context>, W: set<Context>)
    requires IsPreorder(s) && lo <= mid <= hi <= |s|
    requires Sweep(s, E, b, lo, mid, V) && Sweep(s, E, b, mid, hi, W)
    ensures Sweep(s, E, b, lo, hi, V + W)
  {
  }

  lemma WalkedJoin(s: seq<Context>, E: set<Context>, b: nat, lo: nat, mid: nat,
                   V: set<Context>, W: set<Context>, r: nat)
    requires IsPreorder(s) && b < |s|
    requires Clean(s, E, b, lo, V, mid) && Walked(s, E, b, mid, W, r)
    ensures Walked(s, E, b, lo, V + W, r)
  {
    if Clean(s, E, b, mid, W, r) {
      SweepJoin(s, E, b, lo, mid, r, V, W);
    } else {
      var e: nat :| Cut(s, E, b, mid, W, r, e);
      SweepJoin(s, E, b, lo, mid, e, V, W);
      assert Cut(s, E, b, lo, V + W, r, e);
    }
  }

  lemma SweepLift(s: seq<Context>, E: set<Context>, b: nat, j: nat, lo: nat, hi: nat, W: set<Context>)
    requires IsPreorder(s) && 0 < j < |s| && HasParent(s, j) && Par(s, j) == b && s[j] !in E
    requires lo == j + 1 <= hi <= End(s, j) && Sweep(s, E, j, lo, hi, W)
    ensures Sweep(s, E, b, j, hi, {s[j]} + W)
  {
    forall k | j < k < hi ensures Open(s, E, b, k) <==> Open(s, E, j, k) {
      OpenThroughChild(s, E, b, j, k);
    }
    forall k | 0 <= k < |s| && s[k] in W ensures k != j {
    }
  }

  /** A walk below the child j, seen from b. */
  lemma WalkedLift(s: seq<Context>, E: set<Context>, b: nat, j: nat, lo: nat, W: set<Context>, r: nat)
    requires IsPreorder(s) && 0 < j < |s| && HasParent(s, j) && Par(s, j) == b && s[j] !in E
    requires lo == j + 1 && Walked(s, E, j, lo, W, r) && (r == End(s, j) || r == |s|)
    ensures Walked(s, E, b, j, {s[j]} + W, r)
  {
    hide Sweep, Open, Stopper;
    AfterChild(s, b, j);
    if e: nat :| Cut(s, E, j, lo, W, r, e) {
      SweepLift(s, E, b, j, lo, e, W);
      OpenThroughChild(s, E, b, j, e);
      assert Cut(s, E, b, j, {s[j]} + W, r, e);
    } else {
      SweepLift(s, E, b, j, lo, r, W);
      assert Clean(s, E, b, j, {s[j]} + W, r);
    }
  }

  // ---------- The walk sees exactly the open nodes up to the first stopper ----------

  lemma ExplicitChild(s: seq<Context>, E: set<Context>, b: nat, j: nat)
    requires IsPreorder(s) && 0 < j < |s| && HasParent(s, j) && Par(s, j) == b && s[j] in E
    ensures Walked(s, E, b, j, {}, NextSibling(s, j))
    ensures NextSibling(s, j) == |s| ==> Cut(s, E, b, j, {}, |s|, j)
  {
    AfterChild(s, b, j);
    assert Open(s, E, b, j);
    if NextSibling(s, j) == |s| {
      assert Cut(s, E, b, j, {}, |s|, j);
    } else {
      forall k | j < k < End(s, j) ensures !Open(s, E, b, k) {
        OpenThroughChild(s, E, b, j, k);
      }
      assert Clean(s, E, b, j, {}, End(s, j));
    }
  }

  lemma LeafStep(s: seq<Context>, E: set<Context>, b: nat, j: nat)
    requires IsPreorder(s) && 0 < j < |s| && HasParent(s, j) && Par(s, j) == b && s[j] !in E
    requires End(s, j) == j + 1
    ensures Clean(s, E, b, j, {s[j]}, j + 1)
  {
    AfterChild(s, b, j);
    assert Open(s, E, b, j);
  }

  lemma {:induction false} SyncWalks(s: seq<Context>, E: set<Context>, b: nat, j: nat)
    requires IsPreorder(s) && 0 < j < |s| && HasParent(s, j) && Par(s, j) == b
    ensures Walked(s, E, b, j, Sync(s, E, j).0, Sync(s, E, j).1)
    decreases |s| - j, 0
  {
    hide Clean, Cut, Sweep, Open, Stopper;
    AfterChild(s, b, j);
    if s[j] in E {
      ExplicitChild(s, E, b, j);
    } else if j + 1 == |s| {
      LeafStep(s, E, b, j);
    } else {
      assert HasParent(s, j + 1);
      if s[j + 1].parent == s[j].parent {
        SyncWalks(s, E, b, j + 1);
        LeafStep(s, E, b, j);
        var (W, r) := Sync(s, E, j + 1);
        WalkedJoin(s, E, b, j, j + 1, {s[j]}, W, r);
      } else {
        SyncKidsWalks(s, E, j, j + 1);
        var (W, r) := SyncKids(s, E, j, j + 1);
        WalkedLift(s, E, b, j, j + 1, W, r);
      }
    }
  }

  lemma {:induction false} SyncKidsWalks(s: seq<Context>, E: set<Context>, b: nat, j: nat)
    requires IsPreorder(s) && b < |s| && b < j <= End(s, b)
    requires j < End(s, b) ==> HasParent(s, j) && Par(s, j) == b
    ensures Walked(s, E, b, j, SyncKids(s, E, b, j).0, SyncKids(s, E, b, j).1)
    ensures SyncKids(s, E, b, j).1 == End(s, b) || SyncKids(s, E, b, j).1 == |s|
    decreases |s| - j, 1
  {
    if j == End(s, b) {
      assert j < |s| ==> HasParent(s, j) && s[Par(s, j)] == s[j].parent;
      assert Clean(s, E, b, j, {}, j);
    } else {
      SyncWalks(s, E, b, j);
      var (W, r) := Sync(s, E, j);
      if Clean(s, E, b, j, W, r) {
        SyncKidsWalks(s, E, b, r);
        var (V, q) := SyncKids(s, E, b, r);
        WalkedJoin(s, E, b, j, r, W, V, q);
      } else {
        var e: nat :| Cut(s, E, b, j, W, r, e);
        assert SyncKids(s, E, b, r) == ({}, r);
        assert W + {} == W;
      }
    }
  }

  // ---------- What one set_level reaches ----------

  /** The child of n whose subtree holds k. */
  ghost function Branch(s: seq<Context>, n: nat, k: nat): (c: nat)
    requires IsPreorder(s) && n < |s| && n < k < End(s, n)
    ensures n < c <= k && HasParent(s, c) && Par(s, c) == n
    decreases k
  {
    assert HasParent(s, k);
    if Par(s, k) == n then k else Branch(s, n, Par(s, k))
  }

  lemma {:induction false} BranchHolds(s: seq<Context>, n: nat, k: nat, j: nat)
    requires IsPreorder(s) && n < |s| && n < k < End(s, n)
    requires 0 < j <= k < End(s, j) && HasParent(s, j) && Par(s, j) == n
    ensures Branch(s, n, k) == j
    decreases k
  {
    assert HasParent(s, k);
    if j < k {
      BranchHolds(s, n, Par(s, k), j);
    }
  }

  /** set_level on n reaches k: an open node without explicit level, and no stopper stands before it in
      the branch of n that holds it. */
  ghost predicate Reached(s: seq<Context>, E: set<Context>, n: nat, k: nat)
    requires IsPreorder(s) && n < |s| && k < |s|
  {
    && n < k < End(s, n)
    && s[k] !in E && Open(s, E, n, k)
    && (forall e :: Branch(s, n, k) <= e < k && Open(s, E, n, e) ==> !Stopper(s, E, e))
  }

  /** The branch of a place right of the child j starts at j or later. */
  lemma BranchFrom(s: seq<Context>, n: nat, k: nat, j: nat)
    requires IsPreorder(s) && n < |s| && n < k < End(s, n)
    requires n < j <= k && HasParent(s, j) && Par(s, j) == n
    ensures j <= Branch(s, n, k)
  {
    var c := Branch(s, n, k);
    BranchRun(s, n, k);
  }

  lemma {:induction false} BranchRun(s: seq<Context>, n: nat, k: nat)
    requires IsPreorder(s) && n < |s| && n < k < End(s, n)
    ensures k < End(s, Branch(s, n, k))
    decreases k
  {
    assert HasParent(s, k);
    var c := Branch(s, n, k);
    if c < k {
      BranchRun(s, n, Par(s, k));
      SubtreeIsRun(s, c, Par(s, k));
      SubtreeIsRun(s, c, k);
    }
  }

  /** One pass of the loop reaches no node it should not. */
  lemma SyncSound(s: seq<Context>, E: set<Context>, n: nat, j: nat, k: nat)
    requires IsPreorder(s) && 0 < j < |s| && HasParent(s, j) && Par(s, j) == n
    requires k < |s| && s[k] in Sync(s, E, j).0
    ensures j <= k && Reached(s, E, n, k)
  {
    SyncWalks(s, E, n, j);
    var (W, r) := Sync(s, E, j);
    if !Clean(s, E, n, j, W, r) {
      var e: nat :| Cut(s, E, n, j, W, r, e);
    }
    OpenIsBelow(s, E, n, k);
    BranchFrom(s, n, k, j);
  }

  /** One pass of the loop reaches every reachable node of its own branch. */
  lemma SyncComplete(s: seq<Context>, E: set<Context>, n: nat, j: nat, k: nat)
    requires IsPreorder(s) && 0 < j < |s| && HasParent(s, j) && Par(s, j) == n
    requires j <= k < End(s, j) && n < k && Reached(s, E, n, k)
    ensures s[k] in Sync(s, E, j).0
  {
    SyncWalks(s, E, n, j);
    AfterChild(s, n, j);
    BranchHolds(s, n, k, j);
    var (W, r) := Sync(s, E, j);
    if Clean(s, E, n, j, W, r) {
      assert End(s, j) <= r;
    } else {
      var e: nat :| Cut(s, E, n, j, W, r, e);
      assert k <= e;
    }
  }

  lemma {:induction false} SyncAllFrom(s: seq<Context>, E: set<Context>, n: nat, j: nat, k: nat)
    requires IsPreorder(s) && n < |s| && n < j <= |s| && k < |s|
    requires j < |s| ==> HasParent(s, j) && (j < End(s, n) ==> Par(s, j) == n)
    requires End(s, n) <= j ==> j == |s| || s[j].parent != s[n]
    ensures s[k] in SyncAll(s, E, n, j) <==> j <= k && Reached(s, E, n, k)
    decreases |s| - j
  {
    if j < End(s, n) {
      AfterChild(s, n, j);
      var m := NextSibling(s, j);
      assert m < |s| ==> HasParent(s, m);
      SyncAllFrom(s, E, n, m, k);
      if s[k] in Sync(s, E, j).0 {
        SyncSound(s, E, n, j, k);
      }
      if j <= k < m && Reached(s, E, n, k) {
        assert k < End(s, j);
        SyncComplete(s, E, n, j, k);
      }
    }
  }

  /** set_level on the node at n writes exactly the nodes it reaches. */
  lemma SetLevelReaches(s: seq<Context>, E: set<Context>, n: nat, k: nat)
    requires IsPreorder(s) && n < |s| && k < |s|
    ensures s[k] in SyncAll(s, E, n, n + 1) <==> Reached(s, E, n, k)
  {
    if n + 1 < |s| {
      assert HasParent(s, n + 1);
    }
    SyncAllFrom(s, E, n, n + 1, k);
  }

  // ---------- When it reaches everything it should ----------

  /** No explicit last sibling that the walk can see stands, in one branch of n, before a node that
      inherits from n. */
  ghost predicate Complete(s: seq<Context>, E: set<Context>, n: nat)
    requires IsPreorder(s) && n < |s|
  {
    forall k, e :: n < k < End(s, n) && s[k] !in E && Open(s, E, n, k) && Branch(s, n, k) <= e < k && Open(s, E, n, e)
      ==> !Stopper(s, E, e)
  }

  /** This is exactly when set_level on n writes every node that inherits from n. */
  lemma CompleteIffAllReached(s: seq<Context>, E: set<Context>, n: nat)
    requires IsPreorder(s) && n < |s|
    ensures Complete(s, E, n)
       <==> forall x :: x in s && Heir(E, s[n], x) ==> x in SyncAll(s, E, n, n + 1)
  {
    hide Heir, SyncAll, IsPreorder;
    if Complete(s, E, n) {
      forall x | x in s && Heir(E, s[n], x) ensures x in SyncAll(s, E, n, n + 1) {
        var k := Pos(s, x);
        HeirIffOpen(s, E, n, k);
        OpenIsBelow(s, E, n, k);
        SetLevelReaches(s, E, n, k);
      }
    }
    if forall x :: x in s && Heir(E, s[n], x) ==> x in SyncAll(s, E, n, n + 1) {
      forall k, e | n < k < End(s, n) && s[k] !in E && Open(s, E, n, k)
                    && Branch(s, n, k) <= e < k && Open(s, E, n, e)
        ensures !Stopper(s, E, e)
      {
        HeirIffOpen(s, E, n, k);
        SetLevelReaches(s, E, n, k);
      }
    }
  }

  /** Whether n itself is explicit plays no part in what the walk below it does. */
  ghost predicate SameBelow(s: seq<Context>, E: set<Context>, F: set<Context>, n: nat)
    requires n < |s|
  {
    forall k :: n < k < |s| ==> (s[k] in E <==> s[k] in F)
  }

  lemma {:induction false} OpenSame(s: seq<Context>, E: set<Context>, F: set<Context>, n: nat, k: nat)
    requires IsPreorder(s) && n < |s| && k < |s| && SameBelow(s, E, F, n)
    ensures Open(s, E, n, k) <==> Open(s, F, n, k)
    decreases k
  {
    if n < k {
      assert HasParent(s, k);
      if n < Par(s, k) { OpenSame(s, E, F, n, Par(s, k)); }
    }
  }

  lemma CompleteSame(s: seq<Context>, E: set<Context>, F: set<Context>, n: nat)
    requires IsPreorder(s) && n < |s| && SameBelow(s, E, F, n)
    requires Complete(s, E, n)
    ensures Complete(s, F, n)
  {
    forall k, e | n < k < End(s, n) && s[k] !in F && Open(s, F, n, k)
                  && Branch(s, n, k) <= e < k && Open(s, F, n, e)
      ensures !Stopper(s, F, e)
    {
      OpenSame(s, E, F, n, k);
      OpenSame(s, E, F, n, e);
      assert !Stopper(s, E, e);
    }
  }

  /** With a reached node its parent is reached, up to n. */
  lemma ReachedParent(s: seq<Context>, E: set<Context>, n: nat, k: nat)
    requires IsPreorder(s) && n < |s| && k < |s| && Reached(s, E, n, k)
    ensures HasParent(s, k) && (Par(s, k) == n || Reached(s, E, n, Par(s, k)))
  {
    assert HasParent(s, k);
    if Par(s, k) != n {
      OpenIsBelow(s, E, n, Par(s, k));
    }
  }

  /** The number of parent links from k up to n. */
  ghost function LinksTo(s: seq<Context>, n: nat, k: nat): (d: nat)
    requires IsPreorder(s) && n < |s| && n < k < End(s, n)
    ensures d > 0
    decreases k
  {
    assert HasParent(s, k);
    if Par(s, k) == n then 1 else 1 + LinksTo(s, n, Par(s, k))
  }

  /** That is by how much k lies deeper than n. */
  lemma {:induction false} LinksAreDepth(s: seq<Context>, n: nat, k: nat, d: nat)
    requires IsPreorder(s) && n < |s| && n < k < End(s, n) && AtDepth(s[n], d)
    ensures AtDepth(s[k], d + LinksTo(s, n, k))
    decreases k
  {
    assert HasParent(s, k);
    if Par(s, k) != n {
      LinksAreDepth(s, n, Par(s, k), d);
    }
  }

  /** A stopper one or two levels below n hides nothing that comes after it in its branch. */
  lemma ShallowStopper(s: seq<Context>, E: set<Context>, n: nat, e: nat, k: nat)
    requires IsPreorder(s) && n < |s| && n < e < k < End(s, n)
    requires Open(s, E, n, e) && Stopper(s, E, e) && Branch(s, n, k) <= e
    requires LinksTo(s, n, e) <= 2
    ensures !Open(s, E, n, k)
  {
    assert HasParent(s, e);
    var c := Branch(s, n, k);
    BranchRun(s, n, k);
    BranchHolds(s, n, e, c);
    assert e == c || Par(s, e) == c;
    AfterChild(s, Par(s, e), e);
    assert k < End(s, e);
    OpenThroughChild(s, E, Par(s, e), e, k);
    if e != c {
      OpenThroughChild(s, E, n, c, k);
    }
  }

  /** Every explicit node three or more levels below n has a later sibling. */
  ghost predicate DeepSiblings(s: seq<Context>, E: set<Context>, n: nat)
    requires IsPreorder(s) && n < |s|
  {
    forall e :: n < e < End(s, n) && s[e] in E && LinksTo(s, n, e) >= 3 ==> NextSibling(s, e) < |s|
  }

  /** That is enough. */
  lemma DeepSiblingsSuffice(s: seq<Context>, E: set<Context>, n: nat)
    requires IsPreorder(s) && n < |s| && DeepSiblings(s, E, n)
    ensures Complete(s, E, n)
  {
    forall k, e | n < k < End(s, n) && s[k] !in E && Open(s, E, n, k)
                  && Branch(s, n, k) <= e < k && Open(s, E, n, e)
      ensures !Stopper(s, E, e)
    {
      if Stopper(s, E, e) {
        OpenIsBelow(s, E, n, e);
        ShallowStopper(s, E, n, e, k);
      }
    }
  }

  // ---------- Without that, a level can fail to arrive ----------

  /** A root, its child a, the children aa and ab of a, and aaa below aa, in preorder. */
  ghost predicate FiveNodes(s: seq<Context>) {
    && |s| == 5 && NoDup(s)
    && s[0].parent == null && s[1].parent == s[0] && s[2].parent == s[1]
    && s[3].parent == s[2] && s[4].parent == s[1]
  }

  lemma FivePlaces(s: seq<Context>)
    requires FiveNodes(s)
    ensures IsPreorder(s)
    ensures HasParent(s, 4) && Par(s, 4) == 1 && HasParent(s, 1) && Par(s, 1) == 0
  {
    assert HasParent(s, 1) && Par(s, 1) == 0;
    assert HasParent(s, 2) && Par(s, 2) == 1;
    assert HasParent(s, 3) && Par(s, 3) == 2;
    assert HasParent(s, 4) && Par(s, 4) == 1;
  }

  lemma FiveDeep(s: seq<Context>)
    requires FiveNodes(s)
    ensures IsPreorder(s) && 3 < End(s, 0) && LinksTo(s, 0, 3) == 3
  {
    FivePlaces(s);
    assert HasParent(s, 2) && Par(s, 2) == 1 && HasParent(s, 3) && Par(s, 3) == 2;
    assert Below(s, 0, 1) && Below(s, 0, 2) && Below(s, 0, 3);
    SubtreeIsRun(s, 0, 1);
    SubtreeIsRun(s, 0, 2);
    SubtreeIsRun(s, 0, 3);
    assert LinksTo(s, 0, 1) == 1 && LinksTo(s, 0, 2) == 2;
  }

  /** Of these only aaa, and perhaps the root, is explicit. */
  ghost predicate OnlyInner(s: seq<Context>, E: set<Context>) {
    FiveNodes(s) && s[1] !in E && s[2] !in E && s[3] in E && s[4] !in E
  }

  lemma FiveInner(s: seq<Context>, E: set<Context>)
    requires OnlyInner(s, E)
    ensures Sync(s, E, 2) == ({s[2]}, 5)
  {
    assert NextFrom(s, s[2], 4) == 5;
    assert Sync(s, E, 3) == ({}, 5) && SyncKids(s, E, 2, 5) == ({}, 5);
    assert SyncKids(s, E, 2, 3) == ({} + {}, 5);
    assert {s[2]} + ({} + {}) == {s[2]};
  }

  lemma FiveOuter(s: seq<Context>, E: set<Context>)
    requires OnlyInner(s, E)
    ensures SyncAll(s, E, 0, 1) == {s[1], s[2]}
  {
    FiveInner(s, E);
    assert SyncKids(s, E, 1, 5) == ({}, 5);
    assert SyncKids(s, E, 1, 2) == ({s[2]} + {}, 5);
    assert {s[1]} + ({s[2]} + {}) == {s[1], s[2]};
    assert NextSibling(s, 1) == 5;
    assert {s[1], s[2]} + {} == {s[1], s[2]};
  }

  /** Then a call on the root writes a and aa and misses ab, which inherits from the root: three levels is
      deep enough to be hidden. */
  lemma LastSiblingCutsOff(s: seq<Context>, E: set<Context>)
    requires OnlyInner(s, E)
    ensures IsPreorder(s) && SyncAll(s, E, 0, 1) == {s[1], s[2]}
    ensures Heir(E, s[0], s[4]) && !Complete(s, E, 0)
    ensures 3 < End(s, 0) && LinksTo(s, 0, 3) == 3
  {
    hide Complete, SyncAll;
    FivePlaces(s);
    FiveOuter(s, E);
    FiveDeep(s);
    assert Under(E, s[0], s[1], 0) && Under(E, s[0], s[4], 1);
    CompleteIffAllReached(s, E, 0);
  }
}
