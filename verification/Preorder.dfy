/** What "organized" means: the list is a preorder walk of the parent tree. */
module Preorder {
  import opened Contexts
  import opened Sequences

  /** x sits exactly n parent links below a node without a parent. */
  ghost predicate AtDepth(x: Context, n: nat) {
    if n == 0 then x.parent == null else x.parent != null && AtDepth(x.parent, n - 1)
  }

  /** The place of x in s. */
  ghost function Pos(s: seq<Context>, x: Context): (i: nat)
    requires x in s
    ensures i < |s| && s[i] == x
  {
    var i :| 0 <= i < |s| && s[i] == x;
    i
  }

  ghost predicate HasParent(s: seq<Context>, j: nat)
    requires j < |s|
  {
    s[j].parent != null && s[j].parent in s
  }

  /** The registry before any sorting: root first and alone without a parent, every other parent in
      the list, every parent chain finite. Nothing is said about the order. */
  ghost predicate ParentTree(s: seq<Context>) {
    && |s| > 0
    && s[0].parent == null
    && (forall i :: 0 < i < |s| ==> HasParent(s, i))
    && (forall x :: x in s ==> exists n: nat :: AtDepth(x, n))
  }

  /** The place of the parent of the node at place j. */
  ghost function Par(s: seq<Context>, j: nat): (p: nat)
    requires j < |s| && HasParent(s, j)
    ensures p < |s| && s[p] == s[j].parent
  {
    Pos(s, s[j].parent)
  }

  /** Parents come before their children, and between a node and its child stands nothing whose
      parent is further left: the parent intervals do not cross. */
  ghost predicate ParentsNest(s: seq<Context>) {
    && (forall j :: 0 < j < |s| ==> HasParent(s, j) && Par(s, j) < j)
    && (forall k, j :: 0 < k < j < |s| && Par(s, j) < k ==> Par(s, j) <= Par(s, k))
  }

  ghost predicate IsPreorder(s: seq<Context>) {
    && |s| > 0
    && s[0].parent == null
    && NoDup(s)
    && ParentsNest(s)
  }

  /** t is what organize must make of s: the same nodes in preorder, every family reversed. */
  ghost predicate Organizes(s: seq<Context>, t: seq<Context>) {
    && |s| > 0
    && IsPreorder(t)
    && t[0] == s[0]
    && multiset(t) == multiset(s)
    && (forall x :: x in s ==> Kids(x, t) == Rev(Kids(x, s)))
  }

  // ---------- The three conditions leave no choice ----------

  ghost predicate Agree(a: seq<Context>, b: seq<Context>, n: nat) {
    && n <= |a| && n <= |b|
    && (forall k :: 0 <= k < n ==> a[k] == b[k])
  }

  lemma {:induction false} KidsPrefix(s: seq<Context>, i: nat)
    requires i < |s|
    ensures Kids(s[i].parent, s[..i]) < Kids(s[i].parent, s)
    ensures Kids(s[i].parent, s)[|Kids(s[i].parent, s[..i])|] == s[i]
  {
    assert s == s[..i] + s[i..];
    KidsConcat(s[i].parent, s[..i], s[i..]);
  }

  /** Where two preorders of the same families agree up to place i, the parent at place i cannot be
      further right in one of them than in the other. */
  lemma ParentIsForced(a: seq<Context>, b: seq<Context>, i: nat)
    requires IsPreorder(a) && IsPreorder(b)
    requires 0 < i < |a| && i < |b| && Agree(a, b, i)
    requires Kids(a[i].parent, a) == Kids(a[i].parent, b)
    ensures Par(a, i) <= Par(b, i)
  {
    KidsMember(a[i].parent, a, a[i]);
    KidsMember(a[i].parent, b, a[i]);
    assert Par(b, Pos(b, a[i])) == Par(a, i);
  }

  lemma NextIsForced(a: seq<Context>, b: seq<Context>, i: nat)
    requires IsPreorder(a) && IsPreorder(b)
    requires 0 < i < |a| && i < |b| && Agree(a, b, i)
    requires Kids(a[i].parent, a) == Kids(a[i].parent, b)
    requires Kids(b[i].parent, a) == Kids(b[i].parent, b)
    ensures a[i] == b[i]
  {
    ParentIsForced(a, b, i);
    ParentIsForced(b, a, i);
    assert a[i].parent == a[Par(a, i)] == b[Par(b, i)] == b[i].parent;
    assert a[..i] == b[..i];
    KidsPrefix(a, i);
    KidsPrefix(b, i);
  }

  lemma {:induction false} PrefixesAgree(a: seq<Context>, b: seq<Context>, i: nat)
    requires IsPreorder(a) && IsPreorder(b) && a[0] == b[0]
    requires forall x :: x in a || x in b ==> Kids(x, a) == Kids(x, b)
    requires 0 < i <= |a| && i <= |b|
    ensures Agree(a, b, i)
  {
    if i > 1 {
      PrefixesAgree(a, b, i - 1);
      assert HasParent(a, i - 1) && HasParent(b, i - 1);
      NextIsForced(a, b, i - 1);
    }
  }

  lemma NoLonger(a: seq<Context>, b: seq<Context>)
    requires IsPreorder(a) && IsPreorder(b) && a[0] == b[0]
    requires forall x :: x in a || x in b ==> Kids(x, a) == Kids(x, b)
    ensures |a| <= |b|
  {
    if |a| > |b| {
      PrefixesAgree(a, b, |b|);
      assert HasParent(a, |b|);
      KidsMember(a[|b|].parent, a, a[|b|]);
      KidsMember(a[|b|].parent, b, a[|b|]);
      assert false;
    }
  }

  /** A preorder is determined by its root and the order inside each family. */
  lemma PreorderUnique(a: seq<Context>, b: seq<Context>)
    requires IsPreorder(a) && IsPreorder(b) && a[0] == b[0]
    requires forall x :: x in a || x in b ==> Kids(x, a) == Kids(x, b)
    ensures a == b
  {
    NoLonger(a, b);
    NoLonger(b, a);
    PrefixesAgree(a, b, |a|);
    assert a[..|a|] == a && b[..|b|] == b;
  }

  /** Any two lists that organize s are the same list. */
  lemma OrganizedUnique(s: seq<Context>, a: seq<Context>, b: seq<Context>)
    requires Organizes(s, a) && Organizes(s, b)
    ensures a == b
  {
    assert forall x :: x in a ==> x in multiset(a);
    assert forall x :: x in b ==> x in multiset(b);
    PreorderUnique(a, b);
  }
}
