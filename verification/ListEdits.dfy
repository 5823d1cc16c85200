/** The two list edits that the organized registry must survive: linking a new node in right behind
    its parent and unlinking a node without children. */
module ListEdits {
  import opened Contexts
  import opened Sequences
  import opened Preorder

  function Insert(s: seq<Context>, i: nat, c: Context): seq<Context>
    requires i < |s|
  {
    s[..i + 1] + [c] + s[i + 1..]
  }

  function Remove(s: seq<Context>, i: nat): seq<Context>
    requires i < |s|
  {
    s[..i] + s[i + 1..]
  }

  lemma InsertPlaces(s: seq<Context>, i: nat, c: Context)
    requires i < |s|
    ensures var t := Insert(s, i, c);
      && |t| == |s| + 1 && t[i + 1] == c
      && (forall j :: 0 <= j <= i ==> t[j] == s[j])
      && (forall j :: i + 1 < j < |t| ==> t[j] == s[j - 1])
  {
  }

  lemma InsertMembers(s: seq<Context>, i: nat, c: Context, x: Context)
    requires i < |s|
    ensures x in Insert(s, i, c) <==> x in s || x == c
  {
    InsertPlaces(s, i, c);
    if x in s {
      var j := Pos(s, x);
      assert Insert(s, i, c)[if j <= i then j else j + 1] == x;
    }
  }

  lemma RemovePlaces(s: seq<Context>, i: nat)
    requires i < |s| && NoDup(s)
    ensures var t := Remove(s, i);
      && |t| == |s| - 1
      && (forall j :: 0 <= j < i ==> t[j] == s[j])
      && (forall j :: i <= j < |t| ==> t[j] == s[j + 1])
      && (forall x :: x in t <==> x in s && x != s[i])
  {
    var t := Remove(s, i);
    forall x | x in s && x != s[i] ensures x in t {
      var j := Pos(s, x);
      assert t[if j < i then j else j - 1] == x;
    }
  }

  lemma RemoveMembers(s: seq<Context>, i: nat)
    requires 0 < i < |s| && NoDup(s)
    ensures Remove(s, i) != [] && Remove(s, i)[0] == s[0]
    ensures forall x :: x in Remove(s, i) <==> x in s && x != s[i]
  {
    RemovePlaces(s, i);
  }

  lemma InsertKeepsTree(s: seq<Context>, i: nat, c: Context)
    requires ParentTree(s) && NoDup(s) && i < |s|
    requires c !in s && c.parent != null && c.parent in s
    ensures ParentTree(Insert(s, i, c)) && NoDup(Insert(s, i, c))
  {
    hide AtDepth;
    var t := Insert(s, i, c);
    InsertPlaces(s, i, c);
    assert NoDup(t);
    forall x | x in t ensures exists n: nat :: AtDepth(x, n) {
      InsertMembers(s, i, c, x);
      var n: nat :| AtDepth(if x == c then c.parent else x, n);
      if x == c { DepthStep(c, n); }
    }
    forall j | 0 < j < |t| ensures HasParent(t, j) {
      InsertMembers(s, i, c, t[j]);
      assert t[j] in s ==> HasParent(s, Pos(s, t[j]));
      InsertMembers(s, i, c, t[j].parent);
    }
  }

  lemma DepthStep(c: Context, n: nat)
    requires c.parent != null && AtDepth(c.parent, n)
    ensures AtDepth(c, n + 1)
  {
  }

  lemma RemoveKeepsTree(s: seq<Context>, i: nat)
    requires ParentTree(s) && NoDup(s) && 0 < i < |s|
    requires forall x :: x in s ==> x.parent != s[i]
    ensures ParentTree(Remove(s, i)) && NoDup(Remove(s, i))
  {
    var t := Remove(s, i);
    RemovePlaces(s, i);
    forall j | 0 < j < |t| ensures HasParent(t, j) {
      assert HasParent(s, Pos(s, t[j]));
    }
  }

  lemma ParentAt(t: seq<Context>, j: nat, p: nat)
    requires NoDup(t) && j < |t| && p < |t| && t[j].parent == t[p]
    ensures HasParent(t, j) && Par(t, j) == p
  {
  }

  /** Where the parents stand after the insertion. */
  lemma InsertParent(s: seq<Context>, i: nat, c: Context, j: nat)
    requires IsPreorder(s) && i < |s| && c !in s && c.parent == s[i]
    requires 0 < j <= |s|
    ensures |Insert(s, i, c)| == |s| + 1 && NoDup(Insert(s, i, c)) && HasParent(Insert(s, i, c), j)
    ensures j == i + 1 ==> Par(Insert(s, i, c), j) == i
    ensures j != i + 1 ==>
              var k := if j <= i then j else j - 1;
              && HasParent(s, k)
              && Par(Insert(s, i, c), j) == if Par(s, k) <= i then Par(s, k) else Par(s, k) + 1
  {
    var t := Insert(s, i, c);
    InsertPlaces(s, i, c);
    if j == i + 1 {
      ParentAt(t, j, i);
    } else {
      var k := if j <= i then j else j - 1;
      assert HasParent(s, k);
      var p := if Par(s, k) <= i then Par(s, k) else Par(s, k) + 1;
      assert t[j] == s[k] && t[p] == s[Par(s, k)];
      ParentAt(t, j, p);
    }
  }

  /** Linking c in right behind its parent keeps the preorder. */
  lemma InsertKeepsPreorder(s: seq<Context>, i: nat, c: Context)
    requires IsPreorder(s) && i < |s| && c !in s && c.parent == s[i]
    ensures IsPreorder(Insert(s, i, c))
  {
    var t := Insert(s, i, c);
    InsertParent(s, i, c, i + 1);
    assert t[0] == s[0];
    forall j | 0 < j < |t| ensures HasParent(t, j) && Par(t, j) < j {
      InsertParent(s, i, c, j);
    }
    forall k, j | 0 < k < j < |t| && Par(t, j) < k ensures Par(t, j) <= Par(t, k) {
      InsertParent(s, i, c, j);
      InsertParent(s, i, c, k);
    }
  }

  /** Where the parents stand after the removal. */
  lemma RemoveParent(s: seq<Context>, i: nat, j: nat)
    requires IsPreorder(s) && 0 < i < |s| && 0 < j < |s| - 1
    requires forall x :: x in s ==> x.parent != s[i]
    ensures |Remove(s, i)| == |s| - 1 && NoDup(Remove(s, i)) && HasParent(Remove(s, i), j)
    ensures var k := if j < i then j else j + 1;
            && HasParent(s, k)
            && Par(Remove(s, i), j) == if Par(s, k) < i then Par(s, k) else Par(s, k) - 1
  {
    var t, k := Remove(s, i), if j < i then j else j + 1;
    RemovePlaces(s, i);
    assert HasParent(s, k) && t[j] == s[k];
    var p := Par(s, k);
    assert p != i;
    ParentAt(t, j, if p < i then p else p - 1);
  }

  /** Unlinking a node without children keeps the preorder. */
  lemma RemoveKeepsPreorder(s: seq<Context>, i: nat)
    requires IsPreorder(s) && 0 < i < |s|
    requires forall x :: x in s ==> x.parent != s[i]
    ensures IsPreorder(Remove(s, i))
  {
    var t := Remove(s, i);
    RemovePlaces(s, i);
    forall j | 0 < j < |t| ensures HasParent(t, j) && Par(t, j) < j {
      RemoveParent(s, i, j);
    }
    forall k, j | 0 < k < j < |t| && Par(t, j) < k ensures Par(t, j) <= Par(t, k) {
      RemoveParent(s, i, j);
      RemoveParent(s, i, k);
    }
  }
}
