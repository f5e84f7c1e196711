/** When the rebuilt tree is the tree of the listed paths. */
module FileListTree {
  import opened Options
  import opened Database
  import opened Paths
  import opened FileListDialog

  // ----- any list ----------------------------------------------------------------------

  ghost predicate Ancestor(elements: seq<TransferElement>, j: nat, i: nat)
    requires i < |elements|
  {
    && j < |elements| && j != i && IsFolder(elements, j)
    && FolderText(elements[j].relativePath) <= elements[i].relativePath
  }

  ghost predicate Nearest(elements: seq<TransferElement>, j: nat, i: nat)
    requires i < |elements|
  {
    && Ancestor(elements, j, i)
    && forall k: nat :: Ancestor(elements, k, i) ==>
         |FolderText(elements[k].relativePath)| <= |FolderText(elements[j].relativePath)|
  }

  /** The element is attached to its nearest listed ancestor folder, or to the root. */
  ghost predicate RightAt(elements: seq<TransferElement>, i: nat)
    requires i < |elements|
  {
    match ParentOf(elements, i)
    case Some(j) => Nearest(elements, j, i)
    case None => forall k: nat :: !Ancestor(elements, k, i)
  }

  /** A folder's text occurs in later paths only as a prefix. */
  ghost predicate PrefixOnly(elements: seq<TransferElement>) {
    forall j, m :: 0 <= j < m < |elements| && IsFolder(elements, j) ==>
      var text := FolderText(elements[j].relativePath);
      Contains(elements[m].relativePath, text) ==> text <= elements[m].relativePath
  }

  ghost predicate DistinctFolders(elements: seq<TransferElement>) {
    forall j, k :: 0 <= j < k < |elements| && IsFolder(elements, j) && IsFolder(elements, k) ==>
      FolderText(elements[j].relativePath) != FolderText(elements[k].relativePath)
  }

  /** Everything from folder j up to element i lies below the folder. */
  ghost predicate Follows(elements: seq<TransferElement>, j: nat, i: nat)
    requires i < |elements|
  {
    j < i && forall m :: j < m < i ==> Ancestor(elements, j, m)
  }

  /** The folders on the stack for element i contain what follows them. */
  ghost predicate PrefixKept(elements: seq<TransferElement>, i: nat)
    requires i < |elements|
  {
    forall k: nat :: KeptFor(elements, k, i) ==> Follows(elements, k, i) && Ancestor(elements, k, i)
  }

  lemma PrefixOnlyKept(elements: seq<TransferElement>, i: nat)
    requires i < |elements| && PrefixOnly(elements)
    ensures PrefixKept(elements, i)
  {
    hide Contains, FolderText;
  }

  lemma AncestorContains(elements: seq<TransferElement>, j: nat, i: nat)
    requires i < |elements| && Ancestor(elements, j, i)
    ensures Contains(elements[i].relativePath, FolderText(elements[j].relativePath))
  {
    hide FolderText;
    var s, part := elements[i].relativePath, FolderText(elements[j].relativePath);
    assert s[0..0 + |part|] == s[..|part|] == part;
    assert OccursAt(s, part, 0);
  }

  lemma FollowsKept(elements: seq<TransferElement>, j: nat, i: nat)
    requires i < |elements| && Follows(elements, j, i) && Ancestor(elements, j, i)
    ensures KeptFor(elements, j, i)
  {
    hide Contains, FolderText;
    AncestorContains(elements, j, i);
    forall m | j < m < i
      ensures Contains(elements[m].relativePath, FolderText(elements[j].relativePath))
    {
      AncestorContains(elements, j, m);
    }
  }

  lemma {:induction false} NearestAmong(elements: seq<TransferElement>, i: nat, n: nat, k: nat) returns (j: nat)
    requires i < |elements| && k < n <= |elements| && Ancestor(elements, k, i)
    ensures j < n && Ancestor(elements, j, i)
    ensures forall l :: 0 <= l < n && Ancestor(elements, l, i) ==>
      |FolderText(elements[l].relativePath)| <= |FolderText(elements[j].relativePath)|
    decreases n
  {
    hide FolderText;
    if l :| 0 <= l < n - 1 && Ancestor(elements, l, i) {
      j := NearestAmong(elements, i, n - 1, l);
      if Ancestor(elements, n - 1, i) && |FolderText(elements[n - 1].relativePath)| > |FolderText(elements[j].relativePath)| {
        j := n - 1;
      }
    } else {
      j := k;
    }
  }

  lemma SamePrefix(a: string, b: string, s: string)
    requires a <= s && b <= s && |a| == |b|
    ensures a == b
  {
  }

  /** Exactly when an element is attached rightly, for any list that has each folder once: its
      nearest ancestor folder stays on the stack up to it, and no folder listed after that
      does, be it an ancestor or one whose text occurs inside a longer name. */
  lemma AttachedExactly(elements: seq<TransferElement>, i: nat)
    requires i < |elements| && DistinctFolders(elements)
    ensures RightAt(elements, i) <==>
      && (forall j: nat :: Nearest(elements, j, i) ==> KeptFor(elements, j, i))
      && (forall k: nat :: KeptFor(elements, k, i) ==> exists j: nat :: Nearest(elements, j, i) && k <= j)
  {
    hide Contains, FolderText, KeptFor, ParentOf;
    ParentExactly(elements, i);
    if RightAt(elements, i) {
      forall j: nat | Nearest(elements, j, i)
        ensures KeptFor(elements, j, i)
      {
        var p := ParentOf(elements, i).value;
        SamePrefix(FolderText(elements[p].relativePath), FolderText(elements[j].relativePath), elements[i].relativePath);
        assert p == j;
      }
    } else if k: nat :| Ancestor(elements, k, i) {
      var j := NearestAmong(elements, i, |elements|, k);
      assert Nearest(elements, j, i);
      forall l: nat | Nearest(elements, l, i)
        ensures l == j
      {
        SamePrefix(FolderText(elements[l].relativePath), FolderText(elements[j].relativePath), elements[i].relativePath);
      }
    }
  }

  /** Where the folders on the stack contain what follows them, exactly when an element is
      attached rightly: whatever is listed between its nearest ancestor folder and itself lies
      below that folder, and the folder comes first. */
  lemma AttachedInOrder(elements: seq<TransferElement>, i: nat)
    requires i < |elements| && PrefixKept(elements, i) && DistinctFolders(elements)
    ensures RightAt(elements, i) <==> forall j: nat :: Nearest(elements, j, i) ==> Follows(elements, j, i)
  {
    hide Contains, FolderText, KeptFor, ParentOf, Follows;
    ParentExactly(elements, i);
    if RightAt(elements, i) {
      forall j: nat | Nearest(elements, j, i)
        ensures Follows(elements, j, i)
      {
        var p := ParentOf(elements, i).value;
        SamePrefix(FolderText(elements[p].relativePath), FolderText(elements[j].relativePath), elements[i].relativePath);
        assert p == j;
      }
    }
    if forall j: nat :: Nearest(elements, j, i) ==> Follows(elements, j, i) {
      if k: nat :| Ancestor(elements, k, i) {
        var j := NearestAmong(elements, i, |elements|, k);
        assert Nearest(elements, j, i);
        FollowsKept(elements, j, i);
        var p := ParentOf(elements, i).value;
        LaterIsLonger(elements, j, p, i);
      }
    }
  }

  /** A kept folder listed after the nearest ancestor would be longer, so it is the same one. */
  lemma LaterIsLonger(elements: seq<TransferElement>, j: nat, p: nat, i: nat)
    requires i < |elements| && j <= p < i && Nearest(elements, j, i) && Follows(elements, j, i) && Ancestor(elements, p, i)
    ensures Nearest(elements, p, i)
  {
    if j < p {
      assert Ancestor(elements, j, p);
    }
  }

  /** In a pre-order list whose folders occur only as prefixes, every element is attached to its
      nearest listed ancestor folder. */
  lemma PreOrderIsRight(elements: seq<TransferElement>)
    requires PrefixOnly(elements) && DistinctFolders(elements)
    requires forall i, j: nat :: 0 <= i < |elements| && Ancestor(elements, j, i) ==> Follows(elements, j, i)
    ensures forall i :: 0 <= i < |elements| ==> RightAt(elements, i)
  {
    hide Contains, FolderText, RightAt, Follows, PrefixKept, PrefixOnly, DistinctFolders;
    forall i | 0 <= i < |elements|
      ensures RightAt(elements, i)
    {
      PrefixOnlyKept(elements, i);
      AttachedInOrder(elements, i);
    }
  }

  /** A folder's text may occur inside a longer name: "a/" in "ba/x", which is then attached to
      the folder "a". */
  lemma SubstringMisleads(elements: seq<TransferElement>)
    requires |elements| == 2 && elements[0].elementType == FOLDER
    requires elements[0].relativePath == "a" && elements[1].relativePath == "ba/x"
    ensures ParentOf(elements, 1) == Some(0) && !Ancestor(elements, 0, 1) && !RightAt(elements, 1)
  {
    ParentExactly(elements, 1);
    assert FolderText("a") == "a/";
    assert OccursAt("ba/x", "a/", 1);
    assert KeptFor(elements, 0, 1);
  }
}
