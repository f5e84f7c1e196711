/** The rebuilt tree of a sent transfer: its paths come sorted, each with its directories. */
module SortedTree {
  import opened Database
  import opened Paths
  import opened FileCrawler
  import opened StreamRoundTrip
  import opened FileListDialog
  import opened FileListTree

  /** Paths in the order of their texts, with all directories above them. */
  ghost predicate Sorted(paths: seq<Path>) {
    && (forall i :: 0 <= i < |paths| ==> paths[i] != [] && ValidPath(paths[i]))
    && (forall i, j :: 0 <= i < j < |paths| ==> Less(Text(paths[i]), Text(paths[j])))
    && (forall q :: q in paths && |q| > 1 ==> q[..|q| - 1] in paths)
  }

  /** The elements recorded for the paths; what has something below it is a folder. */
  ghost predicate Shows(elements: seq<TransferElement>, paths: seq<Path>) {
    && |elements| == |paths|
    && (forall i :: 0 <= i < |paths| ==> elements[i].relativePath == Name(paths[i]))
    && (forall i, j :: 0 <= i < |paths| && 0 <= j < |paths| && paths[j] < paths[i] ==> IsFolder(elements, j))
  }

  // ----- texts and names ---------------------------------------------------------------

  lemma {:induction false} NameLength(q: Path)
    ensures |Name(q)| == |Text(q)|
  {
    if |q| > 1 {
      NameLength(q[1..]);
    }
  }

  lemma NameNext(p: Path, name: string)
    requires p != []
    ensures Name(p + [name]) == Name(p) + ['/'] + name
  {
    JoinAppend(p, [name], '/');
    JoinOneName(name);
  }

  lemma JoinOneName(name: string)
    ensures Join([name], '/') == name
  {
  }

  lemma {:induction false} NameEnd(q: Path)
    requires q != [] && ValidPath(q)
    ensures FolderText(Name(q)) == Name(q) + "/"
  {
    hide Join;
    var p, last := q[..|q| - 1], q[|q| - 1];
    assert q == p + [last];
    if p == [] {
      JoinOneName(last);
      assert q == [last];
    } else {
      NameNext(p, last);
    }
    assert Name(q)[|Name(q)| - 1] == last[|last| - 1] != '/';
  }

  lemma AncestorIsPrefix(elements: seq<TransferElement>, paths: seq<Path>, j: nat, i: nat)
    requires Sorted(paths) && Shows(elements, paths) && i < |paths|
    ensures Ancestor(elements, j, i) <==> j < |paths| && paths[j] < paths[i]
  {
    hide ValidPath, Name, Text, FolderText;
    if j < |paths| {
      NameEnd(paths[j]);
      FolderTextBelow(paths[j], paths[i]);
      if Ancestor(elements, j, i) {
        assert Name(paths[j]) + "/" <= Name(paths[i]);
      }
    }
  }

  lemma FolderTextBelow(a: Path, b: Path)
    requires a != [] && b != [] && ValidPath(a) && ValidPath(b)
    ensures Name(a) + "/" <= Name(b) <==> a < b
  {
    BelowIsPrefix(a, b, '/');
    var s, t := Name(a), Name(b);
    if s + "/" <= t {
      assert t[..|s|] == (s + "/")[..|s|] == s && t[|s|] == (s + "/")[|s|];
    }
    if Below(t, s, '/') {
      assert t[..|s| + 1] == s + "/";
    }
  }

  // ----- a folder's text inside a longer name ------------------------------------------

  lemma EndsInSlash(s: string, f: string, k: int)
    requires OccursAt(s, f + "/", k)
    ensures 0 <= k + |f| < |s| && s[k + |f|] == '/'
  {
    assert s[k + |f|] == s[k..k + |f + "/"|][|f|];
  }

  /** If a path's name contains the folder's text but its directory's does not, then the
      directory's name ends where the text does. */
  lemma EndsThere(p: string, last: string, f: string)
    requires '/' !in last && Contains(p + ['/'] + last, f + "/") && !Contains(p, f + "/")
    ensures f + "/" <= p + ['/'] + last || |f| < |p|
  {
    var s, part := p + ['/'] + last, f + "/";
    var k :| 0 <= k <= |s| - |part| && OccursAt(s, part, k);
    EndsInSlash(s, f, k);
    assert forall m :: |p| < m < |s| ==> s[m] in last;
    if k + |f| < |p| {
      assert p[k..k + |part|] == s[k..k + |part|];
      assert OccursAt(p, part, k);
      assert false;
    }
    if k == 0 {
      assert s[0..0 + |part|] == s[..|part|];
    }
  }

  lemma NoSlash(name: string, f: string)
    requires '/' !in name
    ensures !Contains(name, f + "/")
  {
    var part := f + "/";
    if Contains(name, part) {
      var k :| 0 <= k <= |name| - |part| && OccursAt(name, part, k);
      EndsInSlash(name, f, k);
      assert false;
    }
  }

  /** Of a path and its directories, the first to contain the folder's text. */
  lemma {:induction false} FirstContaining(q: Path, f: string) returns (p: Path)
    requires q != [] && ValidPath(q) && Contains(Name(q), f + "/") && !(f + "/" <= Name(q))
    ensures p != [] && p < q && !Contains(Name(p), f + "/") && |f| < |Name(p)|
    decreases |q|
  {
    hide Contains, Name;
    var last := q[|q| - 1];
    p := q[..|q| - 1];
    assert q == p + [last];
    if p == [] {
      JoinOneName(last);
      NameOfOne(last);
      NoSlash(last, f);
      assert false;
    } else {
      NameNext(p, last);
      if Contains(Name(p), f + "/") {
        assert Name(p) <= Name(q);
        p := FirstContaining(p, f);
      } else {
        EndsThere(Name(p), last, f);
      }
    }
  }

  lemma NameOfOne(name: string)
    ensures Name([name]) == name
  {
  }

  // ----- the order of the list ---------------------------------------------------------

  lemma IndexOrder(paths: seq<Path>, i: nat, j: nat)
    requires Sorted(paths) && i < |paths| && j < |paths|
    ensures Less(Text(paths[i]), Text(paths[j])) <==> i < j
  {
    hide Less, Text;
    LessTotal(Text(paths[i]), Text(paths[j]));
  }

  lemma TextPrefix(a: Path, b: Path)
    requires a != [] && a < b
    ensures Text(a) < Text(b) && Text(b)[|Text(a)|] == '\\'
  {
    JoinAppend(a, b[|a|..], '\\');
    assert b == a + b[|a|..];
  }

  lemma AboveIsBefore(paths: seq<Path>, j: nat, i: nat)
    requires Sorted(paths) && i < |paths| && j < |paths| && paths[j] < paths[i]
    ensures j < i
  {
    hide Less, Text, ValidPath;
    assert paths[j] != [];
    TextPrefix(paths[j], paths[i]);
    PrefixLess(Text(paths[j]), Text(paths[i]));
    IndexOrder(paths, j, i);
  }

  lemma {:induction false} AllAbove(paths: seq<Path>, q: Path, n: nat)
    requires Sorted(paths) && q in paths && 0 < n <= |q|
    ensures q[..n] in paths
    decreases |q|
  {
    hide ValidPath, Text, Less;
    if n < |q| {
      var above := q[..|q| - 1];
      AllAbove(paths, above, n);
      assert above[..n] == q[..n];
    } else {
      assert q[..n] == q;
    }
  }

  /** What is listed between a directory and something below it has a longer name. */
  lemma BetweenIsLonger(paths: seq<Path>, k: nat, j: nat, m: nat)
    requires Sorted(paths) && k < j < m < |paths| && paths[k] < paths[m]
    ensures |Name(paths[k])| < |Name(paths[j])|
  {
    hide Name, Text, ValidPath, Less;
    IndexOrder(paths, k, j);
    IndexOrder(paths, j, m);
    assert paths[k] != [];
    TextPrefix(paths[k], paths[m]);
    BetweenContinues(Text(paths[k]), Text(paths[j]), Text(paths[m]));
    NameLength(paths[k]);
    NameLength(paths[j]);
  }

  /** In a sorted list a folder that stays on the stack has only what lies below it after it:
      its text inside a longer name would need an even longer directory's name in between. */
  lemma KeptIsBelow(elements: seq<TransferElement>, paths: seq<Path>, j: nat, m: nat)
    requires Sorted(paths) && Shows(elements, paths) && m < |paths| && KeptFor(elements, j, m)
    ensures Ancestor(elements, j, m)
  {
    hide Contains, Name, Text, ValidPath, Less, FolderText, Ancestor, Sorted, Kept;
    KeptOrder(elements, j, m);
    SortedAt(paths, j);
    SortedAt(paths, m);
    NameEnd(paths[j]);
    FolderTextBelow(paths[j], paths[m]);
    AncestorIsPrefix(elements, paths, j, m);
    if !(paths[j] < paths[m]) {
      var p := FirstContaining(paths[m], Name(paths[j]));
      AllAbove(paths, paths[m], |p|);
      assert paths[m][..|p|] == p;
      var k: nat :| k < |paths| && paths[k] == p;
      AboveIsBefore(paths, k, m);
      if k < j {
        BetweenIsLonger(paths, k, j, m);
      } else if k > j {
        KeptContains(elements, j, k, m);
      }
      assert false;
    }
  }

  lemma SortedAt(paths: seq<Path>, i: nat)
    requires Sorted(paths) && i < |paths|
    ensures paths[i] in paths && paths[i] != [] && ValidPath(paths[i])
  {
  }

  lemma KeptContains(elements: seq<TransferElement>, j: nat, k: nat, m: nat)
    requires m < |elements| && KeptFor(elements, j, m) && j < k < m
    ensures Contains(elements[k].relativePath, FolderText(elements[j].relativePath))
  {
    hide Contains, FolderText;
  }

  lemma KeptEarlier(elements: seq<TransferElement>, j: nat, m: nat, i: nat)
    requires i < |elements| && KeptFor(elements, j, i) && j < m <= i
    ensures KeptFor(elements, j, m)
  {
    hide Contains, FolderText;
  }

  lemma SortedPrefixKept(elements: seq<TransferElement>, paths: seq<Path>, i: nat)
    requires Sorted(paths) && Shows(elements, paths) && i < |paths|
    ensures PrefixKept(elements, i)
  {
    hide Sorted, Shows, Contains, FolderText, KeptFor, Ancestor;
    SameLength(elements, paths);
    forall j: nat | KeptFor(elements, j, i)
      ensures Follows(elements, j, i) && Ancestor(elements, j, i)
    {
      KeptOrder(elements, j, i);
      KeptIsBelow(elements, paths, j, i);
      forall m | j < m < i
        ensures Ancestor(elements, j, m)
      {
        KeptEarlier(elements, j, m, i);
        KeptIsBelow(elements, paths, j, m);
      }
    }
  }

  lemma KeptOrder(elements: seq<TransferElement>, j: nat, i: nat)
    requires i < |elements| && KeptFor(elements, j, i)
    ensures j < i
  {
  }

  lemma FoldersDiffer(elements: seq<TransferElement>, paths: seq<Path>)
    requires Sorted(paths) && Shows(elements, paths)
    ensures DistinctFolders(elements)
  {
    hide Name, Text, ValidPath, FolderText;
    forall j, k | 0 <= j < k < |elements|
      ensures FolderText(elements[j].relativePath) != FolderText(elements[k].relativePath)
    {
      NameEnd(paths[j]);
      NameEnd(paths[k]);
      if Name(paths[j]) + "/" == Name(paths[k]) + "/" {
        assert Name(paths[j]) == (Name(paths[j]) + "/")[..|Name(paths[j])|];
        assert Name(paths[k]) == (Name(paths[k]) + "/")[..|Name(paths[k])|];
        NamesDiffer(paths[j], paths[k]);
        IndexOrder(paths, j, k);
        LessTotal(Text(paths[j]), Text(paths[k]));
        assert false;
      }
    }
  }

  // ----- when the tree is right --------------------------------------------------------

  /** A listed path whose text continues a folder's with a character below the backslash, such
      as a dot, a space, a digit or a capital letter. */
  predicate Intrudes(q: Path, folder: Path) {
    Text(folder) < Text(q) && Text(q)[|Text(folder)|] < '\\'
  }

  ghost predicate Undisturbed(paths: seq<Path>) {
    forall j, i, m :: 0 <= j < |paths| && 0 <= i < |paths| && 0 <= m < |paths| && paths[j] < paths[i] ==>
      !Intrudes(paths[m], paths[j])
  }

  lemma IntruderBetween(paths: seq<Path>, j: nat, i: nat, m: nat)
    requires Sorted(paths) && j < |paths| && i < |paths| && m < |paths|
    requires paths[j] < paths[i] && Intrudes(paths[m], paths[j])
    ensures j < m < i && !(paths[j] < paths[m])
  {
    hide Less, Text, ValidPath;
    var f := Text(paths[j]);
    assert paths[j] != [];
    TextPrefix(paths[j], paths[i]);
    PrefixLess(f, Text(paths[m]));
    IndexOrder(paths, j, m);
    LessAfterPrefix(f, Text(paths[m]), Text(paths[i]));
    FirstDecides(Text(paths[m])[|f|..], Text(paths[i])[|f|..]);
    IndexOrder(paths, m, i);
    if paths[j] < paths[m] {
      TextPrefix(paths[j], paths[m]);
    }
  }

  lemma FirstDecides(a: string, b: string)
    requires a != [] && b != []
    ensures a[0] < b[0] ==> Less(a, b)
    ensures a[0] > b[0] ==> !Less(a, b)
  {
  }

  lemma BetweenIsBelow(paths: seq<Path>, j: nat, i: nat, m: nat)
    requires Sorted(paths) && j < m < i < |paths| && paths[j] < paths[i] && !Intrudes(paths[m], paths[j])
    ensures paths[j] < paths[m]
  {
    hide Less, Text, ValidPath;
    var f := Text(paths[j]);
    assert paths[j] != [] && ValidPath(paths[j]) && ValidPath(paths[m]) && paths[m] != [];
    TextPrefix(paths[j], paths[i]);
    IndexOrder(paths, j, m);
    IndexOrder(paths, m, i);
    BetweenContinues(f, Text(paths[m]), Text(paths[i]));
    LessAfterPrefix(f, Text(paths[m]), Text(paths[i]));
    FirstDecides(Text(paths[m])[|f|..], Text(paths[i])[|f|..]);
    TextBelow(paths[j], paths[m]);
  }

  lemma TextBelow(a: Path, b: Path)
    requires a != [] && b != [] && ValidPath(a) && ValidPath(b)
    requires Text(a) < Text(b) && Text(b)[|Text(a)|] == '\\'
    ensures a < b
  {
    BelowIsPrefix(a, b, '\\');
  }

  lemma ParentIsNearest(elements: seq<TransferElement>, paths: seq<Path>, j: nat, i: nat)
    requires Sorted(paths) && Shows(elements, paths) && i < |paths| && j < |paths|
    requires |paths[i]| > 1 && paths[j] == paths[i][..|paths[i]| - 1]
    ensures Nearest(elements, j, i)
  {
    hide Name, Text, ValidPath, FolderText, Less;
    AncestorIsPrefix(elements, paths, j, i);
    forall k: nat | Ancestor(elements, k, i)
      ensures |FolderText(elements[k].relativePath)| <= |FolderText(elements[j].relativePath)|
    {
      AncestorIsPrefix(elements, paths, k, i);
      NameEnd(paths[j]);
      NameEnd(paths[k]);
      if paths[k] != paths[j] {
        assert paths[k] < paths[j];
        FolderTextBelow(paths[k], paths[j]);
      }
    }
  }

  /** Exactly when every element of a sorted list is attached to its directory: no listed path
      continues the text of a directory that has something below it with a character that comes
      before the backslash. */
  lemma TreeExactly(elements: seq<TransferElement>, paths: seq<Path>)
    requires Sorted(paths) && Shows(elements, paths)
    ensures (forall i :: 0 <= i < |elements| ==> RightAt(elements, i)) <==> Undisturbed(paths)
  {
    hide Sorted, Shows, RightAt, Nearest, Follows, PrefixKept, DistinctFolders, Intrudes;
    FoldersDiffer(elements, paths);
    SameLength(elements, paths);
    if Undisturbed(paths) {
      forall i | 0 <= i < |elements|
        ensures RightAt(elements, i)
      {
        UndisturbedRight(elements, paths, i);
      }
    }
    if forall i :: 0 <= i < |elements| ==> RightAt(elements, i) {
      forall j, i, m | 0 <= j < |paths| && 0 <= i < |paths| && 0 <= m < |paths| && paths[j] < paths[i]
        ensures !Intrudes(paths[m], paths[j])
      {
        RightUndisturbed(elements, paths, j, i, m);
      }
    }
  }

  lemma SameLength(elements: seq<TransferElement>, paths: seq<Path>)
    requires Shows(elements, paths)
    ensures |elements| == |paths|
  {
  }

  lemma UndisturbedRight(elements: seq<TransferElement>, paths: seq<Path>, i: nat)
    requires Sorted(paths) && Shows(elements, paths) && Undisturbed(paths) && i < |paths|
    ensures RightAt(elements, i)
  {
    hide Sorted, Shows, RightAt, PrefixKept, DistinctFolders, Intrudes, Ancestor, FolderText;
    FoldersDiffer(elements, paths);
    SameLength(elements, paths);
    SortedPrefixKept(elements, paths, i);
    AttachedInOrder(elements, i);
    forall j: nat | Nearest(elements, j, i)
      ensures Follows(elements, j, i)
    {
      AncestorIsPrefix(elements, paths, j, i);
      AboveIsBefore(paths, j, i);
      forall m | j < m < i
        ensures Ancestor(elements, j, m)
      {
        BetweenIsBelow(paths, j, i, m);
        AncestorIsPrefix(elements, paths, j, m);
      }
    }
  }

  /** An intruder separates a directory from what is directly below it. */
  lemma RightUndisturbed(elements: seq<TransferElement>, paths: seq<Path>, j: nat, i: nat, m: nat)
    requires Sorted(paths) && Shows(elements, paths) && j < |paths| && i < |paths| && m < |paths| && paths[j] < paths[i]
    requires forall k :: 0 <= k < |elements| ==> RightAt(elements, k)
    ensures !Intrudes(paths[m], paths[j])
  {
    hide Shows, RightAt, Nearest, PrefixKept, DistinctFolders, Intrudes, Ancestor, ValidPath, Text, Less;
    if Intrudes(paths[m], paths[j]) {
      var n := |paths[j]| + 1;
      SameLength(elements, paths);
      assert paths[i] in paths;
      AllAbove(paths, paths[i], n);
      var child :| 0 <= child < |paths| && paths[child] == paths[i][..n];
      assert paths[child][..n - 1] == paths[j];
      ParentIsNearest(elements, paths, j, child);
      FoldersDiffer(elements, paths);
      SortedPrefixKept(elements, paths, child);
      AttachedInOrder(elements, child);
      IntruderBetween(paths, j, child, m);
      assert Ancestor(elements, j, m);
      AncestorIsPrefix(elements, paths, j, m);
      assert false;
    }
  }
}
