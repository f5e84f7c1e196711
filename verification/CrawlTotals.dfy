/** The size a crawl job reports, its top-level names, and how often each node is counted. */
module CrawlTotals {
  import opened Options
  import opened Paths
  import opened FileTree
  import opened CrawlProperties
  import opened FileCrawler
  import opened CrawlResult

  // ----- names -------------------------------------------------------------------------

  lemma {:induction false} FollowedNames(fs: FileSystem, id: nat, path: Path)
    requires WellFormed(fs) && Follow(fs, id, path).Some?
    ensures ValidPath(path)
    decreases |path|
  {
    if path != [] {
      var entry := Find(fs.nodes[id].entries, path[0]).value;
      FollowedNames(fs, entry.target, path[1..]);
    }
  }

  lemma ExistingNames(fs: FileSystem, volume: string, path: Path)
    requires WellFormed(fs) && Exists(fs, volume, path)
    ensures ValidPath(path)
  {
    FollowedNames(fs, fs.volumes[volume], path);
  }

  /** A path the job emitted. */
  ghost predicate Emitted(fs: FileSystem, root: Root, sendHidden: bool, elements: seq<Dropped>, q: Path)
    requires BelowRoot(root, elements)
  {
    exists i :: 0 <= i < |elements| && BelongsTo(fs, root, sendHidden, elements[i], q)
  }

  lemma EmittedFacts(fs: FileSystem, root: Root, sendHidden: bool, elements: seq<Dropped>, q: Path)
    requires Sound(fs, root, sendHidden, elements) && Emitted(fs, root, sendHidden, elements, q)
    ensures q != [] && ValidPath(q) && Exists(fs, root.volume, root.dirs + q)
    ensures |q| > 1 ==> Emitted(fs, root, sendHidden, elements, q[..|q| - 1])
    ensures |q| > 1 ==> DirExists(fs, root.volume, root.dirs + q[..|q| - 1])
  {
    hide BelongsTo, Resolve, TooDeep, DirExists;
    var i :| 0 <= i < |elements| && BelongsTo(fs, root, sendHidden, elements[i], q);
    BelongsClosed(fs, root, sendHidden, elements[i], q);
    NotEmpty(fs, root, sendHidden, elements[i], q);
    ExistingNames(fs, root.volume, root.dirs + q);
    assert forall k :: 0 <= k < |q| ==> q[k] == (root.dirs + q)[|root.dirs| + k];
  }

  lemma {:induction false} FirstEmitted(fs: FileSystem, root: Root, sendHidden: bool, elements: seq<Dropped>, q: Path)
    requires Sound(fs, root, sendHidden, elements) && Emitted(fs, root, sendHidden, elements, q)
    ensures q != [] && Emitted(fs, root, sendHidden, elements, [q[0]])
    decreases |q|
  {
    hide Emitted, WellFormed, TooDeep, Resolve;
    EmittedFacts(fs, root, sendHidden, elements, q);
    if |q| > 1 {
      FirstEmitted(fs, root, sendHidden, elements, q[..|q| - 1]);
    } else {
      assert q == [q[0]];
    }
  }

  /** The texts a successful job reports are those of the emitted paths. */
  lemma ReportedPaths(output: CrawlerOutput, fs: FileSystem, paths: seq<Dropped>, sendHidden: bool, s: string)
    requires IsOutput(output, fs, paths, sendHidden) && Sound(fs, output.root, sendHidden, SortDropped(paths))
    ensures s in output.paths <==> exists q :: Emitted(fs, output.root, sendHidden, SortDropped(paths), q) && s == Text(q)
  {
    hide WellFormed, TooDeep, Resolve, BelongsTo, WalkAfter, IsRoot, AnyTooDeep;
    var sorted := SortDropped(paths);
    forall q
      ensures q in WalkAfter(fs, output.root, sendHidden, sorted, |sorted|).emitted <==> Emitted(fs, output.root, sendHidden, sorted, q)
    {
      EmittedExactly(fs, output.root, sendHidden, sorted, |sorted|, q);
    }
  }

  // ----- top-level names ---------------------------------------------------------------

  /** The reported top-level names are exactly the emitted paths of length one. */
  lemma TopNames(output: CrawlerOutput, fs: FileSystem, paths: seq<Dropped>, sendHidden: bool, t: string)
    requires IsOutput(output, fs, paths, sendHidden) && Sound(fs, output.root, sendHidden, SortDropped(paths))
    ensures t in output.topDirs <==> Emitted(fs, output.root, sendHidden, SortDropped(paths), [t])
  {
    hide WellFormed, TooDeep, Resolve, BelongsTo, WalkAfter, IsRoot, AnyTooDeep, Emitted, Texts;
    var sorted := SortDropped(paths);
    if t in output.topDirs {
      var s :| s in output.paths && t == BeforeFirst(s, '\\');
      ReportedPaths(output, fs, paths, sendHidden, s);
      var q :| Emitted(fs, output.root, sendHidden, sorted, q) && s == Text(q);
      FirstEmitted(fs, output.root, sendHidden, sorted, q);
      EmittedFacts(fs, output.root, sendHidden, sorted, q);
      JoinFirst(q, '\\');
    }
    if Emitted(fs, output.root, sendHidden, sorted, [t]) {
      ReportedPaths(output, fs, paths, sendHidden, Text([t]));
      EmittedFacts(fs, output.root, sendHidden, sorted, [t]);
      JoinFirst([t], '\\');
      assert [t][0] == t;
    }
  }

  lemma {:induction false} CountsAddUp(fs: FileSystem, root: Root, tops: seq<string>)
    requires forall i :: 0 <= i < |tops| ==> Exists(fs, root.volume, root.dirs + [tops[i]])
    ensures CountFiles(fs, root, tops) + CountFolders(fs, root, tops) == |tops|
  {
    if tops != [] {
      CountsAddUp(fs, root, tops[..|tops| - 1]);
      assert Exists(fs, root.volume, root.dirs + [tops[|tops| - 1]]);
    }
  }

  /** Every top-level name is counted, as a file or as a folder. */
  lemma EveryTopCounted(output: CrawlerOutput, fs: FileSystem, paths: seq<Dropped>, sendHidden: bool)
    requires IsOutput(output, fs, paths, sendHidden) && Sound(fs, output.root, sendHidden, SortDropped(paths))
    ensures output.fileCount + output.folderCount == |output.topDirs|
  {
    hide WellFormed, TooDeep, Resolve, BelongsTo, WalkAfter, IsRoot, AnyTooDeep, Emitted, Texts, TopDirs;
    forall i | 0 <= i < |output.topDirs|
      ensures Exists(fs, output.root.volume, output.root.dirs + [output.topDirs[i]])
    {
      TopNames(output, fs, paths, sendHidden, output.topDirs[i]);
      EmittedFacts(fs, output.root, sendHidden, SortDropped(paths), [output.topDirs[i]]);
    }
    CountsAddUp(fs, output.root, output.topDirs);
  }

  // ----- sizes -------------------------------------------------------------------------

  /** Every visit carries the node that its path names. */
  ghost predicate Named(fs: FileSystem, root: Root, visits: seq<Visit>) {
    forall i :: 0 <= i < |visits| ==>
      var id := Resolve(fs, root.volume, root.dirs + visits[i].path);
      id.Some? && fs.nodes[id.value] == visits[i].node
  }

  lemma {:induction false} TreeNamed(fs: FileSystem, root: Root, id: nat, path: Path, sendHidden: bool, level: nat)
    requires WellFormed(fs) && level <= MAX_RECURSION_DEPTH + 1
    requires Resolve(fs, root.volume, root.dirs + path) == if id in fs.nodes then Some(id) else None
    ensures Named(fs, root, Tree(fs, id, path, sendHidden, level))
    decreases MAX_RECURSION_DEPTH + 1 - level, 0
  {
    hide Listed;
    if level <= MAX_RECURSION_DEPTH && id in fs.nodes && fs.nodes[id].Dir? {
      var shown := Listed(fs.nodes[id].entries, sendHidden);
      ForestNamed(fs, root, id, shown, |shown|, path, sendHidden, level);
    }
  }

  lemma {:induction false} ForestNamed(fs: FileSystem, root: Root, id: nat, shown: seq<Entry>, n: nat, path: Path, sendHidden: bool, level: nat)
    requires WellFormed(fs) && level <= MAX_RECURSION_DEPTH && n <= |shown|
    requires id in fs.nodes && fs.nodes[id].Dir? && Resolve(fs, root.volume, root.dirs + path) == Some(id)
    requires forall e :: e in shown ==> e in fs.nodes[id].entries
    ensures Named(fs, root, Forest(fs, shown, n, path, sendHidden, level))
    decreases MAX_RECURSION_DEPTH - level, 1, n
  {
    hide Tree, WellFormed, Resolve;
    if n > 0 {
      ForestNamed(fs, root, id, shown, n - 1, path, sendHidden, level);
      var e := shown[n - 1];
      ResolveEntry(fs, root.volume, root.dirs + path, e);
      assert root.dirs + (path + [e.name]) == root.dirs + path + [e.name];
      TreeNamed(fs, root, e.target, path + [e.name], sendHidden, level + 1);
    }
  }

  /** The visits of one element are its tree, under its relative path. */
  function ElementTree(fs: FileSystem, root: Root, sendHidden: bool, d: Dropped): seq<Visit>
    requires root.dirs <= d.dirs
  {
    TreeAt(fs, Resolve(fs, root.volume, d.Whole()), Relative(root, d), sendHidden, 0)
  }

  lemma VisitsGrow(fs: FileSystem, root: Root, sendHidden: bool, elements: seq<Dropped>, n: nat)
    requires 0 < n <= |elements| && BelowRoot(root, elements)
    ensures WalkAfter(fs, root, sendHidden, elements, n).visits
         == WalkAfter(fs, root, sendHidden, elements, n - 1).visits + ElementTree(fs, root, sendHidden, elements[n - 1])
  {
    hide Tree, TreeAt, Resolve, NewAncestors, FileTree.PathsOf;
    WalkInStep(fs, root, sendHidden, elements, n - 1);
    StepStaysInStep(fs, root, sendHidden, WalkAfter(fs, root, sendHidden, elements, n - 1), elements[n - 1]);
  }

  lemma {:induction false} WalkNamed(fs: FileSystem, root: Root, sendHidden: bool, elements: seq<Dropped>, n: nat)
    requires n <= |elements| && Sound(fs, root, sendHidden, elements)
    ensures Named(fs, root, WalkAfter(fs, root, sendHidden, elements, n).visits)
  {
    hide Tree, WellFormed, Resolve, TooDeep, Step;
    if n > 0 {
      var d := elements[n - 1];
      WalkNamed(fs, root, sendHidden, elements, n - 1);
      VisitsGrow(fs, root, sendHidden, elements, n);
      assert root.dirs + Relative(root, d) == d.Whole();
      TreeNamed(fs, root, Resolve(fs, root.volume, d.Whole()).value, Relative(root, d), sendHidden, 0);
    }
  }

  /** A path is visited for an element if it reaches something in the element's subtree. */
  ghost predicate Inside(fs: FileSystem, root: Root, sendHidden: bool, d: Dropped, q: Path) {
    && root.dirs <= d.dirs && Relative(root, d) <= q
    && var id := Resolve(fs, root.volume, d.Whole());
       id.Some? && Reaches(fs, id.value, q[|Relative(root, d)|..], sendHidden)
  }

  lemma ElementVisits(fs: FileSystem, root: Root, sendHidden: bool, elements: seq<Dropped>, i: nat, q: Path)
    requires i < |elements| && Sound(fs, root, sendHidden, elements)
    ensures q in FileTree.PathsOf(ElementTree(fs, root, sendHidden, elements[i])) <==> Inside(fs, root, sendHidden, elements[i], q)
  {
    hide Tree, WellFormed, Resolve, TooDeep, FileTree.PathsOf, Reaches;
    var d := elements[i];
    SubtreeExactly(fs, Resolve(fs, root.volume, d.Whole()).value, Relative(root, d), sendHidden, q);
  }

  lemma {:induction false} Visited(fs: FileSystem, root: Root, sendHidden: bool, elements: seq<Dropped>, n: nat, q: Path)
    requires n <= |elements| && Sound(fs, root, sendHidden, elements)
    ensures q in FileTree.PathsOf(WalkAfter(fs, root, sendHidden, elements, n).visits)
       <==> exists i :: 0 <= i < n && Inside(fs, root, sendHidden, elements[i], q)
  {
    hide WellFormed, Resolve, TooDeep, Step, FileTree.PathsOf, Inside, ElementTree;
    NoPaths();
    if n > 0 {
      VisitsGrow(fs, root, sendHidden, elements, n);
      PathsOfJoin(WalkAfter(fs, root, sendHidden, elements, n - 1).visits, ElementTree(fs, root, sendHidden, elements[n - 1]));
      ElementVisits(fs, root, sendHidden, elements, n - 1, q);
      Visited(fs, root, sendHidden, elements, n - 1, q);
    }
  }

  // ----- the reported size covers the listed files -------------------------------------

  function SizeAt(fs: FileSystem, root: Root, q: Path): nat {
    var id := Resolve(fs, root.volume, root.dirs + q);
    if id.Some? && fs.nodes[id.value].File? then |fs.nodes[id.value].data| else 0
  }

  function SumSizes(fs: FileSystem, root: Root, texts: seq<string>): nat {
    if texts == [] then 0 else SizeAt(fs, root, Split(texts[0], '\\')) + SumSizes(fs, root, texts[1..])
  }

  lemma Removed(visits: seq<Visit>, k: nat)
    requires k < |visits|
    ensures TotalCost(visits) == visits[k].Cost() + TotalCost(visits[..k] + visits[k + 1..])
  {
    hide Visit.Cost, TotalCost;
    assert visits == visits[..k] + ([visits[k]] + visits[k + 1..]);
    TotalCostJoin(visits[..k], [visits[k]] + visits[k + 1..]);
    TotalCostJoin([visits[k]], visits[k + 1..]);
    TotalCostJoin(visits[..k], visits[k + 1..]);
    CostOfOne(visits[k]);
  }

  lemma CostOfOne(visit: Visit)
    ensures TotalCost([visit]) == visit.Cost()
  {
    assert [visit][..0] == [];
  }

  /** Different listed files have different visits, and none is larger than what was counted. */
  lemma {:induction false} SizesCovered(fs: FileSystem, root: Root, texts: seq<string>, visits: seq<Visit>)
    requires forall i, j :: 0 <= i < j < |texts| ==> texts[i] != texts[j]
    requires forall i :: 0 <= i < |texts| && SizeAt(fs, root, Split(texts[i], '\\')) > 0 ==>
      exists k :: 0 <= k < |visits| && Text(visits[k].path) == texts[i]
    requires forall k :: 0 <= k < |visits| ==>
      SizeAt(fs, root, Split(Text(visits[k].path), '\\')) <= visits[k].Cost()
    ensures SumSizes(fs, root, texts) <= TotalCost(visits)
    decreases |texts|
  {
    hide SizeAt, Text, Split, Resolve, TotalCost, Visit.Cost;
    if texts != [] {
      if SizeAt(fs, root, Split(texts[0], '\\')) > 0 {
        var k :| 0 <= k < |visits| && Text(visits[k].path) == texts[0];
        var rest := visits[..k] + visits[k + 1..];
        Removed(visits, k);
        forall i | 0 <= i < |texts[1..]| && SizeAt(fs, root, Split(texts[1..][i], '\\')) > 0
          ensures exists m :: 0 <= m < |rest| && Text(rest[m].path) == texts[1..][i]
        {
          assert texts[1..][i] == texts[i + 1] && texts[0] != texts[i + 1];
          var m :| 0 <= m < |visits| && Text(visits[m].path) == texts[i + 1];
          assert rest[if m < k then m else m - 1] == visits[m];
        }
        SizesCovered(fs, root, texts[1..], rest);
      } else {
        SizesCovered(fs, root, texts[1..], visits);
      }
    }
  }

  lemma RoundedUp(size: nat)
    ensures size <= (size + BLOCK_SIZE - 1) / BLOCK_SIZE * BLOCK_SIZE
  {
  }

  /** A visit is counted with at least the size of the file its path names. */
  lemma VisitCoversFile(fs: FileSystem, root: Root, sendHidden: bool, elements: seq<Dropped>, k: nat)
    requires Sound(fs, root, sendHidden, elements)
    requires k < |WalkAfter(fs, root, sendHidden, elements, |elements|).visits|
    ensures
      var visit := WalkAfter(fs, root, sendHidden, elements, |elements|).visits[k];
      SizeAt(fs, root, Split(Text(visit.path), '\\')) <= visit.Cost()
  {
    hide Sound, WalkAfter, Resolve, Split;
    var visits := WalkAfter(fs, root, sendHidden, elements, |elements|).visits;
    var q := visits[k].path;
    WalkNamed(fs, root, sendHidden, elements, |elements|);
    assert visits[k] in visits && q in FileTree.PathsOf(visits);
    Visited(fs, root, sendHidden, elements, |elements|, q);
    var i :| 0 <= i < |elements| && Inside(fs, root, sendHidden, elements[i], q);
    SoundWellFormed(fs, root, sendHidden, elements);
    ExistingNames(fs, root.volume, root.dirs + q);
    assert forall j :: 0 <= j < |q| ==> q[j] == (root.dirs + q)[|root.dirs| + j];
    SplitJoin(q, '\\');
    if visits[k].node.File? {
      RoundedUp(|visits[k].node.data|);
    }
  }

  lemma SoundWellFormed(fs: FileSystem, root: Root, sendHidden: bool, elements: seq<Dropped>)
    requires Sound(fs, root, sendHidden, elements)
    ensures WellFormed(fs)
  {
  }

  /** A file that belongs to an element lies inside it. */
  lemma FileInside(fs: FileSystem, root: Root, sendHidden: bool, d: Dropped, q: Path)
    requires root.dirs <= d.dirs && BelongsTo(fs, root, sendHidden, d, q) && Exists(fs, root.volume, d.Whole())
    requires FileExists(fs, root.volume, root.dirs + q)
    ensures Inside(fs, root, sendHidden, d, q)
  {
    var r := Relative(root, d);
    assert d.Whole() == root.dirs + r;
    if q <= r {
      assert d.Whole() == (root.dirs + q) + r[|q|..];
      AncestorsExist(fs, root.volume, root.dirs + q, r[|q|..]);
      assert q == r && q[|r|..] == [];
    }
  }

  /** An emitted file is visited. */
  lemma FileVisited(fs: FileSystem, root: Root, sendHidden: bool, elements: seq<Dropped>, q: Path)
    requires Sound(fs, root, sendHidden, elements) && Emitted(fs, root, sendHidden, elements, q)
    requires FileExists(fs, root.volume, root.dirs + q)
    ensures q in FileTree.PathsOf(WalkAfter(fs, root, sendHidden, elements, |elements|).visits)
  {
    hide WellFormed, TooDeep, Resolve, BelongsTo, WalkAfter, Inside, FileExists, FileTree.PathsOf;
    var i :| 0 <= i < |elements| && BelongsTo(fs, root, sendHidden, elements[i], q);
    FileInside(fs, root, sendHidden, elements[i], q);
    Visited(fs, root, sendHidden, elements, |elements|, q);
  }

  /** The reported total is at least the size of all listed files together. */
  lemma TotalCoversFiles(output: CrawlerOutput, fs: FileSystem, paths: seq<Dropped>, sendHidden: bool)
    requires IsOutput(output, fs, paths, sendHidden) && Sound(fs, output.root, sendHidden, SortDropped(paths))
    ensures SumSizes(fs, output.root, output.paths) <= output.totalSize
  {
    hide Sound, WalkAfter, IsRoot, AnyTooDeep, Emitted, Split, FileTree.PathsOf, Resolve;
    var root, sorted := output.root, SortDropped(paths);
    var visits := WalkAfter(fs, root, sendHidden, sorted, |sorted|).visits;
    forall i, j | 0 <= i < j < |output.paths|
      ensures output.paths[i] != output.paths[j]
    {
      LessTotal(output.paths[i], output.paths[j]);
    }
    forall k | 0 <= k < |visits|
      ensures SizeAt(fs, root, Split(Text(visits[k].path), '\\')) <= visits[k].Cost()
    {
      VisitCoversFile(fs, root, sendHidden, sorted, k);
    }
    forall i | 0 <= i < |output.paths| && SizeAt(fs, root, Split(output.paths[i], '\\')) > 0
      ensures exists k :: 0 <= k < |visits| && Text(visits[k].path) == output.paths[i]
    {
      ListedFileVisited(output, fs, paths, sendHidden, output.paths[i]);
    }
    SizesCovered(fs, root, output.paths, visits);
  }

  lemma ListedFileVisited(output: CrawlerOutput, fs: FileSystem, paths: seq<Dropped>, sendHidden: bool, s: string)
    requires IsOutput(output, fs, paths, sendHidden) && Sound(fs, output.root, sendHidden, SortDropped(paths))
    requires s in output.paths && SizeAt(fs, output.root, Split(s, '\\')) > 0
    ensures
      var visits := WalkAfter(fs, output.root, sendHidden, SortDropped(paths), |SortDropped(paths)|).visits;
      exists k :: 0 <= k < |visits| && Text(visits[k].path) == s
  {
    hide WellFormed, TooDeep, BelongsTo, WalkAfter, IsRoot, AnyTooDeep, Emitted, Split, Texts, TopDirs, Resolve;
    var root, sorted := output.root, SortDropped(paths);
    var visits := WalkAfter(fs, root, sendHidden, sorted, |sorted|).visits;
    ReportedPaths(output, fs, paths, sendHidden, s);
    var q :| Emitted(fs, root, sendHidden, sorted, q) && s == Text(q);
    EmittedFacts(fs, root, sendHidden, sorted, q);
    SplitJoin(q, '\\');
    FileVisited(fs, root, sendHidden, sorted, q);
    var v :| v in visits && v.path == q;
  }

  // ----- how often a node is counted ---------------------------------------------------

  /** No path is visited twice, so the total is the sum over the distinct visited nodes. */
  ghost predicate CountedOnce(visits: seq<Visit>) {
    forall i, j :: 0 <= i < j < |visits| ==> visits[i].path != visits[j].path
  }

  lemma CountedOnceJoin(a: seq<Visit>, b: seq<Visit>)
    ensures CountedOnce(a + b) <==> CountedOnce(a) && CountedOnce(b) && FileTree.PathsOf(a) !! FileTree.PathsOf(b)
  {
    if CountedOnce(a + b) {
      forall i, j | 0 <= i < j < |a|
        ensures a[i].path != a[j].path
      {
        assert (a + b)[i].path != (a + b)[j].path;
      }
      forall i, j | 0 <= i < j < |b|
        ensures b[i].path != b[j].path
      {
        assert (a + b)[|a| + i].path != (a + b)[|a| + j].path;
      }
      forall v, w | v in a && w in b
        ensures v.path != w.path
      {
        var i :| 0 <= i < |a| && a[i] == v;
        var j :| 0 <= j < |b| && b[j] == w;
        assert (a + b)[i].path != (a + b)[|a| + j].path;
      }
    }
    if CountedOnce(a) && CountedOnce(b) && FileTree.PathsOf(a) !! FileTree.PathsOf(b) {
      forall i, j | 0 <= i < |a| && 0 <= j < |b|
        ensures a[i].path != b[j].path
      {
        assert a[i].path in FileTree.PathsOf(a) && b[j].path in FileTree.PathsOf(b);
      }
    }
  }

  lemma {:induction false} TreeCountedOnce(fs: FileSystem, id: nat, path: Path, sendHidden: bool, level: nat)
    requires WellFormed(fs) && level <= MAX_RECURSION_DEPTH + 1
    ensures CountedOnce(Tree(fs, id, path, sendHidden, level))
    decreases MAX_RECURSION_DEPTH + 1 - level, 0
  {
    hide Listed, FileTree.PathsOf;
    if level <= MAX_RECURSION_DEPTH && id in fs.nodes && fs.nodes[id].Dir? {
      var shown := Listed(fs.nodes[id].entries, sendHidden);
      var top := Visit(path, fs.nodes[id]);
      ListedWellNamed(fs.nodes[id].entries, sendHidden);
      ForestCountedOnce(fs, shown, |shown|, path, sendHidden, level);
      PathsOfOne(top);
      CountedOnceJoin([top], Forest(fs, shown, |shown|, path, sendHidden, level));
    }
  }

  /** The trees of differently named entries have no path in common, nor their directory. */
  lemma {:induction false} ForestCountedOnce(fs: FileSystem, shown: seq<Entry>, n: nat, path: Path, sendHidden: bool, level: nat)
    requires WellFormed(fs) && WellNamed(shown) && level <= MAX_RECURSION_DEPTH && n <= |shown|
    ensures CountedOnce(Forest(fs, shown, n, path, sendHidden, level))
    ensures path !in FileTree.PathsOf(Forest(fs, shown, n, path, sendHidden, level))
    decreases MAX_RECURSION_DEPTH - level, 1, n
  {
    hide Tree, FileTree.PathsOf, WellFormed, CountedOnce, Reaches;
    NoPaths();
    if n == 0 {
      NothingCountedOnce();
    } else {
      var e := shown[n - 1];
      var before, tree := Forest(fs, shown, n - 1, path, sendHidden, level), Tree(fs, e.target, path + [e.name], sendHidden, level + 1);
      ForestCountedOnce(fs, shown, n - 1, path, sendHidden, level);
      TreeCountedOnce(fs, e.target, path + [e.name], sendHidden, level + 1);
      forall q | q in FileTree.PathsOf(tree)
        ensures path + [e.name] <= q && q !in FileTree.PathsOf(before)
      {
        TreePaths(fs, e.target, path + [e.name], sendHidden, level + 1, q);
        ForestPaths(fs, shown, n - 1, path, sendHidden, level, q);
        forall i | 0 <= i < n - 1
          ensures q !in FileTree.PathsOf(Tree(fs, shown[i].target, path + [shown[i].name], sendHidden, level + 1))
        {
          TreePaths(fs, shown[i].target, path + [shown[i].name], sendHidden, level + 1, q);
          PrefixStep(path, e.name, q);
          PrefixStep(path, shown[i].name, q);
        }
      }
      PathsOfJoin(before, tree);
      CountedOnceJoin(before, tree);
    }
  }

  lemma NothingCountedOnce()
    ensures CountedOnce([])
  {
  }

  /** Two elements share a visited path exactly when one lies inside the other. */
  lemma SharedPath(fs: FileSystem, root: Root, sendHidden: bool, a: Dropped, b: Dropped, q: Path)
    requires root.dirs <= a.dirs && root.dirs <= b.dirs
    requires Inside(fs, root, sendHidden, a, q) && Inside(fs, root, sendHidden, b, q)
    ensures Inside(fs, root, sendHidden, a, Relative(root, b)) || Inside(fs, root, sendHidden, b, Relative(root, a))
  {
    var ra, rb := Relative(root, a), Relative(root, b);
    if |ra| <= |rb| {
      assert ra <= rb && rb[|ra|..] == q[|ra|..][..|rb| - |ra|];
      ReachesPrefix(fs, Resolve(fs, root.volume, a.Whole()).value, q[|ra|..], |rb| - |ra|, sendHidden);
    } else {
      assert rb <= ra && ra[|rb|..] == q[|rb|..][..|ra| - |rb|];
      ReachesPrefix(fs, Resolve(fs, root.volume, b.Whole()).value, q[|rb|..], |ra| - |rb|, sendHidden);
    }
  }

  lemma InsideItself(fs: FileSystem, root: Root, sendHidden: bool, elements: seq<Dropped>, i: nat)
    requires i < |elements| && Sound(fs, root, sendHidden, elements)
    ensures Inside(fs, root, sendHidden, elements[i], Relative(root, elements[i]))
  {
    var r := Relative(root, elements[i]);
    assert r[|r|..] == [];
  }

  /** No element lies inside another, as far as the walk can see. */
  ghost predicate Apart(fs: FileSystem, root: Root, sendHidden: bool, elements: seq<Dropped>, n: nat)
    requires n <= |elements| && BelowRoot(root, elements)
  {
    forall i, j :: 0 <= i < n && 0 <= j < n && i != j ==> !Inside(fs, root, sendHidden, elements[i], Relative(root, elements[j]))
  }

  /** Exactly when every node is counted once: no dropped element lies inside another. */
  lemma {:induction false} CountedOnceExactly(fs: FileSystem, root: Root, sendHidden: bool, elements: seq<Dropped>, n: nat)
    requires n <= |elements| && Sound(fs, root, sendHidden, elements)
    ensures CountedOnce(WalkAfter(fs, root, sendHidden, elements, n).visits) <==> Apart(fs, root, sendHidden, elements, n)
  {
    hide WellFormed, TooDeep, Resolve, Step, Inside, ElementTree, FileTree.PathsOf, CountedOnce, Relative;
    if n == 0 {
      NothingCountedOnce();
    } else {
      var before, tree := WalkAfter(fs, root, sendHidden, elements, n - 1).visits, ElementTree(fs, root, sendHidden, elements[n - 1]);
      CountedOnceExactly(fs, root, sendHidden, elements, n - 1);
      VisitsGrow(fs, root, sendHidden, elements, n);
      ElementCountedOnce(fs, root, sendHidden, elements[n - 1]);
      CountedOnceJoin(before, tree);
      DisjointExactly(fs, root, sendHidden, elements, n);
    }
  }

  lemma ElementCountedOnce(fs: FileSystem, root: Root, sendHidden: bool, d: Dropped)
    requires root.dirs <= d.dirs && WellFormed(fs)
    ensures CountedOnce(ElementTree(fs, root, sendHidden, d))
  {
    var id := Resolve(fs, root.volume, d.Whole());
    if id.Some? {
      TreeCountedOnce(fs, id.value, Relative(root, d), sendHidden, 0);
    }
  }

  lemma DisjointExactly(fs: FileSystem, root: Root, sendHidden: bool, elements: seq<Dropped>, n: nat)
    requires 0 < n <= |elements| && Sound(fs, root, sendHidden, elements)
    ensures
      FileTree.PathsOf(WalkAfter(fs, root, sendHidden, elements, n - 1).visits) !!
        FileTree.PathsOf(ElementTree(fs, root, sendHidden, elements[n - 1]))
      <==> forall i :: 0 <= i < n - 1 ==>
        && !Inside(fs, root, sendHidden, elements[i], Relative(root, elements[n - 1]))
        && !Inside(fs, root, sendHidden, elements[n - 1], Relative(root, elements[i]))
  {
    hide WellFormed, TooDeep, Resolve, Step, Inside, ElementTree, FileTree.PathsOf, Relative;
    var before := FileTree.PathsOf(WalkAfter(fs, root, sendHidden, elements, n - 1).visits);
    var last := FileTree.PathsOf(ElementTree(fs, root, sendHidden, elements[n - 1]));
    forall q
      ensures q in before <==> exists i :: 0 <= i < n - 1 && Inside(fs, root, sendHidden, elements[i], q)
      ensures q in last <==> Inside(fs, root, sendHidden, elements[n - 1], q)
    {
      Visited(fs, root, sendHidden, elements, n - 1, q);
      ElementVisits(fs, root, sendHidden, elements, n - 1, q);
    }
    var final := elements[n - 1];
    InsideItself(fs, root, sendHidden, elements, n - 1);
    assert Relative(root, final) in last;
    if before !! last {
      forall i | 0 <= i < n - 1
        ensures !Inside(fs, root, sendHidden, elements[i], Relative(root, final))
        ensures !Inside(fs, root, sendHidden, final, Relative(root, elements[i]))
      {
        InsideItself(fs, root, sendHidden, elements, i);
        assert Relative(root, elements[i]) in before && Relative(root, final) !in before;
        assert Relative(root, elements[i]) !in last;
      }
    } else {
      var q :| q in before && q in last;
      var i :| 0 <= i < n - 1 && Inside(fs, root, sendHidden, elements[i], q);
      SharedPath(fs, root, sendHidden, elements[i], final, q);
    }
  }
}
