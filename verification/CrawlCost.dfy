/** The total size a crawl job reports, as a sum over the reported paths. */
module CrawlCost {
  import opened Paths
  import opened FileTree
  import opened FileCrawler
  import opened CrawlResult
  import opened CrawlTotals
  import opened StreamRoundTrip
  import opened Pipeline

  // ----- visits ------------------------------------------------------------------------

  /** Visits of one path are of one node. */
  ghost predicate Consistent(visits: seq<Visit>) {
    forall i, j :: 0 <= i < j < |visits| && visits[i].path == visits[j].path ==> visits[i].node == visits[j].node
  }

  /** What was counted for a path at its last visit. */
  function CostIn(visits: seq<Visit>, q: Path): nat {
    if visits == [] then 0
    else if visits[|visits| - 1].path == q then visits[|visits| - 1].Cost()
    else CostIn(visits[..|visits| - 1], q)
  }

  function SumIn(visits: seq<Visit>, paths: seq<Path>): nat {
    if paths == [] then 0 else SumIn(visits, paths[..|paths| - 1]) + CostIn(visits, paths[|paths| - 1])
  }

  /** What was counted for visits of a path that was visited before. */
  function Repeated(visits: seq<Visit>): nat {
    if visits == [] then 0
    else
      var before, last := visits[..|visits| - 1], visits[|visits| - 1];
      Repeated(before) + (if exists v :: v in before && v.path == last.path then last.Cost() else 0)
  }

  lemma {:induction false} NothingIn(paths: seq<Path>)
    ensures SumIn([], paths) == 0
  {
    if paths != [] {
      NothingIn(paths[..|paths| - 1]);
    }
  }

  lemma {:induction false} NotVisited(visits: seq<Visit>, q: Path)
    requires forall v :: v in visits ==> v.path != q
    ensures CostIn(visits, q) == 0
  {
    if visits != [] {
      assert visits[|visits| - 1] in visits;
      NotVisited(visits[..|visits| - 1], q);
    }
  }

  lemma {:induction false} VisitedCost(visits: seq<Visit>, v: Visit)
    requires Consistent(visits) && v in visits
    ensures CostIn(visits, v.path) == v.Cost()
  {
    hide Visit.Cost;
    var before, last := visits[..|visits| - 1], visits[|visits| - 1];
    var i :| 0 <= i < |visits| && visits[i] == v;
    if last.path != v.path {
      assert before[i] == v;
      VisitedCost(before, v);
    } else if i < |visits| - 1 {
      assert last.node == v.node;
    }
  }

  lemma {:induction false} OneMoreVisit(before: seq<Visit>, last: Visit, paths: seq<Path>)
    requires forall i, j :: 0 <= i < j < |paths| ==> paths[i] != paths[j]
    ensures SumIn(before + [last], paths) ==
      if last.path in paths then SumIn(before, paths) + last.Cost() - CostIn(before, last.path) else SumIn(before, paths)
    ensures last.path in paths ==> CostIn(before, last.path) <= SumIn(before, paths)
  {
    hide Visit.Cost;
    if paths != [] {
      var rest, q := paths[..|paths| - 1], paths[|paths| - 1];
      OneMoreVisit(before, last, rest);
      assert (before + [last])[..|before|] == before;
      assert CostIn(before + [last], q) == if last.path == q then last.Cost() else CostIn(before, q);
      assert forall x :: x in paths <==> x in rest || x == q;
    }
  }

  /** The total is the sum over the distinct paths, and what was counted again. */
  lemma {:induction false} TotalIs(visits: seq<Visit>, paths: seq<Path>)
    requires Consistent(visits) && forall v :: v in visits ==> v.path in paths
    requires forall i, j :: 0 <= i < j < |paths| ==> paths[i] != paths[j]
    ensures TotalCost(visits) == SumIn(visits, paths) + Repeated(visits)
  {
    hide Visit.Cost, SumIn, CostIn;
    if visits == [] {
      NothingIn(paths);
    } else {
      var before, last := visits[..|visits| - 1], visits[|visits| - 1];
      assert visits == before + [last];
      assert last in visits;
      TotalIs(before, paths);
      OneMoreVisit(before, last, paths);
      if v :| v in before && v.path == last.path {
        var i :| 0 <= i < |before| && before[i] == v;
        assert visits[i].path == visits[|before|].path;
        assert v.node == last.node;
        VisitedCost(before, v);
      } else {
        NotVisited(before, last.path);
      }
    }
  }

  /** No path of positive cost is visited twice. */
  ghost predicate CostsOnce(visits: seq<Visit>) {
    forall i, j :: 0 <= i < j < |visits| && visits[i].path == visits[j].path ==> visits[j].Cost() == 0
  }

  lemma {:induction false} NothingRepeated(visits: seq<Visit>)
    ensures Repeated(visits) == 0 <==> CostsOnce(visits)
  {
    hide Visit.Cost;
    if visits != [] {
      var before, last := visits[..|visits| - 1], visits[|visits| - 1];
      NothingRepeated(before);
      if v :| v in before && v.path == last.path {
        var i :| 0 <= i < |before| && before[i] == v;
        assert visits[i].path == visits[|before|].path;
      }
    }
  }

  // ----- elements ----------------------------------------------------------------------

  /** A block per directory, whole blocks per file. */
  function NodeCost(fs: FileSystem, root: Root, q: Path): nat {
    var id := Resolve(fs, root.volume, root.dirs + q);
    if id.Some? then Visit(q, fs.nodes[id.value]).Cost() else 0
  }

  /** A directory costs 4096, a file its size rounded up to a multiple of that. */
  lemma CostIs(fs: FileSystem, root: Root, q: Path)
    requires Exists(fs, root.volume, root.dirs + q)
    ensures DirExists(fs, root.volume, root.dirs + q) ==> NodeCost(fs, root, q) == 4096
    ensures FileExists(fs, root.volume, root.dirs + q) ==>
      NodeCost(fs, root, q) % 4096 == 0 && SizeAt(fs, root, q) <= NodeCost(fs, root, q) < SizeAt(fs, root, q) + 4096
  {
    hide Resolve;
    RoundedUp(SizeAt(fs, root, q));
  }

  lemma RoundedUp(size: nat)
    ensures var blocks := (size + BLOCK_SIZE - 1) / BLOCK_SIZE * BLOCK_SIZE;
      blocks % 4096 == 0 && size <= blocks < size + 4096
  {
  }

  /** Some dropped element's walk reaches the path; a directory merely on the way is not visited. */
  ghost predicate IsVisited(fs: FileSystem, root: Root, sendHidden: bool, elements: seq<Dropped>, q: Path) {
    exists i :: 0 <= i < |elements| && Inside(fs, root, sendHidden, elements[i], q)
  }

  ghost function SumOfPaths(fs: FileSystem, root: Root, sendHidden: bool, elements: seq<Dropped>, paths: seq<Path>): nat {
    if paths == [] then 0
    else
      var q := paths[|paths| - 1];
      SumOfPaths(fs, root, sendHidden, elements, paths[..|paths| - 1]) +
      (if IsVisited(fs, root, sendHidden, elements, q) then NodeCost(fs, root, q) else 0)
  }

  ghost predicate Both(fs: FileSystem, root: Root, sendHidden: bool, a: Dropped, b: Dropped, q: Path) {
    Inside(fs, root, sendHidden, a, q) && Inside(fs, root, sendHidden, b, q)
  }

  /** Two dropped elements lead to a node of positive cost. */
  ghost predicate CountedTwice(fs: FileSystem, root: Root, sendHidden: bool, elements: seq<Dropped>, n: nat)
    requires n <= |elements|
  {
    exists a, b, q :: 0 <= a < b < n && Both(fs, root, sendHidden, elements[a], elements[b], q) && NodeCost(fs, root, q) > 0
  }

  lemma NamedFacts(fs: FileSystem, root: Root, visits: seq<Visit>)
    requires Named(fs, root, visits)
    ensures Consistent(visits)
    ensures forall i :: 0 <= i < |visits| ==> visits[i].Cost() == NodeCost(fs, root, visits[i].path)
  {
    hide Resolve;
  }

  lemma CostOfPath(fs: FileSystem, root: Root, sendHidden: bool, elements: seq<Dropped>, q: Path)
    requires Sound(fs, root, sendHidden, elements)
    ensures CostIn(WalkAfter(fs, root, sendHidden, elements, |elements|).visits, q)
         == if IsVisited(fs, root, sendHidden, elements, q) then NodeCost(fs, root, q) else 0
  {
    hide Sound, WalkAfter, Inside, Named, Consistent, NodeCost, CostIn, Visit.Cost;
    var visits := WalkAfter(fs, root, sendHidden, elements, |elements|).visits;
    WalkNamed(fs, root, sendHidden, elements, |elements|);
    NamedFacts(fs, root, visits);
    Visited(fs, root, sendHidden, elements, |elements|, q);
    if q in FileTree.PathsOf(visits) {
      var v :| v in visits && v.path == q;
      var i :| 0 <= i < |visits| && visits[i] == v;
      VisitedCost(visits, v);
    } else {
      assert forall v :: v in visits ==> v.path in FileTree.PathsOf(visits);
      NotVisited(visits, q);
    }
  }

  lemma {:induction false} SumsAgree(fs: FileSystem, root: Root, sendHidden: bool, elements: seq<Dropped>, paths: seq<Path>)
    requires Sound(fs, root, sendHidden, elements)
    ensures SumIn(WalkAfter(fs, root, sendHidden, elements, |elements|).visits, paths)
         == SumOfPaths(fs, root, sendHidden, elements, paths)
  {
    hide Sound, WalkAfter, IsVisited, NodeCost, CostIn;
    if paths != [] {
      SumsAgree(fs, root, sendHidden, elements, paths[..|paths| - 1]);
      CostOfPath(fs, root, sendHidden, elements, paths[|paths| - 1]);
    }
  }

  lemma CostsOnceJoin(a: seq<Visit>, b: seq<Visit>)
    requires CountedOnce(b)
    ensures CostsOnce(a + b) <==>
      CostsOnce(a) && forall v, w :: v in a && w in b && v.path == w.path ==> w.Cost() == 0
  {
    hide Visit.Cost;
    var all := a + b;
    assert forall i, j :: |a| <= i < j < |all| ==> all[i].path != all[j].path;
    if CostsOnce(all) {
      forall i, j | 0 <= i < j < |a| && a[i].path == a[j].path
        ensures a[j].Cost() == 0
      {
        assert all[i] == a[i] && all[j] == a[j];
      }
      forall v, w | v in a && w in b && v.path == w.path
        ensures w.Cost() == 0
      {
        var i :| 0 <= i < |a| && a[i] == v;
        var j :| 0 <= j < |b| && b[j] == w;
        assert all[i] == v && all[|a| + j] == w;
      }
    }
    if CostsOnce(a) && forall v, w :: v in a && w in b && v.path == w.path ==> w.Cost() == 0 {
      forall i, j | 0 <= i < j < |all| && all[i].path == all[j].path
        ensures all[j].Cost() == 0
      {
        if i < |a| <= j {
          assert a[i] in a && b[j - |a|] in b;
        }
      }
    }
  }

  lemma {:induction false} CostsOnceExactly(fs: FileSystem, root: Root, sendHidden: bool, elements: seq<Dropped>, n: nat)
    requires n <= |elements| && Sound(fs, root, sendHidden, elements)
    ensures CostsOnce(WalkAfter(fs, root, sendHidden, elements, n).visits) <==> !CountedTwice(fs, root, sendHidden, elements, n)
  {
    hide WellFormed, TooDeep, Resolve, Step, Both, ElementTree, FileTree.PathsOf, CountedOnce, Relative, NodeCost, CostsOnce;
    if n == 0 {
      NoCosts();
    } else {
      var before, tree := WalkAfter(fs, root, sendHidden, elements, n - 1).visits, ElementTree(fs, root, sendHidden, elements[n - 1]);
      CostsOnceExactly(fs, root, sendHidden, elements, n - 1);
      VisitsGrow(fs, root, sendHidden, elements, n);
      ElementCountedOnce(fs, root, sendHidden, elements[n - 1]);
      CostsOnceJoin(before, tree);
      SharedCosts(fs, root, sendHidden, elements, n);
    }
  }

  lemma NoCosts()
    ensures CostsOnce([])
  {
  }

  /** The last element's walk meets a visited path of positive cost exactly when another
      element's does. */
  lemma SharedCosts(fs: FileSystem, root: Root, sendHidden: bool, elements: seq<Dropped>, n: nat)
    requires 0 < n <= |elements| && Sound(fs, root, sendHidden, elements)
    ensures
      var before, tree := WalkAfter(fs, root, sendHidden, elements, n - 1).visits, ElementTree(fs, root, sendHidden, elements[n - 1]);
      (forall v, w :: v in before && w in tree && v.path == w.path ==> w.Cost() == 0) <==>
        forall a, q :: 0 <= a < n - 1 && Both(fs, root, sendHidden, elements[a], elements[n - 1], q) ==> NodeCost(fs, root, q) == 0
  {
    hide WellFormed, TooDeep, Resolve, Step, Inside, ElementTree, Relative, NodeCost, WalkAfter, Visit.Cost, Named;
    var before, tree := WalkAfter(fs, root, sendHidden, elements, n - 1).visits, ElementTree(fs, root, sendHidden, elements[n - 1]);
    VisitsGrow(fs, root, sendHidden, elements, n);
    WalkNamed(fs, root, sendHidden, elements, n);
    NamedFacts(fs, root, before + tree);
    forall w | w in tree
      ensures w.Cost() == NodeCost(fs, root, w.path)
    {
      var j :| 0 <= j < |tree| && tree[j] == w;
      assert (before + tree)[|before| + j] == w;
    }
    forall q
      ensures q in FileTree.PathsOf(before) <==> exists a :: 0 <= a < n - 1 && Inside(fs, root, sendHidden, elements[a], q)
      ensures q in FileTree.PathsOf(tree) <==> Inside(fs, root, sendHidden, elements[n - 1], q)
    {
      Visited(fs, root, sendHidden, elements, n - 1, q);
      ElementVisits(fs, root, sendHidden, elements, n - 1, q);
    }
    if forall v, w :: v in before && w in tree && v.path == w.path ==> w.Cost() == 0 {
      forall a, q | 0 <= a < n - 1 && Both(fs, root, sendHidden, elements[a], elements[n - 1], q)
        ensures NodeCost(fs, root, q) == 0
      {
        assert q in FileTree.PathsOf(before) && q in FileTree.PathsOf(tree);
        var v :| v in before && v.path == q;
        var w :| w in tree && w.path == q;
      }
    }
    if forall a, q :: 0 <= a < n - 1 && Both(fs, root, sendHidden, elements[a], elements[n - 1], q) ==> NodeCost(fs, root, q) == 0 {
      forall v, w | v in before && w in tree && v.path == w.path
        ensures w.Cost() == 0
      {
        assert v.path in FileTree.PathsOf(before) && w.path in FileTree.PathsOf(tree);
        var a :| 0 <= a < n - 1 && Inside(fs, root, sendHidden, elements[a], v.path);
        assert Both(fs, root, sendHidden, elements[a], elements[n - 1], v.path);
      }
    }
  }

  lemma ApartCountedOnce(fs: FileSystem, root: Root, sendHidden: bool, elements: seq<Dropped>)
    requires Sound(fs, root, sendHidden, elements) && Apart(fs, root, sendHidden, elements, |elements|)
    ensures !CountedTwice(fs, root, sendHidden, elements, |elements|)
  {
    hide WellFormed, TooDeep, Resolve, Inside, Relative, NodeCost;
    forall a, b, q | 0 <= a < b < |elements| && Both(fs, root, sendHidden, elements[a], elements[b], q)
      ensures false
    {
      SharedPath(fs, root, sendHidden, elements[a], elements[b], q);
    }
  }

  /** The reported total is the sum over the distinct reported paths, of whole blocks for a file,
      4096 for a visited directory and nothing for one merely on the way, exactly when no two
      dropped elements lead to the same node of positive cost; otherwise it is larger. In
      particular it is that sum when no element lies inside another. */
  lemma TotalExactly(output: CrawlerOutput, fs: FileSystem, dropped: seq<Dropped>, sendHidden: bool)
    requires IsOutput(output, fs, dropped, sendHidden) && Sound(fs, output.root, sendHidden, SortDropped(dropped))
    ensures
      var sorted := SortDropped(dropped);
      var sum := SumOfPaths(fs, output.root, sendHidden, sorted, PathsFrom(output.paths));
      && sum <= output.totalSize
      && (output.totalSize == sum <==> !CountedTwice(fs, output.root, sendHidden, sorted, |sorted|))
      && (Apart(fs, output.root, sendHidden, sorted, |sorted|) ==> output.totalSize == sum)
  {
    hide Sound, Listing, TextsOf, PathsFrom, WalkAfter, SumOfPaths, CountedTwice, Apart, CostsOnce, Consistent, Named, IsOutput;
    var root, sorted, paths := output.root, SortDropped(dropped), PathsFrom(output.paths);
    var visits := WalkAfter(fs, root, sendHidden, sorted, |sorted|).visits;
    TotalOf(output, fs, dropped, sendHidden);
    WalkNamed(fs, root, sendHidden, sorted, |sorted|);
    NamedFacts(fs, root, visits);
    VisitedPaths(output, fs, dropped, sendHidden);
    CrawlIsListing(output, fs, dropped, sendHidden);
    DistinctPaths(fs, root, paths);
    TotalIs(visits, paths);
    SumsAgree(fs, root, sendHidden, sorted, paths);
    NothingRepeated(visits);
    CostsOnceExactly(fs, root, sendHidden, sorted, |sorted|);
    SoundFacts(fs, root, sendHidden, sorted);
    if Apart(fs, root, sendHidden, sorted, |sorted|) {
      ApartCountedOnce(fs, root, sendHidden, sorted);
    }
  }

  lemma TotalOf(output: CrawlerOutput, fs: FileSystem, dropped: seq<Dropped>, sendHidden: bool)
    requires IsOutput(output, fs, dropped, sendHidden)
    ensures output.totalSize == TotalCost(WalkAfter(fs, output.root, sendHidden, SortDropped(dropped), |SortDropped(dropped)|).visits)
  {
    hide IsRoot, AnyTooDeep, Texts, TopDirs, WalkAfter, SortDropped;
  }

  lemma DistinctPaths(fs: FileSystem, root: Root, paths: seq<Path>)
    requires Listing(fs, root, paths)
    ensures forall i, j :: 0 <= i < j < |paths| ==> paths[i] != paths[j]
  {
  }

  /** Every visited path is reported. */
  lemma VisitedPaths(output: CrawlerOutput, fs: FileSystem, dropped: seq<Dropped>, sendHidden: bool)
    requires IsOutput(output, fs, dropped, sendHidden) && Sound(fs, output.root, sendHidden, SortDropped(dropped))
    ensures
      var sorted := SortDropped(dropped);
      forall v :: v in WalkAfter(fs, output.root, sendHidden, sorted, |sorted|).visits ==> v.path in PathsFrom(output.paths)
  {
    hide IsOutput, Sound, WalkAfter, PathsFrom, Inside, Emitted, BelongsTo, Resolve;
    var root, sorted := output.root, SortDropped(dropped);
    var visits := WalkAfter(fs, root, sendHidden, sorted, |sorted|).visits;
    SoundFacts(fs, root, sendHidden, sorted);
    forall v | v in visits
      ensures v.path in PathsFrom(output.paths)
    {
      assert v.path in FileTree.PathsOf(visits);
      Visited(fs, root, sendHidden, sorted, |sorted|, v.path);
      var i :| 0 <= i < |sorted| && Inside(fs, root, sendHidden, sorted[i], v.path);
      InsideEmitted(fs, root, sendHidden, sorted, i, v.path);
      PathEmitted(output, fs, dropped, sendHidden, v.path);
    }
  }

  lemma InsideEmitted(fs: FileSystem, root: Root, sendHidden: bool, elements: seq<Dropped>, i: nat, q: Path)
    requires BelowRoot(root, elements) && i < |elements| && Inside(fs, root, sendHidden, elements[i], q)
    ensures Emitted(fs, root, sendHidden, elements, q)
  {
    hide Resolve, Reaches;
    assert |Relative(root, elements[i])| > 0;
    assert BelongsTo(fs, root, sendHidden, elements[i], q);
  }
}
