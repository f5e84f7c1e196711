/** Collecting the files to send (`FileCrawler`). */
module FileCrawler {
  import opened Options
  import opened Paths
  import opened FileTree

  function Text(path: Path): string {
    Join(path, '\\')
  }

  /** The texts are in order, and are exactly those of the paths. */
  ghost predicate Texts(texts: seq<string>, paths: set<Path>) {
    && Ascending(texts)
    && (forall s :: s in texts <==> exists p :: p in paths && s == Text(p))
  }

  lemma TextsInserted(texts: seq<string>, paths: set<Path>, path: Path)
    requires Texts(texts, paths)
    ensures Texts(Inserted(texts, Text(path)), paths + {path})
  {
    InsertedAscending(texts, Text(path));
    forall s | s in Inserted(texts, Text(path))
      ensures exists p :: p in paths + {path} && s == Text(p)
    {
      if s in texts {
        var p :| p in paths && s == Text(p);
        assert p in paths + {path};
      } else {
        assert path in paths + {path};
      }
    }
  }

  lemma NoPaths()
    ensures FileTree.PathsOf([]) == {}
  {
  }

  // ----- dropped paths -----------------------------------------------------------------

  /** A dropped path: its volume, its directories, its last name, and whether a separator follows. */
  datatype Dropped = Dropped(volume: string, dirs: Path, name: string, trailing: bool) {
    /** The directories `wxFileName` finds in the text: with a trailing separator, all names. */
    function WxDirs(): Path {
      if trailing then dirs + [name] else dirs
    }

    function Whole(): Path {
      dirs + [name]
    }

    function FullText(): string {
      volume + ":\\" + Text(Whole()) + if trailing then "\\" else ""
    }
  }

  datatype Root = Root(volume: string, dirs: Path)

  ghost predicate CommonPrefix(prefix: Path, paths: seq<Dropped>) {
    forall d :: d in paths ==> prefix <= d.WxDirs()
  }

  ghost predicate IsRoot(root: Root, paths: seq<Dropped>) {
    && (forall d :: d in paths ==> d.volume == root.volume)
    && CommonPrefix(root.dirs, paths)
    && (forall prefix :: CommonPrefix(prefix, paths) ==> prefix <= root.dirs)
  }

  ghost predicate NoRoot(paths: seq<Dropped>)
    requires paths != []
  {
    || (exists d :: d in paths && d.volume != paths[0].volume)
    || (paths[0].volume == [] && forall prefix :: CommonPrefix(prefix, paths) ==> prefix == [])
  }

  /** `findRoot`: nothing if the volumes differ or the text of the root would be empty,
      otherwise the longest common directory prefix. */
  method FindRoot(paths: seq<Dropped>) returns (root: Option<Root>)
    requires paths != []
    ensures root.Some? ==> IsRoot(root.value, paths)
    ensures root.None? <==> NoRoot(paths)
  {
    var volume, segments := paths[0].volume, paths[0].WxDirs();
    for i := 0 to |paths|
      invariant forall k :: 0 <= k < i ==> paths[k].volume == volume
    {
      if paths[i].volume != volume {
        return None;
      }
    }
    hide NoRoot, Dropped.WxDirs;
    var commonDirs: Path := [];
    var i := 0;
    FirstPrefix(paths);
    while i < |segments|
      invariant i <= |segments| && commonDirs == segments[..i] && CommonPrefix(commonDirs, paths)
    {
      var iterOk := HasSegment(paths, segments, i);
      if iterOk {
        assert segments[..i + 1] == commonDirs + [segments[i]];
        commonDirs := commonDirs + [segments[i]];
        i := i + 1;
      } else {
        break;
      }
    }
    RootFound(paths, volume, commonDirs);
    if volume == [] && commonDirs == [] {
      return None;
    }
    root := Some(Root(volume, commonDirs));
  }

  lemma FirstPrefix(paths: seq<Dropped>)
    ensures CommonPrefix([], paths)
  {
  }

  /** One round over the other paths: do all have the next segment? */
  method HasSegment(paths: seq<Dropped>, segments: Path, i: nat) returns (iterOk: bool)
    requires paths != [] && segments == paths[0].WxDirs() && i < |segments| && CommonPrefix(segments[..i], paths)
    ensures iterOk ==> CommonPrefix(segments[..i + 1], paths)
    ensures !iterOk ==> forall prefix :: CommonPrefix(prefix, paths) ==> prefix <= segments[..i]
  {
    hide Dropped.WxDirs;
    for j := 1 to |paths|
      invariant forall k :: 1 <= k < j ==> segments[..i + 1] <= paths[k].WxDirs()
    {
      var dirs := paths[j].WxDirs();
      assert paths[j] in paths && segments[..i] <= dirs;
      if |dirs| <= i || dirs[i] != segments[i] {
        LongestPrefix(segments[..i], segments, paths, j);
        return false;
      }
      assert segments[..i + 1] == segments[..i] + [segments[i]] && dirs[..i + 1] == dirs[..i] + [dirs[i]];
    }
    iterOk := true;
  }

  lemma RootFound(paths: seq<Dropped>, volume: string, commonDirs: Path)
    requires paths != [] && (forall k :: 0 <= k < |paths| ==> paths[k].volume == volume)
    requires CommonPrefix(commonDirs, paths) && forall prefix :: CommonPrefix(prefix, paths) ==> prefix <= commonDirs
    ensures IsRoot(Root(volume, commonDirs), paths)
    ensures NoRoot(paths) <==> volume == [] && commonDirs == []
  {
    hide Dropped.WxDirs, CommonPrefix;
    assert paths[0] in paths;
  }

  lemma LongestPrefix(common: Path, segments: Path, paths: seq<Dropped>, j: nat)
    requires paths != [] && segments == paths[0].WxDirs() && common <= segments && |common| < |segments|
    requires j < |paths|
    requires |paths[j].WxDirs()| <= |common| || paths[j].WxDirs()[|common|] != segments[|common|]
    ensures forall prefix :: CommonPrefix(prefix, paths) ==> prefix <= common
  {
    forall prefix | CommonPrefix(prefix, paths)
      ensures prefix <= common
    {
      var other := paths[j].WxDirs();
      assert prefix <= paths[0].WxDirs() && prefix <= other;
      assert forall k :: 0 <= k < |prefix| ==> prefix[k] == segments[k] && prefix[k] == other[k];
    }
  }

  /** `std::sort` on the texts of the paths. */
  function InsertDropped(d: Dropped, sorted: seq<Dropped>): (result: seq<Dropped>)
    ensures forall x :: x in result <==> x == d || x in sorted
    ensures |result| == |sorted| + 1
  {
    if sorted == [] || !Less(sorted[0].FullText(), d.FullText()) then [d] + sorted
    else [sorted[0]] + InsertDropped(d, sorted[1..])
  }

  function SortDropped(paths: seq<Dropped>): (result: seq<Dropped>)
    ensures forall x :: x in result <==> x in paths
    ensures |result| == |paths|
  {
    if paths == [] then [] else InsertDropped(paths[0], SortDropped(paths[1..]))
  }

  // ----- the walk over the dropped elements --------------------------------------------

  function CommonLength(a: Path, b: Path): (n: nat)
    ensures n <= |a| && n <= |b| && a[..n] == b[..n]
    ensures n < |a| && n < |b| ==> a[n] != b[n]
  {
    if a == [] || b == [] || a[0] != b[0] then 0
    else
      var n := 1 + CommonLength(a[1..], b[1..]);
      assert a[..n] == [a[0]] + a[1..][..n - 1] && b[..n] == [b[0]] + b[1..][..n - 1];
      n
  }

  function Max(a: int, b: int): int {
    if a < b then b else a
  }

  /** Where the walk is, and what it has emitted and counted. */
  datatype Walk = Walk(location: Path, relative: Path, emitted: set<Path>, visits: seq<Visit>)

  /** What is left of the relative path after stepping back to the common directory; stepping
      back from the empty path does nothing. */
  function Base(w: Walk, dirs: Path): Path {
    w.relative[..Max(0, |w.relative| + CommonLength(w.location, dirs) - |w.location|)]
  }

  /** The directories on the way down from the common one. */
  function NewAncestors(base: Path, dirs: Path, from: nat): set<Path>
    requires from <= |dirs|
  {
    set k | from < k <= |dirs| :: base + dirs[from..k]
  }

  function Step(fs: FileSystem, volume: string, sendHidden: bool, w: Walk, dirs: Path, name: string): Walk {
    var from := CommonLength(w.location, dirs);
    var relative := Base(w, dirs) + dirs[from..] + [name];
    var tree := TreeAt(fs, Resolve(fs, volume, dirs + [name]), relative, sendHidden, 0);
    Walk(dirs + [name], relative,
      w.emitted + NewAncestors(Base(w, dirs), dirs, from) + FileTree.PathsOf(tree), w.visits + tree)
  }

  lemma CommonLengthIs(a: Path, b: Path, n: nat)
    requires n <= |a| && n <= |b| && a[..n] == b[..n]
    requires n == |a| || n == |b| || a[n] != b[n]
    ensures CommonLength(a, b) == n
  {
    var m := CommonLength(a, b);
    assert forall k :: 0 <= k < n ==> a[k] == a[..n][k] == b[k];
    assert forall k :: 0 <= k < m ==> a[k] == a[..m][k] == b[k];
  }

  lemma NoAncestors(base: Path, dirs: Path, from: nat)
    requires from <= |dirs|
    ensures NewAncestors(base, dirs[..from], from) == {}
  {
  }

  lemma AncestorAdded(base: Path, dirs: Path, from: nat, i: nat)
    requires from <= i < |dirs|
    ensures NewAncestors(base, dirs[..i + 1], from) == NewAncestors(base, dirs[..i], from) + {base + dirs[from..i] + [dirs[i]]}
  {
    var more, less := NewAncestors(base, dirs[..i + 1], from), NewAncestors(base, dirs[..i], from);
    var last := base + dirs[from..i] + [dirs[i]];
    assert base + dirs[..i + 1][from..i + 1] == last;
    forall k | from < k <= i
      ensures dirs[..i + 1][from..k] == dirs[..i][from..k]
    {
      assert dirs[..i + 1][from..k] == dirs[from..k] == dirs[..i][from..k];
    }
    forall q | q in more
      ensures q in less + {last}
    {
      var k :| from < k <= i + 1 && q == base + dirs[..i + 1][from..k];
      if k <= i {
        assert q == base + dirs[..i][from..k];
        assert q in less;
      } else {
        assert q == base + dirs[..i + 1][from..i + 1];
        assert q == last;
      }
    }
    forall q | q in less
      ensures q in more
    {
      var k :| from < k <= i && q == base + dirs[..i][from..k];
      assert q == base + dirs[..i + 1][from..k];
    }
  }

  class Crawl {
    const fs: FileSystem
    const volume: string
    const sendHidden: bool

    /** `pathSet`: the texts of the relative paths, in order. */
    var paths: seq<string>
    var totalSize: int

    /** `location` and `relativeLoc` of the job. */
    var location: Path
    var relative: Path

    /** The relative paths behind the texts, and every node whose cost was counted. */
    ghost var emitted: set<Path>
    ghost var visits: seq<Visit>

    ghost predicate Valid()
      reads this
    {
      && WellFormed(fs)
      && Texts(paths, emitted)
      && totalSize == TotalCost(visits)
    }

    ghost function State(): Walk
      reads this
    {
      Walk(location, relative, emitted, visits)
    }

    constructor (fs: FileSystem, root: Root, sendHidden: bool)
      requires WellFormed(fs)
      ensures Valid() && this.fs == fs && this.volume == root.volume && this.sendHidden == sendHidden
      ensures State() == Walk(root.dirs, [], {}, [])
    {
      this.fs, this.volume, this.sendHidden := fs, root.volume, sendHidden;
      location, relative := root.dirs, [];
      paths, totalSize, emitted, visits := [], 0, {}, [];
    }

    method Insert(path: Path)
      requires Valid()
      modifies this`paths, this`emitted
      ensures Valid() && emitted == old(emitted) + {path}
    {
      hide Texts;
      TextsInserted(paths, emitted, path);
      paths := Inserted(paths, Text(path));
      emitted := emitted + {path};
    }

    method Count(visit: Visit)
      requires Valid()
      modifies this`totalSize, this`visits
      ensures Valid() && visits == old(visits) + [visit]
    {
      hide Texts, WellFormed;
      assert (visits + [visit])[..|visits|] == visits;
      totalSize := totalSize + visit.Cost();
      visits := visits + [visit];
    }

    /** `performFilesystemDFS`: fails, as the exception does, exactly when something is listed
        too deep; otherwise it emits and counts the whole tree below the location. */
    method PerformFilesystemDFS(at: Path, path: Path, level: nat) returns (ok: bool)
      requires Valid() && level <= MAX_RECURSION_DEPTH + 1
      modifies this`paths, this`totalSize, this`emitted, this`visits
      ensures Valid()
      ensures ok <==> !TooDeepAt(fs, Resolve(fs, volume, at), sendHidden, level)
      ensures
        var tree := TreeAt(fs, Resolve(fs, volume, at), path, sendHidden, level);
        ok ==> visits == old(visits) + tree && emitted == old(emitted) + FileTree.PathsOf(tree)
      decreases MAX_RECURSION_DEPTH + 1 - level, 0
    {
      hide Texts, WellFormed, TotalCost, Listed, FileTree.PathsOf, Resolve, Forest;
      if level > MAX_RECURSION_DEPTH {
        return false;
      }
      var id := Resolve(fs, volume, at);
      NoPaths();
      if DirExists(fs, volume, at) {
        var visit := Visit(path, fs.nodes[id.value]);
        Insert(path);
        Count(visit);
        var files := Listed(fs.nodes[id.value].entries, sendHidden);
        PathsOfOne(visit);
        PathsOfJoin([visit], Forest(fs, files, |files|, path, sendHidden, level));
        ok := VisitEntries(at, path, level, files);
        return;
      } else if FileExists(fs, volume, at) {
        Insert(path);
        Count(Visit(path, fs.nodes[id.value]));
        PathsOfOne(Visit(path, fs.nodes[id.value]));
      }
      ok := true;
    }

    /** The loop over the listing of a directory. */
    method VisitEntries(at: Path, path: Path, level: nat, files: seq<Entry>) returns (ok: bool)
      requires Valid() && level <= MAX_RECURSION_DEPTH
      requires DirExists(fs, volume, at)
      requires forall e :: e in files ==> e in fs.nodes[Resolve(fs, volume, at).value].entries
      modifies this`paths, this`totalSize, this`emitted, this`visits
      ensures Valid()
      ensures ok <==> forall e :: e in files ==> !TooDeep(fs, e.target, sendHidden, level + 1)
      ensures
        var forest := Forest(fs, files, |files|, path, sendHidden, level);
        ok ==> visits == old(visits) + forest && emitted == old(emitted) + FileTree.PathsOf(forest)
      decreases MAX_RECURSION_DEPTH - level, 1
    {
      hide Texts, WellFormed, TotalCost, FileTree.PathsOf, Resolve, DirExists, Tree, TooDeep, TreeAt, TooDeepAt;
      NoPaths();
      for i := 0 to |files|
        invariant Valid()
        invariant forall k :: 0 <= k < i ==> !TooDeep(fs, files[k].target, sendHidden, level + 1)
        invariant visits == old(visits) + Forest(fs, files, i, path, sendHidden, level)
        invariant emitted == old(emitted) + FileTree.PathsOf(Forest(fs, files, i, path, sendHidden, level))
      {
        ResolveEntry(fs, volume, at, files[i]);
        ChildTree(fs, files[i].target, path + [files[i].name], sendHidden, level);
        PathsOfJoin(Forest(fs, files, i, path, sendHidden, level),
          Tree(fs, files[i].target, path + [files[i].name], sendHidden, level + 1));
        var newLocation := at + [files[i].name];
        var newRelative := path + [newLocation[|newLocation| - 1]];
        ok := PerformFilesystemDFS(newLocation, newRelative, level + 1);
        if !ok {
          return;
        }
      }
      ok := true;
    }

    /** Removes directories from both paths until `location` has n left. */
    method StepBack(n: nat)
      requires Valid() && n <= |location|
      modifies this`location, this`relative
      ensures Valid() && location == old(location)[..n]
      ensures relative == old(relative)[..Max(0, |old(relative)| + n - |old(location)|)]
    {
      hide Texts, WellFormed, TotalCost;
      while |location| > n
        invariant Valid()
        invariant n <= |location| <= |old(location)| && location == old(location)[..|location|]
        invariant relative == old(relative)[..Max(0, |old(relative)| + |location| - |old(location)|)]
        decreases |location|
      {
        location := location[..|location| - 1];
        relative := relative[..Max(0, |relative| - 1)];
      }
    }

    /** Appends the remaining directories to both paths and emits them. */
    method StepDown(dirs: Path, ghost from: nat)
      requires Valid() && from == |location| <= |dirs| && location == dirs[..from]
      modifies this`location, this`relative, this`paths, this`emitted
      ensures Valid() && location == dirs && relative == old(relative) + dirs[from..]
      ensures emitted == old(emitted) + NewAncestors(old(relative), dirs, from)
    {
      hide Texts, WellFormed, TotalCost, NewAncestors;
      NoAncestors(relative, dirs, from);
      var i := |location|;
      while i < |dirs|
        invariant Valid()
        invariant from <= i <= |dirs| && location == dirs[..i] && relative == old(relative) + dirs[from..i]
        invariant emitted == old(emitted) + NewAncestors(old(relative), dirs[..i], from)
      {
        location := location + [dirs[i]];
        relative := relative + [dirs[i]];
        AncestorAdded(old(relative), dirs, from, i);
        assert relative == old(relative) + dirs[from..i] + [dirs[i]];
        Insert(relative);
        i := i + 1;
      }
      assert dirs[..i] == dirs;
    }

    /** `findAndUnwindElement`: steps back to the directory shared with the element, down to the
        element, and walks the tree below it. */
    method FindAndUnwindElement(dirs: Path, name: string) returns (ok: bool)
      requires Valid()
      modifies this
      ensures Valid()
      ensures ok <==> !TooDeepAt(fs, Resolve(fs, volume, dirs + [name]), sendHidden, 0)
      ensures ok ==> State() == Step(fs, volume, sendHidden, old(State()), dirs, name)
    {
      hide Texts, WellFormed, TotalCost, FileTree.PathsOf, Resolve, TreeAt, TooDeepAt, CommonLength, NewAncestors;
      var lastOk := 0;
      while lastOk < |location| && lastOk < |dirs| && dirs[lastOk] == location[lastOk]
        invariant lastOk <= |location| && lastOk <= |dirs| && location[..lastOk] == dirs[..lastOk]
      {
        lastOk := lastOk + 1;
      }
      CommonLengthIs(location, dirs, lastOk);
      StepBack(lastOk);
      StepDown(dirs, lastOk);
      location := location + [name];
      relative := relative + [name];
      ok := PerformFilesystemDFS(dirs + [name], relative, 0);
    }
  }

  // ----- the job -----------------------------------------------------------------------

  datatype CrawlerOutput = CrawlerOutput(
    root: Root, paths: seq<string>, totalSize: int, topDirs: seq<string>, fileCount: nat, folderCount: nat)

  /** The walk after the first n elements. */
  function WalkAfter(fs: FileSystem, root: Root, sendHidden: bool, elements: seq<Dropped>, n: nat): Walk
    requires n <= |elements|
  {
    if n == 0 then Walk(root.dirs, [], {}, [])
    else Step(fs, root.volume, sendHidden, WalkAfter(fs, root, sendHidden, elements, n - 1),
              elements[n - 1].dirs, elements[n - 1].name)
  }

  ghost predicate AnyTooDeep(fs: FileSystem, sendHidden: bool, elements: seq<Dropped>) {
    exists d :: d in elements && TooDeepAt(fs, Resolve(fs, d.volume, d.Whole()), sendHidden, 0)
  }

  ghost predicate TopDirs(tops: seq<string>, paths: seq<string>) {
    && Ascending(tops)
    && (forall t :: t in tops <==> exists p :: p in paths && t == BeforeFirst(p, '\\'))
  }

  function CountFiles(fs: FileSystem, root: Root, tops: seq<string>): nat {
    if tops == [] then 0
    else CountFiles(fs, root, tops[..|tops| - 1]) +
         (if FileExists(fs, root.volume, root.dirs + [tops[|tops| - 1]]) then 1 else 0)
  }

  function CountFolders(fs: FileSystem, root: Root, tops: seq<string>): nat {
    if tops == [] then 0
    else CountFolders(fs, root, tops[..|tops| - 1]) +
         (if DirExists(fs, root.volume, root.dirs + [tops[|tops| - 1]]) then 1 else 0)
  }

  method FindTopDirs(paths: seq<string>) returns (tops: seq<string>)
    ensures TopDirs(tops, paths)
  {
    tops := [];
    for i := 0 to |paths|
      invariant TopDirs(tops, paths[..i])
    {
      var first := BeforeFirst(paths[i], '\\');
      InsertedAscending(tops, first);
      tops := Inserted(tops, first);
      assert paths[..i + 1] == paths[..i] + [paths[i]];
      assert forall p :: p in paths[..i + 1] <==> p in paths[..i] || p == paths[i];
    }
    assert paths[..|paths|] == paths;
  }

  method CountTopDirs(fs: FileSystem, root: Root, tops: seq<string>) returns (fileCount: nat, folderCount: nat)
    ensures fileCount == CountFiles(fs, root, tops) && folderCount == CountFolders(fs, root, tops)
  {
    fileCount, folderCount := 0, 0;
    for i := 0 to |tops|
      invariant fileCount == CountFiles(fs, root, tops[..i]) && folderCount == CountFolders(fs, root, tops[..i])
    {
      assert tops[..i + 1][..i] == tops[..i];
      if FileExists(fs, root.volume, root.dirs + [tops[i]]) {
        fileCount := fileCount + 1;
      } else if DirExists(fs, root.volume, root.dirs + [tops[i]]) {
        folderCount := folderCount + 1;
      }
    }
    assert tops[..|tops|] == tops;
  }

  lemma RootVolume(root: Root, paths: seq<Dropped>)
    requires IsRoot(root, paths)
    ensures forall d :: d in paths ==> d.volume == root.volume
  {
  }

  lemma WalkStarts(fs: FileSystem, root: Root, sendHidden: bool, elements: seq<Dropped>)
    ensures WalkAfter(fs, root, sendHidden, elements, 0) == Walk(root.dirs, [], {}, [])
  {
  }

  lemma WalkNext(fs: FileSystem, root: Root, sendHidden: bool, elements: seq<Dropped>, i: nat)
    requires i < |elements|
    ensures WalkAfter(fs, root, sendHidden, elements, i + 1)
         == Step(fs, root.volume, sendHidden, WalkAfter(fs, root, sendHidden, elements, i), elements[i].dirs, elements[i].name)
  {
    hide Step;
  }

  lemma SomeTooDeep(fs: FileSystem, sendHidden: bool, paths: seq<Dropped>, d: Dropped)
    requires d in paths
    ensures TooDeepAt(fs, Resolve(fs, d.volume, d.Whole()), sendHidden, 0) ==> AnyTooDeep(fs, sendHidden, paths)
  {
    hide TooDeepAt, Resolve;
  }

  /** Sorting leaves the same elements. */
  lemma NoneTooDeep(fs: FileSystem, sendHidden: bool, paths: seq<Dropped>)
    requires
      var sorted := SortDropped(paths);
      forall k :: 0 <= k < |sorted| ==> !TooDeepAt(fs, Resolve(fs, sorted[k].volume, sorted[k].Whole()), sendHidden, 0)
    ensures !AnyTooDeep(fs, sendHidden, paths)
  {
    hide TooDeepAt, Resolve, SortDropped;
    forall d | d in paths
      ensures !TooDeepAt(fs, Resolve(fs, d.volume, d.Whole()), sendHidden, 0)
    {
      assert d in SortDropped(paths);
    }
  }

  /** `crawlJobMain`: fails exactly when there is no root or something is nested too deep. */
  method CrawlJobMain(fs: FileSystem, paths: seq<Dropped>, sendHidden: bool) returns (output: Option<CrawlerOutput>)
    requires paths != [] && WellFormed(fs)
    ensures output.None? <==> NoRoot(paths) || AnyTooDeep(fs, sendHidden, paths)
    ensures output.Some? ==> IsOutput(output.value, fs, paths, sendHidden)
  {
    hide WellFormed, NoRoot, IsRoot, Resolve, TooDeepAt, Texts, TopDirs, Step, TotalCost, SortDropped, WalkAfter, AnyTooDeep;
    var root := FindRoot(paths);
    if root.None? {
      return None;
    }
    RootVolume(root.value, paths);
    var sorted := SortDropped(paths);
    var crawl := new Crawl(fs, root.value, sendHidden);
    WalkStarts(fs, root.value, sendHidden, sorted);
    for i := 0 to |sorted|
      invariant crawl.Valid() && fresh(crawl)
      invariant crawl.fs == fs && crawl.volume == root.value.volume && crawl.sendHidden == sendHidden
      invariant crawl.State() == WalkAfter(fs, root.value, sendHidden, sorted, i)
      invariant forall k :: 0 <= k < i ==> !TooDeepAt(fs, Resolve(fs, sorted[k].volume, sorted[k].Whole()), sendHidden, 0)
    {
      assert sorted[i] in sorted && sorted[i] in paths;
      WalkNext(fs, root.value, sendHidden, sorted, i);
      SomeTooDeep(fs, sendHidden, paths, sorted[i]);
      var ok := crawl.FindAndUnwindElement(sorted[i].dirs, sorted[i].name);
      if !ok {
        return None;
      }
    }
    NoneTooDeep(fs, sendHidden, paths);
    var tops := FindTopDirs(crawl.paths);
    var fileCount, folderCount := CountTopDirs(fs, root.value, tops);
    output := Some(CrawlerOutput(root.value, crawl.paths, crawl.totalSize, tops, fileCount, folderCount));
  }

  /** What a successful job reports. */
  ghost predicate IsOutput(output: CrawlerOutput, fs: FileSystem, paths: seq<Dropped>, sendHidden: bool) {
    var sorted := SortDropped(paths);
    var walk := WalkAfter(fs, output.root, sendHidden, sorted, |sorted|);
    && IsRoot(output.root, paths)
    && !AnyTooDeep(fs, sendHidden, paths)
    && Texts(output.paths, walk.emitted)
    && output.totalSize == TotalCost(walk.visits)
    && TopDirs(output.topDirs, output.paths)
    && output.fileCount == CountFiles(fs, output.root, output.topDirs)
    && output.folderCount == CountFolders(fs, output.root, output.topDirs)
  }
}
