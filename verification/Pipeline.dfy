/** From dropped elements to what the receiver has: the crawl, the stream and the tree together. */
module Pipeline {
  import opened Options
  import opened Database
  import opened Paths
  import opened FileTree
  import opened FileCrawler
  import opened CrawlResult
  import opened CrawlTotals
  import opened FileSender
  import opened TransferReceiver
  import opened StreamRoundTrip
  import opened Delivery
  import opened FileListTree
  import opened SortedTree
  import FileListDialog

  /** The paths behind the texts of a crawl job. */
  function PathsFrom(texts: seq<string>): (paths: seq<Path>)
    ensures |paths| == |texts| && forall i :: 0 <= i < |texts| ==> paths[i] == Split(texts[i], '\\')
  {
    seq(|texts|, i requires 0 <= i < |texts| => Split(texts[i], '\\'))
  }

  lemma ReportedPath(output: CrawlerOutput, fs: FileSystem, dropped: seq<Dropped>, sendHidden: bool, i: nat)
    requires IsOutput(output, fs, dropped, sendHidden) && Sound(fs, output.root, sendHidden, SortDropped(dropped))
    requires i < |output.paths|
    ensures
      var q := Split(output.paths[i], '\\');
      Emitted(fs, output.root, sendHidden, SortDropped(dropped), q) && output.paths[i] == Text(q)
  {
    hide IsOutput, Sound, Emitted, Split;
    var s := output.paths[i];
    ReportedPaths(output, fs, dropped, sendHidden, s);
    SoundFacts(fs, output.root, sendHidden, SortDropped(dropped));
    var q :| Emitted(fs, output.root, sendHidden, SortDropped(dropped), q) && s == Text(q);
    EmittedFacts(fs, output.root, sendHidden, SortDropped(dropped), q);
    SplitJoin(q, '\\');
  }

  lemma SoundFacts(fs: FileSystem, root: Root, sendHidden: bool, elements: seq<Dropped>)
    requires Sound(fs, root, sendHidden, elements)
    ensures BelowRoot(root, elements)
  {
  }

  /** The results about a successful job need its elements to be sound: exactly when all of them
      exist and none with a trailing separator is the root itself. */
  lemma SoundExactly(output: CrawlerOutput, fs: FileSystem, dropped: seq<Dropped>, sendHidden: bool)
    requires IsOutput(output, fs, dropped, sendHidden) && WellFormed(fs)
    ensures Sound(fs, output.root, sendHidden, SortDropped(dropped)) <==>
      forall d :: d in dropped ==> Exists(fs, output.root.volume, d.Whole()) && !IsRootItself(output.root, d)
  {
    hide WellFormed, Resolve, TooDeep, SortDropped, WalkAfter, Texts, TopDirs, Dropped.WxDirs;
    var root, sorted := output.root, SortDropped(dropped);
    assert forall i :: 0 <= i < |sorted| ==> sorted[i] in sorted;
    if forall d :: d in dropped ==> Exists(fs, root.volume, d.Whole()) && !IsRootItself(root, d) {
      assert forall i :: 0 <= i < |sorted| ==> Exists(fs, root.volume, sorted[i].Whole());
      OthersBelowRoot(root, sorted);
    }
    if Sound(fs, root, sendHidden, sorted) {
      forall d | d in dropped
        ensures Exists(fs, root.volume, d.Whole()) && !IsRootItself(root, d)
      {
        var i :| 0 <= i < |sorted| && sorted[i] == d;
        assert root.dirs <= sorted[i].dirs;
      }
    }
  }

  lemma OutputFacts(output: CrawlerOutput, fs: FileSystem, dropped: seq<Dropped>, sendHidden: bool)
    requires IsOutput(output, fs, dropped, sendHidden)
    ensures Ascending(output.paths) && TopDirs(output.topDirs, output.paths)
    ensures output.fileCount == CountFiles(fs, output.root, output.topDirs)
    ensures output.folderCount == CountFolders(fs, output.root, output.topDirs)
  {
  }

  lemma PathEmitted(output: CrawlerOutput, fs: FileSystem, dropped: seq<Dropped>, sendHidden: bool, q: Path)
    requires IsOutput(output, fs, dropped, sendHidden) && Sound(fs, output.root, sendHidden, SortDropped(dropped))
    ensures q in PathsFrom(output.paths) <==> Emitted(fs, output.root, sendHidden, SortDropped(dropped), q)
  {
    hide IsOutput, Sound, Emitted, Split, Text;
    var paths := PathsFrom(output.paths);
    SoundFacts(fs, output.root, sendHidden, SortDropped(dropped));
    if q in paths {
      var i :| 0 <= i < |paths| && paths[i] == q;
      ReportedPath(output, fs, dropped, sendHidden, i);
    }
    if Emitted(fs, output.root, sendHidden, SortDropped(dropped), q) {
      EmittedFacts(fs, output.root, sendHidden, SortDropped(dropped), q);
      ReportedPaths(output, fs, dropped, sendHidden, Text(q));
      var i :| 0 <= i < |output.paths| && output.paths[i] == Text(q);
      TargetIs(fs, output.root, q);
      assert paths[i] == q;
    }
  }

  lemma CrawlTexts(output: CrawlerOutput, fs: FileSystem, dropped: seq<Dropped>, sendHidden: bool)
    requires IsOutput(output, fs, dropped, sendHidden) && Sound(fs, output.root, sendHidden, SortDropped(dropped))
    ensures TextsOf(PathsFrom(output.paths)) == output.paths
  {
    hide IsOutput, Sound, Emitted, Split, Text;
    forall i | 0 <= i < |output.paths|
      ensures output.paths[i] == Text(PathsFrom(output.paths)[i])
    {
      ReportedPath(output, fs, dropped, sendHidden, i);
    }
  }

  lemma CrawlSorted(output: CrawlerOutput, fs: FileSystem, dropped: seq<Dropped>, sendHidden: bool)
    requires IsOutput(output, fs, dropped, sendHidden) && Sound(fs, output.root, sendHidden, SortDropped(dropped))
    ensures Sorted(PathsFrom(output.paths))
    ensures forall i :: 0 <= i < |output.paths| ==>
      Exists(fs, output.root.volume, output.root.dirs + PathsFrom(output.paths)[i])
  {
    hide IsOutput, Sound, Emitted, Split, Text, Resolve, ValidPath, Less, PathsFrom, Exists, DirExists;
    var paths, elements := PathsFrom(output.paths), SortDropped(dropped);
    SoundFacts(fs, output.root, sendHidden, elements);
    OutputFacts(output, fs, dropped, sendHidden);
    CrawlTexts(output, fs, dropped, sendHidden);
    forall q | q in paths
      ensures q != [] && ValidPath(q) && Exists(fs, output.root.volume, output.root.dirs + q)
      ensures |q| > 1 ==> q[..|q| - 1] in paths
    {
      PathEmitted(output, fs, dropped, sendHidden, q);
      EmittedFacts(fs, output.root, sendHidden, elements, q);
      if |q| > 1 {
        PathEmitted(output, fs, dropped, sendHidden, q[..|q| - 1]);
      }
    }
    forall i | 0 <= i < |paths|
      ensures paths[i] in paths && output.paths[i] == Text(paths[i])
    {
      assert TextsOf(paths)[i] == Text(paths[i]);
    }
  }

  /** A crawl job lists existing paths, in order, each once, after the directory that holds it. */
  lemma CrawlIsListing(output: CrawlerOutput, fs: FileSystem, dropped: seq<Dropped>, sendHidden: bool)
    requires IsOutput(output, fs, dropped, sendHidden) && Sound(fs, output.root, sendHidden, SortDropped(dropped))
    ensures TextsOf(PathsFrom(output.paths)) == output.paths
    ensures Sorted(PathsFrom(output.paths)) && Listing(fs, output.root, PathsFrom(output.paths))
  {
    hide IsOutput, Sound, Sorted, Listing, TextsOf, Resolve;
    CrawlTexts(output, fs, dropped, sendHidden);
    CrawlSorted(output, fs, dropped, sendHidden);
    SortedIsListing(fs, output.root, PathsFrom(output.paths));
  }

  lemma SortedIsListing(fs: FileSystem, root: Root, paths: seq<Path>)
    requires Sorted(paths) && forall i :: 0 <= i < |paths| ==> Exists(fs, root.volume, root.dirs + paths[i])
    ensures Listing(fs, root, paths)
  {
    hide Text, Resolve, ValidPath, Less;
    forall i, j | 0 <= i < j < |paths|
      ensures paths[i] != paths[j]
    {
      LessTotal(Text(paths[i]), Text(paths[j]));
    }
    forall i | 0 <= i < |paths| && |paths[i]| > 1
      ensures paths[i][..|paths[i]| - 1] in paths[..i]
    {
      assert paths[i] in paths;
      var j :| 0 <= j < |paths| && paths[j] == paths[i][..|paths[i]| - 1];
      assert paths[j] < paths[i];
      AboveIsBefore(paths, j, i);
      assert paths[..i][j] == paths[j];
    }
  }

  lemma OutputRoot(output: CrawlerOutput, fs: FileSystem, dropped: seq<Dropped>, sendHidden: bool)
    requires IsOutput(output, fs, dropped, sendHidden)
    ensures IsRoot(output.root, dropped)
  {
  }

  /** The text of the root is empty exactly when a crawl job would have failed for it. */
  lemma RootTextExactly(root: Root, dropped: seq<Dropped>)
    requires dropped != [] && IsRoot(root, dropped)
    ensures RootText(root) == [] <==> NoRoot(dropped)
  {
    assert dropped[0] in dropped;
    if NoRoot(dropped) {
      assert forall prefix :: CommonPrefix(prefix, dropped) ==> prefix == [];
    }
  }

  // ----- the counts --------------------------------------------------------------------

  lemma FirstMember(s: seq<string>)
    ensures s != [] ==> s[0] in s
  {
  }

  lemma {:induction false} AscendingSame(a: seq<string>, b: seq<string>)
    requires Ascending(a) && Ascending(b) && forall x :: x in a <==> x in b
    ensures a == b
  {
    hide Less;
    FirstMember(a);
    FirstMember(b);
    if a != [] && b != [] {
      var k :| 0 <= k < |b| && b[k] == a[0];
      var l :| 0 <= l < |a| && a[l] == b[0];
      LessTotal(a[0], b[0]);
      forall x
        ensures x in a[1..] <==> x in b[1..]
      {
        TailMember(a, x);
        TailMember(b, x);
      }
      AscendingSame(a[1..], b[1..]);
      assert a == [a[0]] + a[1..] && b == [b[0]] + b[1..];
    }
  }

  lemma TailMember(s: seq<string>, x: string)
    requires Ascending(s) && s != []
    ensures x in s[1..] <==> x in s && x != s[0]
  {
    hide Less;
    if i :| 0 <= i < |s| && s[i] == x {
      LessTotal(s[0], x);
      if i > 0 {
        assert s[1..][i - 1] == x;
      }
    }
    if x in s[1..] {
      var i :| 0 <= i < |s[1..]| && s[1..][i] == x;
      assert s[i + 1] == x;
      LessTotal(s[0], x);
    }
  }

  /** The names of the paths directly in the root. */
  function Tops(paths: seq<Path>): (tops: seq<string>)
    ensures forall t :: t in tops <==> [t] in paths
  {
    if paths == [] then []
    else
      var rest, q := Tops(paths[..|paths| - 1]), paths[|paths| - 1];
      assert forall x :: x in paths <==> x in paths[..|paths| - 1] || x == q;
      if |q| == 1 then (assert q == [q[0]]; rest + [q[0]]) else rest
  }

  lemma {:induction false} TopsAscending(paths: seq<Path>)
    requires forall i, j :: 0 <= i < j < |paths| ==> Less(Text(paths[i]), Text(paths[j]))
    ensures Ascending(Tops(paths))
  {
    hide Less, Text;
    if paths != [] {
      var p, q := paths[..|paths| - 1], paths[|paths| - 1];
      TopsAscending(p);
      if |q| == 1 {
        var tops := Tops(p);
        forall i | 0 <= i < |tops|
          ensures Less(tops[i], q[0])
        {
          assert tops[i] in tops && [tops[i]] in p;
          var k :| 0 <= k < |p| && p[k] == [tops[i]];
          TextOfOne(tops[i]);
          TextOfOne(q[0]);
          assert q == [q[0]] && Less(Text(paths[k]), Text(paths[|paths| - 1]));
        }
      }
    }
  }

  lemma TextOfOne(name: string)
    ensures Text([name]) == name
  {
  }

  lemma {:induction false} TopsCounted(fs: FileSystem, root: Root, paths: seq<Path>)
    requires forall i :: 0 <= i < |paths| ==> Exists(fs, root.volume, root.dirs + paths[i])
    ensures CountFiles(fs, root, Tops(paths)) == TopCount(fs, root, paths, false)
    ensures CountFolders(fs, root, Tops(paths)) == TopCount(fs, root, paths, true)
  {
    hide Resolve;
    if paths != [] {
      var p, q := paths[..|paths| - 1], paths[|paths| - 1];
      TopsCounted(fs, root, p);
      assert Exists(fs, root.volume, root.dirs + q);
      if |q| == 1 {
        assert q == [q[0]];
        var tops := Tops(p) + [q[0]];
        assert Tops(paths) == tops && tops[..|tops| - 1] == Tops(p);
      }
    }
  }

  /** The receiver counts the same top-level files and folders as the crawl job reported. */
  lemma CountsAgree(output: CrawlerOutput, fs: FileSystem, dropped: seq<Dropped>, sendHidden: bool)
    requires IsOutput(output, fs, dropped, sendHidden) && Sound(fs, output.root, sendHidden, SortDropped(dropped))
    ensures TopCount(fs, output.root, PathsFrom(output.paths), false) == output.fileCount
    ensures TopCount(fs, output.root, PathsFrom(output.paths), true) == output.folderCount
  {
    hide IsOutput, Sound, Emitted, Split, Text, Resolve, ValidPath, Less, BeforeFirst;
    var paths := PathsFrom(output.paths);
    CrawlIsListing(output, fs, dropped, sendHidden);
    OutputFacts(output, fs, dropped, sendHidden);
    SoundFacts(fs, output.root, sendHidden, SortDropped(dropped));
    forall t
      ensures t in output.topDirs <==> t in Tops(paths)
    {
      TopNames(output, fs, dropped, sendHidden, t);
      PathEmitted(output, fs, dropped, sendHidden, [t]);
    }
    TopsAscending(paths);
    AscendingSame(output.topDirs, Tops(paths));
    TopsCounted(fs, output.root, paths);
  }

  // ----- the whole way -----------------------------------------------------------------

  /** What the receiver has after a whole transfer of a crawled list. */
  function ReceivedFrom(fs: FileSystem, output: CrawlerOutput, settings: Settings, config: Config, before: map<Path, Output>): State {
    ReceiveAll(config, Start(before), Stream(fs, output.root, settings, output.paths))
  }

  /** The receiver ends up with exactly what was dropped and reached: nothing else changes; if
      nothing is in the way, everything is there; the counts match those of the crawl job, and
      no more bytes are counted than it announced. */
  lemma EndToEnd(output: CrawlerOutput, fs: FileSystem, dropped: seq<Dropped>, sendHidden: bool,
      settings: Settings, config: Config, before: map<Path, Output>)
    requires IsOutput(output, fs, dropped, sendHidden) && Sound(fs, output.root, sendHidden, SortDropped(dropped))
    requires Linked(settings, config)
    ensures
      var after := ReceivedFrom(fs, output, settings, config, before);
      && (forall q :: !Emitted(fs, output.root, sendHidden, SortDropped(dropped), q) ==> Lookup(after.output, q) == Lookup(before, q))
      && (after.stopRequests == 0 ==>
           forall q :: Emitted(fs, output.root, sendHidden, SortDropped(dropped), q) ==>
             var id := Resolve(fs, output.root.volume, output.root.dirs + q);
             id.Some? && Lookup(after.output, q) == Some(Copy(fs.nodes[id.value])))
      && (before == map[] ==> after.stopRequests == 0)
      && after.fileCount == output.fileCount && after.dirCount == output.folderCount
      && after.sentBytes <= output.totalSize
  {
    hide IsOutput, Sound, Emitted, Linked, Listing, Sorted, Resolve, Stream, ReceiveAll, TopCount, SumSizes, Expected, Refused,
      TextsOf, PathsFrom, IsDir, Lookup, NoticedAll;
    var paths := PathsFrom(output.paths);
    CrawlIsListing(output, fs, dropped, sendHidden);
    CountsAgree(output, fs, dropped, sendHidden);
    TotalCoversFiles(output, fs, dropped, sendHidden);
    SoundFacts(fs, output.root, sendHidden, SortDropped(dropped));
    forall q
      ensures q in paths <==> Emitted(fs, output.root, sendHidden, SortDropped(dropped), q)
    {
      PathEmitted(output, fs, dropped, sendHidden, q);
    }
    RebuiltExactly(fs, output.root, settings, config, before, paths);
    RoundTrip(fs, output.root, settings, config, before, paths);
  }

  /** Sending a crawled list, as the transfer manager does: the progress rises to the announced
      total, and the final status tells whether everything was sent. */
  method SendCrawled(fs: FileSystem, ghost dropped: seq<Dropped>, ghost sendHidden: bool, output: CrawlerOutput, settings: Settings,
      checks: nat -> OpStatus, opens: nat -> bool, moments: nat -> Moment, current: OpStatus)
    returns (sender: FileSender, status: OpStatus)
    requires IsOutput(output, fs, dropped, sendHidden) && Sound(fs, output.root, sendHidden, SortDropped(dropped))
    requires dropped != [] && !NoRoot(dropped)
    requires forall i :: 0 <= i < |output.paths| ==> |output.paths[i]| < NPOS
    ensures fresh(sender) && sender.root == output.root && sender.relativePaths == output.paths && sender.totalSize == output.totalSize
    ensures Rising(sender.updates) && sender.sentBytes <= output.totalSize
    ensures current in {TRANSFERRING, PAUSED} ==>
      (status == FINISHED <==> forall i :: 0 <= i < |output.paths| ==>
        checks(i) !in {FAILED, FAILED_UNRECOVERABLE, STOPPED_BY_RECEIVER, STOPPED_BY_SENDER}
        && Openable(fs, output.root, output.paths[i], opens(i)))
    ensures status != FINISHED ==> status == if current in {TRANSFERRING, PAUSED} then FAILED_UNRECOVERABLE else current
    ensures status == FINISHED && current != FINISHED ==>
      && sender.sentBytes == output.totalSize
      && sender.stream == Stream(fs, output.root, settings, output.paths)
      && sender.elements == Records(fs, output.root, output.paths)
  {
    hide IsOutput, Sound, NoRoot, IsRoot, Resolve, Stream, Records, SumSizes, Rising;
    OutputRoot(output, fs, dropped, sendHidden);
    RootTextExactly(output.root, dropped);
    TotalCoversFiles(output, fs, dropped, sendHidden);
    sender := new FileSender(fs, output.root, settings, output.paths, output.totalSize, checks, opens, moments);
    var result := sender.TransferFiles();
    assert forall i :: 0 <= i < |output.paths| ==>
      (sender.Sendable(i) <==> !Failed(checks(i)) && Openable(fs, output.root, output.paths[i], opens(i)));
    ghost var n := |sender.elements|;
    PartSizes(fs, output.root, output.paths, n);
    if result {
      status := FINISHED;
      assert n == |output.paths| && output.paths[..n] == output.paths;
    } else if current == TRANSFERRING || current == PAUSED {
      status := FAILED_UNRECOVERABLE;
    } else {
      status := current;
    }
  }

  /** A listed path exists still, and is a directory or a file that can be opened. */
  predicate Openable(fs: FileSystem, root: Root, relativePath: string, opens: bool) {
    var id := Target(fs, root, relativePath);
    id.Some? && (fs.nodes[id.value].File? ==> opens)
  }

  lemma {:induction false} PartSizes(fs: FileSystem, root: Root, relativePaths: seq<string>, n: nat)
    requires n <= |relativePaths|
    ensures SumSizes(fs, root, relativePaths[..n]) <= SumSizes(fs, root, relativePaths)
    decreases |relativePaths| - n
  {
    hide SizeAt, Split, SumSizes;
    if n < |relativePaths| {
      OneMore(fs, root, relativePaths, n);
      PartSizes(fs, root, relativePaths, n + 1);
    } else {
      assert relativePaths[..n] == relativePaths;
    }
  }

  lemma NoticedShows(fs: FileSystem, root: Root, config: Config, paths: seq<Path>)
    requires Listing(fs, root, paths)
    ensures Shows(NoticedAll(fs, root, config, paths), paths)
  {
    hide Name, Resolve, ValidPath, Config.AbsoluteText, FullName, Listing;
    var elements := NoticedAll(fs, root, config, paths);
    forall i, j | 0 <= i < |paths| && 0 <= j < |paths| && paths[j] < paths[i]
      ensures FileListDialog.IsFolder(elements, j)
    {
      var rest := paths[i][|paths[j]|..];
      ListedAt(fs, root, paths, i);
      assert root.dirs + paths[i] == root.dirs + paths[j] + rest;
      AncestorsExist(fs, root.volume, root.dirs + paths[j], rest);
    }
  }

  /** The tree shown for a received transfer is the tree of its paths exactly when no listed path
      continues the text of a directory with something in it by a character below the backslash. */
  lemma ReceivedTree(output: CrawlerOutput, fs: FileSystem, dropped: seq<Dropped>, sendHidden: bool,
      settings: Settings, config: Config, before: map<Path, Output>)
    requires IsOutput(output, fs, dropped, sendHidden) && Sound(fs, output.root, sendHidden, SortDropped(dropped))
    requires Linked(settings, config)
    ensures
      var elements := ReceivedFrom(fs, output, settings, config, before).elements;
      (forall i :: 0 <= i < |elements| ==> RightAt(elements, i)) <==> Undisturbed(PathsFrom(output.paths))
  {
    hide IsOutput, Sound, Linked, Listing, Sorted, Stream, ReceiveAll, TopCount, SumSizes, Expected, Refused,
      TextsOf, PathsFrom, NoticedAll, RightAt, Shows, Undisturbed, Lookup;
    var paths := PathsFrom(output.paths);
    CrawlIsListing(output, fs, dropped, sendHidden);
    RoundTrip(fs, output.root, settings, config, before, paths);
    NoticedShows(fs, output.root, config, paths);
    TreeExactly(NoticedAll(fs, output.root, config, paths), paths);
  }

  lemma RecordsShow(fs: FileSystem, root: Root, config: Config, paths: seq<Path>)
    requires Listing(fs, root, paths) && RootText(root) != []
    ensures Shows(Records(fs, root, TextsOf(paths)), paths)
  {
    hide Name, Resolve, ValidPath, Config.AbsoluteText, FullName, Noticed, Record;
    NoticedShows(fs, root, config, paths);
    var sent, received := Records(fs, root, TextsOf(paths)), NoticedAll(fs, root, config, paths);
    forall i | 0 <= i < |paths|
      ensures sent[i].(absolutePath := received[i].absolutePath) == received[i]
    {
      SameElements(fs, root, config, paths[i]);
    }
    forall i, j | 0 <= i < |paths| && 0 <= j < |paths| && paths[j] < paths[i]
      ensures FileListDialog.IsFolder(sent, j)
    {
      assert FileListDialog.IsFolder(received, j);
    }
  }

  /** The same holds of the tree the sender shows, for the elements it recorded. */
  lemma SentTree(output: CrawlerOutput, fs: FileSystem, dropped: seq<Dropped>, sendHidden: bool, config: Config)
    requires IsOutput(output, fs, dropped, sendHidden) && Sound(fs, output.root, sendHidden, SortDropped(dropped))
    requires dropped != [] && !NoRoot(dropped)
    ensures RootText(output.root) != []
    ensures
      var elements := Records(fs, output.root, output.paths);
      (forall i :: 0 <= i < |elements| ==> RightAt(elements, i)) <==> Undisturbed(PathsFrom(output.paths))
  {
    hide IsOutput, Sound, Listing, Sorted, TextsOf, PathsFrom, Records, RightAt, Shows, Undisturbed, NoRoot, IsRoot;
    OutputRoot(output, fs, dropped, sendHidden);
    RootTextExactly(output.root, dropped);
    CrawlIsListing(output, fs, dropped, sendHidden);
    RecordsShow(fs, output.root, config, PathsFrom(output.paths));
    TreeExactly(Records(fs, output.root, output.paths), PathsFrom(output.paths));
  }

  // ----- a list that is shown wrongly --------------------------------------------------

  /** A directory "doc" holding "x", beside a file "doc.txt": the file comes between the two in
      the order of the list, so "x" is shown in the root. */
  lemma DotDisturbs(elements: seq<TransferElement>)
    requires |elements| == 3 && elements[0].elementType == FOLDER
    requires elements[1].elementType != FOLDER && elements[2].elementType != FOLDER
    requires elements[0].relativePath == "doc" && elements[1].relativePath == "doc.txt" && elements[2].relativePath == "doc/x"
    ensures FileListDialog.ParentOf(elements, 2) == None && Ancestor(elements, 0, 2) && !RightAt(elements, 2)
  {
    hide Contains, FileListDialog.ParentOf;
    FileListDialog.ParentExactly(elements, 2);
    NoSlash("doc.txt", "doc");
    assert FileListDialog.FolderText("doc") == "doc" + "/";
    assert !Contains(elements[1].relativePath, FileListDialog.FolderText(elements[0].relativePath));
    assert "doc/" <= "doc/x";
  }

  /** Such a list comes out of a crawl: it is sorted and complete. */
  lemma DotIsSorted()
    ensures Sorted([["doc"], ["doc.txt"], ["doc", "x"]])
    ensures Intrudes(["doc.txt"], ["doc"])
  {
    hide Less, Text;
    var texts := ["doc", "doc.txt", "doc\\x"];
    TextOfOne("doc");
    TextOfOne("doc.txt");
    TextNext(["doc"], "x");
    assert ["doc"] + ["x"] == ["doc", "x"];
    assert Text(["doc", "x"]) == texts[2];
    PrefixLess(texts[0], texts[1]);
    PrefixLess(texts[0], texts[2]);
    LessAfterPrefix("doc", texts[1], texts[2]);
    FirstDecides(texts[1][3..], texts[2][3..]);
    assert ["doc", "x"][..1] == ["doc"];
  }
}
