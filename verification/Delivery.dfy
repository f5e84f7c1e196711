/** Receiving the stream of a listing rebuilds the listed files and directories. */
module Delivery {
  import opened Options
  import opened Database
  import opened Paths
  import opened FileTree
  import opened FileCrawler
  import opened CrawlTotals
  import opened FileSender
  import opened TransferReceiver
  import opened StreamRoundTrip

  lemma {:induction false} ReceiveAppend(config: Config, s: State, a: seq<FileChunk>, b: seq<FileChunk>)
    ensures ReceiveAll(config, s, a + b) == ReceiveAll(config, ReceiveAll(config, s, a), b)
  {
    hide Receive;
    if b == [] {
      assert a + b == a;
    } else {
      assert (a + b)[..|a + b| - 1] == a + b[..|b| - 1];
      ReceiveAppend(config, s, a, b[..|b| - 1]);
    }
  }

  lemma ReceiveOne(config: Config, s: State, c: FileChunk)
    ensures ReceiveAll(config, s, [c]) == Receive(config, s, c)
  {
    hide Receive;
    assert [c][..0] == [];
  }

  // ----- one file ----------------------------------------------------------------------

  function Progressed(s: State, bytes: int): State {
    s.(sentBytes := s.sentBytes + bytes)
  }

  predicate LastIs(s: State, name: string) {
    s.elements != [] && s.elements[|s.elements| - 1].relativePath == name
  }

  /** A further chunk of the current file is appended. */
  lemma MoreOfFile(config: Config, s: State, c: FileChunk)
    requires c.fileType == RegularFile && c.relativePath == s.filePtrPath && LastIs(s, c.relativePath)
    requires config.place(c.relativePath).Some?
    ensures Receive(config, s, c) == Progressed(Appended(s, config.Unpacked(c.chunk)), |config.Unpacked(c.chunk)|)
  {
  }

  lemma AppendedTwice(s: State, a: seq<byte>, b: seq<byte>)
    ensures Appended(Progressed(Appended(s, a), |a|), b) == Progressed(Appended(s, a + b), |a|)
    ensures Appended(s, a).filePtrPath == s.filePtrPath && Appended(s, a).elements == s.elements
    ensures Appended(s, a).sentBytes == s.sentBytes
  {
    if s.filePtr.Some? && s.filePtr.value in s.output && s.output[s.filePtr.value].OutputFile? {
      assert s.output[s.filePtr.value].data + (a + b) == s.output[s.filePtr.value].data + a + b;
    }
  }

  lemma {:induction false} RestOfFile(settings: Settings, config: Config, s: State, name: string, mode: int, data: seq<byte>)
    requires Linked(settings, config)
    requires s.filePtrPath == name && LastIs(s, name) && config.place(name).Some?
    ensures ReceiveAll(config, s, DataStream(settings, name, mode, data)) == Progressed(Appended(s, data), |data|)
    decreases |data|
  {
    hide Receive, ReceiveAll, Appended, DataStream, Settings.Packed, Config.Unpacked;
    var n := PieceSize(data);
    var first := FileChunk(name, RegularFile, "", settings.Packed(data[..n]), mode);
    DataStreamUnfolds(settings, name, mode, data);
    MoreOfFile(config, s, first);
    ReceiveOne(config, s, first);
    if n == 0 {
      assert data[..n] == data && DataStream(settings, name, mode, data) == [first];
    } else {
      var next := Progressed(Appended(s, data[..n]), n);
      assert config.Unpacked(first.chunk) == data[..n] && |data[..n]| == n;
      AppendedTwice(s, data[..n], data[n..]);
      assert data[..n] + data[n..] == data;
      ReceiveAppend(config, s, [first], DataStream(settings, name, mode, data[n..]));
      RestOfFile(settings, config, next, name, mode, data[n..]);
    }
  }

  /** The element recorded for a listed path. */
  function Noticed(config: Config, isDir: bool, q: Path): TransferElement {
    var absolutePath := config.AbsoluteText(q);
    TransferElement(0, FullName(absolutePath), if isDir then FOLDER else FILE, Name(q), absolutePath)
  }

  /** The state after everything sent for one file. */
  function AfterFile(config: Config, s: State, q: Path, data: seq<byte>): State {
    var ok := CanCreate(config, s.output, q);
    State(if ok then s.output[q := OutputFile(data)] else s.output,
      if ok then Some(q) else None, Name(q),
      s.elements + [Noticed(config, false, q)],
      s.fileCount + (if |q| == 1 then 1 else 0), s.dirCount, s.sentBytes + |data|,
      s.stopRequests + (if ok then 0 else 1))
  }

  function AfterDir(config: Config, s: State, q: Path): State {
    s.(output := s.output[q := OutputDir],
       elements := s.elements + [Noticed(config, true, q)],
       dirCount := s.dirCount + (if |q| == 1 then 1 else 0))
  }

  /** The path was not received before. */
  predicate Fresh(s: State, q: Path) {
    s.filePtrPath != Name(q) && !LastIs(s, Name(q))
  }

  lemma FirstOfFile(settings: Settings, config: Config, s: State, q: Path, c: FileChunk, piece: seq<byte>)
    requires Linked(settings, config) && q != [] && ValidPath(q) && Fresh(s, q)
    requires c.fileType == RegularFile && c.relativePath == Name(q) && config.Unpacked(c.chunk) == piece
    ensures Receive(config, s, c) == AfterFile(config, s, q, piece)
  {
    hide Settings.Packed, Config.Unpacked, ParentExists, Config.AbsoluteText, FullName, Name;
    NameFacts(q);
    assert config.place(Name(q)) == Some(q);
    assert Recorded(config, s, c);
  }

  lemma WholeFile(config: Config, s: State, q: Path, a: seq<byte>, b: seq<byte>)
    ensures Progressed(Appended(AfterFile(config, s, q, a), b), |b|) == AfterFile(config, s, q, a + b)
  {
    hide ParentExists, Config.AbsoluteText, FullName, Name;
  }

  lemma LinkedFacts(settings: Settings, config: Config, q: Path, piece: seq<byte>)
    requires Linked(settings, config) && q != [] && ValidPath(q) && |piece| <= FILE_CHUNK_SIZE
    ensures config.Unpacked(settings.Packed(piece)) == piece && config.place(Name(q)) == Some(q)
  {
  }

  lemma AfterFileFacts(config: Config, s: State, q: Path, data: seq<byte>)
    ensures AfterFile(config, s, q, data).filePtrPath == Name(q) && LastIs(AfterFile(config, s, q, data), Name(q))
  {
    hide Name;
  }

  lemma FileReceived(settings: Settings, config: Config, s: State, q: Path, mode: int, data: seq<byte>)
    requires Linked(settings, config) && q != [] && ValidPath(q) && Fresh(s, q)
    ensures ReceiveAll(config, s, DataStream(settings, Name(q), mode, data)) == AfterFile(config, s, q, data)
  {
    hide Receive, ReceiveAll, Appended, DataStream, Settings.Packed, Config.Unpacked, Name, Linked, AfterFile, Fresh, LastIs, Progressed;
    var n := PieceSize(data);
    var piece, rest := data[..n], data[n..];
    var first := FileChunk(Name(q), RegularFile, "", settings.Packed(piece), mode);
    DataStreamUnfolds(settings, Name(q), mode, data);
    LinkedFacts(settings, config, q, piece);
    FirstOfFile(settings, config, s, q, first, piece);
    ReceiveOne(config, s, first);
    if n == 0 {
      assert piece == data && DataStream(settings, Name(q), mode, data) == [first];
    } else {
      var next := AfterFile(config, s, q, piece);
      AfterFileFacts(config, s, q, piece);
      ReceiveAppend(config, s, [first], DataStream(settings, Name(q), mode, rest));
      RestOfFile(settings, config, next, Name(q), mode, rest);
      WholeFile(config, s, q, piece, rest);
      assert piece + rest == data;
    }
  }

  lemma DirReceived(settings: Settings, config: Config, s: State, q: Path, c: FileChunk)
    requires Linked(settings, config) && q != [] && ValidPath(q) && Fresh(s, q) && ParentExists(s.output, q)
    requires c.fileType == Directory && c.relativePath == Name(q) && c.chunk == []
    ensures ReceiveAll(config, s, [c]) == AfterDir(config, s, q)
  {
    hide Settings.Packed, Config.Unpacked, Config.AbsoluteText, FullName, Name, ParentExists;
    ReceiveOne(config, s, c);
    NameFacts(q);
    assert config.place(Name(q)) == Some(q);
    assert Recorded(config, s, c);
    if q in s.output && s.output[q].OutputDir? {
      assert s.output[q := OutputDir] == s.output;
    }
  }

  // ----- a whole listing ---------------------------------------------------------------

  predicate IsDir(fs: FileSystem, root: Root, q: Path) {
    DirExists(fs, root.volume, root.dirs + q)
  }

  function Lookup(output: map<Path, Output>, q: Path): Option<Output> {
    if q in output then Some(output[q]) else None
  }

  /** Nothing is in the way of a file: no directory, and no file that must be kept. */
  predicate Free(config: Config, before: map<Path, Output>, q: Path) {
    q in before ==> before[q].OutputFile? && config.canOverwrite
  }

  /** What is at a path afterwards: the listed directories, the listed files with their data
      unless something was in the way, and otherwise what was there. */
  function Expected(fs: FileSystem, root: Root, config: Config, before: map<Path, Output>, paths: seq<Path>, q: Path): Option<Output> {
    var id := Resolve(fs, root.volume, root.dirs + q);
    if q !in paths || id.None? then Lookup(before, q)
    else match fs.nodes[id.value]
      case Dir(_) => Some(OutputDir)
      case File(data) => if Free(config, before, q) then Some(OutputFile(data)) else Lookup(before, q)
  }

  function NoticedAll(fs: FileSystem, root: Root, config: Config, paths: seq<Path>): (elements: seq<TransferElement>)
    ensures |elements| == |paths|
    ensures forall i :: 0 <= i < |paths| ==> elements[i] == Noticed(config, IsDir(fs, root, paths[i]), paths[i])
  {
    seq(|paths|, i requires 0 <= i < |paths| => Noticed(config, IsDir(fs, root, paths[i]), paths[i]))
  }

  /** How many listed directories, or files, are directly in the root. */
  function TopCount(fs: FileSystem, root: Root, paths: seq<Path>, dirs: bool): nat {
    if paths == [] then 0
    else
      var q := paths[|paths| - 1];
      TopCount(fs, root, paths[..|paths| - 1], dirs) + (if |q| == 1 && IsDir(fs, root, q) == dirs then 1 else 0)
  }

  /** How many listed files have something in the way. */
  function Refused(fs: FileSystem, root: Root, config: Config, before: map<Path, Output>, paths: seq<Path>): nat {
    if paths == [] then 0
    else
      var q := paths[|paths| - 1];
      Refused(fs, root, config, before, paths[..|paths| - 1]) + (if !IsDir(fs, root, q) && !Free(config, before, q) then 1 else 0)
  }

  function Start(before: map<Path, Output>): State {
    State(before, None, "", [], 0, 0, 0, 0)
  }

  ghost predicate Delivered(fs: FileSystem, root: Root, config: Config, before: map<Path, Output>, paths: seq<Path>, s: State) {
    && (forall q :: Lookup(s.output, q) == Expected(fs, root, config, before, paths, q))
    && s.elements == NoticedAll(fs, root, config, paths)
    && s.fileCount == TopCount(fs, root, paths, false) && s.dirCount == TopCount(fs, root, paths, true)
    && s.sentBytes == SumSizes(fs, root, TextsOf(paths))
    && s.stopRequests == Refused(fs, root, config, before, paths)
    && (s.filePtrPath == "" || exists k :: 0 <= k < |paths| && s.filePtrPath == Name(paths[k]))
  }

  lemma LastListed(fs: FileSystem, root: Root, p: seq<Path>, q: Path)
    requires Listing(fs, root, p + [q])
    ensures q != [] && ValidPath(q) && Exists(fs, root.volume, root.dirs + q)
    ensures q !in p && (|q| > 1 ==> q[..|q| - 1] in p)
    ensures forall k :: 0 <= k < |p| ==> p[k] != [] && ValidPath(p[k])
    ensures Listing(fs, root, p)
  {
    hide ValidPath, Resolve;
    var all := p + [q];
    ListedAt(fs, root, all, |p|);
    ListingPrefix(fs, root, all, |p|);
    assert all[..|p|] == p && all[|p|] == q;
    forall k | 0 <= k < |p|
      ensures p[k] != [] && ValidPath(p[k])
    {
      ListedAt(fs, root, all, k);
    }
  }

  lemma NextIsFresh(fs: FileSystem, root: Root, config: Config, before: map<Path, Output>, p: seq<Path>, q: Path, s: State)
    requires Listing(fs, root, p + [q]) && Delivered(fs, root, config, before, p, s)
    ensures Fresh(s, q)
  {
    hide ValidPath, Name, TopCount, Refused, Resolve, SumSizes, Config.AbsoluteText, FullName, Listing, Expected, IsDir, Text;
    LastListed(fs, root, p, q);
    NameFacts(q);
    if s.filePtrPath == Name(q) {
      var k :| 0 <= k < |p| && s.filePtrPath == Name(p[k]);
      NamesDiffer(p[k], q);
      assert false;
    }
    if LastIs(s, Name(q)) {
      NamesDiffer(p[|p| - 1], q);
      assert false;
    }
  }

  /** The directory that holds the next path was received before. */
  lemma NextHasParent(fs: FileSystem, root: Root, config: Config, before: map<Path, Output>, p: seq<Path>, q: Path, s: State)
    requires Listing(fs, root, p + [q])
    requires forall x :: Lookup(s.output, x) == Expected(fs, root, config, before, p, x)
    ensures ParentExists(s.output, q) && Lookup(s.output, q) == Lookup(before, q)
  {
    hide ValidPath, Listing, Free, Resolve;
    LastListed(fs, root, p, q);
    assert Lookup(s.output, q) == Expected(fs, root, config, before, p, q);
    if |q| > 1 {
      var parent, last := q[..|q| - 1], [q[|q| - 1]];
      assert root.dirs + q == root.dirs + parent + last;
      AncestorsExist(fs, root.volume, root.dirs + parent, last);
      assert Lookup(s.output, parent) == Expected(fs, root, config, before, p, parent);
    }
  }

  lemma TopCountNext(fs: FileSystem, root: Root, p: seq<Path>, q: Path, dirs: bool)
    ensures TopCount(fs, root, p + [q], dirs) == TopCount(fs, root, p, dirs) + (if |q| == 1 && IsDir(fs, root, q) == dirs then 1 else 0)
  {
    hide IsDir;
    assert (p + [q])[..|p|] == p;
  }

  lemma RefusedNext(fs: FileSystem, root: Root, config: Config, before: map<Path, Output>, p: seq<Path>, q: Path)
    ensures Refused(fs, root, config, before, p + [q])
         == Refused(fs, root, config, before, p) + (if !IsDir(fs, root, q) && !Free(config, before, q) then 1 else 0)
  {
    hide IsDir, Free;
    assert (p + [q])[..|p|] == p;
  }

  lemma NoticedNext(fs: FileSystem, root: Root, config: Config, p: seq<Path>, q: Path)
    ensures NoticedAll(fs, root, config, p + [q]) == NoticedAll(fs, root, config, p) + [Noticed(config, IsDir(fs, root, q), q)]
  {
    hide IsDir, Noticed;
  }

  lemma SizesNext(fs: FileSystem, root: Root, p: seq<Path>, q: Path)
    requires q != [] && ValidPath(q)
    ensures SumSizes(fs, root, TextsOf(p + [q])) == SumSizes(fs, root, TextsOf(p)) + SizeAt(fs, root, q)
  {
    hide SizeAt, SumSizes, Text, ValidPath;
    var texts := TextsOf(p + [q]);
    TargetIs(fs, root, q);
    OneMore(fs, root, texts, |p|);
    assert texts[..|p|] == TextsOf(p) && texts[..|p| + 1] == texts;
  }

  /** One more entity keeps the delivery right. */
  lemma DeliveredNext(fs: FileSystem, root: Root, config: Config, before: map<Path, Output>, p: seq<Path>, q: Path, s: State, t: State)
    requires Listing(fs, root, p + [q]) && Delivered(fs, root, config, before, p, s)
    requires
      var id := Resolve(fs, root.volume, root.dirs + q);
      id.Some? && t == match fs.nodes[id.value]
        case File(data) => AfterFile(config, s, q, data)
        case Dir(_) => AfterDir(config, s, q)
    ensures Delivered(fs, root, config, before, p + [q], t)
  {
    hide ValidPath, Name, Resolve, SumSizes, TopCount, Refused, Listing, Config.AbsoluteText, FullName, Noticed, Expected, ParentExists;
    LastListed(fs, root, p, q);
    NextHasParent(fs, root, config, before, p, q, s);
    TopCountNext(fs, root, p, q, true);
    TopCountNext(fs, root, p, q, false);
    RefusedNext(fs, root, config, before, p, q);
    NoticedNext(fs, root, config, p, q);
    SizesNext(fs, root, p, q);
    OutputNext(fs, root, config, before, p, q, s, t);
    if s.filePtrPath != "" {
      var k :| 0 <= k < |p| && s.filePtrPath == Name(p[k]);
      assert (p + [q])[k] == p[k];
    }
    assert (p + [q])[|p|] == q;
  }

  lemma OutputNext(fs: FileSystem, root: Root, config: Config, before: map<Path, Output>, p: seq<Path>, q: Path, s: State, t: State)
    requires ParentExists(s.output, q) && Lookup(s.output, q) == Lookup(before, q)
    requires forall x :: Lookup(s.output, x) == Expected(fs, root, config, before, p, x)
    requires
      var id := Resolve(fs, root.volume, root.dirs + q);
      id.Some? && t.output == match fs.nodes[id.value]
        case File(data) => AfterFile(config, s, q, data).output
        case Dir(_) => AfterDir(config, s, q).output
    ensures forall x :: Lookup(t.output, x) == Expected(fs, root, config, before, p + [q], x)
  {
    hide Resolve, ParentExists, Noticed, Name;
    forall x
      ensures Lookup(t.output, x) == Expected(fs, root, config, before, p + [q], x)
    {
      assert Lookup(s.output, x) == Expected(fs, root, config, before, p, x);
      assert x in p + [q] <==> x in p || x == q;
    }
  }

  lemma NextReceived(fs: FileSystem, root: Root, settings: Settings, config: Config, before: map<Path, Output>, p: seq<Path>, q: Path,
      s: State)
    requires Linked(settings, config) && Listing(fs, root, p + [q]) && Delivered(fs, root, config, before, p, s)
    ensures Delivered(fs, root, config, before, p + [q], ReceiveAll(config, s, EntityStream(fs, root, settings, Text(q))))
  {
    hide ValidPath, Name, Resolve, SumSizes, TopCount, Refused, DataStream, FileMode, Executable, ReceiveAll, Text, SentName, Listing,
      Linked, AfterFile, AfterDir, Fresh, ParentExists, Expected;
    LastListed(fs, root, p, q);
    NextIsFresh(fs, root, config, before, p, q, s);
    NextHasParent(fs, root, config, before, p, q, s);
    TargetIs(fs, root, q);
    NameIsSent(q);
    var node := fs.nodes[Target(fs, root, Text(q)).value];
    match node {
      case File(data) =>
        FileReceived(settings, config, s, q, FileMode(settings, data, Text(q)), data);
        DeliveredNext(fs, root, config, before, p, q, s, AfterFile(config, s, q, data));
      case Dir(_) =>
        DirReceived(settings, config, s, q, FileChunk(Name(q), Directory, "", [], settings.dirPerms));
        DeliveredNext(fs, root, config, before, p, q, s, AfterDir(config, s, q));
    }
  }

  lemma NothingDelivered(fs: FileSystem, root: Root, settings: Settings, config: Config, before: map<Path, Output>)
    ensures Delivered(fs, root, config, before, [], Start(before))
    ensures Stream(fs, root, settings, TextsOf([])) == []
  {
    assert TextsOf([]) == [];
  }

  lemma StreamNext(fs: FileSystem, root: Root, settings: Settings, p: seq<Path>, q: Path)
    ensures Stream(fs, root, settings, TextsOf(p + [q]))
         == Stream(fs, root, settings, TextsOf(p)) + EntityStream(fs, root, settings, Text(q))
  {
    hide EntityStream, Text;
    assert TextsOf(p + [q])[..|p|] == TextsOf(p);
  }

  /** Receiving everything that was sent rebuilds exactly what was listed. */
  lemma {:induction false} RoundTrip(fs: FileSystem, root: Root, settings: Settings, config: Config, before: map<Path, Output>, paths: seq<Path>)
    requires Linked(settings, config) && Listing(fs, root, paths)
    ensures Delivered(fs, root, config, before, paths,
      ReceiveAll(config, Start(before), Stream(fs, root, settings, TextsOf(paths))))
    decreases |paths|
  {
    hide Linked, Listing, EntityStream, Receive, ReceiveAll, Text, Delivered, Stream, Start, TextsOf, Resolve;
    if paths == [] {
      NothingDelivered(fs, root, settings, config, before);
      NothingReceived(config, Start(before));
    } else {
      var p, q := paths[..|paths| - 1], paths[|paths| - 1];
      assert paths == p + [q];
      LastListed(fs, root, p, q);
      RoundTrip(fs, root, settings, config, before, p);
      StreamNext(fs, root, settings, p, q);
      var sent, next := Stream(fs, root, settings, TextsOf(p)), EntityStream(fs, root, settings, Text(q));
      ReceiveAppend(config, Start(before), sent, next);
      NextReceived(fs, root, settings, config, before, p, q, ReceiveAll(config, Start(before), sent));
    }
  }

  lemma NothingReceived(config: Config, s: State)
    ensures ReceiveAll(config, s, []) == s
  {
  }

  lemma {:induction false} NothingRefused(fs: FileSystem, root: Root, config: Config, before: map<Path, Output>, paths: seq<Path>)
    ensures Refused(fs, root, config, before, paths) == 0
       <==> forall q :: q in paths && !IsDir(fs, root, q) ==> Free(config, before, q)
  {
    hide IsDir, Free;
    if paths != [] {
      var rest, last := paths[..|paths| - 1], paths[|paths| - 1];
      NothingRefused(fs, root, config, before, rest);
      assert forall q :: q in paths <==> q in rest || q == last;
    }
  }

  /** What a sender's node becomes on the other side. */
  function Copy(node: Node): Output {
    match node
    case Dir(_) => OutputDir
    case File(data) => OutputFile(data)
  }

  /** The receiver asks to stop exactly when something is in the way of a listed file; if it
      does not, every listed path is there with its contents. */
  lemma RebuiltExactly(fs: FileSystem, root: Root, settings: Settings, config: Config, before: map<Path, Output>, paths: seq<Path>)
    requires Linked(settings, config) && Listing(fs, root, paths)
    ensures
      var after := ReceiveAll(config, Start(before), Stream(fs, root, settings, TextsOf(paths)));
      && (after.stopRequests == 0 <==> forall q :: q in paths && !IsDir(fs, root, q) ==> Free(config, before, q))
      && (after.stopRequests == 0 ==>
           forall q :: q in paths ==>
             var id := Resolve(fs, root.volume, root.dirs + q);
             id.Some? && Lookup(after.output, q) == Some(Copy(fs.nodes[id.value])))
      && (forall q :: q !in paths ==> Lookup(after.output, q) == Lookup(before, q))
  {
    hide Linked, Listing, Stream, ReceiveAll, Resolve, Free, TopCount, SumSizes, Name, Expected, IsDir, TextsOf, Lookup, Text;
    var after := ReceiveAll(config, Start(before), Stream(fs, root, settings, TextsOf(paths)));
    RoundTrip(fs, root, settings, config, before, paths);
    NothingRefused(fs, root, config, before, paths);
    forall q | q in paths && after.stopRequests == 0
      ensures
        var id := Resolve(fs, root.volume, root.dirs + q);
        id.Some? && Lookup(after.output, q) == Some(Copy(fs.nodes[id.value]))
    {
      var i :| 0 <= i < |paths| && paths[i] == q;
      ListedAt(fs, root, paths, i);
      assert Lookup(after.output, q) == Expected(fs, root, config, before, paths, q);
      ExpectedCopy(fs, root, config, before, paths, q);
    }
    forall q | q !in paths
      ensures Lookup(after.output, q) == Lookup(before, q)
    {
      assert Lookup(after.output, q) == Expected(fs, root, config, before, paths, q);
      ExpectedElsewhere(fs, root, config, before, paths, q);
    }
  }

  lemma ExpectedCopy(fs: FileSystem, root: Root, config: Config, before: map<Path, Output>, paths: seq<Path>, q: Path)
    requires q in paths && Exists(fs, root.volume, root.dirs + q)
    requires !IsDir(fs, root, q) ==> Free(config, before, q)
    ensures Expected(fs, root, config, before, paths, q) == Some(Copy(fs.nodes[Resolve(fs, root.volume, root.dirs + q).value]))
  {
    hide Resolve, Free;
  }

  lemma ExpectedElsewhere(fs: FileSystem, root: Root, config: Config, before: map<Path, Output>, paths: seq<Path>, q: Path)
    requires q !in paths
    ensures Expected(fs, root, config, before, paths, q) == Lookup(before, q)
  {
  }

  // ----- both sides record the same elements -------------------------------------------

  lemma {:induction false} FullNameOf(prefix: string, name: string)
    requires prefix != [] && prefix[|prefix| - 1] == '\\' && '\\' !in name && '/' !in name
    ensures FullName(prefix + name) == name
  {
    if name == [] {
      assert prefix + name == prefix;
    } else {
      assert (prefix + name)[..|prefix + name| - 1] == prefix + name[..|name| - 1];
      FullNameOf(prefix, name[..|name| - 1]);
    }
  }

  lemma JoinOne(name: string)
    ensures Join([name], '\\') == name
  {
  }

  lemma TextNext(p: Path, name: string)
    ensures Text(p + [name]) == if p == [] then name else Text(p) + ['\\'] + name
  {
    JoinOne(name);
    if p == [] {
      assert p + [name] == [name];
    } else {
      JoinAppend(p, [name], '\\');
    }
  }

  lemma FullNameAfter(prefix: string, middle: string, name: string)
    requires '\\' !in name && '/' !in name
    ensures FullName(prefix + (middle + ['\\'] + name)) == name
  {
    hide FullName;
    var before := prefix + middle + ['\\'];
    assert prefix + (middle + ['\\'] + name) == before + name;
    FullNameOf(before, name);
  }

  lemma LastName(prefix: string, p: Path, name: string)
    requires ValidName(name) && prefix != [] && prefix[|prefix| - 1] == '\\'
    ensures FullName(prefix + Text(p + [name])) == name
  {
    hide FullName, Text;
    TextNext(p, name);
    if p == [] {
      FullNameOf(prefix, name);
    } else {
      FullNameAfter(prefix, Text(p), name);
    }
  }

  /** The text of the root and that of a path below it are the text of the whole path. */
  lemma WholeText(root: Root, q: Path)
    requires q != [] && RootText(root) != []
    ensures AbsoluteText(RootText(root), Text(q)) ==
      (if root.volume == [] then "" else root.volume + ":") + "\\" + Text(root.dirs + q)
  {
    var volume := if root.volume == [] then "" else root.volume + ":";
    if root.dirs == [] {
      assert root.dirs + q == q;
      assert RootText(root) == volume;
    } else {
      JoinAppend(root.dirs, q, '\\');
      assert RootText(root) == volume + "\\" + Text(root.dirs) + "\\";
    }
  }

  /** Sender and receiver record the same name, type and relative path for a listed path: its
      last name, what it is, and its names with slashes; and each where it lies on its side. */
  lemma SameElements(fs: FileSystem, root: Root, config: Config, q: Path)
    requires q != [] && ValidPath(q) && RootText(root) != []
    ensures
      var sent, received := Record(fs, root, Text(q)), Noticed(config, IsDir(fs, root, q), q);
      && sent.(absolutePath := received.absolutePath) == received
      && sent.elementName == q[|q| - 1] && sent.relativePath == Name(q)
      && sent.elementType == (if DirExists(fs, root.volume, root.dirs + q) then FOLDER else FILE)
      && sent.absolutePath == (if root.volume == [] then "" else root.volume + ":") + "\\" + Text(root.dirs + q)
      && received.absolutePath == config.outputPath + "\\" + Text(q)
  {
    hide Resolve, FullName, SentName, Name, Text;
    TargetIs(fs, root, q);
    NameIsSent(q);
    WholeText(root, q);
    var sender := if RootText(root)[|RootText(root)| - 1] == '\\' then RootText(root) else RootText(root) + "\\";
    var p, last := q[..|q| - 1], q[|q| - 1];
    assert q == p + [last];
    LastName(sender, p, last);
    LastName(config.outputPath + "\\", p, last);
    assert config.AbsoluteText(q) == config.outputPath + "\\" + Text(q) by {
      JoinIsText(q);
    }
  }

  lemma JoinIsText(q: Path)
    ensures Join(q, '\\') == Text(q)
  {
  }
}
