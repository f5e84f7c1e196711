/** What the receiver keeps whatever arrives: every stream, of any sender. */
module ReceiverLaws {
  import opened Options
  import opened Database
  import opened Paths
  import opened FileTree
  import opened FileSender
  import opened TransferReceiver
  import opened Delivery

  /** A chunk of the stream is placed there. */
  predicate Named(config: Config, stream: seq<FileChunk>, q: Path) {
    exists c :: c in stream && config.place(c.relativePath) == Some(q)
  }

  predicate DirNamed(config: Config, stream: seq<FileChunk>, q: Path) {
    exists c :: c in stream && c.fileType == Directory && config.place(c.relativePath) == Some(q)
  }

  lemma NamedMore(config: Config, stream: seq<FileChunk>, c: FileChunk, q: Path)
    ensures Named(config, stream + [c], q) <==> Named(config, stream, q) || config.place(c.relativePath) == Some(q)
    ensures DirNamed(config, stream + [c], q) <==>
      DirNamed(config, stream, q) || (c.fileType == Directory && config.place(c.relativePath) == Some(q))
  {
    var all := stream + [c];
    assert forall d :: d in all <==> d in stream || d == c;
  }

  /** The state of the output directory and the open file after one more chunk. */
  lemma OneChunk(config: Config, s: State, c: FileChunk, q: Path)
    ensures
      var t, place := Receive(config, s, c), config.place(c.relativePath);
      && (t.filePtr == s.filePtr || t.filePtr == None || t.filePtr == place)
      && (Lookup(s.output, q) == Lookup(t.output, q) || place == Some(q) || s.filePtr == Some(q))
      && (Lookup(s.output, q) == Some(OutputDir) ==> Lookup(t.output, q) == Some(OutputDir))
      && t.sentBytes == s.sentBytes + |config.Unpacked(c.chunk)|
      && t.stopRequests >= s.stopRequests
  {
    hide Noted, Config.Unpacked, ParentExists;
    NotedKeeps(config, s, c);
  }

  lemma NotedKeeps(config: Config, s: State, c: FileChunk)
    ensures
      var t := Noted(config, s, c);
      t.(elements := s.elements, fileCount := s.fileCount, dirCount := s.dirCount) == s
  {
  }

  /** Nothing outside the places named by the stream is touched, and a directory, once there,
      stays a directory. */
  lemma {:induction false} OnlyNamedTouched(config: Config, s: State, stream: seq<FileChunk>, q: Path)
    requires s.filePtr == None
    ensures
      var t := ReceiveAll(config, s, stream);
      && (Lookup(t.output, q) == Lookup(s.output, q) || Named(config, stream, q))
      && (t.filePtr == Some(q) ==> Named(config, stream, q))
      && (Lookup(s.output, q) == Some(OutputDir) ==> Lookup(t.output, q) == Some(OutputDir))
      && t.stopRequests >= s.stopRequests
  {
    hide Receive, Named, DirNamed;
    if stream != [] {
      var before, c := stream[..|stream| - 1], stream[|stream| - 1];
      OnlyNamedTouched(config, s, before, q);
      OneChunk(config, ReceiveAll(config, s, before), c, q);
      NamedMore(config, before, c, q);
      assert before + [c] == stream;
    }
  }

  lemma KeptByOne(config: Config, s: State, c: FileChunk, q: Path)
    requires !config.canOverwrite && Lookup(s.output, q).Some? && Lookup(s.output, q).value.OutputFile?
    requires s.filePtr != Some(q) && !(c.fileType == Directory && config.place(c.relativePath) == Some(q))
    ensures Lookup(Receive(config, s, c).output, q) == Lookup(s.output, q) && Receive(config, s, c).filePtr != Some(q)
  {
    hide Noted, Config.Unpacked, ParentExists;
    NotedKeeps(config, s, c);
  }

  /** Unless files may be replaced, one that was there keeps its data, whatever arrives, short of
      a directory of the same name. */
  lemma {:induction false} ExistingFilesKept(config: Config, s: State, stream: seq<FileChunk>, q: Path)
    requires !config.canOverwrite && s.filePtr == None
    requires Lookup(s.output, q).Some? && Lookup(s.output, q).value.OutputFile? && !DirNamed(config, stream, q)
    ensures Lookup(ReceiveAll(config, s, stream).output, q) == Lookup(s.output, q)
    ensures ReceiveAll(config, s, stream).filePtr != Some(q)
  {
    hide Receive, Named, DirNamed;
    if stream != [] {
      var before, c := stream[..|stream| - 1], stream[|stream| - 1];
      assert before + [c] == stream;
      NamedMore(config, before, c, q);
      ExistingFilesKept(config, s, before, q);
      KeptByOne(config, ReceiveAll(config, s, before), c, q);
    }
  }

  /** ... and a directory of that name replaces it: the overwrite setting does not protect a file. */
  lemma DirectoryReplacesFile(config: Config, name: string, q: Path, data: seq<byte>, mode: int)
    requires !config.canOverwrite && |q| == 1 && config.place(name) == Some(q)
    ensures Lookup(ReceiveAll(config, Start(map[q := OutputFile(data)]), [FileChunk(name, Directory, "", [], mode)]).output, q) == Some(OutputDir)
  {
    hide Noted, Config.Unpacked;
    var s, c := Start(map[q := OutputFile(data)]), FileChunk(name, Directory, "", [], mode);
    NotedKeeps(config, s, c);
    assert [c][..0] == [];
    assert ReceiveAll(config, s, [c]) == Receive(config, s, c);
  }

  // ----- the bookkeeping ---------------------------------------------------------------

  function UnpackedSize(config: Config, stream: seq<FileChunk>): nat {
    if stream == [] then 0
    else UnpackedSize(config, stream[..|stream| - 1]) + |config.Unpacked(stream[|stream| - 1].chunk)|
  }

  /** Recorded top-level elements of one type. */
  function Tops(elements: seq<TransferElement>, elementType: int): nat {
    if elements == [] then 0
    else
      var last := elements[|elements| - 1];
      Tops(elements[..|elements| - 1], elementType) +
      if '/' !in last.relativePath && last.elementType == elementType then 1 else 0
  }

  predicate Clean(elements: seq<TransferElement>) {
    && (forall i :: 0 <= i < |elements| ==> ':' !in elements[i].relativePath && elements[i].elementType in {FILE, FOLDER})
    && (forall i :: 0 <= i < |elements| - 1 ==> elements[i].relativePath != elements[i + 1].relativePath)
  }

  lemma CleanMore(elements: seq<TransferElement>, e: TransferElement)
    requires Clean(elements) && ':' !in e.relativePath && e.elementType in {FILE, FOLDER}
    requires elements != [] ==> elements[|elements| - 1].relativePath != e.relativePath
    ensures Clean(elements + [e])
  {
  }

  lemma TopsMore(elements: seq<TransferElement>, e: TransferElement, elementType: int)
    ensures Tops(elements + [e], elementType) ==
      Tops(elements, elementType) + if '/' !in e.relativePath && e.elementType == elementType then 1 else 0
  {
    assert (elements + [e])[..|elements|] == elements;
  }

  lemma NextElement(config: Config, s: State, c: FileChunk)
    requires Clean(s.elements)
    ensures
      var t := Receive(config, s, c);
      && Clean(t.elements) && s.elements <= t.elements
      && t.dirCount - s.dirCount == Tops(t.elements, FOLDER) - Tops(s.elements, FOLDER)
      && t.fileCount - s.fileCount <= Tops(t.elements, FILE) - Tops(s.elements, FILE)
      && (c.fileType in {RegularFile, Directory} ==>
           t.fileCount - s.fileCount == Tops(t.elements, FILE) - Tops(s.elements, FILE))
  {
    hide Config.Unpacked, Config.AbsoluteText, FullName, Clean, Tops, Written;
    var t := Receive(config, s, c);
    WrittenKeeps(config, Noted(config, s, c).(sentBytes := s.sentBytes + |config.Unpacked(c.chunk)|), c);
    if Recorded(config, s, c) {
      var e := ElementOf(config, c, config.place(c.relativePath).value);
      assert t.elements == s.elements + [e];
      CleanMore(s.elements, e);
      TopsMore(s.elements, e, FOLDER);
      TopsMore(s.elements, e, FILE);
    }
  }

  lemma WrittenKeeps(config: Config, s: State, c: FileChunk)
    ensures
      var t := Written(config, s, c);
      t.elements == s.elements && t.fileCount == s.fileCount && t.dirCount == s.dirCount && t.sentBytes == s.sentBytes
  {
  }

  /** No recorded path holds a colon, neighbours differ, the count of directories is that of the
      recorded top-level ones, that of files never exceeds it and is it while nothing but files and
      directories arrives, and the sent bytes are those of all chunks. */
  lemma {:induction false} BooksAreKept(config: Config, output: map<Path, Output>, stream: seq<FileChunk>)
    ensures
      var t := ReceiveAll(config, Start(output), stream);
      && Clean(t.elements) && t.dirCount == Tops(t.elements, FOLDER) && t.fileCount <= Tops(t.elements, FILE)
      && ((forall c :: c in stream ==> c.fileType in {RegularFile, Directory}) ==> t.fileCount == Tops(t.elements, FILE))
      && t.sentBytes == UnpackedSize(config, stream)
  {
    hide Receive, Clean, Tops, Config.Unpacked;
    if stream == [] {
      NoElements();
    } else {
      var before, c := stream[..|stream| - 1], stream[|stream| - 1];
      BooksAreKept(config, output, before);
      var s := ReceiveAll(config, Start(output), before);
      NextElement(config, s, c);
      OneChunk(config, s, c, []);
      assert forall d :: d in before ==> d in stream;
      assert c in stream;
    }
  }

  lemma NoElements()
    ensures Clean([]) && Tops([], FOLDER) == Tops([], FILE) == 0
  {
  }
}
