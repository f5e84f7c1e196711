/** Streaming the listed files and directories to the receiver (`FileSender`). */
module FileSender {
  import opened Options
  import opened Database
  import opened Paths
  import opened FileTree
  import opened FileCrawler
  import opened CrawlTotals

  const FILE_CHUNK_SIZE := 1024 * 1024
  const PROGRESS_FREQ_MILLIS := 250

  /** `std::wstring::npos`, the largest `size_t`; every length is below it. */
  const NPOS := 0xFFFF_FFFF_FFFF_FFFF

  datatype FileType = Invalid | RegularFile | Directory | Symlink

  datatype FileChunk = FileChunk(relativePath: string, fileType: FileType, symlinkTarget: string, chunk: seq<byte>, fileMode: int)

  datatype OpStatus =
    | INVALID_OP | INIT | CALCULATING | WAITING_PERMISSION
    | CANCELLED_PERMISSION_BY_SENDER | CANCELLED_PERMISSION_BY_RECEIVER
    | TRANSFERRING | PAUSED | STOPPED_BY_SENDER | STOPPED_BY_RECEIVER
    | FAILED | FAILED_UNRECOVERABLE | FILE_NOT_FOUND | FINISHED

  predicate Failed(status: OpStatus) {
    status in {FAILED, FAILED_UNRECOVERABLE, STOPPED_BY_RECEIVER, STOPPED_BY_SENDER}
  }

  /** The compressor is a function; it is used when the level is positive. */
  datatype Settings = Settings(
    filePerms: int, execPerms: int, dirPerms: int, compressLevel: int, compress: (seq<byte>, int) -> seq<byte>)
  {
    function Packed(data: seq<byte>): seq<byte> {
      if compressLevel > 0 then compress(data, compressLevel) else data
    }
  }

  // ----- executable files --------------------------------------------------------------

  const EXECUTABLE_EXTENSIONS: seq<string> := ["py", "sh"]

  predicate ElfHeader(data: seq<byte>) {
    |data| >= 4 && data[0] == 0x7F && data[1] == 'E' as byte && data[2] == 'L' as byte && data[3] == 'F' as byte
  }

  /** `rfind`: the last position where the text occurs. */
  method RFind(s: string, part: string) returns (position: int)
    requires |s| < NPOS
    ensures position != NPOS ==> OccursAt(s, part, position)
    ensures forall k :: OccursAt(s, part, k) ==> k <= position != NPOS
  {
    position := |s| - |part|;
    while position >= 0
      invariant position <= |s| - |part|
      invariant forall k :: OccursAt(s, part, k) ==> k <= position
    {
      if s[position..position + |part|] == part {
        return;
      }
      position := position - 1;
    }
    position := NPOS;
  }

  lemma EndOccurs(s: string, end: string)
    ensures OccursAt(s, end, |s| - |end|) <==> EndsWith(s, end)
  {
    if |end| <= |s| {
      assert s[|s| - |end|..|s| - |end| + |end|] == s[|s| - |end|..];
    }
  }

  lemma Positions(s: string, part: string)
    ensures forall k :: OccursAt(s, part, k) ==> 0 <= k <= |s| - |part|
  {
  }

  /** A single character counts as an executable's name, because the difference of the lengths
      then wraps around to the value that says "not found"; otherwise the name must end in "py"
      or "sh", with or without a dot, or the contents must start with the ELF header. */
  method IsFileExecutable(chunk: seq<byte>, relativePath: string) returns (executable: bool)
    requires |relativePath| < NPOS
    ensures executable <==> Executable(chunk, relativePath)
  {
    hide OccursAt, EndsWith, ElfHeader;
    for i := 0 to |EXECUTABLE_EXTENSIONS|
      invariant i > 0 ==> |relativePath| != 1 && !EndsWith(relativePath, "py")
      invariant i > 1 ==> !EndsWith(relativePath, "sh")
    {
      var extension := EXECUTABLE_EXTENSIONS[i];
      var position := RFind(relativePath, extension);
      EndOccurs(relativePath, extension);
      Positions(relativePath, extension);
      if position == (|relativePath| - |extension|) % (NPOS + 1) {
        return true;
      }
    }
    executable := ElfHeader(chunk);
  }

  predicate Executable(chunk: seq<byte>, relativePath: string) {
    |relativePath| == 1 || EndsWith(relativePath, "py") || EndsWith(relativePath, "sh") || ElfHeader(chunk)
  }

  // ----- what is sent for one path -----------------------------------------------------

  function PieceSize(data: seq<byte>): nat {
    if |data| < FILE_CHUNK_SIZE then |data| else FILE_CHUNK_SIZE
  }

  function DataStream(settings: Settings, name: string, mode: int, data: seq<byte>): seq<FileChunk> {
    var n := PieceSize(data);
    [FileChunk(name, RegularFile, "", settings.Packed(data[..n]), mode)] +
    if n == 0 then [] else DataStream(settings, name, mode, data[n..])
  }

  lemma DataStreamUnfolds(settings: Settings, name: string, mode: int, data: seq<byte>)
    ensures
      var n := PieceSize(data);
      DataStream(settings, name, mode, data) == [FileChunk(name, RegularFile, "", settings.Packed(data[..n]), mode)] +
        if n == 0 then [] else DataStream(settings, name, mode, data[n..])
  {
  }

  function FileMode(settings: Settings, data: seq<byte>, relativePath: string): int {
    if Executable(data[..PieceSize(data)], relativePath) then settings.execPerms else settings.filePerms
  }

  function SentName(relativePath: string): string {
    Replace(relativePath, '\\', '/')
  }

  function Target(fs: FileSystem, root: Root, relativePath: string): Option<nat> {
    Resolve(fs, root.volume, root.dirs + Split(relativePath, '\\'))
  }

  function EntityStream(fs: FileSystem, root: Root, settings: Settings, relativePath: string): seq<FileChunk> {
    var id := Target(fs, root, relativePath);
    if id.None? then []
    else match fs.nodes[id.value]
      case File(data) =>
        DataStream(settings, SentName(relativePath), FileMode(settings, data, relativePath), data)
      case Dir(_) =>
        [FileChunk(SentName(relativePath), Directory, "", [], settings.dirPerms)]
  }

  function Stream(fs: FileSystem, root: Root, settings: Settings, relativePaths: seq<string>): seq<FileChunk> {
    if relativePaths == [] then []
    else Stream(fs, root, settings, relativePaths[..|relativePaths| - 1]) +
         EntityStream(fs, root, settings, relativePaths[|relativePaths| - 1])
  }

  // ----- what is recorded for one path -------------------------------------------------

  /** The text of the root directory, with a separator after its last directory. */
  function RootText(root: Root): string {
    (if root.volume == [] then "" else root.volume + ":") +
    (if root.dirs == [] then "" else "\\" + Text(root.dirs) + "\\")
  }

  function AbsoluteText(rootText: string, relativePath: string): string
    requires rootText != []
  {
    if rootText[|rootText| - 1] == '\\' then rootText + relativePath else rootText + ['\\'] + relativePath
  }

  /** `wxFileName::GetFullName`: what follows the last separator. */
  function FullName(text: string): (name: string)
    ensures |name| <= |text| && text[|text| - |name|..] == name
    ensures '\\' !in name && '/' !in name
    ensures |name| < |text| ==> text[|text| - |name| - 1] in {'\\', '/'}
  {
    if text == [] || text[|text| - 1] in {'\\', '/'} then []
    else FullName(text[..|text| - 1]) + [text[|text| - 1]]
  }

  function Record(fs: FileSystem, root: Root, relativePath: string): TransferElement
    requires RootText(root) != []
  {
    var id := Target(fs, root, relativePath);
    var absolutePath := AbsoluteText(RootText(root), relativePath);
    TransferElement(0, FullName(absolutePath), if id.Some? && fs.nodes[id.value].Dir? then FOLDER else FILE,
      SentName(relativePath), absolutePath)
  }

  function Records(fs: FileSystem, root: Root, relativePaths: seq<string>): (records: seq<TransferElement>)
    requires RootText(root) != []
    ensures |records| == |relativePaths|
    ensures forall i :: 0 <= i < |relativePaths| ==> records[i] == Record(fs, root, relativePaths[i])
  {
    seq(|relativePaths|, i requires 0 <= i < |relativePaths| => Record(fs, root, relativePaths[i]))
  }

  lemma NoSizes(fs: FileSystem, root: Root)
    ensures SumSizes(fs, root, []) == 0
  {
  }

  lemma {:induction false} OneMore(fs: FileSystem, root: Root, relativePaths: seq<string>, i: nat)
    requires i < |relativePaths|
    ensures SumSizes(fs, root, relativePaths[..i + 1])
         == SumSizes(fs, root, relativePaths[..i]) + SizeAt(fs, root, Split(relativePaths[i], '\\'))
  {
    hide SizeAt, Split;
    if i == 0 {
      assert relativePaths[..1][1..] == [];
    } else {
      OneMore(fs, root, relativePaths[1..], i - 1);
      assert relativePaths[..i + 1][1..] == relativePaths[1..][..i] && relativePaths[..i][1..] == relativePaths[1..][..i - 1];
    }
  }

  // ----- the sender --------------------------------------------------------------------

  /** What the shared transfer and the clock show at one moment. */
  datatype Moment = Moment(status: OpStatus, now: int)

  /** One change of `sentBytes`, and whether the user interface was told. */
  datatype Update = Update(sentBytes: int, shown: bool)

  /** The number of sent bytes never falls. */
  ghost predicate Rising(updates: seq<Update>) {
    forall i, j :: 0 <= i < j < |updates| ==> updates[i].sentBytes <= updates[j].sentBytes
  }

  /** While the entities are read, the updates rise to the number of sent bytes. */
  ghost predicate Tracked(updates: seq<Update>, sentBytes: int) {
    && Rising(updates)
    && if updates == [] then sentBytes == 0 else 0 < sentBytes == updates[|updates| - 1].sentBytes
  }

  lemma NothingUpdated()
    ensures Tracked([], 0)
  {
  }

  lemma RisesFurther(updates: seq<Update>, sentBytes: int, next: Update)
    requires Tracked(updates, sentBytes) && sentBytes < next.sentBytes
    ensures Tracked(updates + [next], next.sentBytes)
  {
  }

  /** The last update is to the announced total, which may be less than what was read. */
  lemma FinalUpdate(updates: seq<Update>, sentBytes: int, next: Update)
    requires Tracked(updates, sentBytes)
    ensures Rising(updates + [next]) <==> sentBytes <= next.sentBytes || sentBytes == 0
  {
    var all := updates + [next];
    if updates != [] && Rising(all) {
      assert all[|updates| - 1].sentBytes <= all[|updates|].sentBytes;
    }
  }

  class FileSender {
    const fs: FileSystem
    const root: Root
    const settings: Settings
    const relativePaths: seq<string>
    const totalSize: int

    /** The environment: the status when an entity is due, whether its file can be opened, and
        what the progress updates see. */
    const checks: nat -> OpStatus
    const opens: nat -> bool
    const moments: nat -> Moment

    var stream: seq<FileChunk>
    var elements: seq<TransferElement>
    var sentBytes: int
    var lastProgressUpdate: int
    var updates: seq<Update>

    ghost predicate Valid() {
      && RootText(root) != []
      && forall i :: 0 <= i < |relativePaths| ==> |relativePaths[i]| < NPOS
    }

    /** An entity that is reached is sent, unless the transfer was stopped or failed, the path
        is gone, or the file cannot be opened. */
    ghost predicate Sendable(i: nat)
      requires i < |relativePaths|
    {
      && !Failed(checks(i))
      && var id := Target(fs, root, relativePaths[i]);
         id.Some? && (fs.nodes[id.value].File? ==> opens(i))
    }

    constructor (fs: FileSystem, root: Root, settings: Settings, relativePaths: seq<string>, totalSize: int,
        checks: nat -> OpStatus, opens: nat -> bool, moments: nat -> Moment)
      requires RootText(root) != [] && forall i :: 0 <= i < |relativePaths| ==> |relativePaths[i]| < NPOS
      ensures Valid() && this.fs == fs && this.root == root && this.settings == settings
      ensures this.relativePaths == relativePaths && this.totalSize == totalSize
      ensures this.checks == checks && this.opens == opens && this.moments == moments
      ensures stream == [] && elements == [] && sentBytes == 0 && updates == []
    {
      this.fs, this.root, this.settings, this.relativePaths, this.totalSize := fs, root, settings, relativePaths, totalSize;
      this.checks, this.opens, this.moments := checks, opens, moments;
      stream, elements, sentBytes, lastProgressUpdate, updates := [], [], 0, 0, [];
    }

    method UpdateProgress(chunkBytes: int)
      requires chunkBytes >= -1
      modifies this`sentBytes, this`lastProgressUpdate, this`updates
      ensures sentBytes == if chunkBytes >= 0 then old(sentBytes) + chunkBytes else totalSize
      ensures
        var moment := moments(|old(updates)|);
        var shown := (moment.now - old(lastProgressUpdate) > 250 || chunkBytes == -1)
                     && moment.status in {TRANSFERRING, PAUSED};
        && updates == old(updates) + [Update(sentBytes, shown)]
        && lastProgressUpdate == if shown then moment.now else old(lastProgressUpdate)
    {
      if chunkBytes >= 0 {
        sentBytes := sentBytes + chunkBytes;
      } else {
        sentBytes := totalSize;
      }
      var moment := moments(|updates|);
      var shown := false;
      if moment.now - lastProgressUpdate > PROGRESS_FREQ_MILLIS || chunkBytes == -1 {
        if moment.status == TRANSFERRING || moment.status == PAUSED {
          shown := true;
          lastProgressUpdate := moment.now;
        }
      }
      updates := updates + [Update(sentBytes, shown)];
    }

    /** The read loop: the chunks of the data, the last of them empty. */
    method SendSingleFile(i: nat, data: seq<byte>) returns (ok: bool)
      requires Valid() && i < |relativePaths|
      requires Tracked(updates, sentBytes)
      modifies this`stream, this`elements, this`sentBytes, this`lastProgressUpdate, this`updates
      ensures Tracked(updates, sentBytes)
      ensures ok <==> opens(i)
      ensures !ok ==> stream == old(stream) && sentBytes == old(sentBytes) && elements == old(elements)
      ensures ok ==>
        && stream == old(stream) + DataStream(settings, SentName(relativePaths[i]), FileMode(settings, data, relativePaths[i]), data)
        && sentBytes == old(sentBytes) + |data|
        && elements == old(elements) + [FileRecord(i)]
    {
      hide DataStream, Executable, SentName, Settings.Packed, FileRecord, Rising;
      var relativePath := relativePaths[i];
      var name := SentName(relativePath);
      if !opens(i) {
        return false;
      }
      ghost var mode := FileMode(settings, data, relativePath);
      var position, permissions, contentsDetermined := 0, 0, false;
      var reading := true;
      assert data[0..] == data;
      while reading
        invariant position <= |data| && Valid()
        invariant Tracked(updates, sentBytes)
        invariant sentBytes == old(sentBytes) + position && elements == old(elements)
        invariant contentsDetermined ==> permissions == mode
        invariant !contentsDetermined ==> position == 0 && reading
        invariant reading ==>
          stream + DataStream(settings, name, mode, data[position..]) == old(stream) + DataStream(settings, name, mode, data)
        invariant !reading ==> stream == old(stream) + DataStream(settings, name, mode, data) && position == |data|
        decreases |data| - position, reading
      {
        var readCount := PieceSize(data[position..]);
        var piece := data[position..][..readCount];
        ghost var rest := data[position..];
        if !contentsDetermined {
          var executable := IsFileExecutable(piece, relativePath);
          permissions := if executable then settings.execPerms else settings.filePerms;
          contentsDetermined := true;
        }
        var fileChunk := FileChunk(name, RegularFile, "", settings.Packed(piece), permissions);
        DataStreamUnfolds(settings, name, mode, rest);
        assert readCount > 0 ==> rest[readCount..] == data[position + readCount..];
        stream := stream + [fileChunk];
        if readCount > 0 {
          RisesFurther(updates, sentBytes, Update(sentBytes + readCount, false));
          RisesFurther(updates, sentBytes, Update(sentBytes + readCount, true));
          UpdateProgress(readCount);
        }
        position := position + readCount;
        reading := readCount > 0;
      }
      elements := elements + [FileRecord(i)];
      ok := true;
    }

    function FileRecord(i: nat): TransferElement
      requires RootText(root) != [] && i < |relativePaths|
    {
      var absolutePath := AbsoluteText(RootText(root), relativePaths[i]);
      TransferElement(0, FullName(absolutePath), FILE, SentName(relativePaths[i]), absolutePath)
    }

    method SendSingleDirectory(i: nat) returns (ok: bool)
      requires Valid() && i < |relativePaths|
      modifies this`stream, this`elements
      ensures ok
      ensures stream == old(stream) + [FileChunk(SentName(relativePaths[i]), Directory, "", [], settings.dirPerms)]
      ensures elements == old(elements) + [FileRecord(i).(elementType := FOLDER)]
    {
      var name, absolutePath := SentName(relativePaths[i]), AbsoluteText(RootText(root), relativePaths[i]);
      elements := elements + [TransferElement(0, FullName(absolutePath), FOLDER, name, absolutePath)];
      stream := stream + [FileChunk(name, Directory, "", [], settings.dirPerms)];
      ok := true;
    }

    method SendSingleEntity(i: nat) returns (ok: bool)
      requires Valid() && i < |relativePaths|
      requires Tracked(updates, sentBytes)
      modifies this`stream, this`elements, this`sentBytes, this`lastProgressUpdate, this`updates
      ensures Tracked(updates, sentBytes)
      ensures !Failed(checks(i)) ==> (ok <==> Sendable(i))
      ensures !ok ==> stream == old(stream) && sentBytes == old(sentBytes) && elements == old(elements)
      ensures ok ==>
        && stream == old(stream) + EntityStream(fs, root, settings, relativePaths[i])
        && sentBytes == old(sentBytes) + SizeAt(fs, root, Split(relativePaths[i], '\\'))
        && elements == old(elements) + [Record(fs, root, relativePaths[i])]
    {
      hide Resolve, Split, DataStream;
      var path := root.dirs + Split(relativePaths[i], '\\');
      if FileExists(fs, root.volume, path) {
        ok := SendSingleFile(i, fs.nodes[Resolve(fs, root.volume, path).value].data);
      } else if DirExists(fs, root.volume, path) {
        ok := SendSingleDirectory(i);
      } else {
        ok := false;
      }
    }

    /** `transferFiles`: sends the entities in order up to the first that is not sendable, and
        nothing of that one; on success the progress ends at the announced total. */
    method TransferFiles() returns (ok: bool)
      requires Valid() && stream == [] && elements == [] && sentBytes == 0 && updates == []
      modifies this`stream, this`elements, this`sentBytes, this`lastProgressUpdate, this`updates
      ensures ok <==> forall i :: 0 <= i < |relativePaths| ==> Sendable(i)
      ensures
        var n := |elements|;
        && n <= |relativePaths|
        && (forall i :: 0 <= i < n ==> Sendable(i)) && (n < |relativePaths| ==> !Sendable(n))
        && stream == Stream(fs, root, settings, relativePaths[..n])
        && elements == Records(fs, root, relativePaths[..n])
        && (!ok ==> sentBytes == SumSizes(fs, root, relativePaths[..n]))
      ensures ok ==> sentBytes == totalSize
      ensures
        var sum := SumSizes(fs, root, relativePaths);
        ok ==> (Rising(updates) <==> sum <= totalSize || sum == 0)
      ensures !ok ==> Rising(updates)
    {
      hide Resolve, Split, EntityStream, SizeAt, SumSizes, Record, Rising;
      NoSizes(fs, root);
      NothingUpdated();
      for i := 0 to |relativePaths|
        invariant |elements| == i && forall k :: 0 <= k < i ==> Sendable(k)
        invariant Tracked(updates, sentBytes)
        invariant stream == Stream(fs, root, settings, relativePaths[..i])
        invariant elements == Records(fs, root, relativePaths[..i])
        invariant sentBytes == SumSizes(fs, root, relativePaths[..i])
      {
        if Failed(checks(i)) {
          assert !Sendable(i);
          return false;
        }
        ok := SendSingleEntity(i);
        if !ok {
          return;
        }
        OneMore(fs, root, relativePaths, i);
        assert relativePaths[..i + 1][..i] == relativePaths[..i];
      }
      assert relativePaths[..|relativePaths|] == relativePaths;
      FinalUpdate(updates, sentBytes, Update(totalSize, false));
      FinalUpdate(updates, sentBytes, Update(totalSize, true));
      UpdateProgress(-1);
      ok := true;
    }
  }
}
