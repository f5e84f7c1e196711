/** Writing the received chunks below the output directory (`StartTransferReactor`). */
module TransferReceiver {
  import opened Options
  import opened Database
  import opened Paths
  import opened FileTree
  import opened FileSender

  /** What is at a path below the output directory. */
  datatype Output = OutputDir | OutputFile(data: seq<byte>)

  /** `getAbsolutePath` yields the place below the output directory, or nothing when the path
      leads outside; the normalisation of paths that are not plain names is not modelled. */
  datatype Config = Config(
    canOverwrite: bool, useCompression: bool, decompress: seq<byte> -> seq<byte>,
    outputPath: string, place: string -> Option<Path>)
  {
    function Unpacked(chunk: seq<byte>): seq<byte> {
      if useCompression then decompress(chunk) else chunk
    }

    function AbsoluteText(place: Path): string {
      outputPath + "\\" + Join(place, '\\')
    }
  }

  /** The reactor's variables, and the part of the file system below the output directory. */
  datatype State = State(
    output: map<Path, Output>,
    filePtr: Option<Path>, filePtrPath: string,
    elements: seq<TransferElement>, fileCount: int, dirCount: int, sentBytes: int,
    stopRequests: nat)

  /** The directory that would hold the path exists. */
  predicate ParentExists(output: map<Path, Output>, place: Path) {
    place != [] && (|place| == 1 || (place[..|place| - 1] in output && output[place[..|place| - 1]].OutputDir?))
  }

  /** `wxFile::Create`: empties or makes a file, unless it may not be replaced. */
  predicate CanCreate(config: Config, output: map<Path, Output>, place: Path) {
    ParentExists(output, place) && (place in output ==> output[place].OutputFile? && config.canOverwrite)
  }

  /** The element recorded for a chunk, if its path is new, valid, and not that of the last one. */
  predicate Recorded(config: Config, s: State, c: FileChunk) {
    && ':' !in c.relativePath
    && c.relativePath != (if s.elements == [] then "" else s.elements[|s.elements| - 1].relativePath)
    && config.place(c.relativePath).Some?
  }

  function ElementOf(config: Config, c: FileChunk, place: Path): TransferElement {
    var absolutePath := config.AbsoluteText(place);
    TransferElement(0, FullName(absolutePath), if c.fileType == Directory then FOLDER else FILE, c.relativePath, absolutePath)
  }

  /** The bookkeeping of one chunk: the list of elements, and the counts of top-level ones. */
  function Noted(config: Config, s: State, c: FileChunk): State {
    if !Recorded(config, s, c) then s
    else
      var top := '/' !in c.relativePath;
      s.(elements := s.elements + [ElementOf(config, c, config.place(c.relativePath).value)],
         fileCount := s.fileCount + (if top && c.fileType == RegularFile then 1 else 0),
         dirCount := s.dirCount + (if top && c.fileType == Directory then 1 else 0))
  }

  /** The effect of one chunk on the output directory. */
  function Written(config: Config, s: State, c: FileChunk): State {
    var place := config.place(c.relativePath);
    if place.None? then s
    else match c.fileType
      case RegularFile =>
        if c.relativePath != s.filePtrPath then
          if CanCreate(config, s.output, place.value) then
            s.(filePtr := place, filePtrPath := c.relativePath,
               output := s.output[place.value := OutputFile(config.Unpacked(c.chunk))])
          else s.(filePtr := None, filePtrPath := c.relativePath, stopRequests := s.stopRequests + 1)
        else Appended(s, config.Unpacked(c.chunk))
      case Directory => MadeDir(s, place.value)
      case _ => s
  }

  /** Writing goes to the open file; without one it does nothing. */
  function Appended(s: State, data: seq<byte>): State {
    if s.filePtr.Some? && s.filePtr.value in s.output && s.output[s.filePtr.value].OutputFile?
    then s.(output := s.output[s.filePtr.value := OutputFile(s.output[s.filePtr.value].data + data)])
    else s
  }

  /** A file in the place of a directory is removed first. */
  function MadeDir(s: State, place: Path): State {
    if place in s.output && s.output[place].OutputDir? then s
    else if ParentExists(s.output, place) then s.(output := s.output[place := OutputDir])
    else s.(output := s.output - {place}, stopRequests := s.stopRequests + 1)
  }

  function Receive(config: Config, s: State, c: FileChunk): State {
    var noted := Noted(config, s, c);
    Written(config, noted.(sentBytes := noted.sentBytes + |config.Unpacked(c.chunk)|), c)
  }

  function ReceiveAll(config: Config, s: State, stream: seq<FileChunk>): State {
    if stream == [] then s
    else Receive(config, ReceiveAll(config, s, stream[..|stream| - 1]), stream[|stream| - 1])
  }

  class StartTransferReactor {
    const config: Config

    var output: map<Path, Output>
    var filePtr: Option<Path>
    var filePtrPath: string
    var elements: seq<TransferElement>
    var fileCount: int
    var dirCount: int
    var sentBytes: int
    var stopRequests: nat

    ghost function Current(): State
      reads this
    {
      State(output, filePtr, filePtrPath, elements, fileCount, dirCount, sentBytes, stopRequests)
    }

    constructor (config: Config, output: map<Path, Output>)
      ensures this.config == config && Current() == State(output, None, "", [], 0, 0, 0, 0)
    {
      this.config, this.output := config, output;
      filePtr, filePtrPath, elements, fileCount, dirCount, sentBytes, stopRequests := None, "", [], 0, 0, 0, 0;
    }

    method UpdatePaths(c: FileChunk)
      modifies this`elements, this`fileCount, this`dirCount
      ensures Current() == Noted(config, old(Current()), c)
    {
      var lastPath := "";
      if elements != [] {
        lastPath := elements[|elements| - 1].relativePath;
      }
      var currentPath := c.relativePath;
      if ':' in currentPath {
        return;
      } else if lastPath != currentPath {
        var place := config.place(currentPath);
        if place.None? {
          return;
        }
        elements := elements + [ElementOf(config, c, place.value)];
        if '/' !in currentPath {
          if c.fileType == RegularFile {
            fileCount := fileCount + 1;
          }
          if c.fileType == Directory {
            dirCount := dirCount + 1;
          }
        }
      }
    }

    method Write(data: seq<byte>)
      modifies this`output
      ensures Current() == Appended(old(Current()), data)
    {
      if filePtr.Some? && filePtr.value in output && output[filePtr.value].OutputFile? {
        output := output[filePtr.value := OutputFile(output[filePtr.value].data + data)];
      }
    }

    method ProcessData(c: FileChunk, data: seq<byte>)
      requires data == config.Unpacked(c.chunk)
      modifies this`output, this`filePtr, this`filePtrPath, this`stopRequests
      ensures Current() == Written(config, old(Current()), c)
    {
      var place := config.place(c.relativePath);
      if place.None? {
        return;
      }
      if c.fileType == RegularFile {
        if c.relativePath != filePtrPath {
          filePtr := None;
          filePtrPath := c.relativePath;
          if !CanCreate(config, output, place.value) {
            stopRequests := stopRequests + 1;
            return;
          }
          output := output[place.value := OutputFile([])];
          filePtr := place;
        }
        assert filePtr == place && place.value in output && output[place.value] == OutputFile([]) ==> [] + data == data;
        Write(data);
      } else if c.fileType == Directory {
        if !(place.value in output && output[place.value].OutputDir?) {
          if place.value in output && output[place.value].OutputFile? {
            output := output - {place.value};
          }
          if ParentExists(output, place.value) {
            output := output[place.value := OutputDir];
          } else {
            stopRequests := stopRequests + 1;
          }
        }
      }
    }

    /** `OnReadDone` for a chunk that arrived. */
    method OnReadDone(c: FileChunk)
      modifies this
      ensures Current() == Receive(config, old(Current()), c)
    {
      hide Noted, Written, Config.Unpacked;
      UpdatePaths(c);
      var data := config.Unpacked(c.chunk);
      sentBytes := sentBytes + |data|;
      ProcessData(c, data);
    }

    /** All reads of one transfer. */
    method ReceiveStream(stream: seq<FileChunk>)
      modifies this
      ensures Current() == ReceiveAll(config, old(Current()), stream)
    {
      hide Receive;
      for i := 0 to |stream|
        invariant Current() == ReceiveAll(config, old(Current()), stream[..i])
      {
        OnReadDone(stream[i]);
        assert stream[..i + 1][..i] == stream[..i];
      }
      assert stream[..|stream|] == stream;
    }

    /** `OnDone`, for a transfer that still runs: the progress jumps to the announced total. */
    method OnDone(running: bool, totalSize: int)
      modifies this`sentBytes, this`filePtr
      ensures sentBytes == if running then totalSize else old(sentBytes)
      ensures filePtr == None
    {
      if running {
        sentBytes := totalSize + 1;
        sentBytes := sentBytes - 1;
      }
      filePtr := None;
    }
  }
}
