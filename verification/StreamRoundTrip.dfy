/** What the stream carries, and that receiving it rebuilds what was listed. */
module StreamRoundTrip {
  import opened Options
  import opened Paths
  import opened FileTree
  import opened FileCrawler
  import opened FileSender
  import opened TransferReceiver

  /** Sender and receiver fit together: decompressing undoes compressing, for what a chunk can
      hold, and a plain relative path is placed under its own names. */
  ghost predicate Linked(settings: Settings, config: Config) {
    && (forall data: seq<byte> :: |data| <= FILE_CHUNK_SIZE ==> config.Unpacked(settings.Packed(data)) == data)
    && config.Unpacked([]) == []
    && (forall q :: q != [] && ValidPath(q) ==> config.place(Name(q)) == Some(q))
  }

  /** Sender and receiver fit together if both compress or neither does, and decompressing undoes
      what compressing at the sender's level did to a MiB or less. */
  lemma LinkedWhen(settings: Settings, config: Config)
    requires config.useCompression <==> settings.compressLevel > 0
    requires config.useCompression ==>
      forall data: seq<byte> :: |data| <= 1_048_576 ==>
        config.decompress(settings.compress(data, settings.compressLevel)) == data
    requires config.useCompression ==> config.decompress([]) == []
    requires forall q :: q != [] && ValidPath(q) ==> config.place(Join(q, '/')) == Some(q)
    ensures Linked(settings, config)
  {
    hide ValidPath, Join;
    forall q | q != [] && ValidPath(q)
      ensures config.place(Name(q)) == Some(q)
    {
      assert config.place(Join(q, '/')) == Some(q);
    }
  }

  /** The name under which a path is sent. */
  function Name(q: Path): string {
    Join(q, '/')
  }

  lemma NameIsSent(q: Path)
    requires ValidPath(q)
    ensures SentName(Text(q)) == Name(q)
  {
    ReplaceJoin(q, '\\', '/');
  }

  lemma NamesDiffer(a: Path, b: Path)
    requires a != [] && b != [] && ValidPath(a) && ValidPath(b) && Name(a) == Name(b)
    ensures a == b
  {
    JoinInjective(a, b, '/');
  }

  lemma {:induction false} NameFacts(q: Path)
    requires q != [] && ValidPath(q)
    ensures Name(q) != "" && ':' !in Name(q)
    ensures '/' in Name(q) <==> |q| > 1
  {
    if |q| > 1 {
      NameFacts(q[1..]);
      assert Name(q) == q[0] + ['/'] + Name(q[1..]);
      assert Name(q)[|q[0]|] == '/';
    }
  }

  // ----- the chunks of one file --------------------------------------------------------

  /** The bytes of the k-th MiB. */
  function Slice(data: seq<byte>, k: nat): seq<byte> {
    var from, to := k * 1_048_576, (k + 1) * 1_048_576;
    if |data| <= from then [] else if |data| <= to then data[from..] else data[from..to]
  }

  lemma SliceOfRest(data: seq<byte>, k: nat)
    requires data != []
    ensures Slice(data[PieceSize(data)..], k) == Slice(data, k + 1)
    ensures Slice(data, 0) == data[..PieceSize(data)]
  {
  }

  /** Chunk k of a file holds the bytes of its k-th MiB, only the last chunk is empty, and all
      chunks carry the same name and mode. */
  lemma {:induction false} FileChunks(settings: Settings, config: Config, name: string, mode: int, data: seq<byte>)
    requires Linked(settings, config)
    ensures
      var stream := DataStream(settings, name, mode, data);
      && |stream| > 0 && (|stream| - 2) * 1_048_576 < |data| <= (|stream| - 1) * 1_048_576
      && forall k :: 0 <= k < |stream| ==>
        && stream[k] == FileChunk(name, RegularFile, "", stream[k].chunk, mode)
        && config.Unpacked(stream[k].chunk) == Slice(data, k)
    decreases |data|
  {
    hide Settings.Packed, Config.Unpacked, Slice;
    var n := PieceSize(data);
    var stream := DataStream(settings, name, mode, data);
    if n == 0 {
      assert data[..n] == [] && Slice(data, 0) == [] by {
        NoSlice(data, 0);
      }
    } else {
      var rest := DataStream(settings, name, mode, data[n..]);
      FileChunks(settings, config, name, mode, data[n..]);
      assert stream[1..] == rest;
      forall k | 0 <= k < |stream|
        ensures stream[k] == FileChunk(name, RegularFile, "", stream[k].chunk, mode)
        ensures config.Unpacked(stream[k].chunk) == Slice(data, k)
      {
        if k == 0 {
          SliceOfRest(data, 0);
        } else {
          assert stream[k] == rest[k - 1];
          SliceOfRest(data, k - 1);
        }
      }
    }
  }

  /** On the wire a chunk is its piece of the data, compressed if the level is positive. */
  lemma {:induction false} ChunkOnTheWire(settings: Settings, name: string, mode: int, data: seq<byte>, k: nat)
    requires k < |DataStream(settings, name, mode, data)|
    ensures DataStream(settings, name, mode, data)[k].chunk ==
      if settings.compressLevel > 0 then settings.compress(Slice(data, k), settings.compressLevel) else Slice(data, k)
    decreases |data|
  {
    hide Slice;
    var n := PieceSize(data);
    if n == 0 {
      NoSlice(data, 0);
      assert data[..n] == [];
    } else {
      SliceOfRest(data, if k > 0 then k - 1 else 0);
      if k > 0 {
        ChunkOnTheWire(settings, name, mode, data[n..], k - 1);
      }
    }
  }

  lemma NoSlice(data: seq<byte>, k: nat)
    requires |data| <= k * 1_048_576
    ensures Slice(data, k) == []
  {
  }

  // ----- the listed paths --------------------------------------------------------------

  /** Existing paths, each once, each after the directory that holds it. */
  ghost predicate Listing(fs: FileSystem, root: Root, paths: seq<Path>) {
    && (forall i :: 0 <= i < |paths| ==>
         paths[i] != [] && ValidPath(paths[i]) && Exists(fs, root.volume, root.dirs + paths[i]))
    && (forall i, j :: 0 <= i < j < |paths| ==> paths[i] != paths[j])
    && (forall i :: 0 <= i < |paths| && |paths[i]| > 1 ==> paths[i][..|paths[i]| - 1] in paths[..i])
  }

  lemma ListedAt(fs: FileSystem, root: Root, paths: seq<Path>, i: nat)
    requires Listing(fs, root, paths) && i < |paths|
    ensures paths[i] != [] && ValidPath(paths[i]) && Exists(fs, root.volume, root.dirs + paths[i])
    ensures paths[i] !in paths[..i]
    ensures |paths[i]| > 1 ==> paths[i][..|paths[i]| - 1] in paths[..i]
  {
  }

  function TextsOf(paths: seq<Path>): (texts: seq<string>)
    ensures |texts| == |paths| && forall i :: 0 <= i < |paths| ==> texts[i] == Text(paths[i])
  {
    seq(|paths|, i requires 0 <= i < |paths| => Text(paths[i]))
  }

  lemma TargetIs(fs: FileSystem, root: Root, q: Path)
    requires q != [] && ValidPath(q)
    ensures Target(fs, root, Text(q)) == Resolve(fs, root.volume, root.dirs + q)
    ensures Split(Text(q), '\\') == q
  {
    SplitJoin(q, '\\');
  }

  lemma {:induction false} EntityNames(settings: Settings, name: string, mode: int, data: seq<byte>)
    ensures forall c :: c in DataStream(settings, name, mode, data) ==> c.relativePath == name
    decreases |data|
  {
    if PieceSize(data) > 0 {
      EntityNames(settings, name, mode, data[PieceSize(data)..]);
    }
  }

  /** The chunks of one path are next to each other: no other chunk comes between two of them. */
  lemma {:induction false} ChunksContiguous(fs: FileSystem, root: Root, settings: Settings, paths: seq<Path>, i: nat, j: nat, k: nat)
    requires Listing(fs, root, paths)
    requires i <= j <= k < |Stream(fs, root, settings, TextsOf(paths))|
    requires
      var stream := Stream(fs, root, settings, TextsOf(paths));
      stream[i].relativePath == stream[k].relativePath
    ensures
      var stream := Stream(fs, root, settings, TextsOf(paths));
      stream[j].relativePath == stream[i].relativePath
    decreases |paths|
  {
    hide Resolve, Split, EntityStream, ValidPath, Text, Listing, Name;
    if paths != [] {
      var n := |paths| - 1;
      assert TextsOf(paths)[..n] == TextsOf(paths[..n]);
      var before, last := Stream(fs, root, settings, TextsOf(paths[..n])), EntityStream(fs, root, settings, Text(paths[n]));
      assert Stream(fs, root, settings, TextsOf(paths)) == before + last;
      ListingPrefix(fs, root, paths, n);
      ListedAt(fs, root, paths, n);
      EntityNamed(fs, root, settings, paths[n]);
      assert forall m :: 0 <= m < |last| ==> last[m] in last;
      assert forall m :: 0 <= m < n ==> paths[m] in paths[..n];
      if k < |before| {
        ChunksContiguous(fs, root, settings, paths[..n], i, j, k);
      } else if i < |before| {
        NamedAfter(fs, root, settings, paths[..n], i);
        var m :| 0 <= m < n && before[i].relativePath == Name(paths[..n][m]);
        ListedAt(fs, root, paths, m);
        NamesDiffer(paths[m], paths[n]);
        assert false;
      }
    }
  }

  lemma ListingPrefix(fs: FileSystem, root: Root, paths: seq<Path>, n: nat)
    requires Listing(fs, root, paths) && n <= |paths|
    ensures Listing(fs, root, paths[..n])
  {
    hide ValidPath, Resolve, Exists;
    var part := paths[..n];
    forall i | 0 <= i < n
      ensures part[i] == paths[i] && part[..i] == paths[..i]
    {
    }
    forall i | 0 <= i < n
      ensures part[i] != [] && ValidPath(part[i]) && Exists(fs, root.volume, root.dirs + part[i])
      ensures |part[i]| > 1 ==> part[i][..|part[i]| - 1] in part[..i]
    {
      ListedAt(fs, root, paths, i);
    }
  }

  lemma EntityNamed(fs: FileSystem, root: Root, settings: Settings, q: Path)
    requires q != [] && ValidPath(q)
    ensures forall c :: c in EntityStream(fs, root, settings, Text(q)) ==> c.relativePath == Name(q)
  {
    hide DataStream, Resolve, Split, SentName, FileMode;
    NameIsSent(q);
    var id := Target(fs, root, Text(q));
    if id.Some? && fs.nodes[id.value].File? {
      var data := fs.nodes[id.value].data;
      EntityNames(settings, Name(q), FileMode(settings, data, Text(q)), data);
    }
  }

  lemma {:induction false} NamedAfter(fs: FileSystem, root: Root, settings: Settings, paths: seq<Path>, i: nat)
    requires Listing(fs, root, paths) && i < |Stream(fs, root, settings, TextsOf(paths))|
    ensures exists m :: 0 <= m < |paths| && Stream(fs, root, settings, TextsOf(paths))[i].relativePath == Name(paths[m])
    decreases |paths|
  {
    hide Resolve, Split, EntityStream, ValidPath, Text, Name, Listing;
    if paths != [] {
      var n := |paths| - 1;
      assert TextsOf(paths)[..n] == TextsOf(paths[..n]);
      var before, last := Stream(fs, root, settings, TextsOf(paths[..n])), EntityStream(fs, root, settings, Text(paths[n]));
      assert Stream(fs, root, settings, TextsOf(paths)) == before + last;
      if i < |before| {
        ListingPrefix(fs, root, paths, n);
        NamedAfter(fs, root, settings, paths[..n], i);
        var m :| 0 <= m < n && before[i].relativePath == Name(paths[..n][m]);
        assert paths[..n][m] == paths[m];
      } else {
        ListedAt(fs, root, paths, n);
        EntityNamed(fs, root, settings, paths[n]);
        assert last[i - |before|] in last;
      }
    }
  }
}
