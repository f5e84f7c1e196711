/** Which permissions the chunks of a stream carry. */
module FileModes {
  import opened Paths
  import opened FileTree
  import opened FileCrawler
  import opened FileSender
  import opened TransferReceiver
  import opened StreamRoundTrip

  /** A sent name of one character, one that ends in "py" or "sh", or the ELF magic number. */
  predicate LooksExecutable(name: string, first: seq<byte>) {
    || |name| == 1
    || (|name| >= 2 && name[|name| - 2..] in {"py", "sh"})
    || (|first| >= 4 && first[..4] == [0x7F, 0x45, 0x4C, 0x46])
  }

  /** The first chunk of a path. */
  predicate IsFirst(stream: seq<FileChunk>, f: nat, name: string) {
    f < |stream| && stream[f].relativePath == name && forall g :: 0 <= g < f ==> stream[g].relativePath != name
  }

  lemma TwoAtEnd(text: string, end: string)
    requires |end| == 2
    ensures EndsWith(text, end) <==> |text| >= 2 && text[|text| - 2] == end[0] && text[|text| - 1] == end[1]
  {
    if |text| >= 2 {
      assert text[|text| - 2..] == [text[|text| - 2], text[|text| - 1]];
    }
  }

  lemma EndsAlike(a: string, b: string, end: string)
    requires |a| == |b| && |end| == 2 && '\\' !in end && '/' !in end
    requires forall k :: 0 <= k < |a| ==> b[k] == if a[k] == '\\' then '/' else a[k]
    ensures EndsWith(a, end) <==> |b| >= 2 && b[|b| - 2..] == end
  {
    hide EndsWith;
    TwoAtEnd(a, end);
    if |b| >= 2 {
      assert b[|b| - 2..] == [b[|b| - 2], b[|b| - 1]] && end == [end[0], end[1]];
    }
  }

  lemma ElfMagic(data: seq<byte>)
    ensures ElfHeader(data) <==> |data| >= 4 && data[..4] == [0x7F, 0x45, 0x4C, 0x46]
  {
    if |data| >= 4 {
      assert data[..4] == [data[0], data[1], data[2], data[3]];
    }
  }

  lemma SameJudgement(relativePath: string, first: seq<byte>)
    ensures Executable(first, relativePath) <==> LooksExecutable(SentName(relativePath), first)
  {
    hide EndsWith, ElfHeader, Replace;
    var name := SentName(relativePath);
    EndsAlike(relativePath, name, "py");
    EndsAlike(relativePath, name, "sh");
    ElfMagic(first);
  }

  /** The mode a chunk must have, given the first chunk of its path. */
  predicate RightMode(settings: Settings, config: Config, c: FileChunk, first: FileChunk) {
    && c.fileType in {RegularFile, Directory}
    && (c.fileType == Directory ==> c.fileMode == settings.dirPerms)
    && (c.fileType == RegularFile ==>
          c.fileMode == if LooksExecutable(c.relativePath, config.Unpacked(first.chunk)) then settings.execPerms else settings.filePerms)
  }

  lemma EntityModes(fs: FileSystem, root: Root, settings: Settings, config: Config, q: Path, k: nat)
    requires Linked(settings, config) && q != [] && ValidPath(q) && Exists(fs, root.volume, root.dirs + q)
    requires k < |EntityStream(fs, root, settings, Text(q))|
    ensures
      var entity := EntityStream(fs, root, settings, Text(q));
      entity[0].relativePath == entity[k].relativePath == Name(q) && RightMode(settings, config, entity[k], entity[0])
  {
    hide Linked, DataStream, Executable, LooksExecutable, Resolve, Split, SentName, Text, ValidPath, Slice, Config.Unpacked;
    var entity := EntityStream(fs, root, settings, Text(q));
    NameIsSent(q);
    match fs.nodes[Target(fs, root, Text(q)).value] {
      case File(data) =>
        var mode := FileMode(settings, data, Text(q));
        FileChunks(settings, config, Name(q), mode, data);
        FirstSlice(data);
        SameJudgement(Text(q), data[..PieceSize(data)]);
        assert entity[k] == FileChunk(Name(q), RegularFile, "", entity[k].chunk, mode);
        assert config.Unpacked(entity[0].chunk) == Slice(data, 0);
      case Dir(_) =>
    }
  }

  lemma FirstSlice(data: seq<byte>)
    ensures Slice(data, 0) == data[..PieceSize(data)]
  {
  }

  lemma FirstOfJoined(before: seq<FileChunk>, last: seq<FileChunk>, f: nat, i: nat)
    requires f <= i < |before + last| && IsFirst(before + last, f, (before + last)[i].relativePath)
    ensures i < |before| ==> IsFirst(before, f, before[i].relativePath)
    ensures |before| <= f && last[0].relativePath == last[i - |before|].relativePath ==> f == |before|
  {
    var all := before + last;
    assert i < |before| ==> all[i] == before[i];
    assert i >= |before| ==> all[|before|] == last[0] && all[i] == last[i - |before|];
    if i < |before| {
      forall g | 0 <= g < f
        ensures before[g].relativePath != before[i].relativePath
      {
        assert all[g] == before[g];
      }
    }
  }

  /** In the stream of a listing every chunk of a file has the mode of executables if the name
      under which it is sent, or the first chunk of the file, calls for it, and otherwise that of
      plain files; every chunk of a directory has that of directories. */
  lemma {:induction false} ModesExactly(fs: FileSystem, root: Root, settings: Settings, config: Config, paths: seq<Path>, i: nat, f: nat)
    requires Linked(settings, config) && Listing(fs, root, paths)
    requires f <= i < |Stream(fs, root, settings, TextsOf(paths))|
    requires
      var stream := Stream(fs, root, settings, TextsOf(paths));
      IsFirst(stream, f, stream[i].relativePath)
    ensures
      var stream := Stream(fs, root, settings, TextsOf(paths));
      RightMode(settings, config, stream[i], stream[f])
    decreases |paths|
  {
    hide Resolve, Split, EntityStream, ValidPath, Text, Listing, Name, Linked, RightMode;
    if paths != [] {
      var n := |paths| - 1;
      assert TextsOf(paths)[..n] == TextsOf(paths[..n]);
      var before, last := Stream(fs, root, settings, TextsOf(paths[..n])), EntityStream(fs, root, settings, Text(paths[n]));
      assert Stream(fs, root, settings, TextsOf(paths)) == before + last;
      ListingPrefix(fs, root, paths, n);
      FirstOfJoined(before, last, f, i);
      if i < |before| {
        ModesExactly(fs, root, settings, config, paths[..n], i, f);
      } else {
        ListedAt(fs, root, paths, n);
        EntityModes(fs, root, settings, config, paths[n], i - |before|);
        if f < |before| {
          EarlierDiffers(fs, root, settings, paths, f);
        }
        assert f == |before|;
      }
    }
  }

  /** What is sent before the last path does not carry its name. */
  lemma EarlierDiffers(fs: FileSystem, root: Root, settings: Settings, paths: seq<Path>, f: nat)
    requires Listing(fs, root, paths) && paths != []
    requires f < |Stream(fs, root, settings, TextsOf(paths[..|paths| - 1]))|
    ensures Stream(fs, root, settings, TextsOf(paths[..|paths| - 1]))[f].relativePath != Name(paths[|paths| - 1])
  {
    hide Resolve, Split, Stream, ValidPath, Text, Listing, Name;
    var n := |paths| - 1;
    ListingPrefix(fs, root, paths, n);
    NamedAfter(fs, root, settings, paths[..n], f);
    var m :| 0 <= m < n && Stream(fs, root, settings, TextsOf(paths[..n]))[f].relativePath == Name(paths[..n][m]);
    assert paths[..n][m] == paths[m] && paths[m] in paths[..n];
    ListedAt(fs, root, paths, n);
    ListedAt(fs, root, paths, m);
    if Name(paths[m]) == Name(paths[n]) {
      NamesDiffer(paths[m], paths[n]);
    }
  }
}
