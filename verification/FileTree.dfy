/** A finite file system as a graph: directories may be reached on many paths, and links may
    form cycles. */
module FileTree {
  import opened Options
  import opened Paths

  newtype byte = x: int | 0 <= x < 256

  datatype Entry = Entry(name: string, hidden: bool, target: nat)
  datatype Node = Dir(entries: seq<Entry>) | File(data: seq<byte>)

  /** The nodes by number, and the root directory of each volume. */
  datatype FileSystem = FileSystem(nodes: map<nat, Node>, volumes: map<string, nat>)

  /** Names are valid, and distinct within a directory. */
  ghost predicate WellFormed(fs: FileSystem) {
    forall id :: id in fs.nodes && fs.nodes[id].Dir? ==> WellNamed(fs.nodes[id].entries)
  }

  ghost predicate WellNamed(entries: seq<Entry>) {
    && (forall i :: 0 <= i < |entries| ==> ValidName(entries[i].name))
    && (forall i, j :: 0 <= i < j < |entries| ==> entries[i].name != entries[j].name)
  }

  function Find(entries: seq<Entry>, name: string): (found: Option<Entry>)
    ensures found.Some? ==> found.value in entries && found.value.name == name
    ensures found.None? ==> forall e :: e in entries ==> e.name != name
  {
    if entries == [] then None
    else if entries[0].name == name then Some(entries[0])
    else Find(entries[1..], name)
  }

  lemma {:induction false} FindListed(entries: seq<Entry>, i: nat)
    requires WellNamed(entries) && i < |entries|
    ensures Find(entries, entries[i].name) == Some(entries[i])
  {
    if i > 0 {
      assert entries[0].name != entries[i].name;
      FindListed(entries[1..], i - 1);
    }
  }

  /** The node that a path leads to, starting from a node. */
  function Follow(fs: FileSystem, id: nat, path: Path): (found: Option<nat>)
    ensures found.Some? ==> found.value in fs.nodes
    decreases |path|
  {
    if id !in fs.nodes then None
    else if path == [] then Some(id)
    else match fs.nodes[id]
      case File(_) => None
      case Dir(entries) =>
        var entry := Find(entries, path[0]);
        if entry.None? then None else Follow(fs, entry.value.target, path[1..])
  }

  function Resolve(fs: FileSystem, volume: string, path: Path): (found: Option<nat>)
    ensures found.Some? ==> found.value in fs.nodes
  {
    if volume in fs.volumes then Follow(fs, fs.volumes[volume], path) else None
  }

  predicate Exists(fs: FileSystem, volume: string, path: Path) {
    Resolve(fs, volume, path).Some?
  }

  predicate DirExists(fs: FileSystem, volume: string, path: Path) {
    var id := Resolve(fs, volume, path);
    id.Some? && fs.nodes[id.value].Dir?
  }

  predicate FileExists(fs: FileSystem, volume: string, path: Path) {
    var id := Resolve(fs, volume, path);
    id.Some? && fs.nodes[id.value].File?
  }

  lemma {:induction false} FollowAppend(fs: FileSystem, id: nat, a: Path, b: Path)
    ensures Follow(fs, id, a + b) ==
      var middle := Follow(fs, id, a);
      if middle.Some? then Follow(fs, middle.value, b) else None
    decreases |a|
  {
    if a == [] {
      assert a + b == b;
    } else if id in fs.nodes && fs.nodes[id].Dir? {
      assert (a + b)[1..] == a[1..] + b;
      var entry := Find(fs.nodes[id].entries, a[0]);
      if entry.Some? {
        FollowAppend(fs, entry.value.target, a[1..], b);
      }
    }
  }

  lemma ResolveAppend(fs: FileSystem, volume: string, a: Path, b: Path)
    ensures Resolve(fs, volume, a + b) ==
      var middle := Resolve(fs, volume, a);
      if middle.Some? then Follow(fs, middle.value, b) else None
  {
    if volume in fs.volumes {
      FollowAppend(fs, fs.volumes[volume], a, b);
    }
  }

  /** What exists has existing ancestors, and they are directories. */
  lemma AncestorsExist(fs: FileSystem, volume: string, a: Path, b: Path)
    requires Exists(fs, volume, a + b)
    ensures Exists(fs, volume, a)
    ensures b != [] ==> DirExists(fs, volume, a)
  {
    ResolveAppend(fs, volume, a, b);
  }

  /** A listed entry leads to its target, if that exists. */
  lemma ResolveEntry(fs: FileSystem, volume: string, location: Path, entry: Entry)
    requires WellFormed(fs) && DirExists(fs, volume, location)
    requires entry in fs.nodes[Resolve(fs, volume, location).value].entries
    ensures Resolve(fs, volume, location + [entry.name]) == if entry.target in fs.nodes then Some(entry.target) else None
  {
    var id := Resolve(fs, volume, location).value;
    ResolveAppend(fs, volume, location, [entry.name]);
    var i :| 0 <= i < |fs.nodes[id].entries| && fs.nodes[id].entries[i] == entry;
    FindListed(fs.nodes[id].entries, i);
    assert Follow(fs, id, [entry.name]) == Follow(fs, entry.target, []);
  }

  // ----- the tree below a node ---------------------------------------------------------

  const MAX_RECURSION_DEPTH := 256
  const BLOCK_SIZE := 4096

  /** What a directory listing shows. */
  function Listed(entries: seq<Entry>, sendHidden: bool): (shown: seq<Entry>)
    ensures forall e :: e in shown <==> e in entries && (sendHidden || !e.hidden)
  {
    if entries == [] then []
    else if sendHidden || !entries[0].hidden then [entries[0]] + Listed(entries[1..], sendHidden)
    else Listed(entries[1..], sendHidden)
  }

  lemma {:induction false} ListedWellNamed(entries: seq<Entry>, sendHidden: bool)
    requires WellNamed(entries)
    ensures WellNamed(Listed(entries, sendHidden))
  {
    if entries != [] {
      ListedWellNamed(entries[1..], sendHidden);
      var rest := Listed(entries[1..], sendHidden);
      forall i | 0 <= i < |rest|
        ensures rest[i].name != entries[0].name
      {
        assert rest[i] in rest;
        var k :| 0 <= k < |entries[1..]| && entries[1..][k] == rest[i];
        assert entries[k + 1] == rest[i];
      }
    }
  }

  /** One node met on the way, under its relative path. */
  datatype Visit = Visit(path: Path, node: Node) {
    /** What the crawler adds to the total: a block per directory, whole blocks per file. */
    function Cost(): nat {
      if node.Dir? then BLOCK_SIZE else (|node.data| + BLOCK_SIZE - 1) / BLOCK_SIZE * BLOCK_SIZE
    }
  }

  /** Something is listed more than 256 levels below. */
  predicate TooDeep(fs: FileSystem, id: nat, sendHidden: bool, level: nat)
    decreases MAX_RECURSION_DEPTH + 1 - level
  {
    if level > MAX_RECURSION_DEPTH then true
    else
      && id in fs.nodes && fs.nodes[id].Dir?
      && exists e :: e in Listed(fs.nodes[id].entries, sendHidden) && TooDeep(fs, e.target, sendHidden, level + 1)
  }

  /** The nodes below a node in depth-first order, each directory before what it holds. */
  function Tree(fs: FileSystem, id: nat, path: Path, sendHidden: bool, level: nat): seq<Visit>
    requires level <= MAX_RECURSION_DEPTH + 1
    decreases MAX_RECURSION_DEPTH + 1 - level, 0
  {
    if level > MAX_RECURSION_DEPTH || id !in fs.nodes then []
    else match fs.nodes[id]
      case File(_) => [Visit(path, fs.nodes[id])]
      case Dir(entries) =>
        var shown := Listed(entries, sendHidden);
        [Visit(path, fs.nodes[id])] + Forest(fs, shown, |shown|, path, sendHidden, level)
  }

  function Forest(fs: FileSystem, shown: seq<Entry>, n: nat, path: Path, sendHidden: bool, level: nat): seq<Visit>
    requires level <= MAX_RECURSION_DEPTH && n <= |shown|
    decreases MAX_RECURSION_DEPTH - level, 1, n
  {
    if n == 0 then []
    else
      Forest(fs, shown, n - 1, path, sendHidden, level) +
      Tree(fs, shown[n - 1].target, path + [shown[n - 1].name], sendHidden, level + 1)
  }

  /** The same for what a path leads to, if anything. */
  predicate TooDeepAt(fs: FileSystem, found: Option<nat>, sendHidden: bool, level: nat) {
    level > MAX_RECURSION_DEPTH || (found.Some? && TooDeep(fs, found.value, sendHidden, level))
  }

  function TreeAt(fs: FileSystem, found: Option<nat>, path: Path, sendHidden: bool, level: nat): seq<Visit>
    requires level <= MAX_RECURSION_DEPTH + 1
  {
    if found.Some? then Tree(fs, found.value, path, sendHidden, level) else []
  }

  lemma ChildTree(fs: FileSystem, target: nat, path: Path, sendHidden: bool, level: nat)
    requires level <= MAX_RECURSION_DEPTH
    ensures
      var found := if target in fs.nodes then Some(target) else None;
      && TreeAt(fs, found, path, sendHidden, level + 1) == Tree(fs, target, path, sendHidden, level + 1)
      && (TooDeepAt(fs, found, sendHidden, level + 1) <==> TooDeep(fs, target, sendHidden, level + 1))
  {
  }

  function TotalCost(visits: seq<Visit>): nat {
    if visits == [] then 0 else TotalCost(visits[..|visits| - 1]) + visits[|visits| - 1].Cost()
  }

  lemma {:induction false} TotalCostJoin(a: seq<Visit>, b: seq<Visit>)
    ensures TotalCost(a + b) == TotalCost(a) + TotalCost(b)
  {
    if b == [] {
      assert a + b == a;
    } else {
      assert (a + b)[..|a + b| - 1] == a + b[..|b| - 1];
      TotalCostJoin(a, b[..|b| - 1]);
    }
  }

  function PathsOf(visits: seq<Visit>): set<Path> {
    set v | v in visits :: v.path
  }

  lemma PathsOfJoin(a: seq<Visit>, b: seq<Visit>)
    ensures PathsOf(a + b) == PathsOf(a) + PathsOf(b)
  {
    assert forall v :: v in a + b <==> v in a || v in b;
  }

  lemma PathsOfOne(v: Visit)
    ensures PathsOf([v]) == {v.path}
  {
    assert v in [v];
  }

  /** A path through listed entries leads from the node to an existing one. */
  predicate Reaches(fs: FileSystem, id: nat, path: Path, sendHidden: bool)
    decreases |path|
  {
    id in fs.nodes &&
    (path == [] ||
     (&& fs.nodes[id].Dir?
      && var entry := Find(fs.nodes[id].entries, path[0]);
         entry.Some? && (sendHidden || !entry.value.hidden) && Reaches(fs, entry.value.target, path[1..], sendHidden)))
  }

  lemma {:induction false} ReachesFollows(fs: FileSystem, id: nat, path: Path, sendHidden: bool)
    requires Reaches(fs, id, path, sendHidden)
    ensures Follow(fs, id, path).Some?
    decreases |path|
  {
    if path != [] {
      var entry := Find(fs.nodes[id].entries, path[0]).value;
      ReachesFollows(fs, entry.target, path[1..], sendHidden);
    }
  }
}
