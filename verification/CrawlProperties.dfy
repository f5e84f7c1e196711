/** What the depth-first walk collects, in terms of paths. */
module CrawlProperties {
  import opened Options
  import opened Paths
  import opened FileTree

  /** A path that can be read off the listings; its end need not exist. */
  predicate ListedPath(fs: FileSystem, id: nat, path: Path, sendHidden: bool)
    decreases |path|
  {
    path == [] ||
    (&& id in fs.nodes && fs.nodes[id].Dir?
     && var entry := Find(fs.nodes[id].entries, path[0]);
        entry.Some? && (sendHidden || !entry.value.hidden) && ListedPath(fs, entry.value.target, path[1..], sendHidden))
  }

  lemma EntryFound(fs: FileSystem, id: nat, entry: Entry)
    requires WellFormed(fs) && id in fs.nodes && fs.nodes[id].Dir? && entry in fs.nodes[id].entries
    ensures Find(fs.nodes[id].entries, entry.name) == Some(entry)
  {
    var i :| 0 <= i < |fs.nodes[id].entries| && fs.nodes[id].entries[i] == entry;
    FindListed(fs.nodes[id].entries, i);
  }

  lemma {:induction false} DeepPath(fs: FileSystem, id: nat, sendHidden: bool, level: nat) returns (path: Path)
    requires WellFormed(fs) && level <= MAX_RECURSION_DEPTH + 1 && TooDeep(fs, id, sendHidden, level)
    ensures |path| + level == MAX_RECURSION_DEPTH + 1 && ListedPath(fs, id, path, sendHidden)
    decreases MAX_RECURSION_DEPTH + 1 - level
  {
    hide WellFormed;
    path := [];
    if level <= MAX_RECURSION_DEPTH {
      var e :| e in Listed(fs.nodes[id].entries, sendHidden) && TooDeep(fs, e.target, sendHidden, level + 1);
      var rest := DeepPath(fs, e.target, sendHidden, level + 1);
      EntryFound(fs, id, e);
      path := [e.name] + rest;
      assert path[1..] == rest;
    }
  }

  lemma {:induction false} PathIsDeep(fs: FileSystem, id: nat, sendHidden: bool, level: nat, path: Path)
    requires level <= MAX_RECURSION_DEPTH + 1
    requires |path| + level == MAX_RECURSION_DEPTH + 1 && ListedPath(fs, id, path, sendHidden)
    ensures TooDeep(fs, id, sendHidden, level)
    decreases |path|
  {
    if path != [] {
      var e := Find(fs.nodes[id].entries, path[0]).value;
      PathIsDeep(fs, e.target, sendHidden, level + 1, path[1..]);
      assert e in Listed(fs.nodes[id].entries, sendHidden);
    }
  }

  /** The walk fails exactly when something is nested more than 256 levels below. */
  lemma TooDeepExactly(fs: FileSystem, id: nat, sendHidden: bool, level: nat)
    requires WellFormed(fs) && level <= 257
    ensures TooDeep(fs, id, sendHidden, level)
       <==> exists path :: |path| + level == 257 && ListedPath(fs, id, path, sendHidden)
  {
    hide WellFormed, TooDeep, ListedPath;
    if TooDeep(fs, id, sendHidden, level) {
      var path := DeepPath(fs, id, sendHidden, level);
    }
    forall path | |path| + level == MAX_RECURSION_DEPTH + 1 && ListedPath(fs, id, path, sendHidden)
      ensures TooDeep(fs, id, sendHidden, level)
    {
      PathIsDeep(fs, id, sendHidden, level, path);
    }
  }

  lemma {:induction false} ReachesListed(fs: FileSystem, id: nat, path: Path, sendHidden: bool)
    requires Reaches(fs, id, path, sendHidden)
    ensures ListedPath(fs, id, path, sendHidden)
    decreases |path|
  {
    if path != [] {
      ReachesListed(fs, Find(fs.nodes[id].entries, path[0]).value.target, path[1..], sendHidden);
    }
  }

  lemma {:induction false} ListedPrefix(fs: FileSystem, id: nat, path: Path, n: nat, sendHidden: bool)
    requires ListedPath(fs, id, path, sendHidden) && n <= |path|
    ensures ListedPath(fs, id, path[..n], sendHidden)
    decreases |path|
  {
    if n > 0 {
      ListedPrefix(fs, Find(fs.nodes[id].entries, path[0]).value.target, path[1..], n - 1, sendHidden);
      assert path[..n][1..] == path[1..][..n - 1];
    }
  }

  /** A walk that succeeds has room for every path that reaches something. */
  lemma ReachesShallow(fs: FileSystem, id: nat, path: Path, sendHidden: bool, level: nat)
    requires WellFormed(fs) && level <= MAX_RECURSION_DEPTH + 1 && !TooDeep(fs, id, sendHidden, level)
    requires Reaches(fs, id, path, sendHidden)
    ensures |path| + level <= MAX_RECURSION_DEPTH
  {
    hide WellFormed, TooDeep, ListedPath, Reaches;
    TooDeepExactly(fs, id, sendHidden, level);
    ReachesListed(fs, id, path, sendHidden);
    if |path| + level > MAX_RECURSION_DEPTH {
      ListedPrefix(fs, id, path, MAX_RECURSION_DEPTH + 1 - level, sendHidden);
    }
  }

  lemma {:induction false} ForestPaths(fs: FileSystem, shown: seq<Entry>, n: nat, path: Path, sendHidden: bool, level: nat, q: Path)
    requires level <= MAX_RECURSION_DEPTH && n <= |shown|
    ensures q in PathsOf(Forest(fs, shown, n, path, sendHidden, level)) <==>
      exists i :: 0 <= i < n && q in PathsOf(Tree(fs, shown[i].target, path + [shown[i].name], sendHidden, level + 1))
  {
    hide Tree, PathsOf;
    NothingHasNoPaths();
    if n > 0 {
      ForestPaths(fs, shown, n - 1, path, sendHidden, level, q);
      PathsOfJoin(Forest(fs, shown, n - 1, path, sendHidden, level),
        Tree(fs, shown[n - 1].target, path + [shown[n - 1].name], sendHidden, level + 1));
    }
  }

  lemma NothingHasNoPaths()
    ensures PathsOf([]) == {}
  {
  }

  lemma {:induction false} ReachesFirst(fs: FileSystem, id: nat, path: Path, sendHidden: bool)
    requires WellFormed(fs) && id in fs.nodes && fs.nodes[id].Dir? && path != []
    ensures Reaches(fs, id, path, sendHidden) <==>
      exists e :: e in Listed(fs.nodes[id].entries, sendHidden) && e.name == path[0] && Reaches(fs, e.target, path[1..], sendHidden)
  {
    forall e | e in fs.nodes[id].entries
      ensures Find(fs.nodes[id].entries, e.name) == Some(e)
    {
      EntryFound(fs, id, e);
    }
  }

  lemma PrefixStep(path: Path, name: string, q: Path)
    ensures path + [name] <= q <==> path <= q && |path| < |q| && q[|path|] == name
    ensures path + [name] <= q ==> q[|path|..] == [name] + q[|path| + 1..]
  {
    if path <= q && |path| < |q| && q[|path|] == name {
      assert q == path + [name] + q[|path| + 1..];
    }
  }

  /** The walk collects exactly the paths that reach something within its depth. */
  lemma {:induction false} TreePaths(fs: FileSystem, id: nat, path: Path, sendHidden: bool, level: nat, q: Path)
    requires WellFormed(fs) && level <= MAX_RECURSION_DEPTH + 1
    ensures q in PathsOf(Tree(fs, id, path, sendHidden, level)) <==>
      path <= q && |q| - |path| + level <= MAX_RECURSION_DEPTH && Reaches(fs, id, q[|path|..], sendHidden)
    decreases MAX_RECURSION_DEPTH + 1 - level
  {
    hide PathsOf, Forest, Listed;
    NothingHasNoPaths();
    if level > MAX_RECURSION_DEPTH || id !in fs.nodes {
    } else if fs.nodes[id].File? {
      PathsOfOne(Visit(path, fs.nodes[id]));
      assert Tree(fs, id, path, sendHidden, level) == [Visit(path, fs.nodes[id])];
      assert q in PathsOf(Tree(fs, id, path, sendHidden, level)) <==> q == path;
      if path <= q {
        var rest := q[|path|..];
        assert q == path + rest;
        assert Reaches(fs, id, rest, sendHidden) <==> rest == [];
      }
    } else {
      var shown := Listed(fs.nodes[id].entries, sendHidden);
      var top := Visit(path, fs.nodes[id]);
      PathsOfOne(top);
      PathsOfJoin([top], Forest(fs, shown, |shown|, path, sendHidden, level));
      ForestPaths(fs, shown, |shown|, path, sendHidden, level, q);
      forall i | 0 <= i < |shown|
        ensures q in PathsOf(Tree(fs, shown[i].target, path + [shown[i].name], sendHidden, level + 1)) <==>
          && path <= q && |path| < |q| && q[|path|] == shown[i].name
          && |q| - |path| + level <= MAX_RECURSION_DEPTH && Reaches(fs, shown[i].target, q[|path| + 1..], sendHidden)
      {
        TreePaths(fs, shown[i].target, path + [shown[i].name], sendHidden, level + 1, q);
        PrefixStep(path, shown[i].name, q);
      }
      assert Tree(fs, id, path, sendHidden, level) == [top] + Forest(fs, shown, |shown|, path, sendHidden, level);
      if path < q {
        var rest := q[|path|..];
        ReachesFirst(fs, id, rest, sendHidden);
        assert rest[1..] == q[|path| + 1..] && rest[0] == q[|path|];
        if Reaches(fs, id, rest, sendHidden) {
          var e :| e in shown && e.name == rest[0] && Reaches(fs, e.target, rest[1..], sendHidden);
          var i :| 0 <= i < |shown| && shown[i] == e;
        }
      } else if q == path {
        assert q[|path|..] == [];
      }
    }
  }

  /** A successful walk collects exactly the subtree, hidden entries as the flag says. */
  lemma SubtreeExactly(fs: FileSystem, id: nat, path: Path, sendHidden: bool, q: Path)
    requires WellFormed(fs) && !TooDeep(fs, id, sendHidden, 0)
    ensures q in PathsOf(Tree(fs, id, path, sendHidden, 0)) <==> path <= q && Reaches(fs, id, q[|path|..], sendHidden)
  {
    TreePaths(fs, id, path, sendHidden, 0, q);
    if path <= q && Reaches(fs, id, q[|path|..], sendHidden) {
      ReachesShallow(fs, id, q[|path|..], sendHidden, 0);
    }
  }
}
