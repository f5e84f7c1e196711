/** What a crawl job reports, in terms of the dropped elements and the file tree. */
module CrawlResult {
  import opened Paths
  import opened FileTree
  import opened CrawlProperties
  import opened FileCrawler

  // ----- the two paths stay in step ----------------------------------------------------

  /** No element lies above the root. */
  ghost predicate BelowRoot(root: Root, elements: seq<Dropped>) {
    forall i :: 0 <= i < |elements| ==> root.dirs <= elements[i].dirs
  }

  function Relative(root: Root, d: Dropped): Path
    requires root.dirs <= d.dirs
  {
    d.Whole()[|root.dirs|..]
  }

  ghost predicate InStep(root: Root, w: Walk) {
    w.location == root.dirs + w.relative
  }

  lemma CommonAtLeast(a: Path, b: Path, prefix: Path)
    requires prefix <= a && prefix <= b
    ensures CommonLength(a, b) >= |prefix|
  {
    var n := CommonLength(a, b);
    assert forall k :: 0 <= k < |prefix| ==> a[k] == prefix[k] == b[k];
  }

  lemma StepStaysInStep(fs: FileSystem, root: Root, sendHidden: bool, w: Walk, d: Dropped)
    requires InStep(root, w) && root.dirs <= d.dirs
    ensures
      var after := Step(fs, root.volume, sendHidden, w, d.dirs, d.name);
      && InStep(root, after) && after.location == d.Whole() && after.relative == Relative(root, d)
      && Base(w, d.dirs) == d.dirs[|root.dirs|..CommonLength(w.location, d.dirs)]
      && |root.dirs| <= CommonLength(w.location, d.dirs)
  {
    hide TreeAt, NewAncestors, FileTree.PathsOf, Resolve;
    CommonAtLeast(w.location, d.dirs, root.dirs);
    var n := CommonLength(w.location, d.dirs);
    assert w.relative == w.location[|root.dirs|..];
    assert w.location[..n] == d.dirs[..n];
    assert Base(w, d.dirs) == w.location[..n][|root.dirs|..];
    assert d.Whole()[|root.dirs|..] == d.dirs[..n][|root.dirs|..] + d.dirs[n..] + [d.name];
  }

  /** While no element lies above the root, the walk is where its relative path says. */
  lemma {:induction false} WalkInStep(fs: FileSystem, root: Root, sendHidden: bool, elements: seq<Dropped>, n: nat)
    requires n <= |elements| && BelowRoot(root, elements)
    ensures InStep(root, WalkAfter(fs, root, sendHidden, elements, n))
    ensures n > 0 ==>
      && WalkAfter(fs, root, sendHidden, elements, n).location == elements[n - 1].Whole()
      && WalkAfter(fs, root, sendHidden, elements, n).relative == Relative(root, elements[n - 1])
  {
    hide Step;
    if n > 0 {
      WalkInStep(fs, root, sendHidden, elements, n - 1);
      StepStaysInStep(fs, root, sendHidden, WalkAfter(fs, root, sendHidden, elements, n - 1), elements[n - 1]);
    }
  }

  /** An element with a trailing separator that is the root itself. */
  ghost predicate IsRootItself(root: Root, d: Dropped) {
    d.trailing && d.Whole() == root.dirs
  }

  lemma OthersBelowRoot(root: Root, elements: seq<Dropped>)
    requires CommonPrefix(root.dirs, elements)
    requires forall d :: d in elements ==> !IsRootItself(root, d)
    ensures BelowRoot(root, elements)
  {
    forall i | 0 <= i < |elements|
      ensures root.dirs <= elements[i].dirs
    {
      var d := elements[i];
      assert d in elements && root.dirs <= d.WxDirs();
      assert root.dirs <= d.Whole();
      assert |root.dirs| == |d.Whole()| <==> root.dirs == d.Whole();
    }
  }

  ghost predicate AlwaysInStep(fs: FileSystem, root: Root, sendHidden: bool, elements: seq<Dropped>) {
    forall n :: 0 <= n <= |elements| ==> InStep(root, WalkAfter(fs, root, sendHidden, elements, n))
  }

  /** Exactly when the two paths stay in step: no element with a trailing separator is the
      root itself. */
  lemma InStepExactly(fs: FileSystem, root: Root, sendHidden: bool, elements: seq<Dropped>)
    requires CommonPrefix(root.dirs, elements)
    ensures AlwaysInStep(fs, root, sendHidden, elements) <==> forall d :: d in elements ==> !IsRootItself(root, d)
  {
    hide Step, InStep, CommonPrefix, IsRootItself;
    if AlwaysInStep(fs, root, sendHidden, elements) {
      forall d | d in elements
        ensures !IsRootItself(root, d)
      {
        var i :| 0 <= i < |elements| && elements[i] == d;
        var n := i + 1;
        assert InStep(root, WalkAfter(fs, root, sendHidden, elements, n));
        if IsRootItself(root, d) {
          OutOfStep(fs, root, sendHidden, WalkAfter(fs, root, sendHidden, elements, i), d);
        }
      }
    }
    if forall d :: d in elements ==> !IsRootItself(root, d) {
      OthersBelowRoot(root, elements);
      forall n | 0 <= n <= |elements|
        ensures InStep(root, WalkAfter(fs, root, sendHidden, elements, n))
      {
        WalkInStep(fs, root, sendHidden, elements, n);
      }
    }
  }

  lemma OutOfStep(fs: FileSystem, root: Root, sendHidden: bool, w: Walk, d: Dropped)
    requires IsRootItself(root, d)
    ensures !InStep(root, Step(fs, root.volume, sendHidden, w, d.dirs, d.name))
  {
    hide TreeAt, NewAncestors, FileTree.PathsOf, Resolve;
    var after := Step(fs, root.volume, sendHidden, w, d.dirs, d.name);
    assert |after.relative| > 0 && |after.location| == |root.dirs|;
  }

  // ----- the emitted paths -------------------------------------------------------------

  /** A relative path that belongs to a dropped element: on the way to it, or in its subtree. */
  ghost predicate BelongsTo(fs: FileSystem, root: Root, sendHidden: bool, d: Dropped, q: Path)
    requires root.dirs <= d.dirs
  {
    var r, id := Relative(root, d), Resolve(fs, root.volume, d.Whole());
    q != [] && (q <= r || (r <= q && id.Some? && Reaches(fs, id.value, q[|r|..], sendHidden)))
  }

  /** The elements exist, lie below the root, and nothing in them is nested too deep. */
  ghost predicate Sound(fs: FileSystem, root: Root, sendHidden: bool, elements: seq<Dropped>) {
    && WellFormed(fs) && BelowRoot(root, elements)
    && forall i :: 0 <= i < |elements| ==>
         var id := Resolve(fs, root.volume, elements[i].Whole());
         id.Some? && !TooDeep(fs, id.value, sendHidden, 0)
  }

  lemma PrefixParts(r: Path, n: nat, q: Path)
    requires n <= |r|
    ensures q <= r <==> q <= r[..n] || exists k :: n < k <= |r| && q == r[..k]
  {
    if q <= r {
      assert q == r[..|q|];
      if |q| <= n {
        assert q <= r[..n];
      }
    }
  }

  lemma AncestorsAre(root: Root, d: Dropped, from: nat, q: Path)
    requires root.dirs <= d.dirs && |root.dirs| <= from <= |d.dirs|
    ensures q in NewAncestors(d.dirs[|root.dirs|..from], d.dirs, from)
       <==> exists k :: from - |root.dirs| < k < |Relative(root, d)| && q == Relative(root, d)[..k]
  {
    var m, r := |root.dirs|, Relative(root, d);
    var base := d.dirs[m..from];
    forall k | from < k <= |d.dirs|
      ensures base + d.dirs[from..k] == r[..k - m]
    {
    }
    if q in NewAncestors(base, d.dirs, from) {
      var k :| from < k <= |d.dirs| && q == base + d.dirs[from..k];
      assert q == r[..k - m];
    }
    if k :| from - m < k < |r| && q == r[..k] {
      assert q == base + d.dirs[from..k + m];
    }
  }

  /** One step emits what belongs to its element, beyond what is on the common way. */
  lemma StepEmits(fs: FileSystem, root: Root, sendHidden: bool, w: Walk, d: Dropped, q: Path)
    requires WellFormed(fs) && InStep(root, w) && root.dirs <= d.dirs
    requires var id := Resolve(fs, root.volume, d.Whole()); id.Some? && !TooDeep(fs, id.value, sendHidden, 0)
    ensures
      var common := Relative(root, d)[..CommonLength(w.location, d.dirs) - |root.dirs|];
      && |root.dirs| <= CommonLength(w.location, d.dirs)
      && (q in Step(fs, root.volume, sendHidden, w, d.dirs, d.name).emitted <==>
            q in w.emitted || (BelongsTo(fs, root, sendHidden, d, q) && !(q <= common)))
  {
    hide NewAncestors, FileTree.PathsOf, Resolve, Tree, TooDeep, WellFormed;
    StepStaysInStep(fs, root, sendHidden, w, d);
    var id, r := Resolve(fs, root.volume, d.Whole()).value, Relative(root, d);
    var from := CommonLength(w.location, d.dirs);
    var n := from - |root.dirs|;
    SubtreeExactly(fs, id, r, sendHidden, q);
    AncestorsAre(root, d, from, q);
    PrefixParts(r, n, q);
    assert q in PathsOf(Tree(fs, id, r, sendHidden, 0)) ==> !(q <= r[..n]);
    if q == r {
      assert q[|r|..] == [];
      assert Reaches(fs, id, [], sendHidden);
    }
    assert forall k :: n < k <= |r| ==> !(r[..k] <= r[..n]);
  }

  lemma WithinRelative(fs: FileSystem, root: Root, sendHidden: bool, d: Dropped, q: Path)
    requires root.dirs <= d.dirs && q != [] && q <= Relative(root, d)
    ensures BelongsTo(fs, root, sendHidden, d, q)
  {
  }

  lemma CommonWay(root: Root, w: Walk, d: Dropped)
    requires InStep(root, w) && root.dirs <= d.dirs
    ensures |root.dirs| <= CommonLength(w.location, d.dirs)
    ensures Relative(root, d)[..CommonLength(w.location, d.dirs) - |root.dirs|] <= w.relative
  {
    CommonAtLeast(w.location, d.dirs, root.dirs);
    var n := CommonLength(w.location, d.dirs);
    assert w.relative == w.location[|root.dirs|..];
    assert Relative(root, d)[..n - |root.dirs|] == d.dirs[..n][|root.dirs|..];
    assert w.relative[..n - |root.dirs|] == w.location[..n][|root.dirs|..];
  }

  /** The job emits exactly what belongs to some element: the directories on the way to it and
      its subtree. */
  lemma {:induction false} EmittedExactly(fs: FileSystem, root: Root, sendHidden: bool, elements: seq<Dropped>, n: nat, q: Path)
    requires n <= |elements| && Sound(fs, root, sendHidden, elements)
    ensures q in WalkAfter(fs, root, sendHidden, elements, n).emitted
       <==> exists i :: 0 <= i < n && BelongsTo(fs, root, sendHidden, elements[i], q)
  {
    hide Step, BelongsTo, WellFormed, TooDeep, Resolve, InStep;
    if n > 0 {
      var w, d := WalkAfter(fs, root, sendHidden, elements, n - 1), elements[n - 1];
      EmittedExactly(fs, root, sendHidden, elements, n - 1, q);
      WalkInStep(fs, root, sendHidden, elements, n - 1);
      StepEmits(fs, root, sendHidden, w, d, q);
      CommonWay(root, w, d);
      var common := Relative(root, d)[..CommonLength(w.location, d.dirs) - |root.dirs|];
      if q <= common && BelongsTo(fs, root, sendHidden, d, q) {
        NotEmpty(fs, root, sendHidden, d, q);
        assert q <= w.relative;
        if n > 1 {
          WithinRelative(fs, root, sendHidden, elements[n - 2], q);
        } else {
          StartOfWalk(fs, root, sendHidden, elements);
        }
      }
    }
  }

  lemma NotEmpty(fs: FileSystem, root: Root, sendHidden: bool, d: Dropped, q: Path)
    requires root.dirs <= d.dirs && BelongsTo(fs, root, sendHidden, d, q)
    ensures q != []
  {
  }

  lemma StartOfWalk(fs: FileSystem, root: Root, sendHidden: bool, elements: seq<Dropped>)
    ensures WalkAfter(fs, root, sendHidden, elements, 0).relative == []
  {
  }

  /** What is emitted is closed under directories on the way, and names what it came from. */
  lemma BelongsClosed(fs: FileSystem, root: Root, sendHidden: bool, d: Dropped, q: Path)
    requires root.dirs <= d.dirs && BelongsTo(fs, root, sendHidden, d, q) && Exists(fs, root.volume, d.Whole())
    ensures |q| > 1 ==> BelongsTo(fs, root, sendHidden, d, q[..|q| - 1])
    ensures Exists(fs, root.volume, root.dirs + q)
    ensures |q| > 1 ==> DirExists(fs, root.volume, root.dirs + q[..|q| - 1])
  {
    var r, id := Relative(root, d), Resolve(fs, root.volume, d.Whole()).value;
    assert d.Whole() == root.dirs + r;
    if q <= r {
      assert d.Whole() == (root.dirs + q) + r[|q|..];
      AncestorsExist(fs, root.volume, root.dirs + q, r[|q|..]);
    } else {
      var rest := q[|r|..];
      assert q == r + rest && root.dirs + q == d.Whole() + rest;
      ReachesFollows(fs, id, rest, sendHidden);
      ResolveAppend(fs, root.volume, d.Whole(), rest);
      ReachesPrefix(fs, id, rest, |rest| - 1, sendHidden);
      assert q[..|q| - 1] == r + rest[..|rest| - 1];
      assert q[..|q| - 1][|r|..] == rest[..|rest| - 1];
    }
    if |q| > 1 {
      assert root.dirs + q == (root.dirs + q[..|q| - 1]) + [q[|q| - 1]];
      AncestorsExist(fs, root.volume, root.dirs + q[..|q| - 1], [q[|q| - 1]]);
    }
  }

  lemma {:induction false} ReachesPrefix(fs: FileSystem, id: nat, path: Path, n: nat, sendHidden: bool)
    requires Reaches(fs, id, path, sendHidden) && n <= |path|
    ensures Reaches(fs, id, path[..n], sendHidden)
    decreases |path|
  {
    if n > 0 {
      ReachesPrefix(fs, Find(fs.nodes[id].entries, path[0]).value.target, path[1..], n - 1, sendHidden);
      assert path[..n][1..] == path[1..][..n - 1];
    }
  }
}
