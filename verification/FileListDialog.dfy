/** Rebuilding the tree of a transfer from its list of paths (`FileListDialog::loadPaths`). */
module FileListDialog {
  import opened Options
  import opened Database
  import opened Paths

  /** An item of the tree list: the item it was appended to, or the root, and its element. */
  datatype Item = Item(parent: Option<nat>, element: TransferElement)

  /** `FolderInfo`: the item of a folder, and its path with a slash; the root has no path. */
  datatype Level = Level(item: Option<nat>, relativePath: string)

  const ROOT := Level(None, "")

  function FolderText(path: string): string {
    if EndsWith(path, "/") then path else path + "/"
  }

  predicate IsFolder(elements: seq<TransferElement>, j: nat)
    requires j < |elements|
  {
    elements[j].elementType == FOLDER
  }

  /** The levels that are left after popping for a path. */
  function Popped(stack: seq<Level>, path: string): (rest: seq<Level>)
    ensures rest <= stack
  {
    if stack == [] then []
    else if Contains(path, stack[|stack| - 1].relativePath) then stack
    else Popped(stack[..|stack| - 1], path)
  }

  /** The stack after the first n elements. */
  function StackAfter(elements: seq<TransferElement>, n: nat): (stack: seq<Level>)
    requires n <= |elements|
  {
    if n == 0 then [ROOT]
    else
      var rest := Popped(StackAfter(elements, n - 1), elements[n - 1].relativePath);
      if IsFolder(elements, n - 1) then rest + [Level(Some(n - 1), FolderText(elements[n - 1].relativePath))] else rest
  }

  /** The item that element i is appended to. */
  function ParentOf(elements: seq<TransferElement>, i: nat): Option<nat>
    requires i < |elements|
  {
    var rest := Popped(StackAfter(elements, i), elements[i].relativePath);
    if rest == [] then None else rest[|rest| - 1].item
  }

  lemma EmptyContained(s: string)
    ensures Contains(s, "")
  {
    assert OccursAt(s, "", 0);
  }

  lemma {:induction false} RootStays(stack: seq<Level>, path: string)
    requires stack != [] && stack[0] == ROOT
    ensures Popped(stack, path) != [] && Popped(stack, path)[0] == ROOT
  {
    EmptyContained(path);
    if |stack| > 1 {
      RootStays(stack[..|stack| - 1], path);
    }
  }

  /** The inner loop: pops until the path contains the text of the top. */
  method Pop(stack: seq<Level>, path: string) returns (folderLevels: seq<Level>)
    ensures folderLevels == Popped(stack, path)
  {
    hide Contains;
    folderLevels := stack;
    while folderLevels != []
      invariant Popped(folderLevels, path) == Popped(stack, path)
      decreases |folderLevels|
    {
      if Contains(path, folderLevels[|folderLevels| - 1].relativePath) {
        break;
      }
      folderLevels := folderLevels[..|folderLevels| - 1];
    }
  }

  /** The loop over the elements: one item for each in order, appended where the stack says, and
      the stack is never empty when its top is read. */
  method LoadPaths(elements: seq<TransferElement>) returns (items: seq<Item>)
    ensures |items| == |elements|
    ensures forall i :: 0 <= i < |elements| ==> items[i] == Item(ParentOf(elements, i), elements[i])
  {
    hide Contains, StackAfter, ParentOf, FolderText, Popped;
    items := [];
    var folderLevels := [ROOT];
    NoElements(elements);
    for i := 0 to |elements|
      invariant folderLevels == StackAfter(elements, i) && folderLevels != [] && folderLevels[0] == ROOT
      invariant |items| == i && forall k :: 0 <= k < i ==> items[k] == Item(ParentOf(elements, k), elements[k])
    {
      var path := elements[i];
      RootStays(folderLevels, path.relativePath);
      StackNext(elements, i);
      ParentNext(elements, i);
      folderLevels := Pop(folderLevels, path.relativePath);
      items := items + [Item(folderLevels[|folderLevels| - 1].item, path)];
      if path.elementType == FOLDER {
        folderLevels := folderLevels + [Level(Some(i), FolderText(path.relativePath))];
      }
    }
  }

  lemma NoElements(elements: seq<TransferElement>)
    ensures StackAfter(elements, 0) == [ROOT]
  {
  }

  lemma StackNext(elements: seq<TransferElement>, i: nat)
    requires i < |elements|
    ensures StackAfter(elements, i + 1) ==
      var rest := Popped(StackAfter(elements, i), elements[i].relativePath);
      if IsFolder(elements, i) then rest + [Level(Some(i), FolderText(elements[i].relativePath))] else rest
  {
  }

  lemma ParentNext(elements: seq<TransferElement>, i: nat)
    requires i < |elements| && Popped(StackAfter(elements, i), elements[i].relativePath) != []
    ensures
      var rest := Popped(StackAfter(elements, i), elements[i].relativePath);
      ParentOf(elements, i) == rest[|rest| - 1].item
  {
  }

  // ----- which levels are on the stack -------------------------------------------------

  /** Every path after folder j, up to entry n, contains the folder's text. */
  ghost predicate Kept(elements: seq<TransferElement>, j: nat, n: nat)
    requires n <= |elements|
  {
    && j < n && IsFolder(elements, j)
    && forall m :: j < m < n ==> Contains(elements[m].relativePath, FolderText(elements[j].relativePath))
  }

  /** The same up to and with entry i. */
  ghost predicate KeptFor(elements: seq<TransferElement>, j: nat, i: nat)
    requires i < |elements|
  {
    Kept(elements, j, i) && Contains(elements[i].relativePath, FolderText(elements[j].relativePath))
  }

  ghost predicate OnStack(stack: seq<Level>, j: nat) {
    exists k :: 0 <= k < |stack| && stack[k].item == Some(j)
  }

  /** Each level's text contains those below it. */
  ghost predicate Chain(stack: seq<Level>) {
    forall k, l :: 0 <= k <= l < |stack| ==> Contains(stack[l].relativePath, stack[k].relativePath)
  }

  /** Above the root are folders, in the order of the list. */
  ghost predicate Ordered(elements: seq<TransferElement>, stack: seq<Level>, n: nat)
    requires n <= |elements|
  {
    && stack != [] && stack[0] == ROOT
    && (forall k :: 1 <= k < |stack| ==>
         stack[k].item.Some? && stack[k].item.value < n
         && stack[k].relativePath == FolderText(elements[stack[k].item.value].relativePath))
    && (forall k, l :: 1 <= k < l < |stack| ==> stack[k].item.value < stack[l].item.value)
  }

  lemma ContainsTransitive(a: string, b: string, c: string)
    requires Contains(a, b) && Contains(b, c)
    ensures Contains(a, c)
  {
    var k :| 0 <= k <= |a| - |b| && OccursAt(a, b, k);
    var l :| 0 <= l <= |b| - |c| && OccursAt(b, c, l);
    assert forall x :: 0 <= x < |c| ==> a[k + l + x] == b[l + x] == c[x] by {
      assert forall y :: 0 <= y < |b| ==> a[k + y] == a[k..k + |b|][y] == b[y];
      assert forall x :: 0 <= x < |c| ==> b[l + x] == b[l..l + |c|][x] == c[x];
    }
    assert a[k + l..k + l + |c|] == c;
    assert OccursAt(a, c, k + l);
  }

  lemma ContainsItself(s: string)
    ensures Contains(s, s)
  {
    assert OccursAt(s, s, 0);
  }

  lemma FolderTextContains(path: string)
    ensures Contains(FolderText(path), path)
  {
    assert OccursAt(FolderText(path), path, 0);
  }

  /** Popping keeps exactly the levels whose text is contained in the path. */
  lemma {:induction false} PoppedExactly(stack: seq<Level>, path: string)
    requires Chain(stack)
    ensures forall k :: 0 <= k < |stack| ==> (k < |Popped(stack, path)| <==> Contains(path, stack[k].relativePath))
  {
    hide Contains;
    if stack != [] {
      var top := |stack| - 1;
      if Contains(path, stack[top].relativePath) {
        forall k | 0 <= k < |stack|
          ensures Contains(path, stack[k].relativePath)
        {
          ContainsTransitive(path, stack[top].relativePath, stack[k].relativePath);
        }
      } else {
        PoppedExactly(stack[..top], path);
        forall k | 0 <= k < |stack|
          ensures k < |Popped(stack, path)| <==> Contains(path, stack[k].relativePath)
        {
          assert k < top ==> stack[..top][k] == stack[k];
        }
      }
    }
  }

  lemma PushChain(stack: seq<Level>, path: string, item: nat)
    requires Chain(stack)
    requires forall k :: 0 <= k < |stack| ==> Contains(path, stack[k].relativePath)
    ensures Chain(stack + [Level(Some(item), FolderText(path))])
  {
    hide Contains, FolderText;
    ContainsItself(FolderText(path));
    FolderTextContains(path);
    forall k | 0 <= k < |stack|
      ensures Contains(FolderText(path), stack[k].relativePath)
    {
      ContainsTransitive(FolderText(path), path, stack[k].relativePath);
    }
  }

  lemma PoppedOrdered(elements: seq<TransferElement>, stack: seq<Level>, rest: seq<Level>, n: nat)
    requires n < |elements| && Ordered(elements, stack, n) && rest <= stack && rest != []
    ensures Ordered(elements, rest, n + 1)
    ensures IsFolder(elements, n) ==>
      Ordered(elements, rest + [Level(Some(n), FolderText(elements[n].relativePath))], n + 1)
  {
    hide FolderText;
    assert rest[0] == stack[0];
    assert forall k :: 0 <= k < |rest| ==> rest[k] == stack[k];
  }

  lemma PoppedChain(elements: seq<TransferElement>, stack: seq<Level>, n: nat)
    requires n < |elements| && Chain(stack)
    ensures
      var rest := Popped(stack, elements[n].relativePath);
      && Chain(rest)
      && Chain(rest + [Level(Some(n), FolderText(elements[n].relativePath))])
  {
    hide Contains, FolderText, Popped;
    var path := elements[n].relativePath;
    var rest := Popped(stack, path);
    PoppedExactly(stack, path);
    forall k | 0 <= k < |rest|
      ensures rest[k] == stack[k] && Contains(path, rest[k].relativePath)
    {
    }
    PushChain(rest, path, n);
  }

  lemma {:induction false} StackOrdered(elements: seq<TransferElement>, n: nat)
    requires n <= |elements|
    ensures Ordered(elements, StackAfter(elements, n), n) && Chain(StackAfter(elements, n))
  {
    hide FolderText, Popped, Ordered, Chain;
    if n == 0 {
      StartOrdered(elements);
    } else {
      var before, path := StackAfter(elements, n - 1), elements[n - 1].relativePath;
      StackOrdered(elements, n - 1);
      OrderedRoot(elements, before, n - 1);
      RootStays(before, path);
      PoppedOrdered(elements, before, Popped(before, path), n - 1);
      PoppedChain(elements, before, n - 1);
    }
  }

  lemma StartOrdered(elements: seq<TransferElement>)
    ensures Ordered(elements, [ROOT], 0) && Chain([ROOT])
  {
    ContainsItself("");
  }

  lemma OrderedRoot(elements: seq<TransferElement>, stack: seq<Level>, n: nat)
    requires n <= |elements| && Ordered(elements, stack, n)
    ensures stack != [] && stack[0] == ROOT
  {
  }

  lemma KeptNext(elements: seq<TransferElement>, j: nat, n: nat)
    requires n < |elements|
    ensures Kept(elements, j, n + 1) <==> KeptFor(elements, j, n) || (j == n && IsFolder(elements, n))
  {
    hide Contains, FolderText;
  }

  lemma PoppedOnStack(elements: seq<TransferElement>, n: nat, stack: seq<Level>, j: nat)
    requires n < |elements| && Ordered(elements, stack, n) && Chain(stack)
    requires OnStack(stack, j) <==> Kept(elements, j, n)
    ensures OnStack(Popped(stack, elements[n].relativePath), j) <==> KeptFor(elements, j, n)
  {
    hide Contains, FolderText, Kept, Popped, Chain;
    var rest := Popped(stack, elements[n].relativePath);
    PoppedExactly(stack, elements[n].relativePath);
    if OnStack(stack, j) {
      var k :| 0 <= k < |stack| && stack[k].item == Some(j);
      assert k < |rest| <==> Contains(elements[n].relativePath, FolderText(elements[j].relativePath));
      if k < |rest| {
        assert rest[k].item == Some(j);
      }
    }
    if OnStack(rest, j) {
      var k :| 0 <= k < |rest| && rest[k].item == Some(j);
      assert stack[k].item == Some(j);
      assert Contains(elements[n].relativePath, stack[k].relativePath);
    }
  }

  lemma PushedOnStack(rest: seq<Level>, level: Level, j: nat)
    ensures OnStack(rest + [level], j) <==> OnStack(rest, j) || level.item == Some(j)
  {
    if OnStack(rest, j) {
      var k :| 0 <= k < |rest| && rest[k].item == Some(j);
      assert (rest + [level])[k].item == Some(j);
    }
    assert (rest + [level])[|rest|] == level;
  }

  /** Folder j is on the stack exactly while every path since then contained its text. */
  lemma {:induction false} StackExactly(elements: seq<TransferElement>, n: nat, j: nat)
    requires n <= |elements|
    ensures OnStack(StackAfter(elements, n), j) <==> Kept(elements, j, n)
  {
    hide Contains, FolderText, Kept, KeptFor, Popped, Ordered, Chain;
    if n == 0 {
      NothingKept(elements, j);
    } else {
      var before := StackAfter(elements, n - 1);
      StackExactly(elements, n - 1, j);
      StackOrdered(elements, n - 1);
      PoppedOnStack(elements, n - 1, before, j);
      KeptNext(elements, j, n - 1);
      PushedOnStack(Popped(before, elements[n - 1].relativePath), Level(Some(n - 1), FolderText(elements[n - 1].relativePath)), j);
    }
  }

  lemma NothingKept(elements: seq<TransferElement>, j: nat)
    ensures !Kept(elements, j, 0)
  {
  }

  /** Every element is appended to the last folder before it whose text every path since then,
      and its own, contains; without one, to the root. */
  lemma ParentExactly(elements: seq<TransferElement>, i: nat)
    requires i < |elements|
    ensures
      match ParentOf(elements, i)
      case Some(j) => j < i && KeptFor(elements, j, i) && forall k: nat :: KeptFor(elements, k, i) ==> k <= j
      case None => forall k: nat :: !KeptFor(elements, k, i)
  {
    hide Contains, FolderText, Kept, KeptFor, Popped, Chain;
    var before, path := StackAfter(elements, i), elements[i].relativePath;
    var rest := Popped(before, path);
    StackOrdered(elements, i);
    RootStays(before, path);
    var top := |rest| - 1;
    forall k: nat
      ensures KeptFor(elements, k, i) <==> OnStack(rest, k)
    {
      StackExactly(elements, i, k);
      PoppedOnStack(elements, i, before, k);
    }
    assert rest[top] == before[top];
    if top > 0 {
      assert OnStack(rest, rest[top].item.value);
    }
    forall k: nat | OnStack(rest, k)
      ensures top > 0 && k <= rest[top].item.value
    {
      var l :| 0 <= l < |rest| && rest[l].item == Some(k);
      assert before[l] == rest[l];
    }
  }
}
