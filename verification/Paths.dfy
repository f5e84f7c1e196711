/** Paths as sequences of names, their text with a separator, and the order of texts. */
module Paths {

  type Path = seq<string>

  /** A name that a directory entry can have. */
  predicate ValidName(name: string) {
    && name != [] && name != "." && name != ".."
    && '\\' !in name && '/' !in name && ':' !in name
  }

  predicate ValidPath(path: Path) {
    forall i :: 0 <= i < |path| ==> ValidName(path[i])
  }

  // ----- text --------------------------------------------------------------------------

  function Join(path: Path, separator: char): string {
    if path == [] then []
    else if |path| == 1 then path[0]
    else path[0] + [separator] + Join(path[1..], separator)
  }

  /** The text before the first separator, or all of it. */
  function BeforeFirst(s: string, separator: char): (first: string)
    ensures first <= s && separator !in first
    ensures |first| < |s| ==> s[|first|] == separator
  {
    if s == [] || s[0] == separator then [] else [s[0]] + BeforeFirst(s[1..], separator)
  }

  /** The names between the separators. */
  function Split(s: string, separator: char): Path
    decreases |s|
  {
    var first := BeforeFirst(s, separator);
    if |first| == |s| then [s] else [first] + Split(s[|first| + 1..], separator)
  }

  function Replace(s: string, from: char, to: char): (t: string)
    ensures |t| == |s|
    ensures forall i :: 0 <= i < |s| ==> t[i] == if s[i] == from then to else s[i]
  {
    seq(|s|, i requires 0 <= i < |s| => if s[i] == from then to else s[i])
  }

  predicate OccursAt(s: string, part: string, k: int) {
    0 <= k <= |s| - |part| && s[k..k + |part|] == part
  }

  predicate Contains(s: string, part: string) {
    exists k :: 0 <= k <= |s| - |part| && OccursAt(s, part, k)
  }

  predicate EndsWith(s: string, end: string) {
    |end| <= |s| && s[|s| - |end|..] == end
  }

  lemma {:induction false} FirstOf(name: string, rest: string, separator: char)
    requires separator !in name && (rest == [] || rest[0] == separator)
    ensures BeforeFirst(name + rest, separator) == name
  {
    if name == [] {
      assert name + rest == rest;
    } else {
      assert (name + rest)[1..] == name[1..] + rest;
      FirstOf(name[1..], rest, separator);
    }
  }

  /** The first name of a path, read from its text. */
  lemma JoinFirst(path: Path, separator: char)
    requires path != [] && separator !in path[0]
    ensures BeforeFirst(Join(path, separator), separator) == path[0]
  {
    if |path| == 1 {
      assert path[0] + [] == path[0];
      FirstOf(path[0], [], separator);
    } else {
      assert Join(path, separator) == path[0] + ([separator] + Join(path[1..], separator));
      FirstOf(path[0], [separator] + Join(path[1..], separator), separator);
    }
  }

  /** Splitting a path's text gives the path back. */
  lemma {:induction false} SplitJoin(path: Path, separator: char)
    requires path != [] && forall i :: 0 <= i < |path| ==> separator !in path[i]
    ensures Split(Join(path, separator), separator) == path
  {
    JoinFirst(path, separator);
    if |path| > 1 {
      SplitJoin(path[1..], separator);
      assert Join(path, separator)[|path[0]| + 1..] == Join(path[1..], separator);
    }
  }

  lemma JoinInjective(a: Path, b: Path, separator: char)
    requires a != [] && b != [] && Join(a, separator) == Join(b, separator)
    requires forall i :: 0 <= i < |a| ==> separator !in a[i]
    requires forall i :: 0 <= i < |b| ==> separator !in b[i]
    ensures a == b
  {
    SplitJoin(a, separator);
    SplitJoin(b, separator);
  }

  lemma {:induction false} JoinAppend(a: Path, b: Path, separator: char)
    requires a != [] && b != []
    ensures Join(a + b, separator) == Join(a, separator) + [separator] + Join(b, separator)
  {
    if |a| == 1 {
      assert (a + b)[1..] == b;
    } else {
      assert (a + b)[1..] == a[1..] + b;
      JoinAppend(a[1..], b, separator);
    }
  }

  /** Changing the separator in the text changes the separator of the path. */
  lemma {:induction false} ReplaceJoin(path: Path, from: char, to: char)
    requires forall i :: 0 <= i < |path| ==> from !in path[i]
    ensures Replace(Join(path, from), from, to) == Join(path, to)
  {
    if |path| > 1 {
      ReplaceJoin(path[1..], from, to);
    }
  }

  /** One path lies strictly below another exactly when its text continues with a separator. */
  predicate Below(s: string, parent: string, separator: char) {
    |parent| < |s| && s[..|parent|] == parent && s[|parent|] == separator
  }

  lemma BelowIsPrefix(a: Path, b: Path, separator: char)
    requires a != [] && b != []
    requires forall i :: 0 <= i < |a| ==> separator !in a[i]
    requires forall i :: 0 <= i < |b| ==> separator !in b[i]
    ensures Below(Join(b, separator), Join(a, separator), separator) <==> a < b
  {
    hide BeforeFirst, Split, Join;
    var s, t := Join(a, separator), Join(b, separator);
    if a < b {
      JoinAppend(a, b[|a|..], separator);
      assert b == a + b[|a|..];
      assert t == s + [separator] + Join(b[|a|..], separator);
    }
    if Below(t, s, separator) {
      SplitAppend(s, t[|s| + 1..], separator);
      assert t == s + [separator] + t[|s| + 1..];
      SplitJoin(a, separator);
      SplitJoin(b, separator);
    }
  }

  lemma {:induction false} FirstOfMore(s: string, t: string, separator: char)
    ensures BeforeFirst(s + [separator] + t, separator) == BeforeFirst(s, separator)
  {
    if s == [] {
      assert (s + [separator] + t)[0] == separator;
    } else {
      assert (s + [separator] + t)[1..] == s[1..] + [separator] + t;
      FirstOfMore(s[1..], t, separator);
    }
  }

  lemma {:induction false} SplitAppend(s: string, t: string, separator: char)
    ensures Split(s + [separator] + t, separator) == Split(s, separator) + Split(t, separator)
    ensures Split(t, separator) != []
    decreases |s|
  {
    hide BeforeFirst;
    var n, whole := |BeforeFirst(s, separator)|, s + [separator] + t;
    FirstOfMore(s, t, separator);
    if n == |s| {
      assert whole[n + 1..] == t && BeforeFirst(s, separator) == s;
      assert Split(whole, separator) == [s] + Split(t, separator);
    } else {
      SplitAppend(s[n + 1..], t, separator);
      assert whole[n + 1..] == s[n + 1..] + [separator] + t;
      assert Split(whole, separator) == [BeforeFirst(s, separator)] + Split(whole[n + 1..], separator);
    }
  }

  // ----- the order of `std::wstring` ---------------------------------------------------

  predicate Less(a: string, b: string) {
    if b == [] then false
    else if a == [] then true
    else if a[0] != b[0] then a[0] < b[0]
    else Less(a[1..], b[1..])
  }

  lemma {:induction false} LessTotal(a: string, b: string)
    ensures !Less(a, a)
    ensures Less(a, b) ==> !Less(b, a) && a != b
    ensures a != b ==> Less(a, b) || Less(b, a)
  {
    if a != [] {
      LessTotal(a[1..], a[1..]);
      if b != [] && a[0] == b[0] {
        LessTotal(a[1..], b[1..]);
        assert a == [a[0]] + a[1..] && b == [b[0]] + b[1..];
      }
    }
  }

  lemma {:induction false} LessTransitive(a: string, b: string, c: string)
    requires Less(a, b) && Less(b, c)
    ensures Less(a, c)
  {
    if a != [] && a[0] == b[0] && b[0] == c[0] {
      LessTransitive(a[1..], b[1..], c[1..]);
    }
  }

  /** A prefix comes first. */
  lemma {:induction false} PrefixLess(a: string, b: string)
    requires a < b
    ensures Less(a, b)
  {
    if a != [] {
      PrefixLess(a[1..], b[1..]);
    }
  }

  /** Whatever lies between a text and one of its continuations is a continuation too. */
  lemma {:induction false} BetweenContinues(a: string, m: string, b: string)
    requires a <= b && Less(a, m) && Less(m, b)
    ensures a < m
  {
    if a != [] {
      BetweenContinues(a[1..], m[1..], b[1..]);
    }
  }

  /** The first character after a common prefix decides. */
  lemma {:induction false} LessAfterPrefix(p: string, a: string, b: string)
    requires p <= a && p <= b
    ensures Less(a, b) <==> Less(a[|p|..], b[|p|..])
  {
    if p != [] {
      LessAfterPrefix(p[1..], a[1..], b[1..]);
      assert a[1..][|p| - 1..] == a[|p|..] && b[1..][|p| - 1..] == b[|p|..];
    } else {
      assert a[|p|..] == a && b[|p|..] == b;
    }
  }

  // ----- `std::set<std::wstring>`: ascending, without duplicates -----------------------

  predicate Ascending(s: seq<string>) {
    forall i, j :: 0 <= i < j < |s| ==> Less(s[i], s[j])
  }

  function Inserted(s: seq<string>, x: string): (t: seq<string>)
    ensures forall y :: y in t <==> y in s || y == x
  {
    if s == [] then [x]
    else if s[0] == x then s
    else if Less(x, s[0]) then [x] + s
    else [s[0]] + Inserted(s[1..], x)
  }

  lemma {:induction false} InsertedAscending(s: seq<string>, x: string)
    requires Ascending(s)
    ensures Ascending(Inserted(s, x))
  {
    if s != [] && s[0] != x {
      LessTotal(s[0], x);
      var t := Inserted(s[1..], x);
      if Less(x, s[0]) {
        forall i | 0 <= i < |s|
          ensures Less(x, s[i])
        {
          if i > 0 {
            LessTransitive(x, s[0], s[i]);
          }
        }
      } else {
        InsertedAscending(s[1..], x);
        forall i | 0 <= i < |t|
          ensures Less(s[0], t[i])
        {
          assert t[i] in t;
          if t[i] != x {
            var k :| 0 <= k < |s[1..]| && s[1..][k] == t[i];
            assert s[k + 1] == t[i];
          }
        }
      }
    }
  }
}
