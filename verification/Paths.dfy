// Absolute paths as stacks of components.
//
// The file system works on clean absolute path strings.  Here such a path is the
// sequence of its components, `[]` being "/", and the cleaning that Go's
// `path.Clean` and `path.Join` do is a fold over the '/'-separated pieces of the text.
module Paths {

  // A string of bytes: every char stands for one byte.
  type Bytes = string

  type Path = seq<string>

  // What a single component of a clean path looks like.
  predicate ValidName(name: string) {
    name != "" && name != "." && name != ".." && '/' !in name
  }

  predicate Clean(p: Path) {
    forall i :: 0 <= i < |p| ==> ValidName(p[i])
  }

  function Parent(p: Path): Path {
    if p == [] then [] else p[..|p| - 1]
  }

  // `path.Base` of a clean absolute path.
  function Base(p: Path): string {
    if p == [] then "/" else p[|p| - 1]
  }

  function Split(s: string): (pieces: seq<string>)
    ensures |pieces| >= 1
    ensures forall i :: 0 <= i < |pieces| ==> '/' !in pieces[i]
  {
    if s == "" then [""]
    else
      var rest := Split(s[1..]);
      if s[0] == '/' then [""] + rest else [[s[0]] + rest[0]] + rest[1..]
  }

  // One step of cleaning: "" and "." vanish, ".." pops (and "/.." is "/").
  function Push(stack: Path, piece: string): Path {
    if piece == "" || piece == "." then stack
    else if piece == ".." then Parent(stack)
    else stack + [piece]
  }

  function Fold(stack: Path, pieces: seq<string>): Path
    decreases |pieces|
  {
    if pieces == [] then stack else Fold(Push(stack, pieces[0]), pieces[1..])
  }

  predicate IsAbsolute(s: string) {
    s != "" && s[0] == '/'
  }

  // The clean absolute path that text `s` names when read in directory `dir`.
  function Against(dir: Path, s: string): Path {
    Fold(if IsAbsolute(s) then [] else dir, Split(s))
  }

  // The text of a clean path.
  function Show(p: Path): string {
    if p == [] then "/" else "/" + Joined(p)
  }

  function Joined(p: Path): string
    requires p != []
  {
    if |p| == 1 then p[0] else p[0] + "/" + Joined(p[1..])
  }

  lemma {:induction false} FoldIsClean(stack: Path, pieces: seq<string>)
    requires Clean(stack)
    requires forall i :: 0 <= i < |pieces| ==> '/' !in pieces[i]
    ensures Clean(Fold(stack, pieces))
    decreases |pieces|
  {
    if pieces != [] {
      FoldIsClean(Push(stack, pieces[0]), pieces[1..]);
    }
  }

  lemma AgainstIsClean(dir: Path, s: string)
    requires Clean(dir)
    ensures Clean(Against(dir, s))
  {
    FoldIsClean(if IsAbsolute(s) then [] else dir, Split(s));
  }

  lemma {:induction false} SplitPlain(name: string)
    requires '/' !in name
    ensures Split(name) == [name]
  {
    if name != "" {
      SplitPlain(name[1..]);
      assert name[0] != '/';
      assert [name[0]] + name[1..] == name;
    }
  }

  // What one more character in front does to the pieces.
  function Prefixed(c: char, pieces: seq<string>): seq<string>
    requires pieces != []
  {
    if c == '/' then [""] + pieces else [[c] + pieces[0]] + pieces[1..]
  }

  lemma PrefixedConcat(c: char, x: seq<string>, y: seq<string>)
    requires x != []
    ensures Prefixed(c, x + y) == Prefixed(c, x) + y
  {
    if c != '/' {
      assert (x + y)[1..] == x[1..] + y;
    }
  }

  lemma SplitCons(s: string, tail: string)
    requires s != "" && s[1..] == tail
    ensures Split(s) == Prefixed(s[0], Split(tail))
  {}

  lemma {:induction false} SplitConcat(a: string, b: string)
    ensures Split(a + "/" + b) == Split(a) + Split(b)
  {
    var s := a + "/" + b;
    if a == "" {
      SplitCons(s, b);
    } else {
      SplitConcat(a[1..], b);
      SplitCons(a, a[1..]);
      SplitCons(s, a[1..] + "/" + b);
      PrefixedConcat(a[0], Split(a[1..]), Split(b));
    }
  }

  lemma {:induction false} FoldConcat(stack: Path, a: seq<string>, b: seq<string>)
    ensures Fold(stack, a + b) == Fold(Fold(stack, a), b)
    decreases |a|
  {
    if a == [] {
      assert a + b == b;
    } else {
      assert (a + b)[1..] == a[1..] + b;
      FoldConcat(Push(stack, a[0]), a[1..], b);
    }
  }

  // "dir/name" names the entry `name` of what "dir" names.
  lemma AgainstEntry(dir: Path, s: string, name: string)
    requires s != "" && ValidName(name)
    ensures Against(dir, s + "/" + name) == Against(dir, s) + [name]
  {
    SplitConcat(s, name);
    SplitPlain(name);
    var start := if IsAbsolute(s) then [] else dir;
    FoldConcat(start, Split(s), [name]);
    assert Fold(Fold(start, Split(s)), [name]) == Fold(Fold(start, Split(s)) + [name], []);
  }

  // A text read on from what another text names.
  lemma AgainstComposes(dir: Path, s: string, t: string)
    requires s != "" && !IsAbsolute(t)
    ensures Against(dir, s + "/" + t) == Against(Against(dir, s), t)
  {
    SplitConcat(s, t);
    FoldConcat(if IsAbsolute(s) then [] else dir, Split(s), Split(t));
  }

  // A leading slash starts over at the root.
  lemma AgainstAbsolute(dir: Path, t: string)
    ensures Against(dir, "/" + t) == Against([], t)
  {
    SplitConcat("", t);
    assert "" + "/" + t == "/" + t;
    FoldConcat([], [""], Split(t));
    assert Fold([], [""]) == Fold([], []) == [];
  }

  // A text without a slash: dot-dot is the parent, dot and nothing are the directory
  // itself, and any other is an entry.
  lemma AgainstPiece(dir: Path, piece: string)
    requires '/' !in piece
    ensures Against(dir, "..") == if dir == [] then [] else dir[..|dir| - 1]
    ensures Against(dir, ".") == Against(dir, "") == dir
    ensures ValidName(piece) ==> Against(dir, piece) == dir + [piece]
  {
    SplitPlain("..");
    SplitPlain(".");
    SplitPlain("");
    SplitPlain(piece);
    FoldOne(dir, "..");
    FoldOne(dir, ".");
    FoldOne(dir, "");
    FoldOne(dir, piece);
  }

  lemma FoldOne(stack: Path, piece: string)
    ensures Fold(stack, [piece]) == Push(stack, piece)
  {
    assert Fold(stack, [piece]) == Fold(Push(stack, piece), []);
  }

  // Dot-dot behind any text is the parent of what the text names, dot and a final slash
  // change nothing.
  lemma AgainstDots(dir: Path, s: string)
    requires s != ""
    ensures Against(dir, s + "/..") == Parent(Against(dir, s))
    ensures Against(dir, s + "/.") == Against(dir, s + "/") == Against(dir, s)
  {
    assert s + "/.." == s + "/" + ".." && s + "/." == s + "/" + "." && s + "/" == s + "/" + "";
    AgainstComposes(dir, s, "..");
    AgainstComposes(dir, s, ".");
    AgainstComposes(dir, s, "");
    AgainstPiece(Against(dir, s), "");
  }

  // Going into an entry and up again leads back.
  lemma EntryAndUp(dir: Path, s: string, name: string)
    requires s != "" && ValidName(name)
    ensures Against(dir, s + "/" + name + "/..") == Against(dir, s)
  {
    AgainstDots(dir, s + "/" + name);
    AgainstEntry(dir, s, name);
  }

  lemma {:induction false} SplitJoined(p: Path)
    requires p != [] && Clean(p)
    ensures Split(Joined(p)) == p
  {
    if |p| == 1 {
      SplitPlain(p[0]);
    } else {
      SplitJoined(p[1..]);
      SplitConcat(p[0], Joined(p[1..]));
      SplitPlain(p[0]);
    }
  }

  lemma {:induction false} FoldClean(stack: Path, p: Path)
    requires Clean(p)
    ensures Fold(stack, p) == stack + p
    decreases |p|
  {
    if p != [] {
      FoldClean(stack + [p[0]], p[1..]);
      assert stack + [p[0]] + p[1..] == stack + p;
    }
  }

  // Cleaning leaves the text of a clean path alone, in whichever directory it is read.
  lemma ShowIsFixed(dir: Path, p: Path)
    requires Clean(p)
    ensures Against(dir, Show(p)) == p
  {
    if p == [] {
      assert Split("/") == [""] + Split("");
      assert Split("/") == ["", ""];
      assert Fold([], ["", ""]) == Fold([], [""]) == [];
    } else {
      var s := Show(p);
      assert s == "" + "/" + Joined(p);
      SplitConcat("", Joined(p));
      SplitJoined(p);
      assert Split(s) == [""] + p;
      assert ([""] + p)[1..] == p;
      FoldClean([], p);
      assert [] + p == p;
    }
  }
}
