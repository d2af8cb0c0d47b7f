// What a removal does to every other spelling of the file system: which paths still
// resolve, and to what.
module VfsAliases {
  import opened Paths
  import opened Vfs
  import opened VfsRuns

  // The way of `abs`, or of a link target on it, meets a component at or below `key`.
  predicate Passes(st: State, abs: Path, follow: bool, depth: nat, key: Path)
    decreases MAX_LINK_DEPTH + 1 - depth, |abs| + 1, 0
  {
    depth <= MAX_LINK_DEPTH && (key <= abs || WalkPasses(st, abs, 0, st.root, follow, depth, key))
  }

  predicate WalkPasses(st: State, abs: Path, i: nat, node: Node, follow: bool, depth: nat, key: Path)
    requires i <= |abs| && depth <= MAX_LINK_DEPTH
    decreases MAX_LINK_DEPTH + 1 - depth, |abs| - i, 1
  {
    i < |abs| && (
      || NextPasses(st, abs, i, node, follow, depth, key)
      || (var next := Next(st, abs, i, node, follow, depth);
          next.Ok? && WalkPasses(st, abs, i + 1, next.value, follow, depth, key)))
  }

  predicate NextPasses(st: State, abs: Path, i: nat, node: Node, follow: bool, depth: nat, key: Path)
    requires i < |abs| && depth <= MAX_LINK_DEPTH
    decreases MAX_LINK_DEPTH + 1 - depth, |abs| - i, 0
  {
    node.Dir? && (
      var child := Child(st, abs[..i], node, abs[i]);
      && child.Ok? && child.value.Link? && (i < |abs| - 1 || follow)
      && Passes(st, Against(abs[..i], child.value.target), true, depth + 1, key))
  }

  // `b` is `a` with everything at and below `key` hidden.
  ghost predicate Hides(a: State, b: State, key: Path) {
    AgreeExcept(a, b, key) && key in b.deleted
  }

  lemma HiddenBelow(a: State, b: State, key: Path, abs: Path)
    requires Hides(a, b, key) && key <= abs
    ensures IsDeleted(b, abs)
  {
    assert abs[..|key|] == key;
    DeletedIff(b, abs);
  }

  // A lookup that succeeded fails now if its way passes the hidden path, and finds the
  // same node otherwise.
  lemma {:induction false} AliasLookup(a: State, b: State, key: Path, abs: Path, follow: bool, depth: nat)
    requires Hides(a, b, key) && Lookup(a, abs, follow, depth).Ok?
    ensures Passes(a, abs, follow, depth, key) ==> Lookup(b, abs, follow, depth).Err?
    ensures !Passes(a, abs, follow, depth, key) ==> Lookup(b, abs, follow, depth) == Lookup(a, abs, follow, depth)
    decreases MAX_LINK_DEPTH + 1 - depth, |abs| + 1, 0
  {
    if key <= abs {
      HiddenBelow(a, b, key, abs);
    } else {
      DeletedAgree(a, b, key, abs);
      AliasWalk(a, b, key, abs, 0, a.root, follow, depth);
    }
  }

  lemma {:induction false} AliasWalk(a: State, b: State, key: Path, abs: Path, i: nat, node: Node, follow: bool, depth: nat)
    requires Hides(a, b, key) && !(key <= abs)
    requires i <= |abs| && depth <= MAX_LINK_DEPTH && Walk(a, abs, i, node, follow, depth).Ok?
    ensures WalkPasses(a, abs, i, node, follow, depth, key) ==> Walk(b, abs, i, node, follow, depth).Err?
    ensures !WalkPasses(a, abs, i, node, follow, depth, key) ==>
      Walk(b, abs, i, node, follow, depth) == Walk(a, abs, i, node, follow, depth)
    decreases MAX_LINK_DEPTH + 1 - depth, |abs| - i, 1
  {
    if i < |abs| {
      AliasNext(a, b, key, abs, i, node, follow, depth);
      AliasWalk(a, b, key, abs, i + 1, Next(a, abs, i, node, follow, depth).value, follow, depth);
    }
  }

  lemma {:induction false} AliasNext(a: State, b: State, key: Path, abs: Path, i: nat, node: Node, follow: bool, depth: nat)
    requires Hides(a, b, key) && !(key <= abs)
    requires i < |abs| && depth <= MAX_LINK_DEPTH && Next(a, abs, i, node, follow, depth).Ok?
    ensures NextPasses(a, abs, i, node, follow, depth, key) ==> Next(b, abs, i, node, follow, depth).Err?
    ensures !NextPasses(a, abs, i, node, follow, depth, key) ==>
      Next(b, abs, i, node, follow, depth) == Next(a, abs, i, node, follow, depth)
    decreases MAX_LINK_DEPTH + 1 - depth, |abs| - i, 0
  {
    assert abs[..i] + [abs[i]] == abs[..i + 1] <= abs;
    ChildAgrees(a, b, key, abs[..i], node, abs[i]);
    var child := Child(a, abs[..i], node, abs[i]).value;
    if child.Link? && (i < |abs| - 1 || follow) {
      AliasLookup(a, b, key, Against(abs[..i], child.target), true, depth + 1);
    }
  }

  // Hiding makes nothing visible.
  lemma {:induction false} HidingOnlyHides(a: State, b: State, key: Path, abs: Path, follow: bool, depth: nat)
    requires Hides(a, b, key) && Lookup(b, abs, follow, depth).Ok?
    ensures Lookup(a, abs, follow, depth) == Lookup(b, abs, follow, depth)
    decreases MAX_LINK_DEPTH + 1 - depth, |abs| + 1, 0
  {
    if key <= abs {
      HiddenBelow(a, b, key, abs);
    } else {
      DeletedAgree(a, b, key, abs);
      HidingKeepsWalk(a, b, key, abs, 0, a.root, follow, depth);
    }
  }

  lemma {:induction false} HidingKeepsWalk(a: State, b: State, key: Path, abs: Path, i: nat, node: Node, follow: bool, depth: nat)
    requires Hides(a, b, key) && !(key <= abs)
    requires i <= |abs| && depth <= MAX_LINK_DEPTH && Walk(b, abs, i, node, follow, depth).Ok?
    ensures Walk(a, abs, i, node, follow, depth) == Walk(b, abs, i, node, follow, depth)
    decreases MAX_LINK_DEPTH + 1 - depth, |abs| - i, 1
  {
    if i < |abs| {
      HidingKeepsNext(a, b, key, abs, i, node, follow, depth);
      HidingKeepsWalk(a, b, key, abs, i + 1, Next(b, abs, i, node, follow, depth).value, follow, depth);
    }
  }

  lemma {:induction false} HidingKeepsNext(a: State, b: State, key: Path, abs: Path, i: nat, node: Node, follow: bool, depth: nat)
    requires Hides(a, b, key) && !(key <= abs)
    requires i < |abs| && depth <= MAX_LINK_DEPTH && Next(b, abs, i, node, follow, depth).Ok?
    ensures Next(a, abs, i, node, follow, depth) == Next(b, abs, i, node, follow, depth)
    decreases MAX_LINK_DEPTH + 1 - depth, |abs| - i, 0
  {
    assert abs[..i] + [abs[i]] == abs[..i + 1] <= abs;
    ChildAgrees(a, b, key, abs[..i], node, abs[i]);
    var child := Child(b, abs[..i], node, abs[i]).value;
    if child.Link? && (i < |abs| - 1 || follow) {
      HidingOnlyHides(a, b, key, Against(abs[..i], child.target), true, depth + 1);
    }
  }

  lemma RemoveHides(st: State, p: string)
    requires Remove(st, p).1.Success?
    ensures Hides(st, Remove(st, p).0, Resolve(st, p))
  {}

  // ---- what an operation leaves alone ----

  lemma {:induction false} UnpassedLookup(a: State, b: State, key: Path, abs: Path, follow: bool, depth: nat)
    requires AgreeExcept(a, b, key) && !Passes(a, abs, follow, depth, key)
    ensures Lookup(b, abs, follow, depth) == Lookup(a, abs, follow, depth)
    decreases MAX_LINK_DEPTH + 1 - depth, |abs| + 1, 0
  {
    if depth <= MAX_LINK_DEPTH {
      DeletedAgree(a, b, key, abs);
      UnpassedWalk(a, b, key, abs, 0, a.root, follow, depth);
    }
  }

  lemma {:induction false} UnpassedWalk(a: State, b: State, key: Path, abs: Path, i: nat, node: Node, follow: bool,
      depth: nat)
    requires AgreeExcept(a, b, key) && !(key <= abs)
    requires i <= |abs| && depth <= MAX_LINK_DEPTH && !WalkPasses(a, abs, i, node, follow, depth, key)
    ensures Walk(b, abs, i, node, follow, depth) == Walk(a, abs, i, node, follow, depth)
    decreases MAX_LINK_DEPTH + 1 - depth, |abs| - i, 1
  {
    if i < |abs| {
      UnpassedNext(a, b, key, abs, i, node, follow, depth);
      if Next(a, abs, i, node, follow, depth).Ok? {
        UnpassedWalk(a, b, key, abs, i + 1, Next(a, abs, i, node, follow, depth).value, follow, depth);
      }
    }
  }

  lemma {:induction false} UnpassedNext(a: State, b: State, key: Path, abs: Path, i: nat, node: Node, follow: bool,
      depth: nat)
    requires AgreeExcept(a, b, key) && !(key <= abs)
    requires i < |abs| && depth <= MAX_LINK_DEPTH && !NextPasses(a, abs, i, node, follow, depth, key)
    ensures Next(b, abs, i, node, follow, depth) == Next(a, abs, i, node, follow, depth)
    decreases MAX_LINK_DEPTH + 1 - depth, |abs| - i, 0
  {
    if node.Dir? {
      assert abs[..i] + [abs[i]] == abs[..i + 1] <= abs;
      ChildAgrees(a, b, key, abs[..i], node, abs[i]);
      var child := Child(a, abs[..i], node, abs[i]);
      if child.Ok? && child.value.Link? && (i < |abs| - 1 || follow) {
        UnpassedLookup(a, b, key, Against(abs[..i], child.value.target), true, depth + 1);
      }
    }
  }

  // A write, a mkdir or a removal changes nothing for any spelling whose way does not pass
  // the path it was made at: found or not, the lookup answers as before.
  lemma OthersAreKept(st: State, op: Op, q: string, follow: bool)
    requires !op.OpChdir?
    requires !Passes(st, Resolve(st, q), follow, 0, Resolve(st, op.p))
    ensures var st' := Apply(st, op).0;
            Lookup(st', Resolve(st', q), follow, 0) == Lookup(st, Resolve(st, q), follow, 0)
  {
    OpAgrees(st, op);
    UnpassedLookup(st, Apply(st, op).0, Resolve(st, op.p), Resolve(st, q), follow, 0);
  }

  lemma OpAgrees(st: State, op: Op)
    requires !op.OpChdir?
    ensures AgreeExcept(st, Apply(st, op).0, Resolve(st, op.p)) && Apply(st, op).0.cwd == st.cwd
  {
  }

  // After a removal a spelling resolves exactly if it did before and its way does not
  // pass the removed path, and then it resolves to the same node.
  lemma AliasExactly(st: State, p: string, q: string, follow: bool)
    requires Remove(st, p).1.Success?
    ensures var st' := Remove(st, p).0;
            var before, after := Lookup(st, Resolve(st, q), follow, 0), Lookup(st', Resolve(st', q), follow, 0);
            && (after.Ok? <==> before.Ok? && !Passes(st, Resolve(st, q), follow, 0, Resolve(st, p)))
            && (after.Ok? ==> after == before)
  {
    var st', abs, key := Remove(st, p).0, Resolve(st, q), Resolve(st, p);
    RemoveHides(st, p);
    if Lookup(st, abs, follow, 0).Ok? {
      AliasLookup(st, st', key, abs, follow, 0);
    } else if Lookup(st', abs, follow, 0).Ok? {
      HidingOnlyHides(st, st', key, abs, follow, 0);
    }
  }

  // "/u/x" is a file and "/b" a link to "/u".
  function Linked(): Node {
    var meta := Meta(493, 0, 0, "root", "root", 0);
    Dir("/", meta, map[
      "u" := Dir("u", meta, map["x" := File("x", meta, "", false, 0)]),
      "b" := Link("b", meta, "/u")])
  }

  lemma LinkedDirs(st: State)
    requires st.root == Linked() && st.overlay == map[] && st.deleted == {}
    ensures Lookup(st, ["u"], true, 0) == Lookup(st, ["b"], true, 0) == Ok(Linked().children["u"])
  {
    Pieces();
    var u := Linked().children["u"];
    PlainDir(st, 0);
    PlainDir(st, 1);
    assert !IsDeleted(st, []) && !IsDeleted(st, ["b"]);
    assert ["b"][..0] == [] && [] + ["b"] == ["b"];
    assert Child(st, [], st.root, "b").value.target == "/u";
    assert Walk(st, ["b"], 1, u, true, 0) == Ok(u);
  }

  lemma PlainDir(st: State, depth: nat)
    requires st.root == Linked() && st.overlay == map[] && st.deleted == {}
    requires depth <= MAX_LINK_DEPTH
    ensures Lookup(st, ["u"], true, depth) == Ok(Linked().children["u"])
  {
    var u := Linked().children["u"];
    assert ["u"][..0] == [] && [] + ["u"] == ["u"];
    assert !IsDeleted(st, []) && !IsDeleted(st, ["u"]);
    assert Next(st, ["u"], 0, st.root, true, depth) == Ok(u);
    assert Walk(st, ["u"], 1, u, true, depth) == Ok(u);
  }

  lemma LinkedFile(st: State, dir: string, follow: bool)
    requires st.root == Linked() && st.overlay == map[] && st.deleted == {}
    requires dir == "b" || dir == "u"
    ensures Lookup(st, [dir, "x"], follow, 0) == Ok(Linked().children["u"].children["x"])
  {
    LinkedDirs(st);
    assert [dir] + ["x"] == [dir, "x"];
    DeletedIff(st, [dir, "x"]);
    forall j | 0 <= j <= 2 ensures [dir, "x"][..j] !in st.deleted {
      assert j == 2 ==> [dir, "x"][..j] == [dir, "x"];
    }
    LastStep(st, [dir], "x", follow);
  }

  // So removal is per spelling: a file stays visible under a path through a link.
  lemma RemovalIsPerSpelling()
    ensures var st := Fresh(Linked(), "/");
            var (st', status) := Remove(st, "/u/x");
            && Stat(st, "/b/x") == Stat(st, "/u/x")
            && status.Success?
            && Stat(st', "/u/x") == Err(NotExist)
            && Stat(st', "/b/x") == Stat(st, "/b/x")
            && Stat(st', "/b/x").Ok?
  {
    Pieces();
    var st := Fresh(Linked(), "/");
    LinkedFile(st, "u", true);
    LinkedFile(st, "u", false);
    LinkedFile(st, "b", true);
    RemoveSucceeds(st, "/u/x", ["u", "x"]);
    AliasExactly(st, "/u/x", "/u/x", true);
    AliasExactly(st, "/u/x", "/b/x", true);
    OtherWay(st);
    RemovedStaysHidden(st, "/u/x", [], ["u", "x"], true, 0);
  }

  // The way of "/b/x" goes through "/u" but not through "/u/x".
  lemma OtherWay(st: State)
    requires st.root == Linked() && st.overlay == map[] && st.deleted == {}
    ensures !Passes(st, ["b", "x"], true, 0, ["u", "x"])
  {
    var key, u := ["u", "x"], Linked().children["u"];
    LinkedDirs(st);
    DirIsNotPassed(st, key);
    assert ["b", "x"][..0] == [] && ["b", "x"][..1] == ["b"] && [] + ["b"] == ["b"] && ["b"] + ["x"] == ["b", "x"];
    assert !IsDeleted(st, []) && !IsDeleted(st, ["b"]) && !IsDeleted(st, ["b", "x"]);
    assert Against([], "/u") == ["u"] by {
      Pieces();
    }
    PlainDir(st, 1);
    assert !NextPasses(st, ["b", "x"], 0, st.root, true, 0, key);
    assert Next(st, ["b", "x"], 0, st.root, true, 0) == Ok(u);
    assert !NextPasses(st, ["b", "x"], 1, u, true, 0, key);
    assert !WalkPasses(st, ["b", "x"], 1, u, true, 0, key);
  }

  lemma DirIsNotPassed(st: State, key: Path)
    requires st.root == Linked() && st.overlay == map[] && st.deleted == {} && key == ["u", "x"]
    ensures !Passes(st, ["u"], true, 1, key)
  {
    assert ["u"][..0] == [] && [] + ["u"] == ["u"];
    assert !IsDeleted(st, []) && !IsDeleted(st, ["u"]);
    assert !NextPasses(st, ["u"], 0, st.root, true, 1, key);
  }

  lemma RemoveSucceeds(st: State, p: string, abs: Path)
    requires Resolve(st, p) == abs && abs != [] && Lookup(st, abs, false, 0).Ok?
    ensures Remove(st, p).1.Success?
  {}

  lemma Pieces()
    ensures Against([], "/") == []
    ensures Against([], "/u") == ["u"]
    ensures Against([], "/u/x") == ["u", "x"]
    ensures Against([], "/b/x") == ["b", "x"]
  {
    ShowIsFixed([], []);
    ShowIsFixed([], ["u"]);
    ShowIsFixed([], ["u", "x"]);
    ShowIsFixed([], ["b", "x"]);
    assert Show(["u"]) == "/u";
    assert Joined(["x"]) == "x";
    assert Joined(["u", "x"]) == "u/x" && Joined(["b", "x"]) == "b/x";
  }
}
