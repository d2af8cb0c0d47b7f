// The copy-on-write view one session has of the shared read-only tree:
// node tree, overlay, tombstones, and path resolution through symbolic links.
module Vfs {
  import opened Paths

  // Permission bits and ownership, as `ls -l` prints them.
  datatype Meta = Meta(perm: nat, uid: int, gid: int, uname: string, gname: string, mtime: int)

  datatype Node =
    | Dir(name: string, meta: Meta, children: map<string, Node>)
    | File(name: string, meta: Meta, content: Bytes, stub: bool, size: int)
    | Link(name: string, meta: Meta, target: string)
  {
    // The bytes a reader sees: a stub binary shows an ELF header.
    function Content(): Bytes
      requires !Dir?
    {
      if Link? then ""
      else if stub then ElfStub()
      else content
    }
  }

  function ElfStub(): Bytes {
    seq(64, i =>
      if i == 0 then 127 as char
      else if i == 1 then 'E' else if i == 2 then 'L' else if i == 3 then 'F'
      else if i == 4 then 2 as char
      else if i == 5 || i == 6 || i == 20 then 1 as char
      else if i == 16 then 2 as char
      else if i == 18 then 62 as char
      else 0 as char)
  }

  datatype Error = NotExist | Permission | NotDir | IsDir | Exist | NoSpace

  datatype Outcome<+T> = Ok(value: T) | Err(error: Error)

  const MAX_OVERLAY_BYTES := 8 * 1048576
  const MAX_OVERLAY_FILE_BYTES := 2 * 1048576
  const MAX_OVERLAY_ENTRIES := 2048
  const MAX_LINK_DEPTH := 40

  // One session.  `root` is shared by all of them and never changes.
  datatype State = State(root: Node, overlay: map<Path, Node>, deleted: set<Path>, cwd: Path, bytes: int)

  function Fresh(root: Node, dir: string): State {
    State(root, map[], {}, Against([], dir), 0)
  }

  function Resolve(st: State, p: string): Path {
    if p == "" then st.cwd else Against(st.cwd, p)
  }

  // ---- resolution ----

  // A tombstone hides its path and everything below it.
  predicate IsDeleted(st: State, abs: Path) {
    abs in st.deleted || (abs != [] && IsDeleted(st, Parent(abs)))
  }

  function Child(st: State, dirPath: Path, dir: Node, name: string): (child: Outcome<Node>)
    requires dir.Dir?
  {
    var key := dirPath + [name];
    if IsDeleted(st, key) then Err(NotExist)
    else if key in st.overlay then Ok(st.overlay[key])
    else if name in dir.children then Ok(dir.children[name])
    else Err(NotExist)
  }

  function Lookup(st: State, abs: Path, follow: bool, depth: nat): Outcome<Node>
    decreases MAX_LINK_DEPTH + 1 - depth, |abs| + 1
  {
    if depth > MAX_LINK_DEPTH then Err(NotExist)
    else if IsDeleted(st, abs) then Err(NotExist)
    else Walk(st, abs, 0, st.root, follow, depth)
  }

  // The walk with `node` reached by the first `i` components of `abs`.
  function Walk(st: State, abs: Path, i: nat, node: Node, follow: bool, depth: nat): Outcome<Node>
    requires i <= |abs| && depth <= MAX_LINK_DEPTH
    decreases MAX_LINK_DEPTH + 1 - depth, |abs| - i, 1
  {
    if i == |abs| then Ok(node)
    else
      var next := Next(st, abs, i, node, follow, depth);
      if next.Err? then next else Walk(st, abs, i + 1, next.value, follow, depth)
  }

  // The node that component `i` leads to: a child, or what that child links to.
  function Next(st: State, abs: Path, i: nat, node: Node, follow: bool, depth: nat): Outcome<Node>
    requires i < |abs| && depth <= MAX_LINK_DEPTH
    decreases MAX_LINK_DEPTH + 1 - depth, |abs| - i, 0
  {
    if !node.Dir? then Err(NotDir)
    else
      var child := Child(st, abs[..i], node, abs[i]);
      if child.Ok? && child.value.Link? && (i < |abs| - 1 || follow)
      then Lookup(st, Against(abs[..i], child.value.target), true, depth + 1)
      else child
  }

  function Stat(st: State, p: string): Outcome<Node> {
    Lookup(st, Resolve(st, p), true, 0)
  }

  function Lstat(st: State, p: string): Outcome<Node> {
    Lookup(st, Resolve(st, p), false, 0)
  }

  function ReadFile(st: State, p: string): Outcome<Bytes> {
    var node := Stat(st, p);
    if node.Err? then Err(node.error)
    else if node.value.Dir? then Err(IsDir)
    else Ok(node.value.Content())
  }

  // ---- mutation ----

  datatype Status = Success | Failure(error: Error)

  function NewFile(abs: Path, content: Bytes, now: int): Node {
    File(Base(abs), Meta(420, 0, 0, "root", "root", now), content, false, 0)
  }

  function NewDir(abs: Path, now: int): Node {
    Dir(Base(abs), Meta(493, 0, 0, "root", "root", now), map[])
  }

  function OverlayLen(st: State, abs: Path): nat {
    if abs in st.overlay && st.overlay[abs].File? then |st.overlay[abs].content| else 0
  }

  function Entries(st: State): nat {
    |st.overlay| + |st.deleted|
  }

  // Every check of a write that precedes the reservation of pool bytes.
  function WriteCheck(st: State, abs: Path, content: Bytes): Status {
    if abs == [] then Failure(IsDir)
    else
      var dir := Lookup(st, Parent(abs), true, 0);
      var existing := Lookup(st, abs, false, 0);
      if dir.Err? then Failure(NotExist)
      else if !dir.value.Dir? then Failure(NotDir)
      else if existing.Ok? && existing.value.Dir? then Failure(IsDir)
      else if |content| > MAX_OVERLAY_FILE_BYTES then Failure(NoSpace)
      else if st.bytes - OverlayLen(st, abs) + |content| > MAX_OVERLAY_BYTES then Failure(NoSpace)
      else if abs !in st.overlay && Entries(st) >= MAX_OVERLAY_ENTRIES then Failure(NoSpace)
      else Success
  }

  // `granted` is the answer of the process-wide pool; it is asked only when every
  // other check passed, and never refuses a write that does not grow the overlay.
  function WriteFile(st: State, p: string, content: Bytes, now: int, granted: bool): (State, Status) {
    var abs := Resolve(st, p);
    var check := WriteCheck(st, abs, content);
    var delta := |content| - OverlayLen(st, abs);
    if check.Failure? then (st, check)
    else if delta > 0 && !granted then (st, Failure(NoSpace))
    else (st.(overlay := st.overlay[abs := NewFile(abs, content, now)],
              deleted := st.deleted - {abs},
              bytes := st.bytes + delta), Success)
  }

  function Mkdir(st: State, p: string, now: int): (State, Status) {
    var abs := Resolve(st, p);
    if abs == [] then (st, Failure(Exist))
    else
      var dir := Lookup(st, Parent(abs), true, 0);
      if dir.Err? then (st, Failure(NotExist))
      else if !dir.value.Dir? then (st, Failure(NotDir))
      else if Lookup(st, abs, false, 0).Ok? then (st, Failure(Exist))
      else if abs !in st.deleted && Entries(st) >= MAX_OVERLAY_ENTRIES then (st, Failure(NoSpace))
      else (st.(overlay := st.overlay[abs := NewDir(abs, now)], deleted := st.deleted - {abs}), Success)
  }

  function Remove(st: State, p: string): (State, Status) {
    var abs := Resolve(st, p);
    if abs == [] then (st, Failure(Permission))
    else
      var node := Lookup(st, abs, false, 0);
      if node.Err? then (st, Failure(node.error))
      else (st.(overlay := st.overlay - {abs},
                deleted := st.deleted + {abs},
                bytes := st.bytes - OverlayLen(st, abs)), Success)
  }

  function Chdir(st: State, p: string): (State, Status) {
    var abs := Resolve(st, p);
    var node := Lookup(st, abs, true, 0);
    if node.Err? then (st, Failure(node.error))
    else if !node.value.Dir? then (st, Failure(NotDir))
    else (st.(cwd := abs), Success)
  }

  // ---- tombstones ----

  lemma {:induction false} DeletedAbove(st: State, abs: Path, j: nat)
    requires j <= |abs|
    ensures IsDeleted(st, abs[..j]) ==> IsDeleted(st, abs)
  {
    if j < |abs| {
      DeletedAbove(st, Parent(abs), j);
      assert Parent(abs)[..j] == abs[..j];
    } else {
      assert abs[..j] == abs;
    }
  }

  lemma {:induction false} DeletedIff(st: State, abs: Path)
    ensures IsDeleted(st, abs) <==> exists j :: 0 <= j <= |abs| && abs[..j] in st.deleted
  {
    if abs in st.deleted {
      assert abs[..|abs|] == abs;
    } else if abs != [] {
      DeletedIff(st, Parent(abs));
      forall j | 0 <= j < |abs| ensures abs[..j] == Parent(abs)[..j] {}
      assert abs[..|abs|] == abs;
    }
  }

  // ---- a lookup that succeeds deep in a link chain succeeds identically higher up ----

  lemma {:induction false} ShallowerLookup(st: State, abs: Path, follow: bool, depth: nat, deeper: nat)
    requires depth <= deeper
    requires Lookup(st, abs, follow, deeper).Ok?
    ensures Lookup(st, abs, follow, depth) == Lookup(st, abs, follow, deeper)
    decreases MAX_LINK_DEPTH + 1 - deeper, |abs| + 1
  {
    ShallowerWalk(st, abs, 0, st.root, follow, depth, deeper);
  }

  lemma {:induction false} ShallowerWalk(st: State, abs: Path, i: nat, node: Node, follow: bool, depth: nat, deeper: nat)
    requires i <= |abs| && depth <= deeper <= MAX_LINK_DEPTH
    requires Walk(st, abs, i, node, follow, deeper).Ok?
    ensures Walk(st, abs, i, node, follow, depth) == Walk(st, abs, i, node, follow, deeper)
    decreases MAX_LINK_DEPTH + 1 - deeper, |abs| - i, 1
  {
    if i < |abs| {
      ShallowerNext(st, abs, i, node, follow, depth, deeper);
      ShallowerWalk(st, abs, i + 1, Next(st, abs, i, node, follow, deeper).value, follow, depth, deeper);
    }
  }

  lemma {:induction false} ShallowerNext(st: State, abs: Path, i: nat, node: Node, follow: bool, depth: nat, deeper: nat)
    requires i < |abs| && depth <= deeper <= MAX_LINK_DEPTH
    requires Next(st, abs, i, node, follow, deeper).Ok?
    ensures Next(st, abs, i, node, follow, depth) == Next(st, abs, i, node, follow, deeper)
    decreases MAX_LINK_DEPTH + 1 - deeper, |abs| - i, 0
  {
    var child := Child(st, abs[..i], node, abs[i]).value;
    if child.Link? && (i < |abs| - 1 || follow) {
      ShallowerLookup(st, Against(abs[..i], child.target), true, depth + 1, deeper + 1);
    }
  }

  // ---- a walk passes through every directory above its end ----

  lemma {:induction false} WalkThrough(st: State, abs: Path, i: nat, node: Node, follow: bool, depth: nat, j: nat)
    requires i <= j < |abs| && depth <= MAX_LINK_DEPTH
    requires Walk(st, abs, i, node, follow, depth).Ok?
    ensures Walk(st, abs[..j], i, node, true, depth).Ok?
    ensures Walk(st, abs, i, node, follow, depth)
         == Walk(st, abs, j, Walk(st, abs[..j], i, node, true, depth).value, follow, depth)
    decreases j - i
  {
    if i < j {
      assert abs[..j][..i] == abs[..i] && abs[..j][i] == abs[i];
      assert Next(st, abs[..j], i, node, true, depth) == Next(st, abs, i, node, follow, depth);
      WalkThrough(st, abs, i + 1, Next(st, abs, i, node, follow, depth).value, follow, depth, j);
    }
  }

  lemma LookupThrough(st: State, abs: Path, follow: bool, depth: nat, j: nat)
    requires j < |abs|
    requires Lookup(st, abs, follow, depth).Ok?
    ensures Lookup(st, abs[..j], true, depth).Ok?
    ensures Lookup(st, abs, follow, depth)
         == Walk(st, abs, j, Lookup(st, abs[..j], true, depth).value, follow, depth)
  {
    DeletedAbove(st, abs, j);
    WalkThrough(st, abs, 0, st.root, follow, depth, j);
  }

  // ---- changing one key below a directory does not disturb the way to it ----

  ghost predicate AgreeExcept(a: State, b: State, key: Path) {
    && a.root == b.root
    && (forall k :: k != key ==> (k in a.deleted <==> k in b.deleted))
    && (forall k :: k != key ==> (k in a.overlay <==> k in b.overlay))
    && (forall k :: k != key && k in a.overlay ==> a.overlay[k] == b.overlay[k])
  }

  lemma {:induction false} DeletedAgree(a: State, b: State, key: Path, abs: Path)
    requires AgreeExcept(a, b, key)
    requires !(key <= abs)
    ensures IsDeleted(a, abs) == IsDeleted(b, abs)
  {
    if abs != [] {
      assert Parent(abs) <= abs;
      DeletedAgree(a, b, key, Parent(abs));
    }
  }

  lemma ChildAgrees(a: State, b: State, key: Path, dirPath: Path, node: Node, name: string)
    requires AgreeExcept(a, b, key) && node.Dir?
    requires !(key <= dirPath + [name])
    ensures Child(a, dirPath, node, name) == Child(b, dirPath, node, name)
  {
    DeletedAgree(a, b, key, dirPath + [name]);
  }

  // A successful lookup either does not notice the change, or on its way it walked
  // to the directory that holds the changed key.
  lemma {:induction false} AgreeOrReach(a: State, b: State, dir: Path, name: string, abs: Path, follow: bool, depth: nat)
    requires AgreeExcept(a, b, dir + [name])
    requires Lookup(a, abs, follow, depth).Ok?
    ensures Lookup(b, abs, follow, depth) == Lookup(a, abs, follow, depth) || Lookup(a, dir, true, depth).Ok?
    decreases MAX_LINK_DEPTH + 1 - depth, |abs| + 1
  {
    if dir + [name] <= abs {
      LookupThrough(a, abs, follow, depth, |dir|);
      assert abs[..|dir|] == dir;
    } else {
      DeletedAgree(a, b, dir + [name], abs);
      AgreeOrReachWalk(a, b, dir, name, abs, 0, a.root, follow, depth);
      if Lookup(a, dir, true, depth + 1).Ok? {
        ShallowerLookup(a, dir, true, depth, depth + 1);
      }
    }
  }

  lemma {:induction false} AgreeOrReachWalk(a: State, b: State, dir: Path, name: string,
      abs: Path, i: nat, node: Node, follow: bool, depth: nat)
    requires AgreeExcept(a, b, dir + [name])
    requires i <= |abs| && depth <= MAX_LINK_DEPTH
    requires !(dir + [name] <= abs)
    requires Walk(a, abs, i, node, follow, depth).Ok?
    ensures Walk(b, abs, i, node, follow, depth) == Walk(a, abs, i, node, follow, depth)
         || Lookup(a, dir, true, depth + 1).Ok?
    decreases MAX_LINK_DEPTH + 1 - depth, |abs| - i, 1
  {
    if i < |abs| {
      AgreeOrReachNext(a, b, dir, name, abs, i, node, follow, depth);
      AgreeOrReachWalk(a, b, dir, name, abs, i + 1, Next(a, abs, i, node, follow, depth).value, follow, depth);
    }
  }

  lemma {:induction false} AgreeOrReachNext(a: State, b: State, dir: Path, name: string,
      abs: Path, i: nat, node: Node, follow: bool, depth: nat)
    requires AgreeExcept(a, b, dir + [name])
    requires i < |abs| && depth <= MAX_LINK_DEPTH
    requires !(dir + [name] <= abs)
    requires Next(a, abs, i, node, follow, depth).Ok?
    ensures Next(b, abs, i, node, follow, depth) == Next(a, abs, i, node, follow, depth)
         || Lookup(a, dir, true, depth + 1).Ok?
    decreases MAX_LINK_DEPTH + 1 - depth, |abs| - i, 0
  {
    assert abs[..i] + [abs[i]] == abs[..i + 1] <= abs;
    ChildAgrees(a, b, dir + [name], abs[..i], node, abs[i]);
    var child := Child(a, abs[..i], node, abs[i]).value;
    if child.Link? && (i < |abs| - 1 || follow) {
      AgreeOrReach(a, b, dir, name, Against(abs[..i], child.target), true, depth + 1);
    }
  }

  // The way to a directory never consults a key inside it: a walk that did would
  // resolve itself ever deeper and hit the link limit.
  lemma {:induction false} WayIsStable(a: State, b: State, dir: Path, name: string, depth: nat)
    requires AgreeExcept(a, b, dir + [name])
    requires Lookup(a, dir, true, depth).Ok?
    ensures Lookup(b, dir, true, depth) == Lookup(a, dir, true, depth)
    decreases MAX_LINK_DEPTH + 1 - depth
  {
    if Lookup(a, dir, true, depth + 1).Ok? {
      WayIsStable(a, b, dir, name, depth + 1);
      ShallowerLookup(a, dir, true, depth, depth + 1);
      ShallowerLookup(b, dir, true, depth, depth + 1);
    } else {
      DeletedAgree(a, b, dir + [name], dir);
      AgreeOrReachWalk(a, b, dir, name, dir, 0, a.root, true, depth);
    }
  }

  // What sits at the end of a path whose directory is known.
  lemma LastStep(st: State, dir: Path, name: string, follow: bool)
    requires Lookup(st, dir, true, 0).Ok? && Lookup(st, dir, true, 0).value.Dir?
    ensures var node := Lookup(st, dir, true, 0).value;
            var child := Child(st, dir, node, name);
            (child.Ok? && follow ==> !child.value.Link?)
            ==> Lookup(st, dir + [name], follow, 0) == child
  {
    var abs := dir + [name];
    assert abs[..|dir|] == dir && Parent(abs) == dir;
    var node := Lookup(st, dir, true, 0).value;
    if !IsDeleted(st, abs) {
      WalkDown(st, abs, 0, st.root, follow);
      assert Walk(st, abs, 0, st.root, follow, 0) == Walk(st, abs, |dir|, node, follow, 0);
    }
  }

  lemma {:induction false} WalkDown(st: State, abs: Path, i: nat, node: Node, follow: bool)
    requires abs != [] && i < |abs|
    requires Walk(st, Parent(abs), i, node, true, 0).Ok?
    ensures Walk(st, abs, i, node, follow, 0)
         == Walk(st, abs, |abs| - 1, Walk(st, Parent(abs), i, node, true, 0).value, follow, 0)
    decreases |abs| - i
  {
    if i < |abs| - 1 {
      assert Parent(abs)[..i] == abs[..i] && Parent(abs)[i] == abs[i];
      var child := Child(st, abs[..i], node, abs[i]).value;
      if child.Link? {
        WalkDown(st, abs, i + 1, Lookup(st, Against(abs[..i], child.target), true, 1).value, follow);
      } else {
        WalkDown(st, abs, i + 1, child, follow);
      }
    }
  }

  // ---- read after write ----

  // After a write or a mkdir at `abs`, following links or not, `abs` is the new node.
  lemma InstalledIsVisible(st: State, st': State, abs: Path, node: Node, follow: bool)
    requires abs != [] && !node.Link?
    requires Lookup(st, Parent(abs), true, 0).Ok? && Lookup(st, Parent(abs), true, 0).value.Dir?
    requires st' == st.(overlay := st.overlay[abs := node], deleted := st.deleted - {abs}, bytes := st'.bytes)
    ensures Lookup(st', abs, follow, 0) == Ok(node)
  {
    var dir, name := Parent(abs), Base(abs);
    assert dir + [name] == abs;
    WayIsStable(st, st', dir, name, 0);
    assert !IsDeleted(st', dir);
    LastStep(st', dir, name, follow);
  }

  // Read-after-write, through any links and at any spelling; a refused write changes nothing.
  lemma ReadAfterWrite(st: State, p: string, content: Bytes, now: int, granted: bool)
    ensures var (st', status) := WriteFile(st, p, content, now, granted);
            && (status.Success? ==> ReadFile(st', p) == Ok(content) && Lstat(st', p) == Stat(st', p))
            && (status.Failure? ==> st' == st)
  {
    var (st', status) := WriteFile(st, p, content, now, granted);
    if status.Success? {
      var abs := Resolve(st, p);
      InstalledIsVisible(st, st', abs, NewFile(abs, content, now), true);
      InstalledIsVisible(st, st', abs, NewFile(abs, content, now), false);
    }
  }

  lemma DirAfterMkdir(st: State, p: string, now: int)
    ensures var (st', status) := Mkdir(st, p, now);
            && (status.Success? ==> Stat(st', p) == Lstat(st', p) == Ok(NewDir(Resolve(st, p), now)))
            && (status.Failure? ==> st' == st)
  {
    var (st', status) := Mkdir(st, p, now);
    if status.Success? {
      var abs := Resolve(st, p);
      InstalledIsVisible(st, st', abs, NewDir(abs, now), true);
      InstalledIsVisible(st, st', abs, NewDir(abs, now), false);
    }
  }
}
