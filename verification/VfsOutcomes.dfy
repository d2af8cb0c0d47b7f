// When each operation succeeds and what it reports otherwise, where links lead, and where
// the working directory goes.
module VfsOutcomes {
  import opened Paths
  import opened Vfs

  predicate IsDirAt(st: State, abs: Path) {
    Lookup(st, abs, true, 0).Ok? && Lookup(st, abs, true, 0).value.Dir?
  }

  // A directory itself, not a link to one.
  predicate IsOwnDir(st: State, abs: Path) {
    Lookup(st, abs, false, 0).Ok? && Lookup(st, abs, false, 0).value.Dir?
  }

  // What no operation can do in a place: the error for it.
  function PlaceError(st: State, abs: Path): Status {
    if Lookup(st, Parent(abs), true, 0).Err? then Failure(NotExist)
    else if !IsDirAt(st, Parent(abs)) then Failure(NotDir)
    else Success
  }

  // The bytes and entries a write would leave are within every bound.
  predicate FitsOverlay(st: State, abs: Path, content: Bytes) {
    && |content| <= 2097152
    && st.bytes + |content| <= 8388608 + OverlayLen(st, abs)
    && (abs in st.overlay || |st.overlay| + |st.deleted| < 2048)
  }

  // A write succeeds exactly if its place is a directory's, no directory stands there, the
  // bounds hold and the pool grants what it adds.
  lemma WriteOutcome(st: State, p: string, content: Bytes, now: int, granted: bool)
    ensures var abs, status := Resolve(st, p), WriteFile(st, p, content, now, granted).1;
            && (status.Success? <==>
                  && abs != [] && IsDirAt(st, Parent(abs)) && !IsOwnDir(st, abs)
                  && FitsOverlay(st, abs, content) && (granted || |content| <= OverlayLen(st, abs)))
            && (abs == [] ==> status == Failure(IsDir))
            && (abs != [] && PlaceError(st, abs).Failure? ==> status == PlaceError(st, abs))
            && (abs != [] && PlaceError(st, abs).Success? && IsOwnDir(st, abs) ==> status == Failure(IsDir))
            && (abs != [] && PlaceError(st, abs).Success? && !IsOwnDir(st, abs) ==>
                  status.Success? || status == Failure(NoSpace))
  {
  }

  // A mkdir succeeds exactly if its place is a directory's, nothing stands there and there
  // is an entry left, or a tombstone to take over.
  lemma MkdirOutcome(st: State, p: string, now: int)
    ensures var abs, status := Resolve(st, p), Mkdir(st, p, now).1;
            && (status.Success? <==>
                  && abs != [] && IsDirAt(st, Parent(abs)) && Lstat(st, p).Err?
                  && (abs in st.deleted || |st.overlay| + |st.deleted| < 2048))
            && (abs == [] ==> status == Failure(Exist))
            && (abs != [] && PlaceError(st, abs).Failure? ==> status == PlaceError(st, abs))
            && (abs != [] && PlaceError(st, abs).Success? && Lstat(st, p).Ok? ==> status == Failure(Exist))
            && (abs != [] && PlaceError(st, abs).Success? && Lstat(st, p).Err? ==>
                  status.Success? || status == Failure(NoSpace))
  {
  }

  // A removal succeeds exactly on what is there, links themselves included, but the root,
  // and then it is gone.
  lemma RemoveOutcome(st: State, p: string)
    ensures var abs, (st', status) := Resolve(st, p), Remove(st, p);
            && (status.Success? <==> abs != [] && Lstat(st, p).Ok?)
            && (abs == [] ==> status == Failure(Permission))
            && (abs != [] && Lstat(st, p).Err? ==> status == Failure(Lstat(st, p).error))
            && (status.Success? ==> Lstat(st', p) == Stat(st', p) == Err(NotExist))
            && (status.Failure? ==> st' == st)
  {
  }

  // The working directory moves exactly to directories, and a relative path is read there
  // from then on: `cd d` and then `p` is `d/p`.
  lemma ChdirOutcome(st: State, d: string, p: string)
    requires d != "" && p != "" && !IsAbsolute(p)
    ensures var (st', status) := Chdir(st, d);
            && (status.Success? <==> Stat(st, d).Ok? && Stat(st, d).value.Dir?)
            && (Stat(st, d).Err? ==> status == Failure(Stat(st, d).error))
            && (Stat(st, d).Ok? && !Stat(st, d).value.Dir? ==> status == Failure(NotDir))
            && (status.Success? ==> Resolve(st', p) == Resolve(st, d + "/" + p) && st' == st.(cwd := st'.cwd))
            && (status.Failure? ==> st' == st)
  {
    AgainstComposes(st.cwd, d, p);
  }

  // `cd ..` goes to the parent, wherever the directory is.
  lemma ChdirUp(st: State)
    ensures var (st', status) := Chdir(st, "..");
            status.Success? ==> st'.cwd == if st.cwd == [] then [] else st.cwd[..|st.cwd| - 1]
  {
    AgainstPiece(st.cwd, "..");
  }

  // A link found at the end of a path is its target, read in the directory that holds the
  // link; the chain of links it starts is one longer.
  lemma LinkIsFollowed(st: State, dir: Path, name: string)
    requires IsDirAt(st, dir)
    requires Lookup(st, dir + [name], false, 0).Ok? && Lookup(st, dir + [name], false, 0).value.Link?
    ensures var target := Against(dir, Lookup(st, dir + [name], false, 0).value.target);
            var found := Lookup(st, dir + [name], true, 0);
            && found == Lookup(st, target, true, 1)
            && (found.Ok? ==> found == Lookup(st, target, true, 0))
  {
    var abs, node := dir + [name], Lookup(st, dir, true, 0).value;
    assert abs[..|dir|] == dir && Parent(abs) == dir;
    LastStep(st, dir, name, false);
    var link := Child(st, dir, node, name).value;
    WalkDown(st, abs, 0, st.root, true);
    assert Next(st, abs, |dir|, node, true, 0) == Lookup(st, Against(dir, link.target), true, 1);
    if Lookup(st, abs, true, 0).Ok? {
      ShallowerLookup(st, Against(dir, link.target), true, 0, 1);
    }
  }

  // A path that goes on behind a link goes on in what the link leads to, with what the
  // session changed there filed under the path as it is spelled.
  lemma LinkGoesOn(st: State, dir: Path, name: string, entry: string)
    requires IsDirAt(st, dir) && IsDirAt(st, dir + [name])
    ensures Lookup(st, dir + [name] + [entry], false, 0)
         == Child(st, dir + [name], Lookup(st, dir + [name], true, 0).value, entry)
  {
    LastStep(st, dir + [name], entry, false);
  }

  // No chain of links is followed for ever: one that leads back to itself is not there.
  lemma {:induction false} SelfLinkIsNotThere(st: State, name: string, depth: nat)
    requires depth <= MAX_LINK_DEPTH + 1
    requires st.root.Dir? && Child(st, [], st.root, name).Ok? && Child(st, [], st.root, name).value.Link?
    requires Against([], Child(st, [], st.root, name).value.target) == [name]
    ensures Lookup(st, [name], true, depth) == Err(NotExist)
    decreases MAX_LINK_DEPTH + 1 - depth
  {
    if depth <= MAX_LINK_DEPTH && !IsDeleted(st, [name]) {
      SelfLinkIsNotThere(st, name, depth + 1);
      assert [name][..0] == [];
      assert Next(st, [name], 0, st.root, true, depth) == Lookup(st, [name], true, depth + 1);
    }
  }

  // What is made belongs to root, carries its path's last component as its name and has
  // the usual permissions, rw-r--r-- and rwxr-xr-x.
  lemma MadeNodes(st: State, p: string, content: Bytes, now: int, granted: bool)
    ensures var (st', status) := WriteFile(st, p, content, now, granted);
            status.Success? ==>
              Stat(st', p) == Ok(File(Base(Resolve(st, p)), Meta(6 * 64 + 4 * 8 + 4, 0, 0, "root", "root", now), content, false, 0))
    ensures var (st', status) := Mkdir(st, p, now);
            status.Success? ==>
              Stat(st', p) == Ok(Dir(Base(Resolve(st, p)), Meta(7 * 64 + 5 * 8 + 5, 0, 0, "root", "root", now), map[]))
  {
    var abs := Resolve(st, p);
    if WriteFile(st, p, content, now, granted).1.Success? {
      InstalledIsVisible(st, WriteFile(st, p, content, now, granted).0, abs, NewFile(abs, content, now), true);
    }
    DirAfterMkdir(st, p, now);
  }

  // A stub of a binary reads as the 64 bytes of an ELF header for 64-bit x86.
  lemma StubReads(st: State, p: string)
    requires Stat(st, p).Ok? && Stat(st, p).value.File? && Stat(st, p).value.stub
    ensures ReadFile(st, p).Ok? && |ReadFile(st, p).value| == 64
    ensures var header := ReadFile(st, p).value;
            && header[0] as int == 127 && header[1] == 'E' && header[2] == 'L' && header[3] == 'F'
            && header[4] as int == 2 && header[5] as int == 1 && header[18] as int == 62
  {
  }
}
