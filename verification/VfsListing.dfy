// Directory listings, and why a listed name can always be read.
module VfsListing {
  import opened Paths
  import opened Vfs

  // Names the overlay adds directly below `abs`.
  function OverlayNames(st: State, abs: Path): set<string> {
    set key | key in st.overlay && key != [] && Parent(key) == abs :: Base(key)
  }

  // Base children, overridden by overlay nodes, without the tombstoned.
  function Merged(st: State, abs: Path, dir: Node): map<string, Node>
    requires dir.Dir?
  {
    map name | name in dir.children.Keys + OverlayNames(st, abs) && !IsDeleted(st, abs + [name]) ::
      if name in OverlayNames(st, abs) then OverlayAt(st, abs, name) else dir.children[name]
  }

  function OverlayAt(st: State, abs: Path, name: string): Node
    requires name in OverlayNames(st, abs)
  {
    EntryKey(st, abs, name);
    st.overlay[abs + [name]]
  }

  lemma EntryKey(st: State, abs: Path, name: string)
    ensures name in OverlayNames(st, abs) <==> abs + [name] in st.overlay
  {
    var key := abs + [name];
    assert Parent(key) == abs && Base(key) == name;
    forall k | k in st.overlay && k != [] && Parent(k) == abs && Base(k) == name ensures k == key {}
  }

  function ReadDir(st: State, p: string): Outcome<map<string, Node>> {
    var abs := Resolve(st, p);
    var node := Lookup(st, abs, true, 0);
    if node.Err? then Err(node.error)
    else if !node.value.Dir? then Err(NotDir)
    else Ok(Merged(st, abs, node.value))
  }

  // A directory lists exactly the names that resolve below it, with the same nodes.
  lemma ListingIsLookup(st: State, abs: Path, name: string)
    requires Lookup(st, abs, true, 0).Ok? && Lookup(st, abs, true, 0).value.Dir?
    ensures var entries := Merged(st, abs, Lookup(st, abs, true, 0).value);
            var found := Lookup(st, abs + [name], false, 0);
            && (name in entries <==> found.Ok?)
            && (name in entries ==> found == Ok(entries[name]))
  {
    LastStep(st, abs, name, false);
    EntryKey(st, abs, name);
  }

  // The same with the paths a caller types: what `ls d` shows, `stat d/name` finds.
  lemma ListedIsFound(st: State, d: string, name: string)
    requires d != "" && ValidName(name)
    requires ReadDir(st, d).Ok?
    ensures name in ReadDir(st, d).value <==> Lstat(st, d + "/" + name).Ok?
    ensures name in ReadDir(st, d).value ==> Lstat(st, d + "/" + name) == Ok(ReadDir(st, d).value[name])
  {
    AgainstEntry(st.cwd, d, name);
    ListingIsLookup(st, Resolve(st, d), name);
  }

  // Reading a file you just listed gives the very bytes of the listed node.
  lemma ListedFileReads(st: State, d: string, name: string)
    requires d != "" && ValidName(name)
    requires ReadDir(st, d).Ok? && name in ReadDir(st, d).value && ReadDir(st, d).value[name].File?
    ensures ReadFile(st, d + "/" + name) == Ok(ReadDir(st, d).value[name].Content())
  {
    AgainstEntry(st.cwd, d, name);
    var abs := Resolve(st, d);
    EntryKey(st, abs, name);
    LastStep(st, abs, name, true);
  }

  // A written file is listed where it was written.
  lemma WrittenIsListed(st: State, d: string, name: string, content: Bytes, now: int, granted: bool)
    requires d != "" && ValidName(name)
    ensures var (st', status) := WriteFile(st, d + "/" + name, content, now, granted);
            status.Success? ==>
              && ReadDir(st', d).Ok?
              && name in ReadDir(st', d).value
              && ReadDir(st', d).value[name] == NewFile(Resolve(st, d + "/" + name), content, now)
  {
    var (st', status) := WriteFile(st, d + "/" + name, content, now, granted);
    if status.Success? {
      AgainstEntry(st.cwd, d, name);
      var abs := Resolve(st, d) + [name];
      var node := NewFile(abs, content, now);
      assert Parent(abs) == Resolve(st, d);
      WayIsStable(st, st', Resolve(st, d), name, 0);
      InstalledIsVisible(st, st', abs, node, false);
      ListingIsLookup(st', Resolve(st', d), name);
    }
  }

  // A directory just made lists the overlay nodes still recorded below it, so it is
  // empty exactly when there are none.
  lemma FreshDirListing(st: State, p: string, now: int)
    requires forall key :: key in st.overlay ==> key !in st.deleted
    ensures var (st', status) := Mkdir(st, p, now);
            var abs := Resolve(st, p);
            status.Success? ==>
              && ReadDir(st', p).Ok?
              && ReadDir(st', p).value.Keys == OverlayNames(st, abs)
              && (ReadDir(st', p).value == map[] <==> forall name :: abs + [name] !in st.overlay)
  {
    var (st', status) := Mkdir(st, p, now);
    var abs := Resolve(st, p);
    if status.Success? {
      var dir := NewDir(abs, now);
      InstalledIsVisible(st, st', abs, dir, true);
      forall name ensures name in Merged(st', abs, dir) <==> name in OverlayNames(st, abs) {
        EntryKey(st, abs, name);
        EntryKey(st', abs, name);
        assert Parent(abs + [name]) == abs;
      }
      forall name ensures name in OverlayNames(st, abs) <==> abs + [name] in st.overlay {
        EntryKey(st, abs, name);
      }
      if forall name :: abs + [name] !in st.overlay {
        assert Merged(st', abs, dir).Keys == {};
      }
    }
  }
}
