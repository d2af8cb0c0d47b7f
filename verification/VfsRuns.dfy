// What every run of operations keeps: the byte and entry budgets, tombstones, the base tree.
module VfsRuns {
  import opened Paths
  import opened Vfs

  datatype Op =
    | OpWrite(p: string, content: Bytes, now: int, granted: bool)
    | OpMkdir(p: string, now: int)
    | OpRemove(p: string)
    | OpChdir(p: string)

  function Apply(st: State, op: Op): (State, Status) {
    match op
    case OpWrite(p, content, now, granted) => WriteFile(st, p, content, now, granted)
    case OpMkdir(p, now) => Mkdir(st, p, now)
    case OpRemove(p) => Remove(st, p)
    case OpChdir(p) => Chdir(st, p)
  }

  function Run(st: State, ops: seq<Op>): State
    decreases |ops|
  {
    if ops == [] then st else Run(Apply(st, ops[0]).0, ops[1..])
  }

  // ---- accounting ----

  function NodeBytes(node: Node): nat {
    if node.File? then |node.content| else 0
  }

  ghost function SumBytes(m: map<Path, Node>): nat {
    if m == map[] then 0
    else
      var key :| key in m;
      NodeBytes(m[key]) + SumBytes(m - {key})
  }

  lemma {:induction false} SumBytesAt(m: map<Path, Node>, key: Path)
    requires key in m
    ensures SumBytes(m) == NodeBytes(m[key]) + SumBytes(m - {key})
    decreases m
  {
    var k :| k in m && SumBytes(m) == NodeBytes(m[k]) + SumBytes(m - {k});
    if k != key {
      SumBytesAt(m - {k}, key);
      SumBytesAt(m - {key}, k);
      assert m - {k} - {key} == m - {key} - {k};
    }
  }

  lemma SumBytesSet(m: map<Path, Node>, key: Path, node: Node)
    ensures SumBytes(m[key := node]) == SumBytes(m - {key}) + NodeBytes(node)
    ensures SumBytes(m) == SumBytes(m - {key}) + if key in m then NodeBytes(m[key]) else 0
  {
    SumBytesAt(m[key := node], key);
    assert m[key := node] - {key} == m - {key};
    if key in m {
      SumBytesAt(m, key);
    } else {
      assert m - {key} == m;
    }
  }

  ghost predicate Accounted(st: State) {
    && st.bytes == SumBytes(st.overlay)
    && st.bytes <= MAX_OVERLAY_BYTES
    && (forall key :: key in st.overlay ==> key !in st.deleted)
    && (forall key :: key in st.overlay ==> NodeBytes(st.overlay[key]) <= MAX_OVERLAY_FILE_BYTES)
    // the overlay only ever holds plain files and directories made by this session
    && (forall key :: key in st.overlay ==> key != [] && !st.overlay[key].Link?)
    && [] !in st.deleted
  }

  // A removal that adds a tombstone without freeing an overlay entry.
  predicate IsBareRemoval(st: State, op: Op) {
    op.OpRemove? && Remove(st, op.p).1.Success? && Resolve(st, op.p) !in st.overlay
  }

  function BareRemovals(st: State, ops: seq<Op>): nat
    decreases |ops|
  {
    if ops == [] then 0
    else (if IsBareRemoval(st, ops[0]) then 1 else 0) + BareRemovals(Apply(st, ops[0]).0, ops[1..])
  }

  lemma StepKeepsAccounts(st: State, op: Op)
    requires Accounted(st)
    ensures Accounted(Apply(st, op).0)
    ensures Apply(st, op).0.root == st.root
  {
    match op
    case OpWrite(p, content, now, granted) => WriteKeepsAccounts(st, p, content, now, granted);
    case OpMkdir(p, now) => MkdirKeepsAccounts(st, p, now);
    case OpRemove(p) => RemoveKeepsAccounts(st, p);
    case OpChdir(p) =>
  }

  // Putting a file or a new directory in place of what the overlay had at its path.
  lemma SetKeepsAccounts(st: State, abs: Path, node: Node)
    requires Accounted(st) && abs != [] && !node.Link?
    requires NodeBytes(node) <= MAX_OVERLAY_FILE_BYTES
    requires st.bytes + NodeBytes(node) - OverlayLen(st, abs) <= MAX_OVERLAY_BYTES
    ensures Accounted(st.(overlay := st.overlay[abs := node], deleted := st.deleted - {abs},
                          bytes := st.bytes + NodeBytes(node) - OverlayLen(st, abs)))
  {
    SumBytesSet(st.overlay, abs, node);
  }

  lemma WriteKeepsAccounts(st: State, p: string, content: Bytes, now: int, granted: bool)
    requires Accounted(st)
    ensures Accounted(WriteFile(st, p, content, now, granted).0)
  {
    if WriteFile(st, p, content, now, granted).1.Success? {
      var abs := Resolve(st, p);
      SetKeepsAccounts(st, abs, NewFile(abs, content, now));
    }
  }

  lemma MkdirKeepsAccounts(st: State, p: string, now: int)
    requires Accounted(st)
    ensures Accounted(Mkdir(st, p, now).0)
  {
    if Mkdir(st, p, now).1.Success? {
      var abs := Resolve(st, p);
      MkdirIsNew(st, p, now);
      SetKeepsAccounts(st, abs, NewDir(abs, now));
    }
  }

  lemma RemoveKeepsAccounts(st: State, p: string)
    requires Accounted(st)
    ensures Accounted(Remove(st, p).0)
  {
    var abs := Resolve(st, p);
    SumBytesSet(st.overlay, abs, NewDir(abs, 0));
  }

  // A mkdir that succeeds had no overlay node to replace.
  lemma MkdirIsNew(st: State, p: string, now: int)
    requires Accounted(st)
    requires Mkdir(st, p, now).1.Success?
    ensures Resolve(st, p) !in st.overlay
  {
    var abs := Resolve(st, p);
    if abs in st.overlay {
      assert Parent(abs) + [Base(abs)] == abs;
      LastStep(st, Parent(abs), Base(abs), false);
      assert false;
    }
  }

  lemma WriteEntries(st: State, p: string, content: Bytes, now: int, granted: bool)
    ensures var st' := WriteFile(st, p, content, now, granted).0;
            Entries(st') <= if Entries(st) < MAX_OVERLAY_ENTRIES then MAX_OVERLAY_ENTRIES else Entries(st)
  {
    if WriteFile(st, p, content, now, granted).1.Success? {
      var abs := Resolve(st, p);
      EntriesAfterSet(st, abs, NewFile(abs, content, now));
    }
  }

  lemma MkdirEntries(st: State, p: string, now: int)
    requires Accounted(st)
    ensures var st' := Mkdir(st, p, now).0;
            Entries(st') <= if Entries(st) < MAX_OVERLAY_ENTRIES then MAX_OVERLAY_ENTRIES else Entries(st)
  {
    if Mkdir(st, p, now).1.Success? {
      var abs := Resolve(st, p);
      MkdirIsNew(st, p, now);
      EntriesAfterSet(st, abs, NewDir(abs, now));
    }
  }

  lemma RemoveEntries(st: State, p: string)
    ensures Entries(Remove(st, p).0) == Entries(st) + if IsBareRemoval(st, OpRemove(p)) then 1 else 0
  {
    if Remove(st, p).1.Success? {
      TombstoneIsNew(st, p);
      EntriesAfterRemove(st, Resolve(st, p));
    }
  }

  lemma StepEntries(st: State, op: Op)
    requires Accounted(st)
    ensures var st' := Apply(st, op).0;
            Entries(st') <= if IsBareRemoval(st, op) then Entries(st) + 1
                            else if Entries(st) < MAX_OVERLAY_ENTRIES then MAX_OVERLAY_ENTRIES
                            else Entries(st)
  {
    match op
    case OpWrite(p, content, now, granted) => WriteEntries(st, p, content, now, granted);
    case OpMkdir(p, now) => MkdirEntries(st, p, now);
    case OpRemove(p) => RemoveEntries(st, p);
    case OpChdir(p) =>
  }

  lemma EntriesAfterSet(st: State, abs: Path, node: Node)
    ensures |st.overlay[abs := node]| + |st.deleted - {abs}|
         == Entries(st) + (if abs in st.overlay then 0 else 1) - (if abs in st.deleted then 1 else 0)
  {
    assert st.overlay[abs := node].Keys == st.overlay.Keys + {abs};
    assert |st.overlay| == |st.overlay.Keys|;
    assert |st.overlay[abs := node]| == |st.overlay[abs := node].Keys|;
    if abs !in st.deleted {
      assert st.deleted - {abs} == st.deleted;
    }
  }

  lemma EntriesAfterRemove(st: State, abs: Path)
    requires abs !in st.deleted
    ensures |st.overlay - {abs}| + |st.deleted + {abs}|
         == Entries(st) + 1 - (if abs in st.overlay then 1 else 0)
  {
    assert (st.overlay - {abs}).Keys == st.overlay.Keys - {abs};
    assert |st.overlay| == |st.overlay.Keys|;
    assert |st.overlay - {abs}| == |(st.overlay - {abs}).Keys|;
    if abs !in st.overlay {
      assert st.overlay.Keys - {abs} == st.overlay.Keys;
    }
  }

  lemma TombstoneIsNew(st: State, p: string)
    requires Remove(st, p).1.Success?
    ensures Resolve(st, p) !in st.deleted
  {
  }

  lemma {:induction false} RunAccounts(st: State, ops: seq<Op>, bound: nat)
    requires Accounted(st) && Entries(st) <= bound && MAX_OVERLAY_ENTRIES <= bound
    ensures Accounted(Run(st, ops))
    ensures Entries(Run(st, ops)) <= bound + BareRemovals(st, ops)
    ensures Run(st, ops).root == st.root
    decreases |ops|
  {
    if ops != [] {
      StepKeepsAccounts(st, ops[0]);
      StepEntries(st, ops[0]);
      var extra := if IsBareRemoval(st, ops[0]) then 1 else 0;
      RunAccounts(Apply(st, ops[0]).0, ops[1..], bound + extra);
    }
  }

  // The budgets over every run of a session: the byte count is exact, both byte caps
  // hold, and the entry cap is overshot by at most one per removal of a base path.
  lemma SessionAccounting(root: Node, dir: string, ops: seq<Op>)
    ensures var st := Run(Fresh(root, dir), ops);
            && st.bytes == SumBytes(st.overlay) && 0 <= st.bytes <= MAX_OVERLAY_BYTES
            && (forall key :: key in st.overlay ==> NodeBytes(st.overlay[key]) <= MAX_OVERLAY_FILE_BYTES)
            && st.overlay.Keys !! st.deleted
            && Entries(st) <= MAX_OVERLAY_ENTRIES + BareRemovals(Fresh(root, dir), ops)
            && st.root == root
  {
    RunAccounts(Fresh(root, dir), ops, MAX_OVERLAY_ENTRIES);
  }

  // ---- removal ----

  predicate Recreates(st: State, op: Op, abs: Path) {
    && (op.OpWrite? || op.OpMkdir?)
    && Resolve(st, op.p) == abs
    && Apply(st, op).1.Success?
  }

  predicate NeverRecreated(st: State, ops: seq<Op>, abs: Path)
    decreases |ops|
  {
    ops == [] || (!Recreates(st, ops[0], abs) && NeverRecreated(Apply(st, ops[0]).0, ops[1..], abs))
  }

  lemma {:induction false} TombstoneStays(st: State, ops: seq<Op>, abs: Path)
    requires abs in st.deleted && NeverRecreated(st, ops, abs)
    ensures abs in Run(st, ops).deleted
    decreases |ops|
  {
    if ops != [] {
      TombstoneStays(Apply(st, ops[0]).0, ops[1..], abs);
    }
  }

  // Once removed, a path and everything below it stay invisible, through any later
  // operations, until a write or mkdir succeeds on exactly that path.
  lemma RemovedStaysHidden(st: State, p: string, ops: seq<Op>, below: Path, follow: bool, depth: nat)
    requires Remove(st, p).1.Success?
    requires NeverRecreated(Remove(st, p).0, ops, Resolve(st, p))
    requires Resolve(st, p) <= below
    ensures Lookup(Run(Remove(st, p).0, ops), below, follow, depth) == Err(NotExist)
  {
    var abs := Resolve(st, p);
    TombstoneStays(Remove(st, p).0, ops, abs);
    assert below[..|abs|] == abs;
    DeletedAbove(Run(Remove(st, p).0, ops), below, |abs|);
  }
}
