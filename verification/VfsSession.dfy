// The session object: its maps, byte count and working directory are updated in
// place, and each method is tied to the function of the same name on `View()`.
module VfsSession {
  import opened Paths
  import opened Vfs
  import opened VfsListing
  import opened Sorting
  import Pool = PoolSteps

  // The process-wide byte counter, as one session sees it between its own steps.
  class OverlayPool {
    var total: int

    constructor ()
      ensures total == 0
    {
      total := 0;
    }

    // Add first, compare the sum, take a losing add back.
    method Reserve(delta: int) returns (granted: bool)
      modifies this
      ensures granted == (delta <= 0 || old(total) + delta <= Pool.MAX_GLOBAL_OVERLAY_BYTES)
      ensures total == if granted then old(total) + delta else old(total)
    {
      if delta <= 0 {
        total := total + delta;
        return true;
      }
      total := total + delta;
      if total > Pool.MAX_GLOBAL_OVERLAY_BYTES {
        total := total - delta;
        return false;
      }
      return true;
    }
  }

  // Every directory files its children under their own names.
  predicate Named(node: Node) {
    node.Dir? ==> forall name :: name in node.children ==>
      node.children[name].name == name && Named(node.children[name])
  }

  predicate NamedOverlay(overlay: map<Path, Node>) {
    forall key :: key in overlay ==> Named(overlay[key]) && overlay[key].name == Base(key)
  }

  lemma {:induction false} LookupNamed(st: State, abs: Path, follow: bool, depth: nat)
    requires Named(st.root) && NamedOverlay(st.overlay)
    requires Lookup(st, abs, follow, depth).Ok?
    ensures Named(Lookup(st, abs, follow, depth).value)
    decreases MAX_LINK_DEPTH + 1 - depth, |abs| + 1
  {
    WalkNamed(st, abs, 0, st.root, follow, depth);
  }

  lemma {:induction false} WalkNamed(st: State, abs: Path, i: nat, node: Node, follow: bool, depth: nat)
    requires Named(st.root) && NamedOverlay(st.overlay) && Named(node)
    requires i <= |abs| && depth <= MAX_LINK_DEPTH
    requires Walk(st, abs, i, node, follow, depth).Ok?
    ensures Named(Walk(st, abs, i, node, follow, depth).value)
    decreases MAX_LINK_DEPTH + 1 - depth, |abs| - i
  {
    if i < |abs| {
      var child := Child(st, abs[..i], node, abs[i]).value;
      if child.Link? && (i < |abs| - 1 || follow) {
        var target := Against(abs[..i], child.target);
        LookupNamed(st, target, true, depth + 1);
        WalkNamed(st, abs, i + 1, Lookup(st, target, true, depth + 1).value, follow, depth);
      } else {
        WalkNamed(st, abs, i + 1, child, follow, depth);
      }
    }
  }

  predicate ByName(a: Node, b: Node) {
    Before(a.name, b.name)
  }

  lemma ByNameIsWeakOrder()
    ensures WeakOrder(ByName)
  {
    forall a: Node, b: Node ensures ByName(a, b) ==> !ByName(b, a) {
      BeforeAsymmetric(a.name, b.name);
    }
    forall a: Node, b: Node, c: Node ensures !ByName(b, a) && !ByName(c, b) ==> !ByName(c, a) {
      BeforeNegTransitive(a.name, b.name, c.name);
    }
  }

  // The elements of `out` are the entries, each under its own name.
  ghost predicate Covers(out: seq<Node>, entries: map<string, Node>) {
    && (forall node :: node in out ==> node.name in entries && entries[node.name] == node)
    && (forall name :: name in entries ==> entries[name] in out)
  }

  function Untombstoned(st: State, abs: Path, seen: map<string, Node>): map<string, Node> {
    map name | name in seen && !IsDeleted(st, abs + [name]) :: seen[name]
  }

  // `out` lists `entries`: all of them, each once, in strict order of name.
  ghost predicate Lists(out: seq<Node>, entries: map<string, Node>) {
    && Covers(out, entries)
    && (forall i, j :: 0 <= i < j < |out| ==> Before(out[i].name, out[j].name))
  }

  lemma SortLists(out: seq<Node>, entries: map<string, Node>)
    requires Covers(out, entries)
    requires forall i, j :: 0 <= i < j < |out| ==> out[i].name != out[j].name
    ensures Lists(Sort(out, ByName), entries)
  {
    ByNameIsWeakOrder();
    SortAscends(out, ByName);
    SortPermutes(out, ByName);
    var sorted := Sort(out, ByName);
    SameElements(out, sorted);
    PermutationKeepsDistinct(out, sorted);
    assert Covers(sorted, entries);
    forall i, j | 0 <= i < j < |sorted| ensures Before(sorted[i].name, sorted[j].name) {
      SortedStrictly(sorted, entries, i, j);
    }
  }

  lemma SameElements(a: seq<Node>, b: seq<Node>)
    requires multiset(a) == multiset(b)
    ensures forall node :: node in a <==> node in b
  {
    forall node ensures node in a <==> node in b {
      assert node in a <==> node in multiset(a);
      assert node in b <==> node in multiset(b);
    }
  }

  lemma SortedStrictly(sorted: seq<Node>, entries: map<string, Node>, i: nat, j: nat)
    requires i < j < |sorted| && sorted[i] != sorted[j]
    requires Ascending(sorted, ByName)
    requires Covers(sorted, entries)
    ensures Before(sorted[i].name, sorted[j].name)
  {
    assert !ByName(sorted[j], sorted[i]);
    assert sorted[i] in sorted && sorted[j] in sorted;
    if !Before(sorted[i].name, sorted[j].name) {
      BeforeTotal(sorted[i].name, sorted[j].name);
      assert false;
    }
  }

  class Session {
    const base: Node
    const pool: OverlayPool
    var overlay: map<Path, Node>
    var deleted: set<Path>
    var cwd: Path
    var bytes: int

    function View(): State
      reads this
    {
      State(base, overlay, deleted, cwd, bytes)
    }

    ghost predicate Valid()
      reads this
    {
      Named(base) && NamedOverlay(overlay)
    }

    constructor (root: Node, pool: OverlayPool, dir: string)
      requires Named(root)
      ensures View() == Fresh(root, dir) && this.pool == pool && Valid()
    {
      this.base := root;
      this.pool := pool;
      overlay := map[];
      deleted := {};
      cwd := Against([], if dir == "" then "/" else dir);
      bytes := 0;
      new;
      SplitEmpty();
    }

    method IsHidden(abs: Path) returns (hidden: bool)
      ensures hidden == IsDeleted(View(), abs)
    {
      var p := abs;
      while true
        invariant IsDeleted(View(), p) == IsDeleted(View(), abs)
        decreases |p|
      {
        if p in deleted {
          return true;
        }
        if p == [] {
          return false;
        }
        p := Parent(p);
      }
    }

    method ChildNode(dirPath: Path, dir: Node, name: string) returns (r: Outcome<Node>)
      requires dir.Dir?
      ensures r == Child(View(), dirPath, dir, name)
    {
      var key := dirPath + [name];
      var hidden := IsHidden(key);
      if hidden {
        return Err(NotExist);
      }
      if key in overlay {
        return Ok(overlay[key]);
      }
      return if name in dir.children then Ok(dir.children[name]) else Err(NotExist);
    }

    method LookupNode(abs: Path, follow: bool, depth: nat) returns (r: Outcome<Node>)
      ensures r == Lookup(View(), abs, follow, depth)
      decreases MAX_LINK_DEPTH + 1 - depth, 1
    {
      if depth > MAX_LINK_DEPTH {
        return Err(NotExist);
      }
      var hidden := IsHidden(abs);
      if hidden {
        return Err(NotExist);
      }
      var node, i := base, 0;
      while i < |abs|
        invariant i <= |abs|
        invariant Walk(View(), abs, i, node, follow, depth) == Walk(View(), abs, 0, base, follow, depth)
      {
        var next := NextNode(abs, i, node, follow, depth);
        if next.Err? {
          return next;
        }
        node := next.value;
        i := i + 1;
      }
      return Ok(node);
    }

    // One turn of that loop: the child, or what it links to.
    method NextNode(abs: Path, i: nat, node: Node, follow: bool, depth: nat) returns (next: Outcome<Node>)
      requires i < |abs| && depth <= MAX_LINK_DEPTH
      ensures next == Next(View(), abs, i, node, follow, depth)
      decreases MAX_LINK_DEPTH + 1 - depth, 0
    {
      if !node.Dir? {
        return Err(NotDir);
      }
      next := ChildNode(abs[..i], node, abs[i]);
      if next.Ok? && next.value.Link? && (i < |abs| - 1 || follow) {
        next := LookupNode(Against(abs[..i], next.value.target), true, depth + 1);
      }
    }

    method ReadDir(p: string) returns (r: Outcome<seq<Node>>)
      requires Valid()
      ensures r.Err? <==> VfsListing.ReadDir(View(), p).Err?
      ensures r.Err? ==> r.error == VfsListing.ReadDir(View(), p).error
      ensures r.Ok? ==> Lists(r.value, VfsListing.ReadDir(View(), p).value)
    {
      var abs := Resolve(View(), p);
      var found := LookupNode(abs, true, 0);
      if found.Err? {
        return Err(found.error);
      }
      var dir := found.value;
      if !dir.Dir? {
        return Err(NotDir);
      }
      LookupNamed(View(), abs, true, 0);
      var seen := Overlaid(abs, dir);
      var out := Visible(abs, seen);
      assert Untombstoned(View(), abs, seen) == Merged(View(), abs, dir);
      SortLists(out, Merged(View(), abs, dir));
      return Ok(Sort(out, ByName));
    }

    // The nodes that no tombstone hides, in no particular order.
    method Visible(abs: Path, seen: map<string, Node>) returns (out: seq<Node>)
      requires forall name :: name in seen ==> seen[name].name == name
      ensures Covers(out, Untombstoned(View(), abs, seen))
      ensures forall i, j :: 0 <= i < j < |out| ==> out[i].name != out[j].name
    {
      var todo := seen.Keys;
      ghost var done := {};
      out := [];
      while todo != {}
        invariant todo + done == seen.Keys && todo !! done
        invariant forall node :: node in out ==>
          node.name in done && seen[node.name] == node && !IsDeleted(View(), abs + [node.name])
        invariant forall name :: name in done && !IsDeleted(View(), abs + [name]) ==> seen[name] in out
        invariant forall i, j :: 0 <= i < j < |out| ==> out[i].name != out[j].name
        decreases todo
      {
        var name :| name in todo;
        var hidden := IsHidden(abs + [name]);
        if !hidden {
          assert forall i :: 0 <= i < |out| ==> out[i] in out;
          out := out + [seen[name]];
        }
        todo, done := todo - {name}, done + {name};
      }
    }

    // Base children with the overlay's entries laid over them.
    method Overlaid(abs: Path, dir: Node) returns (seen: map<string, Node>)
      requires Valid() && dir.Dir? && Named(dir)
      ensures seen.Keys == dir.children.Keys + OverlayNames(View(), abs)
      ensures forall name :: name in seen ==> seen[name].name == name
      ensures forall name :: name in seen && !IsDeleted(View(), abs + [name]) ==>
        seen[name] == Merged(View(), abs, dir)[name]
    {
      seen := dir.children;
      var keys := overlay.Keys;
      while keys != {}
        invariant keys <= overlay.Keys
        invariant forall name :: name in seen <==>
          name in dir.children || abs + [name] in overlay.Keys - keys
        invariant forall name :: name in seen ==>
          seen[name] == if abs + [name] in overlay.Keys - keys then overlay[abs + [name]] else dir.children[name]
        decreases keys
      {
        var key :| key in keys;
        keys := keys - {key};
        if key != [] && Parent(key) == abs {
          assert abs + [Base(key)] == key;
          seen := seen[Base(key) := overlay[key]];
        } else {
          forall name ensures abs + [name] != key {
            assert Parent(abs + [name]) == abs;
          }
        }
      }
      forall name ensures name in OverlayNames(View(), abs) <==> abs + [name] in overlay {
        EntryKey(View(), abs, name);
      }
    }

    method ReadFile(p: string) returns (r: Outcome<Bytes>)
      ensures r == Vfs.ReadFile(View(), p)
    {
      var node := LookupNode(Resolve(View(), p), true, 0);
      if node.Err? {
        return Err(node.error);
      }
      if node.value.Dir? {
        return Err(IsDir);
      }
      return Ok(node.value.Content());
    }

    method Chdir(p: string) returns (status: Status)
      modifies this`cwd
      ensures (View(), status) == Vfs.Chdir(old(View()), p)
    {
      var abs := Resolve(View(), p);
      var node := LookupNode(abs, true, 0);
      if node.Err? {
        return Failure(node.error);
      }
      if !node.value.Dir? {
        return Failure(NotDir);
      }
      cwd := abs;
      return Success;
    }

    method CheckWrite(abs: Path, content: Bytes) returns (status: Status)
      ensures status == WriteCheck(View(), abs, content)
    {
      if abs == [] {
        return Failure(IsDir);
      }
      var dir := LookupNode(Parent(abs), true, 0);
      if dir.Err? {
        return Failure(NotExist);
      }
      if !dir.value.Dir? {
        return Failure(NotDir);
      }
      var existing := LookupNode(abs, false, 0);
      if existing.Ok? && existing.value.Dir? {
        return Failure(IsDir);
      }
      if |content| > MAX_OVERLAY_FILE_BYTES {
        return Failure(NoSpace);
      }
      if bytes - OverlayLen(View(), abs) + |content| > MAX_OVERLAY_BYTES {
        return Failure(NoSpace);
      }
      if abs !in overlay && |overlay| + |deleted| >= MAX_OVERLAY_ENTRIES {
        return Failure(NoSpace);
      }
      return Success;
    }

    method WriteFile(p: string, content: Bytes, now: int) returns (status: Status)
      requires Valid()
      modifies this, pool
      ensures Valid()
      ensures (View(), status) == Vfs.WriteFile(old(View()), p, content, now,
        old(pool.total) + |content| - OverlayLen(old(View()), Resolve(old(View()), p)) <= Pool.MAX_GLOBAL_OVERLAY_BYTES)
      ensures pool.total - bytes == old(pool.total) - old(bytes)
    {
      var abs := Resolve(View(), p);
      status := CheckWrite(abs, content);
      if status.Failure? {
        return;
      }
      var oldLen := OverlayLen(View(), abs);
      var granted := pool.Reserve(|content| - oldLen);
      if !granted {
        return Failure(NoSpace);
      }
      Install(abs, NewFile(abs, content, now));
      bytes := bytes + |content| - oldLen;
    }

    method Install(abs: Path, node: Node)
      requires Valid() && Named(node) && node.name == Base(abs)
      modifies this`overlay, this`deleted
      ensures Valid()
      ensures overlay == old(overlay)[abs := node] && deleted == old(deleted) - {abs}
    {
      deleted := deleted - {abs};
      overlay := overlay[abs := node];
    }

    method Mkdir(p: string, now: int) returns (status: Status)
      requires Valid()
      modifies this`overlay, this`deleted
      ensures Valid()
      ensures (View(), status) == Vfs.Mkdir(old(View()), p, now)
    {
      var abs := Resolve(View(), p);
      if abs == [] {
        return Failure(Exist);
      }
      var dir := LookupNode(Parent(abs), true, 0);
      if dir.Err? {
        return Failure(NotExist);
      }
      if !dir.value.Dir? {
        return Failure(NotDir);
      }
      var existing := LookupNode(abs, false, 0);
      if existing.Ok? {
        return Failure(Exist);
      }
      if abs !in deleted && |overlay| + |deleted| >= MAX_OVERLAY_ENTRIES {
        return Failure(NoSpace);
      }
      Install(abs, NewDir(abs, now));
      return Success;
    }

    method Remove(p: string) returns (status: Status)
      requires Valid()
      modifies this, pool
      ensures Valid()
      ensures (View(), status) == Vfs.Remove(old(View()), p)
      ensures pool.total - bytes == old(pool.total) - old(bytes)
    {
      var abs := Resolve(View(), p);
      if abs == [] {
        return Failure(Permission);
      }
      var node := LookupNode(abs, false, 0);
      if node.Err? {
        return Failure(node.error);
      }
      if abs in overlay && overlay[abs].File? {
        bytes := bytes - |overlay[abs].content|;
        var _ := pool.Reserve(-|overlay[abs].content|);
      }
      overlay := overlay - {abs};
      deleted := deleted + {abs};
      return Success;
    }

    // Returns the session's bytes to the pool; the overlay itself stays readable.
    method Release()
      requires Valid() && 0 <= bytes
      modifies this`bytes, pool
      ensures Valid() && bytes == 0
      ensures View() == old(View()).(bytes := 0)
      ensures pool.total == old(pool.total) - old(bytes)
    {
      if bytes != 0 {
        var _ := pool.Reserve(-bytes);
        bytes := 0;
      }
    }
  }

  lemma SplitEmpty()
    ensures Against([], "") == Against([], "/") == []
  {
    assert Split("/") == ["", ""];
    assert Fold([], ["", ""]) == Fold([], [""]) == Fold([], []);
  }
}
