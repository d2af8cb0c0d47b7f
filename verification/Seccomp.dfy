// The seccomp filter as a compiler from a deny list to classic BPF, with the BPF
// machine it targets.
module Seccomp {

  type Word = x: int | 0 <= x < 0x1_0000_0000
  type Byte = x: int | 0 <= x < 256

  // Opcodes: class, size or comparison, and addressing bits or-ed together.
  const LD_W_ABS := 0x20
  const JMP_JEQ_K := 0x15
  const RET_K := 0x06

  const KILL_PROCESS: Word := 0x8000_0000
  const ALLOW: Word := 0x7fff_0000

  // Offsets into seccomp_data.
  const DATA_NR: Word := 0
  const DATA_ARCH: Word := 4

  datatype Insn = Insn(code: nat, jt: Byte, jf: Byte, k: Word)

  // A run returns a word or faults: it leaves the program, or meets an instruction
  // or offset outside the three forms above.
  datatype Result = Ret(k: Word) | Fault

  function Exec(prog: seq<Insn>, pc: nat, acc: Word, arch: Word, nr: Word): Result
    decreases |prog| - pc
  {
    if pc >= |prog| then Fault
    else
      var i := prog[pc];
      if i.code == LD_W_ABS && i.k == DATA_NR then Exec(prog, pc + 1, nr, arch, nr)
      else if i.code == LD_W_ABS && i.k == DATA_ARCH then Exec(prog, pc + 1, arch, arch, nr)
      else if i.code == JMP_JEQ_K then Exec(prog, pc + 1 + (if acc == i.k then i.jt else i.jf), acc, arch, nr)
      else if i.code == RET_K then Ret(i.k)
      else Fault
  }

  // What a filter is for: deny the listed calls and every foreign ABI, allow the rest.
  function Meaning(denied: seq<Word>, native: Word, arch: Word, nr: Word): Result {
    Ret(if arch != native || nr in denied then KILL_PROCESS else ALLOW)
  }

  function Head(native: Word): seq<Insn> {
    [Insn(LD_W_ABS, 0, 0, DATA_ARCH),
     Insn(JMP_JEQ_K, 1, 0, native),
     Insn(RET_K, 0, 0, KILL_PROCESS),
     Insn(LD_W_ABS, 0, 0, DATA_NR)]
  }

  function Tests(denied: seq<Word>): (code: seq<Insn>)
    ensures |code| == 2 * |denied|
  {
    if denied == [] then []
    else Tests(denied[..|denied| - 1]) + Test(denied[|denied| - 1])
  }

  function Test(nr: Word): seq<Insn> {
    [Insn(JMP_JEQ_K, 0, 1, nr), Insn(RET_K, 0, 0, KILL_PROCESS)]
  }

  function Filter(denied: seq<Word>, native: Word): seq<Insn> {
    Head(native) + Tests(denied) + [Insn(RET_K, 0, 0, ALLOW)]
  }

  lemma {:induction false} TestsAt(denied: seq<Word>, j: nat)
    requires j < |denied|
    ensures Tests(denied)[2 * j..2 * j + 2] == Test(denied[j])
    ensures Tests(denied)[2 * j] == Test(denied[j])[0] && Tests(denied)[2 * j + 1] == Test(denied[j])[1]
  {
    if j < |denied| - 1 {
      TestsAt(denied[..|denied| - 1], j);
    }
  }

  // From the j-th test on, a run of a program that agrees with the filter up to
  // instruction `len` kills, falls through to `4 + 2 * k`, or does so earlier.
  lemma {:induction false} ExecTests(prog: seq<Insn>, denied: seq<Word>, native: Word, j: nat, k: nat, nr: Word)
    requires j <= k <= |denied| && 4 + 2 * k <= |prog|
    requires prog[..4 + 2 * k] == Filter(denied, native)[..4 + 2 * k]
    ensures Exec(prog, 4 + 2 * j, nr, native, nr)
         == if nr in denied[j..k] then Ret(KILL_PROCESS) else Exec(prog, 4 + 2 * k, nr, native, nr)
    decreases k - j
  {
    if j < k {
      var f := Filter(denied, native);
      TestsAt(denied, j);
      assert f[4 + 2 * j] == Tests(denied)[2 * j] && f[4 + 2 * j + 1] == Tests(denied)[2 * j + 1];
      assert prog[..4 + 2 * k][4 + 2 * j] == f[..4 + 2 * k][4 + 2 * j];
      assert prog[..4 + 2 * k][4 + 2 * j + 1] == f[..4 + 2 * k][4 + 2 * j + 1];
      assert denied[j..k] == [denied[j]] + denied[j + 1..k];
      if nr != denied[j] {
        ExecTests(prog, denied, native, j + 1, k, nr);
        assert 4 + 2 * j + 1 + 1 == 4 + 2 * (j + 1);
      }
    }
  }

  lemma ExecHead(prog: seq<Insn>, native: Word, arch: Word, nr: Word)
    requires |prog| >= 4 && prog[..4] == Head(native)
    ensures Exec(prog, 0, 0, arch, nr)
         == if arch != native then Ret(KILL_PROCESS) else Exec(prog, 4, nr, arch, nr)
  {
    assert forall i :: 0 <= i < 4 ==> prog[i] == prog[..4][i];
    assert Exec(prog, 3, arch, arch, nr) == Exec(prog, 4, nr, arch, nr);
    assert Exec(prog, 2, arch, arch, nr) == Ret(KILL_PROCESS);
  }

  // The filter means its list: for every call on every architecture the run ends in
  // KILL exactly when it should, in ALLOW otherwise, and never leaves the program.
  lemma FilterMeans(denied: seq<Word>, native: Word, arch: Word, nr: Word)
    ensures Exec(Filter(denied, native), 0, 0, arch, nr) == Meaning(denied, native, arch, nr)
  {
    var f := Filter(denied, native);
    assert f[..4] == Head(native);
    ExecHead(f, native, arch, nr);
    if arch == native {
      ExecTests(f, denied, native, 0, |denied|, nr);
      assert denied[0..] == denied;
      assert f[4 + 2 * |denied|] == Insn(RET_K, 0, 0, ALLOW);
    }
  }

  // The program handed to the kernel carries its length in sixteen bits.
  function Installed(denied: seq<Word>, native: Word): seq<Insn> {
    Filter(denied, native)[..|Filter(denied, native)| % 0x1_0000]
  }

  // ... so, run as it is, it means the list exactly when the list is short enough.
  lemma InstalledMeans(denied: seq<Word>, native: Word)
    ensures (forall arch: Word, nr: Word :: Exec(Installed(denied, native), 0, 0, arch, nr) == Meaning(denied, native, arch, nr))
       <==> |denied| <= 32765
  {
    var prog := Installed(denied, native);
    if |denied| <= 32765 {
      assert prog == Filter(denied, native);
      forall arch: Word, nr: Word ensures Exec(prog, 0, 0, arch, nr) == Meaning(denied, native, arch, nr) {
        FilterMeans(denied, native, arch, nr);
      }
    } else {
      var nr := TruncatedFaults(denied, native);
      assert Exec(prog, 0, 0, native, nr) != Meaning(denied, native, native, nr);
    }
  }

  lemma TruncatedFaults(denied: seq<Word>, native: Word) returns (nr: Word)
    requires |denied| > 32765
    ensures Exec(Installed(denied, native), 0, 0, native, nr) == Fault
  {
    var f, prog := Filter(denied, native), Installed(denied, native);
    var len := |prog|;
    assert len % 2 == 1;
    if len < 4 {
      nr := 0;
      assert forall i :: 0 <= i < len ==> prog[i] == Head(native)[i];
      assert Exec(prog, len, native, native, nr) == Fault;
      if len == 1 {
        assert Exec(prog, 0, 0, native, nr) == Exec(prog, 1, native, native, nr);
      } else {
        assert Exec(prog, 1, native, native, nr) == Exec(prog, 3, native, native, nr);
        assert Exec(prog, 0, 0, native, nr) == Exec(prog, 1, native, native, nr);
      }
    } else {
      var k := (len - 5) / 2;
      assert len == 5 + 2 * k && k < |denied|;
      nr := Unlisted(denied[..k + 1]);
      assert prog[..4] == f[..4] == Head(native);
      ExecHead(prog, native, native, nr);
      assert prog[..4 + 2 * k] == f[..4 + 2 * k];
      ExecTests(prog, denied, native, 0, k, nr);
      assert denied[0..k] <= denied[..k + 1];
      TestsAt(denied, k);
      assert prog[4 + 2 * k] == f[4 + 2 * k] == Tests(denied)[2 * k];
      assert denied[..k + 1][k] == denied[k];
    }
  }

  // Fewer than 0x1_0000 numbers leave one below 0x1_0000 out.
  lemma Unlisted(s: seq<Word>) returns (nr: Word)
    requires |s| < 0x1_0000
    ensures nr !in s
  {
    var listed := Elements(s);
    ElementCount(s);
    var all := Below(0x1_0000);
    if all <= listed {
      SubsetCount(all, listed);
      assert false;
    }
    nr :| nr in all && nr !in listed;
  }

  ghost function Below(n: nat): (r: set<int>)
    ensures |r| == n
    ensures forall x :: x in r <==> 0 <= x < n
  {
    if n == 0 then {} else Below(n - 1) + {n - 1}
  }

  ghost function Elements(s: seq<Word>): set<Word> {
    set nr | nr in s
  }

  lemma {:induction false} ElementCount(s: seq<Word>)
    ensures |Elements(s)| <= |s|
  {
    if s == [] {
      assert Elements(s) == {};
    } else {
      ElementCount(s[1..]);
      assert Elements(s) == Elements(s[1..]) + {s[0]};
    }
  }

  lemma {:induction false} SubsetCount(a: set<int>, b: set<Word>)
    requires a <= b
    ensures |a| <= |b|
  {
    if a != {} {
      var x :| x in a;
      SubsetCount(a - {x}, b - {x});
    }
  }

  // ---- what the kernel lets through ----

  const BPF_MAXINSNS := 4096
  const SECCOMP_DATA_SIZE := 64

  predicate InsnOk(prog: seq<Insn>, pc: nat)
    requires pc < |prog|
  {
    var i := prog[pc];
    || (i.code == LD_W_ABS && i.k % 4 == 0 && i.k < SECCOMP_DATA_SIZE)
    || (i.code == JMP_JEQ_K && pc + 1 + i.jt < |prog| && pc + 1 + i.jf < |prog|)
    || i.code == RET_K
  }

  // The kernel checks a filter before it takes it: its length, every instruction, every
  // jump, and that it ends in a return.
  predicate Accepts(prog: seq<Insn>) {
    && 0 < |prog| <= BPF_MAXINSNS
    && (forall pc :: 0 <= pc < |prog| ==> InsnOk(prog, pc))
    && prog[|prog| - 1].code == RET_K
  }

  lemma FilterAt(denied: seq<Word>, native: Word, pc: nat)
    requires pc < 5 + 2 * |denied|
    ensures Filter(denied, native)[pc]
         == if pc < 4 then Head(native)[pc]
            else if pc == 4 + 2 * |denied| then Insn(RET_K, 0, 0, ALLOW)
            else Test(denied[(pc - 4) / 2])[(pc - 4) % 2]
  {
    if 4 <= pc < 4 + 2 * |denied| {
      TestsAt(denied, (pc - 4) / 2);
    }
  }

  // The kernel takes the program exactly for lists of up to 2045 numbers, and a program it
  // takes means its list.
  lemma InstalledExactly(denied: seq<Word>, native: Word)
    ensures Accepts(Installed(denied, native)) <==> |denied| <= 2045
    ensures Accepts(Installed(denied, native)) ==>
      forall arch: Word, nr: Word :: Exec(Installed(denied, native), 0, 0, arch, nr) == Meaning(denied, native, arch, nr)
  {
    var f, prog := Filter(denied, native), Installed(denied, native);
    if |denied| <= 2045 {
      assert prog == f;
      forall pc | 0 <= pc < |prog| ensures InsnOk(prog, pc) {
        FilterAt(denied, native, pc);
      }
      InstalledMeans(denied, native);
    } else if |f| >= 0x1_0000 && 0 < |prog| <= BPF_MAXINSNS {
      FilterAt(denied, native, |prog| - 1);
      FilterAt(denied, native, 1);
      assert |prog| == 3 ==> !InsnOk(prog, 1);
    }
  }

  // The construction as the source writes it, by appending in a loop.
  method BuildFilter(denied: seq<Word>, native: Word) returns (filter: seq<Insn>)
    ensures filter == Filter(denied, native)
    ensures forall arch: Word, nr: Word :: Exec(filter, 0, 0, arch, nr) == Meaning(denied, native, arch, nr)
  {
    filter := [
      Insn(LD_W_ABS, 0, 0, DATA_ARCH),
      Insn(JMP_JEQ_K, 1, 0, native),
      Insn(RET_K, 0, 0, KILL_PROCESS),
      Insn(LD_W_ABS, 0, 0, DATA_NR)
    ];
    for i := 0 to |denied|
      invariant filter == Head(native) + Tests(denied[..i])
    {
      assert denied[..i + 1][..i] == denied[..i];
      filter := filter + [Insn(JMP_JEQ_K, 0, 1, denied[i]), Insn(RET_K, 0, 0, KILL_PROCESS)];
    }
    assert denied[..|denied|] == denied;
    filter := filter + [Insn(RET_K, 0, 0, ALLOW)];
    forall arch: Word, nr: Word ensures Exec(filter, 0, 0, arch, nr) == Meaning(denied, native, arch, nr) {
      FilterMeans(denied, native, arch, nr);
    }
  }
}
