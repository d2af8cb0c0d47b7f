// Many sessions on one tree and one pool, their calls cut into the steps between which
// other sessions may move.  Each session's deltas come from its own overlay, each grant
// from the counter as that session read it.
module VfsWorld {
  import opened Basics
  import opened Paths
  import opened Vfs
  import opened VfsRuns
  import Pool = PoolSteps

  // What a session asks for.
  datatype Call =
    | Write(p: string, content: Bytes, now: int)
    | Make(p: string, now: int)
    | Delete(p: string)
    | Change(p: string)

  function OpOf(call: Call, granted: bool): Op {
    match call
    case Write(p, content, now) => OpWrite(p, content, now, granted)
    case Make(p, now) => OpMkdir(p, now)
    case Delete(p) => OpRemove(p)
    case Change(p) => OpChdir(p)
  }

  function CallOf(op: Op): Call {
    match op
    case OpWrite(p, content, now, _) => Write(p, content, now)
    case OpMkdir(p, now) => Make(p, now)
    case OpRemove(p) => Delete(p)
    case OpChdir(p) => Change(p)
  }

  // A session between its steps: its state before the call in flight, where that call
  // stands with the pool, and the calls it finished with the grants they received.
  datatype Member = Member(
    dir: string,
    st: State,
    phase: Pool.Phase,
    pending: Option<Call>,
    log: seq<Op>,
    released: bool)

  datatype World = World(root: Node, total: int, members: seq<Member>)

  datatype Step =
    | Enter(dir: string)   // a new session
    | Ask(call: Call)      // a call up to its first access to the counter, or to its end
    | Proceed              // the next step of the call in flight
    | Leave                // release

  function New(root: Node): World {
    World(root, 0, [])
  }

  function Finish(m: Member, op: Op): Member {
    m.(st := Apply(m.st, op).0, phase := Pool.Idle, pending := None, log := m.log + [op])
  }

  function Start(total: int, m: Member, call: Call): (int, Member) {
    match call
    case Write(p, content, now) =>
      var abs := Resolve(m.st, p);
      var delta := |content| - OverlayLen(m.st, abs);
      if WriteCheck(m.st, abs, content).Failure? then (total, Finish(m, OpOf(call, false)))
      else if delta > 0 then (total + delta, m.(phase := Pool.Added(delta, total + delta), pending := Some(call)))
      else (total + delta, m.(phase := Pool.Shrunk(-delta), pending := Some(call)))
    case Delete(p) =>
      var abs := Resolve(m.st, p);
      if Remove(m.st, p).1.Success? && abs in m.st.overlay && !m.st.overlay[abs].Dir?
      then (total, m.(phase := Pool.Removing(OverlayLen(m.st, abs)), pending := Some(call)))
      else (total, Finish(m, OpOf(call, true)))
    case _ => (total, Finish(m, OpOf(call, true)))
  }

  predicate InFlight(m: Member) {
    !m.phase.Idle? && (m.phase.Releasing? || m.pending.Some?)
  }

  function Continue(total: int, m: Member): (int, Member)
    requires InFlight(m)
  {
    match m.phase
    case Added(delta, seen) =>
      (total, m.(phase := if seen > Pool.MAX_GLOBAL_OVERLAY_BYTES then Pool.Refused(delta) else Pool.Granted(delta)))
    case Refused(delta) => (total - delta, Finish(m, OpOf(m.pending.value, false)))
    case Granted(_) => (total, Finish(m, OpOf(m.pending.value, true)))
    case Shrunk(_) => (total, Finish(m, OpOf(m.pending.value, true)))
    case Removing(freed) => (total - freed, Finish(m, OpOf(m.pending.value, true)))
    case Releasing => (total, m.(st := m.st.(bytes := 0), phase := Pool.Idle, released := true))
  }

  predicate Ready(m: Member, step: Step) {
    match step
    case Enter(_) => false
    case Ask(_) => m.phase.Idle? && !m.released
    case Proceed => InFlight(m)
    case Leave => m.phase.Idle? && !m.released
  }

  predicate Enabled(w: World, i: nat, step: Step) {
    step.Enter? || (i < |w.members| && Ready(w.members[i], step))
  }

  function Move(total: int, m: Member, step: Step): (int, Member)
    requires Ready(m, step)
  {
    match step
    case Ask(call) => Start(total, m, call)
    case Proceed => Continue(total, m)
    case Leave =>
      if m.st.bytes == 0 then (total, m.(released := true))
      else (total - m.st.bytes, m.(phase := Pool.Releasing))
  }

  function Newcomer(root: Node, dir: string): Member {
    Member(dir, Fresh(root, dir), Pool.Idle, None, [], false)
  }

  function Next(w: World, i: nat, step: Step): World
    requires Enabled(w, i, step)
  {
    if step.Enter? then w.(members := w.members + [Newcomer(w.root, step.dir)])
    else
      var (total, m) := Move(w.total, w.members[i], step);
      w.(total := total, members := w.members[i := m])
  }

  ghost predicate Schedule(w: World, steps: seq<(nat, Step)>)
    decreases |steps|
  {
    steps == [] ||
    (Enabled(w, steps[0].0, steps[0].1) && Schedule(Next(w, steps[0].0, steps[0].1), steps[1..]))
  }

  ghost function After(w: World, steps: seq<(nat, Step)>): World
    requires Schedule(w, steps)
    decreases |steps|
  {
    if steps == [] then w else After(Next(w, steps[0].0, steps[0].1), steps[1..])
  }

  // ---- what every step keeps ----

  // The state is that of the finished calls run alone; a release has zeroed its bytes.
  ghost predicate Alone(root: Node, m: Member) {
    m.st == if m.released then Run(Fresh(root, m.dir), m.log).(bytes := 0) else Run(Fresh(root, m.dir), m.log)
  }

  // The call in flight passed its checks, and its delta is that of the overlay.
  predicate Engaged(m: Member) {
    match m.phase
    case Idle => m.pending.None?
    case Added(delta, _) => Growing(m, delta)
    case Refused(delta) => Growing(m, delta)
    case Granted(delta) => Growing(m, delta)
    case Shrunk(freed) => Rewriting(m, 0 - freed)
    case Removing(freed) =>
      && m.pending.Some? && m.pending.value.Delete?
      && freed == OverlayLen(m.st, Resolve(m.st, m.pending.value.p))
      && Remove(m.st, m.pending.value.p).1.Success?
    case Releasing => m.pending.None?
  }

  predicate Rewriting(m: Member, delta: int) {
    && m.pending.Some? && m.pending.value.Write?
    && var abs := Resolve(m.st, m.pending.value.p);
    && WriteCheck(m.st, abs, m.pending.value.content).Success?
    && delta == |m.pending.value.content| - OverlayLen(m.st, abs)
  }

  predicate Growing(m: Member, delta: nat) {
    delta > 0 && Rewriting(m, delta)
  }

  ghost predicate Follows(root: Node, m: Member) {
    Alone(root, m) && Engaged(m) && (m.released ==> m.phase.Idle?)
  }

  // What the pool sees of a session.
  function Own(m: Member): Pool.Session {
    Pool.Session(if m.phase.Removing? then m.st.bytes - m.phase.freed else m.st.bytes, m.phase)
  }

  function Owns(members: seq<Member>): seq<Pool.Session> {
    seq(|members|, i requires 0 <= i < |members| => Own(members[i]))
  }

  function PoolOf(w: World): Pool.World {
    Pool.World(w.total, Owns(w.members))
  }

  ghost predicate Sound(w: World) {
    && Pool.Sound(PoolOf(w))
    && (forall i :: 0 <= i < |w.members| ==> Follows(w.root, w.members[i]))
  }

  lemma {:induction false} RunSnoc(st: State, ops: seq<Op>, op: Op)
    ensures Run(st, ops + [op]) == Apply(Run(st, ops), op).0
    decreases |ops|
  {
    if ops == [] {
      assert [op][1..] == [] && [] + [op] == [op];
      assert Run(Apply(st, op).0, []) == Apply(st, op).0;
    } else {
      assert (ops + [op])[1..] == ops[1..] + [op];
      RunSnoc(Apply(st, ops[0]).0, ops[1..], op);
    }
  }

  // Finishing a call is one more operation of the session's own run.
  lemma FinishFollows(root: Node, m: Member, op: Op)
    requires Alone(root, m) && !m.released
    ensures Follows(root, Finish(m, op))
  {
    RunSnoc(Fresh(root, m.dir), m.log, op);
  }

  lemma StartFollows(root: Node, total: int, m: Member, call: Call)
    requires Follows(root, m) && m.phase.Idle? && !m.released
    ensures Follows(root, Start(total, m, call).1)
  {
    FinishFollows(root, m, OpOf(call, true));
    FinishFollows(root, m, OpOf(call, false));
  }

  lemma ContinueFollows(root: Node, total: int, m: Member)
    requires Follows(root, m) && InFlight(m)
    ensures Follows(root, Continue(total, m).1)
  {
    if m.pending.Some? {
      FinishFollows(root, m, OpOf(m.pending.value, true));
      FinishFollows(root, m, OpOf(m.pending.value, false));
    }
  }

  // An overlay file never holds more than the session's own count.
  lemma FreedFits(root: Node, m: Member, abs: Path)
    requires Alone(root, m) && !m.released
    ensures OverlayLen(m.st, abs) <= m.st.bytes
  {
    RunAccounts(Fresh(root, m.dir), m.log, MAX_OVERLAY_ENTRIES);
    if abs in m.st.overlay {
      SumBytesAt(m.st.overlay, abs);
    }
  }

  // ---- every step is a step of the pool, or none ----

  ghost predicate PoolMoves(a: Pool.World, b: Pool.World, i: nat) {
    a == b || exists step: Pool.Step :: Pool.Enabled(a, i, step) && b == Pool.Next(a, i, step)
  }

  // What a step does to the pool's side: nothing, or the named step.
  ghost predicate OwnMoves(total: int, s: Pool.Session, total': int, s': Pool.Session, step: Pool.Step) {
    (total', s') == (total, s) || (Pool.Ready(s, step) && (total', s') == Pool.Move(total, s, step))
  }

  lemma LiftMove(w: World, i: nat, total: int, m: Member, step: Pool.Step)
    requires i < |w.members| && OwnMoves(w.total, Own(w.members[i]), total, Own(m), step)
    ensures PoolMoves(PoolOf(w), PoolOf(w.(total := total, members := w.members[i := m])), i)
  {
    var a, b := PoolOf(w), PoolOf(w.(total := total, members := w.members[i := m]));
    assert b.sessions == a.sessions[i := Own(m)];
    if (total, Own(m)) == (w.total, Own(w.members[i])) {
      assert a.sessions[i := Own(m)] == a.sessions;
    } else {
      assert Pool.Enabled(a, i, step) && b == Pool.Next(a, i, step);
    }
  }

  lemma WriteMoves(root: Node, total: int, m: Member, call: Call)
    requires Follows(root, m) && m.phase.Idle? && !m.released && call.Write?
    ensures var (total', m') := Start(total, m, call);
            var delta := |call.content| - OverlayLen(m.st, Resolve(m.st, call.p));
            OwnMoves(total, Own(m), total', Own(m'), if delta > 0 then Pool.StartGrow(delta) else Pool.StartShrink(-delta))
  {
    FreedFits(root, m, Resolve(m.st, call.p));
  }

  lemma DeleteMoves(root: Node, total: int, m: Member, call: Call)
    requires Follows(root, m) && m.phase.Idle? && !m.released && call.Delete?
    ensures var (total', m') := Start(total, m, call);
            OwnMoves(total, Own(m), total', Own(m'), Pool.StartRemove(OverlayLen(m.st, Resolve(m.st, call.p))))
  {
    FreedFits(root, m, Resolve(m.st, call.p));
  }

  lemma OtherCallsMove(total: int, m: Member, call: Call)
    requires m.phase.Idle? && (call.Make? || call.Change?)
    ensures var (total', m') := Start(total, m, call);
            (total', Own(m')) == (total, Own(m))
  {}

  // The pool's name for the next step of a call in flight.
  function StepOf(phase: Pool.Phase): Pool.Step
    requires !phase.Idle?
  {
    match phase
    case Added(_, _) => Pool.Compare
    case Refused(_) => Pool.Rollback
    case Granted(_) => Pool.Commit
    case Shrunk(_) => Pool.FinishShrink
    case Removing(_) => Pool.FinishRemove
    case Releasing => Pool.FinishRelease
  }

  // The bytes a finished write leaves, granted or not.
  lemma WriteBytes(m: Member, delta: int, granted: bool)
    requires Rewriting(m, delta)
    ensures var bytes := Apply(m.st, OpOf(m.pending.value, granted)).0.bytes;
            bytes == m.st.bytes + if delta > 0 && !granted then 0 else delta
  {}

  lemma ContinueMoves(root: Node, total: int, m: Member)
    requires Follows(root, m) && InFlight(m)
    ensures var (total', m') := Continue(total, m);
            OwnMoves(total, Own(m), total', Own(m'), StepOf(m.phase))
  {
    match m.phase {
      case Refused(delta) => WriteEnds(total, m, delta, false);
      case Granted(delta) => WriteEnds(total, m, delta, true);
      case Shrunk(freed) => WriteEnds(total, m, 0 - freed, true);
      case Removing(_) => RemoveMoves(total, m);
      case _ =>
    }
  }

  lemma WriteEnds(total: int, m: Member, delta: int, granted: bool)
    requires Rewriting(m, delta)
    requires m.phase == (if delta <= 0 then Pool.Shrunk(0 - delta) else if granted then Pool.Granted(delta) else Pool.Refused(delta))
    requires delta <= 0 ==> granted
    ensures var (total', m') := Continue(total, m);
            OwnMoves(total, Own(m), total', Own(m'), StepOf(m.phase))
  {
    WriteBytes(m, delta, granted);
  }

  lemma RemoveMoves(total: int, m: Member)
    requires Engaged(m) && m.phase.Removing?
    ensures var (total', m') := Continue(total, m);
            OwnMoves(total, Own(m), total', Own(m'), Pool.FinishRemove)
  {}

  lemma NextMoves(w: World, i: nat, step: Step)
    requires (forall j :: 0 <= j < |w.members| ==> Follows(w.root, w.members[j])) && Enabled(w, i, step)
    ensures PoolMoves(PoolOf(w), PoolOf(Next(w, i, step)), i)
  {
    if step.Enter? {
      var w' := Next(w, i, step);
      assert PoolOf(w').sessions == PoolOf(w).sessions + [Pool.Session(0, Pool.Idle)];
      assert Pool.Enabled(PoolOf(w), i, Pool.Open) && PoolOf(w') == Pool.Next(PoolOf(w), i, Pool.Open);
    } else {
      var m := w.members[i];
      var (total, m') := Move(w.total, m, step);
      match step {
        case Ask(call) =>
          if call.Write? {
            WriteMoves(w.root, w.total, m, call);
            var delta := |call.content| - OverlayLen(m.st, Resolve(m.st, call.p));
            LiftMove(w, i, total, m', if delta > 0 then Pool.StartGrow(delta) else Pool.StartShrink(-delta));
          } else if call.Delete? {
            DeleteMoves(w.root, w.total, m, call);
            LiftMove(w, i, total, m', Pool.StartRemove(OverlayLen(m.st, Resolve(m.st, call.p))));
          } else {
            OtherCallsMove(w.total, m, call);
            LiftMove(w, i, total, m', Pool.Open);
          }
        case Proceed =>
          ContinueMoves(w.root, w.total, m);
          LiftMove(w, i, total, m', StepOf(m.phase));
        case Leave => LiftMove(w, i, total, m', Pool.StartRelease);
      }
    }
  }

  lemma NextFollows(w: World, i: nat, step: Step, j: nat)
    requires (forall k :: 0 <= k < |w.members| ==> Follows(w.root, w.members[k])) && Enabled(w, i, step)
    requires j < |Next(w, i, step).members|
    ensures Follows(w.root, Next(w, i, step).members[j])
  {
    if !step.Enter? && j == i {
      var m := w.members[i];
      match step {
        case Ask(call) => StartFollows(w.root, w.total, m, call);
        case Proceed => ContinueFollows(w.root, w.total, m);
        case Leave =>
      }
    }
  }

  lemma NextIsSound(w: World, i: nat, step: Step)
    requires Sound(w) && Enabled(w, i, step)
    ensures Sound(Next(w, i, step)) && Next(w, i, step).root == w.root
  {
    var w' := Next(w, i, step);
    NextMoves(w, i, step);
    if PoolOf(w) != PoolOf(w') {
      var move: Pool.Step :| Pool.Enabled(PoolOf(w), i, move) && PoolOf(w') == Pool.Next(PoolOf(w), i, move);
      Pool.StepIsSound(PoolOf(w), i, move);
    }
    forall j | 0 <= j < |w'.members| ensures Follows(w'.root, w'.members[j]) {
      NextFollows(w, i, step, j);
    }
  }

  // ---- a call that nobody interrupts ----

  function Ahead(phase: Pool.Phase): nat {
    match phase
    case Idle => 0
    case Added(_, _) => 2
    case _ => 1
  }

  function ToEnd(total: int, m: Member): (int, Member)
    decreases Ahead(m.phase)
  {
    if !InFlight(m) then (total, m)
    else
      var (total', m') := Continue(total, m);
      ToEnd(total', m')
  }

  predicate Fits(total: int, m: Member, call: Call) {
    call.Write? && total + |call.content| - OverlayLen(m.st, Resolve(m.st, call.p)) <= Pool.MAX_GLOBAL_OVERLAY_BYTES
  }

  // The call ended as the given operation, with as many bytes moved in the pool as in the
  // session.
  predicate EndsAs(total: int, m: Member, op: Op, total': int, m': Member) {
    && m'.st == Apply(m.st, op).0
    && m'.phase.Idle?
    && CallsOf(m'.log) == CallsOf(m.log) + [CallOf(op)]
    && total' - m'.st.bytes == total - m.st.bytes
  }

  // The steps of one call, taken together, are what the session object promises of it,
  // with the grant that the pool's total decides.
  lemma CallToEnd(root: Node, total: int, m: Member, call: Call)
    requires Follows(root, m) && m.phase.Idle? && !m.released
    ensures var (total1, m1) := Start(total, m, call);
            var (total', m') := ToEnd(total1, m1);
            EndsAs(total, m, OpOf(call, Fits(total, m, call)), total', m')
  {
    match call {
      case Write(_, _, _) => WriteCallEnds(total, m, call);
      case Delete(_) => DeleteCallEnds(total, m, call);
      case _ => FinishTells(m, OpOf(call, true));
    }
  }

  lemma WriteCallEnds(total: int, m: Member, call: Call)
    requires m.phase.Idle? && call.Write?
    ensures var (total1, m1) := Start(total, m, call);
            var (total', m') := ToEnd(total1, m1);
            EndsAs(total, m, OpOf(call, Fits(total, m, call)), total', m')
  {
    var fits, delta := Fits(total, m, call), |call.content| - OverlayLen(m.st, Resolve(m.st, call.p));
    var (total1, m1) := Start(total, m, call);
    FinishTells(m, OpOf(call, false));
    if !m1.phase.Idle? {
      WriteBytes(m1, delta, fits);
      WriteToEnd(total1, m1, delta, fits);
      FinishTells(m1, OpOf(call, fits || delta <= 0));
    }
  }

  lemma DeleteCallEnds(total: int, m: Member, call: Call)
    requires m.phase.Idle? && call.Delete?
    ensures var (total1, m1) := Start(total, m, call);
            var (total', m') := ToEnd(total1, m1);
            EndsAs(total, m, OpOf(call, false), total', m')
  {
    var (total1, m1) := Start(total, m, call);
    FinishTells(m, OpOf(call, true));
    if !m1.phase.Idle? {
      RemoveToEnd(total1, m1);
    }
  }

  lemma RemoveToEnd(total: int, m: Member)
    requires Engaged(m) && m.phase.Removing?
    ensures ToEnd(total, m) == (total - m.phase.freed, Finish(m, OpOf(m.pending.value, true)))
  {}

  lemma WriteToEnd(total: int, m: Member, delta: int, fits: bool)
    requires Rewriting(m, delta)
    requires delta > 0 ==> m.phase == Pool.Added(delta, total) && fits == (total <= Pool.MAX_GLOBAL_OVERLAY_BYTES)
    requires delta <= 0 ==> m.phase.Shrunk?
    ensures var granted := fits || delta <= 0;
            ToEnd(total, m) == (if granted then total else total - delta, Finish(m, OpOf(m.pending.value, granted)))
  {
    if delta > 0 {
      var (total1, m1) := Continue(total, m);
      assert ToEnd(total, m) == ToEnd(total1, m1);
      assert ToEnd(total1, m1) == Continue(total1, m1);
    }
  }

  // ---- runs ----

  function CallsOf(log: seq<Op>): seq<Call> {
    seq(|log|, k requires 0 <= k < |log| => CallOf(log[k]))
  }

  // The calls a session finished, and the one in flight.
  function Told(m: Member): seq<Call> {
    CallsOf(m.log) + Pending(m)
  }

  // Everything session `i` has asked for so far.
  function Asked(w: World, i: nat): seq<Call> {
    if i >= |w.members| then [] else Told(w.members[i])
  }

  function Pending(m: Member): seq<Call> {
    if m.pending.Some? then [m.pending.value] else []
  }

  // What the schedule makes session `i` ask for.
  function Scripted(steps: seq<(nat, Step)>, i: nat): seq<Call> {
    if steps == [] then []
    else (if steps[0].0 == i && steps[0].1.Ask? then [steps[0].1.call] else []) + Scripted(steps[1..], i)
  }

  lemma NextAsks(w: World, i: nat, step: Step, j: nat)
    requires (forall k :: 0 <= k < |w.members| ==> Follows(w.root, w.members[k])) && Enabled(w, i, step)
    ensures Asked(Next(w, i, step), j) == Asked(w, j) + if i == j && step.Ask? then [step.call] else []
  {
    var w' := Next(w, i, step);
    if j < |w.members| {
      MoveAsks(w, i, step, j);
    } else {
      assert CallsOf([]) == [];
    }
  }

  lemma FinishTells(m: Member, op: Op)
    ensures Told(Finish(m, op)) == CallsOf(m.log) + [CallOf(op)]
  {
    assert CallsOf(m.log + [op]) == CallsOf(m.log) + [CallOf(op)];
  }

  lemma StartTells(total: int, m: Member, call: Call)
    requires m.phase.Idle? && m.pending.None?
    ensures Told(Start(total, m, call).1) == Told(m) + [call]
  {
    FinishTells(m, OpOf(call, true));
    FinishTells(m, OpOf(call, false));
    assert CallsOf(m.log) + [] == CallsOf(m.log);
  }

  lemma ContinueTells(total: int, m: Member)
    requires InFlight(m) && Engaged(m)
    ensures Told(Continue(total, m).1) == Told(m)
  {
    if m.pending.Some? {
      FinishTells(m, OpOf(m.pending.value, true));
      FinishTells(m, OpOf(m.pending.value, false));
    }
  }

  lemma MoveAsks(w: World, i: nat, step: Step, j: nat)
    requires (forall k :: 0 <= k < |w.members| ==> Follows(w.root, w.members[k])) && Enabled(w, i, step)
    requires j < |w.members|
    ensures Asked(Next(w, i, step), j) == Asked(w, j) + if i == j && step.Ask? then [step.call] else []
  {
    var m := w.members[j];
    assert Told(m) + [] == Told(m);
    if i == j {
      match step {
        case Ask(call) => StartTells(w.total, m, call);
        case Proceed => ContinueTells(w.total, m);
        case _ =>
      }
    }
  }

  lemma {:induction false} ScheduleIsSound(w: World, steps: seq<(nat, Step)>, i: nat)
    requires Sound(w) && Schedule(w, steps)
    ensures Sound(After(w, steps)) && After(w, steps).root == w.root
    ensures Asked(After(w, steps), i) == Asked(w, i) + Scripted(steps, i)
    decreases |steps|
  {
    if steps != [] {
      var w1 := Next(w, steps[0].0, steps[0].1);
      NextIsSound(w, steps[0].0, steps[0].1);
      NextAsks(w, steps[0].0, steps[0].1, i);
      ScheduleIsSound(w1, steps[1..], i);
      var asked := if steps[0].0 == i && steps[0].1.Ask? then [steps[0].1.call] else [];
      ConcatAssociates(Asked(w, i), asked, Scripted(steps[1..], i));
    }
  }

  // In every interleaving, each session is in the state its own calls lead to when they
  // run alone with the grants they received, and nobody else's calls are among them.
  lemma SessionsRunAlone(root: Node, steps: seq<(nat, Step)>, i: nat)
    requires Schedule(New(root), steps) && i < |After(New(root), steps).members|
    ensures var m := After(New(root), steps).members[i];
            && (!m.released ==> m.st == Run(Fresh(root, m.dir), m.log))
            && (m.released ==> m.st == Run(Fresh(root, m.dir), m.log).(bytes := 0))
            && Told(m) == Scripted(steps, i)
  {
    NewIsSound(root);
    ScheduleIsSound(New(root), steps, i);
  }

  lemma NewIsSound(root: Node)
    ensures Sound(New(root))
  {
    assert Owns([]) == [];
  }

  function OwnCount(members: seq<Member>): int {
    if members == [] then 0 else members[0].st.bytes + OwnCount(members[1..])
  }

  // ... while the counter is what the granted writes hold plus the losing adds still in
  // it, never above the ceiling but for those, and with no call in flight the sum of the
  // sessions' own counts: zero once all have left.
  lemma PoolServesWorld(root: Node, steps: seq<(nat, Step)>)
    requires Schedule(New(root), steps)
    ensures var w := After(New(root), steps);
            var granted := Pool.Sum(Pool.GrantedBytes, Owns(w.members));
            && w.total == granted + Pool.Sum(Pool.Tentative, Owns(w.members))
            && granted <= Pool.MAX_GLOBAL_OVERLAY_BYTES
            && ((forall i :: 0 <= i < |w.members| ==> w.members[i].phase.Idle?) ==> w.total == OwnCount(w.members) == granted)
            && ((forall i :: 0 <= i < |w.members| ==> w.members[i].released) ==> w.total == 0)
  {
    NewIsSound(root);
    ScheduleIsSound(New(root), steps, 0);
    var w := After(New(root), steps);
    Pool.SumSplits(Owns(w.members));
    if forall i :: 0 <= i < |w.members| ==> w.members[i].phase.Idle? {
      QuietCounts(w.members);
    }
    if forall i :: 0 <= i < |w.members| ==> w.members[i].released {
      forall i | 0 <= i < |w.members| ensures w.members[i].phase.Idle? && w.members[i].st.bytes == 0 {
        assert Follows(w.root, w.members[i]);
      }
      QuietCounts(w.members);
    }
  }

  lemma {:induction false} QuietCounts(members: seq<Member>)
    requires forall i :: 0 <= i < |members| ==> members[i].phase.Idle?
    ensures Pool.Sum(Pool.GrantedBytes, Owns(members)) == Pool.Sum(Pool.Held, Owns(members)) == OwnCount(members)
    ensures (forall i :: 0 <= i < |members| ==> members[i].st.bytes == 0) ==> OwnCount(members) == 0
  {
    if members != [] {
      assert Owns(members)[1..] == Owns(members[1..]);
      QuietCounts(members[1..]);
    } else {
      assert Owns(members) == [];
    }
  }
}
