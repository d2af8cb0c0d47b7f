// The process-wide overlay counter under any interleaving of sessions.
//
// An atomic `Add` is one step and returns the new total; the comparison, the
// rollback and the update of the session's own byte count are further steps, and
// the steps of different sessions mix freely.
module PoolSteps {

  const MAX_GLOBAL_OVERLAY_BYTES := 256 * 1048576

  // Where a session stands inside `reserveOverlay` and the code around it.
  datatype Phase =
    | Idle
    // a growing write has added `delta` and read back `seen`
    | Added(delta: nat, seen: int)
    // the comparison failed: the add is still to be taken back
    | Refused(delta: nat)
    // the comparison passed: the session's own count is still to be raised
    | Granted(delta: nat)
    // a shrinking write has given `freed` back; its own count is still to be lowered
    | Shrunk(freed: nat)
    // a removal has lowered its own count; the pool is still to get `freed` back
    | Removing(freed: nat)
    // a release has given back everything; its own count is still to be zeroed
    | Releasing

  datatype Session = Session(bytes: int, phase: Phase)

  datatype World = World(total: int, sessions: seq<Session>)

  // What the session currently has inside the counter.
  function Held(s: Session): int {
    match s.phase
    case Idle => s.bytes
    case Added(delta, _) => s.bytes + delta
    case Refused(delta) => s.bytes + delta
    case Granted(delta) => s.bytes + delta
    case Shrunk(freed) => s.bytes - freed
    case Removing(freed) => s.bytes + freed
    case Releasing => 0
  }

  // The adds that lost: they passed the ceiling and will be taken back.
  predicate Losing(s: Session) {
    s.phase.Refused? || (s.phase.Added? && s.phase.seen > MAX_GLOBAL_OVERLAY_BYTES)
  }

  function Tentative(s: Session): int {
    if Losing(s) then s.phase.delta else 0
  }

  function GrantedBytes(s: Session): int {
    Held(s) - Tentative(s)
  }

  function Sum(f: Session -> int, s: seq<Session>): int {
    if s == [] then 0 else f(s[0]) + Sum(f, s[1..])
  }

  datatype Step =
    | Open
    | StartGrow(delta: nat)       // Add(+delta) of a growing write
    | Compare
    | Rollback                    // Add(-delta) of a refused write
    | Commit                      // the session's own count after a grant
    | StartShrink(freed: nat)     // Add(-freed) of a write that does not grow
    | FinishShrink
    | StartRemove(freed: nat)     // the session's own count of a removal
    | FinishRemove                // Add(-freed) of a removal
    | StartRelease                // Add(-bytes)
    | FinishRelease

  predicate Ready(s: Session, step: Step) {
    match step
    case Open => false
    case StartGrow(delta) => s.phase.Idle? && delta > 0
    case Compare => s.phase.Added?
    case Rollback => s.phase.Refused?
    case Commit => s.phase.Granted?
    case StartShrink(freed) => s.phase.Idle? && freed <= s.bytes
    case FinishShrink => s.phase.Shrunk?
    case StartRemove(freed) => s.phase.Idle? && freed <= s.bytes
    case FinishRemove => s.phase.Removing?
    case StartRelease => s.phase.Idle? && s.bytes != 0
    case FinishRelease => s.phase.Releasing?
  }

  predicate Enabled(w: World, i: nat, step: Step) {
    step.Open? || (i < |w.sessions| && Ready(w.sessions[i], step))
  }

  // The new total and the session's own side of a step.
  function Move(total: int, s: Session, step: Step): (int, Session)
    requires Ready(s, step)
  {
    match step
    case StartGrow(delta) => (total + delta, s.(phase := Added(delta, total + delta)))
    case Compare =>
      var delta := s.phase.delta;
      (total, s.(phase := if s.phase.seen > MAX_GLOBAL_OVERLAY_BYTES then Refused(delta) else Granted(delta)))
    case Rollback => (total - s.phase.delta, s.(phase := Idle))
    case Commit => (total, Session(s.bytes + s.phase.delta, Idle))
    case StartShrink(freed) => (total - freed, s.(phase := Shrunk(freed)))
    case FinishShrink => (total, Session(s.bytes - s.phase.freed, Idle))
    case StartRemove(freed) => (total, Session(s.bytes - freed, Removing(freed)))
    case FinishRemove => (total - s.phase.freed, s.(phase := Idle))
    case StartRelease => (total - s.bytes, s.(phase := Releasing))
    case FinishRelease => (total, Session(0, Idle))
  }

  function Next(w: World, i: nat, step: Step): World
    requires Enabled(w, i, step)
  {
    if step.Open? then w.(sessions := w.sessions + [Session(0, Idle)])
    else
      var (total, s) := Move(w.total, w.sessions[i], step);
      World(total, w.sessions[i := s])
  }

  // Each step is taken by one session; a schedule lists who moves and how.
  ghost predicate Schedule(w: World, steps: seq<(nat, Step)>)
    decreases |steps|
  {
    steps == [] ||
    (Enabled(w, steps[0].0, steps[0].1) && Schedule(Next(w, steps[0].0, steps[0].1), steps[1..]))
  }

  ghost function After(w: World, steps: seq<(nat, Step)>): World
    requires Schedule(w, steps)
    decreases |steps|
  {
    if steps == [] then w else After(Next(w, steps[0].0, steps[0].1), steps[1..])
  }

  predicate OwnCountIsSound(s: Session) {
    0 <= s.bytes && (s.phase.Shrunk? ==> s.phase.freed <= s.bytes)
  }

  ghost predicate Sound(w: World) {
    && w.total == Sum(Held, w.sessions)
    && Sum(GrantedBytes, w.sessions) <= MAX_GLOBAL_OVERLAY_BYTES
    && (forall i :: 0 <= i < |w.sessions| ==> OwnCountIsSound(w.sessions[i]))
  }

  lemma {:induction false} SumUpdate(f: Session -> int, s: seq<Session>, i: nat, x: Session)
    requires i < |s|
    ensures Sum(f, s[i := x]) == Sum(f, s) - f(s[i]) + f(x)
  {
    if i == 0 {
      assert s[i := x][1..] == s[1..];
    } else {
      assert s[i := x][1..] == s[1..][i - 1 := x];
      SumUpdate(f, s[1..], i - 1, x);
    }
  }

  lemma {:induction false} SumAppend(f: Session -> int, s: seq<Session>, x: Session)
    ensures Sum(f, s + [x]) == Sum(f, s) + f(x)
  {
    if s == [] {
      assert s + [x] == [x];
      assert Sum(f, [x]) == f(x) + Sum(f, []);
    } else {
      assert (s + [x])[1..] == s[1..] + [x];
      SumAppend(f, s[1..], x);
    }
  }

  lemma {:induction false} SumSplits(s: seq<Session>)
    ensures Sum(Held, s) == Sum(GrantedBytes, s) + Sum(Tentative, s)
    ensures Sum(Tentative, s) >= 0
  {
    if s != [] {
      SumSplits(s[1..]);
    }
  }

  lemma StepIsSound(w: World, i: nat, step: Step)
    requires Sound(w) && Enabled(w, i, step)
    ensures Sound(Next(w, i, step))
  {
    var w' := Next(w, i, step);
    if step.Open? {
      SumAppend(Held, w.sessions, Session(0, Idle));
      SumAppend(GrantedBytes, w.sessions, Session(0, Idle));
    } else {
      var s, s' := w.sessions[i], w'.sessions[i];
      SumUpdate(Held, w.sessions, i, s');
      SumUpdate(GrantedBytes, w.sessions, i, s');
      assert w'.total - w.total == Held(s') - Held(s);
      if step.StartGrow? {
        // an add whose own sum is within the ceiling leaves all granted bytes within it
        SumSplits(w'.sessions);
      } else {
        assert GrantedBytes(s') <= GrantedBytes(s);
      }
    }
  }

  lemma {:induction false} ScheduleIsSound(w: World, steps: seq<(nat, Step)>)
    requires Sound(w) && Schedule(w, steps)
    ensures Sound(After(w, steps))
    decreases |steps|
  {
    if steps != [] {
      StepIsSound(w, steps[0].0, steps[0].1);
      ScheduleIsSound(Next(w, steps[0].0, steps[0].1), steps[1..]);
    }
  }

  // In every reachable state the counter is exactly what was granted plus the losing
  // adds still in it, and what was granted never exceeds the ceiling.
  lemma PoolInvariant(steps: seq<(nat, Step)>)
    requires Schedule(World(0, []), steps)
    ensures var w := After(World(0, []), steps);
            && w.total == Sum(GrantedBytes, w.sessions) + Sum(Tentative, w.sessions)
            && Sum(GrantedBytes, w.sessions) <= MAX_GLOBAL_OVERLAY_BYTES
            && Sum(Tentative, w.sessions) >= 0
  {
    ScheduleIsSound(World(0, []), steps);
    SumSplits(After(World(0, []), steps).sessions);
  }

  function OwnBytes(s: Session): int {
    s.bytes
  }

  lemma {:induction false} SumQuiet(s: seq<Session>)
    requires forall i :: 0 <= i < |s| ==> s[i].phase.Idle?
    ensures Sum(Held, s) == Sum(OwnBytes, s) == Sum(GrantedBytes, s)
    ensures (forall i :: 0 <= i < |s| ==> s[i].bytes == 0) ==> Sum(OwnBytes, s) == 0
  {
    if s != [] {
      SumQuiet(s[1..]);
    }
  }

  // With nothing in flight the counter is the sum of the sessions' own counts, within
  // the ceiling; once every session is released it is back at zero.
  lemma QuietPool(steps: seq<(nat, Step)>)
    requires Schedule(World(0, []), steps)
    requires forall i :: 0 <= i < |After(World(0, []), steps).sessions| ==>
      After(World(0, []), steps).sessions[i].phase.Idle?
    ensures var w := After(World(0, []), steps);
            && w.total == Sum(OwnBytes, w.sessions) <= MAX_GLOBAL_OVERLAY_BYTES
            && ((forall i :: 0 <= i < |w.sessions| ==> w.sessions[i].bytes == 0) ==> w.total == 0)
  {
    ScheduleIsSound(World(0, []), steps);
    SumQuiet(After(World(0, []), steps).sessions);
  }

  // A refusal is decided by the total the add saw, and one session at a time a refusal
  // means exactly that the write would not have fitted.
  lemma RefusedExactly(w: World, i: nat, delta: nat)
    requires Sound(w) && Enabled(w, i, StartGrow(delta))
    ensures var w1 := Next(w, i, StartGrow(delta));
            var w2 := Next(w1, i, Compare);
            && Enabled(w1, i, Compare)
            && (w2.sessions[i].phase.Refused? <==>
                  Sum(GrantedBytes, w.sessions) + Sum(Tentative, w.sessions) + delta > MAX_GLOBAL_OVERLAY_BYTES)
            && (w2.sessions[i].phase.Refused? ==>
                  Enabled(w2, i, Rollback) && Next(w2, i, Rollback) == w)
  {
    SumSplits(w.sessions);
    var w1 := Next(w, i, StartGrow(delta));
    var w2 := Next(w1, i, Compare);
    if w2.sessions[i].phase.Refused? {
      assert Next(w2, i, Rollback).sessions == w.sessions;
    }
  }
}
