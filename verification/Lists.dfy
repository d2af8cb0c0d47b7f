// The run flag of the line interpreter against the shell's own reading of `&&`, `||`
// and `;`: AND-OR lists that associate to the left (section 2.9.3 of POSIX.1-2017 XCU,
// chapter 2).
module Lists {
  import opened Parse

  // What a statement does to the shell, and what the interpreter looks at afterwards.
  datatype Machine<!S> = Machine(exec: (S, Statement) -> S, last: S -> int, quit: S -> bool)

  // The statements that ran, in order, and the state they left.
  datatype Ran<+S> = Ran(trace: seq<Statement>, state: S)

  function Exec<S>(m: Machine<S>, r: Ran<S>, st: Statement): Ran<S> {
    Ran(r.trace + [st], m.exec(r.state, st))
  }

  function NextRun(chain: Chain, last: int): bool {
    match chain
    case And => last == 0
    case Or => last != 0
    case _ => true
  }

  // The loop with its flag.
  function Loop<S>(m: Machine<S>, stmts: seq<Statement>, run: bool, r: Ran<S>): Ran<S>
    decreases |stmts|
  {
    if stmts == [] then r
    else
      var r' := if run then Exec(m, r, stmts[0]) else r;
      if run && m.quit(r'.state) then r'
      else Loop(m, stmts[1..], NextRun(stmts[0].chain, m.last(r'.state)), r')
  }

  // The grammar: a list of AND-OR lists.
  datatype AndOr = One(st: Statement) | AndThen(l: AndOr, st: Statement) | OrElse(l: AndOr, st: Statement)

  function Group(cur: AndOr, op: Chain, rest: seq<Statement>): seq<AndOr>
    decreases |rest|
  {
    if rest == [] then [cur]
    else
      var st := rest[0];
      match op
      case And => Group(AndThen(cur, st), st.chain, rest[1..])
      case Or => Group(OrElse(cur, st), st.chain, rest[1..])
      case _ => [cur] + Group(One(st), st.chain, rest[1..])
  }

  function ListOf(stmts: seq<Statement>): seq<AndOr> {
    if stmts == [] then [] else Group(One(stmts[0]), stmts[0].chain, stmts[1..])
  }

  // Left operand first; the right one runs only if the left's status asks for it.
  function EvalAndOr<S>(m: Machine<S>, t: AndOr, r: Ran<S>): Ran<S> {
    match t
    case One(st) => Exec(m, r, st)
    case AndThen(l, st) =>
      var r' := EvalAndOr(m, l, r);
      if m.quit(r'.state) || m.last(r'.state) != 0 then r' else Exec(m, r', st)
    case OrElse(l, st) =>
      var r' := EvalAndOr(m, l, r);
      if m.quit(r'.state) || m.last(r'.state) == 0 then r' else Exec(m, r', st)
  }

  function EvalList<S>(m: Machine<S>, list: seq<AndOr>, r: Ran<S>): Ran<S> {
    if list == [] then r
    else
      var r' := EvalAndOr(m, list[0], r);
      if m.quit(r'.state) then r' else EvalList(m, list[1..], r')
  }

  // A quitting prefix ends everything.
  lemma {:induction false} QuitEnds<S>(m: Machine<S>, cur: AndOr, op: Chain, rest: seq<Statement>, r: Ran<S>)
    requires m.quit(EvalAndOr(m, cur, r).state)
    ensures EvalList(m, Group(cur, op, rest), r) == EvalAndOr(m, cur, r)
    decreases |rest|
  {
    if rest != [] {
      match op
      case And => QuitEnds(m, AndThen(cur, rest[0]), rest[0].chain, rest[1..], r);
      case Or => QuitEnds(m, OrElse(cur, rest[0]), rest[0].chain, rest[1..], r);
      case _ =>
    }
  }

  lemma {:induction false} LoopIsGroup<S>(m: Machine<S>, cur: AndOr, op: Chain, rest: seq<Statement>, r: Ran<S>)
    requires !m.quit(EvalAndOr(m, cur, r).state)
    ensures var r' := EvalAndOr(m, cur, r);
            EvalList(m, Group(cur, op, rest), r) == Loop(m, rest, NextRun(op, m.last(r'.state)), r')
    decreases |rest|
  {
    if rest != [] {
      var st := rest[0];
      var r' := EvalAndOr(m, cur, r);
      if op == And || op == Or {
        var cur' := if op == And then AndThen(cur, st) else OrElse(cur, st);
        if m.quit(EvalAndOr(m, cur', r).state) {
          QuitEnds(m, cur', st.chain, rest[1..], r);
        } else {
          LoopIsGroup(m, cur', st.chain, rest[1..], r);
        }
      } else {
        var tail := Group(One(st), st.chain, rest[1..]);
        assert ([cur] + tail)[1..] == tail;
        if m.quit(EvalAndOr(m, One(st), r').state) {
          QuitEnds(m, One(st), st.chain, rest[1..], r');
        } else {
          LoopIsGroup(m, One(st), st.chain, rest[1..], r');
        }
      }
    }
  }

  // For every statement list and any command behaviour, the loop runs the same
  // statements in the same order as the recursive evaluator, and ends in the same state.
  lemma LoopRefinesLists<S>(m: Machine<S>, stmts: seq<Statement>, r: Ran<S>)
    ensures Loop(m, stmts, true, r) == EvalList(m, ListOf(stmts), r)
  {
    if stmts != [] {
      if m.quit(Exec(m, r, stmts[0]).state) {
        QuitEnds(m, One(stmts[0]), stmts[0].chain, stmts[1..], r);
      } else {
        LoopIsGroup(m, One(stmts[0]), stmts[0].chain, stmts[1..], r);
      }
    }
  }
}
