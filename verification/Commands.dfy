/**
 Command trees and what running them means, said without counters or flag bits: leaving loops
 is an outcome that travels outward, and "errexit does not apply here" is a parameter.
 */
module Commands {
  type Env = map<string, string>

  datatype Ending = Stop | FallThrough | TestNext

  /** A COMMAND; `id` stands for its address and `inv` for CMD_INVERT_RETURN. */
  datatype Cmd =
    | Null
    | Simple(id: nat, inv: bool, prog: string)
    | Group(id: nat, inv: bool, body: Cmd)
    | Seq(id: nat, inv: bool, first: Cmd, second: Cmd)
    | AndOr(id: nat, inv: bool, isAnd: bool, first: Cmd, second: Cmd)
    | If(id: nat, inv: bool, test: Cmd, thn: Cmd, els: Cmd)
    | Loop(id: nat, inv: bool, isUntil: bool, test: Cmd, action: Cmd)
    | For(id: nat, inv: bool, name: string, list: string, action: Cmd)
    | Case(id: nat, inv: bool, word: string, clauses: Clauses)

  datatype Clauses = NoClause | Clause(pattern: string, action: Cmd, ending: Ending, next: Clauses)

  /** What a simple command turns out to be when it is run. */
  datatype Act = Plain(status: int, env: Env) | Break(n: int) | Continue(n: int) | Call(name: string)

  /** The variables and `last_command_exit_value`. */
  datatype State = State(env: Env, last: int)

  /** What lies outside the executor: programs, expansions, function definitions, and `set -e`. */
  datatype World = World(
    act: (string, State) -> Act,
    words: (string, Env) -> seq<string>,
    text: (string, Env) -> string,
    matches: (string, string, Env) -> bool,
    functions: map<string, Cmd>,
    errexit: bool)

  /** How a command ends. Brk(k) and Cont(k) are still to leave or resume the k-th enclosing loop. */
  datatype Exit =
    | Done(status: int)
    | Brk(k: nat, status: int)
    | Cont(k: nat, status: int)
    | ErrExit(status: int)
    | OutOfFuel

  datatype Result = Result(exit: Exit, st: State)

  predicate Pending(x: Exit) { x.Brk? || x.Cont? }
  predicate Returns(x: Exit) { x.Done? || Pending(x) }

  /** A pending exit names one of the lvl loops around it, and has set the last status. */
  predicate Bounded(r: Result, lvl: nat) {
    Pending(r.exit) ==> 1 <= r.exit.k <= lvl
  }

  predicate Recorded(r: Result) {
    Pending(r.exit) ==> r.st.last == r.exit.status
  }

  function Flip(inv: bool, status: int): int {
    if inv then (if status == 0 then 1 else 0) else status
  }

  /** The end of `execute_command_internal`: `!` acts on the status, which becomes the last one. */
  function Close(inv: bool, r: Result): Result {
    match r.exit
    case Done(s) => Result(Done(Flip(inv, s)), r.st.(last := Flip(inv, s)))
    case Brk(k, s) => Result(Brk(k, Flip(inv, s)), r.st.(last := Flip(inv, s)))
    case Cont(k, s) => Result(Cont(k, Flip(inv, s)), r.st.(last := Flip(inv, s)))
    case _ => r
  }

  /** `break n` and `continue n` inside lvl loops. */
  function Jumps(isBreak: bool, n: int, lvl: nat): Exit {
    if lvl == 0 then Done(0)
    else if n <= 0 then Brk(lvl, 1)
    else
      var k := if n > lvl then lvl else n;
      if isBreak then Brk(k, 0) else Cont(k, 0)
  }

  /** Whether errexit is off for a command: it is covered from outside, or inverted itself. */
  predicate Covered(w: World, ign: bool, inv: bool) {
    ign || (w.errexit && inv)
  }

  /** The outcome of a loop that its body or test leaves with a pending exit. */
  function Leave(x: Exit, status: int): Exit {
    match x
    case Brk(k, _) => if k <= 1 then Done(status) else Brk(k - 1, status)
    case Cont(k, _) => if k <= 1 then Done(status) else Cont(k - 1, status)
    case _ => Done(status)
  }

  /** Whether the k-th enclosing loop is this one and goes on with its next turn. */
  predicate Resumes(x: Exit) {
    x.Done? || (x.Cont? && x.k <= 1)
  }

  /** A command inside lvl loops; `fuel` bounds loop turns and nested calls. */
  function Run(w: World, c: Cmd, ign: bool, lvl: nat, st: State, fuel: nat): (r: Result)
    ensures Bounded(r, lvl) && Recorded(r)
    decreases fuel, c, 3
  {
    if c.Null? then Result(Done(0), st)
    else Close(c.inv, RunBody(w, c, Covered(w, ign, c.inv), lvl, st, fuel))
  }

  function RunBody(w: World, c: Cmd, g: bool, lvl: nat, st: State, fuel: nat): (r: Result)
    requires !c.Null?
    ensures Bounded(r, lvl)
    decreases fuel, c, 2
  {
    match c
    case Simple(_, _, _) => RunSimple(w, c, g, lvl, st, fuel)
    case Group(_, _, b) => Run(w, b, g, lvl, st, fuel)
    case Seq(_, _, a, b) =>
      var r := Run(w, a, g, lvl, st, fuel);
      if r.exit.Done? then Run(w, b, g, lvl, r.st, fuel) else r
    case AndOr(_, _, isAnd, a, b) =>
      var r := Run(w, a, true, lvl, st, fuel);
      if r.exit.Done? && isAnd == (r.exit.status == 0) then Run(w, b, g, lvl, r.st, fuel) else r
    case If(_, _, t, a, b) =>
      var r := Run(w, t, true, lvl, st, fuel);
      if !r.exit.Done? then r
      else Run(w, if r.exit.status == 0 then a else b, g, lvl, r.st, fuel)
    case Loop(_, _, _, _, _) => RunLoop(w, c, g, lvl + 1, 0, st, fuel)
    case For(_, _, x, l, a) => RunFor(w, x, w.words(l, st.env), a, g, lvl + 1, 0, st, fuel)
    case Case(_, _, word, cs) => RunCase(w, w.text(word, st.env), cs, g, lvl, 0, st, fuel)
  }

  function RunSimple(w: World, c: Cmd, g: bool, lvl: nat, st: State, fuel: nat): (res: Result)
    requires c.Simple?
    ensures Bounded(res, lvl)
    decreases fuel, c, 1
  {
    Check(w, g, SimpleOutcome(w, c, g, lvl, st, fuel))
  }

  /** The errexit test after a simple command. */
  function Check(w: World, g: bool, r: Result): Result {
    if Returns(r.exit) && r.exit.status != 0 && w.errexit && !g then
      Result(ErrExit(r.exit.status), r.st.(last := r.exit.status))
    else r
  }

  function SimpleOutcome(w: World, c: Cmd, g: bool, lvl: nat, st: State, fuel: nat): (res: Result)
    requires c.Simple?
    ensures Bounded(res, lvl)
    decreases fuel, c, 0
  {
    match w.act(c.prog, st)
    case Plain(s, env) => Result(Done(s), st.(env := env))
    case Break(n) => Result(Jumps(true, n, lvl), st)
    case Continue(n) => Result(Jumps(false, n, lvl), st)
    case Call(f) =>
      if f !in w.functions then Result(Done(127), st)
      else if fuel == 0 then Result(OutOfFuel, st)
      else Run(w, w.functions[f], g, 0, st, fuel - 1)
  }

  /** One turn of a loop: it ends the loop, or the loop goes on with a status and a state. */
  datatype Turn = Ends(res: Result) | Again(status: int, st: State)

  /** `while` and `until`; lvl counts this loop too, and `status` is that of the last body run. */
  function RunLoop(w: World, c: Cmd, g: bool, lvl: nat, status: int, st: State, fuel: nat): (res: Result)
    requires c.Loop? && lvl >= 1
    ensures Bounded(res, lvl - 1)
    decreases fuel, c, 1
  {
    match LoopTurn(w, c, g, lvl, status, st, fuel)
    case Ends(res) => res
    case Again(s, st1) => if fuel == 0 then Result(OutOfFuel, st1) else RunLoop(w, c, g, lvl, s, st1, fuel - 1)
  }

  function LoopTurn(w: World, c: Cmd, g: bool, lvl: nat, status: int, st: State, fuel: nat): (turn: Turn)
    requires c.Loop? && lvl >= 1
    ensures turn.Ends? ==> Bounded(turn.res, lvl - 1)
    decreases fuel, c, 0
  {
    var r := Run(w, c.test, true, lvl, st, fuel);
    if !Returns(r.exit) then Ends(r)
    else if c.isUntil == (r.exit.status == 0) then Ends(Result(Leave(r.exit, status), r.st))
    else AfterBody(if r.exit.Done? then Run(w, c.action, g, lvl, r.st, fuel) else r)
  }

  /** What a loop does with the outcome of its body. */
  function AfterBody(r: Result): Turn {
    if !Returns(r.exit) then Ends(r)
    else if Resumes(r.exit) then Again(r.exit.status, r.st)
    else Ends(Result(Leave(r.exit, r.exit.status), r.st))
  }

  function RunFor(w: World, x: string, words: seq<string>, a: Cmd, g: bool, lvl: nat, status: int, st: State,
                  fuel: nat): (res: Result)
    requires lvl >= 1
    ensures Bounded(res, lvl - 1)
    decreases fuel, a, 4, |words|
  {
    if words == [] then Result(Done(status), st)
    else
      match AfterBody(Run(w, a, g, lvl, st.(env := st.env[x := words[0]]), fuel))
      case Ends(res) => res
      case Again(s, st1) => RunFor(w, x, words[1..], a, g, lvl, s, st1, fuel)
  }

  /** The clauses still to be tried for a word expanded once; `status` is that of the last action run. */
  function RunCase(w: World, word: string, cs: Clauses, g: bool, lvl: nat, status: int, st: State,
                   fuel: nat): (res: Result)
    ensures Bounded(res, lvl) && Recorded(res)
    decreases fuel, cs, 6
  {
    if cs.NoClause? then Result(Done(status), st)
    else if w.matches(cs.pattern, word, st.env) then RunActions(w, word, cs, g, lvl, st, fuel)
    else RunCase(w, word, cs.next, g, lvl, status, st, fuel)
  }

  /** A clause that is taken, and those its `;&` falls into. */
  function RunActions(w: World, word: string, cs: Clauses, g: bool, lvl: nat, st: State, fuel: nat): (res: Result)
    requires cs.Clause?
    ensures Bounded(res, lvl) && Recorded(res)
    decreases fuel, cs, 5
  {
    var r := Run(w, cs.action, g, lvl, st, fuel);
    if !r.exit.Done? || cs.ending == Stop then r
    else if cs.ending == TestNext then RunCase(w, word, cs.next, g, lvl, r.exit.status, r.st, fuel)
    else if cs.next.NoClause? then r
    else RunActions(w, word, cs.next, g, lvl, r.st, fuel)
  }

  /** The outcome of a simple command, by what it turns out to be. */
  lemma SimpleIs(w: World, c: Cmd, g: bool, lvl: nat, st: State, fuel: nat)
    requires c.Simple?
    ensures SimpleOutcome(w, c, g, lvl, st, fuel) ==
            match w.act(c.prog, st)
            case Plain(s, env) => Result(Done(s), st.(env := env))
            case Break(n) => Result(Jumps(true, n, lvl), st)
            case Continue(n) => Result(Jumps(false, n, lvl), st)
            case Call(f) =>
              if f !in w.functions then Result(Done(127), st)
              else if fuel == 0 then Result(OutOfFuel, st)
              else Run(w, w.functions[f], g, 0, st, fuel - 1)
  {}

  lemma SimpleCovered(w: World, g: bool, inv: bool)
    requires g == Covered(w, g, inv)
    ensures w.errexit && inv ==> g
  {}
}
