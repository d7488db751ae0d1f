/** What running commands guarantees about errexit, fuel, and `continue` in a test. */
module CommandLaws {
  import opened Commands

  /** The same world without `set -e`. */
  function Off(w: World): World {
    w.(errexit := false)
  }

  /** Where the outcome is not an errexit jump, `set -e` has made no difference at all. */
  ghost predicate Unstopped(r: Result, off: Result) {
    r.exit.ErrExit? || r == off
  }

  /**
   `set -e` only ever stops a run: unless a command ends in the errexit jump, it runs exactly as
   without `set -e`, whether or not it was covered there; and a covered command never jumps.
   */
  lemma {:induction false} ErrexitOnlyStops(w: World, c: Cmd, ign: bool, ign': bool, lvl: nat, st: State, fuel: nat)
    ensures Unstopped(Run(w, c, ign, lvl, st, fuel), Run(Off(w), c, ign', lvl, st, fuel))
    ensures ign || !w.errexit ==> !Run(w, c, ign, lvl, st, fuel).exit.ErrExit?
    decreases fuel, c, 3
  {
    if !c.Null? {
      BodyOnlyStops(w, c, Covered(w, ign, c.inv), Covered(Off(w), ign', c.inv), lvl, st, fuel);
    }
  }

  lemma {:induction false} BodyOnlyStops(w: World, c: Cmd, g: bool, g': bool, lvl: nat, st: State, fuel: nat)
    requires !c.Null?
    ensures Unstopped(RunBody(w, c, g, lvl, st, fuel), RunBody(Off(w), c, g', lvl, st, fuel))
    ensures g || !w.errexit ==> !RunBody(w, c, g, lvl, st, fuel).exit.ErrExit?
    decreases fuel, c, 2
  {
    match c
    case Simple(_, _, _) => SimpleOnlyStops(w, c, g, g', lvl, st, fuel);
    case Group(_, _, b) => ErrexitOnlyStops(w, b, g, g', lvl, st, fuel);
    case Seq(_, _, a, b) =>
      ErrexitOnlyStops(w, a, g, g', lvl, st, fuel);
      ErrexitOnlyStops(w, b, g, g', lvl, Run(w, a, g, lvl, st, fuel).st, fuel);
    case AndOr(_, _, _, a, b) =>
      ErrexitOnlyStops(w, a, true, true, lvl, st, fuel);
      ErrexitOnlyStops(w, b, g, g', lvl, Run(w, a, true, lvl, st, fuel).st, fuel);
    case If(_, _, t, a, b) =>
      ErrexitOnlyStops(w, t, true, true, lvl, st, fuel);
      ErrexitOnlyStops(w, a, g, g', lvl, Run(w, t, true, lvl, st, fuel).st, fuel);
      ErrexitOnlyStops(w, b, g, g', lvl, Run(w, t, true, lvl, st, fuel).st, fuel);
    case Loop(_, _, _, _, _) => LoopOnlyStops(w, c, g, g', lvl + 1, 0, st, fuel);
    case For(_, _, x, l, a) => ForOnlyStops(w, x, w.words(l, st.env), a, g, g', lvl + 1, 0, st, fuel);
    case Case(_, _, word, cs) => CaseOnlyStops(w, w.text(word, st.env), cs, g, g', lvl, 0, st, fuel);
  }

  lemma {:induction false} SimpleOnlyStops(w: World, c: Cmd, g: bool, g': bool, lvl: nat, st: State, fuel: nat)
    requires c.Simple?
    ensures Unstopped(RunSimple(w, c, g, lvl, st, fuel), RunSimple(Off(w), c, g', lvl, st, fuel))
    ensures g || !w.errexit ==> !RunSimple(w, c, g, lvl, st, fuel).exit.ErrExit?
    decreases fuel, c, 1
  {
    var act := w.act(c.prog, st);
    if act.Call? && act.name in w.functions && fuel > 0 {
      ErrexitOnlyStops(w, w.functions[act.name], g, g', 0, st, fuel - 1);
    }
    assert Unstopped(SimpleOutcome(w, c, g, lvl, st, fuel), SimpleOutcome(Off(w), c, g', lvl, st, fuel));
  }

  lemma {:induction false} LoopOnlyStops(w: World, c: Cmd, g: bool, g': bool, lvl: nat, status: int, st: State,
                                         fuel: nat)
    requires c.Loop? && lvl >= 1
    ensures Unstopped(RunLoop(w, c, g, lvl, status, st, fuel), RunLoop(Off(w), c, g', lvl, status, st, fuel))
    ensures g || !w.errexit ==> !RunLoop(w, c, g, lvl, status, st, fuel).exit.ErrExit?
    decreases fuel, c, 1
  {
    ErrexitOnlyStops(w, c.test, true, true, lvl, st, fuel);
    var r := Run(w, c.test, true, lvl, st, fuel);
    ErrexitOnlyStops(w, c.action, g, g', lvl, r.st, fuel);
    var turn := LoopTurn(w, c, g, lvl, status, st, fuel);
    assert turn == LoopTurn(Off(w), c, g', lvl, status, st, fuel) || (turn.Ends? && turn.res.exit.ErrExit?);
    if fuel > 0 && turn.Again? {
      LoopOnlyStops(w, c, g, g', lvl, turn.status, turn.st, fuel - 1);
    }
  }

  lemma {:induction false} ForOnlyStops(w: World, x: string, words: seq<string>, a: Cmd, g: bool, g': bool, lvl: nat,
                                        status: int, st: State, fuel: nat)
    requires lvl >= 1
    ensures Unstopped(RunFor(w, x, words, a, g, lvl, status, st, fuel),
                      RunFor(Off(w), x, words, a, g', lvl, status, st, fuel))
    ensures g || !w.errexit ==> !RunFor(w, x, words, a, g, lvl, status, st, fuel).exit.ErrExit?
    decreases fuel, a, 4, |words|
  {
    if words != [] {
      var st1 := st.(env := st.env[x := words[0]]);
      ErrexitOnlyStops(w, a, g, g', lvl, st1, fuel);
      var turn := AfterBody(Run(w, a, g, lvl, st1, fuel));
      if turn.Again? {
        ForOnlyStops(w, x, words[1..], a, g, g', lvl, turn.status, turn.st, fuel);
      }
    }
  }

  lemma {:induction false} CaseOnlyStops(w: World, word: string, cs: Clauses, g: bool, g': bool, lvl: nat,
                                         status: int, st: State, fuel: nat)
    ensures Unstopped(RunCase(w, word, cs, g, lvl, status, st, fuel),
                      RunCase(Off(w), word, cs, g', lvl, status, st, fuel))
    ensures g || !w.errexit ==> !RunCase(w, word, cs, g, lvl, status, st, fuel).exit.ErrExit?
    decreases fuel, cs, 6
  {
    if cs.Clause? {
      ActionsOnlyStop(w, word, cs, g, g', lvl, st, fuel);
      CaseOnlyStops(w, word, cs.next, g, g', lvl, status, st, fuel);
    }
  }

  lemma {:induction false} ActionsOnlyStop(w: World, word: string, cs: Clauses, g: bool, g': bool, lvl: nat,
                                           st: State, fuel: nat)
    requires cs.Clause?
    ensures Unstopped(RunActions(w, word, cs, g, lvl, st, fuel), RunActions(Off(w), word, cs, g', lvl, st, fuel))
    ensures g || !w.errexit ==> !RunActions(w, word, cs, g, lvl, st, fuel).exit.ErrExit?
    decreases fuel, cs, 5
  {
    ErrexitOnlyStops(w, cs.action, g, g', lvl, st, fuel);
    var r := Run(w, cs.action, g, lvl, st, fuel);
    if r.exit.Done? {
      CaseOnlyStops(w, word, cs.next, g, g', lvl, r.exit.status, r.st, fuel);
      if cs.next.Clause? {
        ActionsOnlyStop(w, word, cs.next, g, g', lvl, r.st, fuel);
      }
    }
  }

  /** A run that did not run out of fuel is the same with more. */
  ghost predicate Finished(r: Result, more: Result) {
    r.exit.OutOfFuel? || r == more
  }

  /** Fuel only bounds the search for an outcome: once a command has one, no larger bound changes it. */
  lemma {:induction false} FuelIsIrrelevant(w: World, c: Cmd, ign: bool, lvl: nat, st: State, fuel: nat, more: nat)
    requires fuel <= more
    ensures Finished(Run(w, c, ign, lvl, st, fuel), Run(w, c, ign, lvl, st, more))
    decreases more
  {
    if fuel < more {
      FuelIsIrrelevant(w, c, ign, lvl, st, fuel, more - 1);
      OneMore(w, c, ign, lvl, st, more - 1);
    }
  }

  lemma {:induction false} OneMore(w: World, c: Cmd, ign: bool, lvl: nat, st: State, fuel: nat)
    ensures Finished(Run(w, c, ign, lvl, st, fuel), Run(w, c, ign, lvl, st, fuel + 1))
    decreases fuel, c, 3
  {
    if !c.Null? { BodyOneMore(w, c, Covered(w, ign, c.inv), lvl, st, fuel); }
  }

  lemma {:induction false} BodyOneMore(w: World, c: Cmd, g: bool, lvl: nat, st: State, fuel: nat)
    requires !c.Null?
    ensures Finished(RunBody(w, c, g, lvl, st, fuel), RunBody(w, c, g, lvl, st, fuel + 1))
    decreases fuel, c, 2
  {
    match c
    case Simple(_, _, _) =>
      var act := w.act(c.prog, st);
      if act.Call? && act.name in w.functions && fuel > 0 {
        OneMore(w, w.functions[act.name], g, 0, st, fuel - 1);
      }
      assert Finished(SimpleOutcome(w, c, g, lvl, st, fuel), SimpleOutcome(w, c, g, lvl, st, fuel + 1));
    case Group(_, _, b) => OneMore(w, b, g, lvl, st, fuel);
    case Seq(_, _, a, b) =>
      OneMore(w, a, g, lvl, st, fuel);
      OneMore(w, b, g, lvl, Run(w, a, g, lvl, st, fuel).st, fuel);
    case AndOr(_, _, _, a, b) =>
      OneMore(w, a, true, lvl, st, fuel);
      OneMore(w, b, g, lvl, Run(w, a, true, lvl, st, fuel).st, fuel);
    case If(_, _, t, a, b) =>
      OneMore(w, t, true, lvl, st, fuel);
      OneMore(w, a, g, lvl, Run(w, t, true, lvl, st, fuel).st, fuel);
      OneMore(w, b, g, lvl, Run(w, t, true, lvl, st, fuel).st, fuel);
    case Loop(_, _, _, _, _) => LoopOneMore(w, c, g, lvl + 1, 0, st, fuel);
    case For(_, _, x, l, a) => ForOneMore(w, x, w.words(l, st.env), a, g, lvl + 1, 0, st, fuel);
    case Case(_, _, word, cs) => CaseOneMore(w, w.text(word, st.env), cs, g, lvl, 0, st, fuel);
  }

  lemma {:induction false} LoopOneMore(w: World, c: Cmd, g: bool, lvl: nat, status: int, st: State, fuel: nat)
    requires c.Loop? && lvl >= 1
    ensures Finished(RunLoop(w, c, g, lvl, status, st, fuel), RunLoop(w, c, g, lvl, status, st, fuel + 1))
    decreases fuel, c, 1
  {
    OneMore(w, c.test, true, lvl, st, fuel);
    OneMore(w, c.action, g, lvl, Run(w, c.test, true, lvl, st, fuel).st, fuel);
    var turn := LoopTurn(w, c, g, lvl, status, st, fuel);
    assert turn == LoopTurn(w, c, g, lvl, status, st, fuel + 1) || (turn.Ends? && turn.res.exit.OutOfFuel?);
    if fuel > 0 && turn.Again? {
      LoopOneMore(w, c, g, lvl, turn.status, turn.st, fuel - 1);
    }
  }

  lemma {:induction false} ForOneMore(w: World, x: string, words: seq<string>, a: Cmd, g: bool, lvl: nat, status: int,
                                      st: State, fuel: nat)
    requires lvl >= 1
    ensures Finished(RunFor(w, x, words, a, g, lvl, status, st, fuel),
                     RunFor(w, x, words, a, g, lvl, status, st, fuel + 1))
    decreases fuel, a, 4, |words|
  {
    if words != [] {
      var st1 := st.(env := st.env[x := words[0]]);
      OneMore(w, a, g, lvl, st1, fuel);
      var turn := AfterBody(Run(w, a, g, lvl, st1, fuel));
      if turn.Again? {
        ForOneMore(w, x, words[1..], a, g, lvl, turn.status, turn.st, fuel);
      }
    }
  }

  lemma {:induction false} CaseOneMore(w: World, word: string, cs: Clauses, g: bool, lvl: nat, status: int, st: State,
                                       fuel: nat)
    ensures Finished(RunCase(w, word, cs, g, lvl, status, st, fuel), RunCase(w, word, cs, g, lvl, status, st, fuel + 1))
    decreases fuel, cs, 6
  {
    if cs.Clause? {
      ActionsOneMore(w, word, cs, g, lvl, st, fuel);
      CaseOneMore(w, word, cs.next, g, lvl, status, st, fuel);
    }
  }

  lemma {:induction false} ActionsOneMore(w: World, word: string, cs: Clauses, g: bool, lvl: nat, st: State, fuel: nat)
    requires cs.Clause?
    ensures Finished(RunActions(w, word, cs, g, lvl, st, fuel), RunActions(w, word, cs, g, lvl, st, fuel + 1))
    decreases fuel, cs, 5
  {
    OneMore(w, cs.action, g, lvl, st, fuel);
    var r := Run(w, cs.action, g, lvl, st, fuel);
    if r.exit.Done? {
      CaseOneMore(w, word, cs.next, g, lvl, r.exit.status, r.st, fuel);
      if cs.next.Clause? {
        ActionsOneMore(w, word, cs.next, g, lvl, r.st, fuel);
      }
    }
  }

  /** `until continue; do ...; done` ends at once instead of resuming. */
  lemma UntilContinue(w: World, p: string, a: Cmd, st: State, fuel: nat)
    requires w.act(p, st) == Continue(1)
    ensures Run(w, Loop(0, false, true, Simple(1, false, p), a), false, 0, st, fuel) == Result(Done(0), st.(last := 0))
  {
    var t := Simple(1, false, p);
    var c := Loop(0, false, true, t, a);
    assert SimpleOutcome(w, t, true, 1, st, fuel) == Result(Cont(1, 0), st);
    assert RunBody(w, t, true, 1, st, fuel) == Result(Cont(1, 0), st);
    assert Run(w, t, true, 1, st, fuel) == Result(Cont(1, 0), st.(last := 0));
    assert LoopTurn(w, c, false, 1, 0, st, fuel) == Ends(Result(Done(0), st.(last := 0)));
    assert RunBody(w, c, false, 0, st, fuel) == Result(Done(0), st.(last := 0));
  }
}
