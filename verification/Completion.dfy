/** What a command that ends normally returns, and what is run when. */
module Completion {
  import opened Commands
  import opened Surroundings

  /** A whole that ended normally with status s before an inversion was looked at. */
  function Ended(inv: bool, s: int, env: Env): Result {
    Result(Done(Flip(inv, s)), State(env, Flip(inv, s)))
  }

  lemma Closes(w: World, c: Cmd, p: Point, r: Result)
    requires !c.Null? && RunBody(w, c, Covered(w, p.ign, c.inv), p.lvl, p.st, p.fuel) == r && r.exit.Done?
    ensures RunAt(w, c, p) == Ended(c.inv, r.exit.status, r.st.env)
  {
    hide RunBody;
  }

  /** Nothing is run after the command in this frame: whatever it returns, the frame returns. */
  predicate InTail(w: World, f: Frame, text: string, env: Env) {
    match f
    case InGroup(_, _) => true
    case Second(_, _, _) => true
    case Right(_, _, _, _) => true
    case Then(_, _, _, _) => true
    case Else(_, _, _, _) => true
    case Action(_, _, _, _, _, ending, next) =>
      || ending == Stop
      || (ending == FallThrough && next.NoClause?)
      || (ending == TestNext && NoneMatches(w, text, next, env))
    case _ => false
  }

  predicate NoneMatches(w: World, text: string, cs: Clauses, env: Env) {
    cs.NoClause? || (!w.matches(cs.pattern, text, env) && NoneMatches(w, text, cs.next, env))
  }

  lemma {:induction false} NoneRuns(w: World, text: string, cs: Clauses, g: bool, lvl: nat, s: int, st: State,
                                    fuel: nat)
    requires NoneMatches(w, text, cs, st.env)
    ensures RunCase(w, text, cs, g, lvl, s, st, fuel) == Result(Done(s), st)
  {
    if cs.Clause? { NoneRuns(w, text, cs.next, g, lvl, s, st, fuel); }
  }

  /** The last command run gives the whole its status, inverted if the whole is, and its variables. */
  lemma TailPasses(w: World, f: Frame, c: Cmd, p: Point, q: Point)
    requires Reaches(w, f, c, p, q) && RunAt(w, c, q).exit.Done?
    requires InTail(w, f, if f.Action? then w.text(f.word, p.st.env) else "", RunAt(w, c, q).st.env)
    ensures var hole := RunAt(w, c, q); RunAt(w, Plug(f, c), p) == Ended(f.inv, hole.exit.status, hole.st.env)
  {
    hide NoneMatches, Takes;
    var r := RunBody(w, Plug(f, c), Covered(w, p.ign, f.inv), p.lvl, p.st, p.fuel);
    if f.Action? {
      ActionPasses(w, f, c, p, q);
    } else {
      assert r == RunAt(w, c, q);
    }
    Closes(w, Plug(f, c), p, r);
  }

  lemma ActionPasses(w: World, f: Frame, c: Cmd, p: Point, q: Point)
    requires Reaches(w, f, c, p, q) && RunAt(w, c, q).exit.Done? && f.Action?
    requires InTail(w, f, w.text(f.word, p.st.env), RunAt(w, c, q).st.env)
    ensures var r := RunBody(w, Plug(f, c), Covered(w, p.ign, f.inv), p.lvl, p.st, p.fuel);
            r.exit == RunAt(w, c, q).exit && r.st.env == RunAt(w, c, q).st.env
  {
    hide Takes;
    var cs, g, text := Clause(f.pattern, c, f.ending, f.next), Covered(w, p.ign, f.inv), w.text(f.word, p.st.env);
    TakesRun(w, text, Behind(f.before, cs), false, g, p.lvl, 0, p.st, p.fuel, cs, q.st);
    var r := RunAt(w, c, q);
    if f.ending == TestNext {
      NoneRuns(w, text, f.next, g, p.lvl, r.exit.status, r.st, p.fuel);
    }
  }

  ghost predicate InTailAll(w: World, fs: seq<Frame>, ps: seq<Point>, env: Env)
    requires |ps| == |fs| + 1
    decreases |fs|
  {
    fs == [] ||
    (InTail(w, fs[0], if fs[0].Action? then w.text(fs[0].word, ps[0].st.env) else "", env) &&
     InTailAll(w, fs[1..], ps[1..], env))
  }

  /** Through any number of such frames the whole has the status of the last command, up to inversions. */
  lemma {:induction false} TailPassesAll(w: World, fs: seq<Frame>, c: Cmd, ps: seq<Point>)
    requires ReachesAll(w, fs, c, ps) && RunAt(w, c, ps[|fs|]).exit.Done?
    requires InTailAll(w, fs, ps, RunAt(w, c, ps[|fs|]).st.env)
    ensures var whole, hole := RunAt(w, PlugAll(fs, c), ps[0]), RunAt(w, c, ps[|fs|]);
            && whole.exit.Done? && whole.st.env == hole.st.env
            && whole.exit.status == Inverted(fs, hole.exit.status)
    decreases |fs|
  {
    hide Reaches, RunAt, InTail;
    if fs != [] {
      TailPassesAll(w, fs[1..], c, ps[1..]);
      TailPasses(w, fs[0], PlugAll(fs[1..], c), ps[0], ps[1]);
    }
  }

  /** A status through inversions: each turns 0 into 1 and anything else into 0. */
  function Inverted(fs: seq<Frame>, s: int): int {
    if fs == [] then s
    else
      var t := Inverted(fs[1..], s);
      if !fs[0].inv then t else if t == 0 then 1 else 0
  }

  /** The first command of a list hands on to the second, in the state it left. */
  lemma ListGoesOn(w: World, f: Frame, c: Cmd, p: Point, q: Point)
    requires f.First? && Reaches(w, f, c, p, q) && RunAt(w, c, q).exit.Done?
    ensures var whole := Plug(f, c);
            Reaches(w, Second(f.id, f.inv, c), f.second, p, q.(st := RunAt(w, c, q).st)) &&
            Plug(Second(f.id, f.inv, c), f.second) == whole
  {}

  /** The left of `&&` and `||`: `&&` goes on after success and `||` after failure; otherwise it is all. */
  lemma LeftDecides(w: World, f: Frame, c: Cmd, p: Point, q: Point)
    requires f.Left? && Reaches(w, f, c, p, q) && RunAt(w, c, q).exit.Done?
    ensures var hole, g := RunAt(w, c, q), Covered(w, p.ign, f.inv);
            if f.isAnd == (hole.exit.status == 0) then
              Reaches(w, Right(f.id, f.inv, f.isAnd, c), f.right, p, Point(g, p.lvl, hole.st, p.fuel))
            else RunAt(w, Plug(f, c), p) == Ended(f.inv, hole.exit.status, hole.st.env)
  {
    if f.isAnd != (RunAt(w, c, q).exit.status == 0) {
      Closes(w, Plug(f, c), p, RunAt(w, c, q));
    }
  }

  /** The test of an `if`: `then` is run after success and `else` after failure; with no such part the status is 0. */
  lemma TestSelects(w: World, f: Frame, c: Cmd, p: Point, q: Point)
    requires f.InTest? && Reaches(w, f, c, p, q) && RunAt(w, c, q).exit.Done?
    ensures var hole, g := RunAt(w, c, q), Covered(w, p.ign, f.inv);
            var next := Point(g, p.lvl, hole.st, p.fuel);
            if hole.exit.status == 0 then
              && Reaches(w, Surroundings.Then(f.id, f.inv, c, f.els), f.thn, p, next)
              && (f.thn.Null? ==> RunAt(w, Plug(f, c), p) == Ended(f.inv, 0, hole.st.env))
            else
              && Reaches(w, Else(f.id, f.inv, c, f.thn), f.els, p, next)
              && (f.els.Null? ==> RunAt(w, Plug(f, c), p) == Ended(f.inv, 0, hole.st.env))
  {
    var hole := RunAt(w, c, q);
    if (if hole.exit.status == 0 then f.thn else f.els).Null? {
      Closes(w, Plug(f, c), p, Result(Done(0), hole.st));
    }
  }

  /** A `case` none of whose patterns matches has status 0 and does nothing. */
  lemma NoMatch(w: World, id: nat, inv: bool, word: string, cs: Clauses, p: Point)
    requires NoneMatches(w, w.text(word, p.st.env), cs, p.st.env)
    ensures RunAt(w, Case(id, inv, word, cs), p) == Ended(inv, 0, p.st.env)
  {
    NoneRuns(w, w.text(word, p.st.env), cs, Covered(w, p.ign, inv), p.lvl, 0, p.st, p.fuel);
    Closes(w, Case(id, inv, word, cs), p, Result(Done(0), p.st));
  }

  /** The state before round k. */
  function Before(st: State, bodies: seq<Result>, k: nat): State
    requires k <= |bodies|
  {
    if k == 0 then st else bodies[k - 1].st
  }

  /** Rounds of a loop: each test lets the body run, and each body ends normally or in a `continue` for this loop. */
  ghost predicate Rounds(w: World, c: Cmd, g: bool, lvl: nat, st: State, fuel: nat, tests: seq<Result>,
                         bodies: seq<Result>)
    requires c.Loop?
  {
    && |tests| == |bodies| <= fuel
    && forall k :: 0 <= k < |bodies| ==>
         && tests[k] == Run(w, c.test, true, lvl, Before(st, bodies, k), fuel - k)
         && tests[k].exit.Done? && (tests[k].exit.status == 0) != c.isUntil
         && bodies[k] == Run(w, c.action, g, lvl, tests[k].st, fuel - k)
         && (bodies[k].exit.Done? || (bodies[k].exit.Cont? && bodies[k].exit.k == 1))
  }

  lemma {:induction false} RoundsRun(w: World, c: Cmd, g: bool, lvl: nat, status: int, st: State, fuel: nat,
                                     tests: seq<Result>, bodies: seq<Result>)
    requires c.Loop? && lvl >= 1 && Rounds(w, c, g, lvl, st, fuel, tests, bodies)
    ensures var n := |bodies|;
            RunLoop(w, c, g, lvl, status, st, fuel) ==
            RunLoop(w, c, g, lvl, if n == 0 then status else bodies[n - 1].exit.status, Before(st, bodies, n), fuel - n)
    decreases |bodies|
  {
    hide Rounds, LoopTurn;
    RoundsCount(w, c, g, lvl, st, fuel, tests, bodies);
    if bodies != [] {
      var b := bodies[0];
      RoundFirst(w, c, g, lvl, status, st, fuel, tests, bodies);
      RoundsRest(w, c, g, lvl, st, fuel, tests, bodies);
      RoundsRun(w, c, g, lvl, b.exit.status, b.st, fuel - 1, tests[1..], bodies[1..]);
    }
  }

  lemma RoundFirst(w: World, c: Cmd, g: bool, lvl: nat, status: int, st: State, fuel: nat, tests: seq<Result>,
                   bodies: seq<Result>)
    requires c.Loop? && lvl >= 1 && bodies != [] && Rounds(w, c, g, lvl, st, fuel, tests, bodies)
    ensures Returns(bodies[0].exit)
    ensures LoopTurn(w, c, g, lvl, status, st, fuel) == Again(bodies[0].exit.status, bodies[0].st)
  {
    assert tests[0] == Run(w, c.test, true, lvl, Before(st, bodies, 0), fuel);
  }

  lemma RoundsRest(w: World, c: Cmd, g: bool, lvl: nat, st: State, fuel: nat, tests: seq<Result>, bodies: seq<Result>)
    requires c.Loop? && bodies != [] && Rounds(w, c, g, lvl, st, fuel, tests, bodies)
    ensures Rounds(w, c, g, lvl, bodies[0].st, fuel - 1, tests[1..], bodies[1..])
  {
    hide Run;
    forall k | 0 <= k < |bodies| - 1
      ensures tests[1..][k] == Run(w, c.test, true, lvl, Before(bodies[0].st, bodies[1..], k), fuel - 1 - k)
    {
      assert tests[1..][k] == tests[k + 1] && Before(bodies[0].st, bodies[1..], k) == Before(st, bodies, k + 1);
    }
  }

  /**
   A loop whose test stops it after n rounds has the status of the last body, 0 if there was none, and
   the variables its last test left.
   */
  lemma LoopEnds(w: World, c: Cmd, p: Point, tests: seq<Result>, bodies: seq<Result>)
    requires c.Loop?
    requires Rounds(w, c, Covered(w, p.ign, c.inv), p.lvl + 1, p.st, p.fuel, tests, bodies)
    requires var n := |bodies|;
             var last := Run(w, c.test, true, p.lvl + 1, Before(p.st, bodies, n), p.fuel - n);
             last.exit.Done? && (last.exit.status == 0) == c.isUntil
    ensures var n := |bodies|;
            RunAt(w, c, p) ==
            Ended(c.inv, if n == 0 then 0 else bodies[n - 1].exit.status,
                  Run(w, c.test, true, p.lvl + 1, Before(p.st, bodies, n), p.fuel - n).st.env)
  {
    hide Rounds;
    var n, g := |bodies|, Covered(w, p.ign, c.inv);
    RoundsCount(w, c, g, p.lvl + 1, p.st, p.fuel, tests, bodies);
    RoundsRun(w, c, g, p.lvl + 1, 0, p.st, p.fuel, tests, bodies);
    var s := if n == 0 then 0 else bodies[n - 1].exit.status;
    var last := Run(w, c.test, true, p.lvl + 1, Before(p.st, bodies, n), p.fuel - n);
    assert LoopTurn(w, c, g, p.lvl + 1, s, Before(p.st, bodies, n), p.fuel - n) == Ends(Result(Done(s), last.st));
    Closes(w, c, p, Result(Done(s), last.st));
  }

  lemma RoundsCount(w: World, c: Cmd, g: bool, lvl: nat, st: State, fuel: nat, tests: seq<Result>, bodies: seq<Result>)
    requires c.Loop? && Rounds(w, c, g, lvl, st, fuel, tests, bodies)
    ensures |tests| == |bodies| <= fuel && (bodies != [] ==> Returns(bodies[|bodies| - 1].exit))
  {}

  /** The rounds of `for`: the variable takes the words one after the other. */
  ghost predicate ForRounds(w: World, x: string, words: seq<string>, a: Cmd, g: bool, lvl: nat, st: State, fuel: nat,
                            bodies: seq<Result>)
  {
    && |bodies| == |words|
    && forall k :: 0 <= k < |bodies| ==>
         var before := Before(st, bodies, k);
         && bodies[k] == Run(w, a, g, lvl, before.(env := before.env[x := words[k]]), fuel)
         && (bodies[k].exit.Done? || (bodies[k].exit.Cont? && bodies[k].exit.k == 1))
  }

  lemma ForRoundsCount(w: World, x: string, words: seq<string>, a: Cmd, g: bool, lvl: nat, st: State, fuel: nat,
                       bodies: seq<Result>)
    requires ForRounds(w, x, words, a, g, lvl, st, fuel, bodies)
    ensures |bodies| == |words| && (bodies != [] ==> Returns(bodies[|bodies| - 1].exit))
  {
    hide Run;
  }

  lemma ForRoundsRest(w: World, x: string, words: seq<string>, a: Cmd, g: bool, lvl: nat, st: State, fuel: nat,
                      bodies: seq<Result>)
    requires words != [] && ForRounds(w, x, words, a, g, lvl, st, fuel, bodies)
    ensures ForRounds(w, x, words[1..], a, g, lvl, bodies[0].st, fuel, bodies[1..])
    ensures bodies[0] == Run(w, a, g, lvl, st.(env := st.env[x := words[0]]), fuel) && Resumes(bodies[0].exit)
    ensures Returns(bodies[0].exit)
  {
    hide Run;
    var b := bodies[0];
    forall k | 0 <= k < |bodies| - 1 ensures Before(b.st, bodies[1..], k) == Before(st, bodies, k + 1) {}
  }

  lemma {:induction false} ForRoundsRun(w: World, x: string, words: seq<string>, a: Cmd, g: bool, lvl: nat,
                                        status: int, st: State, fuel: nat, bodies: seq<Result>)
    requires lvl >= 1 && ForRounds(w, x, words, a, g, lvl, st, fuel, bodies)
    ensures var n := |bodies|;
            && (n > 0 ==> Returns(bodies[n - 1].exit))
            && RunFor(w, x, words, a, g, lvl, status, st, fuel) ==
               Result(Done(if n == 0 then status else bodies[n - 1].exit.status), Before(st, bodies, n))
    decreases |words|
  {
    hide Run, ForRounds;
    ForRoundsCount(w, x, words, a, g, lvl, st, fuel, bodies);
    if words != [] {
      var b := bodies[0];
      ForRoundsRest(w, x, words, a, g, lvl, st, fuel, bodies);
      ForRoundsRun(w, x, words[1..], a, g, lvl, b.exit.status, b.st, fuel, bodies[1..]);
    }
  }

  /** A `for` that goes through its words has the status of the last body, 0 if there was no word. */
  lemma ForEnds(w: World, c: Cmd, p: Point, bodies: seq<Result>)
    requires c.For?
    requires ForRounds(w, c.name, w.words(c.list, p.st.env), c.action, Covered(w, p.ign, c.inv), p.lvl + 1, p.st,
                       p.fuel, bodies)
    ensures var n := |bodies|;
            && (n > 0 ==> Returns(bodies[n - 1].exit))
            && RunAt(w, c, p) ==
               Ended(c.inv, if n == 0 then 0 else bodies[n - 1].exit.status, Before(p.st, bodies, n).env)
  {
    hide ForRounds;
    ForRoundsRun(w, c.name, w.words(c.list, p.st.env), c.action, Covered(w, p.ign, c.inv), p.lvl + 1, 0, p.st, p.fuel,
                 bodies);
    var n := |bodies|;
    Closes(w, c, p, Result(Done(if n == 0 then 0 else bodies[n - 1].exit.status), Before(p.st, bodies, n)));
  }

  /** A program that does not set errexit off returns its status and leaves its variables. */
  lemma ProgramReturns(w: World, c: Cmd, p: Point, s: int, env: Env)
    requires c.Simple? && w.act(c.prog, p.st) == Plain(s, env)
    requires s == 0 || !w.errexit || p.ign || c.inv
    ensures RunAt(w, c, p) == Ended(c.inv, s, env)
  {
    var g := Covered(w, p.ign, c.inv);
    assert SimpleOutcome(w, c, g, p.lvl, p.st, p.fuel) == Result(Done(s), p.st.(env := env));
    assert RunBody(w, c, g, p.lvl, p.st, p.fuel) == Result(Done(s), p.st.(env := env));
  }

  /** A function returns the status of its body and leaves its variables, and a name without one gives 127. */
  lemma CallReturns(w: World, c: Cmd, p: Point, name: string)
    requires c.Simple? && w.act(c.prog, p.st) == Call(name) && p.fuel > 0
    ensures var g := Covered(w, p.ign, c.inv);
            if name !in w.functions then
              RunAt(w, c, p) ==
              if w.errexit && !g then Result(ErrExit(127), p.st.(last := 127)) else Ended(c.inv, 127, p.st.env)
            else
              var body := Run(w, w.functions[name], g, 0, p.st, p.fuel - 1);
              body.exit.Done? && (body.exit.status == 0 || !w.errexit || g) ==>
                RunAt(w, c, p) == Ended(c.inv, body.exit.status, body.st.env)
  {
    var g := Covered(w, p.ign, c.inv);
    var o := SimpleOutcome(w, c, g, p.lvl, p.st, p.fuel);
    assert o == if name !in w.functions then Result(Done(127), p.st)
                else Run(w, w.functions[name], g, 0, p.st, p.fuel - 1);
    assert RunBody(w, c, g, p.lvl, p.st, p.fuel) == Check(w, g, o);
  }

  /**
   `break n` and `continue n` with n at least 1: outside loops they return 0, and inside they are for the
   n-th loop around them, or the outermost if there are fewer.
   */
  lemma JumpsOut(w: World, c: Cmd, p: Point, isBreak: bool, n: int)
    requires c.Simple? && w.act(c.prog, p.st) == (if isBreak then Break(n) else Continue(n)) && n >= 1
    ensures var r := RunAt(w, c, p);
            && r.st == State(p.st.env, Flip(c.inv, 0))
            && r.exit == if p.lvl == 0 then Done(Flip(c.inv, 0))
                         else if isBreak then Brk(if n < p.lvl then n else p.lvl, Flip(c.inv, 0))
                         else Cont(if n < p.lvl then n else p.lvl, Flip(c.inv, 0))
  {
    var g := Covered(w, p.ign, c.inv);
    var o := Result(Jumps(isBreak, n, p.lvl), p.st);
    assert SimpleOutcome(w, c, g, p.lvl, p.st, p.fuel) == o;
    assert RunBody(w, c, g, p.lvl, p.st, p.fuel) == o;
  }

  /** The loops between a command and the call it stands in, or the outside. */
  function LoopsSinceCall(fs: seq<Frame>, lvl: nat): nat {
    if fs == [] then lvl
    else LoopsSinceCall(fs[1..], if fs[0].Called? then 0 else if IsLoop(fs[0]) then lvl + 1 else lvl)
  }

  lemma {:induction false} LevelOnPath(w: World, fs: seq<Frame>, c: Cmd, ps: seq<Point>)
    requires ReachesAll(w, fs, c, ps)
    ensures ps[|fs|].lvl == LoopsSinceCall(fs, ps[0].lvl)
    decreases |fs|
  {
    hide Reaches;
    if fs != [] {
      FrameLevel(w, fs[0], PlugAll(fs[1..], c), ps[0], ps[1]);
      LevelOnPath(w, fs[1..], c, ps[1..]);
    }
  }

  lemma FrameLevel(w: World, f: Frame, c: Cmd, p: Point, q: Point)
    requires Reaches(w, f, c, p, q)
    ensures q.lvl == if f.Called? then 0 else if IsLoop(f) then p.lvl + 1 else p.lvl
  {
    hide RunAt, Turns, ForTurns, Takes;
  }

  lemma {:induction false} AllLoops(fs: seq<Frame>, lvl: nat)
    requires forall f <- fs :: !f.Called?
    ensures LoopsSinceCall(fs, lvl) == lvl + Loops(fs)
  {
    if fs != [] { AllLoops(fs[1..], if IsLoop(fs[0]) then lvl + 1 else lvl); }
  }

  /**
   `break n` out of a loop f, with Loops(fs) more loops inside f and p.lvl outside it: if n names f, or f is
   the outermost and n names none, the loop f is left, normally, with the variables of the `break`.
   */
  lemma BreakLeaves(w: World, f: Frame, fs: seq<Frame>, c: Cmd, p: Point, ps: seq<Point>, n: int)
    requires ReachesAll(w, fs, c, ps) && IsLoop(f) && Reaches(w, f, PlugAll(fs, c), p, ps[0])
    requires c.Simple? && w.act(c.prog, ps[|fs|].st) == Break(n) && n >= 1
    requires (forall g <- fs :: !g.Called?) && (n == Loops(fs) + 1 || (n > Loops(fs) && p.lvl == 0))
    ensures var r := RunAt(w, Plug(f, PlugAll(fs, c)), p);
            r.exit.Done? && r.st.env == ps[|fs|].st.env
  {
    hide Reaches, RunAt, Onward;
    var all, points := [f] + fs, [p] + ps;
    assert all[1..] == fs && points[1..] == ps && points[|all|] == ps[|fs|];
    FrameLevel(w, f, PlugAll(fs, c), p, ps[0]);
    LevelOnPath(w, fs, c, ps);
    AllLoops(fs, ps[0].lvl);
    JumpsOut(w, c, ps[|fs|], true, n);
    ExitsExactly(w, all, c, points, true, Loops(fs) + 1);
  }
}
