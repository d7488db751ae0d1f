/** What surrounds a running command, and what that means for `break`, `continue` and errexit. */
module Surroundings {
  import opened Commands

  /** What can stand around a command that is about to run; the parts run before it are kept with it. */
  datatype Frame =
    | InGroup(id: nat, inv: bool)
    | First(id: nat, inv: bool, second: Cmd)
    | Second(id: nat, inv: bool, first: Cmd)
    | Left(id: nat, inv: bool, isAnd: bool, right: Cmd)
    | Right(id: nat, inv: bool, isAnd: bool, left: Cmd)
    | InTest(id: nat, inv: bool, thn: Cmd, els: Cmd)
    | Then(id: nat, inv: bool, test: Cmd, els: Cmd)
    | Else(id: nat, inv: bool, test: Cmd, thn: Cmd)
    | LoopTest(id: nat, inv: bool, isUntil: bool, action: Cmd, last: int)
    | LoopBody(id: nat, inv: bool, isUntil: bool, test: Cmd)
    | ForBody(id: nat, inv: bool, name: string, list: string)
    | Action(id: nat, inv: bool, word: string, before: seq<Branch>, pattern: string, ending: Ending, next: Clauses)
    | Called(id: nat, inv: bool, prog: string, name: string)

  /** One clause of a `case`. */
  datatype Branch = Branch(pattern: string, action: Cmd, ending: Ending)

  predicate IsLoop(f: Frame) { f.LoopTest? || f.LoopBody? || f.ForBody? }

  /** The frame with c in it; a call holds its function by name, and c is then the definition. */
  function Plug(f: Frame, c: Cmd): Cmd {
    match f
    case InGroup(i, inv) => Group(i, inv, c)
    case First(i, inv, b) => Seq(i, inv, c, b)
    case Second(i, inv, a) => Seq(i, inv, a, c)
    case Left(i, inv, isAnd, b) => AndOr(i, inv, isAnd, c, b)
    case Right(i, inv, isAnd, a) => AndOr(i, inv, isAnd, a, c)
    case InTest(i, inv, a, b) => If(i, inv, c, a, b)
    case Then(i, inv, t, b) => If(i, inv, t, c, b)
    case Else(i, inv, t, a) => If(i, inv, t, a, c)
    case LoopTest(i, inv, isUntil, a, _) => Loop(i, inv, isUntil, c, a)
    case LoopBody(i, inv, isUntil, t) => Loop(i, inv, isUntil, t, c)
    case ForBody(i, inv, x, l) => For(i, inv, x, l, c)
    case Action(i, inv, word, before, pat, e, next) => Case(i, inv, word, Behind(before, Clause(pat, c, e, next)))
    case Called(i, inv, prog, _) => Simple(i, inv, prog)
  }

  /** The clauses cs behind others. */
  function Behind(before: seq<Branch>, cs: Clauses): Clauses {
    if before == [] then cs
    else Clause(before[0].pattern, before[0].action, before[0].ending, Behind(before[1..], cs))
  }

  /**
   Starting with the clauses cs, `case` comes to run the action of the first clause of cs' in state st':
   clauses that do not match are passed over, and one that is run hands on to the next, which is then
   run whatever its pattern (`falling`, after `;&`) or tried (after `;;&`).
   */
  predicate Takes(w: World, word: string, cs: Clauses, falling: bool, g: bool, lvl: nat, st: State, fuel: nat,
                  cs': Clauses, st': State)
    decreases cs
  {
    cs.Clause? &&
    if falling || w.matches(cs.pattern, word, st.env) then
      || (cs == cs' && st == st')
      || (var r := Run(w, cs.action, g, lvl, st, fuel);
          && r.exit.Done? && cs.ending != Stop
          && Takes(w, word, cs.next, cs.ending == FallThrough, g, lvl, r.st, fuel, cs', st'))
    else Takes(w, word, cs.next, false, g, lvl, st, fuel, cs', st')
  }

  lemma {:induction false} TakesRun(w: World, word: string, cs: Clauses, falling: bool, g: bool, lvl: nat, status: int,
                                    st: State, fuel: nat, cs': Clauses, st': State)
    requires Takes(w, word, cs, falling, g, lvl, st, fuel, cs', st')
    ensures cs.Clause? && cs'.Clause?
    ensures (if falling then RunActions(w, word, cs, g, lvl, st, fuel)
             else RunCase(w, word, cs, g, lvl, status, st, fuel)) ==
            RunActions(w, word, cs', g, lvl, st', fuel)
    decreases cs
  {
    if !falling && !w.matches(cs.pattern, word, st.env) {
      TakesRun(w, word, cs.next, false, g, lvl, status, st, fuel, cs', st');
    } else if !(cs == cs' && st == st') {
      var r := Run(w, cs.action, g, lvl, st, fuel);
      TakesRun(w, word, cs.next, cs.ending == FallThrough, g, lvl, r.exit.status, r.st, fuel, cs', st');
    }
  }

  /** How a command is entered: covered or not, inside how many loops, in which state, with how much fuel. */
  datatype Point = Point(ign: bool, lvl: nat, st: State, fuel: nat)

  function RunAt(w: World, c: Cmd, p: Point): Result { Run(w, c, p.ign, p.lvl, p.st, p.fuel) }

  /** The loop c goes through some turns. */
  ghost predicate Turns(w: World, c: Cmd, g: bool, lvl: nat, status: int, st: State, fuel: nat, status': int,
                        st': State, fuel': nat)
    requires c.Loop? && lvl >= 1
    decreases fuel
  {
    || (status == status' && st == st' && fuel == fuel')
    || (fuel > 0 && var t := LoopTurn(w, c, g, lvl, status, st, fuel);
          t.Again? && Turns(w, c, g, lvl, t.status, t.st, fuel - 1, status', st', fuel'))
  }

  ghost predicate ForTurns(w: World, x: string, words: seq<string>, a: Cmd, g: bool, lvl: nat, status: int, st: State,
                           fuel: nat, words': seq<string>, status': int, st': State)
    requires lvl >= 1
    decreases |words|
  {
    || (words == words' && status == status' && st == st')
    || (words != [] && var t := AfterBody(Run(w, a, g, lvl, st.(env := st.env[x := words[0]]), fuel));
          t.Again? && ForTurns(w, x, words[1..], a, g, lvl, t.status, t.st, fuel, words', status', st'))
  }

  /** After some turns the test lets the body of loop l run at q. */
  ghost predicate InTurn(w: World, l: Cmd, g: bool, p: Point, q: Point, status: int, st: State)
    requires l.Loop?
  {
    && Turns(w, l, g, p.lvl + 1, 0, p.st, p.fuel, status, st, q.fuel)
    && var r := Run(w, l.test, true, p.lvl + 1, st, q.fuel);
       r.exit.Done? && l.isUntil != (r.exit.status == 0) && q == Point(g, p.lvl + 1, r.st, q.fuel)
  }

  /** After some turns, the last with the given status, the test of loop l runs at q. */
  ghost predicate InTestTurn(w: World, l: Cmd, g: bool, p: Point, q: Point, last: int)
    requires l.Loop?
  {
    Turns(w, l, g, p.lvl + 1, 0, p.st, p.fuel, last, q.st, q.fuel) && q.ign && q.lvl == p.lvl + 1
  }

  /** After some turns `for` runs its body at q with the next word. */
  ghost predicate InForTurn(w: World, l: Cmd, g: bool, p: Point, q: Point, words: seq<string>, status: int, st: State)
    requires l.For?
  {
    && ForTurns(w, l.name, w.words(l.list, p.st.env), l.action, g, p.lvl + 1, 0, p.st, p.fuel, words, status, st)
    && words != [] && q == Point(g, p.lvl + 1, st.(env := st.env[l.name := words[0]]), p.fuel)
  }

  /** Entered at p, the frame comes to run c at q, in whatever turn if it is a loop. */
  ghost predicate Reaches(w: World, f: Frame, c: Cmd, p: Point, q: Point) {
    var g := Covered(w, p.ign, f.inv);
    match f
    case InGroup(_, _) => q == p.(ign := g)
    case First(_, _, _) => q == p.(ign := g)
    case Second(_, _, a) =>
      var r := RunAt(w, a, p.(ign := g));
      r.exit.Done? && q == p.(ign := g, st := r.st)
    case Left(_, _, _, _) => q == p.(ign := true)
    case Right(_, _, isAnd, a) =>
      var r := RunAt(w, a, p.(ign := true));
      r.exit.Done? && isAnd == (r.exit.status == 0) && q == p.(ign := g, st := r.st)
    case InTest(_, _, _, _) => q == p.(ign := true)
    case Then(_, _, t, _) =>
      var r := RunAt(w, t, p.(ign := true));
      r.exit.Done? && r.exit.status == 0 && q == p.(ign := g, st := r.st)
    case Else(_, _, t, _) =>
      var r := RunAt(w, t, p.(ign := true));
      r.exit.Done? && r.exit.status != 0 && q == p.(ign := g, st := r.st)
    case LoopTest(_, _, _, _, last) => InTestTurn(w, Plug(f, c), g, p, q, last)
    case LoopBody(_, _, _, _) => exists status, st :: InTurn(w, Plug(f, c), g, p, q, status, st)
    case ForBody(_, _, _, _) => exists words, status, st :: InForTurn(w, Plug(f, c), g, p, q, words, status, st)
    case Action(_, _, word, before, pattern, ending, next) =>
      var cs := Clause(pattern, c, ending, next);
      && Takes(w, w.text(word, p.st.env), Behind(before, cs), false, g, p.lvl, p.st, p.fuel, cs, q.st)
      && q == p.(ign := g, st := q.st)
    case Called(_, _, prog, name) =>
      && name in w.functions && c == w.functions[name] && w.act(prog, p.st) == Call(name)
      && p.fuel > 0 && q == Point(g, 0, p.st, p.fuel - 1)
  }

  /** So the clause behind one that matches, ends in `;&` and is done is entered, in the state that one left. */
  lemma FallsInto(w: World, b: Branch, f: Frame, c: Cmd, p: Point)
    requires f.Action? && f.before == [b] && b.ending == FallThrough
    requires w.matches(b.pattern, w.text(f.word, p.st.env), p.st.env)
    requires RunAt(w, b.action, p.(ign := Covered(w, p.ign, f.inv))).exit.Done?
    ensures var g := Covered(w, p.ign, f.inv);
            Reaches(w, f, c, p, p.(ign := g, st := RunAt(w, b.action, p.(ign := g)).st))
  {
    var g, cs := Covered(w, p.ign, f.inv), Clause(f.pattern, c, f.ending, f.next);
    var st := RunAt(w, b.action, p.(ign := g)).st;
    assert Takes(w, w.text(f.word, p.st.env), cs, true, g, p.lvl, st, p.fuel, cs, st);
    assert Behind([b], cs) == Clause(b.pattern, b.action, b.ending, cs);
  }

  /** An exit still to pass k loops, whatever its status; none is left when k is 0. */
  predicate Remains(x: Exit, isBreak: bool, k: nat) {
    if k == 0 then x.Done? else if isBreak then x.Brk? && x.k == k else x.Cont? && x.k == k
  }

  lemma {:induction false} TurnsRun(w: World, c: Cmd, g: bool, lvl: nat, status: int, st: State, fuel: nat,
                                    status': int, st': State, fuel': nat)
    requires c.Loop? && lvl >= 1 && Turns(w, c, g, lvl, status, st, fuel, status', st', fuel')
    ensures RunLoop(w, c, g, lvl, status, st, fuel) == RunLoop(w, c, g, lvl, status', st', fuel')
    decreases fuel
  {
    if !(status == status' && st == st' && fuel == fuel') {
      var t := LoopTurn(w, c, g, lvl, status, st, fuel);
      TurnsRun(w, c, g, lvl, t.status, t.st, fuel - 1, status', st', fuel');
    }
  }

  lemma {:induction false} ForTurnsRun(w: World, x: string, words: seq<string>, a: Cmd, g: bool, lvl: nat,
                                       status: int, st: State, fuel: nat, words': seq<string>,
                                       status': int, st': State)
    requires lvl >= 1 && ForTurns(w, x, words, a, g, lvl, status, st, fuel, words', status', st')
    ensures RunFor(w, x, words, a, g, lvl, status, st, fuel) == RunFor(w, x, words', a, g, lvl, status', st', fuel)
    decreases |words|
  {
    if !(words == words' && status == status' && st == st') {
      var t := AfterBody(Run(w, a, g, lvl, st.(env := st.env[x := words[0]]), fuel));
      ForTurnsRun(w, x, words[1..], a, g, lvl, t.status, t.st, fuel, words', status', st');
    }
  }

  /** The status a pending exit has after a frame: a test that stops its loop leaves that of the last body. */
  function Onward(f: Frame, s: int): int {
    Flip(f.inv, if f.LoopTest? && f.isUntil == (s == 0) then f.last else s)
  }

  /** One frame: a loop takes one level off a pending exit and anything else passes it on; nothing more is run. */
  lemma FramePasses(w: World, f: Frame, c: Cmd, p: Point, q: Point, isBreak: bool, k: nat)
    requires Reaches(w, f, c, p, q) && k >= 1 && Remains(RunAt(w, c, q).exit, isBreak, k)
    requires IsLoop(f) && !isBreak ==> k > 1
    ensures var r, hole := RunAt(w, Plug(f, c), p), RunAt(w, c, q);
            && Remains(r.exit, isBreak, if IsLoop(f) then k - 1 else k) && r.st.env == hole.st.env
            && r.exit.status == Onward(f, hole.exit.status)
  {
    if f.LoopTest? {
      TestPasses(w, f, c, p, q);
    } else if IsLoop(f) {
      LoopPasses(w, f, c, p, q);
    } else {
      PlainPasses(w, f, c, p, q);
    }
  }

  /** A loop ends with an exit out of its body. */
  lemma LoopPasses(w: World, f: Frame, c: Cmd, p: Point, q: Point)
    requires Reaches(w, f, c, p, q) && (f.LoopBody? || f.ForBody?) && AfterBody(RunAt(w, c, q)).Ends?
    ensures RunBody(w, Plug(f, c), Covered(w, p.ign, f.inv), p.lvl, p.st, p.fuel) == AfterBody(RunAt(w, c, q)).res
  {
    var g, l, r := Covered(w, p.ign, f.inv), Plug(f, c), RunAt(w, c, q);
    if f.LoopBody? {
      var status, st :| InTurn(w, l, g, p, q, status, st);
      TurnsRun(w, l, g, p.lvl + 1, 0, p.st, p.fuel, status, st, q.fuel);
      assert LoopTurn(w, l, g, p.lvl + 1, status, st, q.fuel) == AfterBody(r);
    } else {
      var words, status, st :| InForTurn(w, l, g, p, q, words, status, st);
      ForTurnsRun(w, l.name, w.words(l.list, p.st.env), c, g, p.lvl + 1, 0, p.st, p.fuel, words, status, st);
    }
  }

  /** A loop ends with an exit out of its test, whatever the status. */
  lemma TestPasses(w: World, f: Frame, c: Cmd, p: Point, q: Point)
    requires Reaches(w, f, c, p, q) && f.LoopTest? && !Resumes(RunAt(w, c, q).exit)
    ensures var r := RunAt(w, c, q);
            RunBody(w, Plug(f, c), Covered(w, p.ign, f.inv), p.lvl, p.st, p.fuel) ==
            if !Returns(r.exit) then r
            else Result(Leave(r.exit, if f.isUntil == (r.exit.status == 0) then f.last else r.exit.status), r.st)
  {
    var g, l, r := Covered(w, p.ign, f.inv), Plug(f, c), RunAt(w, c, q);
    TurnsRun(w, l, g, p.lvl + 1, 0, p.st, p.fuel, f.last, q.st, q.fuel);
    assert LoopTurn(w, l, g, p.lvl + 1, f.last, q.st, q.fuel).Ends?;
  }

  /** Anything else passes on what is not done. */
  lemma PlainPasses(w: World, f: Frame, c: Cmd, p: Point, q: Point)
    requires Reaches(w, f, c, p, q) && !IsLoop(f) && !RunAt(w, c, q).exit.Done?
    ensures RunBody(w, Plug(f, c), Covered(w, p.ign, f.inv), p.lvl, p.st, p.fuel) == RunAt(w, c, q)
  {
    if f.Action? {
      var cs := Clause(f.pattern, c, f.ending, f.next);
      TakesRun(w, w.text(f.word, p.st.env), Behind(f.before, cs), false, Covered(w, p.ign, f.inv), p.lvl, 0, p.st,
               p.fuel, cs, q.st);
    } else if f.Called? {
      assert SimpleOutcome(w, Plug(f, c), Covered(w, p.ign, f.inv), p.lvl, p.st, p.fuel) == RunAt(w, c, q);
    }
  }

  /** A `continue` that has only this loop left to pass goes on with its next turn, in the state it left. */
  lemma ContinueResumes(w: World, f: Frame, c: Cmd, p: Point, q: Point, words: seq<string>, status: int, st: State)
    requires RunAt(w, c, q).exit.Cont? && RunAt(w, c, q).exit.k == 1
    requires f.LoopBody? ==> InTurn(w, Plug(f, c), Covered(w, p.ign, f.inv), p, q, status, st)
    requires f.ForBody? ==> InForTurn(w, Plug(f, c), Covered(w, p.ign, f.inv), p, q, words, status, st)
    requires f.LoopBody? || f.ForBody?
    ensures var g, l, r := Covered(w, p.ign, f.inv), Plug(f, c), RunAt(w, c, q);
            RunBody(w, l, g, p.lvl, p.st, p.fuel) ==
            if f.ForBody? then RunFor(w, l.name, words[1..], c, g, p.lvl + 1, r.exit.status, r.st, p.fuel)
            else if q.fuel == 0 then Result(OutOfFuel, r.st)
            else RunLoop(w, l, g, p.lvl + 1, r.exit.status, r.st, q.fuel - 1)
  {
    var g, l, r := Covered(w, p.ign, f.inv), Plug(f, c), RunAt(w, c, q);
    if f.LoopBody? {
      TurnsRun(w, l, g, p.lvl + 1, 0, p.st, p.fuel, status, st, q.fuel);
      assert LoopTurn(w, l, g, p.lvl + 1, status, st, q.fuel) == AfterBody(r);
    } else {
      ForTurnsRun(w, l.name, w.words(l.list, p.st.env), c, g, p.lvl + 1, 0, p.st, p.fuel, words, status, st);
    }
  }

  /** The frames of a list, the first outermost, around c. */
  function PlugAll(fs: seq<Frame>, c: Cmd): Cmd {
    if fs == [] then c else Plug(fs[0], PlugAll(fs[1..], c))
  }

  function Loops(fs: seq<Frame>): nat {
    if fs == [] then 0 else (if IsLoop(fs[0]) then 1 else 0) + Loops(fs[1..])
  }

  /** Entered at ps[0], each frame comes to run what is inside it at the next point. */
  ghost predicate ReachesAll(w: World, fs: seq<Frame>, c: Cmd, ps: seq<Point>)
    decreases |fs|
  {
    && |ps| == |fs| + 1
    && (fs != [] ==> Reaches(w, fs[0], PlugAll(fs[1..], c), ps[0], ps[1]) && ReachesAll(w, fs[1..], c, ps[1..]))
  }

  /** The status at the exit, as the frames leave it. */
  function StatusOut(fs: seq<Frame>, s: int): int {
    if fs == [] then s else Onward(fs[0], StatusOut(fs[1..], s))
  }

  /**
   Through any surroundings, `break k` leaves exactly the k innermost loops and `continue k` exactly
   k - 1: with j loops passed, k - j remain, and the variables are those at the exit, so that nothing
   was run on the way.
   */
  lemma {:induction false} ExitsExactly(w: World, fs: seq<Frame>, c: Cmd, ps: seq<Point>, isBreak: bool, k: nat)
    requires ReachesAll(w, fs, c, ps) && k >= 1 && Remains(RunAt(w, c, ps[|fs|]).exit, isBreak, k)
    requires fs != [] ==> Loops(fs[1..]) < k
    requires !isBreak ==> Loops(fs) < k
    ensures var r, hole := RunAt(w, PlugAll(fs, c), ps[0]), RunAt(w, c, ps[|fs|]);
            && Loops(fs) <= k && Remains(r.exit, isBreak, k - Loops(fs)) && r.st.env == hole.st.env
            && r.exit.status == StatusOut(fs, hole.exit.status)
    decreases |fs|
  {
    hide Reaches, RunAt, Onward;
    if fs != [] {
      var rest := fs[1..];
      assert rest != [] ==> Loops(rest) >= Loops(rest[1..]);
      ExitsExactly(w, rest, c, ps[1..], isBreak, k);
      FramePasses(w, fs[0], PlugAll(rest, c), ps[0], ps[1], isBreak, k - Loops(rest));
    }
  }

  /**
   `continue k` resumes the k-th loop around it: through k - 1 loops and whatever else stands inside
   the body of the loop f, that loop goes on with its next turn, or the next word, with the variables
   as they were at the `continue`.
   */
  lemma ContinueResumesLoop(w: World, f: Frame, fs: seq<Frame>, c: Cmd, p: Point, ps: seq<Point>, k: nat,
                            words: seq<string>, status: int, st: State)
    requires ReachesAll(w, fs, c, ps) && Remains(RunAt(w, c, ps[|fs|]).exit, false, k) && k == Loops(fs) + 1
    requires f.LoopBody? || f.ForBody?
    requires var g, l := Covered(w, p.ign, f.inv), Plug(f, PlugAll(fs, c));
             && (f.LoopBody? ==> InTurn(w, l, g, p, ps[0], status, st))
             && (f.ForBody? ==> InForTurn(w, l, g, p, ps[0], words, status, st))
    ensures var g, l, leaf := Covered(w, p.ign, f.inv), Plug(f, PlugAll(fs, c)), RunAt(w, c, ps[|fs|]);
            var s := StatusOut(fs, leaf.exit.status);
            RunBody(w, l, g, p.lvl, p.st, p.fuel) ==
            if f.ForBody? then
              RunFor(w, f.name, words[1..], l.action, g, p.lvl + 1, s, State(leaf.st.env, s), p.fuel)
            else if ps[0].fuel == 0 then Result(OutOfFuel, State(leaf.st.env, s))
            else RunLoop(w, l, g, p.lvl + 1, s, State(leaf.st.env, s), ps[0].fuel - 1)
  {
    hide Reaches, Onward, InTurn, InForTurn, RunBody, RunFor, RunLoop;
    LoopsRest(fs);
    ExitsExactly(w, fs, c, ps, false, k);
    ContinueResumes(w, f, PlugAll(fs, c), p, ps[0], words, status, st);
  }

  /**
   A `continue` that stands in a loop's own test and is for that loop: the loop goes on if and only if
   the status that the frames inside the test make of it lets the loop run; otherwise the loop is left.
   Either way the variables are those at the `continue`.
   */
  lemma ContinueInTest(w: World, l: Cmd, fs: seq<Frame>, c: Cmd, ps: seq<Point>, n: int, g: bool, status: int)
    requires l.Loop? && l.test == PlugAll(fs, c) && ReachesAll(w, fs, c, ps) && ps[0].ign && ps[0].lvl >= 1
    requires c.Simple? && w.act(c.prog, ps[|fs|].st) == Continue(n)
    requires Jumps(false, n, ps[|fs|].lvl) == Cont(Loops(fs) + 1, 0)
    ensures var t := LoopTurn(w, l, g, ps[0].lvl, status, ps[0].st, ps[0].fuel);
            var s := StatusOut(fs, Flip(c.inv, 0));
            && (t.Again? <==> l.isUntil != (s == 0))
            && (t.Again? ==> t.status == s)
            && (t.Ends? ==> t.res.exit == Done(status))
            && (if t.Again? then t.st.env else t.res.st.env) == ps[|fs|].st.env
  {
    hide Reaches, Onward, Flip;
    ContinueLeaf(w, c, ps[|fs|], n, Loops(fs) + 1);
    LoopsRest(fs);
    ExitsExactly(w, fs, c, ps, false, Loops(fs) + 1);
    assert Run(w, l.test, true, ps[0].lvl, ps[0].st, ps[0].fuel) == RunAt(w, l.test, ps[0]);
  }

  lemma ContinueLeaf(w: World, c: Cmd, p: Point, n: int, k: nat)
    requires c.Simple? && w.act(c.prog, p.st) == Continue(n) && Jumps(false, n, p.lvl) == Cont(k, 0)
    ensures RunAt(w, c, p).exit == Cont(k, Flip(c.inv, 0)) && RunAt(w, c, p).st.env == p.st.env
  {
    var g := Covered(w, p.ign, c.inv);
    assert SimpleOutcome(w, c, g, p.lvl, p.st, p.fuel) == Result(Cont(k, 0), p.st);
    assert RunBody(w, c, g, p.lvl, p.st, p.fuel) == Result(Cont(k, 0), p.st);
  }

  lemma LoopsRest(fs: seq<Frame>)
    ensures fs != [] ==> Loops(fs[1..]) <= Loops(fs)
  {}

  function Inversions(fs: seq<Frame>): nat {
    if fs == [] then 0 else (if fs[0].inv then 1 else 0) + Inversions(fs[1..])
  }

  /** With no other loop's test on the way, only the number of inversions matters. */
  lemma {:induction false} StatusParity(fs: seq<Frame>, s: int)
    requires forall f <- fs :: !f.LoopTest?
    ensures StatusOut(fs, s) == 0 <==> (s == 0) == (Inversions(fs) % 2 == 0)
  {
    if fs != [] {
      StatusParity(fs[1..], s);
    }
  }

  /**
   `continue n` breaks out of every loop, instead of resuming one, if and only if it stands in a loop,
   n is below one, and its failure does not end the shell.
   */
  lemma ContinueBreaks(w: World, c: Cmd, p: Point, n: int)
    requires c.Simple? && w.act(c.prog, p.st) == Continue(n)
    ensures var x := RunAt(w, c, p).exit;
            && (x.Brk? <==> p.lvl >= 1 && n < 1 && (!w.errexit || p.ign || c.inv))
            && (x.Brk? ==> x.k == p.lvl)
            && (x.Cont? <==> p.lvl >= 1 && n >= 1)
  {
    var g := Covered(w, p.ign, c.inv);
    assert SimpleOutcome(w, c, g, p.lvl, p.st, p.fuel) == Result(Jumps(false, n, p.lvl), p.st);
    assert RunBody(w, c, g, p.lvl, p.st, p.fuel) == Check(w, g, Result(Jumps(false, n, p.lvl), p.st));
  }

  /** So `for x in ...; do continue 0; done` ends at its first word, with status 1. */
  lemma ContinueZero(w: World, x: string, l: string, prog: string, st: State, fuel: nat)
    requires w.words(l, st.env) != [] && !w.errexit
    requires var st1 := st.(env := st.env[x := w.words(l, st.env)[0]]); w.act(prog, st1) == Continue(0)
    ensures Run(w, For(0, false, x, l, Simple(1, false, prog)), false, 0, st, fuel) ==
            Result(Done(1), State(st.env[x := w.words(l, st.env)[0]], 1))
  {
    var c := Simple(1, false, prog);
    var st1 := st.(env := st.env[x := w.words(l, st.env)[0]]);
    assert SimpleOutcome(w, c, false, 1, st1, fuel) == Result(Brk(1, 1), st1);
    assert RunBody(w, c, false, 1, st1, fuel) == Result(Brk(1, 1), st1);
    assert Run(w, c, false, 1, st1, fuel) == Result(Brk(1, 1), st1.(last := 1));
    assert RunFor(w, x, w.words(l, st.env), c, false, 1, 0, st, fuel) == Result(Done(1), st1.(last := 1));
    assert RunBody(w, For(0, false, x, l, c), false, 0, st, fuel) == Result(Done(1), st1.(last := 1));
  }

  /** Something around the command keeps errexit away from it: a test, the left of `&&` or `||`, an inversion. */
  predicate Shields(w: World, fs: seq<Frame>) {
    fs != [] && (fs[0].Left? || fs[0].InTest? || fs[0].LoopTest? || (w.errexit && fs[0].inv) || Shields(w, fs[1..]))
  }

  lemma {:induction false} CoverOnPath(w: World, fs: seq<Frame>, c: Cmd, ps: seq<Point>)
    requires ReachesAll(w, fs, c, ps)
    ensures ps[|fs|].ign <==> ps[0].ign || Shields(w, fs)
    decreases |fs|
  {
    hide RunAt, Turns, ForTurns;
    if fs != [] {
      CoverOnPath(w, fs[1..], c, ps[1..]);
    }
  }

  /** The errexit jump goes through everything. */
  lemma JumpPasses(w: World, f: Frame, c: Cmd, p: Point, q: Point)
    requires Reaches(w, f, c, p, q) && RunAt(w, c, q).exit.ErrExit?
    ensures RunAt(w, Plug(f, c), p) == RunAt(w, c, q)
  {
    if f.LoopTest? {
      TestPasses(w, f, c, p, q);
    } else if IsLoop(f) {
      LoopPasses(w, f, c, p, q);
    } else {
      PlainPasses(w, f, c, p, q);
    }
  }

  lemma {:induction false} JumpPassesAll(w: World, fs: seq<Frame>, c: Cmd, ps: seq<Point>)
    requires ReachesAll(w, fs, c, ps) && RunAt(w, c, ps[|fs|]).exit.ErrExit?
    ensures RunAt(w, PlugAll(fs, c), ps[0]) == RunAt(w, c, ps[|fs|])
    decreases |fs|
  {
    hide Reaches, RunAt;
    if fs != [] {
      JumpPassesAll(w, fs[1..], c, ps[1..]);
      JumpPasses(w, fs[0], PlugAll(fs[1..], c), ps[0], ps[1]);
    }
  }

  /**
   A simple command that fails, wherever it stands and whether it is a program, a function or a
   `break` with a bad count, ends the whole run with its status if and only if errexit is on, it is
   not inverted, the whole is not covered, and nothing around it shields it. A function that fails
   fails as a command of its own, even where errexit did not apply to what failed inside it.
   */
  lemma LeafJumps(w: World, fs: seq<Frame>, c: Cmd, ps: seq<Point>)
    requires ReachesAll(w, fs, c, ps) && c.Simple?
    requires Failed(OutcomeAt(w, c, ps[|fs|]).exit)
    ensures var leaf, o := RunAt(w, c, ps[|fs|]), OutcomeAt(w, c, ps[|fs|]);
            && (leaf.exit.ErrExit? <==> w.errexit && !c.inv && !ps[0].ign && !Shields(w, fs))
            && (leaf.exit.ErrExit? ==>
                  RunAt(w, PlugAll(fs, c), ps[0]) ==
                  Result(ErrExit(o.exit.status), o.st.(last := o.exit.status)))
  {
    hide Reaches, Shields, SimpleOutcome;
    CoverOnPath(w, fs, c, ps);
    var q := ps[|fs|];
    var g := Covered(w, q.ign, c.inv);
    assert RunBody(w, c, g, q.lvl, q.st, q.fuel) == Check(w, g, OutcomeAt(w, c, q));
    if RunAt(w, c, q).exit.ErrExit? {
      JumpPassesAll(w, fs, c, ps);
    }
  }

  /** What a simple command entered at p comes to, before errexit is looked at. */
  function OutcomeAt(w: World, c: Cmd, p: Point): Result
    requires c.Simple?
  {
    SimpleOutcome(w, c, Covered(w, p.ign, c.inv), p.lvl, p.st, p.fuel)
  }

  predicate Failed(x: Exit) { Returns(x) && x.status != 0 }

  /** What fails: a program or a function by its status, a name without a function, a bad count inside a loop. */
  lemma FailedWhen(w: World, c: Cmd, p: Point)
    requires c.Simple?
    ensures Failed(OutcomeAt(w, c, p).exit) <==>
            match w.act(c.prog, p.st)
            case Plain(s, _) => s != 0
            case Break(n) => p.lvl >= 1 && n < 1
            case Continue(n) => p.lvl >= 1 && n < 1
            case Call(f) =>
              f !in w.functions ||
              (p.fuel > 0 &&
               var x := Run(w, w.functions[f], Covered(w, p.ign, c.inv), 0, p.st, p.fuel - 1).exit;
               x.Done? && x.status != 0)
  {}
}
