/**
 The command executor as it runs: exit counters, a loop level, and CMD_IGNORE_RETURN bits
 that are set in the tree during execution and never taken back. `Commands.Run` is its specification.
 */
module Shell {
  import opened Commands
  import opened Marks

  /** A status, or a jump to top level (`set -e`), or the end of the fuel. */
  datatype Ret = Status(v: int) | Jump(status: int) | Stuck {
    predicate IsFailure() { !Status? }
    function PropagateFailure(): Ret requires !Status? { this }
    function Extract(): int requires Status? { v }
  }

  class Shell {
    const w: World
    var env: Env
    var last: int
    var breaking: nat
    var continuing: nat
    var loopLevel: nat
    var marks: set<Flag>
    var nextId: nat

    /** A shell about to run c: no bit is set anywhere, and c and the function definitions are separate trees. */
    constructor (world: World, vars: Env, c: Cmd, next: nat)
      requires Own(c) && Under(Ids(c), next)
      requires forall f :: f in world.functions ==>
                 Own(world.functions[f]) && Under(Ids(world.functions[f]), next) && Ids(world.functions[f]) !! Ids(c)
      ensures w == world && Now() == State(vars, 0) && loopLevel == 0 && Idle() && marks == {} && nextId == next
      ensures Valid() && Safe(w, marks, nextId, c, false)
    {
      w := world;
      env, last, breaking, continuing, loopLevel, marks, nextId := vars, 0, 0, 0, 0, {}, next;
    }

    function Now(): State
      reads this
    {
      State(env, last)
    }

    ghost predicate Valid()
      reads this
    {
      (breaking == 0 || continuing == 0) && Sound(w, marks, nextId)
    }

    predicate Idle()
      reads this
    {
      breaking == 0 && continuing == 0
    }

    /** The machine's return value and counters are what the specification's outcome says. */
    ghost predicate Shows(r: Ret, res: Result, lvl: nat)
      reads this
    {
      match res.exit
      case Done(s) => r == Status(s) && Idle() && Now() == res.st && loopLevel == lvl
      case Brk(k, s) => r == Status(s) && breaking == k && continuing == 0 && Now() == res.st && loopLevel == lvl
      case Cont(k, s) => r == Status(s) && breaking == 0 && continuing == k && Now() == res.st && loopLevel == lvl
      case ErrExit(s) => r == Jump(s) && Now() == res.st
      case OutOfFuel => r == Stuck
    }

    /** Set the CMD_IGNORE_RETURN bit of d, a part of c that is run covered. */
    method Mark(d: Cmd, ghost c: Cmd, ghost g: bool, ghost m0: set<Flag>, ghost n0: nat)
      requires Valid() && Safe(w, marks, nextId, c, g) && Kid(w, c, g, d, true)
      requires Grows(m0, marks, Cover(w, c, g), n0) && n0 <= nextId
      modifies this`marks
      ensures marks == old(marks) + if d.Null? then {} else {OnCommand(d.id)}
      ensures Valid() && Safe(w, marks, nextId, c, g) && Grows(m0, marks, Cover(w, c, g), n0)
    {
      if !d.Null? {
        KidMarked(w, m0, n0, marks, nextId, c, g, d);
        marks := marks + {OnCommand(d.id)};
      }
    }

    /** `execute_command_internal` and `execute_command`. */
    method Execute(c: Cmd, ghost ign: bool, fuel: nat) returns (r: Ret)
      requires Valid() && Safe(w, marks, nextId, c, ign)
      modifies this
      ensures Valid() && Grows(old(marks), marks, Cover(w, c, ign), old(nextId)) && nextId >= old(nextId)
      ensures Safe(w, marks, nextId, c, ign)
      ensures old(Idle()) ==> Shows(r, Run(w, c, ign, old(loopLevel), old(Now()), fuel), old(loopLevel))
      ensures !old(Idle()) ==> r == Status(old(last)) && Now() == old(Now()) && loopLevel == old(loopLevel)
                                && breaking == old(breaking) && continuing == old(continuing)
      decreases fuel, Size(c), 6
    {
      if breaking > 0 || continuing > 0 { return Status(last); }
      if c.Null? { return Status(0); }
      hide Run, Cover, Safe, Sound;
      ghost var m0, n0 := marks, nextId;
      r := ExecuteCommand(c, ign, fuel);
      GrowKeeps(w, m0, n0, marks, nextId, Cover(w, c, ign), c, ign);
    }

    /** The rest of `execute_command_internal`, when there is a command and no exit is pending. */
    method ExecuteCommand(c: Cmd, ghost ign: bool, fuel: nat) returns (r: Ret)
      requires Valid() && Idle() && !c.Null? && Safe(w, marks, nextId, c, ign)
      modifies this
      ensures Valid() && Grows(old(marks), marks, Cover(w, c, ign), old(nextId)) && nextId >= old(nextId)
      ensures Shows(r, Run(w, c, ign, old(loopLevel), old(Now()), fuel), old(loopLevel))
      decreases fuel, Size(c), 5
    {
      hide RunBody, Cover, Safe, Sound, Grows;
      ghost var m0, n0 := marks, nextId;
      GrowSelf(m0, Cover(w, c, ign), n0);
      if w.errexit && c.inv {
        SelfMarked(w, marks, nextId, c, ign, OnCommand(c.id));
        marks := marks + {OnCommand(c.id)};
      }
      Settled(w, marks, nextId, c, ign);
      var ignoreReturn := OnCommand(c.id) in marks;
      ghost var m1, n1 := marks, nextId;
      r := ExecuteType(c, ignoreReturn, fuel);
      GrowTrans(m0, m1, marks, Cover(w, c, ign), Cover(w, c, ign), Cover(w, c, ign), n0, n1);
      if r.Status? {
        last := Flip(c.inv, r.v);
        r := Status(last);
      }
    }

    /** The `switch` of `execute_command_internal`. */
    method ExecuteType(c: Cmd, g: bool, fuel: nat) returns (r: Ret)
      requires Valid() && Idle() && !c.Null? && Safe(w, marks, nextId, c, g) && g == Covered(w, g, c.inv)
      modifies this
      ensures Valid() && Grows(old(marks), marks, Cover(w, c, g), old(nextId)) && nextId >= old(nextId)
      ensures Shows(r, RunBody(w, c, g, old(loopLevel), old(Now()), fuel), old(loopLevel))
      decreases fuel, Size(c), 4
    {
      hide Run, RunSimple, RunLoop, RunFor, RunCase, Safe, Sound, Cover;
      if g && !c.Group? && !c.Seq? && !c.AndOr? {
        SelfMarked(w, marks, nextId, c, g, OnValue(c.id));
        marks := marks + {OnValue(c.id)};
      }
      match c
      case Simple(_, _, _) => r := ExecuteSimple(c, g, fuel);
      case Group(_, _, _) => r := ExecuteGroup(c, g, fuel);
      case Seq(_, _, _, _) => r := ExecuteSeq(c, g, fuel);
      case AndOr(_, _, _, _, _) => r := ExecuteAndOr(c, g, fuel);
      case If(_, _, _, _, _) => r := ExecuteIf(c, g, fuel);
      case Loop(_, _, _, _, _) => r := ExecuteLoop(c, g, fuel);
      case For(_, _, _, _, _) => r := ExecuteFor(c, g, fuel);
      case Case(_, _, _, _) => r := ExecuteCase(c, g, fuel);
    }

    /** A part of c, run with `ign`; c stays ready to run. */
    method ExecutePart(d: Cmd, ghost ign: bool, fuel: nat, ghost c: Cmd, ghost g: bool, ghost m0: set<Flag>,
                       ghost n0: nat)
      returns (r: Ret)
      requires Valid() && Safe(w, marks, nextId, c, g) && Kid(w, c, g, d, ign) && Grows(m0, marks, Cover(w, c, g), n0)
      requires n0 <= nextId && (ign && !d.Null? ==> OnCommand(d.id) in marks)
      modifies this
      ensures Valid() && Safe(w, marks, nextId, c, g) && Grows(m0, marks, Cover(w, c, g), n0) && n0 <= nextId
      ensures old(marks) <= marks
      ensures old(Idle()) ==> Shows(r, Run(w, d, ign, old(loopLevel), old(Now()), fuel), old(loopLevel))
      ensures !old(Idle()) ==> r == Status(old(last)) && Now() == old(Now()) && loopLevel == old(loopLevel)
                                && breaking == old(breaking) && continuing == old(continuing)
      decreases fuel, Size(d), 7
    {
      hide Run, Safe, Sound, Kid, Cover;
      ghost var m, n := marks, nextId;
      KidSafe(w, m, n, c, g, d, ign);
      r := Execute(d, ign, fuel);
      KidRan(w, m0, n0, m, n, marks, nextId, c, g, d, ign);
    }

    method ExecuteGroup(c: Cmd, g: bool, fuel: nat) returns (r: Ret)
      requires Valid() && Idle() && c.Group? && Safe(w, marks, nextId, c, g) && g == Covered(w, g, c.inv)
      modifies this
      ensures Valid() && Grows(old(marks), marks, Cover(w, c, g), old(nextId)) && nextId >= old(nextId)
      ensures Shows(r, RunBody(w, c, g, old(loopLevel), old(Now()), fuel), old(loopLevel))
      decreases fuel, Size(c), 2
    {
      hide Run, Safe, Grows, Sound, Kid, Cover, Covered;
      ghost var m0, n0 := marks, nextId;
      GrowSelf(marks, Cover(w, c, g), nextId);
      SafeOwn(w, marks, nextId, c, g);
      Kids(w, c, g);
      if g { Mark(c.body, c, g, m0, n0); }
      r := ExecutePart(c.body, g, fuel, c, g, m0, n0);
    }

    /** `execute_connection` for `;` */
    method ExecuteSeq(c: Cmd, g: bool, fuel: nat) returns (r: Ret)
      requires Valid() && Idle() && c.Seq? && Safe(w, marks, nextId, c, g) && g == Covered(w, g, c.inv)
      modifies this
      ensures Valid() && Grows(old(marks), marks, Cover(w, c, g), old(nextId)) && nextId >= old(nextId)
      ensures Shows(r, RunBody(w, c, g, old(loopLevel), old(Now()), fuel), old(loopLevel))
      decreases fuel, Size(c), 2
    {
      hide Run, Safe, Grows, Sound, Kid, Cover, Covered;
      ghost var m0, n0 := marks, nextId;
      GrowSelf(marks, Cover(w, c, g), nextId);
      SafeOwn(w, marks, nextId, c, g);
      Kids(w, c, g);
      if g {
        Mark(c.first, c, g, m0, n0);
        Mark(c.second, c, g, m0, n0);
      }
      var _ :- ExecutePart(c.first, g, fuel, c, g, m0, n0);
      r := ExecutePart(c.second, g, fuel, c, g, m0, n0);
    }

    /** `execute_connection` for `&&` and `||` */
    method ExecuteAndOr(c: Cmd, g: bool, fuel: nat) returns (r: Ret)
      requires Valid() && Idle() && c.AndOr? && Safe(w, marks, nextId, c, g) && g == Covered(w, g, c.inv)
      modifies this
      ensures Valid() && Grows(old(marks), marks, Cover(w, c, g), old(nextId)) && nextId >= old(nextId)
      ensures Shows(r, RunBody(w, c, g, old(loopLevel), old(Now()), fuel), old(loopLevel))
      decreases fuel, Size(c), 2
    {
      hide Run, Safe, Grows, Sound, Kid, Cover, Covered;
      ghost var m0, n0 := marks, nextId;
      GrowSelf(marks, Cover(w, c, g), nextId);
      SafeOwn(w, marks, nextId, c, g);
      Kids(w, c, g);
      Mark(c.first, c, g, m0, n0);
      var v :- ExecutePart(c.first, true, fuel, c, g, m0, n0);
      if c.isAnd == (v == 0) {
        if g { Mark(c.second, c, g, m0, n0); }
        r := ExecutePart(c.second, g, fuel, c, g, m0, n0);
      } else {
        r := Status(v);
      }
    }

    /** `execute_if_command` */
    method ExecuteIf(c: Cmd, g: bool, fuel: nat) returns (r: Ret)
      requires Valid() && Idle() && c.If? && Safe(w, marks, nextId, c, g) && g == Covered(w, g, c.inv)
      requires g ==> OnValue(c.id) in marks
      modifies this
      ensures Valid() && Grows(old(marks), marks, Cover(w, c, g), old(nextId)) && nextId >= old(nextId)
      ensures Shows(r, RunBody(w, c, g, old(loopLevel), old(Now()), fuel), old(loopLevel))
      decreases fuel, Size(c), 2
    {
      hide Run, Safe, Grows, Sound, Kid, Cover, Covered;
      ghost var m0, n0 := marks, nextId;
      GrowSelf(marks, Cover(w, c, g), nextId);
      SafeOwn(w, marks, nextId, c, g);
      IfKids(w, c, g);
      BitsTell(w, marks, nextId, c, g);
      Mark(c.test, c, g, m0, n0);
      var v :- ExecutePart(c.test, true, fuel, c, g, m0, n0);
      var branch := if v == 0 then c.thn else c.els;
      BitsTell(w, marks, nextId, c, g);
      if OnValue(c.id) in marks { Mark(branch, c, g, m0, n0); }
      r := ExecutePart(branch, g, fuel, c, g, m0, n0);
    }

    /** What a turn of a loop leaves: a status and whether the loop goes on. */
    ghost predicate ShowsTurn(r: Ret, again: bool, turn: Turn, lvl: nat)
      reads this
    {
      match turn
      case Ends(res) => !again && Shows(r, res, lvl)
      case Again(s, st) => again && r == Status(s) && Idle() && Now() == st && loopLevel == lvl
    }

    /** The end of a loop's turn: one loop is left, or the counters say to go on. */
    method AfterTurn(r: Ret, ghost res: Result) returns (again: bool)
      requires r.Status? && Valid() && Shows(r, res, loopLevel) && Bounded(res, loopLevel)
      modifies this`breaking, this`continuing
      ensures Valid() && ShowsTurn(r, again, AfterBody(res), loopLevel)
    {
      if breaking > 0 {
        breaking := breaking - 1;
        return false;
      }
      if continuing > 0 {
        continuing := continuing - 1;
        if continuing > 0 { return false; }
      }
      return true;
    }

    /** One turn of `execute_while_or_until`. */
    method LoopTurn(c: Cmd, g: bool, bodyStatus: int, fuel: nat, ghost m0: set<Flag>, ghost n0: nat)
      returns (r: Ret, again: bool)
      requires Valid() && Idle() && c.Loop? && g == Covered(w, g, c.inv) && loopLevel >= 1
      requires Safe(w, marks, nextId, c, g) && Grows(m0, marks, Cover(w, c, g), n0) && n0 <= nextId
      requires (!c.test.Null? ==> OnCommand(c.test.id) in marks) &&
               (g && !c.action.Null? ==> OnCommand(c.action.id) in marks)
      modifies this
      ensures Valid() && Safe(w, marks, nextId, c, g) && Grows(m0, marks, Cover(w, c, g), n0) && n0 <= nextId
      ensures old(marks) <= marks
      ensures ShowsTurn(r, again, Commands.LoopTurn(w, c, g, old(loopLevel), bodyStatus, old(Now()), fuel),
                        old(loopLevel))
      decreases fuel, Size(c), 1
    {
      hide Run, Safe, Grows, Sound, Kid, Cover, Covered, Size;
      SafeOwn(w, marks, nextId, c, g);
      LoopKids(w, c, g);
      again := false;
      r := ExecutePart(c.test, true, fuel, c, g, m0, n0);
      if !r.Status? { return; }
      if c.isUntil == (r.v == 0) {
        if breaking > 0 { breaking := breaking - 1; }
        if continuing > 0 { continuing := continuing - 1; }
        return Status(bodyStatus), false;
      }
      ghost var tested := Run(w, c.test, true, loopLevel, old(Now()), fuel);
      ghost var res := if tested.exit.Done? then Run(w, c.action, g, loopLevel, tested.st, fuel) else tested;
      r := ExecutePart(c.action, g, fuel, c, g, m0, n0);
      if !r.Status? { return; }
      again := AfterTurn(r, res);
    }

    /** `execute_while_or_until` */
    method ExecuteLoop(c: Cmd, g: bool, fuel: nat) returns (r: Ret)
      requires Valid() && Idle() && c.Loop? && Safe(w, marks, nextId, c, g) && g == Covered(w, g, c.inv)
      requires g ==> OnValue(c.id) in marks
      modifies this
      ensures Valid() && Grows(old(marks), marks, Cover(w, c, g), old(nextId)) && nextId >= old(nextId)
      ensures Shows(r, RunBody(w, c, g, old(loopLevel), old(Now()), fuel), old(loopLevel))
      decreases fuel, Size(c), 3
    {
      hide Run, Commands.LoopTurn, Pristine, Size, Safe, Grows, Sound, Kid, Cover, Covered;
      ghost var m0, n0 := marks, nextId;
      GrowSelf(marks, Cover(w, c, g), nextId);
      SafeOwn(w, marks, nextId, c, g);
      LoopKids(w, c, g);
      loopLevel := loopLevel + 1;
      Mark(c.test, c, g, m0, n0);
      BitsTell(w, marks, nextId, c, g);
      if OnValue(c.id) in marks { Mark(c.action, c, g, m0, n0); }
      r := LoopTurns(c, g, fuel, m0, n0);
      if r.Status? { loopLevel := loopLevel - 1; }
    }

    /** The `while (1)` of `execute_while_or_until`. */
    method LoopTurns(c: Cmd, g: bool, fuel: nat, ghost m0: set<Flag>, ghost n0: nat) returns (r: Ret)
      requires Valid() && Idle() && c.Loop? && g == Covered(w, g, c.inv) && loopLevel >= 1
      requires Safe(w, marks, nextId, c, g) && Grows(m0, marks, Cover(w, c, g), n0) && n0 <= nextId
      requires (!c.test.Null? ==> OnCommand(c.test.id) in marks) &&
               (g && !c.action.Null? ==> OnCommand(c.action.id) in marks)
      modifies this
      ensures Valid() && Grows(m0, marks, Cover(w, c, g), n0) && n0 <= nextId
      ensures Shows(r, RunLoop(w, c, g, old(loopLevel), 0, old(Now()), fuel), old(loopLevel))
      decreases fuel, Size(c), 2
    {
      hide Commands.LoopTurn, Safe, Grows, Sound, Cover, Covered, Size;
      var bodyStatus, n: nat := 0, fuel;
      while true
        invariant Valid() && Idle() && loopLevel == old(loopLevel) && n <= fuel
        invariant Safe(w, marks, nextId, c, g) && Grows(m0, marks, Cover(w, c, g), n0) && n0 <= nextId
        invariant (!c.test.Null? ==> OnCommand(c.test.id) in marks) &&
                  (g && !c.action.Null? ==> OnCommand(c.action.id) in marks)
        invariant RunLoop(w, c, g, loopLevel, 0, old(Now()), fuel) == RunLoop(w, c, g, loopLevel, bodyStatus, Now(), n)
        decreases n
      {
        var again: bool;
        r, again := LoopTurn(c, g, bodyStatus, n, m0, n0);
        if !again { return; }
        bodyStatus := r.v;
        if n == 0 { return Stuck; }
        n := n - 1;
      }
    }

    /** `execute_for_command` */
    method ExecuteFor(c: Cmd, g: bool, fuel: nat) returns (r: Ret)
      requires Valid() && Idle() && c.For? && Safe(w, marks, nextId, c, g) && g == Covered(w, g, c.inv)
      requires g ==> OnValue(c.id) in marks
      modifies this
      ensures Valid() && Grows(old(marks), marks, Cover(w, c, g), old(nextId)) && nextId >= old(nextId)
      ensures Shows(r, RunBody(w, c, g, old(loopLevel), old(Now()), fuel), old(loopLevel))
      decreases fuel, Size(c), 2
    {
      hide Run, AfterBody, Safe, Grows, Sound, Kid, Cover, Covered;
      ghost var m0, n0 := marks, nextId;
      GrowSelf(marks, Cover(w, c, g), nextId);
      SafeOwn(w, marks, nextId, c, g);
      Kids(w, c, g);
      loopLevel := loopLevel + 1;
      var list := w.words(c.list, env);
      BitsTell(w, marks, nextId, c, g);
      if OnValue(c.id) in marks { Mark(c.action, c, g, m0, n0); }
      var i := 0;
      r := Status(0);
      ghost var want := RunBody(w, c, g, old(loopLevel), old(Now()), fuel);
      assert list[0..] == list;
      hide RunBody;
      while i < |list|
        invariant 0 <= i <= |list| && Valid() && Idle() && loopLevel == old(loopLevel) + 1 && r.Status?
        invariant Safe(w, marks, nextId, c, g) && Grows(m0, marks, Cover(w, c, g), n0) && n0 <= nextId
        invariant g && !c.action.Null? ==> OnCommand(c.action.id) in marks
        invariant want == RunFor(w, c.name, list[i..], c.action, g, loopLevel, r.v, Now(), fuel)
      {
        var again: bool;
        assert list[i..][0] == list[i] && list[i..][1..] == list[i + 1..];
        r, again := ForTurn(c, list[i], g, fuel, m0, n0);
        if !again {
          if !r.Status? { return; }
          break;
        }
        i := i + 1;
      }
      loopLevel := loopLevel - 1;
    }

    /** One turn of `execute_for_command`. */
    method ForTurn(c: Cmd, word: string, g: bool, fuel: nat, ghost m0: set<Flag>, ghost n0: nat)
      returns (r: Ret, again: bool)
      requires Valid() && Idle() && c.For? && g == Covered(w, g, c.inv) && loopLevel >= 1
      requires Safe(w, marks, nextId, c, g) && Grows(m0, marks, Cover(w, c, g), n0) && n0 <= nextId
      requires g && !c.action.Null? ==> OnCommand(c.action.id) in marks
      modifies this
      ensures Valid() && Safe(w, marks, nextId, c, g) && Grows(m0, marks, Cover(w, c, g), n0) && n0 <= nextId
      ensures old(marks) <= marks
      ensures var st := old(Now()).(env := old(env)[c.name := word]);
              ShowsTurn(r, again, AfterBody(Run(w, c.action, g, old(loopLevel), st, fuel)), old(loopLevel))
      decreases fuel, Size(c), 1
    {
      hide Run, Safe, Grows, Sound, Kid, Cover, Covered;
      SafeOwn(w, marks, nextId, c, g);
      Kids(w, c, g);
      env := env[c.name := word];
      ghost var res := Run(w, c.action, g, loopLevel, Now(), fuel);
      r := ExecutePart(c.action, g, fuel, c, g, m0, n0);
      if !r.Status? { return r, false; }
      again := AfterTurn(r, res);
    }

    /** The `break` and `continue` builtins. */
    method BreakBuiltin(isBreak: bool, n: int) returns (r: Ret)
      requires Idle()
      modifies this`breaking, this`continuing
      ensures Shows(r, Result(Jumps(isBreak, n, loopLevel), Now()), loopLevel)
      ensures breaking == 0 || continuing == 0
    {
      if loopLevel == 0 { return Status(0); }
      if n <= 0 {
        breaking := loopLevel;
        return Status(1);
      }
      var k := if n > loopLevel then loopLevel else n;
      if isBreak { breaking := k; } else { continuing := k; }
      return Status(0);
    }

    /** A simple command, and the errexit test after it. */
    method ExecuteSimple(c: Cmd, g: bool, fuel: nat) returns (r: Ret)
      requires Valid() && Idle() && c.Simple? && Safe(w, marks, nextId, c, g) && g == Covered(w, g, c.inv)
      requires g ==> OnValue(c.id) in marks
      modifies this
      ensures Valid() && Grows(old(marks), marks, Cover(w, c, g), old(nextId)) && nextId >= old(nextId)
      ensures Shows(r, RunSimple(w, c, g, old(loopLevel), old(Now()), fuel), old(loopLevel))
      decreases fuel, Size(c), 2
    {
      hide Run, Safe, Grows, Sound, Cover, Covered, SimpleOutcome;
      BitsTell(w, marks, nextId, c, g);
      SimpleCovered(w, g, c.inv);
      SimpleIs(w, c, g, loopLevel, Now(), fuel);
      match w.act(c.prog, Now()) {
        case Plain(s, e) =>
          env := e;
          r := Status(s);
        case Break(n) => r := BreakBuiltin(true, n);
        case Continue(n) => r := BreakBuiltin(false, n);
        case Call(f) =>
          if f !in w.functions {
            r := Status(127);
          } else if fuel == 0 {
            r := Stuck;
          } else {
            r := ExecuteFunction(f, OnValue(c.id) in marks, fuel - 1);
          }
      }
      GrowWider(old(marks), marks, Cover(w, c, g), old(nextId));
      assert Shows(r, SimpleOutcome(w, c, g, old(loopLevel), old(Now()), fuel), old(loopLevel));
      if r.Status? && !g && !c.inv && w.errexit && r.v != 0 {
        last := r.v;
        r := Jump(r.v);
      }
    }

    /** The part of `execute_function` that copies the definition and runs the copy. */
    method ExecuteFunction(f: string, ignore: bool, fuel: nat) returns (r: Ret)
      requires Valid() && Idle() && f in w.functions
      modifies this
      ensures Valid() && Grows(old(marks), marks, {}, old(nextId)) && nextId >= old(nextId)
      ensures Shows(r, Run(w, w.functions[f], ignore, 0, old(Now()), fuel), old(loopLevel))
      decreases fuel
    {
      hide Run, Safe, Cover, Mirrors, Same, Own, Grows;
      ghost var m0, n0 := marks, nextId;
      var def := w.functions[f];
      var tc := CopyCommand(def);
      RunSame(w, def, tc, ignore, 0, Now(), fuel);
      CopyReady(w, m0, n0, marks, nextId, f, tc, ignore);
      if ignore && !tc.Null? { marks := marks + {OnCommand(tc.id)}; }
      var level := loopLevel;
      ghost var m1, n1 := marks, nextId;
      loopLevel := 0;
      r := Execute(tc, ignore, fuel);
      loopLevel := level;
      CopyRan(w, m0, n0, m1, n1, marks, nextId, tc, ignore);
    }

    /** The clauses run so far account for the outcome, up to a `;;&` that goes on after `rest`. */
    ghost predicate ShowsActions(r: Ret, rest: Clauses, res: Result, word: string, g: bool, lvl: nat, fuel: nat)
      reads this
    {
      if r.Status? && Idle() then
        && loopLevel == lvl
        && res == (if rest.Clause? && rest.ending == TestNext
                   then RunCase(w, word, rest.next, g, lvl, r.v, Now(), fuel) else Result(Done(r.v), Now()))
      else Shows(r, res, lvl)
    }

    /** A matching clause and those it falls into; `rest` is the clause that ended the run of actions. */
    method ExecuteActions(c: Cmd, cs: Clauses, g: bool, fuel: nat, ghost word: string, ghost m0: set<Flag>,
                          ghost n0: nat)
      returns (r: Ret, rest: Clauses)
      requires Valid() && c.Case? && cs.Clause? && Suffix(cs, c.clauses) && g == Covered(w, g, c.inv)
      requires Safe(w, marks, nextId, c, g) && Grows(m0, marks, Cover(w, c, g), n0) && n0 <= nextId
      modifies this
      ensures Valid() && Safe(w, marks, nextId, c, g) && Grows(m0, marks, Cover(w, c, g), n0) && n0 <= nextId
      ensures old(Idle()) ==>
                ShowsActions(r, rest, RunActions(w, word, cs, g, old(loopLevel), old(Now()), fuel), word, g,
                  old(loopLevel), fuel)
      ensures !old(Idle()) ==> r == Status(old(last)) && Now() == old(Now()) && loopLevel == old(loopLevel)
                                && breaking == old(breaking) && continuing == old(continuing)
      ensures rest.Clause? ==> Suffix(rest, cs)
      decreases fuel, ClauseSize(cs), 8
    {
      hide Run, RunCase, Grows, Sound, Kid, Cover, Covered, Safe;
      rest := cs;
      while true
        invariant Valid() && rest.Clause? && Suffix(rest, cs) && loopLevel == old(loopLevel)
        invariant Safe(w, marks, nextId, c, g) && Grows(m0, marks, Cover(w, c, g), n0) && n0 <= nextId
        invariant !old(Idle()) ==> Now() == old(Now()) && breaking == old(breaking) && continuing == old(continuing)
        invariant old(Idle()) && Idle() ==>
          RunActions(w, word, cs, g, old(loopLevel), old(Now()), fuel) ==
            RunActions(w, word, rest, g, loopLevel, Now(), fuel)
        invariant old(Idle()) && !Idle() ==>
          Shows(Status(last), RunActions(w, word, cs, g, old(loopLevel), old(Now()), fuel), loopLevel)
        decreases ClauseSize(rest)
      {
        SuffixFacts(rest, cs);
        SuffixTrans(rest, cs, c.clauses);
        SafeOwn(w, marks, nextId, c, g);
        ClauseKid(w, c, g, rest);
        if g { Mark(rest.action, c, g, m0, n0); }
        r := ExecutePart(rest.action, g, fuel, c, g, m0, n0);
        if !r.Status? { return; }
        if rest.ending != FallThrough { break; }
        rest := rest.next;
        if rest.NoClause? { break; }
      }
    }

    /** `execute_case_command` */
    method ExecuteCase(c: Cmd, g: bool, fuel: nat) returns (r: Ret)
      requires Valid() && Idle() && c.Case? && Safe(w, marks, nextId, c, g) && g == Covered(w, g, c.inv)
      requires g ==> OnValue(c.id) in marks
      modifies this
      ensures Valid() && Grows(old(marks), marks, Cover(w, c, g), old(nextId)) && nextId >= old(nextId)
      ensures Shows(r, RunBody(w, c, g, old(loopLevel), old(Now()), fuel), old(loopLevel))
      decreases fuel, Size(c), 2
    {
      hide Run, RunActions, Safe, Grows, Sound, Cover, Covered;
      ghost var m0, n0 := marks, nextId;
      GrowSelf(marks, Cover(w, c, g), nextId);
      BitsTell(w, marks, nextId, c, g);
      var word := w.text(c.word, env);
      var retval, cs := 0, c.clauses;
      var ignoreReturn := OnValue(c.id) in marks;
      while cs.Clause?
        invariant Valid() && loopLevel == old(loopLevel) && Suffix(cs, c.clauses) && ClauseSize(cs) < Size(c)
        invariant Safe(w, marks, nextId, c, g) && Grows(m0, marks, Cover(w, c, g), n0) && n0 <= nextId
        invariant Idle() ==>
          RunBody(w, c, g, old(loopLevel), old(Now()), fuel) == RunCase(w, word, cs, g, loopLevel, retval, Now(), fuel)
        invariant !Idle() ==>
          retval == last && Shows(Status(retval), RunBody(w, c, g, old(loopLevel), old(Now()), fuel), loopLevel)
        decreases ClauseSize(cs)
      {
        SuffixFacts(cs, c.clauses);
        if w.matches(cs.pattern, word, env) {
          var rest: Clauses;
          r, rest := ExecuteActions(c, cs, ignoreReturn, fuel, word, m0, n0);
          if !r.Status? { return; }
          retval := r.v;
          if rest.NoClause? || rest.ending != TestNext { break; }
          SuffixFacts(rest, cs);
          SuffixTrans(rest.next, cs, c.clauses);
          cs := rest.next;
        } else {
          cs := cs.next;
        }
      }
      return Status(retval);
    }

    /** A new node with the bits of node i. */
    method NewNode(i: nat) returns (j: nat)
      requires i < nextId && Below(marks, nextId)
      modifies this`marks, this`nextId
      ensures j == old(nextId) && nextId == j + 1 && Below(marks, nextId)
      ensures SameBits(marks, i, j) && old(marks) <= marks && forall f :: f in marks && f !in old(marks) ==> f.id == j
    {
      j := nextId;
      nextId := nextId + 1;
      if OnCommand(i) in marks { marks := marks + {OnCommand(j)}; }
      if OnValue(i) in marks { marks := marks + {OnValue(j)}; }
    }

    /** `copy_command`: fresh nodes with the same contents and the same bits. */
    method CopyCommand(c: Cmd) returns (d: Cmd)
      requires Under(Ids(c), nextId) && Below(marks, nextId)
      modifies this`marks, this`nextId
      ensures Copied(marks, nextId, c, d, old(marks), old(nextId))
      decreases Size(c), 1
    {
      match c
      case Null => d := Null;
      case Simple(i, inv, p) =>
        var j := NewNode(i);
        d := Simple(j, inv, p);
      case Group(i, inv, b) =>
        assert Ids(b) <= Ids(c);
        var j, b', _ := CopyNode(i, b, Null);
        d := Group(j, inv, b');
      case Seq(i, inv, a, b) =>
        assert Ids(a) + Ids(b) <= Ids(c);
        var j, a', b' := CopyNode(i, a, b);
        d := Seq(j, inv, a', b');
      case AndOr(i, inv, isAnd, a, b) =>
        assert Ids(a) + Ids(b) <= Ids(c);
        var j, a', b' := CopyNode(i, a, b);
        d := AndOr(j, inv, isAnd, a', b');
      case If(_, _, _, _, _) => d := CopyIf(c);
      case _ => d := CopyCompound(c);
    }

    method CopyIf(c: Cmd) returns (d: Cmd)
      requires c.If? && Under(Ids(c), nextId) && Below(marks, nextId)
      modifies this`marks, this`nextId
      ensures Copied(marks, nextId, c, d, old(marks), old(nextId))
      decreases Size(c), 0
    {
      ghost var m0, n0 := marks, nextId;
      assert Ids(c.test) + Ids(c.thn) + Ids(c.els) <= Ids(c);
      var t' := CopyCommand(c.test);
      ghost var m1, n1 := marks, nextId;
      var j, a', b' := CopyNode(c.id, c.thn, c.els);
      CopiedKeeps(m1, n1, marks, nextId, c.test, t', m0, n0);
      d := If(j, c.inv, t', a', b');
    }

    method CopyCompound(c: Cmd) returns (d: Cmd)
      requires c.Loop? || c.For? || c.Case?
      requires Under(Ids(c), nextId) && Below(marks, nextId)
      modifies this`marks, this`nextId
      ensures Copied(marks, nextId, c, d, old(marks), old(nextId))
      decreases Size(c), 0
    {
      if c.Loop? {
        assert Ids(c.test) + Ids(c.action) <= Ids(c);
        var j, t', a' := CopyNode(c.id, c.test, c.action);
        d := Loop(j, c.inv, c.isUntil, t', a');
      } else if c.For? {
        assert Ids(c.action) <= Ids(c);
        var j, a', _ := CopyNode(c.id, c.action, Null);
        d := For(j, c.inv, c.name, c.list, a');
      } else {
        assert ClauseIds(c.clauses) <= Ids(c) && c.id in Ids(c);
        var cs' := CopyClauses(c.clauses);
        ghost var m1, n1 := marks, nextId;
        var j := NewNode(c.id);
        MirrorGrowClauses(m1, marks, n1, c.clauses, cs');
        d := Case(j, c.inv, c.word, cs');
      }
    }

    method CopyNode(i: nat, a: Cmd, b: Cmd) returns (j: nat, a': Cmd, b': Cmd)
      requires Under(Ids(a) + Ids(b), nextId) && i < nextId && Below(marks, nextId)
      modifies this`marks, this`nextId
      ensures Copied(marks, nextId, a, a', old(marks), old(nextId)) &&
              Copied(marks, nextId, b, b', old(marks), old(nextId))
      ensures j !in Ids(a') + Ids(b') && Ids(a') !! Ids(b') && old(nextId) <= j < nextId && SameBits(marks, i, j)
      decreases Size(a) + Size(b), 2
    {
      hide Same, Own, Mirrors, Size, Ids;
      ghost var m0, n0 := marks, nextId;
      a' := CopyCommand(a);
      ghost var m1, n1 := marks, nextId;
      b' := CopyCommand(b);
      ghost var m2, n2 := marks, nextId;
      j := NewNode(i);
      CopiedKeeps(m2, n2, marks, nextId, b, b', m1, n1);
      CopiedSince(marks, nextId, b, b', m1, n1, m0, n0);
      GrowTrans(m1, m2, marks, {}, {}, {}, n1, n2);
      CopiedKeeps(m1, n1, marks, nextId, a, a', m0, n0);
    }

    method CopyClauses(cs: Clauses) returns (ds: Clauses)
      requires Under(ClauseIds(cs), nextId) && Below(marks, nextId)
      modifies this`marks, this`nextId
      ensures SameClauses(cs, ds) && OwnClauses(ds) && MirrorsClauses(marks, cs, ds)
      ensures forall i :: i in ClauseIds(ds) ==> old(nextId) <= i < nextId
      ensures Below(marks, nextId) && Grows(old(marks), marks, {}, old(nextId)) && nextId >= old(nextId)
      decreases ClauseSize(cs), 1
    {
      if cs.NoClause? { return NoClause; }
      assert Ids(cs.action) <= ClauseIds(cs) && ClauseIds(cs.next) <= ClauseIds(cs);
      var a := CopyCommand(cs.action);
      ghost var m1, n1 := marks, nextId;
      var next := CopyClauses(cs.next);
      MirrorGrow(m1, marks, n1, cs.action, a);
      ds := Clause(cs.pattern, a, cs.ending, next);
    }
  }
}
