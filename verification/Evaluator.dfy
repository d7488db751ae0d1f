/**
 The arithmetic evaluator as the program it is: parser state in fields that every step
 updates, a stack of saved contexts, and one method per rung. `Ladder` is its specification.
 */
module Evaluator {
  import opened Int64
  import opened Numerals
  import opened Tokens
  import opened Operators
  import opened Ladder
  import opened Options

  /** A method's value, or the error it leaves with (`longjmp`). */
  datatype Outcome = Got(v: int) | Raised(problem: Problem) {
    predicate IsFailure() { Raised? }
    function PropagateFailure(): Outcome requires Raised? { this }
    function Extract(): int requires Got? { v }
  }

  /** The fields that SAVETOK and RESTORETOK copy, with the expression itself. */
  datatype Context = Context(
    expression: string, tp: nat, curtok: Tok, lasttok: Tok, tokval: int, tokstr: Option<string>, noeval: nat)

  /** The method's outcome and state are those of the specification. */
  ghost predicate Meets(r: Outcome, now: Parser, spec: Run) {
    match spec
    case Ok(v, p) => r == Got(v) && now == p
    case Err(e, st) => r == Raised(e) && now.store == st
  }

  class Evaluator {
    var expression: string
    var tp: nat
    var curtok: Tok
    var lasttok: Tok
    var tokval: int
    var tokstr: Option<string>
    var noeval: nat
    var stack: seq<Context>
    var store: Store

    constructor (vars: Store)
      ensures View() == Fresh("", 0, vars) && stack == []
    {
      expression, tp, curtok, lasttok, tokval, tokstr, noeval := "", 0, End, End, 0, None, 0;
      stack, store := [], vars;
    }

    function View(): Parser
      reads this
    {
      Parser(expression, tp, curtok, lasttok, tokval, tokstr, noeval, |stack|, store)
    }

    function Save(): Context
      reads this
    {
      Context(expression, tp, curtok, lasttok, tokval, tokstr, noeval)
    }

    method Restore(c: Context)
      modifies this
      ensures expression == c.expression && tp == c.tp && curtok == c.curtok && lasttok == c.lasttok
      ensures tokval == c.tokval && tokstr == c.tokstr && noeval == c.noeval
      ensures stack == old(stack) && store == old(store)
    {
      expression, tp, curtok, lasttok := c.expression, c.tp, c.curtok, c.lasttok;
      tokval, tokstr, noeval := c.tokval, c.tokstr, c.noeval;
    }

    method PushExp() returns (r: Outcome)
      requires |stack| <= MAX_DEPTH
      modifies this
      ensures Save() == old(Save()) && store == old(store)
      ensures old(|stack|) < MAX_DEPTH ==> r == Got(0) && stack == old(stack) + [Save()]
      ensures old(|stack|) == MAX_DEPTH ==> r == Raised(TooDeep) && stack == old(stack)
    {
      if |stack| >= MAX_DEPTH { return Raised(TooDeep); }
      stack := stack + [Save()];
      return Got(0);
    }

    method PopExp() returns (r: Outcome)
      modifies this
      ensures store == old(store)
      ensures old(stack) == [] ==> r == Raised(StackUnderflow)
      ensures old(stack) != [] ==>
                r == Got(0) && stack == old(stack)[..|old(stack)| - 1] && Save() == old(stack)[|old(stack)| - 1]
    {
      if |stack| == 0 { return Raised(StackUnderflow); }
      var c := stack[|stack| - 1];
      stack := stack[..|stack| - 1];
      Restore(c);
      return Got(0);
    }

    method ReadTok() returns (r: Outcome)
      requires Wf(View())
      modifies this
      ensures Meets(r, View(), Ladder.ReadTok(old(View())))
      ensures r.Got? ==> stack == old(stack)
      decreases MAX_DEPTH - |stack|, Left(View()), 2, |expression| - tp
    {
      hide Lex, Ladder.ReadName;
      var lx := NextToken(expression, tp, curtok, lasttok);
      if lx.LexError? { return Raised(lx.problem); }
      if lx.tok == Str {
        r := ReadName(lx.name, lx.next);
        return;
      }
      if lx.tok == Num { tokval := lx.val; }
      lasttok, curtok, tp := curtok, lx.tok, lx.next;
      return Got(0);
    }

    method ReadName(name: string, next: nat) returns (r: Outcome)
      requires Wf(View()) && tp < next <= |expression|
      modifies this
      ensures Meets(r, View(), Ladder.ReadName(old(View()), name, next))
      ensures r.Got? ==> stack == old(stack)
      decreases MAX_DEPTH - |stack|, Left(View()), 2, |expression| - tp, 1
    {
      hide Ladder.ReadTok, Ladder.Lookup, Keeps, Consumes;
      tokstr := Some(name);
      var peektok;
      r, peektok := Peek(next);
      if !r.Got? { return; }
      var v := 0;
      if IsIncDec(lasttok) || peektok != Eq {
        v :- Lookup(name);
      }
      tokval, lasttok, curtok, tp := v, curtok, Str, next;
      return Got(0);
    }

    /** The token after a name, read without evaluation; all but the store is then as before. */
    method Peek(next: nat) returns (r: Outcome, peektok: Tok)
      requires Wf(View()) && tp < next <= |expression|
      modifies this
      ensures match Ladder.ReadTok(old(View()).(tokstr := None, tp := next, noeval := 1, cur := Str))
              case Ok(_, q) => r.Got? && peektok == q.cur && View() == old(View()) && stack == old(stack)
              case Err(e, st) => r == Raised(e) && store == st
      decreases MAX_DEPTH - |stack|, Left(View()), 2, |expression| - tp, 0
    {
      hide Ladder.ReadTok;
      var ec := Save();
      tokstr, tp, noeval, curtok := None, next, 1, Str;
      r := ReadTok();
      peektok := curtok;
      if r.Got? { Restore(ec); }
    }

    /** `expr_streval` */
    method Lookup(name: string) returns (r: Outcome)
      requires |stack| <= MAX_DEPTH
      modifies this
      ensures match Ladder.Lookup(name, old(noeval), old(|stack|), old(store))
              case Value(v, st) => r == Got(v) && View() == old(View()).(store := st) && stack == old(stack)
              case Failed(e, st) => r == Raised(e) && store == st
      decreases MAX_DEPTH - |stack|, 0, 1
    {
      if noeval > 0 { return Got(0); }
      if name in store && store[name] != "" {
        r := SubExpr(store[name]);
      } else {
        r := Got(0);
      }
    }

    /** `subexpr`: on success every saved field of the caller's state is back in place. */
    method SubExpr(text: string) returns (r: Outcome)
      requires |stack| <= MAX_DEPTH && noeval == 0
      modifies this
      ensures match Ladder.SubExpr(text, old(|stack|), old(store))
              case Value(v, st) => r == Got(v) && View() == old(View()).(store := st) && stack == old(stack)
              case Failed(e, st) => r == Raised(e) && store == st
      decreases MAX_DEPTH - |stack|, 0, 0
    {
      hide Whole;
      var i := SkipSpaces(text, 0);
      if i == |text| { return Got(0); }
      ghost var depth := |stack|;
      var _ :- PushExp();
      expression, tp, curtok, lasttok, tokstr, tokval := text, 0, End, End, None, 0;
      assert View() == Fresh(text, depth + 1, store);
      var val :- WholeText();
      r := PopExp();
      if r.Got? { r := Got(val); }
    }

    method WholeText() returns (r: Outcome)
      requires Wf(View())
      modifies this
      ensures Meets(r, View(), Whole(old(View())))
      ensures r.Got? ==> stack == old(stack)
      decreases MAX_DEPTH - |stack|, Left(View()), 50
    {
      hide Ladder.ReadTok, Ladder.ExpComma;
      var _ :- ReadTok();
      var val :- ExpComma();
      if curtok != End { return Raised(TrailingText); }
      return Got(val);
    }

    /** `evalexp`: a value and whether it is valid. After an error the stack is empty. */
    method EvalExp(expr: string) returns (val: int, valid: bool)
      requires |stack| <= MAX_DEPTH
      modifies this
      ensures match Ladder.SubExpr(expr, old(|stack|), old(store))
              case Value(v, st) =>
                val == v && valid && View() == old(View()).(noeval := 0, store := st) && stack == old(stack)
              case Failed(_, st) => val == 0 && !valid && store == st && stack == [] && noeval == 0
    {
      hide Ladder.SubExpr;
      noeval := 0;
      var r := SubExpr(expr);
      if r.Raised? {
        tokstr, expression, tp := None, "", 0;
        stack := [];
        noeval := 0;
        return 0, false;
      }
      return r.v, true;
    }

    method ExpComma() returns (r: Outcome)
      requires Wf(View())
      modifies this
      ensures Meets(r, View(), Ladder.ExpComma(old(View())))
      ensures r.Got? ==> stack == old(stack)
      decreases MAX_DEPTH - |stack|, Left(View()), 39
    {
      hide Ladder.ReadTok, Ladder.ExpAssign;
      var value :- ExpAssign();
      while curtok == Comma
        invariant Wf(View()) && InRange(value) && stack == old(stack) && Left(View()) < old(Left(View()))
        invariant Ladder.ExpComma(old(View())) == CommaLoop(value, View())
        decreases Left(View())
      {
        var _ :- ReadTok();
        value :- ExpAssign();
      }
      return Got(value);
    }

    method ExpAssign() returns (r: Outcome)
      requires Wf(View())
      modifies this
      ensures Meets(r, View(), Ladder.ExpAssign(old(View())))
      ensures r.Got? ==> stack == old(stack)
      decreases MAX_DEPTH - |stack|, Left(View()), 37
    {
      hide Ladder.ReadTok, Ladder.ExpCond, Ladder.AssignTo;
      var value :- ExpCond();
      if curtok == Eq || curtok.OpAssign? {
        var tok := curtok;
        if lasttok != Str { return Raised(NotAVariable); }
        if tokstr.None? { return Raised(NoTarget); }
        var lvalue, lhs := value, tokstr.value;
        var _ :- ReadTok();
        value :- ExpAssign();
        r := AssignTo(tok, lhs, lvalue, value);
        return;
      }
      return Got(value);
    }

    /** The end of `expassign`, once the right side is known. */
    method AssignTo(tok: Tok, lhs: string, lvalue: int, rhs: int) returns (r: Outcome)
      requires Wf(View()) && (tok == Eq || tok.OpAssign?) && InRange(lvalue) && InRange(rhs)
      modifies this
      ensures Meets(r, View(), Ladder.AssignTo(tok, lhs, lvalue, rhs, old(View())))
      ensures r.Got? ==> stack == old(stack)
    {
      hide ApplyAssign, Itos;
      var value := rhs;
      if tok.OpAssign? {
        if !Assigning(tok.op) { return Raised(BadOperator); }
        if (tok.op == Div || tok.op == Mod) && value == 0 {
          if noeval == 0 { return Raised(DivByZero); }
          value := 1;
        }
        value := ApplyAssign(tok.op, lvalue, value);
      }
      if noeval == 0 {
        store := store[lhs := Itos(value)];
      }
      tokstr := None;
      return Got(value);
    }

    method ExpCond() returns (r: Outcome)
      requires Wf(View())
      modifies this
      ensures Meets(r, View(), Ladder.ExpCond(old(View())))
      ensures r.Got? ==> stack == old(stack)
      decreases MAX_DEPTH - |stack|, Left(View()), 35
    {
      hide Ladder.ThenArm, Ladder.ElseArm, Ladder.ExpBinary;
      var cval :- ExpBinary(3);
      if curtok != Ques { return Got(cval); }
      assert Ladder.ExpBinary(3, old(View())) == Ok(cval, View());
      var val1 :- ThenArm(cval);
      var val2 :- ElseArm(cval);
      lasttok := Cond;
      return Got(if cval != 0 then val1 else val2);
    }

    method ThenArm(cval: int) returns (r: Outcome)
      requires Wf(View()) && curtok == Ques
      modifies this
      ensures Meets(r, View(), Ladder.ThenArm(cval, old(View())))
      ensures r.Got? ==> stack == old(stack)
      decreases MAX_DEPTH - |stack|, Left(View()), 3
    {
      hide Ladder.ReadTok, Ladder.ExpComma;
      noeval := if cval == 0 then noeval + 1 else noeval;
      var _ :- ReadTok();
      if curtok == End || curtok == Col { return Raised(ExpressionExpected); }
      var val1 :- ExpComma();
      noeval := if cval == 0 then noeval - 1 else noeval;
      if curtok != Col { return Raised(ColonExpected); }
      return Got(val1);
    }

    method ElseArm(cval: int) returns (r: Outcome)
      requires Wf(View()) && curtok == Col
      modifies this
      ensures Meets(r, View(), Ladder.ElseArm(cval, old(View())))
      ensures r.Got? ==> stack == old(stack)
      decreases MAX_DEPTH - |stack|, Left(View()), 3
    {
      hide Ladder.ReadTok, Ladder.ExpCond;
      noeval := if cval != 0 then noeval + 1 else noeval;
      var _ :- ReadTok();
      if curtok == End { return Raised(ExpressionExpected); }
      var val2 :- ExpCond();
      noeval := if cval != 0 then noeval - 1 else noeval;
      return Got(val2);
    }

    /** `explor`, `expland`, `expbor`, `expbxor`, `expband`, `exp5`, `exp4`, `expshift`, `exp3`, `expmuldiv`. */
    method ExpBinary(k: nat) returns (r: Outcome)
      requires Wf(View()) && 3 <= k <= 12
      modifies this
      ensures Meets(r, View(), Ladder.ExpBinary(k, old(View())))
      ensures r.Got? ==> stack == old(stack)
      decreases MAX_DEPTH - |stack|, Left(View()), 39 - 2 * k
    {
      hide Ladder.BinaryTurn, Ladder.Operand;
      var val1 :- Operand(k + 1);
      while curtok.Bin? && Rung(curtok.op) == k
        invariant Wf(View()) && InRange(val1) && stack == old(stack) && Left(View()) < old(Left(View()))
        invariant Ladder.ExpBinary(k, old(View())) == BinaryLoop(k, val1, View())
        decreases Left(View())
      {
        val1 :- BinaryTurn(k, val1);
      }
      return Got(val1);
    }

    /** The body of a rung's loop. */
    method BinaryTurn(k: nat, val1: int) returns (r: Outcome)
      requires Wf(View()) && InRange(val1) && 3 <= k <= 12 && curtok.Bin? && Rung(curtok.op) == k
      modifies this
      ensures Meets(r, View(), Ladder.BinaryTurn(k, val1, old(View())))
      ensures r.Got? ==> stack == old(stack)
      decreases MAX_DEPTH - |stack|, Left(View()), 3
    {
      hide Ladder.ReadTok, Ladder.Operand, Ladder.Combine;
      var op := curtok.op;
      var setNoeval := Decided(op, val1);
      noeval := if setNoeval then noeval + 1 else noeval;
      var _ :- ReadTok();
      var val2 :- Operand(k + 1);
      noeval := if setNoeval then noeval - 1 else noeval;
      r := CombineValues(op, val1, val2);
    }

    method CombineValues(op: BinOp, val1: int, operand: int) returns (r: Outcome)
      requires Wf(View()) && InRange(val1) && op != Power
      modifies this
      ensures Meets(r, View(), Ladder.Combine(op, val1, operand, old(View())))
      ensures stack == old(stack)
    {
      var val2 := operand;
      if (op == Div || op == Mod) && val2 == 0 {
        if noeval == 0 { return Raised(DivByZero); }
        val2 := 1;
      } else if op == Mod && val1 == INTMAX_MIN && val2 == -1 {
        return Got(0);
      }
      lasttok := if op == LOr || op == LAnd then Bin(op) else Num;
      return Got(Apply(op, val1, val2));
    }

    method Operand(k: nat) returns (r: Outcome)
      requires Wf(View()) && 4 <= k <= 13
      modifies this
      ensures Meets(r, View(), Ladder.Operand(k, old(View())))
      ensures r.Got? ==> stack == old(stack)
      decreases MAX_DEPTH - |stack|, Left(View()), 40 - 2 * k
    {
      if k == 13 {
        r := ExpPower();
      } else {
        r := ExpBinary(k);
      }
    }

    method ExpPower() returns (r: Outcome)
      requires Wf(View())
      modifies this
      ensures Meets(r, View(), Ladder.ExpPower(old(View())))
      ensures r.Got? ==> stack == old(stack)
      decreases MAX_DEPTH - |stack|, Left(View()), 13
    {
      hide Ladder.ReadTok, Ladder.Exp1, Pow, Wrap;
      var val1 :- Exp1();
      while curtok == Bin(Power)
        invariant Wf(View()) && InRange(val1) && stack == old(stack) && Left(View()) < old(Left(View()))
        invariant Ladder.ExpPower(old(View())) == PowerLoop(val1, View())
        decreases Left(View())
      {
        var _ :- ReadTok();
        var val2 :- ExpPower();
        lasttok := Num;
        if val2 == 0 { return Got(1); }
        if val2 < 0 { return Raised(NegativeExponent); }
        val1 := Ipow(val1, val2);
      }
      return Got(val1);
    }

    method Exp1() returns (r: Outcome)
      requires Wf(View())
      modifies this
      ensures Meets(r, View(), Ladder.Exp1(old(View())))
      ensures r.Got? ==> stack == old(stack)
      decreases MAX_DEPTH - |stack|, Left(View()), 11
    {
      hide Ladder.ReadTok, Ladder.Exp0, Unary;
      var op := curtok;
      if !IsUnary(op) {
        r := Exp0();
        return;
      }
      var _ :- ReadTok();
      var val :- Exp1();
      lasttok := Num;
      return Got(Unary(op, val));
    }

    method Exp0() returns (r: Outcome)
      requires Wf(View())
      modifies this
      ensures Meets(r, View(), Ladder.Exp0(old(View())))
      ensures r.Got? ==> stack == old(stack)
      decreases MAX_DEPTH - |stack|, Left(View()), 9
    {
      hide Ladder.ReadTok, Ladder.ExpComma, Ladder.PreStep, Ladder.NameOperand;
      if IsIncDec(curtok) {
        r := PreStepOperand();
      } else if curtok == LPar {
        var _ :- ReadTok();
        var val :- ExpComma();
        if curtok != RPar { return Raised(MissingParen); }
        var _ :- ReadTok();
        r := Got(val);
      } else if curtok == Num {
        var val := tokval;
        var _ :- ReadTok();
        r := Got(val);
      } else if curtok == Str {
        r := NameOperand();
      } else {
        r := Raised(OperandExpected);
      }
    }

    method PreStepOperand() returns (r: Outcome)
      requires Wf(View()) && IsIncDec(curtok)
      modifies this
      ensures Meets(r, View(), Ladder.PreStep(old(View())))
      ensures r.Got? ==> stack == old(stack)
      decreases MAX_DEPTH - |stack|, Left(View()), 5
    {
      hide Ladder.ReadTok, Itos, Wrap;
      var stok := curtok;
      lasttok := curtok;
      var _ :- ReadTok();
      if curtok != Str { return Raised(IdentifierExpected); }
      var v2 := Step(stok == PreInc, tokval);
      if noeval == 0 && tokstr.Some? {
        store := store[tokstr.value := Itos(v2)];
      }
      curtok := Num;
      var _ :- ReadTok();
      return Got(v2);
    }

    method NameOperand() returns (r: Outcome)
      requires Wf(View()) && curtok == Str
      modifies this
      ensures Meets(r, View(), Ladder.NameOperand(old(View())))
      ensures r.Got? ==> stack == old(stack)
      decreases MAX_DEPTH - |stack|, Left(View()), 5
    {
      hide Ladder.ReadTok, Itos, Wrap;
      var val := tokval;
      var ec := Save();
      tokstr := None;
      noeval := 1;
      var _ :- ReadTok();
      var stok := curtok;
      if stok == PostInc || stok == PostDec {
        PostStep(ec);
      } else {
        Restore(ec);
      }
      var _ :- ReadTok();
      return Got(val);
    }

    method PostStep(ec: Context)
      modifies this
      ensures View() == Ladder.PostStep(ec.tokval, ec.tokstr, ec.noeval, old(View()))
      ensures stack == old(stack)
    {
      var stok := curtok;
      tokstr, noeval, lasttok := ec.tokstr, ec.noeval, Str;
      var v2 := Step(stok == PostInc, ec.tokval);
      if noeval == 0 && tokstr.Some? {
        store := store[tokstr.value := Itos(v2)];
      }
      curtok := Num;
    }
  }
}
