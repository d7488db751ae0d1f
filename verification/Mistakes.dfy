/** Texts that are no expressions: which error the evaluator gives, and what it has done to variables by then. */
module Mistakes {
  import opened Int64
  import opened Numerals
  import opened Tokens
  import opened Operators
  import opened Ladder
  import opened Expressions
  import opened Strings
  import opened Reading
  import opened Faithful
  import ExprLaws

  /** The answer when a part with meaning d is followed by a mistake: an error of the part comes first. */
  function Mistaken(d: Meant, problem: Problem): Answer
    requires !d.Unclear?
  {
    match d
    case Means(_, env) => Failed(problem, StoreOf(env))
    case Fails(e, env) => Failed(e, StoreOf(env))
  }

  /** An error on any rung is the error of the whole. */
  lemma ErrorRises(p: Parser, k: nat, problem: Problem, store: Store)
    requires Wf(p) && k <= 14 && ReadThen(k, p) == Err(problem, store)
    ensures Finish(Ladder.Whole(p)) == Failed(problem, store)
  {
    hide ReadTok, Ladder.Whole, Level;
    WholeRun(p);
    if ReadTok(p).Ok? {
      Descend(0, k, ReadTok(p).p);
    }
  }

  /** What agreement says of a clear meaning. */
  lemma AgreesIs(r: Run, d: Meant, p: Parser, rest: Lexemes)
    requires Agrees(r, d, p, rest) && !d.Unclear?
    ensures d.Means? ==> r.Ok? && r.v == d.v && r.p.store == StoreOf(d.env) && r.p.cur == Head(rest) && Wf(r.p)
    ensures d.Means? ==> r.p.noeval == p.noeval && r.p.depth == p.depth && r.p.text == p.text
    ensures d.Means? && rest.Cons? ==> Spells(r.p.text, r.p.tp, rest.tail)
    ensures d.Fails? ==> r == Err(d.problem, StoreOf(d.env))
  {
    hide Spells, Spelled;
  }

  lemma RendersIs(store: Store, env: Env)
    requires Renders(store, env)
    ensures store == StoreOf(env)
  {}

  /** A token that begins no operand, where one is due. */
  lemma NoOperand(k: nat, q: Parser)
    requires Wf(q) && k <= 15 && q.cur in {End, RPar, Col, Comma, Ques}
    ensures Level(k, q) == Err(OperandExpected, q.store)
  {
    hide ReadTok, ExpComma, ExpAssign, ExpCond, ExpBinary, ExpPower, Exp1;
    assert Exp0(q) == Err(OperandExpected, q.store);
    Descend(k, 15, q);
  }

  /** The symbols that can follow where an operand is missing. */
  predicate Barren(xs: Lexemes) {
    xs.Nil? || (xs.head.Sym? && xs.head.t in {RPar, Col, Comma, Ques})
  }

  lemma BarrenReads(q: Parser, xs: Lexemes, k: nat)
    requires Wf(q) && Spells(q.text, q.tp, xs) && Barren(xs) && k <= 15
    ensures ReadThen(k, q) == Err(OperandExpected, q.store)
  {
    hide Spells, ReadTok, After, Level;
    ReadSymbol(q, xs);
    NoOperand(k, ReadTok(q).p);
  }

  /** `( e` without a closing parenthesis. */
  lemma UnclosedParen(e: Expr, text: string, store: Store, env: Env)
    requires WellFormed(e) && Spells(text, 0, Cons(Sym(LPar), Print(e, 0, Nil))) && Renders(store, env)
    requires !Meaning(e, false, 1, env).Unclear?
    ensures SubExpr(text, 0, store) == Mistaken(Meaning(e, false, 1, env), MissingParen)
  {
    hide Spells, ReadTok, Renders, Meaning, Print, WellFormed, Level, Ladder.Whole, SubExpr, SkipSpace, ReadThen;
    var p := Fresh(text, 1, store);
    SymbolNotBlank(text, LPar, Print(e, 0, Nil));
    ExprLaws.Pushed(text, 0, store);
    ReadOperator(p, LPar, Print(e, 0, Nil), env);
    var q := ReadTok(p).p;
    Parse(e, 0, q, Nil, env);
    var r, d := ReadThen(0, q), Meaning(e, false, 1, env);
    ParenFails(p, q);
    AgreesIs(r, d, q, Nil);
    ErrorRises(p, 14, if d.Means? then MissingParen else d.problem, StoreOf(d.env));
  }

  lemma SymbolNotBlank(text: string, t: Tok, xs: Lexemes)
    requires Spells(text, 0, Cons(Sym(t), xs)) && IsSymbol(t)
    ensures SkipSpace(text, 0) < |text|
  {
    assert Spelling(t) != "";
  }

  lemma ParenFails(p: Parser, q: Parser)
    requires Wf(p) && ReadTok(p).Ok? && q == ReadTok(p).p && q.cur == LPar
    ensures var r := ReadThen(0, q);
            && (r.Err? ==> ReadThen(14, p) == r)
            && (r.Ok? && r.p.cur != RPar ==> ReadThen(14, p) == Err(MissingParen, r.p.store))
  {
    hide ReadTok, ExpComma;
    assert Exp1(q) == Exp0(q);
  }

  /** `( )`, or any other symbol where the operand in parentheses is due. */
  lemma EmptyParen(xs: Lexemes, text: string, store: Store)
    requires Barren(xs) && Spells(text, 0, Cons(Sym(LPar), xs))
    ensures SubExpr(text, 0, store) == Failed(OperandExpected, store)
  {
    hide Spells, ReadTok, Level, Ladder.Whole, SubExpr, SkipSpace, ReadThen, After;
    var p := Fresh(text, 1, store);
    SymbolNotBlank(text, LPar, xs);
    ExprLaws.Pushed(text, 0, store);
    ReadSymbol(p, Cons(Sym(LPar), xs));
    var q := ReadTok(p).p;
    BarrenReads(q, xs, 0);
    ParenFails(p, q);
    ErrorRises(p, 14, OperandExpected, store);
  }

  /** A unary operator with nothing behind it. */
  lemma UnaryAlone(op: UnaryOp, xs: Lexemes, text: string, store: Store)
    requires Barren(xs) && Spells(text, 0, Cons(Sym(UnaryTok(op)), xs))
    ensures SubExpr(text, 0, store) == Failed(OperandExpected, store)
  {
    hide Spells, ReadTok, Level, Ladder.Whole, SubExpr, SkipSpace, ReadThen, After;
    var p := Fresh(text, 1, store);
    SymbolNotBlank(text, UnaryTok(op), xs);
    ExprLaws.Pushed(text, 0, store);
    ReadSymbol(p, Cons(Sym(UnaryTok(op)), xs));
    var q := ReadTok(p).p;
    BarrenReads(q, xs, 14);
    UnaryFails(p, q);
    ErrorRises(p, 14, OperandExpected, store);
  }

  lemma UnaryFails(p: Parser, q: Parser)
    requires Wf(p) && ReadTok(p).Ok? && q == ReadTok(p).p && IsUnary(q.cur)
    ensures ReadThen(14, q).Err? ==> ReadThen(14, p) == ReadThen(14, q)
  {
    hide ReadTok, Exp0;
  }

  /** `e op` with nothing behind the operator. */
  lemma OperatorLast(e: Expr, op: BinOp, xs: Lexemes, text: string, store: Store, env: Env)
    requires op != Power && Barren(xs) && WellFormed(e) && Renders(store, env)
    requires Spells(text, 0, Print(e, Rung(op), Cons(Sym(Bin(op)), xs))) && !Meaning(e, false, 1, env).Unclear?
    ensures SubExpr(text, 0, store) == Mistaken(Meaning(e, false, 1, env), OperandExpected)
  {
    hide Spells, ReadTok, Renders, Meaning, Print, WellFormed, Level, Ladder.Whole, SubExpr, SkipSpace, ReadThen,
      BinaryLoop, Reached, Agrees;
    var p, k, ys := Fresh(text, 1, store), Rung(op), Cons(Sym(Bin(op)), xs);
    PrintNotBlank(e, k, ys, text);
    ExprLaws.Pushed(text, 0, store);
    var q := ParseLoop(e, k, p, ys, env);
    LoopFails(p, q, op, xs, Meaning(e, false, 1, env));
  }

  lemma LoopFails(p: Parser, q: Parser, op: BinOp, xs: Lexemes, d: Meant)
    requires Wf(p) && op != Power && Barren(xs) && !d.Unclear?
    requires d.Means? ==> Reached(q, p, Cons(Sym(Bin(op)), xs)) && Renders(q.store, d.env) && InRange(d.v) &&
                          ReadThen(Rung(op), p) == BinaryLoop(Rung(op), d.v, q)
    requires d.Fails? ==> Agrees(ReadThen(Rung(op), p), d, p, Cons(Sym(Bin(op)), xs))
    ensures Finish(Ladder.Whole(p)) == Mistaken(d, OperandExpected)
  {
    hide Spells, ReadTok, Renders, Level, Ladder.Whole, ReadThen, BinaryLoop, Reached, Agrees;
    var k, ys := Rung(op), Cons(Sym(Bin(op)), xs);
    if d.Means? {
      ReachedIs(q, p, ys);
      ReachedSpells(q, p, ys);
      TurnFails(op, d.v, q, xs);
      RendersIs(q.store, d.env);
      ErrorRises(p, k, OperandExpected, q.store);
    } else {
      AgreesIs(ReadThen(k, p), d, p, ys);
      ErrorRises(p, k, d.problem, StoreOf(d.env));
    }
  }

  lemma ReachedSpells(q: Parser, p: Parser, xs: Lexemes)
    requires Reached(q, p, xs) && xs.Cons?
    ensures Wf(q) && Spells(q.text, q.tp, xs.tail)
  {}

  lemma PrintNotBlank(e: Expr, k: nat, rest: Lexemes, text: string)
    requires WellFormed(e) && Spells(text, 0, Print(e, k, rest))
    ensures SkipSpace(text, 0) < |text|
  {
    hide Print, Spells;
    PrintOpens(e, k, rest);
    OpensNotBlank(text, Print(e, k, rest));
  }

  lemma TurnFails(op: BinOp, v: int, q: Parser, xs: Lexemes)
    requires op != Power && Wf(q) && InRange(v) && q.cur == Bin(op)
    requires Spells(q.text, q.tp, xs) && Barren(xs)
    ensures BinaryLoop(Rung(op), v, q) == Err(OperandExpected, q.store)
  {
    hide Spells, ReadTok, Level, ReadThen, BinaryTurn, Combine;
    var q0 := Enter(Decided(op, v), q);
    BarrenReads(q0, xs, Rung(op) + 1);
    TurnRun(op, Rung(op), v, q);
  }

  /** `c ? a` without a colon. */
  lemma NoColon(c: Expr, a: Expr, text: string, store: Store, env: Env)
    requires WellFormed(c) && WellFormed(a) && Renders(store, env) && Meaning(c, false, 1, env).Means?
    requires Spells(text, 0, Print(c, 3, Cons(Sym(Ques), Print(a, 0, Nil))))
    requires var d := Meaning(c, false, 1, env); !Meaning(a, d.v == 0, 1, d.env).Unclear?
    ensures var d := Meaning(c, false, 1, env);
            SubExpr(text, 0, store) == Mistaken(Meaning(a, d.v == 0, 1, d.env), ColonExpected)
  {
    hide Spells, ReadTok, Renders, Meaning, Print, WellFormed, Level, Ladder.Whole, SubExpr, SkipSpace, ReadThen, Arms;
    var p, ys := Fresh(text, 1, store), Print(a, 0, Nil);
    PrintNotBlank(c, 3, Cons(Sym(Ques), ys), text);
    ExprLaws.Pushed(text, 0, store);
    Parse(c, 3, p, Cons(Sym(Ques), ys), env);
    CondRun(p);
    var d := Meaning(c, false, 1, env);
    var q := ReadThen(3, p).p;
    Faithful.Onward(q, p, Ques, ys, d.env, d.v == 0);
    var q0 := Enter(d.v == 0, q);
    Parse(a, 0, q0, Nil, d.env);
    PrintOpens(a, 0, Nil);
    ReadOpens(q0, ys);
    var r, da := ReadThen(0, q0), Meaning(a, d.v == 0, 1, d.env);
    ThenFails(d.v, q);
    AgreesIs(r, da, q0, Nil);
    ErrorRises(p, 2, if da.Means? then ColonExpected else da.problem, StoreOf(da.env));
  }

  lemma ThenFails(v: int, q: Parser)
    requires Wf(q) && q.cur == Ques
    requires var q0 := Enter(v == 0, q); ReadTok(q0).Ok? ==> ReadTok(q0).p.cur !in {End, Col}
    ensures var r := ReadThen(0, Enter(v == 0, q));
            && (r.Err? ==> Arms(v, q) == r)
            && (r.Ok? && r.p.cur != Col ==> Arms(v, q) == Err(ColonExpected, r.p.store))
  {
    hide ReadTok, ExpComma;
  }

  /** `c ?` with no expression before the colon, or nothing at all. */
  lemma NoThen(c: Expr, xs: Lexemes, text: string, store: Store, env: Env)
    requires WellFormed(c) && Renders(store, env) && Meaning(c, false, 1, env).Means?
    requires xs.Nil? || xs.head == Sym(Col)
    requires Spells(text, 0, Print(c, 3, Cons(Sym(Ques), xs)))
    ensures SubExpr(text, 0, store) == Failed(ExpressionExpected, StoreOf(Meaning(c, false, 1, env).env))
  {
    hide Spells, ReadTok, Renders, Meaning, Print, WellFormed, Level, Ladder.Whole, SubExpr, SkipSpace, ReadThen, Arms,
      After, Agrees, Reached;
    var p := Fresh(text, 1, store);
    PrintNotBlank(c, 3, Cons(Sym(Ques), xs), text);
    ExprLaws.Pushed(text, 0, store);
    Parse(c, 3, p, Cons(Sym(Ques), xs), env);
    CondRun(p);
    var d := Meaning(c, false, 1, env);
    AgreesIs(ReadThen(3, p), d, p, Cons(Sym(Ques), xs));
    var q := ReadThen(3, p).p;
    var q0 := Enter(d.v == 0, q);
    ReadSymbol(q0, xs);
    NothingThen(d.v, q);
    ErrorRises(p, 2, ExpressionExpected, q.store);
  }

  lemma NothingThen(v: int, q: Parser)
    requires Wf(q) && q.cur == Ques
    requires var r := ReadTok(Enter(v == 0, q)); r.Ok? && r.p.cur in {End, Col} && r.p.store == q.store
    ensures Arms(v, q) == Err(ExpressionExpected, q.store)
  {
    hide ReadTok;
  }

  /** `c ? a :` with nothing behind the colon. */
  lemma NoElse(c: Expr, a: Expr, text: string, store: Store, env: Env)
    requires WellFormed(c) && WellFormed(a) && Renders(store, env) && Meaning(c, false, 1, env).Means?
    requires Spells(text, 0, Print(c, 3, Cons(Sym(Ques), Print(a, 0, Cons(Sym(Col), Nil)))))
    requires var d := Meaning(c, false, 1, env); !Meaning(a, d.v == 0, 1, d.env).Unclear?
    ensures var d := Meaning(c, false, 1, env);
            SubExpr(text, 0, store) == Mistaken(Meaning(a, d.v == 0, 1, d.env), ExpressionExpected)
  {
    hide Spells, ReadTok, Renders, Meaning, Print, WellFormed, Level, Ladder.Whole, SubExpr, SkipSpace, ReadThen, Arms,
      After, ThenArm;
    var p, ys := Fresh(text, 1, store), Print(a, 0, Cons(Sym(Col), Nil));
    PrintNotBlank(c, 3, Cons(Sym(Ques), ys), text);
    ExprLaws.Pushed(text, 0, store);
    Parse(c, 3, p, Cons(Sym(Ques), ys), env);
    CondRun(p);
    var d := Meaning(c, false, 1, env);
    var q := ReadThen(3, p).p;
    Faithful.Onward(q, p, Ques, ys, d.env, d.v == 0);
    var da := ParseThen(a, d.v, q, Nil, d.env);
    var r := ThenArm(d.v, q);
    AgreesIs(r, da, q, Cons(Sym(Col), Nil));
    if da.Means? {
      ReadSymbol(Enter(d.v != 0, r.p), Nil);
    }
    NothingElse(d.v, q);
    ErrorRises(p, 2, if da.Means? then ExpressionExpected else da.problem, StoreOf(da.env));
  }

  lemma NothingElse(v: int, q: Parser)
    requires Wf(q) && q.cur == Ques
    ensures var r := ThenArm(v, q);
            && (r.Err? ==> Arms(v, q) == r)
            && (r.Ok? && ReadTok(Enter(v != 0, r.p)).Ok? && ReadTok(Enter(v != 0, r.p)).p.cur == End ==>
                  Arms(v, q) == Err(ExpressionExpected, ReadTok(Enter(v != 0, r.p)).p.store))
  {
    hide ReadTok, ThenArm;
  }

  /** A whole expression and then a closing parenthesis or a colon that belongs to nothing. */
  lemma TrailingSymbol(e: Expr, t: Tok, xs: Lexemes, text: string, store: Store, env: Env)
    requires t in {RPar, Col} && WellFormed(e) && Renders(store, env)
    requires Spells(text, 0, Print(e, 0, Cons(Sym(t), xs))) && !Meaning(e, false, 1, env).Unclear?
    ensures SubExpr(text, 0, store) == Mistaken(Meaning(e, false, 1, env), TrailingText)
  {
    hide Spells, ReadTok, Renders, Meaning, Print, WellFormed, Level, Ladder.Whole, SubExpr, SkipSpace, ReadThen;
    var p := Fresh(text, 1, store);
    PrintNotBlank(e, 0, Cons(Sym(t), xs), text);
    ExprLaws.Pushed(text, 0, store);
    Parse(e, 0, p, Cons(Sym(t), xs), env);
    var r, d := ReadThen(0, p), Meaning(e, false, 1, env);
    Trailing(p);
    AgreesIs(r, d, p, Cons(Sym(t), xs));
  }

  lemma Trailing(p: Parser)
    requires Wf(p)
    ensures var r := ReadThen(0, p);
            && (r.Err? ==> Ladder.Whole(p) == r)
            && (r.Ok? && r.p.cur != End ==> Ladder.Whole(p) == Err(TrailingText, r.p.store))
  {
    hide ReadTok, ExpComma;
  }

  /** `7 = ...` and `7 += ...`: a number is no variable. */
  lemma AssignToNumber(c: string, t: Tok, xs: Lexemes, text: string, store: Store)
    requires IsConstant(c) && (t == Eq || (t.OpAssign? && Assigning(t.op)))
    requires Spells(text, 0, Cons(Numeral(c), Cons(Sym(t), xs)))
    ensures SubExpr(text, 0, store) ==
            Failed(if Strlong(c).Number? then NotAVariable else Strlong(c).problem, store)
  {
    hide Spells, ReadTok, Ladder.Whole, SubExpr, SkipSpace, After, Strlong, ExpCond, IsConstant;
    var p, ys := Fresh(text, 1, store), Cons(Sym(t), xs);
    NumeralNotBlank(text, c, ys);
    ExprLaws.Pushed(text, 0, store);
    ReadNumeral(p, c, ys);
    if ReadTok(p).Ok? {
      var q := ReadTok(p).p;
      ReadSymbol(q, ys);
      assert Level(15, q) == Ok(q.tokval, ReadTok(q).p);
      Descend(2, 15, q);
      assert ReadThen(1, p) == Err(NotAVariable, store);
      ErrorRises(p, 1, NotAVariable, store);
    } else {
      ErrorRises(p, 1, ReadTok(p).problem, store);
    }
  }

  lemma NumeralNotBlank(text: string, c: string, xs: Lexemes)
    requires Spells(text, 0, Cons(Numeral(c), xs)) && IsConstant(c)
    ensures SkipSpace(text, 0) < |text|
  {}

  /** `(e) = ...`: a parenthesised expression is no variable, even if it is a name. */
  lemma AssignToParen(e: Expr, t: Tok, xs: Lexemes, text: string, store: Store, env: Env)
    requires WellFormed(e) && (t == Eq || (t.OpAssign? && Assigning(t.op))) && Renders(store, env)
    requires Spells(text, 0, Cons(Sym(LPar), Print(e, 0, Cons(Sym(RPar), Cons(Sym(t), xs)))))
    requires !Meaning(e, false, 1, env).Unclear?
    ensures SubExpr(text, 0, store) == Mistaken(Meaning(e, false, 1, env), NotAVariable)
  {
    hide Spells, ReadTok, Renders, Meaning, Print, WellFormed, Level, Ladder.Whole, SubExpr, SkipSpace, ReadThen, After,
      Reached, Agrees;
    var ys := Cons(Sym(t), xs);
    var zs := Print(e, 0, Cons(Sym(RPar), ys));
    var p := Fresh(text, 1, store);
    SymbolNotBlank(text, LPar, zs);
    ExprLaws.Pushed(text, 0, store);
    ReadOperator(p, LPar, zs, env);
    var q := ReadTok(p).p;
    Parse(e, 0, q, Cons(Sym(RPar), ys), env);
    ParenAssigned(p, q, t, xs, Meaning(e, false, 1, env));
  }

  lemma ParenAssigned(p: Parser, q: Parser, t: Tok, xs: Lexemes, d: Meant)
    requires Wf(p) && ReadTok(p).Ok? && q == ReadTok(p).p && q.cur == LPar && !d.Unclear?
    requires t == Eq || (t.OpAssign? && Assigning(t.op))
    requires Agrees(ReadThen(0, q), d, q, Cons(Sym(RPar), Cons(Sym(t), xs)))
    ensures Finish(Ladder.Whole(p)) == Mistaken(d, NotAVariable)
  {
    hide Spells, ReadTok, Renders, Level, Ladder.Whole, ReadThen, After, Agrees, Exp0;
    var r, ys := ReadThen(0, q), Cons(Sym(t), xs);
    AgreesIs(r, d, q, Cons(Sym(RPar), ys));
    if d.Means? {
      ReadSymbol(r.p, ys);
      ParenRun(q);
      NotAssigned(p, q, r.v, ReadTok(r.p).p);
      ErrorRises(p, 1, NotAVariable, r.p.store);
    } else {
      ParenFails(p, q);
      ErrorRises(p, 14, d.problem, r.store);
    }
  }

  lemma NotAssigned(p: Parser, q: Parser, v: int, q2: Parser)
    requires Wf(p) && ReadTok(p).Ok? && q == ReadTok(p).p && q.cur == LPar && Exp0(q) == Ok(v, q2) && q2.last != Str
    requires q2.cur == Eq || (q2.cur.OpAssign? && Assigning(q2.cur.op))
    ensures ReadThen(1, p) == Err(NotAVariable, q2.store)
  {
    hide ReadTok, Exp0, ExpCond;
    assert Level(15, q) == Ok(v, q2);
    Descend(2, 15, q);
  }

  /** A character that belongs to no token. */
  predicate Stray(c: char) {
    !IsSpace(c) && !IsNameChar(c) && c !in "=!<>&|*-+/%^~()?:,"
  }

  lemma StrayLexed(s: string, i: nat, cur: Tok, last: Tok)
    requires i < |s| && Stray(s[i])
    ensures Lex(s, i, cur, last) == LexError(if cur == Str || cur == Num then BadOperator else OperandExpected)
  {}

  /** A stray character where an operand is due. */
  lemma StrayFirst(text: string, store: Store)
    requires text != "" && Stray(text[0])
    ensures SubExpr(text, 0, store) == Failed(OperandExpected, store)
  {
    hide Ladder.Whole, SubExpr, Lex, Level;
    var p := Fresh(text, 1, store);
    assert SkipSpace(text, 0) == 0;
    ExprLaws.Pushed(text, 0, store);
    StrayLexed(text, 0, End, End);
    ErrorRises(p, 1, OperandExpected, store);
  }

  /** A stray character behind a number. */
  lemma StrayBehind(c: string, rest: string, store: Store)
    requires IsConstant(c) && Strlong(c).Number? && rest != "" && Stray(rest[0]) && rest[0] !in "#@"
    ensures SubExpr(c + rest, 0, store) == Failed(BadOperator, store)
  {
    hide Ladder.Whole, SubExpr, Lex, Strlong, ExpAssign, IsConstant, Stray;
    var text := c + rest;
    var p := Fresh(text, 1, store);
    StrayShape(c, rest);
    ExprLaws.Pushed(text, 0, store);
    NumeralLexed(text, 0, c, End, End);
    var q := ReadTok(p).p;
    StrayLexed(text, |c|, Num, End);
    assert Exp0(q) == Err(BadOperator, store);
    Descend(1, 15, q);
    ErrorRises(p, 1, BadOperator, store);
  }

  lemma StrayShape(c: string, rest: string)
    requires IsConstant(c) && rest != "" && Stray(rest[0]) && rest[0] !in "#@"
    ensures var text := c + rest;
            && SkipSpace(text, 0) == 0 < |text| && At(text, 0, c) && Apart(Numeral(c), CharAt(text, |c|))
            && |c| < |text| && text[|c|] == rest[0]
  {
    var text := c + rest;
    assert text[0] == c[0] && text[|c|] == rest[0] && text[0..|c|] == c;
  }

  /** `++x++`: the value of `++x` is no variable, and x has been stepped once by then. */
  lemma SteppedTwice(inc: bool, inc': bool, x: string, xs: Lexemes, text: string, store: Store, env: Env)
    requires IsName(x) && Renders(store, env) && !Meaning(PreOf(inc, x), false, 1, env).Unclear?
    requires Spells(text, 0, Cons(Sym(if inc then PreInc else PreDec),
                                  Cons(Word(x), Cons(Sym(if inc' then PostInc else PostDec), xs))))
    ensures SubExpr(text, 0, store) == Mistaken(Meaning(PreOf(inc, x), false, 1, env), NeedsLvalue)
  {
    hide Spells, ReadTok, Renders, Read, Level, Ladder.Whole, SubExpr, SkipSpace, After, Lookup, PreStep, Found;
    var ys := Cons(Word(x), Cons(Sym(if inc' then PostInc else PostDec), xs));
    var t := if inc then PreInc else PreDec;
    var p := Fresh(text, 1, store);
    SymbolNotBlank(text, t, ys);
    ExprLaws.Pushed(text, 0, store);
    ReadSymbol(p, Cons(Sym(t), ys));
    ParseLookup(x, p, env);
    var q := ReadTok(p).p;
    var d := Read(x, false, 1, env);
    StepFails(inc, inc', x, q, xs, d);
    assert Meaning(PreOf(inc, x), false, 1, env) == Stepped(false, inc, x, false, d);
    AtomErr(p, q, t);
    var d' := Stepped(false, inc, x, false, d);
    ErrorRises(p, 14, if d'.Means? then NeedsLvalue else d'.problem, StoreOf(d'.env));
  }

  lemma AtomErr(p: Parser, q: Parser, t: Tok)
    requires Wf(p) && ReadTok(p).Ok? && q == ReadTok(p).p && q.cur == t && IsIncDec(t) && PreStep(q).Err?
    ensures ReadThen(14, p) == PreStep(q)
  {
    hide ReadTok, PreStep;
    assert Exp0(q) == PreStep(q) && Exp1(q) == Exp0(q);
  }

  lemma StepFails(inc: bool, inc': bool, x: string, q: Parser, xs: Lexemes, d: Meant)
    requires Wf(q) && q.noeval == 0 && q.cur == (if inc then PreInc else PreDec) && IsName(x) && !d.Unclear?
    requires Spells(q.text, q.tp, Cons(Word(x), Cons(Sym(if inc' then PostInc else PostDec), xs)))
    requires Found(Lookup(x, 0, q.depth, q.store), d)
    ensures var d' := Stepped(false, inc, x, false, d);
            PreStep(q) == Err(if d'.Means? then NeedsLvalue else d'.problem, StoreOf(d'.env))
  {
    hide ReadTok, Spells, Renders, Lookup, After, Shown, Lex;
    var q1, ys := q.(last := q.cur), Cons(Sym(if inc' then PostInc else PostDec), xs);
    ReadWord(q1, x, ys);
    if ReadTok(q1).Ok? {
      var q2 := ReadTok(q1).p;
      var v := Step(inc, q2.tokval);
      BindAgrees(q2, x, v, d.env);
      RendersIs(Bind(q2, x, v), Write(false, d.env, x, v));
      LvalueNeeded(q2.(store := Bind(q2, x, v), cur := Num), inc', xs);
    } else {
      RendersIs(ReadTok(q1).store, d.env);
    }
  }

  /** A second `++` or `--` behind a stepped name. */
  lemma LvalueNeeded(q: Parser, inc: bool, xs: Lexemes)
    requires Wf(q) && q.cur == Num && IsIncDec(q.last)
    requires Spells(q.text, q.tp, Cons(Sym(if inc then PostInc else PostDec), xs))
    ensures ReadTok(q) == Err(NeedsLvalue, q.store)
  {
    hide Lex, Shown;
    StepShown(q.text, q.tp, inc, xs);
    LvalueLexed(q.text, q.tp, inc, q.last);
  }

  lemma StepShown(s: string, tp: nat, inc: bool, xs: Lexemes)
    requires tp <= |s| && Spells(s, tp, Cons(Sym(if inc then PostInc else PostDec), xs))
    ensures At(s, SkipSpace(s, tp), if inc then "++" else "--")
  {}

  lemma LvalueLexed(s: string, tp: nat, inc: bool, last: Tok)
    requires tp <= |s| && At(s, SkipSpace(s, tp), if inc then "++" else "--") && IsIncDec(last)
    ensures Lex(s, tp, Num, last) == LexError(NeedsLvalue)
  {
    hide At, SkipSpace;
    var i, c := SkipSpace(s, tp), if inc then '+' else '-';
    assert (if inc then "++" else "--") == [c, c];
    AtTwo(s, i, c, c);
    assert LexSymbol(s, i, Num, last) == LexError(NeedsLvalue);
  }
}
