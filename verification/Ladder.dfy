/**
 The arithmetic evaluator as functions of its parser state: the specification that the
 `Evaluator` class is proved against. Every function is total on every text and store.
 */
module Ladder {
  import opened Int64
  import opened Numerals
  import opened Tokens
  import opened Operators
  import opened Options

  type Store = map<string, string>

  const MAX_DEPTH: nat := 1024

  /** The globals of the evaluator; `depth` is the height of the context stack. */
  datatype Parser = Parser(
    text: string, tp: nat, cur: Tok, last: Tok, tokval: int, tokstr: Option<string>,
    noeval: nat, depth: nat, store: Store)

  /** A value and the state after it, or the error that `evalerror` jumps out with. */
  datatype Run = Ok(v: int, p: Parser) | Err(problem: Problem, store: Store) {
    predicate IsFailure() { Err? }
    function PropagateFailure(): Run requires Err? { this }
    function Extract(): (int, Parser) requires Ok? { (v, p) }
  }

  /** What an evaluation leaves to its caller: a value or an error, and the store. */
  datatype Answer = Value(v: int, store: Store) | Failed(problem: Problem, store: Store)

  predicate Wf(p: Parser) {
    p.tp <= |p.text| && p.depth <= MAX_DEPTH && InRange(p.tokval)
  }

  /** The input left: the unread characters and the token already read. */
  function Left(p: Parser): nat
    requires Wf(p)
  {
    |p.text| - p.tp + (if p.cur == End then 0 else 1)
  }

  /**
   What every step of the evaluator keeps: the text, the depth of the stack and `noeval` are as
   they were, no input is put back, and while `noeval` is positive the store is untouched
   and neither a division by zero nor the recursion limit is reported.
   */
  ghost predicate Keeps(p: Parser, r: Run)
    requires Wf(p)
  {
    match r
    case Ok(v, q) =>
      && Wf(q) && InRange(v) && Left(q) <= Left(p)
      && q.text == p.text && q.depth == p.depth && q.noeval == p.noeval
      && (p.noeval > 0 ==> q.store == p.store)
    case Err(e, st) =>
      p.noeval > 0 ==> st == p.store && e != DivByZero && e != TooDeep
  }

  /** As `Keeps`, for the functions that read at least the token they start on. */
  ghost predicate Consumes(p: Parser, r: Run)
    requires Wf(p)
  {
    Keeps(p, r) && (r.Ok? ==> Left(r.p) < Left(p))
  }

  /** `readtok`. */
  function ReadTok(p: Parser): (r: Run)
    requires Wf(p)
    ensures Keeps(p, r)
    ensures p.cur != End ==> Consumes(p, r)
    decreases MAX_DEPTH - p.depth, Left(p), 2, |p.text| - p.tp
  {
    match Lex(p.text, p.tp, p.cur, p.last)
    case LexError(e) => Err(e, p.store)
    case Lexed(tok, next, name, val) =>
      if tok == Str then ReadName(p, name, next)
      else Ok(0, p.(tp := next, cur := tok, last := p.cur, tokval := if tok == Num then val else p.tokval))
  }

  /** A name is looked up as it is read, unless the token after it makes it the target of `=`. */
  function ReadName(p: Parser, name: string, next: nat): (r: Run)
    requires Wf(p) && p.tp < next <= |p.text|
    ensures Keeps(p, r)
    ensures p.cur != End ==> Consumes(p, r)
    decreases MAX_DEPTH - p.depth, Left(p), 2, |p.text| - p.tp, 0
  {
    var (_, peek) :- ReadTok(p.(tp := next, cur := Str, tokstr := None, noeval := 1));
    var a := if IsIncDec(p.last) || peek.cur != Eq then Lookup(name, p.noeval, p.depth, p.store) else Value(0, p.store);
    match a
    case Value(v, st) =>
      Ok(0, p.(tp := next, cur := Str, last := p.cur, tokstr := Some(name), tokval := v, store := st))
    case Failed(e, st) => Err(e, st)
  }

  /** `expr_streval`: the value of a variable is the value of its text as an expression. */
  function Lookup(name: string, noeval: nat, depth: nat, store: Store): (a: Answer)
    requires depth <= MAX_DEPTH
    ensures a.Value? ==> InRange(a.v)
    ensures noeval > 0 ==> a == Value(0, store)
    decreases MAX_DEPTH - depth, 0, 1
  {
    if noeval > 0 then Value(0, store)
    else if name in store && store[name] != "" then SubExpr(store[name], depth, store)
    else Value(0, store)
  }

  /** The state `subexpr` starts a text in, after `pushexp`. */
  function Fresh(text: string, depth: nat, store: Store): Parser {
    Parser(text, 0, End, End, 0, None, 0, depth, store)
  }

  /** `subexpr`, at the given depth of the context stack. */
  function SubExpr(text: string, depth: nat, store: Store): (a: Answer)
    requires depth <= MAX_DEPTH
    ensures a.Value? ==> InRange(a.v)
    decreases MAX_DEPTH - depth, 0, 0
  {
    if SkipSpace(text, 0) == |text| then Value(0, store)
    else if depth >= MAX_DEPTH then Failed(TooDeep, store)
    else
      Finish(Whole(Fresh(text, depth + 1, store)))
  }

  /** The evaluation of a whole text, from the state before its first token. */
  function Whole(p: Parser): (r: Run)
    requires Wf(p)
    ensures Keeps(p, r)
    decreases MAX_DEPTH - p.depth, Left(p), 50
  {
    var (_, q) :- ReadTok(p);
    var (v, q1) :- ExpComma(q);
    if q1.cur != End then Err(TrailingText, q1.store) else Ok(v, q1)
  }

  function Finish(r: Run): Answer {
    match r
    case Ok(v, q) => Value(v, q.store)
    case Err(e, st) => Failed(e, st)
  }

  function ExpComma(p: Parser): (r: Run)
    requires Wf(p)
    ensures Consumes(p, r)
    decreases MAX_DEPTH - p.depth, Left(p), 39
  {
    var (v, q) :- ExpAssign(p);
    CommaLoop(v, q)
  }

  function CommaLoop(v: int, p: Parser): (r: Run)
    requires Wf(p) && InRange(v)
    ensures Keeps(p, r)
    decreases MAX_DEPTH - p.depth, Left(p), 3
  {
    if p.cur == Comma then
      var (_, q) :- ReadTok(p);
      var (v1, q1) :- ExpAssign(q);
      CommaLoop(v1, q1)
    else Ok(v, p)
  }

  /** `expr_bind_variable`, done only while `noeval` is zero. */
  function Bind(p: Parser, name: string, value: int): Store {
    if p.noeval == 0 then p.store[name := Itos(value)] else p.store
  }

  /** Enter and leave an operand that must not be evaluated. */
  function Enter(skip: bool, p: Parser): Parser {
    if skip then p.(noeval := p.noeval + 1) else p
  }

  function Leave(skip: bool, p: Parser): Parser
    requires skip ==> p.noeval > 0
  {
    if skip then p.(noeval := p.noeval - 1) else p
  }

  function ExpAssign(p: Parser): (r: Run)
    requires Wf(p)
    ensures Consumes(p, r)
    decreases MAX_DEPTH - p.depth, Left(p), 37
  {
    var (v, q) :- ExpCond(p);
    if q.cur == Eq || q.cur.OpAssign? then
      if q.last != Str then Err(NotAVariable, q.store)
      else if q.tokstr.None? then Err(NoTarget, q.store)
      else
        var (_, q1) :- ReadTok(q);
        var (rhs, q2) :- ExpAssign(q1);
        AssignTo(q.cur, q.tokstr.value, v, rhs, q2)
    else Ok(v, q)
  }

  /** The end of `expassign`, once the right side is known. */
  function AssignTo(tok: Tok, name: string, v: int, rhs: int, p: Parser): (r: Run)
    requires Wf(p) && InRange(v) && InRange(rhs)
    requires tok == Eq || tok.OpAssign?
    ensures Keeps(p, r)
  {
    if tok == Eq then Ok(rhs, p.(store := Bind(p, name, rhs), tokstr := None))
    else if !Assigning(tok.op) then Err(BadOperator, p.store)
    else if tok.op in {Div, Mod} && rhs == 0 && p.noeval == 0 then Err(DivByZero, p.store)
    else
      var operand := if tok.op in {Div, Mod} && rhs == 0 then 1 else rhs;
      var value := ApplyAssign(tok.op, v, operand);
      Ok(value, p.(store := Bind(p, name, value), tokstr := None))
  }

  function ExpCond(p: Parser): (r: Run)
    requires Wf(p)
    ensures Consumes(p, r)
    decreases MAX_DEPTH - p.depth, Left(p), 35
  {
    var (c, q) :- ExpBinary(3, p);
    if q.cur == Ques then
      var (v1, q1) :- ThenArm(c, q);
      var (v2, q2) :- ElseArm(c, q1);
      Ok(if c != 0 then v1 else v2, q2.(last := Cond))
    else Ok(c, q)
  }

  function ThenArm(c: int, p: Parser): (r: Run)
    requires Wf(p) && p.cur == Ques
    ensures Consumes(p, r) && (r.Ok? ==> r.p.cur == Col)
    decreases MAX_DEPTH - p.depth, Left(p), 3
  {
    var (_, q) :- ReadTok(Enter(c == 0, p));
    if q.cur == End || q.cur == Col then Err(ExpressionExpected, q.store)
    else
      var (v, q1) :- ExpComma(q);
      if q1.cur != Col then Err(ColonExpected, q1.store) else Ok(v, Leave(c == 0, q1))
  }

  function ElseArm(c: int, p: Parser): (r: Run)
    requires Wf(p) && p.cur == Col
    ensures Consumes(p, r)
    decreases MAX_DEPTH - p.depth, Left(p), 3
  {
    var (_, q) :- ReadTok(Enter(c != 0, p));
    if q.cur == End then Err(ExpressionExpected, q.store)
    else
      var (v, q1) :- ExpCond(q);
      Ok(v, Leave(c != 0, q1))
  }

  /** The rung of a left-associative operator: 3 is `explor`, 12 is `expmuldiv`. */
  function Rung(op: BinOp): nat {
    match op
    case LOr => 3
    case LAnd => 4
    case BOr => 5
    case BXor => 6
    case BAnd => 7
    case EqEq => 8 case Neq => 8
    case Leq => 9 case Geq => 9 case Lt => 9 case Gt => 9
    case Lsh => 10 case Rsh => 10
    case Plus => 11 case Minus => 11
    case Mul => 12 case Div => 12 case Mod => 12
    case Power => 13
  }

  function Operand(k: nat, p: Parser): (r: Run)
    requires Wf(p) && 3 < k <= 13
    ensures Consumes(p, r)
    decreases MAX_DEPTH - p.depth, Left(p), 40 - 2 * k
  {
    if k == 13 then ExpPower(p) else ExpBinary(k, p)
  }

  function ExpBinary(k: nat, p: Parser): (r: Run)
    requires Wf(p) && 3 <= k <= 12
    ensures Consumes(p, r)
    decreases MAX_DEPTH - p.depth, Left(p), 39 - 2 * k
  {
    var (v, q) :- Operand(k + 1, p);
    BinaryLoop(k, v, q)
  }

  /** Whether `&&` or `||` leaves its right operand unevaluated. */
  predicate Decided(op: BinOp, v: int) {
    (op == LOr && v != 0) || (op == LAnd && v == 0)
  }

  function BinaryLoop(k: nat, v: int, p: Parser): (r: Run)
    requires Wf(p) && InRange(v) && 3 <= k <= 12
    ensures Keeps(p, r)
    decreases MAX_DEPTH - p.depth, Left(p), 4
  {
    if p.cur.Bin? && Rung(p.cur.op) == k then
      var (v1, q) :- BinaryTurn(k, v, p);
      BinaryLoop(k, v1, q)
    else Ok(v, p)
  }

  /** One turn of a rung's loop: the operator, its right operand, and the result. */
  function BinaryTurn(k: nat, v: int, p: Parser): (r: Run)
    requires Wf(p) && InRange(v) && 3 <= k <= 12 && p.cur.Bin? && Rung(p.cur.op) == k
    ensures Consumes(p, r)
    decreases MAX_DEPTH - p.depth, Left(p), 3
  {
    var skip := Decided(p.cur.op, v);
    var (_, q) :- ReadTok(Enter(skip, p));
    var (v2, q1) :- Operand(k + 1, q);
    Combine(p.cur.op, v, v2, Leave(skip, q1))
  }

  /** The end of one turn of a rung's loop. */
  function Combine(op: BinOp, v: int, v2: int, p: Parser): (r: Run)
    requires Wf(p) && InRange(v) && op != Power
    ensures Keeps(p, r)
  {
    if op in {Div, Mod} && v2 == 0 && p.noeval == 0 then Err(DivByZero, p.store)
    else if op == Mod && v == INTMAX_MIN && v2 == -1 then Ok(0, p)
    else
      var operand := if op in {Div, Mod} && v2 == 0 then 1 else v2;
      var mark := if op == LOr || op == LAnd then Bin(op) else Num;
      Ok(Apply(op, v, operand), p.(last := mark))
  }

  function ExpPower(p: Parser): (r: Run)
    requires Wf(p)
    ensures Consumes(p, r)
    decreases MAX_DEPTH - p.depth, Left(p), 13
  {
    var (v, q) :- Exp1(p);
    PowerLoop(v, q)
  }

  function PowerLoop(v: int, p: Parser): (r: Run)
    requires Wf(p) && InRange(v)
    ensures Keeps(p, r)
    decreases MAX_DEPTH - p.depth, Left(p), 3
  {
    if p.cur == Bin(Power) then
      var (_, q) :- ReadTok(p);
      var (v2, q1) :- ExpPower(q);
      if v2 == 0 then Ok(1, q1.(last := Num))
      else if v2 < 0 then Err(NegativeExponent, q1.store)
      else PowerLoop(Wrap(Pow(v, v2)), q1.(last := Num))
    else Ok(v, p)
  }

  function Unary(t: Tok, v: int): (r: int)
    requires IsUnary(t) && InRange(v)
    ensures InRange(r)
  {
    if t == Not then Truth(v == 0)
    else if t == BNot then -1 - v
    else if t == Bin(Minus) then Wrap(-v)
    else v
  }

  predicate IsUnary(t: Tok) { t in {Not, BNot, Bin(Minus), Bin(Plus)} }

  function Exp1(p: Parser): (r: Run)
    requires Wf(p)
    ensures Consumes(p, r)
    decreases MAX_DEPTH - p.depth, Left(p), 11
  {
    if IsUnary(p.cur) then
      var (_, q) :- ReadTok(p);
      var (v, q1) :- Exp1(q);
      Ok(Unary(p.cur, v), q1.(last := Num))
    else Exp0(p)
  }

  function Step(inc: bool, v: int): (r: int)
    ensures InRange(r)
  {
    Wrap(if inc then v + 1 else v - 1)
  }

  function Exp0(p: Parser): (r: Run)
    requires Wf(p)
    ensures Consumes(p, r)
    decreases MAX_DEPTH - p.depth, Left(p), 9
  {
    match p.cur
    case PreInc => PreStep(p)
    case PreDec => PreStep(p)
    case LPar =>
      var (_, q) :- ReadTok(p);
      var (v, q1) :- ExpComma(q);
      if q1.cur != RPar then Err(MissingParen, q1.store)
      else
        var (_, q2) :- ReadTok(q1);
        Ok(v, q2)
    case Num =>
      var (_, q) :- ReadTok(p);
      Ok(p.tokval, q)
    case Str => NameOperand(p)
    case _ => Err(OperandExpected, p.store)
  }

  function PreStep(p: Parser): (r: Run)
    requires Wf(p) && IsIncDec(p.cur)
    ensures Consumes(p, r)
    decreases MAX_DEPTH - p.depth, Left(p), 5
  {
    var (_, q) :- ReadTok(p.(last := p.cur));
    if q.cur != Str then Err(IdentifierExpected, q.store)
    else
      var v := Step(p.cur == PreInc, q.tokval);
      var st := if q.tokstr.Some? then Bind(q, q.tokstr.value, v) else q.store;
      var (_, q1) :- ReadTok(q.(store := st, cur := Num));
      Ok(v, q1)
  }

  /** A name: the token after it is read ahead to see whether it is `++` or `--`. */
  function NameOperand(p: Parser): (r: Run)
    requires Wf(p) && p.cur == Str
    ensures Consumes(p, r)
    decreases MAX_DEPTH - p.depth, Left(p), 5
  {
    var (_, peek) :- ReadTok(p.(tokstr := None, noeval := 1));
    var q := if peek.cur == PostInc || peek.cur == PostDec then PostStep(p.tokval, p.tokstr, p.noeval, peek) else p;
    var (_, q1) :- ReadTok(q);
    Ok(p.tokval, q1)
  }

  /** The state after `name++` or `name--`: some saved fields, and the rest as read ahead. */
  function PostStep(tokval: int, tokstr: Option<string>, noeval: nat, peek: Parser): Parser {
    var v := Step(peek.cur == PostInc, tokval);
    var q := peek.(tokstr := tokstr, noeval := noeval, last := Str, cur := Num);
    q.(store := if tokstr.Some? then Bind(q, tokstr.value, v) else q.store)
  }
}
