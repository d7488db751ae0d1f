/** Expression trees, their meaning, and the texts that spell them. Nothing here parses. */
module Expressions {
  import opened Int64
  import opened Numerals
  import opened Tokens
  import opened Operators
  import opened Ladder
  import opened Strings

  datatype UnaryOp = LogicalNot | Complement | Negate | Identity

  datatype Expr =
    | Lit(text: string)
    | Name(x: string)
    | PreOf(inc: bool, x: string)
    | PostOf(inc: bool, x: string)
    | Un(uop: UnaryOp, e: Expr)
    | Bi(op: BinOp, l: Expr, r: Expr)
    | IfElse(c: Expr, a: Expr, b: Expr)
    | Set(x: string, e: Expr)
    | Update(op: BinOp, x: string, e: Expr)
    | Then(l: Expr, r: Expr)
    | Paren(e: Expr)

  /** A variable whose text is known to spell an expression. */
  datatype Var = Var(e: Expr, text: string)

  /** The shell variables: those known to hold expressions, and all the others as bare text. */
  datatype Env = Env(known: map<string, Var>, other: Store)

  function Texts(known: map<string, Var>): Store {
    map x | x in known :: known[x].text
  }

  function StoreOf(env: Env): Store {
    env.other + Texts(env.known)
  }

  /** A name that is known, unset or blank. */
  predicate Readable(x: string, env: Env) {
    x in env.known || x !in env.other || SkipSpace(env.other[x], 0) == |env.other[x]|
  }

  /** A value, an error, or no answer because a text was read of which nothing is known. */
  datatype Meant = Means(v: int, env: Env) | Fails(problem: Problem, env: Env) | Unclear(env: Env) {
    predicate IsFailure() { !Means? }
    function PropagateFailure(): Meant requires !Means? { this }
    function Extract(): (int, Env) requires Means? { (v, env) }
  }

  predicate Letter(c: char) { 'a' <= c <= 'z' || 'A' <= c <= 'Z' || c == '_' }

  predicate IsName(x: string) {
    x != "" && Letter(x[0]) && forall i :: 0 <= i < |x| ==> Letter(x[i]) || '0' <= x[i] <= '9'
  }

  /** The characters of a constant; whether they make a number is another matter. */
  predicate IsConstant(c: string) {
    c != "" && '0' <= c[0] <= '9' && forall i :: 0 <= i < |c| ==> Letter(c[i]) || '0' <= c[i] <= '9' || c[i] in "#@"
  }

  predicate WellFormed(e: Expr) {
    match e
    case Lit(c) => IsConstant(c)
    case Name(x) => IsName(x)
    case PreOf(_, x) => IsName(x)
    case PostOf(_, x) => IsName(x)
    case Un(_, e1) => WellFormed(e1)
    case Bi(_, l, r) => WellFormed(l) && WellFormed(r)
    case IfElse(c, a, b) => WellFormed(c) && WellFormed(a) && WellFormed(b)
    case Set(x, e1) => IsName(x) && WellFormed(e1)
    case Update(op, x, e1) => IsName(x) && Assigning(op) && WellFormed(e1)
    case Then(l, r) => WellFormed(l) && WellFormed(r)
    case Paren(e1) => WellFormed(e1)
  }

  /** The expression an assignment stores: a decimal constant, negated if need be. */
  function Constant(v: int): Expr {
    if v < 0 then Un(Negate, Lit(Digits(-v, 10))) else Lit(Digits(v, 10))
  }

  function Write(skip: bool, env: Env, x: string, v: int): Env {
    if skip then env else env.(known := env.known[x := Var(Constant(v), Itos(v))])
  }

  function UnaryValue(op: UnaryOp, v: int): int {
    match op
    case LogicalNot => Truth(v == 0)
    case Complement => Wrap(-1 - v)
    case Negate => Wrap(-v)
    case Identity => v
  }

  /** The C value of a binary operator, on 64-bit operands; division needs a divisor. */
  function BinaryValue(op: BinOp, a: int, b: int): int
    requires op in {Div, Mod} ==> b != 0
    requires op == Power ==> b >= 0
  {
    match op
    case LOr => Truth(a != 0 || b != 0)
    case LAnd => Truth(!(a == 0 || b == 0))
    case BOr => Bitwise(BOr, a, b)
    case BXor => Bitwise(BXor, a, b)
    case BAnd => Bitwise(BAnd, a, b)
    case EqEq => Truth(a == b)
    case Neq => Truth(a != b)
    case Leq => Truth(!(b < a))
    case Geq => Truth(!(a < b))
    case Lt => Truth(a < b)
    case Gt => Truth(b < a)
    case Lsh => Shift(Lsh, a, b)
    case Rsh => Shift(Rsh, a, b)
    case Plus => Wrap(a + b)
    case Minus => Wrap(a - b)
    case Mul => Wrap(a * b)
    case Div => Wrap(TruncDiv(a, b))
    case Mod => Wrap(TruncMod(a, b))
    case Power => Wrap(Pow(a, b))
  }

  /** A constant has its value, or is the error it is, whether or not it stands where nothing is evaluated. */
  function Literal(c: string, env: Env): Meant {
    match Strlong(c)
    case Number(v) => Means(v, env)
    case Malformed(problem) => Fails(problem, env)
  }

  /** An operator on known operands. While skipping, a zero divisor counts as one. */
  function Operate(op: BinOp, a: int, b: int, skip: bool, env: Env): Meant {
    if op in {Div, Mod} && b == 0 then
      if skip then Means(BinaryValue(op, a, 1), env) else Fails(DivByZero, env)
    else if op == Power && b < 0 then Fails(NegativeExponent, env)
    else Means(BinaryValue(op, a, b), env)
  }

  /**
   The value of a tree and the environment it leaves. With `skip` set the tree stands in an
   operand that must not be evaluated: names read as zero and nothing is written.
   `depth` counts the variables being evaluated; the limit is 1024.
   */
  function Meaning(e: Expr, skip: bool, depth: nat, env: Env): Meant
    requires depth <= MAX_DEPTH
    decreases MAX_DEPTH - depth, 1, e
  {
    match e
    case Lit(c) => Literal(c, env)
    case Name(x) => Read(x, skip, depth, env)
    case PreOf(inc, x) =>
      var (v, env1) :- Read(x, skip, depth, env);
      Means(Step(inc, v), Write(skip, env1, x, Step(inc, v)))
    case PostOf(inc, x) =>
      var (v, env1) :- Read(x, skip, depth, env);
      Means(v, Write(skip, env1, x, Step(inc, v)))
    case Un(op, e1) =>
      var (v, env1) :- Meaning(e1, skip, depth, env);
      Means(UnaryValue(op, v), env1)
    case Bi(op, l, r) =>
      var (v, env1) :- Meaning(l, skip, depth, env);
      var (w, env2) :- Meaning(r, skip || Decided(op, v), depth, env1);
      Operate(op, v, w, skip, env2)
    case IfElse(c, a, b) =>
      var (v, env1) :- Meaning(c, skip, depth, env);
      var (va, env2) :- Meaning(a, skip || v == 0, depth, env1);
      var (vb, env3) :- Meaning(b, skip || v != 0, depth, env2);
      Means(if v != 0 then va else vb, env3)
    case Set(x, e1) =>
      var (v, env1) :- Meaning(e1, skip, depth, env);
      Means(v, Write(skip, env1, x, v))
    case Update(op, x, e1) =>
      var (v, env1) :- Read(x, skip, depth, env);
      var (w, env2) :- Meaning(e1, skip, depth, env1);
      var (u, env3) :- Operate(op, v, w, skip, env2);
      Means(u, Write(skip, env3, x, u))
    case Then(l, r) =>
      var (_, env1) :- Meaning(l, skip, depth, env);
      Meaning(r, skip, depth, env1)
    case Paren(e1) => Meaning(e1, skip, depth, env)
  }

  /** The value of a variable is the meaning of the expression it holds, one level deeper. */
  function Read(x: string, skip: bool, depth: nat, env: Env): Meant
    requires depth <= MAX_DEPTH
    decreases MAX_DEPTH - depth, 0
  {
    if skip then Means(0, env)
    else if x !in env.known then if Readable(x, env) then Means(0, env) else Unclear(env)
    else if depth == MAX_DEPTH then Fails(TooDeep, env)
    else Meaning(env.known[x].e, false, depth + 1, env)
  }

  /** How tightly a tree's outermost operator binds, on the scale of the ladder's rungs. */
  function Tightness(e: Expr): (k: nat)
    ensures k <= 15
  {
    match e
    case Then(_, _) => 0
    case Set(_, _) => 1
    case Update(_, _, _) => 1
    case IfElse(_, _, _) => 2
    case Bi(op, _, _) => Rung(op)
    case Un(_, _) => 14
    case Lit(_) => 15
    case Name(_) => 15
    case PreOf(_, _) => 15
    case PostOf(_, _) => 15
    case Paren(_) => 15
  }

  datatype Lexeme = Word(x: string) | Numeral(c: string) | Sym(t: Tok)
  datatype Lexemes = Nil | Cons(head: Lexeme, tail: Lexemes)

  function UnaryTok(op: UnaryOp): Tok {
    match op
    case LogicalNot => Not
    case Complement => BNot
    case Negate => Bin(Minus)
    case Identity => Bin(Plus)
  }

  /** The lexemes of e where tightness k is asked for, with its own parentheses and those needed, and then `rest`. */
  function Print(e: Expr, k: nat, rest: Lexemes): Lexemes
    decreases e, 1
  {
    if Tightness(e) >= k then Bare(e, rest)
    else Cons(Sym(LPar), Bare(e, Cons(Sym(RPar), rest)))
  }

  function Bare(e: Expr, rest: Lexemes): Lexemes
    decreases e, 0
  {
    match e
    case Lit(c) => Cons(Numeral(c), rest)
    case Name(x) => Cons(Word(x), rest)
    case PreOf(inc, x) => Cons(Sym(if inc then PreInc else PreDec), Cons(Word(x), rest))
    case PostOf(inc, x) => Cons(Word(x), Cons(Sym(if inc then PostInc else PostDec), rest))
    case Un(op, e1) => Cons(Sym(UnaryTok(op)), Print(e1, 14, rest))
    case Bi(op, l, r) =>
      if op == Power then Print(l, 14, Cons(Sym(Bin(Power)), Print(r, 13, rest)))
      else Print(l, Rung(op), Cons(Sym(Bin(op)), Print(r, Rung(op) + 1, rest)))
    case IfElse(c, a, b) => Print(c, 3, Cons(Sym(Ques), Print(a, 0, Cons(Sym(Col), Print(b, 2, rest)))))
    case Set(x, e1) => Cons(Word(x), Cons(Sym(Eq), Print(e1, 1, rest)))
    case Update(op, x, e1) => Cons(Word(x), Cons(Sym(OpAssign(op)), Print(e1, 1, rest)))
    case Then(l, r) => Print(l, 0, Cons(Sym(Comma), Print(r, 1, rest)))
    case Paren(e1) => Cons(Sym(LPar), Print(e1, 0, Cons(Sym(RPar), rest)))
  }

  function OpText(op: BinOp): (s: string)
    ensures 1 <= |s| <= 2
  {
    match op
    case LOr => "||" case LAnd => "&&" case BOr => "|" case BXor => "^" case BAnd => "&"
    case EqEq => "==" case Neq => "!=" case Leq => "<=" case Geq => ">=" case Lt => "<" case Gt => ">"
    case Lsh => "<<" case Rsh => ">>" case Plus => "+" case Minus => "-"
    case Mul => "*" case Div => "/" case Mod => "%" case Power => "**"
  }

  function Spelling(t: Tok): string {
    match t
    case Bin(op) => OpText(op)
    case OpAssign(op) => OpText(op) + "="
    case Eq => "=" case PreInc => "++" case PreDec => "--" case PostInc => "++" case PostDec => "--"
    case Not => "!" case BNot => "~" case LPar => "(" case RPar => ")"
    case Ques => "?" case Col => ":" case Comma => ","
    case End => "" case Str => "" case Num => "" case Cond => ""
  }

  function Shown(x: Lexeme): string {
    match x
    case Word(s) => s
    case Numeral(c) => c
    case Sym(t) => Spelling(t)
  }

  /** The character after a lexeme must not run into it. */
  predicate Apart(x: Lexeme, c: char) {
    match x
    case Word(_) => !IsNameChar(c) && c != '['
    case Numeral(_) => !IsConstChar(c)
    case Sym(t) =>
      && (t == Eq || t == Not ==> c != '=')
      && (t.Bin? ==> c != '=' && c != OpText(t.op)[|OpText(t.op)| - 1])
  }

  /** From position i on, the text is these lexemes, with any white space between them. */
  predicate Spells(s: string, i: nat, xs: Lexemes)
    requires i <= |s|
    decreases xs
  {
    var j := SkipSpace(s, i);
    match xs
    case Nil => j == |s|
    case Cons(x, tail) =>
      var w := Shown(x);
      At(s, j, w) && Apart(x, CharAt(s, j + |w|)) && Spells(s, j + |w|, tail)
  }

  /** The text of a variable spells its expression. */
  ghost predicate Spelled(v: Var) {
    WellFormed(v.e) && Spells(v.text, 0, Print(v.e, 0, Nil))
  }

  /** The store is the environment's, and every known variable spells its expression. */
  ghost predicate Renders(store: Store, env: Env) {
    store == StoreOf(env) && forall x :: x in env.known ==> Spelled(env.known[x])
  }

  /** What an evaluation answers when its meaning is clear. */
  function Outcome(d: Meant): Answer
    requires !d.Unclear?
  {
    match d
    case Means(v, env) => Value(v, StoreOf(env))
    case Fails(problem, env) => Failed(problem, StoreOf(env))
  }
}
