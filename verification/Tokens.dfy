/** The tokens of arithmetic expressions and the character-level part of `readtok`. */
module Tokens {
  import opened Int64
  import opened Numerals
  import opened Strings

  datatype BinOp =
    | LOr | LAnd | BOr | BXor | BAnd | EqEq | Neq | Leq | Geq | Lt | Gt
    | Lsh | Rsh | Plus | Minus | Mul | Div | Mod | Power

  /** `curtok`. An OP= token carries the operator the source keeps in `assigntok`. */
  datatype Tok =
    | End | Str | Num | Bin(op: BinOp) | Eq | OpAssign(op: BinOp)
    | PreInc | PreDec | PostInc | PostDec
    | Not | BNot | LPar | RPar | Ques | Col | Comma | Cond

  datatype Lexed = Lexed(tok: Tok, next: nat, name: string, val: int) | LexError(problem: Problem)

  predicate IsSpace(c: char) { c == ' ' || c == '\t' || c == '\n' }
  predicate IsNameStart(c: char) { IsLower(c) || IsUpper(c) || c == '_' }
  predicate IsNameChar(c: char) { IsAlnum(c) || c == '_' }
  predicate IsConstChar(c: char) { IsAlnum(c) || c == '#' || c == '@' || c == '_' }

  function SkipSpace(s: string, i: nat): (j: nat)
    requires i <= |s|
    ensures i <= j <= |s|
    ensures j < |s| ==> !IsSpace(s[j])
    decreases |s| - i
  {
    if i < |s| && IsSpace(s[i]) then SkipSpace(s, i + 1) else i
  }

  function NameEnd(s: string, i: nat): (j: nat)
    requires i <= |s|
    ensures i <= j <= |s|
    decreases |s| - i
  {
    if i < |s| && IsNameChar(s[i]) then NameEnd(s, i + 1) else i
  }

  function ConstEnd(s: string, i: nat): (j: nat)
    requires i <= |s|
    ensures i <= j <= |s|
    decreases |s| - i
  {
    if i < |s| && IsConstChar(s[i]) then ConstEnd(s, i + 1) else i
  }

  predicate IsIncDec(t: Tok) { t == PreInc || t == PreDec }

  function Symbol(tok: Tok, next: nat): Lexed {
    Lexed(tok, next, "", 0)
  }

  /** The operator at position i; `++` and `--` depend on the tokens read before. */
  function LexSymbol(s: string, i: nat, cur: Tok, last: Tok): (r: Lexed)
    requires i < |s|
    ensures r.Lexed? ==> r.tok !in {End, Str, Num} && i < r.next <= |s| && r.val == 0
    ensures r.LexError? ==> r.problem !in {DivByZero, TooDeep}
  {
    var c, c1, c2 := s[i], CharAt(s, i + 1), CharAt(s, i + 2);
    if c == '=' && c1 == '=' then Symbol(Bin(EqEq), i + 2)
    else if c == '!' && c1 == '=' then Symbol(Bin(Neq), i + 2)
    else if c == '>' && c1 == '=' then Symbol(Bin(Geq), i + 2)
    else if c == '<' && c1 == '=' then Symbol(Bin(Leq), i + 2)
    else if c == '<' && c1 == '<' then
      if c2 == '=' then Symbol(OpAssign(Lsh), i + 3) else Symbol(Bin(Lsh), i + 2)
    else if c == '>' && c1 == '>' then
      if c2 == '=' then Symbol(OpAssign(Rsh), i + 3) else Symbol(Bin(Rsh), i + 2)
    else if c == '&' && c1 == '&' then Symbol(Bin(LAnd), i + 2)
    else if c == '|' && c1 == '|' then Symbol(Bin(LOr), i + 2)
    else if c == '*' && c1 == '*' then Symbol(Bin(Power), i + 2)
    else if (c == '-' || c == '+') && c1 == c && cur == Str then
      Symbol(if c == '-' then PostDec else PostInc, i + 2)
    else if (c == '-' || c == '+') && c1 == c && cur == Num && IsIncDec(last) then LexError(NeedsLvalue)
    else if (c == '-' || c == '+') && c1 == c && IsNameStart(CharAt(s, SkipSpace(s, i + 2))) then
      Symbol(if c == '-' then PreDec else PreInc, i + 2)
    else if c1 == '=' && c in "*/%+-&^|" then Symbol(OpAssign(Arith(c)), i + 2)
    else if c in "*/%+-&^|<>" then Symbol(Bin(Arith(c)), i + 1)
    else match c
      case '=' => Symbol(Eq, i + 1)
      case '!' => Symbol(Not, i + 1)
      case '~' => Symbol(BNot, i + 1)
      case '(' => Symbol(LPar, i + 1)
      case ')' => Symbol(RPar, i + 1)
      case '?' => Symbol(Ques, i + 1)
      case ':' => Symbol(Col, i + 1)
      case ',' => Symbol(Comma, i + 1)
      case _ => LexError(if cur == Str || cur == Num then BadOperator else OperandExpected)
  }

  /** The one-character binary operators. */
  function Arith(c: char): BinOp
    requires c in "*/%+-&^|<>"
  {
    match c
    case '*' => Mul case '/' => Div case '%' => Mod case '+' => Plus case '-' => Minus
    case '&' => BAnd case '^' => BXor case '|' => BOr case '<' => Lt case _ => Gt
  }

  function LexName(s: string, i: nat): Lexed
    requires i < |s|
  {
    var j := NameEnd(s, i + 1);
    if CharAt(s, j) == '[' then LexError(BadSubscript) else Lexed(Str, j, s[i..j], 0)
  }

  function LexConstant(s: string, i: nat): Lexed
    requires i <= |s|
  {
    var j := ConstEnd(s, i);
    match Strlong(s[i..j])
    case Number(v) => Lexed(Num, j, "", v)
    case Malformed(e) => LexError(e)
  }

  /** The token at or after tp, before any variable is looked up. */
  function Lex(s: string, tp: nat, cur: Tok, last: Tok): (r: Lexed)
    requires tp <= |s|
    ensures r.Lexed? ==> tp <= r.next <= |s| && (r.tok != End ==> tp < r.next) && InRange(r.val)
    ensures r.LexError? ==> r.problem !in {DivByZero, TooDeep}
  {
    var i := SkipSpace(s, tp);
    if i == |s| then Lexed(End, i, "", 0)
    else if IsNameStart(s[i]) then LexName(s, i)
    else if IsDigit(s[i]) then LexConstant(s, i)
    else LexSymbol(s, i, cur, last)
  }

  method SkipSpaces(s: string, i: nat) returns (j: nat)
    requires i <= |s|
    ensures j == SkipSpace(s, i)
  {
    j := i;
    while j < |s| && IsSpace(s[j])
      invariant i <= j <= |s| && SkipSpace(s, i) == SkipSpace(s, j)
    {
      j := j + 1;
    }
  }

  method ScanName(s: string, i: nat) returns (r: Lexed)
    requires i < |s|
    ensures r == LexName(s, i)
  {
    var j := i + 1;
    while j < |s| && IsNameChar(s[j])
      invariant i < j <= |s| && NameEnd(s, i + 1) == NameEnd(s, j)
    {
      j := j + 1;
    }
    if CharAt(s, j) == '[' { return LexError(BadSubscript); }
    return Lexed(Str, j, s[i..j], 0);
  }

  method ScanConstant(s: string, i: nat) returns (r: Lexed)
    requires i <= |s|
    ensures r == LexConstant(s, i)
  {
    var j := i;
    while j < |s| && IsConstChar(s[j])
      invariant i <= j <= |s| && ConstEnd(s, i) == ConstEnd(s, j)
    {
      j := j + 1;
    }
    var n := ReadConstant(s[i..j]);
    return match n case Number(v) => Lexed(Num, j, "", v) case Malformed(e) => LexError(e);
  }

  /** The part of `readtok` that looks at characters. */
  method NextToken(s: string, tp: nat, cur: Tok, last: Tok) returns (r: Lexed)
    requires tp <= |s|
    ensures r == Lex(s, tp, cur, last)
  {
    hide LexSymbol, LexName, LexConstant;
    var i := SkipSpaces(s, tp);
    if i == |s| {
      r := Lexed(End, i, "", 0);
    } else if IsNameStart(s[i]) {
      r := ScanName(s, i);
    } else if IsDigit(s[i]) {
      r := ScanConstant(s, i);
    } else {
      r := LexSymbol(s, i, cur, last);
    }
  }
}
