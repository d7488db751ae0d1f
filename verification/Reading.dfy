/** The token reader on spelled texts: each lexeme is read back as the token it spells. */
module Reading {
  import opened Numerals
  import opened Tokens
  import opened Operators
  import opened Ladder
  import opened Options
  import opened Expressions
  import opened Strings

  predicate IsSymbol(t: Tok) {
    t !in {End, Str, Num, Cond} && (t.OpAssign? ==> Assigning(t.op))
  }

  /** `++` and `--` are read by what came before: a name makes them postfix. */
  predicate Fits(t: Tok, s: string, i: nat, cur: Tok)
    requires i <= |s|
  {
    && (t == PostInc || t == PostDec ==> cur == Str)
    && (IsIncDec(t) ==> cur != Str && cur != Num && IsNameStart(CharAt(s, SkipSpace(s, i))))
  }

  lemma FirstChars(s: string, i: nat, w: string)
    requires At(s, i, w)
    ensures |w| >= 1 ==> s[i] == w[0]
    ensures |w| >= 2 ==> s[i + 1] == w[1]
    ensures |w| >= 3 ==> s[i + 2] == w[2]
  {
    assert forall j :: 0 <= j < |w| ==> s[i..i + |w|][j] == w[j];
  }

  lemma BinRead(s: string, i: nat, op: BinOp, cur: Tok, last: Tok)
    requires At(s, i, OpText(op)) && Apart(Sym(Bin(op)), CharAt(s, i + |OpText(op)|))
    ensures LexSymbol(s, i, cur, last) == Symbol(Bin(op), i + |OpText(op)|)
    ensures !IsNameStart(s[i]) && !IsDigit(s[i]) && !IsSpace(s[i])
  {
    FirstChars(s, i, OpText(op));
  }

  lemma OpAssignRead(s: string, i: nat, op: BinOp, cur: Tok, last: Tok)
    requires Assigning(op) && At(s, i, OpText(op) + "=")
    ensures LexSymbol(s, i, cur, last) == Symbol(OpAssign(op), i + |OpText(op)| + 1)
    ensures !IsNameStart(s[i]) && !IsDigit(s[i]) && !IsSpace(s[i])
  {
    FirstChars(s, i, OpText(op) + "=");
  }

  lemma IncDecRead(s: string, i: nat, t: Tok, cur: Tok, last: Tok)
    requires t in {PreInc, PreDec, PostInc, PostDec} && At(s, i, Spelling(t)) && Fits(t, s, i + 2, cur)
    ensures LexSymbol(s, i, cur, last) == Symbol(t, i + 2)
    ensures !IsNameStart(s[i]) && !IsDigit(s[i]) && !IsSpace(s[i])
  {
    FirstChars(s, i, Spelling(t));
  }

  lemma MarkRead(s: string, i: nat, t: Tok, cur: Tok, last: Tok)
    requires t in {Eq, Not, BNot, LPar, RPar, Ques, Col, Comma}
    requires At(s, i, Spelling(t)) && Apart(Sym(t), CharAt(s, i + 1))
    ensures LexSymbol(s, i, cur, last) == Symbol(t, i + 1)
    ensures !IsNameStart(s[i]) && !IsDigit(s[i]) && !IsSpace(s[i])
  {
    FirstChars(s, i, Spelling(t));
  }

  lemma SymbolRead(s: string, i: nat, t: Tok, cur: Tok, last: Tok)
    requires IsSymbol(t) && At(s, i, Spelling(t)) && Apart(Sym(t), CharAt(s, i + |Spelling(t)|))
    requires Fits(t, s, i + |Spelling(t)|, cur)
    ensures i < |s| && LexSymbol(s, i, cur, last) == Symbol(t, i + |Spelling(t)|)
    ensures !IsNameStart(s[i]) && !IsDigit(s[i]) && !IsSpace(s[i])
  {
    hide LexSymbol;
    if t.Bin? {
      BinRead(s, i, t.op, cur, last);
    } else if t.OpAssign? {
      OpAssignRead(s, i, t.op, cur, last);
    } else if t in {PreInc, PreDec, PostInc, PostDec} {
      IncDecRead(s, i, t, cur, last);
    } else {
      MarkRead(s, i, t, cur, last);
    }
  }

  /** The token a lexeme list starts with. */
  function Head(xs: Lexemes): Tok {
    match xs
    case Nil => End
    case Cons(x, _) => match x case Word(_) => Str case Numeral(_) => Num case Sym(t) => t
  }

  /** What the reader must have before it for the next lexeme to be read as meant. */
  predicate Expects(xs: Lexemes, cur: Tok) {
    match xs
    case Nil => true
    case Cons(x, tail) =>
      match x
      case Word(w) => IsName(w)
      case Numeral(_) => true
      case Sym(t) =>
        && IsSymbol(t)
        && (t == PostInc || t == PostDec ==> cur == Str)
        && (IsIncDec(t) ==> cur != Str && cur != Num && Head(tail) == Str && Expects(tail, t))
  }

  lemma {:induction false} NameSpan(s: string, i: nat, j: nat)
    requires i <= j <= |s|
    requires forall k :: i <= k < j ==> IsNameChar(s[k])
    requires !IsNameChar(CharAt(s, j))
    ensures NameEnd(s, i) == j
    decreases j - i
  {
    if i < j { NameSpan(s, i + 1, j); }
  }

  lemma {:induction false} ConstSpan(s: string, i: nat, j: nat)
    requires i <= j <= |s|
    requires forall k :: i <= k < j ==> IsConstChar(s[k])
    requires !IsConstChar(CharAt(s, j))
    ensures ConstEnd(s, i) == j
    decreases j - i
  {
    if i < j { ConstSpan(s, i + 1, j); }
  }

  lemma WordRead(s: string, i: nat, x: string)
    requires IsName(x) && At(s, i, x) && Apart(Word(x), CharAt(s, i + |x|))
    ensures i < |s| && LexName(s, i) == Lexed(Str, i + |x|, x, 0) && IsNameStart(s[i])
  {
    assert forall k :: i <= k < i + |x| ==> s[k] == s[i..i + |x|][k - i];
    NameSpan(s, i + 1, i + |x|);
  }

  /** The token a constant is read as, ending at j. */
  function ConstantToken(c: string, j: nat): Lexed {
    match Strlong(c)
    case Number(v) => Lexed(Num, j, "", v)
    case Malformed(e) => LexError(e)
  }

  lemma NumeralRead(s: string, i: nat, c: string)
    requires IsConstant(c) && At(s, i, c) && Apart(Numeral(c), CharAt(s, i + |c|))
    ensures i < |s| && LexConstant(s, i) == ConstantToken(c, i + |c|) && IsDigit(s[i])
  {
    hide Strlong;
    assert forall k :: i <= k < i + |c| ==> s[k] == s[i..i + |c|][k - i];
    ConstSpan(s, i, i + |c|);
  }

  /** The position after the first lexeme. */
  function After(s: string, i: nat, xs: Lexemes): (j: nat)
    requires i <= |s| && Spells(s, i, xs)
    ensures i <= j <= |s|
  {
    if xs.Nil? then |s| else SkipSpace(s, i) + |Shown(xs.head)|
  }

  lemma WordLexed(s: string, tp: nat, x: string, cur: Tok, last: Tok)
    requires tp <= |s| && IsName(x) && At(s, SkipSpace(s, tp), x)
    requires Apart(Word(x), CharAt(s, SkipSpace(s, tp) + |x|))
    ensures Lex(s, tp, cur, last) == Lexed(Str, SkipSpace(s, tp) + |x|, x, 0)
  {
    WordRead(s, SkipSpace(s, tp), x);
  }

  lemma WordNext(s: string, tp: nat, x: string, xs: Lexemes, cur: Tok, last: Tok)
    requires tp <= |s| && IsName(x) && Spells(s, tp, Cons(Word(x), xs))
    ensures var j := After(s, tp, Cons(Word(x), xs));
            tp < j && Spells(s, j, xs) && Lex(s, tp, cur, last) == Lexed(Str, j, x, 0)
  {
    hide Lex;
    WordLexed(s, tp, x, cur, last);
  }

  lemma NumeralLexed(s: string, tp: nat, c: string, cur: Tok, last: Tok)
    requires tp <= |s| && IsConstant(c) && At(s, SkipSpace(s, tp), c)
    requires Apart(Numeral(c), CharAt(s, SkipSpace(s, tp) + |c|))
    ensures Lex(s, tp, cur, last) == ConstantToken(c, SkipSpace(s, tp) + |c|)
  {
    hide LexConstant, ConstantToken;
    NumeralRead(s, SkipSpace(s, tp), c);
  }

  lemma SymbolFits(s: string, tp: nat, xs: Lexemes, cur: Tok)
    requires tp <= |s| && Spells(s, tp, xs) && Expects(xs, cur) && xs.Cons? && xs.head.Sym?
    ensures Fits(xs.head.t, s, SkipSpace(s, tp) + |Spelling(xs.head.t)|, cur)
  {
    if IsIncDec(xs.head.t) {
      WordRead(s, SkipSpace(s, SkipSpace(s, tp) + 2), xs.tail.head.x);
    }
  }

  lemma SymbolLexed(s: string, tp: nat, t: Tok, cur: Tok, last: Tok)
    requires tp <= |s| && IsSymbol(t)
    requires var i := SkipSpace(s, tp); var j := i + |Spelling(t)|;
             At(s, i, Spelling(t)) && Apart(Sym(t), CharAt(s, j)) && Fits(t, s, j, cur)
    ensures Lex(s, tp, cur, last) == Symbol(t, SkipSpace(s, tp) + |Spelling(t)|)
  {
    hide LexSymbol, Spelling, Apart, Fits, SkipSpace;
    SymbolRead(s, SkipSpace(s, tp), t, cur, last);
  }

  lemma SymbolNext(s: string, tp: nat, xs: Lexemes, cur: Tok, last: Tok)
    requires tp <= |s| && Spells(s, tp, xs) && Expects(xs, cur)
    requires xs.Nil? || xs.head.Sym?
    ensures Lex(s, tp, cur, last) == Symbol(Head(xs), After(s, tp, xs))
    ensures xs.Cons? ==> Spells(s, After(s, tp, xs), xs.tail)
    ensures xs.Nil? ==> Head(xs) == End
  {
    hide LexSymbol;
    if xs.Cons? {
      SymbolFits(s, tp, xs, cur);
      SymbolLexed(s, tp, xs.head.t, cur, last);
    }
  }

  /** Reading a symbol, or the end, moves past it and changes nothing else. */
  lemma ReadSymbol(p: Parser, xs: Lexemes)
    requires Wf(p) && Spells(p.text, p.tp, xs) && Expects(xs, p.cur)
    requires xs.Nil? || xs.head.Sym?
    ensures ReadTok(p) == Ok(0, p.(tp := After(p.text, p.tp, xs), cur := Head(xs), last := p.cur))
    ensures xs.Cons? ==> Spells(p.text, After(p.text, p.tp, xs), xs.tail)
  {
    hide Lex, Spells, After;
    SymbolNext(p.text, p.tp, xs, p.cur, p.last);
  }

  lemma ReadNumeral(p: Parser, c: string, xs: Lexemes)
    requires Wf(p) && IsConstant(c) && Spells(p.text, p.tp, Cons(Numeral(c), xs))
    ensures var j := After(p.text, p.tp, Cons(Numeral(c), xs));
      && Spells(p.text, j, xs)
      && ReadTok(p) == match Strlong(c)
         case Number(v) => Ok(0, p.(tp := j, cur := Num, last := p.cur, tokval := v))
         case Malformed(e) => Err(e, p.store)
  {
    hide Lex, Strlong;
    NumeralLexed(p.text, p.tp, c, p.cur, p.last);
  }

  /** What looking a name up leaves, given whether it is the target of `=`. */
  function NameAnswer(p: Parser, x: string, xs: Lexemes): Answer
    requires p.depth <= MAX_DEPTH
  {
    if IsIncDec(p.last) || Head(xs) != Eq then Lookup(x, p.noeval, p.depth, p.store) else Value(0, p.store)
  }

  lemma ReadWord(p: Parser, x: string, xs: Lexemes)
    requires Wf(p) && IsName(x) && Spells(p.text, p.tp, Cons(Word(x), xs)) && Expects(xs, Str)
    requires xs.Nil? || xs.head.Sym?
    ensures var j := After(p.text, p.tp, Cons(Word(x), xs));
      && Spells(p.text, j, xs)
      && ReadTok(p) == match NameAnswer(p, x, xs)
         case Value(v, st) =>
           Ok(0, p.(tp := j, cur := Str, last := p.cur, tokstr := Some(x), tokval := v, store := st))
         case Failed(e, st) => Err(e, st)
  {
    WordNext(p.text, p.tp, x, xs, p.cur, p.last);
    hide Lex, Spells, After, Lookup, Expects;
    var j := After(p.text, p.tp, Cons(Word(x), xs));
    ReadSymbol(p.(tp := j, cur := Str, tokstr := None, noeval := 1), xs);
  }
}
