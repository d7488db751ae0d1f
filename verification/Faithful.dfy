/** The ladder gives every spelled expression tree its meaning. */
module Faithful {
  import opened Int64
  import opened Numerals
  import opened Tokens
  import opened Operators
  import opened Ladder
  import opened Options
  import opened Expressions
  import opened Reading

  /** The ladder's rungs by number: 0 is `expcomma`, 15 is `exp0`. */
  function Level(k: nat, p: Parser): Run
    requires Wf(p) && k <= 15
  {
    if k == 0 then ExpComma(p)
    else if k == 1 then ExpAssign(p)
    else if k == 2 then ExpCond(p)
    else if k <= 12 then ExpBinary(k, p)
    else if k == 13 then ExpPower(p)
    else if k == 14 then Exp1(p)
    else Exp0(p)
  }

  function ReadThen(k: nat, p: Parser): Run
    requires Wf(p) && k <= 15
  {
    var (_, q) :- ReadTok(p);
    Level(k, q)
  }

  /** The parser stands where an operand must follow. */
  predicate Ready(p: Parser) {
    Wf(p) && p.cur !in {Str, Num, PreInc, PreDec} && !IsIncDec(p.last)
  }

  /** A token that no rung from k on would take as a continuation. */
  predicate Ends(t: Tok, k: nat) {
    || t == End || t == RPar || t == Col
    || (t == Comma && k >= 1)
    || (t == Eq && k >= 2) || (t.OpAssign? && Assigning(t.op) && k >= 2)
    || (t == Ques && k >= 3)
    || (t.Bin? && Rung(t.op) < k)
  }

  predicate Stops(xs: Lexemes, k: nat) {
    (xs.Cons? ==> xs.head.Sym? && IsSymbol(xs.head.t)) && Ends(Head(xs), k) && Head(xs) != Eq
  }

  /** q has read up to and including the first lexeme of xs, starting from p. */
  ghost predicate Reached(q: Parser, p: Parser, xs: Lexemes) {
    && Wf(q) && q.text == p.text && q.depth == p.depth && q.noeval == p.noeval
    && q.cur == Head(xs) && !IsIncDec(q.last)
    && (xs.Cons? ==> Spells(q.text, q.tp, xs.tail))
  }

  /** The run and the meaning, if it is clear, agree in value, error and variables. */
  ghost predicate Agrees(r: Run, d: Meant, p: Parser, rest: Lexemes) {
    match d
    case Means(v, env) => r.Ok? && r.v == v && Reached(r.p, p, rest) && Renders(r.p.store, env)
    case Fails(e, env) => r.Err? && r.problem == e && Renders(r.store, env)
    case Unclear(_) => true
  }

  ghost predicate StartsWith(xs: Lexemes, p: Parser, env: Env) {
    Ready(p) && Spells(p.text, p.tp, xs) && Renders(p.store, env)
  }

  function MeaningAt(e: Expr, p: Parser, env: Env): Meant
    requires p.depth <= MAX_DEPTH
  {
    Meaning(e, p.noeval > 0, p.depth, env)
  }

  /** A rung above passes a result through when nothing there continues it. */
  lemma {:induction false} Descend(k: nat, m: nat, p: Parser)
    requires Wf(p) && k <= m <= 15
    requires m == 15 && k < 15 ==> !IsUnary(p.cur)
    requires Level(m, p).Ok? ==> Ends(Level(m, p).p.cur, k)
    ensures Level(k, p) == Level(m, p)
    decreases m - k
  {
    if k < m {
      OneUp(k, m, p);
      Descend(k, m - 1, p);
    }
  }

  lemma OneUp(k: nat, m: nat, p: Parser)
    requires Wf(p) && k < m <= 15
    requires m == 15 ==> !IsUnary(p.cur)
    requires Level(m, p).Ok? ==> Ends(Level(m, p).p.cur, k)
    ensures Level(m - 1, p) == Level(m, p)
  {
    hide ReadTok, BinaryTurn;
    var r := Level(m, p);
    if 4 <= m <= 13 {
      assert Operand(m, p) == r;
      assert r.Ok? ==> BinaryLoop(m - 1, r.v, r.p) == r;
      assert ExpBinary(m - 1, p) == r;
    } else if m == 14 {
      assert r.Ok? ==> PowerLoop(r.v, r.p) == r;
    } else if m == 1 {
      assert r.Ok? ==> CommaLoop(r.v, r.p) == r;
    }
  }

  lemma NoSpace(s: string, i: nat)
    requires i == |s| || (i < |s| && IsDigit(s[i]))
    ensures SkipSpace(s, i) == i
  {}

  /** One constant up to the end of the text. */
  lemma NumeralSpells(s: string, i: nat, c: string)
    requires c != "" && i + |c| == |s| && s[i..] == c && IsDigit(c[0])
    ensures Spells(s, i, Cons(Numeral(c), Nil))
  {
    hide SkipSpace;
    assert s[i] == c[0] && s[i..i + |c|] == s[i..];
    NoSpace(s, i);
    NoSpace(s, |s|);
    assert Spells(s, |s|, Nil);
  }

  lemma DigitsSpell(v: nat, pre: string)
    requires pre == "" || pre == "-"
    ensures Spells(pre + Digits(v, 10), |pre|, Cons(Numeral(Digits(v, 10)), Nil))
  {
    hide Digits, Spells;
    var d := Digits(v, 10);
    assert d[0] in d && (pre + d)[|pre|..] == d;
    NumeralSpells(pre + d, |pre|, d);
  }

  lemma MinusSpells(s: string, xs: Lexemes)
    requires |s| > 1 && s[0] == '-' && s[1] != '-' && s[1] != '=' && Spells(s, 1, xs)
    ensures Spells(s, 0, Cons(Sym(Bin(Minus)), xs))
  {
    assert SkipSpace(s, 0) == 0 && s[0..1] == "-" && OpText(Minus) == "-";
  }

  /** The text an assignment stores spells the expression it stands for. */
  lemma ItosSpells(v: int)
    ensures Spells(Itos(v), 0, Print(Constant(v), 0, Nil))
  {
    hide Spells, Digits;
    if v < 0 {
      var d := Digits(-v, 10);
      DigitsSpell(-v, "-");
      assert d[0] in d && Itos(v)[1] == d[0];
      MinusSpells(Itos(v), Cons(Numeral(d), Nil));
      assert Print(Lit(d), 14, Nil) == Cons(Numeral(d), Nil);
    } else {
      DigitsSpell(v, "");
      assert "" + Digits(v, 10) == Digits(v, 10);
    }
  }

  lemma ConstantWellFormed(v: int)
    ensures WellFormed(Constant(v))
  {
    var d := Digits(if v < 0 then -v else v, 10);
    assert forall i :: 0 <= i < |d| ==> d[i] in d;
    assert WellFormed(Lit(d));
  }

  lemma RendersBind(store: Store, env: Env, x: string, v: int)
    requires Renders(store, env)
    ensures Renders(store[x := Itos(v)], Write(false, env, x, v))
  {
    hide Spells, Print, Itos, Constant, WellFormed;
    ItosSpells(v);
    var env' := Write(false, env, x, v);
    assert StoreOf(env') == StoreOf(env)[x := Itos(v)];
    ConstantWellFormed(v);
    forall y | y in env'.known ensures Spelled(env'.known[y]) {}
  }

  /** Looking a variable up agrees with reading it. */
  ghost predicate Found(a: Answer, d: Meant) {
    match d
    case Means(v, env) => a.Value? && a.v == v && Renders(a.store, env)
    case Fails(e, env) => a.Failed? && a.problem == e && Renders(a.store, env)
    case Unclear(_) => true
  }

  ghost predicate Finds(x: string, p: Parser, env: Env)
    requires p.depth <= MAX_DEPTH
  {
    Found(Lookup(x, p.noeval, p.depth, p.store), Read(x, p.noeval > 0, p.depth, env))
  }

  /** As `Agrees` at the last rung, where the first token must not be a unary operator. */
  ghost predicate AgreesAtom(d: Meant, p: Parser, rest: Lexemes)
    requires Wf(p)
  {
    Agrees(ReadThen(15, p), d, p, rest) && (ReadTok(p).Ok? ==> !IsUnary(ReadTok(p).p.cur))
  }

  /** After an operand, the next symbol is read and nothing else changes. */
  lemma ReadStop(p: Parser, rest: Lexemes, k: nat)
    requires Wf(p) && Spells(p.text, p.tp, rest) && Stops(rest, k)
    ensures ReadTok(p).Ok? && ReadTok(p).p == p.(tp := ReadTok(p).p.tp, cur := Head(rest), last := p.cur)
    ensures !IsIncDec(p.cur) ==> Reached(ReadTok(p).p, p, rest)
  {
    hide ReadTok, Spells, After, Rung;
    ReadSymbol(p, rest);
  }

  lemma LitCase(c: string, p: Parser, rest: Lexemes, env: Env)
    requires StartsWith(Cons(Numeral(c), rest), p, env) && Stops(rest, 15) && IsConstant(c)
    ensures AgreesAtom(MeaningAt(Lit(c), p, env), p, rest)
  {
    hide ReadTok, Spells, Renders, After, Shown;
    ReadNumeral(p, c, rest);
    if ReadTok(p).Ok? {
      var q := ReadTok(p).p;
      ReadStop(q, rest, 15);
      assert Exp0(q) == Ok(q.tokval, ReadTok(q).p);
    }
  }

  lemma NameCase(x: string, p: Parser, rest: Lexemes, env: Env)
    requires StartsWith(Cons(Word(x), rest), p, env) && IsName(x) && Stops(rest, 15) && Finds(x, p, env)
    ensures AgreesAtom(MeaningAt(Name(x), p, env), p, rest)
    ensures var r := ReadThen(15, p); r.Ok? ==> r.p.last == Str && r.p.tokstr == Some(x)
  {
    hide ReadTok, Spells, Renders, Lookup, Read, After, Shown, Lex;
    ReadWord(p, x, rest);
    if ReadTok(p).Ok? {
      var q := ReadTok(p).p;
      ReadStop(q.(tokstr := None, noeval := 1), rest, 15);
      ReadStop(q, rest, 15);
      assert NameOperand(q) == Ok(q.tokval, ReadTok(q).p);
    }
  }

  /** The meaning of `++` or `--` on a variable worth d. */
  function Stepped(post: bool, inc: bool, x: string, skip: bool, d: Meant): Meant {
    if !d.Means? then d
    else Means(if post then d.v else Step(inc, d.v), Write(skip, d.env, x, Step(inc, d.v)))
  }

  lemma BindAgrees(q: Parser, x: string, v: int, env: Env)
    requires Renders(q.store, env)
    ensures Renders(Bind(q, x, v), Write(q.noeval > 0, env, x, v))
  {
    if q.noeval == 0 {
      RendersBind(q.store, env, x, v);
    }
  }

  lemma PostCase(inc: bool, x: string, p: Parser, rest: Lexemes, d: Meant)
    requires Ready(p) && Spells(p.text, p.tp, Cons(Word(x), Cons(Sym(if inc then PostInc else PostDec), rest)))
    requires IsName(x) && Stops(rest, 15) && Found(Lookup(x, p.noeval, p.depth, p.store), d)
    ensures AgreesAtom(Stepped(true, inc, x, p.noeval > 0, d), p, rest)
  {
    hide ReadTok, Spells, Renders, Lookup, After, Shown, NameOperand;
    ReadWord(p, x, Cons(Sym(if inc then PostInc else PostDec), rest));
    if ReadTok(p).Ok? && d.Means? {
      PostRun(inc, x, ReadTok(p).p, rest, d.env);
    }
  }

  lemma PostRun(inc: bool, x: string, q: Parser, rest: Lexemes, env: Env)
    requires Wf(q) && q.cur == Str && q.tokstr == Some(x) && Stops(rest, 15) && Renders(q.store, env)
    requires Spells(q.text, q.tp, Cons(Sym(if inc then PostInc else PostDec), rest))
    ensures Agrees(NameOperand(q), Stepped(true, inc, x, q.noeval > 0, Means(q.tokval, env)), q, rest)
  {
    hide ReadTok, Spells, Renders, After, Shown, Lex;
    ReadSymbol(q.(tokstr := None, noeval := 1), Cons(Sym(if inc then PostInc else PostDec), rest));
    var peek := ReadTok(q.(tokstr := None, noeval := 1)).p;
    var q1 := PostStep(q.tokval, q.tokstr, q.noeval, peek);
    ReadStop(q1, rest, 15);
    BindAgrees(q, x, Step(inc, q.tokval), env);
    assert NameOperand(q) == Ok(q.tokval, ReadTok(q1).p);
  }

  lemma PreCase(inc: bool, x: string, p: Parser, rest: Lexemes, d: Meant)
    requires Ready(p) && Spells(p.text, p.tp, Cons(Sym(if inc then PreInc else PreDec), Cons(Word(x), rest)))
    requires IsName(x) && Stops(rest, 15) && Found(Lookup(x, p.noeval, p.depth, p.store), d)
    ensures AgreesAtom(Stepped(false, inc, x, p.noeval > 0, d), p, rest)
  {
    hide ReadTok, Spells, Renders, Lookup, After, Shown, Lex, PreStep;
    var xs := Cons(Word(x), rest);
    ReadSymbol(p, Cons(Sym(if inc then PreInc else PreDec), xs));
    var q := ReadTok(p).p;
    PreRun(inc, x, q, rest, d);
    assert Exp0(q) == PreStep(q);
  }

  lemma PreRun(inc: bool, x: string, q: Parser, rest: Lexemes, d: Meant)
    requires Wf(q) && q.cur == (if inc then PreInc else PreDec) && Spells(q.text, q.tp, Cons(Word(x), rest))
    requires IsName(x) && Stops(rest, 15) && Found(Lookup(x, q.noeval, q.depth, q.store), d)
    ensures Agrees(PreStep(q), Stepped(false, inc, x, q.noeval > 0, d), q, rest)
  {
    hide ReadTok, Spells, Renders, Lookup, After, Shown, Lex;
    var q1 := q.(last := q.cur);
    ReadWord(q1, x, rest);
    if ReadTok(q1).Ok? {
      var q2 := ReadTok(q1).p;
      var v := Step(inc, q2.tokval);
      ReadStop(q2.(store := Bind(q2, x, v), cur := Num), rest, 15);
      if d.Means? { BindAgrees(q2, x, v, d.env); }
    }
  }

  /** Reading an operator or an opening parenthesis makes the parser ready for an operand. */
  lemma ReadOperator(p: Parser, t: Tok, xs: Lexemes, env: Env)
    requires Wf(p) && !IsIncDec(p.cur) && !IsIncDec(p.last) && Renders(p.store, env)
    requires Spells(p.text, p.tp, Cons(Sym(t), xs))
    requires IsSymbol(t) && t !in {PreInc, PreDec, PostInc, PostDec}
    ensures ReadTok(p).Ok?
    ensures var q := ReadTok(p).p; q == p.(tp := q.tp, cur := t, last := p.cur) && StartsWith(xs, q, env)
  {
    ReadSymbol(p, Cons(Sym(t), xs));
  }

  lemma ParenCase(d: Meant, p: Parser, rest: Lexemes)
    requires Ready(p) && Stops(rest, 15) && ReadTok(p).Ok?
    requires var q := ReadTok(p).p;
             && q == p.(tp := q.tp, cur := LPar, last := p.cur)
             && Agrees(ReadThen(0, q), d, q, Cons(Sym(RPar), rest))
    ensures AgreesAtom(d, p, rest)
  {
    hide ReadTok, Spells, Renders, ExpComma, Exp0;
    var q := ReadTok(p).p;
    var r := ReadThen(0, q);
    ParenRun(q);
    if d.Means? {
      ReadStop(r.p, rest, 15);
    }
  }

  lemma ParenRun(q: Parser)
    requires Wf(q) && q.cur == LPar
    ensures var r := ReadThen(0, q);
            && (r.Err? ==> Exp0(q) == r)
            && (r.Ok? && r.p.cur == RPar && ReadTok(r.p).Ok? ==> Exp0(q) == Ok(r.v, ReadTok(r.p).p))
  {
    hide ReadTok, ExpComma;
  }

  lemma UnaryAgrees(op: UnaryOp, v: int)
    requires InRange(v)
    ensures Unary(UnaryTok(op), v) == UnaryValue(op, v)
  {}

  lemma UnCase(op: UnaryOp, d: Meant, p: Parser, rest: Lexemes)
    requires Ready(p) && Stops(rest, 14) && ReadTok(p).Ok?
    requires var q := ReadTok(p).p;
             && q == p.(tp := q.tp, cur := UnaryTok(op), last := p.cur)
             && Agrees(ReadThen(14, q), d, q, rest)
    ensures Agrees(ReadThen(14, p), if d.Means? then Means(UnaryValue(op, d.v), d.env) else d, p, rest)
  {
    hide ReadTok, Spells, Renders, Unary, UnaryValue, Exp0;
    var q := ReadTok(p).p;
    var r := ReadThen(14, q);
    if r.Ok? {
      UnaryAgrees(op, r.v);
      assert Exp1(q) == Ok(Unary(q.cur, r.v), r.p.(last := Num));
    } else {
      assert Exp1(q) == r;
    }
  }

  lemma PowerCase(d: Meant, d2: Meant, p: Parser, ys: Lexemes, rest: Lexemes, skip: bool)
    requires Wf(p) && Stops(rest, 13)
    requires Agrees(ReadThen(14, p), d, p, Cons(Sym(Bin(Power)), ys))
    requires d.Means? ==> Agrees(ReadThen(13, ReadThen(14, p).p), d2, ReadThen(14, p).p, rest)
    ensures Agrees(ReadThen(13, p),
                   if !d.Means? then d else if !d2.Means? then d2 else Operate(Power, d.v, d2.v, skip, d2.env), p, rest)
  {
    hide ReadThen, PowerTail, PowerLoop, Agrees, Reached, Operate;
    PowerRun(p);
    var r := ReadThen(14, p);
    if !d.Means? {
      AgreesErr(r, ReadThen(13, p), d, p, Cons(Sym(Bin(Power)), ys), rest);
    } else {
      AgreesOk(r, d, p, Cons(Sym(Bin(Power)), ys));
      PowerEnd(r.v, ReadThen(13, r.p), d2, r.p, rest, skip);
      var d3 := if !d2.Means? then d2 else Operate(Power, d.v, d2.v, skip, d2.env);
      AgreesFrom(PowerTail(r.v, ReadThen(13, r.p)), d3, r.p, p, rest);
    }
  }

  lemma PowerEnd(v: int, r: Run, d: Meant, q: Parser, rest: Lexemes, skip: bool)
    requires Wf(q) && Stops(rest, 13) && Agrees(r, d, q, rest) && (r.Ok? ==> Wf(r.p))
    ensures Agrees(PowerTail(v, r), if !d.Means? then d else Operate(Power, v, d.v, skip, d.env), q, rest)
  {
    hide Spells, Renders, Pow, Wrap;
    PowZero(v);
    WrapOne();
    if d.Means? && r.v > 0 {
      var w, q1 := Wrap(Pow(v, r.v)), r.p.(last := Num);
      assert PowerLoop(w, q1) == Ok(w, q1);
    }
  }

  /** Agreement counted from an earlier state on the same text. */
  lemma AgreesFrom(r: Run, d: Meant, q: Parser, p: Parser, rest: Lexemes)
    requires Agrees(r, d, q, rest) && q.text == p.text && q.depth == p.depth && q.noeval == p.noeval
    ensures Agrees(r, d, p, rest)
  {
    hide Renders, Spells;
  }

  lemma ReachedFrom(r: Parser, q: Parser, p: Parser, rest: Lexemes)
    requires Reached(r, q, rest) && q.text == p.text && q.depth == p.depth && q.noeval == p.noeval
    ensures Reached(r, p, rest)
  {
    hide Spells;
  }

  lemma PowerRun(p: Parser)
    requires Wf(p)
    ensures var r := ReadThen(14, p); ReadThen(13, p) == if r.Ok? then PowerLoop(r.v, r.p) else r
    ensures var r := ReadThen(14, p); r.Ok? ==> Wf(r.p) && InRange(r.v)
    ensures var r := ReadThen(14, p); r.Ok? && r.p.cur == Bin(Power) ==>
              (ReadThen(13, r.p).Ok? ==> Wf(ReadThen(13, r.p).p)) &&
              PowerLoop(r.v, r.p) == PowerTail(r.v, ReadThen(13, r.p))
  {
    hide ReadTok, Exp1;
  }

  function PowerTail(v: int, r: Run): Run
    requires r.Ok? ==> Wf(r.p)
  {
    var (w, q) :- r;
    if w == 0 then Ok(1, q.(last := Num))
    else if w < 0 then Err(NegativeExponent, q.store)
    else PowerLoop(Wrap(Pow(v, w)), q.(last := Num))
  }

  lemma WrapOne()
    ensures Wrap(1) == 1
  {}

  lemma PowZero(b: int)
    ensures Pow(b, 0) == 1
  {}

  lemma QuotientOverflow()
    ensures Wrap(TruncDiv(INTMAX_MIN, -1)) == INTMAX_MIN && Wrap(TruncMod(INTMAX_MIN, -1)) == 0
  {}

  lemma ApplyAgrees(op: BinOp, a: int, b: int)
    requires op != Power && InRange(a) && (op in {Div, Mod} ==> b != 0)
    ensures Apply(op, a, b) == BinaryValue(op, a, b)
  {
    hide Wrap, TruncDiv, TruncMod, Bitwise, Shift;
    QuotientOverflow();
  }

  lemma CombineAgrees(op: BinOp, v: int, w: int, p: Parser, env: Env)
    requires Wf(p) && InRange(v) && op != Power
    ensures match Operate(op, v, w, p.noeval > 0, env)
            case Means(u, _) =>
              var r := Combine(op, v, w, p);
              r.Ok? && r.v == u && (r.p == p || r.p == p.(last := Num) || r.p == p.(last := Bin(op)))
            case Fails(e, _) => Combine(op, v, w, p) == Err(e, p.store)
            case Unclear(_) => false
    ensures Operate(op, v, w, p.noeval > 0, env).env == env
  {
    hide Apply, Wrap;
    if op in {Div, Mod} && w == 0 {
      ApplyAgrees(op, v, 1);
    } else if op == Mod && v == INTMAX_MIN && w == -1 {
      QuotientOverflow();
    } else {
      ApplyAgrees(op, v, w);
    }
  }

  lemma TurnCase(op: BinOp, k: nat, v: int, q: Parser, d: Meant, rest: Lexemes)
    requires Wf(q) && InRange(v) && op != Power && Rung(op) == k && q.cur == Bin(op)
    requires var q0 := Enter(Decided(op, v), q); Agrees(ReadThen(k + 1, q0), d, q0, rest)
    ensures Agrees(BinaryTurn(k, v, q), if d.Means? then Operate(op, v, d.v, q.noeval > 0, d.env) else d, q, rest)
  {
    hide ReadThen, Spells, Renders, BinaryTurn, Combine, Operate, Decided;
    var q0 := Enter(Decided(op, v), q);
    var r := ReadThen(k + 1, q0);
    TurnRun(op, k, v, q);
    if d.Means? {
      LeftOperand(r.p, q, Decided(op, v), rest);
      CombineCase(op, v, r.v, Leave(Decided(op, v), r.p), q, d.env, rest);
    }
  }

  /** Leaving an operand gives back the state it was entered from. */
  lemma LeftOperand(r: Parser, q: Parser, skip: bool, rest: Lexemes)
    requires Reached(r, Enter(skip, q), rest)
    ensures Reached(Leave(skip, r), q, rest) && Leave(skip, r).store == r.store
  {
    hide Spells;
  }

  lemma CombineCase(op: BinOp, v: int, w: int, r: Parser, q: Parser, env: Env, rest: Lexemes)
    requires Reached(r, q, rest) && InRange(v) && op != Power && Renders(r.store, env)
    ensures Agrees(Combine(op, v, w, r), Operate(op, v, w, q.noeval > 0, env), q, rest)
  {
    hide Spells, Renders, Combine, Operate;
    CombineAgrees(op, v, w, r, env);
  }

  lemma TurnRun(op: BinOp, k: nat, v: int, q: Parser)
    requires Wf(q) && InRange(v) && op != Power && Rung(op) == k && q.cur == Bin(op)
    ensures var r := ReadThen(k + 1, Enter(Decided(op, v), q));
            && (r.Ok? ==> Wf(r.p) && InRange(r.v) && r.p.noeval == Enter(Decided(op, v), q).noeval)
            && BinaryTurn(k, v, q) == if r.Ok? then Combine(op, v, r.v, Leave(Decided(op, v), r.p)) else r
  {
    hide ReadTok, Combine, ExpPower;
    var q0 := Enter(Decided(op, v), q);
    if ReadTok(q0).Ok? {
      assert Operand(k + 1, ReadTok(q0).p) == Level(k + 1, ReadTok(q0).p);
    }
  }

  /** Lexemes that an operand can begin with. */
  predicate Opens(xs: Lexemes) {
    xs.Cons? &&
    match xs.head
    case Word(x) => IsName(x)
    case Numeral(c) => IsConstant(c)
    case Sym(t) =>
      || t == LPar || IsUnary(t)
      || (IsIncDec(t) && xs.tail.Cons? && xs.tail.head.Word? && IsName(xs.tail.head.x))
  }

  lemma {:induction false} PrintOpens(e: Expr, k: nat, rest: Lexemes)
    requires WellFormed(e)
    ensures Opens(Print(e, k, rest))
    ensures Opens(Bare(e, rest))
  {
    match e
    case Bi(op, l, r) =>
      if op == Power {
        PrintOpens(l, 14, Cons(Sym(Bin(Power)), Print(r, 13, rest)));
        PrintOpens(l, 14, Cons(Sym(Bin(Power)), Print(r, 13, Cons(Sym(RPar), rest))));
      } else {
        PrintOpens(l, Rung(op), Cons(Sym(Bin(op)), Print(r, Rung(op) + 1, rest)));
      }
    case IfElse(c, a, b) => PrintOpens(c, 3, Cons(Sym(Ques), Print(a, 0, Cons(Sym(Col), Print(b, 2, rest)))));
    case Then(l, r) => PrintOpens(l, 0, Cons(Sym(Comma), Print(r, 1, rest)));
    case _ =>
  }

  lemma ReadOpens(p: Parser, xs: Lexemes)
    requires Ready(p) && Opens(xs) && Spells(p.text, p.tp, xs)
    ensures ReadTok(p).Ok? ==> ReadTok(p).p.cur !in {End, Col}
  {
    hide Lex, Spells;
    if xs.head.Word? {
      WordNext(p.text, p.tp, xs.head.x, xs.tail, p.cur, p.last);
    } else if xs.head.Numeral? {
      ReadNumeral(p, xs.head.c, xs.tail);
    } else {
      SymbolNext(p.text, p.tp, xs, p.cur, p.last);
    }
  }

  lemma ThenCase(c: int, q: Parser, d: Meant, ys: Lexemes)
    requires Wf(q) && q.cur == Ques
    requires var q0 := Enter(c == 0, q);
             && Agrees(ReadThen(0, q0), d, q0, Cons(Sym(Col), ys))
             && (ReadTok(q0).Ok? ==> ReadTok(q0).p.cur !in {End, Col})
    ensures Agrees(ThenArm(c, q), d, q, Cons(Sym(Col), ys))
  {
    hide Lex, Spells, Renders, ReadTok;
  }

  lemma ElseCase(c: int, q: Parser, d: Meant, rest: Lexemes)
    requires Wf(q) && q.cur == Col
    requires var q0 := Enter(c != 0, q);
             && Agrees(ReadThen(2, q0), d, q0, rest)
             && (ReadTok(q0).Ok? ==> ReadTok(q0).p.cur !in {End, Col})
    ensures Agrees(ElseArm(c, q), d, q, rest)
  {
    hide Lex, Spells, Renders, ReadTok;
  }

  lemma AssignAgrees(op: BinOp, a: int, b: int)
    requires Assigning(op) && InRange(a) && (op in {Div, Mod} ==> b != 0)
    ensures ApplyAssign(op, a, b) == BinaryValue(op, a, b)
  {
    hide Wrap, TruncDiv, TruncMod, Bitwise, Shift;
    QuotientOverflow();
  }

  /** The meaning of an assignment whose right side is worth w. */
  function Assigned(tok: Tok, x: string, v: int, w: int, skip: bool, env: Env): Meant
    requires tok == Eq || tok.OpAssign?
  {
    if tok == Eq then Means(w, Write(skip, env, x, w))
    else
      var (u, env1) :- Operate(tok.op, v, w, skip, env);
      Means(u, Write(skip, env1, x, u))
  }

  lemma AssignedAgrees(tok: Tok, x: string, v: int, w: int, p: Parser, env: Env, rest: Lexemes)
    requires Wf(p) && InRange(v) && InRange(w) && Renders(p.store, env)
    requires tok == Eq || (tok.OpAssign? && Assigning(tok.op))
    requires Reached(p, p, rest)
    ensures Agrees(AssignTo(tok, x, v, w, p), Assigned(tok, x, v, w, p.noeval > 0, env), p, rest)
  {
    hide Renders, Spells, ApplyAssign, BinaryValue;
    var operand := if tok.OpAssign? && tok.op in {Div, Mod} && w == 0 then 1 else w;
    if tok.OpAssign? {
      AssignAgrees(tok.op, v, operand);
    }
    var u := if tok == Eq then w else ApplyAssign(tok.op, v, operand);
    RendersBind(p.store, env, x, u);
  }

  lemma AssignCase(tok: Tok, x: string, p: Parser, v: int, q: Parser, d: Meant, rest: Lexemes)
    requires Wf(p) && Stops(rest, 1) && (tok == Eq || (tok.OpAssign? && Assigning(tok.op)))
    requires ReadThen(2, p) == Ok(v, q) && q.cur == tok && q.last == Str && q.tokstr == Some(x)
    requires Wf(q) && InRange(v) && q.text == p.text && q.depth == p.depth && q.noeval == p.noeval
    requires Agrees(ReadThen(1, q), d, q, rest)
    ensures Agrees(ReadThen(1, p), if d.Means? then Assigned(tok, x, v, d.v, p.noeval > 0, d.env) else d, p, rest)
  {
    hide Lex, Spells, Renders, ReadTok, AssignTo, Assigned;
    var r := ReadThen(1, q);
    if d.Means? {
      AssignedAgrees(tok, x, v, r.v, r.p, d.env, rest);
      assert ReadThen(1, p) == AssignTo(tok, x, v, r.v, r.p);
    } else if r.Err? {
      assert ReadThen(1, p) == r;
    }
  }

  /** A result reached at rung m is also the result of every rung above that `rest` stops. */
  lemma Rise(k: nat, m: nat, p: Parser, d: Meant, rest: Lexemes)
    requires Wf(p) && k <= m <= 15 && Stops(rest, k)
    requires Agrees(ReadThen(m, p), d, p, rest)
    requires m == 15 ==> AgreesAtom(d, p, rest)
    ensures !d.Unclear? ==> ReadThen(k, p) == ReadThen(m, p)
    ensures Agrees(ReadThen(k, p), d, p, rest)
  {
    hide ReadTok, Spells, Renders, ExpComma, ExpAssign, ExpCond, ExpBinary, ExpPower, Exp1, Exp0;
    if ReadTok(p).Ok? && !d.Unclear? {
      Descend(k, m, ReadTok(p).p);
    }
  }

  /** From a state that has read an operator, the operand after it can be parsed. */
  lemma Onward(q: Parser, p: Parser, t: Tok, ys: Lexemes, env: Env, skip: bool)
    requires Reached(q, p, Cons(Sym(t), ys)) && Renders(q.store, env)
    requires t !in {Str, Num, PreInc, PreDec}
    ensures StartsWith(ys, Enter(skip, q), env)
  {}

  /** What agreement gives about a run that goes on. */
  lemma AgreesOk(r: Run, d: Meant, p: Parser, rest: Lexemes)
    requires Agrees(r, d, p, rest) && d.Means?
    ensures r.Ok? && r.v == d.v && Reached(r.p, p, rest) && Renders(r.p.store, d.env)
    ensures Wf(r.p) && r.p.text == p.text && r.p.depth == p.depth && r.p.noeval == p.noeval && r.p.cur == Head(rest)
  {
    hide Renders, Spells;
  }

  lemma AtomAgrees(d: Meant, p: Parser, rest: Lexemes)
    requires Wf(p) && AgreesAtom(d, p, rest)
    ensures Agrees(ReadThen(15, p), d, p, rest)
  {}

  /** A run that stops, if it does, stops what continues it; an unclear one says nothing. */
  lemma AgreesErr(r: Run, r': Run, d: Meant, p: Parser, xs: Lexemes, rest: Lexemes)
    requires Agrees(r, d, p, xs) && !d.Means? && (r.Err? ==> r' == r)
    ensures Agrees(r', d, p, rest)
  {}

  lemma ReachedIs(q: Parser, p: Parser, rest: Lexemes)
    requires Reached(q, p, rest)
    ensures Wf(q) && q.text == p.text && q.depth == p.depth && q.noeval == p.noeval && q.cur == Head(rest)
  {}

  /** Every tree, printed where rung k is asked for, is given its meaning by rung k. */
  lemma {:induction false} Parse(e: Expr, k: nat, p: Parser, rest: Lexemes, env: Env)
    requires WellFormed(e) && k <= 15 && StartsWith(Print(e, k, rest), p, env) && Stops(rest, k)
    ensures Agrees(ReadThen(k, p), MeaningAt(e, p, env), p, rest)
    decreases MAX_DEPTH - p.depth, 1, e, if Tightness(e) >= k then 4 else 5
  {
    hide Level, ReadTok, Spells, Renders, Meaning, Agrees;
    if Tightness(e) >= k {
      ParseBare(e, p, rest, env);
      Rise(k, Tightness(e), p, MeaningAt(e, p, env), rest);
    } else {
      var close := Cons(Sym(RPar), rest);
      ReadOperator(p, LPar, Bare(e, close), env);
      var q := ReadTok(p).p;
      Parse(e, 0, q, close, env);
      ParenCase(MeaningAt(e, p, env), p, rest);
      Rise(k, 15, p, MeaningAt(e, p, env), rest);
    }
  }

  lemma {:induction false} ParseBare(e: Expr, p: Parser, rest: Lexemes, env: Env)
    requires WellFormed(e) && StartsWith(Bare(e, rest), p, env) && Stops(rest, Tightness(e))
    ensures Agrees(ReadThen(Tightness(e), p), MeaningAt(e, p, env), p, rest)
    ensures Tightness(e) == 15 ==> AgreesAtom(MeaningAt(e, p, env), p, rest)
    decreases MAX_DEPTH - p.depth, 1, e, 3
  {
    hide Level, ReadTok, Spells, Renders, Agrees, Read;
    match e
    case Lit(c) => LitCase(c, p, rest, env);
    case Name(x) =>
      ParseLookup(x, p, env);
      NameCase(x, p, rest, env);
    case PreOf(inc, x) =>
      ParseLookup(x, p, env);
      PreCase(inc, x, p, rest, Read(x, p.noeval > 0, p.depth, env));
    case PostOf(inc, x) =>
      ParseLookup(x, p, env);
      PostCase(inc, x, p, rest, Read(x, p.noeval > 0, p.depth, env));
    case Un(_, _) => ParseUnary(e, p, rest, env);
    case Bi(op, _, _) =>
      if op == Power { ParsePower(e, p, rest, env); } else { ParseBinary(e, p, rest, env); }
    case IfElse(_, _, _) => ParseCond(e, p, rest, env);
    case Set(_, _) => ParseSet(e, p, rest, env);
    case Update(_, _, _) => ParseUpdate(e, p, rest, env);
    case Then(_, _) => ParseComma(e, p, rest, env);
    case Paren(_) => ParseParen(e, p, rest, env);
  }

  lemma {:induction false} ParseParen(e: Expr, p: Parser, rest: Lexemes, env: Env)
    requires e.Paren? && WellFormed(e) && StartsWith(Bare(e, rest), p, env) && Stops(rest, 15)
    ensures AgreesAtom(MeaningAt(e, p, env), p, rest)
    decreases MAX_DEPTH - p.depth, 1, e, 2
  {
    hide Level, ReadTok, Spells, Renders, Agrees;
    var close := Cons(Sym(RPar), rest);
    ReadOperator(p, LPar, Print(e.e, 0, close), env);
    var q := ReadTok(p).p;
    Parse(e.e, 0, q, close, env);
    ParenCase(MeaningAt(e.e, q, env), p, rest);
  }

  lemma {:induction false} ParseUnary(e: Expr, p: Parser, rest: Lexemes, env: Env)
    requires e.Un? && WellFormed(e) && StartsWith(Bare(e, rest), p, env) && Stops(rest, 14)
    ensures Agrees(ReadThen(14, p), MeaningAt(e, p, env), p, rest)
    decreases MAX_DEPTH - p.depth, 1, e, 2
  {
    hide Level, ReadTok, Spells, Renders, Agrees;
    ReadOperator(p, UnaryTok(e.uop), Print(e.e, 14, rest), env);
    var q := ReadTok(p).p;
    Parse(e.e, 14, q, rest, env);
    UnCase(e.uop, MeaningAt(e.e, q, env), p, rest);
  }

  lemma {:induction false} ParsePower(e: Expr, p: Parser, rest: Lexemes, env: Env)
    requires e.Bi? && e.op == Power && WellFormed(e) && StartsWith(Bare(e, rest), p, env) &&
             Stops(rest, 13)
    ensures Agrees(ReadThen(13, p), MeaningAt(e, p, env), p, rest)
    decreases MAX_DEPTH - p.depth, 1, e, 2
  {
    hide Level, ReadTok, ReadThen, Spells, Renders, Operate, Agrees, Reached;
    var ys := Print(e.r, 13, rest);
    Parse(e.l, 14, p, Cons(Sym(Bin(Power)), ys), env);
    var d := MeaningAt(e.l, p, env);
    if d.Means? {
      AgreesOk(ReadThen(14, p), d, p, Cons(Sym(Bin(Power)), ys));
      var q := ReadThen(14, p).p;
      Onward(q, p, Bin(Power), ys, d.env, false);
      Parse(e.r, 13, q, rest, d.env);
      PowerCase(d, MeaningAt(e.r, q, d.env), p, ys, rest, p.noeval > 0);
    } else {
      PowerCase(d, d, p, ys, rest, p.noeval > 0);
    }
  }

  /** A left-associative chain: rung k has the tree's value and goes on with its loop at `rest`. */
  lemma {:induction false} ParseLoop(e: Expr, k: nat, p: Parser, rest: Lexemes, env: Env) returns (q: Parser)
    requires WellFormed(e) && 3 <= k <= 12 && StartsWith(Print(e, k, rest), p, env) &&
             Stops(rest, k + 1)
    ensures match MeaningAt(e, p, env)
            case Means(v, env1) =>
              Reached(q, p, rest) && Renders(q.store, env1) && InRange(v) && ReadThen(k, p) == BinaryLoop(k, v, q)
            case _ => Agrees(ReadThen(k, p), MeaningAt(e, p, env), p, rest)
    decreases MAX_DEPTH - p.depth, 1, e, if Tightness(e) == k then 1 else 6
  {
    hide Level, ReadTok, ReadThen, Spells, Renders, Operate, Decided, BinaryTurn, Agrees, Reached;
    q := p;
    if Tightness(e) == k {
      var ys := Print(e.r, k + 1, rest);
      var xs := Cons(Sym(Bin(e.op)), ys);
      var q1 := ParseLoop(e.l, k, p, xs, env);
      var d := MeaningAt(e.l, p, env);
      if !d.Means? {
        AgreesErr(ReadThen(k, p), ReadThen(k, p), d, p, xs, rest);
      } else {
        var q0 := Enter(Decided(e.op, d.v), q1);
        ReachedIs(q1, p, xs);
        Onward(q1, p, Bin(e.op), ys, d.env, Decided(e.op, d.v));
        Parse(e.r, k + 1, q0, rest, d.env);
        var d2 := MeaningAt(e.r, q0, d.env);
        TurnCase(e.op, k, d.v, q1, d2, rest);
        q := TurnEnds(e.op, k, d.v, q1, p,
                      if d2.Means? then Operate(e.op, d.v, d2.v, q1.noeval > 0, d2.env) else d2, rest);
      }
    } else {
      Parse(e, k + 1, p, rest, env);
      RungRun(k, p);
      var r, d := ReadThen(k + 1, p), MeaningAt(e, p, env);
      if d.Means? {
        AgreesOk(r, d, p, rest);
        q := r.p;
      } else {
        AgreesErr(r, ReadThen(k, p), d, p, rest, rest);
      }
    }
  }

  /** A turn of the loop that agrees with d takes the loop to the state after it. */
  lemma TurnEnds(op: BinOp, k: nat, v: int, q1: Parser, p: Parser, d: Meant, rest: Lexemes) returns (q: Parser)
    requires Wf(q1) && InRange(v) && 3 <= k <= 12 && q1.cur == Bin(op) && Rung(op) == k
    requires q1.text == p.text && q1.depth == p.depth && q1.noeval == p.noeval
    requires Agrees(BinaryTurn(k, v, q1), d, q1, rest)
    ensures d.Means? ==> Reached(q, p, rest) && Renders(q.store, d.env) && InRange(d.v)
    ensures d.Means? ==> BinaryLoop(k, v, q1) == BinaryLoop(k, d.v, q)
    ensures !d.Means? ==> Agrees(BinaryLoop(k, v, q1), d, p, rest)
  {
    hide Renders, Spells, BinaryTurn, Agrees, Reached;
    var t := BinaryTurn(k, v, q1);
    q := q1;
    if d.Means? {
      AgreesOk(t, d, q1, rest);
      ReachedFrom(t.p, q1, p, rest);
      q := t.p;
    } else {
      AgreesErr(t, BinaryLoop(k, v, q1), d, q1, rest, rest);
      AgreesFrom(BinaryLoop(k, v, q1), d, q1, p, rest);
    }
  }

  lemma RungRun(k: nat, p: Parser)
    requires Wf(p) && 3 <= k <= 12
    ensures var r := ReadThen(k + 1, p);
            && (r.Ok? ==> Wf(r.p) && InRange(r.v))
            && ReadThen(k, p) == if r.Ok? then BinaryLoop(k, r.v, r.p) else r
  {
    hide ReadTok, BinaryLoop, ExpPower;
    if ReadTok(p).Ok? {
      assert Operand(k + 1, ReadTok(p).p) == Level(k + 1, ReadTok(p).p);
    }
  }

  lemma {:induction false} ParseBinary(e: Expr, p: Parser, rest: Lexemes, env: Env)
    requires e.Bi? && e.op != Power && WellFormed(e)
    requires StartsWith(Bare(e, rest), p, env) && Stops(rest, Rung(e.op))
    ensures Agrees(ReadThen(Rung(e.op), p), MeaningAt(e, p, env), p, rest)
    decreases MAX_DEPTH - p.depth, 1, e, 2
  {
    hide Level, ReadTok, Spells, Renders, Meaning;
    var k := Rung(e.op);
    var q := ParseLoop(e, k, p, rest, env);
    var d := MeaningAt(e, p, env);
    assert d.Means? ==> BinaryLoop(k, d.v, q) == Ok(d.v, q);
  }

  lemma {:induction false} ParseCond(e: Expr, p: Parser, rest: Lexemes, env: Env)
    requires e.IfElse? && WellFormed(e) && StartsWith(Bare(e, rest), p, env) && Stops(rest, 2)
    ensures Agrees(ReadThen(2, p), MeaningAt(e, p, env), p, rest)
    decreases MAX_DEPTH - p.depth, 1, e, 2
  {
    hide Level, ReadTok, ReadThen, Spells, Renders, Arms;
    var ys := Print(e.a, 0, Cons(Sym(Col), Print(e.b, 2, rest)));
    Parse(e.c, 3, p, Cons(Sym(Ques), ys), env);
    CondRun(p);
    var d := MeaningAt(e.c, p, env);
    if d.Means? {
      var q := ReadThen(3, p).p;
      Onward(q, p, Ques, ys, d.env, d.v == 0);
      ParseArms(e, d.v, q, rest, d.env);
    }
  }

  /** The meaning of the arms of a conditional whose test is worth v. */
  function ArmsMeaning(e: Expr, v: int, skip: bool, depth: nat, env: Env): Meant
    requires e.IfElse? && depth <= MAX_DEPTH
  {
    var (va, env2) :- Meaning(e.a, skip || v == 0, depth, env);
    var (vb, env3) :- Meaning(e.b, skip || v != 0, depth, env2);
    Means(if v != 0 then va else vb, env3)
  }

  lemma {:induction false} ParseArms(e: Expr, v: int, q: Parser, rest: Lexemes, env: Env)
    requires e.IfElse? && WellFormed(e) && Stops(rest, 2) && Wf(q) && q.cur == Ques
    requires StartsWith(Print(e.a, 0, Cons(Sym(Col), Print(e.b, 2, rest))), Enter(v == 0, q), env)
    ensures Agrees(Arms(v, q), ArmsMeaning(e, v, q.noeval > 0, q.depth, env), q, rest)
    decreases MAX_DEPTH - q.depth, 1, e, 1
  {
    hide Spells, Renders, ThenArm, ElseArm, Meaning;
    var zs := Print(e.b, 2, rest);
    var d1 := ParseThen(e.a, v, q, zs, env);
    if d1.Means? {
      var q1 := ThenArm(v, q).p;
      Onward(q1, q, Col, zs, d1.env, v != 0);
      var d2 := ParseElse(e.b, v, q1, rest, d1.env);
    }
  }

  lemma CondRun(p: Parser)
    requires Wf(p)
    ensures var r := ReadThen(3, p);
            ReadThen(2, p) == if r.Ok? && r.p.cur == Ques then Arms(r.v, r.p) else r
  {
    hide ReadTok, ThenArm, ElseArm, ExpBinary;
  }

  /** The arms of a conditional, from its `?` on. */
  function Arms(c: int, q: Parser): Run
    requires Wf(q) && q.cur == Ques
  {
    var (v1, q1) :- ThenArm(c, q);
    var (v2, q2) :- ElseArm(c, q1);
    Ok(if c != 0 then v1 else v2, q2.(last := Cond))
  }

  lemma {:induction false} ParseThen(e: Expr, c: int, q: Parser, zs: Lexemes, env: Env) returns (d: Meant)
    requires WellFormed(e) && Wf(q) && q.cur == Ques
    requires StartsWith(Print(e, 0, Cons(Sym(Col), zs)), Enter(c == 0, q), env)
    ensures d == Meaning(e, q.noeval > 0 || c == 0, q.depth, env) && Agrees(ThenArm(c, q), d, q, Cons(Sym(Col), zs))
    decreases MAX_DEPTH - q.depth, 1, e, 6
  {
    hide Level, ReadTok, Spells, Renders, Meaning, ThenArm, Agrees;
    var q0 := Enter(c == 0, q);
    d := MeaningAt(e, q0, env);
    Parse(e, 0, q0, Cons(Sym(Col), zs), env);
    PrintOpens(e, 0, Cons(Sym(Col), zs));
    ReadOpens(q0, Print(e, 0, Cons(Sym(Col), zs)));
    ThenCase(c, q, d, zs);
  }

  lemma {:induction false} ParseElse(e: Expr, c: int, q: Parser, rest: Lexemes, env: Env) returns (d: Meant)
    requires WellFormed(e) && Wf(q) && q.cur == Col && Stops(rest, 2)
    requires StartsWith(Print(e, 2, rest), Enter(c != 0, q), env)
    ensures d == Meaning(e, q.noeval > 0 || c != 0, q.depth, env) && Agrees(ElseArm(c, q), d, q, rest)
    decreases MAX_DEPTH - q.depth, 1, e, 6
  {
    hide Level, ReadTok, Spells, Renders, Meaning, ElseArm, Agrees;
    var q0 := Enter(c != 0, q);
    d := MeaningAt(e, q0, env);
    Parse(e, 2, q0, rest, env);
    PrintOpens(e, 2, rest);
    ReadOpens(q0, Print(e, 2, rest));
    ElseCase(c, q, d, rest);
  }

  /** The target of `=` is read without being looked up. */
  lemma SetTarget(x: string, p: Parser, ys: Lexemes, env: Env) returns (q: Parser)
    requires IsName(x) && StartsWith(Cons(Word(x), Cons(Sym(Eq), ys)), p, env)
    ensures ReadThen(2, p) == Ok(0, q) && Reached(q, p, Cons(Sym(Eq), ys)) && Renders(q.store, env)
    ensures q.last == Str && q.tokstr == Some(x)
  {
    hide ReadTok, Spells, Renders, After, Shown, Lookup, ExpCond;
    var xs := Cons(Sym(Eq), ys);
    ReadWord(p, x, xs);
    var q0 := ReadTok(p).p;
    ReadSymbol(q0.(tokstr := None, noeval := 1), xs);
    ReadSymbol(q0, xs);
    q := ReadTok(q0).p;
    assert Exp0(q0) == Ok(0, q);
    Descend(2, 15, q0);
  }

  lemma {:induction false} ParseSet(e: Expr, p: Parser, rest: Lexemes, env: Env)
    requires e.Set? && WellFormed(e) && StartsWith(Bare(e, rest), p, env) && Stops(rest, 1)
    ensures Agrees(ReadThen(1, p), MeaningAt(e, p, env), p, rest)
    decreases MAX_DEPTH - p.depth, 1, e, 2
  {
    hide Level, ReadTok, Spells, Renders, Agrees;
    var ys := Print(e.e, 1, rest);
    var q := SetTarget(e.x, p, ys, env);
    Onward(q, p, Eq, ys, env, false);
    Parse(e.e, 1, q, rest, env);
    AssignCase(Eq, e.x, p, 0, q, MeaningAt(e.e, q, env), rest);
  }

  lemma {:induction false} ParseUpdate(e: Expr, p: Parser, rest: Lexemes, env: Env)
    requires e.Update? && WellFormed(e) && StartsWith(Bare(e, rest), p, env) && Stops(rest, 1)
    ensures Agrees(ReadThen(1, p), MeaningAt(e, p, env), p, rest)
    decreases MAX_DEPTH - p.depth, 1, e, 2
  {
    hide Level, ReadTok, ReadThen, Spells, Renders, Operate, Read, Agrees, Reached, AgreesAtom;
    var ys := Print(e.e, 1, rest);
    var xs := Cons(Sym(OpAssign(e.op)), ys);
    ParseLookup(e.x, p, env);
    NameCase(e.x, p, xs, env);
    var d := MeaningAt(Name(e.x), p, env);
    AtomAgrees(d, p, xs);
    Rise(2, 15, p, d, xs);
    UpdateRun(p);
    if !d.Means? {
      AgreesErr(ReadThen(2, p), ReadThen(1, p), d, p, xs, rest);
    } else {
      AgreesOk(ReadThen(2, p), d, p, xs);
      var q := ReadThen(2, p).p;
      Onward(q, p, OpAssign(e.op), ys, d.env, false);
      Parse(e.e, 1, q, rest, d.env);
      AssignCase(OpAssign(e.op), e.x, p, d.v, q, MeaningAt(e.e, q, d.env), rest);
    }
  }

  lemma UpdateRun(p: Parser)
    requires Wf(p)
    ensures ReadThen(2, p).Err? ==> ReadThen(1, p) == ReadThen(2, p)
    ensures ReadThen(2, p).Ok? ==> InRange(ReadThen(2, p).v)
  {
    hide ReadTok, ExpCond;
  }

  /** A comma list: `expcomma` has the tree's value and goes on with its loop at `rest`. */
  lemma {:induction false} ParseList(e: Expr, p: Parser, rest: Lexemes, env: Env) returns (q: Parser)
    requires WellFormed(e) && StartsWith(Print(e, 0, rest), p, env) && Stops(rest, 1)
    ensures match MeaningAt(e, p, env)
            case Means(v, env1) =>
              Reached(q, p, rest) && Renders(q.store, env1) && InRange(v) && ReadThen(0, p) == CommaLoop(v, q)
            case _ => Agrees(ReadThen(0, p), MeaningAt(e, p, env), p, rest)
    decreases MAX_DEPTH - p.depth, 1, e, if Tightness(e) == 0 then 1 else 6
  {
    hide Level, ReadTok, ReadThen, Spells, Renders;
    q := p;
    if e.Then? {
      var ys := Print(e.r, 1, rest);
      var q1 := ParseList(e.l, p, Cons(Sym(Comma), ys), env);
      var d := MeaningAt(e.l, p, env);
      if d.Means? {
        Onward(q1, p, Comma, ys, d.env, false);
        Parse(e.r, 1, q1, rest, d.env);
        ListStep(d.v, q1);
        var r := ReadThen(1, q1);
        q := if r.Ok? then r.p else q1;
      }
    } else {
      Parse(e, 1, p, rest, env);
      ListRun(p);
      var r := ReadThen(1, p);
      q := if r.Ok? then r.p else p;
    }
  }

  lemma ListRun(p: Parser)
    requires Wf(p)
    ensures var r := ReadThen(1, p);
            && (r.Ok? ==> Wf(r.p) && InRange(r.v))
            && ReadThen(0, p) == if r.Ok? then CommaLoop(r.v, r.p) else r
  {
    hide ReadTok, ExpAssign, CommaLoop;
  }

  lemma ListStep(v: int, q: Parser)
    requires Wf(q) && InRange(v) && q.cur == Comma
    ensures var r := ReadThen(1, q);
            && (r.Ok? ==> Wf(r.p) && InRange(r.v))
            && CommaLoop(v, q) == if r.Ok? then CommaLoop(r.v, r.p) else r
  {
    hide ReadTok, ExpAssign;
  }

  lemma {:induction false} ParseComma(e: Expr, p: Parser, rest: Lexemes, env: Env)
    requires e.Then? && WellFormed(e) && StartsWith(Bare(e, rest), p, env) && Stops(rest, 0)
    ensures Agrees(ReadThen(0, p), MeaningAt(e, p, env), p, rest)
    decreases MAX_DEPTH - p.depth, 1, e, 2
  {
    hide Level, ReadTok, Spells, Renders, Meaning;
    var q := ParseList(e, p, rest, env);
    var d := MeaningAt(e, p, env);
    assert d.Means? ==> CommaLoop(d.v, q) == Ok(d.v, q);
  }

  lemma {:induction false} ParseLookup(x: string, p: Parser, env: Env)
    requires p.depth <= MAX_DEPTH && Renders(p.store, env)
    ensures Finds(x, p, env)
    decreases MAX_DEPTH - p.depth, 0, 2
  {
    hide Meaning, SubExpr, Renders, Readable, Spelled, Spells, Print, WellFormed, SkipSpace;
    StoreKnown(p.store, env, x);
    if p.noeval == 0 && x in env.known {
      SpelledIs(env.known[x]);
      TextMeans(env.known[x].e, p.store[x], p.depth, p.store, env);
      NotEmpty(p.store[x]);
    } else if p.noeval == 0 && x in p.store && Readable(x, env) {
      Blank(p.store[x], p.depth, p.store);
    }
  }

  /** What the store holds for a name. */
  lemma StoreKnown(store: Store, env: Env, x: string)
    requires Renders(store, env)
    ensures x in env.known ==> x in store && store[x] == env.known[x].text && Spelled(env.known[x])
    ensures x !in env.known && x in store && Readable(x, env) ==> SkipSpace(store[x], 0) == |store[x]|
    ensures x !in env.known && x !in store ==> Readable(x, env)
  {
    hide Spelled, SkipSpace;
  }

  lemma SpelledIs(v: Var)
    requires Spelled(v)
    ensures WellFormed(v.e) && Spells(v.text, 0, Print(v.e, 0, Nil))
  {}

  lemma NotEmpty(text: string)
    requires SkipSpace(text, 0) < |text|
    ensures text != ""
  {}

  lemma Blank(text: string, depth: nat, store: Store)
    requires depth <= MAX_DEPTH && SkipSpace(text, 0) == |text|
    ensures SubExpr(text, depth, store) == Value(0, store)
  {
  }

  /** A whole text, as `subexpr` evaluates it, for every tree whose evaluation reads only texts that are known. */
  lemma {:induction false} TextMeans(e: Expr, text: string, depth: nat, store: Store, env: Env)
    requires WellFormed(e) && depth <= MAX_DEPTH && Spells(text, 0, Print(e, 0, Nil)) &&
             Renders(store, env)
    ensures SkipSpace(text, 0) < |text|
    ensures depth == MAX_DEPTH ==> SubExpr(text, depth, store) == Failed(TooDeep, store)
    ensures depth < MAX_DEPTH ==> Found(SubExpr(text, depth, store), Meaning(e, false, depth + 1, env))
    ensures depth < MAX_DEPTH ==>
              var d := Meaning(e, false, depth + 1, env);
              !d.Unclear? ==> SubExpr(text, depth, store) == Outcome(d)
    decreases MAX_DEPTH - depth, 0, 1
  {
    hide *;
    NotBlank(e, text);
    if depth < MAX_DEPTH {
      WholeBelow(e, text, depth, store, env);
      FoundExactly(SubExpr(text, depth, store), Meaning(e, false, depth + 1, env));
    } else {
      TooDeepToPush(text, store);
    }
  }

  lemma FoundExactly(a: Answer, d: Meant)
    requires Found(a, d)
    ensures !d.Unclear? ==> a == Outcome(d)
  {
    hide Spelled;
  }

  /** Any store at all is that of an environment that knows nothing of its texts. */
  lemma AnyStore(store: Store)
    ensures Renders(store, Env(map[], store))
  {
    assert store + map[] == store;
  }

  lemma TooDeepToPush(text: string, store: Store)
    requires SkipSpace(text, 0) < |text|
    ensures SubExpr(text, MAX_DEPTH, store) == Failed(TooDeep, store)
  {
    hide Ladder.Whole, SkipSpace;
  }

  lemma {:induction false} WholeBelow(e: Expr, text: string, depth: nat, store: Store, env: Env)
    requires WellFormed(e) && depth < MAX_DEPTH && Spells(text, 0, Print(e, 0, Nil)) &&
             Renders(store, env)
    requires SkipSpace(text, 0) < |text|
    ensures Found(SubExpr(text, depth, store), Meaning(e, false, depth + 1, env))
    decreases MAX_DEPTH - depth, 0, 0
  {
    hide ReadTok, ReadThen, Ladder.Whole, Spells, Renders, Meaning, Print, WellFormed, SkipSpace;
    var p := Fresh(text, depth + 1, store);
    Parse(e, 0, p, Nil, env);
    WholeRun(p);
    assert SubExpr(text, depth, store) == Finish(Ladder.Whole(p));
  }

  lemma WholeRun(p: Parser)
    requires Wf(p)
    ensures var r := ReadThen(0, p); r.Err? || r.p.cur == End ==> Ladder.Whole(p) == r
  {
    hide ReadTok, ExpComma;
  }

  lemma NotBlank(e: Expr, text: string)
    requires WellFormed(e) && Spells(text, 0, Print(e, 0, Nil))
    ensures SkipSpace(text, 0) < |text|
  {
    hide Print, Spells;
    PrintOpens(e, 0, Nil);
    OpensNotBlank(text, Print(e, 0, Nil));
  }

  lemma OpensNotBlank(text: string, xs: Lexemes)
    requires Opens(xs) && Spells(text, 0, xs)
    ensures SkipSpace(text, 0) < |text|
  {
    assert Shown(xs.head) != "";
  }
}
