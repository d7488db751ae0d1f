/** Laws of arithmetic evaluation that follow from the meaning of trees, and the texts that print them. */
module ExprLaws {
  import opened Int64
  import opened Numerals
  import opened Tokens
  import opened Operators
  import opened Ladder
  import opened Expressions
  import opened Strings
  import opened Faithful
  import Reading
  import opened Options

  /** `x OP= e` and `x = x OP (e)` mean the same: value, variables and errors, evaluated or skipped. */
  lemma UpdateIsSet(op: BinOp, x: string, e: Expr, skip: bool, depth: nat, env: Env)
    requires depth <= MAX_DEPTH && Assigning(op)
    ensures Meaning(Update(op, x, e), skip, depth, env) == Meaning(Set(x, Bi(op, Name(x), e)), skip, depth, env)
  {
    hide Operate, Write;
    assert Meaning(Name(x), skip, depth, env) == Read(x, skip, depth, env);
    var d := Read(x, skip, depth, env);
    if d.Means? {
      assert !Decided(op, d.v);
      var d2 := Meaning(e, skip, depth, d.env);
      assert Meaning(Bi(op, Name(x), e), skip, depth, env) ==
             if d2.Means? then Operate(op, d.v, d2.v, skip, d2.env) else d2;
    } else {
      assert Meaning(Bi(op, Name(x), e), skip, depth, env) == d;
    }
  }

  /** The same law for the evaluator, on any two texts that spell the two forms: equal answers and equal stores. */
  lemma UpdateTexts(op: BinOp, x: string, e: Expr, s: string, t: string, store: Store, env: Env)
    requires Assigning(op) && IsName(x) && WellFormed(e) && Renders(store, env)
    requires !Meaning(Update(op, x, e), false, 1, env).Unclear?
    requires Spells(s, 0, Print(Update(op, x, e), 0, Nil)) && Spells(t, 0, Print(Set(x, Bi(op, Name(x), e)), 0, Nil))
    ensures SubExpr(s, 0, store) == SubExpr(t, 0, store)
  {
    hide Spells, Renders, Meaning, SubExpr;
    assert WellFormed(Name(x)) && WellFormed(Bi(op, Name(x), e));
    TextMeans(Update(op, x, e), s, 0, store, env);
    TextMeans(Set(x, Bi(op, Name(x), e)), t, 0, store, env);
    UpdateIsSet(op, x, e, false, 1, env);
  }

  /** The value of a tree that is skipped: names count as zero and a zero divisor as one. */
  function SkipValue(e: Expr): int {
    match e
    case Lit(c) => if Strlong(c).Number? then Strlong(c).value else 0
    case Name(_) => 0
    case PreOf(inc, _) => Step(inc, 0)
    case PostOf(_, _) => 0
    case Un(op, e1) => UnaryValue(op, SkipValue(e1))
    case Bi(op, l, r) => SkipOperate(op, SkipValue(l), SkipValue(r))
    case IfElse(c, a, b) => if SkipValue(c) != 0 then SkipValue(a) else SkipValue(b)
    case Set(_, e1) => SkipValue(e1)
    case Update(op, _, e1) => SkipOperate(op, 0, SkipValue(e1))
    case Then(_, r) => SkipValue(r)
    case Paren(e1) => SkipValue(e1)
  }

  function SkipOperate(op: BinOp, a: int, b: int): int {
    if op in {Div, Mod} && b == 0 then BinaryValue(op, a, 1)
    else if op == Power && b < 0 then 0
    else BinaryValue(op, a, b)
  }

  /** The first malformed constant of the tree, or exponent that is negative when names count as zero. */
  function Flaw(e: Expr): Option<Problem> {
    match e
    case Lit(c) => if Strlong(c).Malformed? then Some(Strlong(c).problem) else None
    case Name(_) => None
    case PreOf(_, _) => None
    case PostOf(_, _) => None
    case Un(_, e1) => Flaw(e1)
    case Bi(op, l, r) => Or(Flaw(l), Or(Flaw(r), BadPower(op, r)))
    case IfElse(c, a, b) => Or(Flaw(c), Or(Flaw(a), Flaw(b)))
    case Set(_, e1) => Flaw(e1)
    case Update(op, _, e1) => Or(Flaw(e1), BadPower(op, e1))
    case Then(l, r) => Or(Flaw(l), Flaw(r))
    case Paren(e1) => Flaw(e1)
  }

  function BadPower(op: BinOp, r: Expr): Option<Problem> {
    if op == Power && SkipValue(r) < 0 then Some(NegativeExponent) else None
  }

  function Or(p: Option<Problem>, q: Option<Problem>): Option<Problem> {
    if p.Some? then p else q
  }

  /** A skipped tree reads and changes no variable, and fails if and only if it has a flaw, with its first. */
  lemma {:induction false} SkippedIsInert(e: Expr, depth: nat, env: Env)
    requires depth <= MAX_DEPTH
    ensures Meaning(e, true, depth, env) ==
            if Flaw(e).Some? then Fails(Flaw(e).value, env) else Means(SkipValue(e), env)
    decreases e
  {
    hide BinaryValue, Wrap, UnaryValue, Step, Strlong;
    match e
    case Lit(_) =>
    case Name(_) =>
    case PreOf(_, _) =>
    case PostOf(_, _) =>
    case Un(_, e1) => SkippedIsInert(e1, depth, env);
    case Bi(_, l, r) =>
      SkippedIsInert(l, depth, env);
      SkippedIsInert(r, depth, env);
    case IfElse(c, a, b) =>
      SkippedIsInert(c, depth, env);
      SkippedIsInert(a, depth, env);
      SkippedIsInert(b, depth, env);
    case Set(_, e1) => SkippedIsInert(e1, depth, env);
    case Update(_, _, e1) => SkippedIsInert(e1, depth, env);
    case Then(l, r) =>
      SkippedIsInert(l, depth, env);
      SkippedIsInert(r, depth, env);
    case Paren(e1) => SkippedIsInert(e1, depth, env);
  }

  /**
   When the left operand of `&&` or `||` decides, the result is that of the left operand alone,
   as a truth value, if and only if the skipped operand has no flaw, whatever its variables hold.
   */
  lemma ShortCircuit(op: BinOp, l: Expr, r: Expr, depth: nat, env: Env)
    requires depth <= MAX_DEPTH && op in {LOr, LAnd}
    requires Meaning(l, false, depth, env).Means? && (op == LOr) == (Meaning(l, false, depth, env).v != 0)
    ensures var d := Meaning(l, false, depth, env);
            Meaning(Bi(op, l, r), false, depth, env) ==
              if Flaw(r).Some? then Fails(Flaw(r).value, d.env) else Means(if op == LOr then 1 else 0, d.env)
  {
    hide Flaw, SkipValue;
    SkippedIsInert(r, depth, Meaning(l, false, depth, env).env);
  }

  /** When it does not decide, the right operand is evaluated next and the result is its truth value. */
  lemma RightDecides(op: BinOp, l: Expr, r: Expr, depth: nat, env: Env)
    requires depth <= MAX_DEPTH && op in {LOr, LAnd}
    requires Meaning(l, false, depth, env).Means? && (op == LOr) == (Meaning(l, false, depth, env).v == 0)
    ensures var d := Meaning(r, false, depth, Meaning(l, false, depth, env).env);
            Meaning(Bi(op, l, r), false, depth, env) ==
              if d.Means? then Means(if d.v != 0 then 1 else 0, d.env) else d
  {}

  /** `++x` is `x += 1` and `--x` is `x -= 1`. */
  lemma StepIsUpdate(inc: bool, x: string, skip: bool, depth: nat, env: Env)
    requires depth <= MAX_DEPTH
    ensures Meaning(PreOf(inc, x), skip, depth, env) ==
            Meaning(Update(if inc then Plus else Minus, x, Lit("1")), skip, depth, env)
  {
    hide Strlong, Wrap, Read, Write;
    One();
    var d := Read(x, skip, depth, env);
    if d.Means? {
      assert Meaning(Lit("1"), skip, depth, d.env) == Means(1, d.env);
    }
  }

  lemma One()
    ensures Strlong("1") == Number(1)
  {}

  /** `x++` and `x--` do the same as the prefix forms and give the value from before. */
  lemma PostGivesOld(inc: bool, x: string, skip: bool, depth: nat, env: Env)
    requires depth <= MAX_DEPTH
    ensures var before, after := Meaning(Name(x), skip, depth, env), Meaning(PreOf(inc, x), skip, depth, env);
            Meaning(PostOf(inc, x), skip, depth, env) ==
            if before.Means? then Means(before.v, after.env) else before
  {
    hide Read, Write, Step;
  }

  /** A variable is worth what its text evaluates to one level deeper, whatever the text; an unset one is worth 0. */
  lemma VariableIsText(x: string, depth: nat, store: Store)
    requires IsName(x) && depth < MAX_DEPTH
    ensures SubExpr(x, depth, store) ==
            if x in store then SubExpr(store[x], depth + 1, store) else Value(0, store)
  {
    hide ReadTok, Spells, SubExpr, Ladder.Whole, SkipSpace, NameOperand, ReadThen, IsNameChar;
    WordAlone(x);
    var p := Fresh(x, depth + 1, store);
    LookupIsText(x, depth + 1, store);
    AloneRun(x, p);
    Pushed(x, depth, store);
  }

  lemma WordAlone(x: string)
    requires IsName(x)
    ensures Spells(x, 0, Cons(Word(x), Nil)) && SkipSpace(x, 0) < |x|
  {
    assert x[0..|x|] == x && SkipSpace(x, 0) == 0 && SkipSpace(x, |x|) == |x|;
    assert Spells(x, |x|, Nil);
  }

  lemma LookupIsText(x: string, depth: nat, store: Store)
    requires depth <= MAX_DEPTH
    ensures Lookup(x, 0, depth, store) == if x in store then SubExpr(store[x], depth, store) else Value(0, store)
  {
    hide Ladder.Whole;
  }

  /** A name alone is read, looked up, and its value is the whole. */
  lemma AloneRun(x: string, p: Parser)
    requires Wf(p) && Ready(p) && p.noeval == 0 && IsName(x) && Spells(p.text, p.tp, Cons(Word(x), Nil))
    ensures Finish(Ladder.Whole(p)) == Lookup(x, 0, p.depth, p.store)
  {
    hide ReadTok, Spells, Lookup, Reading.After, Shown, Ladder.Whole, ExpComma;
    Reading.ReadWord(p, x, Nil);
    WholeRun(p);
    if ReadTok(p).Ok? {
      var q := ReadTok(p).p;
      ReadStop(q.(tokstr := None, noeval := 1), Nil, 15);
      ReadStop(q, Nil, 15);
      assert NameOperand(q) == Ok(q.tokval, ReadTok(q).p);
      assert Level(15, q) == Ok(q.tokval, ReadTok(q).p);
      Descend(0, 15, q);
    }
  }

  lemma Pushed(text: string, depth: nat, store: Store)
    requires depth < MAX_DEPTH && SkipSpace(text, 0) < |text|
    ensures SubExpr(text, depth, store) == Finish(Ladder.Whole(Fresh(text, depth + 1, store)))
  {
    hide Ladder.Whole, SkipSpace;
  }

  /** The arm of a conditional that is not selected never acts, on the same condition; it is skipped in its place. */
  lemma UnselectedArm(c: Expr, a: Expr, b: Expr, depth: nat, env: Env)
    requires depth <= MAX_DEPTH && Meaning(c, false, depth, env).Means?
    ensures var d := Meaning(c, false, depth, env);
            var da, db := Meaning(a, false, depth, d.env), Meaning(b, false, depth, d.env);
            Meaning(IfElse(c, a, b), false, depth, env) ==
              if d.v == 0 then (if Flaw(a).Some? then Fails(Flaw(a).value, d.env) else db)
              else if da.Means? && Flaw(b).Some? then Fails(Flaw(b).value, da.env)
              else da
  {
    hide Flaw, SkipValue;
    var d := Meaning(c, false, depth, env);
    if d.v == 0 {
      SkippedIsInert(a, depth, d.env);
    } else {
      SkippedIsInert(b, depth, Meaning(a, false, depth, d.env).env);
    }
    ArmsLast(c, a, b, depth, env);
  }

  lemma ArmsLast(c: Expr, a: Expr, b: Expr, depth: nat, env: Env)
    requires depth <= MAX_DEPTH && Meaning(c, false, depth, env).Means?
    ensures var d := Meaning(c, false, depth, env);
            Meaning(IfElse(c, a, b), false, depth, env) == ArmsMeaning(IfElse(c, a, b), d.v, false, depth, d.env)
  {
  }

  /** A skipped operand can still fail: `0 && 2 ** -1` and `0 && 08`. */
  lemma SkippedCanFail(env: Env)
    ensures Meaning(Bi(LAnd, Lit("0"), Bi(Power, Lit("2"), Un(Negate, Lit("1")))), false, 1, env) ==
            Fails(NegativeExponent, env)
    ensures Meaning(Bi(LAnd, Lit("0"), Lit("08")), false, 1, env) == Fails(DigitTooGreat, env)
  {
    assert Strlong("0") == Number(0) && Strlong("1") == Number(1) && Strlong("2") == Number(2);
    assert Strlong("08") == Malformed(DigitTooGreat);
    hide Strlong;
    var power := Bi(Power, Lit("2"), Un(Negate, Lit("1")));
    assert SkipValue(Un(Negate, Lit("1"))) == -1 && Flaw(power) == Some(NegativeExponent);
    assert Meaning(Lit("0"), false, 1, env) == Means(0, env);
    ShortCircuit(LAnd, Lit("0"), power, 1, env);
    ShortCircuit(LAnd, Lit("0"), Lit("08"), 1, env);
  }

  lemma {:induction false} MeaningInRange(e: Expr, skip: bool, depth: nat, env: Env)
    requires depth <= MAX_DEPTH
    ensures Meaning(e, skip, depth, env).Means? ==> InRange(Meaning(e, skip, depth, env).v)
    decreases MAX_DEPTH - depth, 1, e
  {
    hide BinaryValue, Wrap, Write;
    match e
    case Lit(_) =>
    case Name(x) => ReadInRange(x, skip, depth, env);
    case PreOf(_, x) => ReadInRange(x, skip, depth, env);
    case PostOf(_, x) => ReadInRange(x, skip, depth, env);
    case Un(_, e1) => MeaningInRange(e1, skip, depth, env);
    case Bi(op, l, r) =>
      var d := Meaning(l, skip, depth, env);
      if d.Means? {
        var d2 := Meaning(r, skip || Decided(op, d.v), depth, d.env);
        if d2.Means? { OperateInRange(op, d.v, d2.v, skip, d2.env); }
      }
    case IfElse(c, a, b) =>
      var d := Meaning(c, skip, depth, env);
      if d.Means? {
        MeaningInRange(a, skip || d.v == 0, depth, d.env);
        var d1 := Meaning(a, skip || d.v == 0, depth, d.env);
        if d1.Means? { MeaningInRange(b, skip || d.v != 0, depth, d1.env); }
      }
    case Set(_, e1) => MeaningInRange(e1, skip, depth, env);
    case Update(op, x, e1) =>
      var d := Read(x, skip, depth, env);
      if d.Means? {
        var d2 := Meaning(e1, skip, depth, d.env);
        if d2.Means? { OperateInRange(op, d.v, d2.v, skip, d2.env); }
      }
    case Then(l, r) =>
      var d := Meaning(l, skip, depth, env);
      if d.Means? { MeaningInRange(r, skip, depth, d.env); }
    case Paren(e1) => MeaningInRange(e1, skip, depth, env);
  }

  lemma {:induction false} ReadInRange(x: string, skip: bool, depth: nat, env: Env)
    requires depth <= MAX_DEPTH
    ensures Read(x, skip, depth, env).Means? ==> InRange(Read(x, skip, depth, env).v)
    decreases MAX_DEPTH - depth, 0
  {
    if !skip && x in env.known && depth < MAX_DEPTH {
      MeaningInRange(env.known[x].e, false, depth + 1, env);
    }
  }

  lemma OperateInRange(op: BinOp, a: int, b: int, skip: bool, env: Env)
    ensures Operate(op, a, b, skip, env).Means? ==> InRange(Operate(op, a, b, skip, env).v)
  {}

  /** Whatever was assigned is what the variable then reads as, through its decimal text. */
  lemma ReadBack(x: string, e: Expr, depth: nat, env: Env)
    requires depth < MAX_DEPTH
    ensures Meaning(Then(Set(x, e), Name(x)), false, depth, env) == Meaning(Set(x, e), false, depth, env)
  {
    var d := Meaning(e, false, depth, env);
    if d.Means? {
      MeaningInRange(e, false, depth, env);
      var env1 := Write(false, d.env, x, d.v);
      assert Meaning(Set(x, e), false, depth, env) == Means(d.v, env1);
      ConstantMeans(d.v, depth + 1, env1);
      assert Meaning(Name(x), false, depth, env1) == Means(d.v, env1);
    }
  }

  lemma ConstantMeans(v: int, depth: nat, env: Env)
    requires InRange(v) && depth <= MAX_DEPTH
    ensures Meaning(Constant(v), false, depth, env) == Means(v, env)
  {
    hide Digits, Strlong;
    if v < 0 {
      DecimalNotation(-v);
      assert Meaning(Lit(Digits(-v, 10)), false, depth, env) == Means(Wrap(-v), env);
      assert Wrap(-Wrap(-v)) == v;
    } else {
      DecimalNotation(v);
    }
  }

  /** Variables that name each other in a circle end in the recursion error, from every depth. */
  lemma {:induction false} Circle(circle: set<string>, x: string, depth: nat, env: Env)
    requires depth <= MAX_DEPTH && x in circle
    requires forall y :: y in circle ==> y in env.known && env.known[y].e.Name? && env.known[y].e.x in circle
    ensures Meaning(Name(x), false, depth, env) == Fails(TooDeep, env)
    decreases MAX_DEPTH - depth
  {
    if depth < MAX_DEPTH {
      Circle(circle, env.known[x].e.x, depth + 1, env);
    }
  }

  /** Spaces, tabs and newlines, at least one. */
  predicate White(gap: string) { gap != "" && forall i :: 0 <= i < |gap| ==> gap[i] in {' ', '\t', '\n'} }

  /** Lexemes with white space after each. */
  function Text(xs: Lexemes, gap: string): string {
    match xs
    case Nil => ""
    case Cons(x, tail) => Shown(x) + (gap + Text(tail, gap))
  }

  /** No lexeme of a list starts with white space or is empty. */
  predicate Showable(xs: Lexemes) {
    xs.Cons? ==> Shown(xs.head) != "" && !IsSpace(Shown(xs.head)[0]) && Showable(xs.tail)
  }

  lemma {:induction false} TextSpells(s: string, i: nat, xs: Lexemes, gap: string)
    requires Showable(xs) && White(gap) && At(s, i, Text(xs, gap)) && i + |Text(xs, gap)| == |s|
    ensures Spells(s, i, xs)
    decreases xs
  {
    hide Text, Shown, Spells, At, White;
    if xs.Nil? {
      NothingLeft(s, i, gap);
    } else {
      TextMore(xs, gap);
      var w := Shown(xs.head);
      AtSplit(s, i, w, gap + Text(xs.tail, gap));
      AtSplit(s, i + |w|, gap, Text(xs.tail, gap));
      TextSpells(s, i + |w| + |gap|, xs.tail, gap);
      GapIgnored(s, i + |w|, gap, xs.tail);
      OneMore(s, i, xs.head, xs.tail, gap);
    }
  }

  lemma TextMore(xs: Lexemes, gap: string)
    ensures xs.Cons? ==> Text(xs, gap) == Shown(xs.head) + (gap + Text(xs.tail, gap))
    ensures xs.Nil? ==> Text(xs, gap) == ""
  {}

  lemma NothingLeft(s: string, i: nat, gap: string)
    requires At(s, i, Text(Nil, gap)) && i + |Text(Nil, gap)| == |s|
    ensures Spells(s, i, Nil)
  {}

  /** White space in front of lexemes changes nothing. */
  lemma GapIgnored(s: string, i: nat, gap: string, xs: Lexemes)
    requires White(gap) && At(s, i, gap) && Spells(s, i + |gap|, xs)
    ensures i <= |s| && Spells(s, i, xs)
  {
    hide At, Shown;
    AtBound(s, i, gap);
    forall k | i <= k < i + |gap| ensures IsSpace(s[k]) { AtChar(s, i, gap, k); }
    SpaceRun(s, i, i + |gap|);
  }

  lemma {:induction false} SpaceRun(s: string, i: nat, j: nat)
    requires i <= j <= |s| && forall k :: i <= k < j ==> IsSpace(s[k])
    ensures SkipSpace(s, i) == SkipSpace(s, j)
    decreases j - i
  {
    if i < j { SpaceRun(s, i + 1, j); }
  }

  lemma OneMore(s: string, i: nat, x: Lexeme, xs: Lexemes, gap: string)
    requires Shown(x) != "" && At(s, i, Shown(x)) && !IsSpace(Shown(x)[0]) && White(gap)
    requires At(s, i + |Shown(x)|, gap) && Spells(s, i + |Shown(x)|, xs)
    ensures i <= |s| && Spells(s, i, Cons(x, xs))
  {
    hide Shown, Apart, At;
    var n := i + |Shown(x)|;
    AtChar(s, i, Shown(x), i);
    AtChar(s, n, gap, n);
    AtBound(s, i, Shown(x));
    LastNotSpace(x, s[n]);
    NotSpaced(s, i);
    hide SkipSpace;
    Itselves(s, i, Shown(x));
  }

  lemma NotSpaced(s: string, i: nat)
    requires i < |s| && !IsSpace(s[i])
    ensures SkipSpace(s, i) == i
  {}

  lemma Itselves(s: string, i: nat, w: string)
    requires i + |w| <= |s| && s[i..i + |w|] == w
    ensures At(s, i, w)
  {}

  lemma LastNotSpace(x: Lexeme, c: char)
    requires c in {' ', '\t', '\n'}
    ensures Apart(x, c)
  {
  }

  lemma {:induction false} PrintShowable(e: Expr, k: nat, rest: Lexemes)
    requires WellFormed(e) && Showable(rest)
    ensures Showable(Print(e, k, rest)) && Showable(Bare(e, rest))
    decreases e, 1
  {
    BareShowable(e, rest);
    if Tightness(e) < k {
      BareShowable(e, Cons(Sym(RPar), rest));
    }
  }

  lemma SymbolsShow()
    ensures forall t: Tok :: t !in {End, Str, Num, Cond} ==> Spelling(t) != "" && !IsSpace(Spelling(t)[0])
  {}

  lemma {:induction false} BareShowable(e: Expr, rest: Lexemes)
    requires WellFormed(e) && Showable(rest)
    ensures Showable(Bare(e, rest))
    decreases e, 0
  {
    hide Spelling, Rung, Tightness, IsConstChar, IsNameChar;
    SymbolsShow();
    match e
    case Lit(_) =>
    case Name(_) =>
    case PreOf(_, _) =>
    case PostOf(_, _) =>
    case Un(_, e1) => PrintShowable(e1, 14, rest);
    case Bi(op, l, r) =>
      var k := if op == Power then 13 else Rung(op) + 1;
      PrintShowable(r, k, rest);
      PrintShowable(l, if op == Power then 14 else Rung(op), Cons(Sym(Bin(op)), Print(r, k, rest)));
    case IfElse(c, a, b) =>
      PrintShowable(b, 2, rest);
      PrintShowable(a, 0, Cons(Sym(Col), Print(b, 2, rest)));
      PrintShowable(c, 3, Cons(Sym(Ques), Print(a, 0, Cons(Sym(Col), Print(b, 2, rest)))));
    case Set(_, e1) => PrintShowable(e1, 1, rest);
    case Update(op, _, e1) => PrintShowable(e1, 1, rest);
    case Then(l, r) =>
      PrintShowable(r, 1, rest);
      PrintShowable(l, 0, Cons(Sym(Comma), Print(r, 1, rest)));
    case Paren(e1) => PrintShowable(e1, 0, Cons(Sym(RPar), rest));
  }

  /** The text of a tree, with no parentheses beyond its own and those needed, evaluates to its meaning. */
  lemma PrintedTree(e: Expr, gap: string, store: Store, env: Env)
    requires WellFormed(e) && Renders(store, env) && !Meaning(e, false, 1, env).Unclear? && White(gap)
    ensures SubExpr(Text(Print(e, 0, Nil), gap), 0, store) == Outcome(Meaning(e, false, 1, env))
  {
    hide Spells, Renders, Meaning, SubExpr, Print, Text, White;
    var xs := Print(e, 0, Nil);
    PrintShowable(e, 0, Nil);
    Itself(Text(xs, gap));
    TextSpells(Text(xs, gap), 0, xs, gap);
    TextMeans(e, Text(xs, gap), 0, store, env);
  }

  /** The tree without its own parentheses. */
  function Stripped(e: Expr): Expr {
    match e
    case Un(op, e1) => Un(op, Stripped(e1))
    case Bi(op, l, r) => Bi(op, Stripped(l), Stripped(r))
    case IfElse(c, a, b) => IfElse(Stripped(c), Stripped(a), Stripped(b))
    case Set(x, e1) => Set(x, Stripped(e1))
    case Update(op, x, e1) => Update(op, x, Stripped(e1))
    case Then(l, r) => Then(Stripped(l), Stripped(r))
    case Paren(e1) => Stripped(e1)
    case _ => e
  }

  lemma {:induction false} StrippedMeans(e: Expr, skip: bool, depth: nat, env: Env)
    requires depth <= MAX_DEPTH
    ensures Meaning(Stripped(e), skip, depth, env) == Meaning(e, skip, depth, env)
    decreases e
  {
    hide Operate, UnaryValue, Write, Read, Literal;
    match e
    case Un(_, e1) => StrippedMeans(e1, skip, depth, env);
    case Bi(op, l, r) =>
      StrippedMeans(l, skip, depth, env);
      var d := Meaning(l, skip, depth, env);
      if d.Means? { StrippedMeans(r, skip || Decided(op, d.v), depth, d.env); }
    case IfElse(c, a, b) =>
      StrippedMeans(c, skip, depth, env);
      var d := Meaning(c, skip, depth, env);
      if d.Means? {
        StrippedMeans(a, skip || d.v == 0, depth, d.env);
        var d1 := Meaning(a, skip || d.v == 0, depth, d.env);
        if d1.Means? { StrippedMeans(b, skip || d.v != 0, depth, d1.env); }
      }
    case Set(_, e1) => StrippedMeans(e1, skip, depth, env);
    case Update(_, x, e1) =>
      var d := Read(x, skip, depth, env);
      if d.Means? { StrippedMeans(e1, skip, depth, d.env); }
    case Then(l, r) =>
      StrippedMeans(l, skip, depth, env);
      var d := Meaning(l, skip, depth, env);
      if d.Means? { StrippedMeans(r, skip, depth, d.env); }
    case Paren(e1) => StrippedMeans(e1, skip, depth, env);
    case _ =>
  }

  /** Texts that spell the same tree up to redundant parentheses give equal answers and equal stores. */
  lemma RedundantParens(e: Expr, e': Expr, s: string, t: string, store: Store, env: Env)
    requires WellFormed(e) && WellFormed(e') && Stripped(e) == Stripped(e') && Renders(store, env)
    requires Spells(s, 0, Print(e, 0, Nil)) && Spells(t, 0, Print(e', 0, Nil))
    requires !Meaning(e, false, 1, env).Unclear?
    ensures SubExpr(s, 0, store) == SubExpr(t, 0, store)
  {
    hide Spells, Renders, Meaning, SubExpr, WellFormed, Print, Stripped;
    StrippedMeans(e, false, 1, env);
    StrippedMeans(e', false, 1, env);
    TextMeans(e, s, 0, store, env);
    TextMeans(e', t, 0, store, env);
  }

  /** Every name the tree reads is readable; the target of `=` is not read. */
  predicate Reads(e: Expr, env: Env) {
    match e
    case Lit(_) => true
    case Name(x) => Readable(x, env)
    case PreOf(_, x) => Readable(x, env)
    case PostOf(_, x) => Readable(x, env)
    case Un(_, e1) => Reads(e1, env)
    case Bi(_, l, r) => Reads(l, env) && Reads(r, env)
    case IfElse(c, a, b) => Reads(c, env) && Reads(a, env) && Reads(b, env)
    case Set(_, e1) => Reads(e1, env)
    case Update(_, x, e1) => Readable(x, env) && Reads(e1, env)
    case Then(l, r) => Reads(l, env) && Reads(r, env)
    case Paren(e1) => Reads(e1, env)
  }

  /** The expressions that variables hold read only readable names. */
  ghost predicate Settled(env: Env) {
    forall x :: x in env.known ==> Reads(env.known[x].e, env)
  }

  /** More is known, and the rest is the same. */
  ghost predicate Grows(env: Env, env': Env) {
    env.known.Keys <= env'.known.Keys && env'.other == env.other && Settled(env')
  }

  lemma {:induction false} ReadsMore(e: Expr, env: Env, env': Env)
    requires Reads(e, env) && env.known.Keys <= env'.known.Keys && env'.other == env.other
    ensures Reads(e, env')
  {
    match e
    case Un(_, e1) => ReadsMore(e1, env, env');
    case Bi(_, l, r) => ReadsMore(l, env, env'); ReadsMore(r, env, env');
    case IfElse(c, a, b) => ReadsMore(c, env, env'); ReadsMore(a, env, env'); ReadsMore(b, env, env');
    case Set(_, e1) => ReadsMore(e1, env, env');
    case Update(_, _, e1) => ReadsMore(e1, env, env');
    case Then(l, r) => ReadsMore(l, env, env'); ReadsMore(r, env, env');
    case Paren(e1) => ReadsMore(e1, env, env');
    case _ =>
  }

  lemma WriteGrows(skip: bool, env: Env, x: string, v: int)
    requires Settled(env)
    ensures Grows(env, Write(skip, env, x, v))
  {
    hide Reads, Itos;
    var env' := Write(skip, env, x, v);
    ConstantReads(v, env');
    forall y | y in env'.known ensures Reads(env'.known[y].e, env') {
      if y in env.known { ReadsMore(env.known[y].e, env, env'); }
    }
  }

  lemma ConstantReads(v: int, env: Env)
    ensures Reads(Constant(v), env)
  {
    assert v < 0 ==> Reads(Lit(Digits(-v, 10)), env);
  }

  /** Where every name that can be read is readable, the meaning is clear; nothing need be run to see that. */
  lemma {:induction false} ReadableIsClear(e: Expr, skip: bool, depth: nat, env: Env)
    requires depth <= MAX_DEPTH && Reads(e, env) && Settled(env)
    ensures var d := Meaning(e, skip, depth, env); !d.Unclear? && Grows(env, d.env)
    decreases MAX_DEPTH - depth, 1, e
  {
    hide Operate, UnaryValue, Write, Readable, Literal, Settled;
    match e
    case Lit(c) => LiteralGrows(c, env);
    case Name(x) => ReadIsClear(x, skip, depth, env);
    case PreOf(inc, x) => StepIsClear(inc, x, skip, depth, env);
    case PostOf(inc, x) => StepIsClear(inc, x, skip, depth, env);
    case Un(_, e1) => ReadableIsClear(e1, skip, depth, env);
    case Bi(op, l, r) =>
      ReadableIsClear(l, skip, depth, env);
      var d := Meaning(l, skip, depth, env);
      if d.Means? {
        ReadsMore(r, env, d.env);
        ReadableIsClear(r, skip || Decided(op, d.v), depth, d.env);
        var d2 := Meaning(r, skip || Decided(op, d.v), depth, d.env);
        if d2.Means? { OperateKeeps(op, d.v, d2.v, skip, d2.env); }
      }
    case IfElse(c, a, b) =>
      ReadableIsClear(c, skip, depth, env);
      var d := Meaning(c, skip, depth, env);
      if d.Means? {
        ReadsMore(a, env, d.env);
        ReadableIsClear(a, skip || d.v == 0, depth, d.env);
        var d1 := Meaning(a, skip || d.v == 0, depth, d.env);
        if d1.Means? {
          ReadsMore(b, env, d1.env);
          ReadableIsClear(b, skip || d.v != 0, depth, d1.env);
        }
      }
    case Set(x, e1) =>
      ReadableIsClear(e1, skip, depth, env);
      var d := Meaning(e1, skip, depth, env);
      if d.Means? { WriteGrows(skip, d.env, x, d.v); }
    case Update(_, _, _) => UpdateIsClear(e, skip, depth, env);
    case Then(l, r) =>
      ReadableIsClear(l, skip, depth, env);
      var d := Meaning(l, skip, depth, env);
      if d.Means? {
        ReadsMore(r, env, d.env);
        ReadableIsClear(r, skip, depth, d.env);
      }
    case Paren(e1) => ReadableIsClear(e1, skip, depth, env);
  }

  lemma LiteralGrows(c: string, env: Env)
    requires Settled(env)
    ensures var d := Literal(c, env); !d.Unclear? && Grows(env, d.env)
  {}

  lemma {:induction false} StepIsClear(inc: bool, x: string, skip: bool, depth: nat, env: Env)
    requires depth <= MAX_DEPTH && Readable(x, env) && Settled(env)
    ensures var d := Meaning(PreOf(inc, x), skip, depth, env); !d.Unclear? && Grows(env, d.env)
    ensures var d := Meaning(PostOf(inc, x), skip, depth, env); !d.Unclear? && Grows(env, d.env)
    decreases MAX_DEPTH - depth, 0, 1
  {
    hide Write, Settled, Readable;
    ReadIsClear(x, skip, depth, env);
    var d := Read(x, skip, depth, env);
    if d.Means? { WriteGrows(skip, d.env, x, Step(inc, d.v)); }
  }

  lemma {:induction false} UpdateIsClear(u: Expr, skip: bool, depth: nat, env: Env)
    requires u.Update? && depth <= MAX_DEPTH && Reads(u, env) && Settled(env)
    ensures var d := Meaning(u, skip, depth, env); !d.Unclear? && Grows(env, d.env)
    decreases MAX_DEPTH - depth, 1, u, 0
  {
    hide Write, Operate, Readable, Settled;
    ReadIsClear(u.x, skip, depth, env);
    var d := Read(u.x, skip, depth, env);
    if d.Means? {
      ReadsMore(u.e, env, d.env);
      ReadableIsClear(u.e, skip, depth, d.env);
      var d2 := Meaning(u.e, skip, depth, d.env);
      if d2.Means? {
        OperateKeeps(u.op, d.v, d2.v, skip, d2.env);
        var d3 := Operate(u.op, d.v, d2.v, skip, d2.env);
        if d3.Means? { WriteGrows(skip, d3.env, u.x, d3.v); }
      }
    }
  }

  lemma {:induction false} ReadIsClear(x: string, skip: bool, depth: nat, env: Env)
    requires depth <= MAX_DEPTH && Readable(x, env) && Settled(env)
    ensures var d := Read(x, skip, depth, env); !d.Unclear? && Grows(env, d.env)
    decreases MAX_DEPTH - depth, 0, 0
  {
    if !skip && x in env.known && depth < MAX_DEPTH {
      ReadableIsClear(env.known[x].e, false, depth + 1, env);
    }
  }

  /** Every name in the tree belongs to ns. */
  predicate Mentions(e: Expr, ns: set<string>) {
    match e
    case Lit(_) => true
    case Name(x) => x in ns
    case PreOf(_, x) => x in ns
    case PostOf(_, x) => x in ns
    case Un(_, e1) => Mentions(e1, ns)
    case Bi(_, l, r) => Mentions(l, ns) && Mentions(r, ns)
    case IfElse(c, a, b) => Mentions(c, ns) && Mentions(a, ns) && Mentions(b, ns)
    case Set(x, e1) => x in ns && Mentions(e1, ns)
    case Update(_, x, e1) => x in ns && Mentions(e1, ns)
    case Then(l, r) => Mentions(l, ns) && Mentions(r, ns)
    case Paren(e1) => Mentions(e1, ns)
  }

  /** The expressions of the names in ns mention only names in ns. */
  ghost predicate ClosedNames(env: Env, ns: set<string>) {
    forall x :: x in ns && x in env.known ==> Mentions(env.known[x].e, ns)
  }

  /** Outside ns the two environments agree. */
  ghost predicate SameOutside(env: Env, env': Env, ns: set<string>) {
    env'.other == env.other &&
    forall x :: x !in ns ==> (x in env.known <==> x in env'.known) && (x in env.known ==> env.known[x] == env'.known[x])
  }

  /** What evaluation may do to variables: nothing outside the names it mentions, directly or through variables. */
  ghost predicate Keeps(env: Env, env': Env, ns: set<string>) {
    SameOutside(env, env', ns) && ClosedNames(env', ns)
  }

  lemma WriteKeeps(skip: bool, env: Env, x: string, v: int, ns: set<string>)
    requires x in ns && ClosedNames(env, ns)
    ensures Keeps(env, Write(skip, env, x, v), ns)
  {
    assert v < 0 ==> Mentions(Lit(Digits(-v, 10)), ns);
  }

  lemma KeepsTrans(env: Env, env1: Env, env2: Env, ns: set<string>)
    requires Keeps(env, env1, ns) && Keeps(env1, env2, ns)
    ensures Keeps(env, env2, ns)
  {
    hide Mentions;
  }

  lemma KeepsSelf(env: Env, ns: set<string>)
    requires ClosedNames(env, ns)
    ensures Keeps(env, env, ns)
  {
    hide Mentions;
  }

  lemma {:induction false} Confined(e: Expr, skip: bool, depth: nat, env: Env, ns: set<string>)
    requires depth <= MAX_DEPTH && Mentions(e, ns) && ClosedNames(env, ns)
    ensures Keeps(env, Meaning(e, skip, depth, env).env, ns)
    decreases MAX_DEPTH - depth, 1, e
  {
    hide Operate, UnaryValue, Wrap, Write, SameOutside, ClosedNames;
    match e
    case Lit(_) => KeepsSelf(env, ns);
    case Name(x) => ReadConfined(x, skip, depth, env, ns);
    case PreOf(inc, x) => StepConfined(inc, x, skip, depth, env, ns);
    case PostOf(inc, x) => StepConfined(inc, x, skip, depth, env, ns);
    case Un(_, e1) => Confined(e1, skip, depth, env, ns);
    case Bi(op, l, r) =>
      Confined(l, skip, depth, env, ns);
      var d := Meaning(l, skip, depth, env);
      if d.Means? {
        Confined(r, skip || Decided(op, d.v), depth, d.env, ns);
        var d2 := Meaning(r, skip || Decided(op, d.v), depth, d.env);
        if d2.Means? { OperateKeeps(op, d.v, d2.v, skip, d2.env); }
        KeepsTrans(env, d.env, d2.env, ns);
      }
    case IfElse(_, _, _) => IfConfined(e, skip, depth, env, ns);
    case Set(x, e1) =>
      Confined(e1, skip, depth, env, ns);
      var d := Meaning(e1, skip, depth, env);
      if d.Means? {
        WriteKeeps(skip, d.env, x, d.v, ns);
        KeepsTrans(env, d.env, Write(skip, d.env, x, d.v), ns);
      }
    case Update(_, _, _) => UpdateConfined(e, skip, depth, env, ns);
    case Then(l, r) =>
      Confined(l, skip, depth, env, ns);
      var d := Meaning(l, skip, depth, env);
      if d.Means? {
        Confined(r, skip, depth, d.env, ns);
        KeepsTrans(env, d.env, Meaning(r, skip, depth, d.env).env, ns);
      }
    case Paren(e1) => Confined(e1, skip, depth, env, ns);
  }

  lemma {:induction false} IfConfined(e: Expr, skip: bool, depth: nat, env: Env, ns: set<string>)
    requires e.IfElse? && depth <= MAX_DEPTH && Mentions(e, ns) && ClosedNames(env, ns)
    ensures Keeps(env, Meaning(e, skip, depth, env).env, ns)
    decreases MAX_DEPTH - depth, 1, e, 0
  {
    hide SameOutside, ClosedNames;
    Confined(e.c, skip, depth, env, ns);
    var d := Meaning(e.c, skip, depth, env);
    if d.Means? {
      Confined(e.a, skip || d.v == 0, depth, d.env, ns);
      var d1 := Meaning(e.a, skip || d.v == 0, depth, d.env);
      KeepsTrans(env, d.env, d1.env, ns);
      if d1.Means? {
        Confined(e.b, skip || d.v != 0, depth, d1.env, ns);
        KeepsTrans(env, d1.env, Meaning(e.b, skip || d.v != 0, depth, d1.env).env, ns);
      }
    }
  }

  lemma OperateKeeps(op: BinOp, a: int, b: int, skip: bool, env: Env)
    ensures Operate(op, a, b, skip, env).env == env && !Operate(op, a, b, skip, env).Unclear?
  {}

  lemma {:induction false} StepConfined(inc: bool, x: string, skip: bool, depth: nat, env: Env, ns: set<string>)
    requires depth <= MAX_DEPTH && x in ns && ClosedNames(env, ns)
    ensures Keeps(env, Meaning(PreOf(inc, x), skip, depth, env).env, ns)
    ensures Keeps(env, Meaning(PostOf(inc, x), skip, depth, env).env, ns)
    decreases MAX_DEPTH - depth, 0, 1
  {
    hide Write;
    ReadConfined(x, skip, depth, env, ns);
    var d := Read(x, skip, depth, env);
    if d.Means? { WriteKeeps(skip, d.env, x, Step(inc, d.v), ns); }
  }

  lemma {:induction false} UpdateConfined(u: Expr, skip: bool, depth: nat, env: Env, ns: set<string>)
    requires u.Update? && depth <= MAX_DEPTH && Mentions(u, ns) && ClosedNames(env, ns)
    ensures Keeps(env, Meaning(u, skip, depth, env).env, ns)
    decreases MAX_DEPTH - depth, 1, u, 0
  {
    hide Write, Operate;
    ReadConfined(u.x, skip, depth, env, ns);
    var d := Read(u.x, skip, depth, env);
    if d.Means? {
      Confined(u.e, skip, depth, d.env, ns);
      var d2 := Meaning(u.e, skip, depth, d.env);
      if d2.Means? {
        OperateKeeps(u.op, d.v, d2.v, skip, d2.env);
        var d3 := Operate(u.op, d.v, d2.v, skip, d2.env);
        if d3.Means? { WriteKeeps(skip, d3.env, u.x, d3.v, ns); }
      }
    }
  }

  lemma {:induction false} ReadConfined(x: string, skip: bool, depth: nat, env: Env, ns: set<string>)
    requires depth <= MAX_DEPTH && x in ns && ClosedNames(env, ns)
    ensures Keeps(env, Read(x, skip, depth, env).env, ns)
    decreases MAX_DEPTH - depth, 0, 0
  {
    if !skip && x in env.known && depth < MAX_DEPTH {
      Confined(env.known[x].e, false, depth + 1, env, ns);
    }
  }

  /** Evaluating a text leaves every shell variable outside a closed set of its names exactly as it was. */
  lemma OthersUnchanged(e: Expr, text: string, store: Store, env: Env, ns: set<string>, x: string)
    requires WellFormed(e) && Spells(text, 0, Print(e, 0, Nil)) && Renders(store, env)
    requires !Meaning(e, false, 1, env).Unclear?
    requires Mentions(e, ns) && ClosedNames(env, ns) && x !in ns
    ensures var store' := SubExpr(text, 0, store).store;
            (x in store' <==> x in store) && (x in store ==> store'[x] == store[x])
  {
    hide Spells, Meaning, SubExpr, Spelled, Print, WellFormed, Mentions, ClosedNames;
    TextMeans(e, text, 0, store, env);
    Confined(e, false, 1, env, ns);
  }
}
