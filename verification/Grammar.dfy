/**
 The grammar of arithmetic expressions, written out phrase by phrase, with the precedence of the
 binary operators as a plain list. Nothing here uses the rungs of the evaluator or the printer of trees.
 */
module Grammar {
  import opened Int64
  import opened Numerals
  import opened Tokens
  import opened Operators
  import opened Ladder
  import opened Expressions
  import opened Strings
  import Faithful
  import ExprLaws

  /** A number, a name, `++x`, `x++`, or anything in parentheses. */
  datatype Atom =
    | Const(c: string)
    | Variable(x: string)
    | Before(inc: bool, x: string)
    | After(inc: bool, x: string)
    | Inside(list: List)

  /** An atom behind any number of unary operators. */
  datatype Signed = Plain(a: Atom) | Sign(op: UnaryOp, s: Signed)

  /** Operands with binary operators between them. */
  datatype Chain = Last(s: Signed) | More(s: Signed, op: BinOp, rest: Chain)

  datatype Choice = Just(c: Chain) | Ask(c: Chain, yes: List, no: Choice)

  datatype Assignment = Only(c: Choice) | Give(x: string, a: Assignment) | Change(op: BinOp, x: string, a: Assignment)

  datatype List = Single(a: Assignment) | Also(first: List, a: Assignment)

  /** The binary operators from the loosest to the tightest; those of one line bind alike. */
  function Levels(): (ls: seq<set<BinOp>>)
    ensures |ls| == 11
  {
    [ {LOr},
      {LAnd},
      {BOr},
      {BXor},
      {BAnd},
      {EqEq, Neq},
      {Leq, Geq, Lt, Gt},
      {Lsh, Rsh},
      {Plus, Minus},
      {Mul, Div, Mod},
      {Power}]
  }

  function LevelFrom(op: BinOp, k: nat): (j: nat)
    requires k <= |Levels()|
    decreases |Levels()| - k
  {
    if k == |Levels()| || op in Levels()[k] then k else LevelFrom(op, k + 1)
  }

  /** The line of the list that holds the operator. */
  function Level(op: BinOp): nat { LevelFrom(op, 0) }

  /** The operator that splits a chain: the last of the loosest ones, but the first if they are `**`. */
  function SplitAt(ops: seq<BinOp>): (i: nat)
    requires ops != []
    ensures i < |ops|
  {
    if |ops| == 1 then 0
    else
      var n := |ops| - 1;
      var i := SplitAt(ops[..n]);
      if Level(ops[n]) < Level(ops[i]) || (Level(ops[n]) == Level(ops[i]) && ops[n] != Power) then n else i
  }

  predicate Splits(ops: seq<BinOp>, i: nat) {
    && i < |ops|
    && (forall j :: 0 <= j < |ops| ==> Level(ops[i]) <= Level(ops[j]))
    && (if ops[i] == Power then i == 0 else forall j :: i < j < |ops| ==> Level(ops[i]) < Level(ops[j]))
  }

  lemma {:induction false} SplitRight(ops: seq<BinOp>)
    requires ops != []
    ensures Splits(ops, SplitAt(ops))
  {
    hide Level;
    var n := |ops| - 1;
    if n > 0 {
      var i := SplitAt(ops[..n]);
      SplitRight(ops[..n]);
      assert forall j :: 0 <= j < n ==> ops[..n][j] == ops[j];
      LevelIsRung(ops[n]);
      LevelIsRung(ops[i]);
      forall j | 0 <= j < n ensures Level(ops[i]) <= Level(ops[j]) { assert ops[..n][j] == ops[j]; }
      forall j | 0 <= j < n ensures ops[j] == Power ==> Level(ops[j]) == 10 { LevelIsRung(ops[j]); }
      PowerAlone(ops[n]);
      PowerAlone(ops[i]);
    }
  }

  lemma PowerAlone(op: BinOp)
    ensures op == Power <==> Rung(op) == 13
    ensures Rung(op) <= 13
  {}

  /** Where the list has each operator. */
  lemma Listed(op: BinOp, k: nat)
    requires k < 11
    ensures op in Levels()[k] <==> Rung(op) == 3 + k
  {}

  lemma {:induction false} LevelFound(op: BinOp, k: nat)
    requires 3 + k <= Rung(op) <= 13
    ensures LevelFrom(op, k) == Rung(op) - 3
    decreases 11 - k
  {
    hide Levels, Rung;
    Listed(op, k);
    if Rung(op) > 3 + k { LevelFound(op, k + 1); }
  }

  /** The order of the list is that of the rungs. */
  lemma LevelIsRung(op: BinOp)
    ensures Rung(op) == 3 + Level(op)
  {
    hide Levels, LevelFrom;
    LevelFound(op, 0);
  }

  /** The tree of a chain of operands. */
  function Grouped(es: seq<Expr>, ops: seq<BinOp>): Expr
    requires |es| == |ops| + 1
    decreases |ops|
  {
    if ops == [] then es[0]
    else
      var i := SplitAt(ops);
      Bi(ops[i], Grouped(es[..i + 1], ops[..i]), Grouped(es[i + 1..], ops[i + 1..]))
  }

  function Operands(c: Chain): (es: seq<Expr>)
    ensures |es| == |Ops(c)| + 1
    decreases c, 0
  {
    match c
    case Last(s) => [SignedTree(s)]
    case More(s, _, rest) => [SignedTree(s)] + Operands(rest)
  }

  function Ops(c: Chain): seq<BinOp> {
    match c
    case Last(_) => []
    case More(_, op, rest) => [op] + Ops(rest)
  }

  /** The trees that phrases stand for. */
  function AtomTree(a: Atom): Expr
    decreases a, 0
  {
    match a
    case Const(c) => Lit(c)
    case Variable(x) => Name(x)
    case Before(inc, x) => PreOf(inc, x)
    case After(inc, x) => PostOf(inc, x)
    case Inside(l) => Paren(ListTree(l))
  }

  function SignedTree(s: Signed): Expr
    decreases s, 0
  {
    match s
    case Plain(a) => AtomTree(a)
    case Sign(op, s1) => Un(op, SignedTree(s1))
  }

  function ChainTree(c: Chain): Expr
    decreases c, 1
  {
    Grouped(Operands(c), Ops(c))
  }

  function ChoiceTree(c: Choice): Expr
    decreases c, 0
  {
    match c
    case Just(ch) => ChainTree(ch)
    case Ask(ch, yes, no) => IfElse(ChainTree(ch), ListTree(yes), ChoiceTree(no))
  }

  function AssignmentTree(a: Assignment): Expr
    decreases a, 0
  {
    match a
    case Only(c) => ChoiceTree(c)
    case Give(x, a1) => Set(x, AssignmentTree(a1))
    case Change(op, x, a1) => Update(op, x, AssignmentTree(a1))
  }

  function ListTree(l: List): Expr
    decreases l, 0
  {
    match l
    case Single(a) => AssignmentTree(a)
    case Also(first, a) => Then(ListTree(first), AssignmentTree(a))
  }

  /** The lexemes of phrases, followed by `rest`. */
  function AtomLexemes(a: Atom, rest: Lexemes): Lexemes
    decreases a, 0
  {
    match a
    case Const(c) => Cons(Numeral(c), rest)
    case Variable(x) => Cons(Word(x), rest)
    case Before(inc, x) => Cons(Sym(if inc then PreInc else PreDec), Cons(Word(x), rest))
    case After(inc, x) => Cons(Word(x), Cons(Sym(if inc then PostInc else PostDec), rest))
    case Inside(l) => Cons(Sym(LPar), ListLexemes(l, Cons(Sym(RPar), rest)))
  }

  function SignedLexemes(s: Signed, rest: Lexemes): Lexemes
    decreases s, 0
  {
    match s
    case Plain(a) => AtomLexemes(a, rest)
    case Sign(op, s1) => Cons(Sym(SignTok(op)), SignedLexemes(s1, rest))
  }

  function SignTok(op: UnaryOp): Tok {
    match op
    case LogicalNot => Not
    case Complement => BNot
    case Negate => Bin(Minus)
    case Identity => Bin(Plus)
  }

  function ChainLexemes(c: Chain, rest: Lexemes): Lexemes
    decreases c, 0
  {
    match c
    case Last(s) => SignedLexemes(s, rest)
    case More(s, op, c1) => SignedLexemes(s, Cons(Sym(Bin(op)), ChainLexemes(c1, rest)))
  }

  function ChoiceLexemes(c: Choice, rest: Lexemes): Lexemes
    decreases c, 0
  {
    match c
    case Just(ch) => ChainLexemes(ch, rest)
    case Ask(ch, yes, no) =>
      ChainLexemes(ch, Cons(Sym(Ques), ListLexemes(yes, Cons(Sym(Col), ChoiceLexemes(no, rest)))))
  }

  function AssignmentLexemes(a: Assignment, rest: Lexemes): Lexemes
    decreases a, 0
  {
    match a
    case Only(c) => ChoiceLexemes(c, rest)
    case Give(x, a1) => Cons(Word(x), Cons(Sym(Eq), AssignmentLexemes(a1, rest)))
    case Change(op, x, a1) => Cons(Word(x), Cons(Sym(OpAssign(op)), AssignmentLexemes(a1, rest)))
  }

  function ListLexemes(l: List, rest: Lexemes): Lexemes
    decreases l, 0
  {
    match l
    case Single(a) => AssignmentLexemes(a, rest)
    case Also(first, a) => ListLexemes(first, Cons(Sym(Comma), AssignmentLexemes(a, rest)))
  }

  /** Operands and operators printed one after the other. */
  function Row(es: seq<Expr>, ops: seq<BinOp>, rest: Lexemes): Lexemes
    requires |es| == |ops| + 1
    decreases |ops|
  {
    Print(es[0], 14, if ops == [] then rest else Cons(Sym(Bin(ops[0])), Row(es[1..], ops[1..], rest)))
  }

  lemma {:induction false} RowSplit(es: seq<Expr>, ops: seq<BinOp>, i: nat, rest: Lexemes)
    requires |es| == |ops| + 1 && i < |ops|
    ensures Row(es, ops, rest) ==
            Row(es[..i + 1], ops[..i], Cons(Sym(Bin(ops[i])), Row(es[i + 1..], ops[i + 1..], rest)))
    decreases i
  {
    hide Print;
    if i > 0 {
      RowSplit(es[1..], ops[1..], i - 1, rest);
      assert es[1..][i..] == es[i + 1..] && ops[1..][i..] == ops[i + 1..];
      assert es[1..][..i] == es[..i + 1][1..] && ops[1..][..i - 1] == ops[..i][1..];
    }
  }

  ghost predicate Tight(es: seq<Expr>) { forall e <- es :: Tightness(e) >= 14 }

  /** A chain is printed without parentheses wherever its loosest operator is tight enough. */
  lemma {:induction false} GroupedPrints(es: seq<Expr>, ops: seq<BinOp>, k: nat, rest: Lexemes)
    requires |es| == |ops| + 1 && Tight(es) && k <= 14
    requires forall op <- ops :: 3 + Level(op) >= k
    ensures Print(Grouped(es, ops), k, rest) == Row(es, ops, rest)
    decreases |ops|
  {
    hide Level, Print, Rung, Row, Tightness, SplitAt;
    if ops == [] {
      assert es == [es[0]];
      SinglePrints(es[0], k, rest);
    } else {
      var i := SplitAt(ops);
      var op := ops[i];
      SplitRight(ops);
      RowSplit(es, ops, i, rest);
      var before, after := ops[..i], ops[i + 1..];
      var l, r := Grouped(es[..i + 1], before), Grouped(es[i + 1..], after);
      var tail := Row(es[i + 1..], after, rest);
      LevelIsRung(op);
      PowerAlone(op);
      assert op in ops;
      forall o <- before ensures Level(o) >= Level(op) { assert o in ops; }
      forall o <- after ensures Level(o) >= if op == Power then Level(op) else Level(op) + 1 {
        LaterTighter(ops, i, o);
      }
      GroupedPrints(es[..i + 1], before, if op == Power then 14 else Rung(op), Cons(Sym(Bin(op)), tail));
      GroupedPrints(es[i + 1..], after, if op == Power then 13 else Rung(op) + 1, rest);
      PairPrints(op, l, r, k, rest);
    }
  }

  lemma LaterTighter(ops: seq<BinOp>, i: nat, o: BinOp)
    requires Splits(ops, i) && o in ops[i + 1..]
    ensures Level(o) >= if ops[i] == Power then Level(ops[i]) else Level(ops[i]) + 1
  {
    hide Level;
    var j :| 0 <= j < |ops| - i - 1 && ops[i + 1..][j] == o;
    assert ops[i + 1 + j] == o;
  }

  lemma SinglePrints(e: Expr, k: nat, rest: Lexemes)
    requires Tightness(e) >= 14 >= k
    ensures Print(e, k, rest) == Row([e], [], rest) && Row([e], [], rest) == Bare(e, rest)
  {}

  lemma PairPrints(op: BinOp, l: Expr, r: Expr, k: nat, rest: Lexemes)
    requires Rung(op) >= k
    ensures Print(Bi(op, l, r), k, rest) ==
            Print(l, if op == Power then 14 else Rung(op),
                  Cons(Sym(Bin(op)), Print(r, if op == Power then 13 else Rung(op) + 1, rest)))
  {}

  lemma {:induction false} OperandsTight(c: Chain)
    ensures Tight(Operands(c))
  {
    hide Tightness;
    SignedTight(c.s);
    if c.More? { OperandsTight(c.rest); }
  }

  lemma SignedTight(s: Signed)
    ensures Tightness(SignedTree(s)) >= 14
  {}

  lemma {:induction false} AtomPrints(a: Atom, k: nat, rest: Lexemes)
    requires k <= 15
    ensures Print(AtomTree(a), k, rest) == AtomLexemes(a, rest) && Tightness(AtomTree(a)) == 15
    decreases a, 0
  {
    if a.Inside? { ListPrints(a.list, Cons(Sym(RPar), rest)); }
  }

  lemma {:induction false} SignedPrints(s: Signed, k: nat, rest: Lexemes)
    requires k <= 14
    ensures Print(SignedTree(s), k, rest) == SignedLexemes(s, rest)
    decreases s, 0
  {
    match s
    case Plain(a) => AtomPrints(a, k, rest);
    case Sign(_, s1) => SignedPrints(s1, 14, rest);
  }

  lemma {:induction false} ChainRow(c: Chain, rest: Lexemes)
    ensures Row(Operands(c), Ops(c), rest) == ChainLexemes(c, rest)
    decreases c, 0
  {
    hide Print;
    match c
    case Last(s) => SignedPrints(s, 14, rest);
    case More(s, op, c1) =>
      ChainRow(c1, rest);
      assert Operands(c)[1..] == Operands(c1) && Ops(c)[1..] == Ops(c1);
      SignedPrints(s, 14, Cons(Sym(Bin(op)), ChainLexemes(c1, rest)));
  }

  lemma {:induction false} ChainPrints(c: Chain, k: nat, rest: Lexemes)
    requires k <= 3
    ensures Print(ChainTree(c), k, rest) == ChainLexemes(c, rest)
    decreases c, 1
  {
    hide Print, Level;
    OperandsTight(c);
    GroupedPrints(Operands(c), Ops(c), k, rest);
    ChainRow(c, rest);
  }

  lemma {:induction false} ChoicePrints(c: Choice, k: nat, rest: Lexemes)
    requires k <= 2
    ensures Print(ChoiceTree(c), k, rest) == ChoiceLexemes(c, rest)
    decreases c, 0
  {
    match c
    case Just(ch) => ChainPrints(ch, k, rest);
    case Ask(ch, yes, no) =>
      ChoicePrints(no, 2, rest);
      ListPrints(yes, Cons(Sym(Col), ChoiceLexemes(no, rest)));
      ChainPrints(ch, 3, Cons(Sym(Ques), ListLexemes(yes, Cons(Sym(Col), ChoiceLexemes(no, rest)))));
  }

  lemma {:induction false} AssignmentPrints(a: Assignment, k: nat, rest: Lexemes)
    requires k <= 1
    ensures Print(AssignmentTree(a), k, rest) == AssignmentLexemes(a, rest)
    decreases a, 0
  {
    match a
    case Only(c) => ChoicePrints(c, k, rest);
    case Give(_, a1) => AssignmentPrints(a1, 1, rest);
    case Change(_, _, a1) => AssignmentPrints(a1, 1, rest);
  }

  lemma {:induction false} ListPrints(l: List, rest: Lexemes)
    ensures Print(ListTree(l), 0, rest) == ListLexemes(l, rest)
    decreases l, 0
  {
    match l
    case Single(a) => AssignmentPrints(a, 0, rest);
    case Also(first, a) =>
      AssignmentPrints(a, 1, rest);
      ListPrints(first, Cons(Sym(Comma), AssignmentLexemes(a, rest)));
  }

  /**
   Every text of the grammar evaluates to the meaning of its tree: operands grouped by the list of
   levels, from the left but for `**`, then `?:`, then assignments from the right, then commas.
   */
  lemma GrammarMeans(l: List, text: string, store: Store, env: Env)
    requires WellFormed(ListTree(l)) && Spells(text, 0, ListLexemes(l, Nil)) && Renders(store, env)
    requires !Meaning(ListTree(l), false, 1, env).Unclear?
    ensures SubExpr(text, 0, store) == Outcome(Meaning(ListTree(l), false, 1, env))
  {
    hide Spells, Renders, Meaning, SubExpr, Print, ListTree, ListLexemes, WellFormed;
    ListPrints(l, Nil);
    Faithful.TextMeans(ListTree(l), text, 0, store, env);
  }

  /** Two operators: the tighter takes its operands first, and of two alike the left one, but of two `**` the right. */
  lemma TwoOperators(a: Expr, op: BinOp, b: Expr, op': BinOp, c: Expr)
    ensures Grouped([a, b, c], [op, op']) ==
            if Level(op) < Level(op') || op == op' == Power then Bi(op, a, Bi(op', b, c)) else Bi(op', Bi(op, a, b), c)
  {
    hide Level;
    var es, ops := [a, b, c], [op, op'];
    assert ops[..1] == [op] && SplitAt([op]) == 0;
    PowersAlike(op, op');
    OneOperator(b, op', c);
    OneOperator(a, op, b);
    assert es[1..] == [b, c] && ops[1..] == [op'] && es[..1] == [a] && ops[..0] == [];
    assert es[..2] == [a, b] && es[2..] == [c] && ops[2..] == [];
  }

  lemma PowersAlike(op: BinOp, op': BinOp)
    ensures op' == Power ==> Level(op) <= Level(op') && (Level(op) == Level(op') <==> op == Power)
  {
    LevelIsRung(op);
    LevelIsRung(op');
    PowerAlone(op);
  }

  lemma OneOperator(a: Expr, op: BinOp, b: Expr)
    ensures Grouped([a, b], [op]) == Bi(op, a, b)
  {
    hide Level;
    var es, ops := [a, b], [op];
    assert es[..1] == [a] && ops[..0] == [] && es[1..] == [b] && ops[1..] == [];
  }

  /** Two numbers with an operator between them, written without spaces. */
  lemma Infix(op: BinOp, store: Store)
    ensures SubExpr("7" + OpText(op) + "2", 0, store) == Value(BinaryValue(op, 7, 2), store)
  {
    hide SubExpr, OpText, BinaryValue;
    var text, env := "7" + OpText(op) + "2", Env(map[], store);
    var l := Single(Only(Just(More(Plain(Const("7")), op, Last(Plain(Const("2")))))));
    InfixTree(op);
    InfixSpells(op);
    InfixMeans(op, env);
    Faithful.AnyStore(store);
    assert store + map[] == store;
    GrammarMeans(l, text, store, env);
  }

  lemma InfixTree(op: BinOp)
    ensures var l := Single(Only(Just(More(Plain(Const("7")), op, Last(Plain(Const("2")))))));
            && ListTree(l) == Bi(op, Lit("7"), Lit("2")) && WellFormed(Bi(op, Lit("7"), Lit("2")))
            && ListLexemes(l, Nil) == Cons(Numeral("7"), Cons(Sym(Bin(op)), Cons(Numeral("2"), Nil)))
  {
    hide Grouped;
    var rest := Last(Plain(Const("2")));
    assert Operands(rest) == [Lit("2")] && Ops(rest) == [];
    assert Operands(More(Plain(Const("7")), op, rest)) == [Lit("7"), Lit("2")];
    assert Ops(More(Plain(Const("7")), op, rest)) == [op];
    OneOperator(Lit("7"), op, Lit("2"));
    assert WellFormed(Lit("7")) && WellFormed(Lit("2"));
  }

  lemma InfixSpells(op: BinOp)
    ensures Spells("7" + OpText(op) + "2", 0, Cons(Numeral("7"), Cons(Sym(Bin(op)), Cons(Numeral("2"), Nil))))
  {
    hide Spells, OpText, SkipSpace;
    var t := OpText(op);
    var s, n := "7" + t + "2", 1 + |t|;
    assert s[n..] == "2" && s[1..n] == t && s[0..1] == "7" && s[n] == '2' && s[1] == t[0] && s[n - 1] == t[|t| - 1];
    Faithful.NumeralSpells(s, n, "2");
    Symbolic(op);
    SymbolSpells(s, 1, op, Cons(Numeral("2"), Nil));
    DigitSpells(s, '7', Cons(Sym(Bin(op)), Cons(Numeral("2"), Nil)));
  }

  predicate IsSign(c: char) { c in "|&^=!<>+-*/%" }

  lemma Symbolic(op: BinOp)
    ensures IsSign(OpText(op)[0]) && IsSign(OpText(op)[|OpText(op)| - 1])
  {}

  lemma SignsApart(c: char)
    requires IsSign(c)
    ensures !IsSpace(c) && !IsConstChar(c) && !IsDigit(c)
  {}

  lemma SymbolSpells(s: string, i: nat, op: BinOp, xs: Lexemes)
    requires At(s, i, OpText(op)) && i + |OpText(op)| < |s| && IsDigit(s[i + |OpText(op)|]) && IsSign(s[i])
    requires Spells(s, i + |OpText(op)|, xs) && IsSign(OpText(op)[|OpText(op)| - 1])
    ensures Spells(s, i, Cons(Sym(Bin(op)), xs))
  {
    hide OpText, IsSign, IsSpace, SkipSpace, IsDigit;
    SignsApart(s[i]);
    DigitsApart(s[i + |OpText(op)|], OpText(op)[|OpText(op)| - 1]);
    NotSpace(s, i);
  }

  lemma DigitsApart(c: char, d: char)
    requires IsDigit(c) && IsSign(d)
    ensures c != '=' && c != d
  {}

  lemma NotSpace(s: string, i: nat)
    requires i < |s| && !IsSpace(s[i])
    ensures SkipSpace(s, i) == i
  {}

  lemma DigitSpells(s: string, c: char, xs: Lexemes)
    requires |s| > 1 && s[0..1] == [c] && IsDigit(c) && IsSign(s[1]) && Spells(s, 1, xs)
    ensures Spells(s, 0, Cons(Numeral([c]), xs))
  {
    hide IsSign, IsConstChar;
    SignsApart(s[1]);
    Faithful.NoSpace(s, 0);
    assert s[0] == s[0..1][0];
  }

  lemma InfixMeans(op: BinOp, env: Env)
    ensures Meaning(Bi(op, Lit("7"), Lit("2")), false, 1, env) == Means(BinaryValue(op, 7, 2), env)
  {
    hide Strlong, BinaryValue;
    SevenAndTwo();
    assert forall skip :: Meaning(Lit("2"), skip, 1, env) == Means(2, env);
    assert Meaning(Lit("7"), false, 1, env) == Means(7, env);
  }

  lemma SevenAndTwo()
    ensures Strlong("7") == Number(7) && Strlong("2") == Number(2)
  {}

  lemma On(op: BinOp, text: string, v: int, store: Store)
    requires text == "7" + OpText(op) + "2" && v == BinaryValue(op, 7, 2)
    ensures SubExpr(text, 0, store) == Value(v, store)
  {
    hide *;
    Infix(op, store);
  }

  /** The symbol of every operator, by what it does to 7 and 2. */
  lemma LogicalSymbols(store: Store)
    ensures SubExpr("7||2", 0, store) == Value(1, store) && SubExpr("7&&2", 0, store) == Value(1, store)
    ensures SubExpr("7|2", 0, store) == Value(Bitwise(BOr, 7, 2), store)
    ensures SubExpr("7^2", 0, store) == Value(Bitwise(BXor, 7, 2), store)
    ensures SubExpr("7&2", 0, store) == Value(Bitwise(BAnd, 7, 2), store)
  {
    hide SubExpr, Bitwise;
    On(LOr, "7||2", 1, store);
    On(LAnd, "7&&2", 1, store);
    On(BOr, "7|2", Bitwise(BOr, 7, 2), store);
    On(BXor, "7^2", Bitwise(BXor, 7, 2), store);
    On(BAnd, "7&2", Bitwise(BAnd, 7, 2), store);
  }

  lemma ComparingSymbols(store: Store)
    ensures SubExpr("7==2", 0, store) == Value(0, store) && SubExpr("7!=2", 0, store) == Value(1, store)
    ensures SubExpr("7<=2", 0, store) == Value(0, store) && SubExpr("7>=2", 0, store) == Value(1, store)
    ensures SubExpr("7<2", 0, store) == Value(0, store) && SubExpr("7>2", 0, store) == Value(1, store)
  {
    hide SubExpr;
    On(EqEq, "7==2", 0, store);
    On(Neq, "7!=2", 1, store);
    On(Leq, "7<=2", 0, store);
    On(Geq, "7>=2", 1, store);
    On(Lt, "7<2", 0, store);
    On(Gt, "7>2", 1, store);
  }

  lemma ArithmeticSymbols(store: Store)
    ensures SubExpr("7+2", 0, store) == Value(9, store) && SubExpr("7-2", 0, store) == Value(5, store)
    ensures SubExpr("7*2", 0, store) == Value(14, store) && SubExpr("7/2", 0, store) == Value(3, store)
    ensures SubExpr("7%2", 0, store) == Value(1, store)
  {
    hide SubExpr;
    On(Plus, "7+2", 9, store);
    On(Minus, "7-2", 5, store);
    On(Mul, "7*2", 14, store);
    On(Div, "7/2", 3, store);
    On(Mod, "7%2", 1, store);
  }

  lemma PowerSymbols(store: Store)
    ensures SubExpr("7<<2", 0, store) == Value(28, store) && SubExpr("7>>2", 0, store) == Value(1, store)
    ensures SubExpr("7**2", 0, store) == Value(49, store)
  {
    hide SubExpr;
    assert Pow(7, 2) == 49 && Pow(2, 2) == 4;
    On(Lsh, "7<<2", 28, store);
    On(Rsh, "7>>2", 1, store);
    On(Power, "7**2", 49, store);
  }

  /** A tree that reads no variable, printed with a space behind every lexeme. */
  lemma Printed(e: Expr, text: string, v: int, store: Store, env: Env)
    requires WellFormed(e) && text == ExprLaws.Text(Print(e, 0, Nil), " ")
    requires Meaning(e, false, 1, Env(map[], store)) == Means(v, env)
    ensures SubExpr(text, 0, store) == Ladder.Value(v, StoreOf(env))
  {
    hide Spells, Meaning, SubExpr, Print, WellFormed, ExprLaws.Text;
    Faithful.AnyStore(store);
    ExprLaws.PrintedTree(e, " ", store, Env(map[], store));
  }

  lemma Prefix(op: UnaryOp, text: string, v: int, store: Store)
    requires text == Spelling(SignTok(op)) + " 7 " && v == UnaryValue(op, 7)
    ensures SubExpr(text, 0, store) == Value(v, store)
  {
    hide SubExpr, Strlong, Spelling, UnaryValue, ExprLaws.Text;
    SevenAndTwo();
    var env, seven := Env(map[], store), Lit("7");
    assert store + map[] == store && WellFormed(seven) && Meaning(seven, false, 1, env) == Means(7, env);
    var xs := Cons(Numeral("7"), Nil);
    OneText(xs);
    OneText(Cons(Sym(SignTok(op)), xs));
    assert "7" + (" " + "") == "7 " && Spelling(SignTok(op)) + (" " + "7 ") == Spelling(SignTok(op)) + " 7 ";
    assert Print(seven, 14, Nil) == xs;
    assert Print(Un(op, seven), 0, Nil) == Cons(Sym(SignTok(op)), xs);
    Printed(Un(op, seven), text, v, store, env);
  }

  lemma UnarySymbols(store: Store)
    ensures SubExpr("! 7 ", 0, store) == Value(0, store) && SubExpr("~ 7 ", 0, store) == Value(-8, store)
    ensures SubExpr("- 7 ", 0, store) == Value(-7, store) && SubExpr("+ 7 ", 0, store) == Value(7, store)
  {
    hide SubExpr;
    Prefix(LogicalNot, "! 7 ", 0, store);
    Prefix(Complement, "~ 7 ", -8, store);
    Prefix(Negate, "- 7 ", -7, store);
    Prefix(Identity, "+ 7 ", 7, store);
  }

  lemma OneText(xs: Lexemes)
    requires xs.Cons?
    ensures ExprLaws.Text(xs, " ") == Shown(xs.head) + (" " + ExprLaws.Text(xs.tail, " "))
    ensures ExprLaws.Text(Nil, " ") == ""
  {}

  lemma QuestionText()
    ensures ExprLaws.Text(Print(IfElse(Lit("7"), Lit("2"), Lit("7")), 0, Nil), " ") == "7 ? 2 : 7 "
  {
    hide ExprLaws.Text;
    var xs1 := Cons(Numeral("7"), Nil);
    var xs2 := Cons(Sym(Col), xs1);
    var xs3 := Cons(Numeral("2"), xs2);
    var xs4 := Cons(Sym(Ques), xs3);
    OneText(xs1);
    OneText(xs2);
    OneText(xs3);
    OneText(xs4);
    OneText(Cons(Numeral("7"), xs4));
    assert ExprLaws.Text(xs1, " ") == "7 " && ExprLaws.Text(xs2, " ") == ": 7 " && ExprLaws.Text(xs3, " ") == "2 : 7 ";
    assert ExprLaws.Text(xs4, " ") == "? 2 : 7 ";
  }

  lemma QuestionSymbol(store: Store)
    ensures SubExpr("7 ? 2 : 7 ", 0, store) == Value(2, store)
  {
    hide SubExpr, Strlong, ExprLaws.Text, Print;
    SevenAndTwo();
    var env, seven, two := Env(map[], store), Lit("7"), Lit("2");
    assert store + map[] == store && WellFormed(seven) && WellFormed(two);
    assert forall skip :: Meaning(seven, skip, 1, env) == Means(7, env) && Meaning(two, skip, 1, env) == Means(2, env);
    QuestionText();
    Printed(IfElse(seven, two, seven), "7 ? 2 : 7 ", 2, store, env);
  }

  lemma CommaText()
    ensures ExprLaws.Text(Print(Then(Lit("7"), Lit("2")), 0, Nil), " ") == "7 , 2 "
    ensures ExprLaws.Text(Print(Set("x", Lit("7")), 0, Nil), " ") == "x = 7 "
  {
    hide ExprLaws.Text;
    var xs1, ys1 := Cons(Numeral("2"), Nil), Cons(Numeral("7"), Nil);
    var xs2, ys2 := Cons(Sym(Comma), xs1), Cons(Sym(Eq), ys1);
    OneText(xs1);
    OneText(xs2);
    OneText(Cons(Numeral("7"), xs2));
    OneText(ys1);
    OneText(ys2);
    OneText(Cons(Word("x"), ys2));
    assert ExprLaws.Text(xs2, " ") == ", 2 " && ExprLaws.Text(ys2, " ") == "= 7 ";
  }

  lemma CommaSymbol(store: Store)
    ensures SubExpr("7 , 2 ", 0, store) == Value(2, store)
    ensures SubExpr("x = 7 ", 0, store) == Value(7, store["x" := "7"])
  {
    hide SubExpr, Strlong, ExprLaws.Text, Print, Itos;
    SevenAndTwo();
    var env, seven, two := Env(map[], store), Lit("7"), Lit("2");
    assert store + map[] == store && WellFormed(seven) && WellFormed(two);
    assert Meaning(seven, false, 1, env) == Means(7, env) && Meaning(two, false, 1, env) == Means(2, env);
    CommaText();
    Printed(Then(seven, two), "7 , 2 ", 2, store, env);
    var env' := Write(false, env, "x", 7);
    ItosSeven();
    assert StoreOf(env') == store["x" := "7"];
    Printed(Set("x", seven), "x = 7 ", 7, store, env');
  }

  lemma ItosSeven()
    ensures Itos(7) == "7"
  {}
}
