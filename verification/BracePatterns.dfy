/** Brace patterns, how they are written, and the proof that brace expansion gives their product. */
module BracePatterns {
  import opened Braces
  import opened Strings
  import Int64
  import Numerals
  import SeqTerms
  import Sequences

  /** What can stand between quotes: a character, an escaped one, `$` and a character, `${`, or a substitution. */
  datatype Inner = Letter(c: char) | Pair(c: char) | Cash(c: char) | Brace | Command(s: string)

  /**
   A piece of a literal: a plain character, one behind a backslash, a quoted string, a parameter ${s}, a
   sign `$`, `<` or `>` and a character, or a substitution such as $(s).
   */
  datatype Atom =
    | Plain(c: char)
    | Escaped(c: char)
    | Quoted(q: char, inside: seq<Inner>)
    | Param(s: string)
    | Signed(sign: char, c: char)
    | Subst(sign: char, s: string)

  /**
   A concatenation of literal pieces, alternations of two or more arms, braces around a text with `..` in
   it, and braces and commas that mean nothing: an open brace that begins no brace expression, a closing
   one that ends none, and a comma outside braces.
   */
  datatype Pattern =
    | Empty
    | Char(a: Atom, rest: Pattern)
    | Alt(arms: Arms, rest: Pattern)
    | Range(t: string, rest: Pattern)
    | Open(rest: Pattern)
    | Shut(rest: Pattern)
    | Comma(rest: Pattern)

  datatype Arms = Last(p: Pattern) | And(p: Pattern, more: Arms)

  const SPECIALS := {'{', '}', ',', '\\', '"', '\'', '`', '$', '<', '>', ' ', '\t', '\n', '\0'}
  const SIGNS := {'$', '<', '>'}

  predicate InnerWellFormed(q: char, x: Inner) {
    match x
    case Letter(c) => c != q && (q != '\'' ==> c != '\\' && c != '$')
    case Pair(_) => q != '\''
    case Cash(c) => q != '\'' && c !in {q, '\\', '$', '{', '('}
    case Brace => q != '\''
    case Command(s) => q == '"' && Simple(s)
  }

  /** A command text without parentheses, quotes and backslashes; commas and braces may be in it. */
  predicate Simple(s: string) {
    forall j :: 0 <= j < |s| ==> s[j] !in {'(', ')', '\'', '"', '`', '\\'}
  }

  predicate AtomWellFormed(a: Atom) {
    match a
    case Plain(c) => c !in SPECIALS
    case Escaped(_) => true
    case Quoted(q, xs) => q in {'"', '\'', '`'} && forall x <- xs :: InnerWellFormed(q, x)
    case Param(s) => PlainText(s)
    case Signed(sign, c) => sign in SIGNS && c !in SPECIALS && c != '(' && c != '.'
    case Subst(sign, s) => sign in SIGNS && Simple(s)
  }

  /** The end of a simple substitution is found. */
  ghost predicate Sees(o: Outside) {
    forall text: string, i: nat, s: string :: Simple(s) && At(text, i, s + ")") ==> o.comsub(text, i) == i + |s|
  }

  predicate AtomHasSubst(a: Atom) {
    a.Subst? || (a.Quoted? && exists x <- a.inside :: x.Command?)
  }

  predicate HasSubst(p: Pattern) {
    match p
    case Empty => false
    case Char(a, rest) => AtomHasSubst(a) || HasSubst(rest)
    case Alt(arms, rest) => ArmsHaveSubst(arms) || HasSubst(rest)
    case Range(_, rest) => HasSubst(rest)
    case Open(rest) => HasSubst(rest)
    case Shut(rest) => HasSubst(rest)
    case Comma(rest) => HasSubst(rest)
  }

  predicate ArmsHaveSubst(arms: Arms) {
    HasSubst(arms.p) || (arms.And? && ArmsHaveSubst(arms.more))
  }

  /** Two dots that separate: something other than a closing brace follows them. */
  predicate Dotted(p: Pattern) {
    p.Char? && p.a == Plain('.') && p.rest.Char? && p.rest.a == Plain('.') && !p.rest.rest.Shut?
  }

  /** Every piece is made right. */
  predicate Pieces(p: Pattern)
    decreases p, 0
  {
    match p
    case Empty => true
    case Char(a, rest) => AtomWellFormed(a) && Pieces(rest)
    case Alt(arms, rest) => arms.And? && ArmsWellFormed(arms) && Pieces(rest)
    case Range(t, rest) => RangeWellFormed(t) && Pieces(rest)
    case Open(rest) => Pieces(rest)
    case Shut(rest) => Pieces(rest)
    case Comma(rest) => Pieces(rest)
  }

  /**
   No closing brace of its own ends a brace expression: `open` says that an open brace stands before, and
   `parted` that a separator came after one.
   */
  predicate Ordered(p: Pattern, open: bool, parted: bool) {
    match p
    case Empty => true
    case Char(_, rest) => Ordered(rest, open, parted || (open && Dotted(p)))
    case Alt(_, rest) => Ordered(rest, open, parted)
    case Range(_, rest) => Ordered(rest, open, parted)
    case Open(rest) => Ordered(rest, true, parted)
    case Shut(rest) => !parted && Ordered(rest, open, parted)
    case Comma(rest) => Ordered(rest, open, parted || open)
  }

  /** An empty pair of braces at the head counts for nothing at all. */
  predicate EmptyPair(p: Pattern) { p.Open? && p.rest.Shut? && Ordered(p.rest.rest, false, false) }

  predicate WellFormed(p: Pattern)
    decreases p, 1
  {
    Pieces(p) && (Ordered(p, false, false) || EmptyPair(p))
  }

  /** Inside arms braces pair up, d of them being open so far, and commas separate the arms. */
  predicate Balanced(p: Pattern, d: nat) {
    match p
    case Empty => d == 0
    case Char(_, rest) => Balanced(rest, d)
    case Alt(_, rest) => Balanced(rest, d)
    case Range(_, rest) => Balanced(rest, d)
    case Open(rest) => Balanced(rest, d + 1)
    case Shut(rest) => d > 0 && Balanced(rest, d - 1)
    case Comma(_) => false
  }

  predicate ArmsWellFormed(arms: Arms) {
    WellFormed(arms.p) && Balanced(arms.p, 0) && (arms.And? ==> ArmsWellFormed(arms.more))
  }

  /** Plain characters with a `..` that something follows, whether or not they make a sequence. */
  predicate RangeWellFormed(t: string) {
    PlainText(t) && SeqTerms.FirstDots(t, 0) + 2 < |t|
  }

  predicate PlainText(t: string) {
    forall j :: 0 <= j < |t| ==> t[j] !in SPECIALS
  }

  function InnerText(x: Inner): string {
    match x
    case Letter(c) => [c]
    case Pair(c) => ['\\', c]
    case Cash(c) => ['$', c]
    case Brace => ['$', '{']
    case Command(s) => ['$', '('] + (s + ")")
  }

  function InsideText(xs: seq<Inner>): string {
    if xs == [] then "" else InnerText(xs[0]) + InsideText(xs[1..])
  }

  function Text(a: Atom): string {
    match a
    case Plain(c) => [c]
    case Escaped(c) => ['\\', c]
    case Quoted(q, xs) => [q] + (InsideText(xs) + [q])
    case Param(s) => "${" + (s + "}")
    case Signed(sign, c) => [sign, c]
    case Subst(sign, s) => [sign, '('] + (s + ")")
  }

  function Print(p: Pattern): string {
    match p
    case Empty => ""
    case Char(a, rest) => Text(a) + Print(rest)
    case Alt(arms, rest) => "{" + (PrintArms(arms) + ("}" + Print(rest)))
    case Range(t, rest) => "{" + (t + ("}" + Print(rest)))
    case Open(rest) => "{" + Print(rest)
    case Shut(rest) => "}" + Print(rest)
    case Comma(rest) => "," + Print(rest)
  }

  function PrintArms(arms: Arms): string {
    match arms
    case Last(p) => Print(p)
    case And(p, more) => Print(p) + ("," + PrintArms(more))
  }

  /** The left-to-right product expansion. */
  function Words(p: Pattern): seq<string> {
    match p
    case Empty => [""]
    case Char(a, rest) => Prefixed(Text(a), Words(rest))
    case Alt(arms, rest) => Product(ArmWords(arms), Words(rest))
    case Range(t, rest) => Product(RangeWords(t), Words(rest))
    case Open(rest) => Prefixed("{", Words(rest))
    case Shut(rest) => Prefixed("}", Words(rest))
    case Comma(rest) => Prefixed(",", Words(rest))
  }

  /** The words of a sequence; a text that is none stays in its braces. */
  function RangeWords(t: string): seq<string> {
    match SeqTerms.SeqTerm(t)
    case Some(ws) => ws
    case None => ["{" + (t + "}")]
  }

  function ArmWords(arms: Arms): seq<string> {
    match arms
    case Last(p) => Words(p)
    case And(p, more) => Words(p) + ArmWords(more)
  }

  /** Where the pieces of a printed pattern stand. */
  lemma CharShape(text: string, i: nat, a: Atom, rest: Pattern)
    requires At(text, i, Print(Char(a, rest)))
    ensures At(text, i, Text(a)) && At(text, i + |Text(a)|, Print(rest))
    ensures |Print(Char(a, rest))| == |Text(a)| + |Print(rest)|
  {
    AtSplit(text, i, Text(a), Print(rest));
  }

  lemma AltShape(text: string, i: nat, arms: Arms, rest: Pattern)
    requires At(text, i, Print(Alt(arms, rest)))
    ensures var k := i + 1 + |PrintArms(arms)|;
            && i < |text| && text[i] == '{' && At(text, i + 1, PrintArms(arms))
            && k < |text| && text[k] == '}' && At(text, k + 1, Print(rest))
    ensures |Print(Alt(arms, rest))| == |PrintArms(arms)| + 2 + |Print(rest)|
  {
    hide At, PrintArms, Text;
    Braced(text, i, PrintArms(arms), Print(rest));
  }

  lemma RangeShape(text: string, i: nat, t: string, rest: Pattern)
    requires At(text, i, Print(Range(t, rest)))
    ensures var k := i + 1 + |t|;
            && i < |text| && text[i] == '{' && At(text, i + 1, t)
            && k < |text| && text[k] == '}' && At(text, k + 1, Print(rest))
    ensures |Print(Range(t, rest))| == |t| + 2 + |Print(rest)|
  {
    hide At, Text;
    Braced(text, i, t, Print(rest));
  }

  lemma Braced(text: string, i: nat, w: string, r: string)
    requires At(text, i, "{" + (w + ("}" + r)))
    ensures var k := i + 1 + |w|;
            && i < |text| && text[i] == '{' && At(text, i + 1, w)
            && k < |text| && text[k] == '}' && At(text, k + 1, r)
  {
    hide At;
    AtFirst(text, i, '{', w + ("}" + r));
    AtSplit(text, i + 1, w, "}" + r);
    AtFirst(text, i + 1 + |w|, '}', r);
  }

  lemma AndShape(text: string, i: nat, p: Pattern, more: Arms)
    requires At(text, i, PrintArms(And(p, more)))
    ensures var k := i + |Print(p)|;
            At(text, i, Print(p)) && k < |text| && text[k] == ',' && At(text, k + 1, PrintArms(more))
    ensures |PrintArms(And(p, more))| == |Print(p)| + 1 + |PrintArms(more)|
  {
    hide At, Print, Text;
    Separated(text, i, Print(p), PrintArms(more));
  }

  lemma Separated(text: string, i: nat, w: string, r: string)
    requires At(text, i, w + ("," + r))
    ensures var k := i + |w|; At(text, i, w) && k < |text| && text[k] == ',' && At(text, k + 1, r)
  {
    hide At;
    AtSplit(text, i, w, "," + r);
    AtFirst(text, i + |w|, ',', r);
  }

  lemma LastShape(p: Pattern)
    ensures PrintArms(Last(p)) == Print(p)
  {}

  lemma EmptyShape(text: string, i: nat)
    requires At(text, i, Print(Empty))
    ensures i <= |text| && |Print(Empty)| == 0
  {}

  /** A state outside quotes and escapes. */
  predicate Clean(st: Scan) { st.quoted == '\0' && !st.pass }

  /**
   The scan goes from i to j and d levels down. It may have counted separators, but only in search of a
   closing brace and only where no brace is left open.
   */
  ghost predicate Falls(o: Outside, text: string, i: nat, j: nat, satisfy: char, st: Scan, st': Scan, d: nat) {
    && i <= j <= |text| && Clean(st') && st'.level + d == st.level && st'.commas >= st.commas
    && (satisfy != '}' || st'.level > 0 ==> st'.commas == st.commas)
    && Gobble(o, text, i, satisfy, st) == Gobble(o, text, j, satisfy, st')
  }

  ghost predicate Goes(o: Outside, text: string, i: nat, j: nat, satisfy: char, st: Scan, st': Scan) {
    Falls(o, text, i, j, satisfy, st, st', 0)
  }

  /** A literal piece is passed over; only a dot may count as a separator. */
  lemma AtomGoes(o: Outside, text: string, i: nat, a: Atom, satisfy: char, st: Scan) returns (st': Scan)
    requires At(text, i, Text(a)) && Clean(st) && satisfy in {'{', '}', ','} && AtomWellFormed(a)
    requires Sees(o) || !AtomHasSubst(a)
    ensures Goes(o, text, i, i + |Text(a)|, satisfy, st, st')
    ensures st' == if a.Plain? then Note(text, i, satisfy, st) else st
  {
    hide Gobble, At, Note, Text, AtomWellFormed, Sees;
    st' := st;
    match a {
      case Plain(c) =>
        PlainShape(text, i, c);
        st' := PlainChar(o, text, i, satisfy, st);
      case Escaped(c) =>
        EscapedShape(text, i, c);
        EscapedChar(o, text, i, satisfy, st);
      case Quoted(q, xs) => QuotedPasses(o, text, i, q, xs, satisfy, st);
      case Param(s) => ParamPasses(o, text, i, s, satisfy, st);
      case Signed(sign, c) => SignedPasses(o, text, i, sign, c, satisfy, st);
      case Subst(sign, s) => SubstPasses(o, text, i, sign, s, satisfy, st);
    }
  }

  lemma QuotedPasses(o: Outside, text: string, i: nat, q: char, xs: seq<Inner>, satisfy: char, st: Scan)
    requires At(text, i, Text(Quoted(q, xs))) && AtomWellFormed(Quoted(q, xs)) && Clean(st)
    requires Sees(o) || !AtomHasSubst(Quoted(q, xs))
    ensures Goes(o, text, i, i + |Text(Quoted(q, xs))|, satisfy, st, st)
  {
    hide Gobble, At, Text, Sees;
    QuotedShape(text, i, q, xs);
    QuoteOpens(o, text, i, satisfy, st);
    InsideGoes(o, text, i + 1, xs, satisfy, st.(quoted := q));
    QuoteCloses(o, text, i + 1 + |InsideText(xs)|, satisfy, st.(quoted := q));
  }

  lemma ParamPasses(o: Outside, text: string, i: nat, s: string, satisfy: char, st: Scan)
    requires At(text, i, Text(Param(s))) && AtomWellFormed(Param(s)) && Clean(st) && satisfy in {'{', '}', ','}
    ensures Goes(o, text, i, i + |Text(Param(s))|, satisfy, st, st)
  {
    hide Gobble, At, Text, PlainText;
    ParamShape(text, i, s);
    var up := st.(level := st.level + 1);
    ParamOpens(o, text, i, satisfy, st);
    PlainGoes(o, text, i + 2, s, satisfy, up);
    CloseGoes(o, text, i + 2 + |s|, satisfy, up);
  }

  lemma SignedPasses(o: Outside, text: string, i: nat, sign: char, c: char, satisfy: char, st: Scan)
    requires At(text, i, Text(Signed(sign, c))) && AtomWellFormed(Signed(sign, c)) && Clean(st)
    requires satisfy in {'{', '}', ','}
    ensures Goes(o, text, i, i + |Text(Signed(sign, c))|, satisfy, st, st)
  {
    AtTwo(text, i, sign, c);
    assert Gobble(o, text, i, satisfy, st) == Gobble(o, text, i + 1, satisfy, st);
    assert Gobble(o, text, i + 1, satisfy, st) == Gobble(o, text, i + 2, satisfy, st);
  }

  lemma SubstPasses(o: Outside, text: string, i: nat, sign: char, s: string, satisfy: char, st: Scan)
    requires At(text, i, Text(Subst(sign, s))) && AtomWellFormed(Subst(sign, s)) && Clean(st) && Sees(o)
    requires satisfy in {'{', '}', ','}
    ensures Goes(o, text, i, i + |Text(Subst(sign, s))|, satisfy, st, st)
  {
    hide At, Simple, Sees;
    SubstShape(text, i, sign, s);
    SubstEnds(o, text, i, s);
    assert Gobble(o, text, i, satisfy, st) == Gobble(o, text, PastSubst(o, text, i), satisfy, st);
  }

  lemma SubstShape(text: string, i: nat, sign: char, s: string)
    requires At(text, i, [sign, '('] + (s + ")"))
    ensures i + 3 + |s| <= |text| && text[i] == sign && text[i + 1] == '(' && At(text, i + 2, s + ")")
  {
    hide At;
    AtSplit(text, i, [sign, '('], s + ")");
    AtTwo(text, i, sign, '(');
    AtBound(text, i + 2, s + ")");
  }

  /** The position behind a simple substitution. */
  lemma SubstEnds(o: Outside, text: string, i: nat, s: string)
    requires i + 3 + |s| <= |text| && Sees(o) && Simple(s) && At(text, i + 2, s + ")")
    ensures PastSubst(o, text, i) == i + 3 + |s|
  {
    hide At, Simple;
  }

  /** Where the characters of a printed piece stand. */
  lemma PlainShape(text: string, i: nat, c: char)
    requires At(text, i, Text(Plain(c))) && AtomWellFormed(Plain(c))
    ensures |Text(Plain(c))| == 1 && i < |text| && text[i] == c && c !in SPECIALS
  {
    AtFirst(text, i, c, "");
  }

  lemma EscapedShape(text: string, i: nat, c: char)
    requires At(text, i, Text(Escaped(c)))
    ensures |Text(Escaped(c))| == 2 && i + 1 < |text| && text[i] == '\\'
  {
    AtFirst(text, i, '\\', [c]);
  }

  lemma QuotedShape(text: string, i: nat, q: char, xs: seq<Inner>)
    requires At(text, i, Text(Quoted(q, xs)))
    ensures var n := i + 1 + |InsideText(xs)|;
            && |Text(Quoted(q, xs))| == |InsideText(xs)| + 2 && n < |text|
            && text[i] == q && At(text, i + 1, InsideText(xs)) && text[n] == q
  {
    hide At, InsideText;
    var s := InsideText(xs);
    AtFirst(text, i, q, s + [q]);
    AtSplit(text, i + 1, s, [q]);
    AtOne(text, i + 1 + |s|, q);
  }

  lemma ParamShape(text: string, i: nat, s: string)
    requires At(text, i, Text(Param(s)))
    ensures |Text(Param(s))| == |s| + 3 && i + 2 + |s| < |text|
    ensures text[i] == '$' && text[i + 1] == '{' && At(text, i + 2, s) && text[i + 2 + |s|] == '}'
  {
    hide At;
    AtSplit(text, i, "${", s + "}");
    AtTwo(text, i, '$', '{');
    AtSplit(text, i + 2, s, "}");
    AtOne(text, i + 2 + |s|, '}');
  }

  lemma PlainChar(o: Outside, text: string, i: nat, satisfy: char, st: Scan) returns (st': Scan)
    requires i < |text| && text[i] !in SPECIALS && Clean(st) && satisfy in {'{', '}', ','}
    ensures Goes(o, text, i, i + 1, satisfy, st, st') && st' == Note(text, i, satisfy, st)
  {
    st' := Note(text, i, satisfy, st);
  }

  lemma EscapedChar(o: Outside, text: string, i: nat, satisfy: char, st: Scan)
    requires i + 1 < |text| && text[i] == '\\' && Clean(st)
    ensures Gobble(o, text, i, satisfy, st) == Gobble(o, text, i + 2, satisfy, st)
  {
    assert Gobble(o, text, i, satisfy, st) == Gobble(o, text, i + 1, satisfy, st.(pass := true));
  }

  lemma QuoteOpens(o: Outside, text: string, i: nat, satisfy: char, st: Scan)
    requires i < |text| && text[i] in QUOTES && Clean(st)
    ensures Gobble(o, text, i, satisfy, st) == Gobble(o, text, i + 1, satisfy, st.(quoted := text[i]))
  {}

  lemma QuoteCloses(o: Outside, text: string, i: nat, satisfy: char, st: Scan)
    requires i < |text| && st.quoted in QUOTES && text[i] == st.quoted && !st.pass
    ensures Gobble(o, text, i, satisfy, st) == Gobble(o, text, i + 1, satisfy, st.(quoted := '\0'))
  {}

  lemma ParamOpens(o: Outside, text: string, i: nat, satisfy: char, st: Scan)
    requires i + 1 < |text| && text[i] == '$' && text[i + 1] == '{' && Clean(st)
    ensures Gobble(o, text, i, satisfy, st) == Gobble(o, text, i + 2, satisfy, st.(level := st.level + 1))
  {
    var up := st.(pass := true, level := st.level + 1);
    assert Gobble(o, text, i, satisfy, st) == Gobble(o, text, i + 1, satisfy, up);
  }

  /** One piece of a quoted string is passed over. */
  lemma InnerGoes(o: Outside, text: string, i: nat, x: Inner, satisfy: char, st: Scan)
    requires st.quoted in QUOTES && !st.pass && InnerWellFormed(st.quoted, x) && At(text, i, InnerText(x))
    requires Sees(o) || !x.Command?
    ensures i + |InnerText(x)| <= |text|
    ensures Gobble(o, text, i, satisfy, st) == Gobble(o, text, i + |InnerText(x)|, satisfy, st)
  {
    hide Sees, Simple, Gobble, At;
    match x
    case Letter(c) =>
      AtOne(text, i, c);
      InnerStep(o, text, i, satisfy, st);
    case Pair(c) =>
      AtTwo(text, i, '\\', c);
      InnerPair(o, text, i, satisfy, st);
    case Cash(c) =>
      AtTwo(text, i, '$', c);
      InnerStep(o, text, i, satisfy, st);
      InnerStep(o, text, i + 1, satisfy, st);
    case Brace =>
      AtTwo(text, i, '$', '{');
      InnerPair(o, text, i, satisfy, st);
    case Command(s) =>
      SubstShape(text, i, '$', s);
      SubstEnds(o, text, i, s);
      InnerCommand(o, text, i, satisfy, st);
  }

  /** A character that means nothing between the quotes. */
  lemma InnerStep(o: Outside, text: string, i: nat, satisfy: char, st: Scan)
    requires i < |text| && st.quoted in QUOTES && !st.pass && text[i] != st.quoted
    requires st.quoted != '\'' ==> text[i] != '\\' && (text[i] == '$' ==> CharAt(text, i + 1) !in {'{', '('})
    ensures Gobble(o, text, i, satisfy, st) == Gobble(o, text, i + 1, satisfy, st)
  {}

  /** A backslash or `$` that takes the next character with it. */
  lemma InnerPair(o: Outside, text: string, i: nat, satisfy: char, st: Scan)
    requires i + 1 < |text| && st.quoted in QUOTES && st.quoted != '\'' && !st.pass
    requires text[i] == '\\' || (text[i] == '$' && text[i + 1] == '{')
    ensures Gobble(o, text, i, satisfy, st) == Gobble(o, text, i + 2, satisfy, st)
  {
    assert Gobble(o, text, i, satisfy, st) == Gobble(o, text, i + 1, satisfy, st.(pass := true));
  }

  lemma InnerCommand(o: Outside, text: string, i: nat, satisfy: char, st: Scan)
    requires i + 1 < |text| && st.quoted == '"' && !st.pass && text[i] == '$' && text[i + 1] == '('
    ensures Gobble(o, text, i, satisfy, st) == Gobble(o, text, PastSubst(o, text, i), satisfy, st)
  {}

  /** Everything up to the closing quote is passed over. */
  lemma {:induction false} InsideGoes(o: Outside, text: string, i: nat, xs: seq<Inner>, satisfy: char, st: Scan)
    requires st.quoted in QUOTES && !st.pass && (forall x <- xs :: InnerWellFormed(st.quoted, x))
    requires At(text, i, InsideText(xs)) && (Sees(o) || !exists x <- xs :: x.Command?)
    ensures i + |InsideText(xs)| <= |text|
    ensures Gobble(o, text, i, satisfy, st) == Gobble(o, text, i + |InsideText(xs)|, satisfy, st)
    decreases |xs|
  {
    hide Gobble, InnerText, InnerWellFormed, Sees, At;
    if xs == [] {
      AtBound(text, i, "");
    } else {
      AtSplit(text, i, InnerText(xs[0]), InsideText(xs[1..]));
      assert xs[0] in xs;
      InnerGoes(o, text, i, xs[0], satisfy, st);
      InsideGoes(o, text, i + |InnerText(xs[0])|, xs[1..], satisfy, st);
    }
  }

  /** Plain characters inside a brace change nothing. */
  lemma {:induction false} PlainGoes(o: Outside, text: string, i: nat, s: string, satisfy: char, st: Scan)
    requires Clean(st) && st.level > 0 && satisfy in {'{', '}', ','} && PlainText(s) && At(text, i, s)
    ensures Gobble(o, text, i, satisfy, st) == Gobble(o, text, i + |s|, satisfy, st)
    decreases |s|
  {
    if s != "" {
      assert s == [s[0]] + s[1..];
      AtFirst(text, i, s[0], s[1..]);
      PlainGoes(o, text, i + 1, s[1..], satisfy, st);
    }
  }

  /** One character and the pattern behind it. */
  lemma OneShape(text: string, i: nat, c: char, rest: Pattern)
    requires At(text, i, [c] + Print(rest))
    ensures i < |text| && text[i] == c && At(text, i + 1, Print(rest))
  {
    hide At, Print;
    AtFirst(text, i, c, Print(rest));
  }

  /** Inside a whole pattern nothing is found: its braces balance and its separators are nested. */
  lemma {:induction false} PatternGoes(o: Outside, text: string, i: nat, p: Pattern, d: nat, satisfy: char, st: Scan)
    returns (st': Scan)
    requires At(text, i, Print(p)) && Pieces(p) && Balanced(p, d) && Clean(st) && satisfy in {'}', ','}
    requires st.level >= d && (Sees(o) || !HasSubst(p))
    ensures Falls(o, text, i, i + |Print(p)|, satisfy, st, st', d)
    decreases p
  {
    hide Gobble, Print, PrintArms, At, Text, AtomWellFormed, AtomHasSubst, Sees, RangeWellFormed, Note;
    match p {
      case Empty =>
        EmptyShape(text, i);
        st' := st;
      case Char(a, rest) =>
        CharShape(text, i, a, rest);
        var st1 := AtomGoes(o, text, i, a, satisfy, st);
        st' := PatternGoes(o, text, i + |Text(a)|, rest, d, satisfy, st1);
      case Alt(arms, rest) =>
        AltShape(text, i, arms, rest);
        AltGoes(o, text, i, arms, satisfy, st);
        st' := PatternGoes(o, text, i + 2 + |PrintArms(arms)|, rest, d, satisfy, st);
      case Range(t, rest) =>
        RangeShape(text, i, t, rest);
        RangeGoes(o, text, i, t, satisfy, st);
        st' := PatternGoes(o, text, i + 2 + |t|, rest, d, satisfy, st);
      case Open(rest) =>
        OpenShape(text, i, rest);
        OpenGoes(o, text, i, satisfy, st);
        st' := PatternGoes(o, text, i + 1, rest, d + 1, satisfy, st.(level := st.level + 1));
      case Shut(rest) =>
        ShutShape(text, i, rest);
        CloseGoes(o, text, i, satisfy, st);
        st' := PatternGoes(o, text, i + 1, rest, d - 1, satisfy, st.(level := st.level - 1));
      case Comma(_) => assert false;
    }
  }

  lemma OpenShape(text: string, i: nat, rest: Pattern)
    requires At(text, i, Print(Open(rest)))
    ensures i < |text| && text[i] == '{' && At(text, i + 1, Print(rest)) && |Print(Open(rest))| == 1 + |Print(rest)|
  {
    OneShape(text, i, '{', rest);
  }

  lemma ShutShape(text: string, i: nat, rest: Pattern)
    requires At(text, i, Print(Shut(rest)))
    ensures i < |text| && text[i] == '}' && At(text, i + 1, Print(rest)) && |Print(Shut(rest))| == 1 + |Print(rest)|
  {
    OneShape(text, i, '}', rest);
  }

  lemma CommaShape(text: string, i: nat, rest: Pattern)
    requires At(text, i, Print(Comma(rest)))
    ensures i < |text| && text[i] == ',' && At(text, i + 1, Print(rest)) && |Print(Comma(rest))| == 1 + |Print(rest)|
  {
    OneShape(text, i, ',', rest);
  }

  /** A whole alternation, seen from outside, is passed over. */
  lemma {:induction false} AltGoes(o: Outside, text: string, i: nat, arms: Arms, satisfy: char, st: Scan)
    requires i < |text| && text[i] == '{' && At(text, i + 1, PrintArms(arms)) && ArmsWellFormed(arms) && Clean(st)
    requires var k := i + 1 + |PrintArms(arms)|; k < |text| && text[k] == '}'
    requires satisfy in {'}', ','} && (Sees(o) || !ArmsHaveSubst(arms))
    ensures Gobble(o, text, i, satisfy, st) == Gobble(o, text, i + 2 + |PrintArms(arms)|, satisfy, st)
    decreases arms, 1
  {
    hide Gobble, PrintArms, At, Sees, ArmsWellFormed, ArmsHaveSubst;
    OpenGoes(o, text, i, satisfy, st);
    var up := st.(level := st.level + 1);
    var st1 := ArmsGo(o, text, i + 1, arms, satisfy, up);
    CloseGoes(o, text, i + 1 + |PrintArms(arms)|, satisfy, st1);
    assert st1 == up && st1.(level := st1.level - 1) == st;
  }

  lemma RangeGoes(o: Outside, text: string, i: nat, t: string, satisfy: char, st: Scan)
    requires i < |text| && text[i] == '{' && At(text, i + 1, t) && RangeWellFormed(t) && Clean(st)
    requires var k := i + 1 + |t|; k < |text| && text[k] == '}'
    requires satisfy in {'}', ','}
    ensures Gobble(o, text, i, satisfy, st) == Gobble(o, text, i + 2 + |t|, satisfy, st)
  {
    hide Gobble, At, PlainText;
    var up := st.(level := st.level + 1);
    OpenGoes(o, text, i, satisfy, st);
    PlainGoes(o, text, i + 1, t, satisfy, up);
    CloseGoes(o, text, i + 1 + |t|, satisfy, up);
    assert up.(level := up.level - 1) == st;
  }

  lemma OpenGoes(o: Outside, text: string, i: nat, satisfy: char, st: Scan)
    requires i < |text| && text[i] == '{' && Clean(st) && satisfy in {'}', ','}
    ensures Gobble(o, text, i, satisfy, st) == Gobble(o, text, i + 1, satisfy, st.(level := st.level + 1))
  {}

  lemma CloseGoes(o: Outside, text: string, i: nat, satisfy: char, st: Scan)
    requires i < |text| && text[i] == '}' && Clean(st) && st.level > 0 && satisfy in {'{', '}', ','}
    ensures Gobble(o, text, i, satisfy, st) == Gobble(o, text, i + 1, satisfy, st.(level := st.level - 1))
  {}

  lemma CommaGoes(o: Outside, text: string, i: nat, satisfy: char, st: Scan)
    requires i < |text| && text[i] == ',' && Clean(st) && satisfy in {'{', '}', ','}
    requires satisfy == ',' ==> st.level > 0
    ensures Gobble(o, text, i, satisfy, st) ==
            Gobble(o, text, i + 1, satisfy,
                   if satisfy == '}' && st.level == 0 then st.(commas := st.commas + 1) else st)
  {}

  /** The arms of an alternation, scanned for the brace that closes them or from outside. */
  lemma {:induction false} ArmsGo(o: Outside, text: string, i: nat, arms: Arms, satisfy: char, st: Scan)
    returns (st': Scan)
    requires At(text, i, PrintArms(arms)) && ArmsWellFormed(arms) && Clean(st) && satisfy in {'}', ','}
    requires (satisfy == ',' ==> st.level > 0) && (Sees(o) || !ArmsHaveSubst(arms))
    ensures Goes(o, text, i, i + |PrintArms(arms)|, satisfy, st, st')
    ensures satisfy == '}' && st.level == 0 && arms.And? ==> st'.commas > 0
    decreases arms, 0
  {
    hide Gobble, Print, At, Sees, Pieces, Ordered, Balanced, HasSubst;
    match arms {
      case Last(p) => st' := PatternGoes(o, text, i, p, 0, satisfy, st);
      case And(p, more) =>
        var k := i + |Print(p)|;
        AndShape(text, i, p, more);
        var st1 := PatternGoes(o, text, i, p, 0, satisfy, st);
        CommaGoes(o, text, k, satisfy, st1);
        var st2 := if satisfy == '}' && st1.level == 0 then st1.(commas := st1.commas + 1) else st1;
        st' := ArmsGo(o, text, k + 1, more, satisfy, st2);
    }
  }

  /** The brace that closes an alternation is found. */
  lemma CloseFound(o: Outside, text: string, i: nat, arms: Arms)
    requires At(text, i, PrintArms(arms)) && ArmsWellFormed(arms) && arms.And? && (Sees(o) || !ArmsHaveSubst(arms))
    requires var k := i + |PrintArms(arms)|; k < |text| && text[k] == '}'
    ensures Close(o, text, i) == Stop(i + |PrintArms(arms)|, true)
  {
    hide At, PrintArms, Sees, ArmsWellFormed, ArmsHaveSubst, Gobble;
    var st' := ArmsGo(o, text, i, arms, '}', Begin('}'));
    CloseHere(o, text, i + |PrintArms(arms)|, st');
  }

  /** The arm that starts at i ends at its separator, or at the end of the amble. */
  lemma ArmFound(o: Outside, text: string, i: nat, p: Pattern)
    requires At(text, i, Print(p)) && Pieces(p) && Balanced(p, 0) && (Sees(o) || !HasSubst(p))
    requires var k := i + |Print(p)|; k == |text| || text[k] == ','
    ensures var k := i + |Print(p)|; Gobble(o, text, i, ',', Begin(',')) == Stop(k, k < |text|)
  {
    hide At, Print, Sees, Pieces, Balanced, HasSubst, Gobble;
    var st' := PatternGoes(o, text, i, p, 0, ',', Begin(','));
    SeparatorHere(o, text, i + |Print(p)|, st');
  }

  lemma SeparatorHere(o: Outside, text: string, k: nat, st: Scan)
    requires k <= |text| && (k == |text| || text[k] == ',') && Clean(st) && st.level == 0 && st.commas > 0
    ensures Gobble(o, text, k, ',', st) == Stop(k, k < |text|)
  {}

  /** What the first character of a printed pattern says of it. */
  lemma FirstDot(p: Pattern)
    requires Pieces(p) && Print(p) != ""
    ensures Print(p)[0] == '.' ==> p.Char? && p.a == Plain('.')
    ensures Print(p)[0] == '}' <==> p.Shut?
  {
    hide PrintArms, RangeWellFormed, ArmsWellFormed;
    if p.Char? {
      FirstOfAtom(p.a);
      assert Print(p)[0] == Text(p.a)[0];
    }
  }

  lemma FirstOfAtom(a: Atom)
    requires AtomWellFormed(a)
    ensures Text(a) != "" && Text(a)[0] != '}' && (Text(a)[0] == '.' ==> a == Plain('.'))
  {
    hide InsideText, InnerWellFormed;
  }

  /** At a dot, a separator is counted only where the pattern has two dots that separate. */
  lemma DotsAreDotted(text: string, i: nat, rest: Pattern)
    requires At(text, i, Print(Char(Plain('.'), rest))) && i + |Print(Char(Plain('.'), rest))| == |text|
    requires Pieces(rest) && Dots(text, i) && CharAt(text, i + 2) != '}'
    ensures Dotted(Char(Plain('.'), rest))
  {
    hide Print, Pieces;
    CharShape(text, i, Plain('.'), rest);
    AtBound(text, i + 1, Print(rest));
    assert Print(rest) == text[i + 1..] && Print(rest)[0] == '.';
    FirstDot(rest);
    SecondDot(text, i + 1, rest);
  }

  lemma SecondDot(text: string, i: nat, p: Pattern)
    requires p.Char? && p.a == Plain('.') && Pieces(p) && At(text, i, Print(p)) && i + |Print(p)| == |text|
    requires CharAt(text, i + 1) != '}'
    ensures !p.rest.Shut?
  {
    if p.rest.Shut? {
      CharShape(text, i, p.a, p.rest);
      ShutShape(text, i + 1, p.rest.rest);
    }
  }

  /** From inside an open brace, no closing brace is found in a pattern that goes to the end of the text. */
  lemma {:induction false} NeverHits(o: Outside, text: string, i: nat, p: Pattern, parted: bool, st: Scan)
    requires At(text, i, Print(p)) && i + |Print(p)| == |text| && Pieces(p) && Ordered(p, true, parted) && Clean(st)
    requires (st.commas > 0 ==> parted) && (Sees(o) || !HasSubst(p))
    ensures !Gobble(o, text, i, '}', st).hit
    decreases p
  {
    hide Gobble, Print, PrintArms, At, Text, AtomWellFormed, AtomHasSubst, Sees, RangeWellFormed, Dotted, Note;
    match p {
      case Empty =>
        EmptyShape(text, i);
        AtEnd(o, text, st);
      case Char(a, rest) =>
        CharShape(text, i, a, rest);
        var st1 := AtomGoes(o, text, i, a, '}', st);
        PartedBy(text, i, a, rest, st);
        NeverHits(o, text, i + |Text(a)|, rest, parted || Dotted(p), st1);
      case Alt(arms, rest) =>
        AltShape(text, i, arms, rest);
        AltGoes(o, text, i, arms, '}', st);
        NeverHits(o, text, i + 2 + |PrintArms(arms)|, rest, parted, st);
      case Range(t, rest) =>
        RangeShape(text, i, t, rest);
        RangeGoes(o, text, i, t, '}', st);
        NeverHits(o, text, i + 2 + |t|, rest, parted, st);
      case Open(rest) =>
        OpenShape(text, i, rest);
        OpenGoes(o, text, i, '}', st);
        NeverHits(o, text, i + 1, rest, parted, st.(level := st.level + 1));
      case Shut(rest) =>
        ShutShape(text, i, rest);
        ShutPasses(o, text, i, st);
        NeverHits(o, text, i + 1, rest, parted, if st.level > 0 then st.(level := st.level - 1) else st);
      case Comma(rest) =>
        CommaShape(text, i, rest);
        CommaGoes(o, text, i, '}', st);
        NeverHits(o, text, i + 1, rest, true, if st.level == 0 then st.(commas := st.commas + 1) else st);
    }
  }

  lemma AtEnd(o: Outside, text: string, st: Scan)
    ensures forall c :: Gobble(o, text, |text|, c, st) == Stop(|text|, false)
  {}

  lemma PartedBy(text: string, i: nat, a: Atom, rest: Pattern, st: Scan)
    requires At(text, i, Print(Char(a, rest))) && i + |Print(Char(a, rest))| == |text| && Pieces(Char(a, rest))
    ensures a.Plain? && Note(text, i, '}', st).commas > st.commas ==> Dotted(Char(a, rest))
  {
    hide Print, Dotted;
    if a.Plain? && Note(text, i, '}', st).commas > st.commas {
      CharShape(text, i, a, rest);
      PlainShape(text, i, a.c);
      DotsAreDotted(text, i, rest);
    }
  }

  lemma ShutPasses(o: Outside, text: string, i: nat, st: Scan)
    requires i < |text| && text[i] == '}' && Clean(st) && st.commas == 0
    ensures Gobble(o, text, i, '}', st) ==
            Gobble(o, text, i + 1, '}', if st.level > 0 then st.(level := st.level - 1) else st)
  {}

  lemma {:induction false} CommaPast(text: string, i: nat, p: Pattern)
    requires At(text, i, Print(p)) && Pieces(p) && HasComma(text, i + |Print(p)|)
    ensures HasComma(text, i)
    decreases p
  {
    hide Print, PrintArms, At, HasComma, Text, AtomWellFormed, ArmsWellFormed, RangeWellFormed;
    match p {
      case Empty => EmptyShape(text, i);
      case Char(a, rest) =>
        CharShape(text, i, a, rest);
        CommaPast(text, i + |Text(a)|, rest);
        AtomComma(text, i, a);
      case Alt(arms, rest) =>
        AltShape(text, i, arms, rest);
        ArmsComma(text, i + 1, arms);
        BraceComma(text, i);
      case Range(t, rest) =>
        RangeShape(text, i, t, rest);
        CommaPast(text, i + |t| + 2, rest);
        RangeComma(text, i, t);
      case Open(rest) =>
        OpenShape(text, i, rest);
        CommaPast(text, i + 1, rest);
        BraceComma(text, i);
      case Shut(rest) =>
        ShutShape(text, i, rest);
        CommaPast(text, i + 1, rest);
        BraceComma(text, i);
      case Comma(rest) =>
        CommaShape(text, i, rest);
        BraceComma(text, i);
    }
  }

  lemma BraceComma(text: string, i: nat)
    requires i < |text| && text[i] in {'{', '}', ','} && (text[i] != ',' ==> HasComma(text, i + 1))
    ensures HasComma(text, i)
  {}

  lemma RangeComma(text: string, i: nat, t: string)
    requires At(text, i + 1, t) && RangeWellFormed(t) && i + |t| + 2 <= |text| && HasComma(text, i + |t| + 2)
    requires text[i] == '{' && text[i + 1 + |t|] == '}'
    ensures HasComma(text, i)
  {
    forall m | i + 1 <= m < i + 1 + |t| ensures text[m] == t[m - i - 1] {
      AtChar(text, i + 1, t, m);
    }
    CommaBack(text, i, i + |t| + 2);
  }

  lemma AtomComma(text: string, i: nat, a: Atom)
    requires At(text, i, Text(a)) && HasComma(text, i + |Text(a)|) && AtomWellFormed(a)
    ensures HasComma(text, i)
  {
    hide HasComma, At, Text;
    var w := Text(a);
    AtBound(text, i, w);
    if a.Escaped? {
      EscapedShape(text, i, a.c);
      EscapedComma(text, i);
    } else {
      LastPlain(a);
      AtChar(text, i, w, i + |w| - 1);
      CommaBack(text, i, i + |w|);
    }
  }

  lemma EscapedComma(text: string, i: nat)
    requires i + 1 < |text| && text[i] == '\\' && HasComma(text, i + 2)
    ensures HasComma(text, i)
  {}

  /** Only an escaped character can be a backslash at the end of a piece. */
  lemma LastPlain(a: Atom)
    requires AtomWellFormed(a) && !a.Escaped?
    ensures Text(a) != "" && Text(a)[|Text(a)| - 1] != '\\'
  {
    hide InsideText, InnerWellFormed, Simple, PlainText;
  }

  /** A separator seen from n is seen from i, when no backslash stands right before n. */
  lemma {:induction false} CommaBack(text: string, i: nat, n: nat)
    requires i <= n <= |text| && HasComma(text, n) && (i < n ==> text[n - 1] != '\\')
    ensures HasComma(text, i)
    decreases n - i
  {
    if i < n && text[i] != ',' {
      CommaBack(text, if text[i] == '\\' then i + 2 else i + 1, n);
    }
  }

  lemma {:induction false} ArmsComma(text: string, i: nat, arms: Arms)
    requires At(text, i, PrintArms(arms)) && ArmsWellFormed(arms) && arms.And?
    ensures HasComma(text, i)
    decreases arms
  {
    hide Print, PrintArms, At, Pieces, Ordered, Balanced;
    AndShape(text, i, arms.p, arms.more);
    assert HasComma(text, i + |Print(arms.p)|);
    CommaPast(text, i, arms.p);
  }

  /** The characters of an amble, each bare or behind a backslash. */
  datatype Mark = Bare(c: char) | Behind(c: char)

  function MarksText(ms: seq<Mark>): string {
    if ms == [] then "" else (if ms[0].Bare? then [ms[0].c] else ['\\', ms[0].c]) + MarksText(ms[1..])
  }

  /** An amble has a separator if and only if one of its commas is not escaped. */
  lemma {:induction false} CommaExactly(ms: seq<Mark>, text: string, i: nat)
    requires (forall m <- ms :: m.Bare? ==> m.c != '\\') && At(text, i, MarksText(ms))
    requires i + |MarksText(ms)| == |text|
    ensures HasComma(text, i) <==> Bare(',') in ms
    decreases |ms|
  {
    hide At;
    if ms != [] {
      var u := if ms[0].Bare? then [ms[0].c] else ['\\', ms[0].c];
      AtSplit(text, i, u, MarksText(ms[1..]));
      if ms[0].Bare? { AtOne(text, i, ms[0].c); } else { AtTwo(text, i, '\\', ms[0].c); }
      CommaExactly(ms[1..], text, i + |u|);
      assert Bare(',') in ms <==> ms[0] == Bare(',') || Bare(',') in ms[1..];
    }
  }

  /** The literal text in front of the first brace expression. */
  function Lead(p: Pattern): string {
    match p
    case Char(a, rest) => Text(a) + Lead(rest)
    case Open(rest) => "{" + Lead(rest)
    case Shut(rest) => "}" + Lead(rest)
    case Comma(rest) => "," + Lead(rest)
    case _ => ""
  }

  function Tail(p: Pattern): Pattern {
    if Literal(p) then Tail(p.rest) else p
  }

  /** A piece that stands for itself. */
  predicate Literal(p: Pattern) { p.Char? || p.Open? || p.Shut? || p.Comma? }

  function Front(p: Pattern): string
    requires Literal(p)
  {
    if p.Char? then Text(p.a) else if p.Open? then "{" else if p.Shut? then "}" else ","
  }

  lemma FrontIs(p: Pattern)
    requires Literal(p)
    ensures Print(p) == Front(p) + Print(p.rest) && Words(p) == Prefixed(Front(p), Words(p.rest))
    ensures Lead(p) == Front(p) + Lead(p.rest) && Tail(p) == Tail(p.rest)
  {
    hide Text, Prefixed;
  }

  lemma LeadNone(p: Pattern)
    requires !Literal(p)
    ensures Lead(p) == "" && Tail(p) == p && "" + Print(p) == Print(p)
  {}

  lemma {:induction false} LeadTail(p: Pattern)
    ensures Print(p) == Lead(p) + Print(Tail(p)) && (Tail(p).Empty? || Tail(p).Alt? || Tail(p).Range?)
    ensures Words(p) == Prefixed(Lead(p), Words(Tail(p)))
  {
    hide Print, Words, Lead, Tail, Front, Prefixed;
    if Literal(p) {
      FrontIs(p);
      LeadTail(p.rest);
      PrefixedTwice(Front(p), Lead(p.rest), Words(Tail(p)));
      Reassociated(Front(p), Lead(p.rest), Print(Tail(p)));
    } else {
      LeadNone(p);
      PrefixedNone(Words(p));
    }
  }

  lemma TailWellFormed(p: Pattern)
    requires WellFormed(p)
    ensures WellFormed(Tail(p)) && (HasSubst(Tail(p)) ==> HasSubst(p))
  {
    hide Ordered, Pieces;
    if Ordered(p, false, false) {
      TailPieces(p, false, false);
    } else {
      PairRest(p);
      TailPieces(p.rest.rest, false, false);
    }
  }

  lemma PairRest(p: Pattern)
    requires Pieces(p) && EmptyPair(p)
    ensures Pieces(p.rest.rest) && Ordered(p.rest.rest, false, false) && HasSubst(p) == HasSubst(p.rest.rest)
    ensures Tail(p) == Tail(p.rest.rest) && Lead(p) == "{" + ("}" + Lead(p.rest.rest))
    ensures Print(p) == "{" + ("}" + Print(p.rest.rest))
  {}

  lemma {:induction false} TailPieces(p: Pattern, open: bool, parted: bool)
    requires Pieces(p) && Ordered(p, open, parted)
    ensures WellFormed(Tail(p)) && (HasSubst(Tail(p)) ==> HasSubst(p))
  {
    match p
    case Char(_, rest) => TailPieces(rest, open, parted || (open && Dotted(p)));
    case Open(rest) => TailPieces(rest, true, parted);
    case Shut(rest) => TailPieces(rest, open, parted);
    case Comma(rest) => TailPieces(rest, open, parted || open);
    case _ => OrderedLess(p, open, parted);
  }

  lemma RestWellFormed(p: Pattern)
    requires WellFormed(p) && (p.Alt? || p.Range?)
    ensures WellFormed(p.rest) && (HasSubst(p.rest) ==> HasSubst(p))
    ensures p.Alt? ==> p.arms.And? && ArmsWellFormed(p.arms) && (ArmsHaveSubst(p.arms) ==> HasSubst(p))
    ensures p.Range? ==> RangeWellFormed(p.t)
  {}

  /** What is in order behind an open brace is in order without it. */
  lemma {:induction false} OrderedLess(p: Pattern, open: bool, parted: bool)
    requires Ordered(p, open, parted)
    ensures Ordered(p, false, false)
  {
    OrderedWith(p, open, parted, false, false);
  }

  lemma {:induction false} OrderedWith(p: Pattern, open: bool, parted: bool, open': bool, parted': bool)
    requires Ordered(p, open, parted) && (open' ==> open) && (parted' ==> parted)
    ensures Ordered(p, open', parted')
  {
    match p
    case Empty =>
    case Char(_, rest) =>
      OrderedWith(rest, open, parted || (open && Dotted(p)), open', parted' || (open' && Dotted(p)));
    case Alt(_, rest) => OrderedWith(rest, open, parted, open', parted');
    case Range(_, rest) => OrderedWith(rest, open, parted, open', parted');
    case Open(rest) => OrderedWith(rest, true, parted, true, parted');
    case Shut(rest) => OrderedWith(rest, open, parted, open', parted');
    case Comma(rest) => OrderedWith(rest, open, parted || open, open', parted' || open');
  }

  lemma PrefixedTwice(u: string, v: string, ws: seq<string>)
    ensures Prefixed(u, Prefixed(v, ws)) == Prefixed(u + v, ws)
  {
    forall j | 0 <= j < |ws| ensures u + (v + ws[j]) == (u + v) + ws[j] {}
  }

  /** The search for a brace expression passes over the literal text, and over braces in it that begin none. */
  lemma {:induction false} LeadSearched(o: Outside, text: string, i: nat, p: Pattern, open: bool, parted: bool)
    requires At(text, i, Print(p)) && i + |Print(p)| == |text| && Pieces(p) && Ordered(p, open, parted)
    requires Sees(o) || !HasSubst(p)
    ensures i + |Lead(p)| <= |text| && FirstBrace(o, text, i) == FirstBrace(o, text, i + |Lead(p)|)
    decreases p
  {
    hide FirstBrace, Print, At, Text, Sees, Pieces, Ordered, HasSubst;
    if Literal(p) {
      var open', parted' := LeadStep(o, text, i, p, open, parted);
      var n := if p.Char? then |Text(p.a)| else 1;
      LeadSearched(o, text, i + n, p.rest, open', parted');
    } else {
      AtBound(text, i, Print(p));
    }
  }

  lemma WholeSearched(o: Outside, p: Pattern)
    requires WellFormed(p) && (Sees(o) || !HasSubst(p))
    ensures var text := Print(p); |Lead(p)| <= |text| && FirstBrace(o, text, 0) == FirstBrace(o, text, |Lead(p)|)
  {
    hide FirstBrace, Print, Sees, Pieces, Ordered, HasSubst, Lead, Tail;
    var text := Print(p);
    Itself(text);
    if Ordered(p, false, false) {
      LeadSearched(o, text, 0, p, false, false);
    } else {
      var rest := p.rest.rest;
      PairRest(p);
      AtFirst(text, 0, '{', "}" + Print(rest));
      AtFirst(text, 1, '}', Print(rest));
      PairSearched(o, text);
      LeadSearched(o, text, 2, rest, false, false);
    }
  }

  /** An empty pair of braces at the head of a text is passed over, whatever follows. */
  lemma PairSearched(o: Outside, text: string)
    requires |text| >= 2 && text[0] == '{' && text[1] == '}'
    ensures FirstBrace(o, text, 0) == FirstBrace(o, text, 2)
  {
    hide Close;
    assert Lonely(text, 0);
    assert Gobble(o, text, 0, '{', Begin('{')) == Gobble(o, text, 1, '{', Begin('{'));
    assert Gobble(o, text, 1, '{', Begin('{')) == Gobble(o, text, 2, '{', Begin('{'));
  }

  lemma LeadStep(o: Outside, text: string, i: nat, p: Pattern, open: bool, parted: bool)
    returns (open': bool, parted': bool)
    requires At(text, i, Print(p)) && i + |Print(p)| == |text| && Pieces(p) && Ordered(p, open, parted)
    requires (Sees(o) || !HasSubst(p)) && Literal(p)
    ensures var n := if p.Char? then |Text(p.a)| else 1;
            && i + n <= |text| && FirstBrace(o, text, i) == FirstBrace(o, text, i + n)
            && At(text, i + n, Print(p.rest)) && i + n + |Print(p.rest)| == |text|
    ensures Pieces(p.rest) && Ordered(p.rest, open', parted') && (HasSubst(p.rest) ==> HasSubst(p))
  {
    hide FirstBrace, Print, At, Text, AtomWellFormed, AtomHasSubst, Sees, Dotted, Close, Gobble;
    open', parted' := open, parted;
    match p {
      case Char(a, rest) =>
        CharShape(text, i, a, rest);
        AtomSearched(o, text, i, a);
        parted' := parted || (open && Dotted(p));
      case Open(rest) =>
        OpenShape(text, i, rest);
        OpenFails(o, text, i, rest, parted);
        open' := true;
      case Shut(rest) =>
        ShutShape(text, i, rest);
        CharSearched(o, text, i);
      case Comma(rest) =>
        CommaShape(text, i, rest);
        CharSearched(o, text, i);
        parted' := parted || open;
    }
  }

  lemma OpenFails(o: Outside, text: string, i: nat, rest: Pattern, parted: bool)
    requires i < |text| && text[i] == '{' && At(text, i + 1, Print(rest)) && i + 1 + |Print(rest)| == |text|
    requires Pieces(rest) && Ordered(rest, true, parted) && (Sees(o) || !HasSubst(rest))
    ensures FirstBrace(o, text, i) == FirstBrace(o, text, i + 1)
  {
    hide FirstBrace, Print, At, Sees, Pieces, Ordered, HasSubst, Gobble;
    NeverHits(o, text, i + 1, rest, parted, Begin('}'));
    OpenSearched(o, text, i);
  }

  lemma AtomSearched(o: Outside, text: string, i: nat, a: Atom)
    requires At(text, i, Text(a)) && AtomWellFormed(a) && (Sees(o) || !AtomHasSubst(a))
    ensures i + |Text(a)| <= |text| && FirstBrace(o, text, i) == FirstBrace(o, text, i + |Text(a)|)
  {
    hide At, Text, Sees, AtomWellFormed, AtomHasSubst, Gobble, Close;
    AtBound(text, i, Text(a));
    var st' := AtomGoes(o, text, i, a, '{', Begin('{'));
    assert st' == Begin('{');
  }

  /** An open brace from which nothing closes is passed over. */
  lemma OpenSearched(o: Outside, text: string, i: nat)
    requires i < |text| && text[i] == '{' && !Close(o, text, i + 1).hit
    ensures FirstBrace(o, text, i) == FirstBrace(o, text, i + 1)
  {
    hide Close;
    assert Gobble(o, text, i, '{', Begin('{')) ==
           if Lonely(text, i) then Gobble(o, text, i + 1, '{', Begin('{')) else Stop(i, true);
  }

  lemma CharSearched(o: Outside, text: string, i: nat)
    requires i < |text| && (text[i] == '}' || text[i] == ',')
    ensures FirstBrace(o, text, i) == FirstBrace(o, text, i + 1)
  {
    hide Close;
    assert Gobble(o, text, i, '{', Begin('{')) == Gobble(o, text, i + 1, '{', Begin('{'));
  }

  /** An alternation never begins with a blank or an empty pair of braces. */
  lemma ArmsOpen(arms: Arms)
    requires arms.And? && ArmsWellFormed(arms)
    ensures var w := PrintArms(arms); w != "" && !Blank(w[0]) && w[0] != '}'
  {
    hide Print, Ordered;
    var p := arms.p;
    if Print(p) == "" {
      assert PrintArms(arms) == "" + ("," + PrintArms(arms.more));
    } else {
      assert PrintArms(arms)[0] == Print(p)[0];
      FirstSolid(p);
    }
  }

  lemma FirstSolid(p: Pattern)
    requires Pieces(p) && Balanced(p, 0) && Print(p) != ""
    ensures !Blank(Print(p)[0]) && Print(p)[0] != '}'
  {
    hide PrintArms, RangeWellFormed, ArmsWellFormed;
    if p.Char? {
      SolidAtom(p.a);
      assert Print(p)[0] == Text(p.a)[0];
    }
  }

  lemma SolidAtom(a: Atom)
    requires AtomWellFormed(a)
    ensures Text(a) != "" && !Blank(Text(a)[0]) && Text(a)[0] != '}'
  {
    hide InsideText, InnerWellFormed;
  }

  lemma NoBrace(o: Outside, p: Pattern)
    requires WellFormed(p) && Tail(p).Empty? && (Sees(o) || !HasSubst(p))
    ensures FirstBrace(o, Print(p), 0) == Stop(|Print(p)|, false)
  {
    hide At, Words, Pieces, Ordered, Sees, HasSubst, Print, FirstBrace;
    LeadTail(p);
    WholeSearched(o, p);
    assert Print(Empty) == "" by { EmptyPrints(); }
    assert Lead(p) + "" == Lead(p);
    NothingFound(o, Print(p));
  }

  lemma EmptyPrints()
    ensures Print(Empty) == ""
  {}

  lemma NothingFound(o: Outside, text: string)
    ensures FirstBrace(o, text, |text|) == Stop(|text|, false)
  {}

  /** Where the pieces around the first alternation stand. */
  lemma AltPieces(p: Pattern)
    requires Tail(p).Alt?
    ensures var text, i, arms, rest := Print(p), |Lead(p)|, Tail(p).arms, Tail(p).rest;
            var k := i + 1 + |PrintArms(arms)|;
            && i < k < |text| && |PrintArms(arms)| < |text| && |Print(rest)| < |text|
            && text[i] == '{' && text[k] == '}' && At(text, i + 1, PrintArms(arms))
            && text[..i] == Lead(p) && text[i + 1..k] == PrintArms(arms) && text[k + 1..] == Print(rest)
  {
    LeadTail(p);
    hide Print, PrintArms, Lead, Tail, Words;
    var text, i, arms, rest := Print(p), |Lead(p)|, Tail(p).arms, Tail(p).rest;
    Itself(text);
    AtSplit(text, 0, Lead(p), Print(Tail(p)));
    AltShape(text, i, arms, rest);
    assert |text| == i + 1 + |PrintArms(arms)| + 1 + |Print(rest)|;
  }

  /** Where the pieces around the first brace stand, if it holds a text with `..` in it. */
  lemma RangePieces(p: Pattern)
    requires Tail(p).Range?
    ensures var text, i, t, rest := Print(p), |Lead(p)|, Tail(p).t, Tail(p).rest;
            var k := i + 1 + |t|;
            && i < k < |text| && |Print(rest)| < |text| && text[i] == '{' && text[k] == '}' && At(text, i + 1, t)
            && text[..i] == Lead(p) && text[i + 1..k] == t && text[k + 1..] == Print(rest)
            && text[i..k + 1] == "{" + (t + "}")
  {
    LeadTail(p);
    hide Print, Lead, Tail, Words;
    var text, i, t, rest := Print(p), |Lead(p)|, Tail(p).t, Tail(p).rest;
    Itself(text);
    AtSplit(text, 0, Lead(p), Print(Tail(p)));
    RangeShape(text, i, t, rest);
    assert |text| == i + 1 + |t| + 1 + |Print(rest)|;
  }

  /** Plain characters outside inner braces: only `..` counts, and there is one. */
  lemma {:induction false} DotsGo(o: Outside, text: string, i: nat, j: nat, k: nat, st: Scan) returns (st': Scan)
    requires i <= j <= k < |text| && Clean(st) && st.level == 0 && text[k] == '}'
    requires forall m :: i <= m < k ==> text[m] !in SPECIALS
    requires st.commas > 0 || (j + 2 < k && text[j] == '.' && text[j + 1] == '.')
    ensures Goes(o, text, i, k, '}', st, st') && st'.commas > 0
    decreases k - i
  {
    hide Gobble;
    st' := st;
    if i < k {
      var st1 := DotsStep(o, text, i, st);
      st' := DotsGo(o, text, i + 1, if j == i then i + 1 else j, k, st1);
    }
  }

  lemma DotsStep(o: Outside, text: string, i: nat, st: Scan) returns (st': Scan)
    requires i < |text| && text[i] !in SPECIALS && Clean(st) && st.level == 0
    ensures Goes(o, text, i, i + 1, '}', st, st')
    ensures Dots(text, i) && CharAt(text, i + 2) != '}' ==> st'.commas > 0
  {
    st' := Note(text, i, '}', st);
  }

  /** The brace that closes a range is found, and the one that opens it. */
  lemma RangeFound(o: Outside, text: string, i: nat, t: string)
    requires At(text, i + 1, t) && RangeWellFormed(t)
    requires var k := i + 1 + |t|; k < |text| && text[i] == '{' && text[k] == '}'
    requires FirstBrace(o, text, 0) == FirstBrace(o, text, i)
    ensures FirstBrace(o, text, 0) == Stop(i, true) && Close(o, text, i + 1) == Stop(i + 1 + |t|, true)
  {
    hide Gobble, SeqTerms.FirstDots;
    var k := i + 1 + |t|;
    forall m | i + 1 <= m < k ensures text[m] == t[m - i - 1] {
      AtChar(text, i + 1, t, m);
    }
    var st' := DotsGo(o, text, i + 1, i + 1 + SeqTerms.FirstDots(t, 0), k, Begin('}'));
    CloseHere(o, text, k, st');
    OpenFound(o, text, i);
  }

  lemma CloseHere(o: Outside, text: string, k: nat, st: Scan)
    requires k < |text| && text[k] == '}' && Clean(st) && st.level == 0 && st.commas > 0
    ensures Gobble(o, text, k, '}', st) == Stop(k, true)
  {}

  lemma BraceFound(o: Outside, text: string, i: nat, arms: Arms)
    requires At(text, i + 1, PrintArms(arms)) && ArmsWellFormed(arms) && arms.And?
    requires Sees(o) || !ArmsHaveSubst(arms)
    requires var k := i + 1 + |PrintArms(arms)|; k < |text| && text[i] == '{' && text[k] == '}'
    requires FirstBrace(o, text, 0) == FirstBrace(o, text, i)
    ensures FirstBrace(o, text, 0) == Stop(i, true)
    ensures Close(o, text, i + 1) == Stop(i + 1 + |PrintArms(arms)|, true)
  {
    hide Gobble, PrintArms, Sees, ArmsWellFormed, ArmsHaveSubst, At;
    CloseFound(o, text, i + 1, arms);
    ArmsOpen(arms);
    AtChar(text, i + 1, PrintArms(arms), i + 1);
    OpenFound(o, text, i);
  }

  lemma OpenFound(o: Outside, text: string, i: nat)
    requires i + 1 < |text| && text[i] == '{' && !Blank(text[i + 1]) && text[i + 1] != '}'
    requires Close(o, text, i + 1).hit
    ensures FirstBrace(o, text, i) == Stop(i, true)
  {
    hide Close;
    assert Gobble(o, text, i, '{', Begin('{')) == Stop(i, true);
  }

  lemma {:induction false} ProductPrefixed(x: string, a: seq<string>, b: seq<string>)
    ensures Product(Prefixed(x, a), b) == Prefixed(x, Product(a, b))
  {
    if a != [] {
      var rest := a[1..];
      ProductPrefixed(x, rest, b);
      assert Prefixed(x, a)[1..] == Prefixed(x, rest);
      forall j | 0 <= j < |b| ensures (x + a[0]) + b[j] == x + (a[0] + b[j]) {}
      assert Prefixed(x + a[0], b) == Prefixed(x, Prefixed(a[0], b));
      assert Prefixed(x, Prefixed(a[0], b)) + Prefixed(x, Product(rest, b)) == Prefixed(x, Product(a, b));
    }
  }

  lemma ProductOne(x: string, b: seq<string>)
    ensures Product([x], b) == Prefixed(x, b)
  {
    assert Product([x], b) == Prefixed(x, b) + [];
  }

  /** Expansion around a brace that was found, in terms of the pieces of the text. */
  lemma ExpandAround(o: Outside, text: string, i: nat, k: nat, x: string, amble: string, post: string)
    requires i < k < |text| && FirstBrace(o, text, 0) == Stop(i, true) && Close(o, text, i + 1) == Stop(k, true)
    requires text[..i] == x && text[i + 1..k] == amble && text[k + 1..] == post && HasComma(amble, 0)
    ensures var front := Prefixed(x, Amble(o, amble, 0));
            Expand(o, text) == if post != "" then Product(front, Expand(o, post)) else front
  {
    hide FirstBrace, Close, HasComma, Amble, Product, Prefixed;
    ProductOne(x, Amble(o, amble, 0));
  }

  /** The same for a brace without separators, whether or not it holds a sequence. */
  lemma RangeAround(o: Outside, text: string, i: nat, k: nat, x: string, t: string, post: string)
    requires i < k < |text| && FirstBrace(o, text, 0) == Stop(i, true) && Close(o, text, i + 1) == Stop(k, true)
    requires text[..i] == x && text[i + 1..k] == t && text[k + 1..] == post && !HasComma(t, 0)
    requires text[i..k + 1] == "{" + (t + "}")
    ensures var front := Prefixed(x, RangeWords(t));
            Expand(o, text) == if post != "" then Product(front, Expand(o, post)) else front
  {
    hide FirstBrace, Close, HasComma, Amble, Product, Prefixed, SeqTerms.SeqTerm;
    ProductOne(x, RangeWords(t));
    if post == "" {
      WholeText(text, i, k);
      PrefixedOne(x, text[i..k + 1]);
    }
  }

  lemma WholeText(text: string, i: nat, k: nat)
    requires i < k < |text| && text[k + 1..] == ""
    ensures text[..i] + text[i..k + 1] == text
  {}

  lemma PrefixedOne(x: string, y: string)
    ensures Prefixed(x, [y]) == [x + y]
  {}

  lemma {:induction false} NoCommaIn(t: string, i: nat)
    requires PlainText(t)
    ensures !HasComma(t, i)
    decreases |t| - i
  {
    if i < |t| { NoCommaIn(t, i + 1); }
  }

  lemma RangePlain(t: string)
    requires RangeWellFormed(t)
    ensures !HasComma(t, 0)
  {
    hide HasComma;
    NoCommaIn(t, 0);
  }

  lemma {:induction false} ExpandRange(o: Outside, p: Pattern)
    requires WellFormed(p) && Tail(p).Range? && (Sees(o) || !HasSubst(p))
    ensures Expand(o, Print(p)) == Words(p)
    decreases |Print(p)|, 0, 0
  {
    hide Lead, Tail, Print, Words, RangeWords, Expand, FirstBrace, Close, HasComma, At, Product, Ordered, Sees, Pieces,
      HasSubst, RangeWellFormed, Prefixed;
    LeadTail(p);
    TailWellFormed(p);
    var text, i, t, rest := Print(p), |Lead(p)|, Tail(p).t, Tail(p).rest;
    RangePieces(p);
    RestWellFormed(Tail(p));
    WholeSearched(o, p);
    RangeFound(o, text, i, t);
    RangePlain(t);
    RangeAround(o, text, i, i + 1 + |t|, Lead(p), t, Print(rest));
    ExpandPrint(o, rest);
    RangeProduct(Lead(p), t, rest);
  }

  lemma RangeProduct(x: string, t: string, rest: Pattern)
    ensures Prefixed(x, Words(Range(t, rest))) ==
            if Print(rest) != "" then Product(Prefixed(x, RangeWords(t)), Words(rest)) else Prefixed(x, RangeWords(t))
  {
    hide Product, Prefixed, RangeWords;
    ProductPrefixed(x, RangeWords(t), Words(rest));
    if rest.Empty? { ProductNone(RangeWords(t)); } else { NotEmpty(rest); }
  }

  /** Brace expansion of a printed pattern is the pattern's product expansion, whatever lies outside. */
  lemma {:induction false} ExpandPrint(o: Outside, p: Pattern)
    requires WellFormed(p) && (Sees(o) || !HasSubst(p))
    ensures Expand(o, Print(p)) == Words(p)
    decreases |Print(p)|, 1
  {
    hide Lead, Tail, Print, PrintArms, Words, ArmWords, Expand, Amble, FirstBrace, Close, HasComma, At, Product,
      Ordered, Sees;
    LeadTail(p);
    TailWellFormed(p);
    if Tail(p).Empty? {
      NoBrace(o, p);
      LiteralExpands(o, p);
    } else if Tail(p).Range? {
      ExpandRange(o, p);
    } else {
      var text, i, arms, rest := Print(p), |Lead(p)|, Tail(p).arms, Tail(p).rest;
      AltPieces(p);
      RestWellFormed(Tail(p));
      WholeSearched(o, p);
      BraceFound(o, text, i, arms);
      Itself(PrintArms(arms));
      ArmsComma(PrintArms(arms), 0, arms);
      ExpandAround(o, text, i, i + 1 + |PrintArms(arms)|, Lead(p), PrintArms(arms), Print(rest));
      ArmsExpand(o, PrintArms(arms), 0, arms);
      ExpandPrint(o, rest);
      AltWords(Lead(p), arms, rest);
    }
  }

  /** The text behind the ends of a range: nothing, or an increment with leading zeros up to a width. */
  function StepBy(stepped: bool, w: int, incr: int): string {
    if stepped then ".." + Sequences.ZeroPadded(w, incr) else ""
  }

  lemma RangeTextPlain(w1: int, lo: int, w2: int, hi: int, stepped: bool, w3: int, incr: int)
    ensures RangeWellFormed(SeqTerms.RangeText(w1, lo, w2, hi, StepBy(stepped, w3, incr)))
  {
    hide Sequences.ZeroPadded, SeqTerms.FirstDots, PlainText;
    var u, v, z := Sequences.ZeroPadded(w1, lo), Sequences.ZeroPadded(w2, hi), StepBy(stepped, w3, incr);
    NumberPlain(w1, lo);
    NumberPlain(w2, hi);
    NumberPlain(w3, incr);
    DotsPlain();
    PlainCat("..", Sequences.ZeroPadded(w3, incr));
    PlainCat(v, z);
    PlainCat("..", v + z);
    PlainCat(u, ".." + (v + z));
    SeqTerms.Halves(u, v + z);
  }

  lemma DotsPlain()
    ensures PlainText("..") && PlainText("")
  {}

  lemma PlainCat(u: string, v: string)
    requires PlainText(u) && PlainText(v)
    ensures PlainText(u + v)
  {}

  lemma NumberPlain(w: int, v: int)
    ensures var u := Sequences.ZeroPadded(w, v);
            PlainText(u) && |u| > 0 && forall k :: 0 <= k < |u| ==> u[k] != '.'
  {
    hide Sequences.ZeroPadded;
    SeqTerms.NumberChars(w, v);
  }

  /**
   {lo..hi} and {lo..hi..incr}, each number written with any leading zeros, expand to the numbers from lo
   toward hi in steps of 1 or incr; unless the range is refused, when the text stays as it is.
   */
  lemma RangeExpands(o: Outside, w1: int, lo: int, w2: int, hi: int, stepped: bool, w3: int, incr: int)
    requires Int64.InRange(lo) && Int64.InRange(hi) && Int64.InRange(incr) && (!stepped ==> incr == 1)
    requires Sequences.Countable(lo, hi, incr)
    ensures var t := SeqTerms.RangeText(w1, lo, w2, hi, StepBy(stepped, w3, incr));
            var kind := SeqTerms.KindOf(Sequences.ZeroPadded(w1, lo), Sequences.ZeroPadded(w2, hi));
            Expand(o, "{" + (t + "}")) ==
            if Sequences.Refused(lo, hi, incr) then ["{" + (t + "}")]
            else Sequences.Elements(lo, hi, incr, kind).value
  {
    hide SeqTerms.RangeText, SeqTerms.KindOf, Sequences.ZeroPadded, SeqTerms.SeqTerm, Expand, Sequences.Refused,
      Sequences.Countable;
    var t := SeqTerms.RangeText(w1, lo, w2, hi, StepBy(stepped, w3, incr));
    RangeTextPlain(w1, lo, w2, hi, stepped, w3, incr);
    SeqTerms.IntRange(w1, lo, w2, hi, w3, incr);
    RangeAlone(t);
    ExpandPrint(o, Range(t, Empty));
    ProductNone(RangeWords(t));
  }

  lemma RangeAlone(t: string)
    requires RangeWellFormed(t)
    ensures WellFormed(Range(t, Empty)) && !HasSubst(Range(t, Empty)) && Print(Range(t, Empty)) == "{" + (t + "}")
    ensures Words(Range(t, Empty)) == Product(RangeWords(t), [""])
  {
    hide RangeWellFormed, SeqTerms.SeqTerm;
    assert Pieces(Empty) && Ordered(Empty, false, false) && !HasSubst(Empty) && Print(Empty) == "";
    assert Words(Empty) == [""] && "}" + "" == "}";
  }

  /** With plain decimal ends the words are the plain decimal numbers. */
  lemma PlainRange(o: Outside, lo: int, hi: int)
    requires Int64.InRange(lo) && Int64.InRange(hi) && Sequences.Countable(lo, hi, 1)
    ensures var text := "{" + ((Numerals.Itos(lo) + (".." + Numerals.Itos(hi))) + "}");
            var words := Expand(o, text);
            if Sequences.Refused(lo, hi, 1) then words == [text]
            else
              && |words| == (if lo <= hi then hi - lo else lo - hi) + 1
              && forall k :: 0 <= k < |words| ==> words[k] == Numerals.Itos(if lo <= hi then lo + k else lo - k)
  {
    hide Expand, Numerals.Itos, Sequences.ZeroPadded, SeqTerms.Zeroed, Sequences.Refused, Sequences.Countable;
    RangeExpands(o, 0, lo, 0, hi, false, 0, 1);
    SeqTerms.PlainNumbers(lo);
    SeqTerms.PlainNumbers(hi);
    assert Numerals.Itos(hi) + "" == Numerals.Itos(hi);
    Reassociated(Numerals.Itos(lo), "..", Numerals.Itos(hi));
  }

  /** Plain characters in front of a pattern. */
  function Chars(t: string, p: Pattern): Pattern {
    if t == "" then p else Char(Plain(t[0]), Chars(t[1..], p))
  }

  lemma {:induction false} CharsAre(t: string, p: Pattern, open: bool)
    requires PlainText(t) && '.' !in t && Pieces(p) && Ordered(p, open, false)
    ensures Pieces(Chars(t, p)) && Ordered(Chars(t, p), open, false)
    ensures Print(Chars(t, p)) == t + Print(p) && Words(Chars(t, p)) == Prefixed(t, Words(p))
    ensures HasSubst(Chars(t, p)) == HasSubst(p)
  {
    hide Prefixed;
    if t == "" {
      PrefixedNone(Words(p));
    } else {
      CharsAre(t[1..], p, open);
      PrefixedTwice([t[0]], t[1..], Words(p));
      assert [t[0]] + t[1..] == t;
      Reassociated([t[0]], t[1..], Print(p));
    }
  }

  /** Braces around a text without separators stay, and the rest of the word is expanded all the same. */
  lemma LoneBrace(o: Outside, t: string, p: Pattern)
    requires PlainText(t) && '.' !in t && Pieces(p) && Ordered(p, true, false) && (Sees(o) || !HasSubst(p))
    ensures Expand(o, ("{" + t + "}") + Print(p)) == Prefixed("{" + t + "}", Words(p))
  {
    hide Prefixed, Pieces, Ordered, HasSubst, Sees, Expand, Chars, PlainText;
    var q := Open(Chars(t, Shut(p)));
    ShutAre(p);
    CharsAre(t, Shut(p), true);
    OpenAre(Chars(t, Shut(p)));
    ExpandPrint(o, q);
    PrefixedTwice(t, "}", Words(p));
    PrefixedTwice("{", t + "}", Words(p));
    Reassociated("{", t, "}");
    Reassociated(t, "}", Print(p));
    Reassociated("{", t + "}", Print(p));
  }

  lemma ShutAre(p: Pattern)
    requires Pieces(p) && Ordered(p, true, false)
    ensures Pieces(Shut(p)) && Ordered(Shut(p), true, false) && HasSubst(Shut(p)) == HasSubst(p)
    ensures Print(Shut(p)) == "}" + Print(p) && Words(Shut(p)) == Prefixed("}", Words(p))
  {}

  lemma OpenAre(p: Pattern)
    requires Pieces(p) && Ordered(p, true, false)
    ensures WellFormed(Open(p)) && HasSubst(Open(p)) == HasSubst(p)
    ensures Print(Open(p)) == "{" + Print(p) && Words(Open(p)) == Prefixed("{", Words(p))
  {}

  lemma LiteralExpands(o: Outside, p: Pattern)
    requires Tail(p).Empty? && FirstBrace(o, Print(p), 0) == Stop(|Print(p)|, false)
    ensures Expand(o, Print(p)) == Words(p)
  {
    hide FirstBrace;
    LeadTail(p);
    assert Lead(p) + "" == Print(p);
    assert Prefixed(Lead(p), [""]) == [Lead(p) + ""];
  }

  lemma AltWords(x: string, arms: Arms, rest: Pattern)
    ensures Prefixed(x, Words(Alt(arms, rest))) ==
            if Print(rest) != "" then Product(Prefixed(x, ArmWords(arms)), Words(rest)) else Prefixed(x, ArmWords(arms))
  {
    hide Product, Prefixed;
    ProductPrefixed(x, ArmWords(arms), Words(rest));
    if rest.Empty? { ProductNone(ArmWords(arms)); } else { NotEmpty(rest); }
  }

  lemma NotEmpty(p: Pattern)
    requires !p.Empty?
    ensures Print(p) != ""
  {}

  lemma {:induction false} ArmsExpand(o: Outside, text: string, i: nat, arms: Arms)
    requires At(text, i, PrintArms(arms)) && i + |PrintArms(arms)| == |text| && ArmsWellFormed(arms)
    requires Sees(o) || !ArmsHaveSubst(arms)
    ensures Amble(o, text, i) == ArmWords(arms)
    decreases |PrintArms(arms)|, 2
  {
    hide Gobble, Expand, Words, Print, PrintArms, At, Ordered, Balanced, Pieces, HasSubst, Sees;
    var p := arms.p;
    if arms.And? {
      AndShape(text, i, p, arms.more);
      ArmsExpand(o, text, i + |Print(p)| + 1, arms.more);
    } else {
      LastShape(p);
    }
    AtBound(text, i, Print(p));
    ArmFound(o, text, i, p);
    ExpandPrint(o, p);
  }

  /** Concatenation of patterns. */
  function Cat(p: Pattern, q: Pattern): Pattern {
    match p
    case Empty => q
    case Char(a, rest) => Char(a, Cat(rest, q))
    case Alt(arms, rest) => Alt(arms, Cat(rest, q))
    case Range(t, rest) => Range(t, Cat(rest, q))
    case Open(rest) => Open(Cat(rest, q))
    case Shut(rest) => Shut(Cat(rest, q))
    case Comma(rest) => Comma(Cat(rest, q))
  }

  lemma {:induction false} CatPrints(p: Pattern, q: Pattern)
    ensures Print(Cat(p, q)) == Print(p) + Print(q)
    decreases p
  {
    hide Text, PrintArms;
    if !p.Empty? {
      CatPrints(p.rest, q);
    }
  }

  /** Concatenated patterns expand to the product of their expansions. */
  lemma {:induction false} CatMeans(p: Pattern, q: Pattern)
    ensures Words(Cat(p, q)) == Product(Words(p), Words(q))
    decreases p
  {
    hide Product, Prefixed;
    match p {
      case Empty => PrefixedNone(Words(q));
      case Char(a, rest) =>
        CatMeans(rest, q);
        ProductPrefixed(Text(a), Words(rest), Words(q));
      case Alt(arms, rest) =>
        CatMeans(rest, q);
        ProductAssociates(ArmWords(arms), Words(rest), Words(q));
      case Range(t, rest) =>
        CatMeans(rest, q);
        ProductAssociates(RangeWords(t), Words(rest), Words(q));
      case Open(rest) =>
        CatMeans(rest, q);
        ProductPrefixed("{", Words(rest), Words(q));
      case Shut(rest) =>
        CatMeans(rest, q);
        ProductPrefixed("}", Words(rest), Words(q));
      case Comma(rest) =>
        CatMeans(rest, q);
        ProductPrefixed(",", Words(rest), Words(q));
    }
  }

  lemma {:induction false} ProductAssociates(a: seq<string>, b: seq<string>, c: seq<string>)
    ensures Product(Product(a, b), c) == Product(a, Product(b, c))
  {
    if a != [] {
      ProductSplit(Prefixed(a[0], b), Product(a[1..], b), c);
      ProductPrefixed(a[0], b, c);
      ProductAssociates(a[1..], b, c);
    }
  }
}
