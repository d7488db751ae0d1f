/** Lines as words with gaps between them, and what alias expansion makes of them. The definitions scan nothing. */
module AliasWords {
  import opened Strings
  import opened Aliases

  /** What can stand between quotes. */
  datatype Inner = Ordinary(c: char) | Pair(c: char)

  /** A piece of a word: a bare character, one behind a backslash, or a quoted string. */
  datatype Part = Plain(c: char) | Escaped(c: char) | Quoted(q: char, inside: seq<Inner>)

  /**
   What is passed over in front of a word: a blank, a command separator, an escaped character that is no
   letter, a quoted string with no letter behind it, or a whole word that begins with an escaped letter, or
   with a quoted string and a letter, up to the blank that ends it.
   */
  datatype Gap =
    | Blank(c: char)
    | Separator(c: char)
    | Escape(c: char)
    | Alone(q: char, inside: seq<Inner>)
    | EscapedWord(c: char, body: seq<Part>, blank: char)
    | QuotedWord(q: char, inside: seq<Inner>, c: char, body: seq<Part>, blank: char)

  /** A word, or a closing parenthesis, which is a token of its own. */
  datatype Token = Word(parts: seq<Part>) | Paren

  datatype Item = Item(gaps: seq<Gap>, token: Token)

  /** The characters that mean something in a line. */
  predicate IsBlank(c: char) { c in {' ', '\t'} }
  predicate IsQuote(c: char) { c in {'\'', '"'} }
  predicate Separates(c: char) { c in {'\r', '\n', ';', '|', '&', '('} }
  predicate Delimits(c: char) { IsBlank(c) || Separates(c) || c == ')' }
  predicate IsLetter(c: char) { 'a' <= c <= 'z' || 'A' <= c <= 'Z' }

  function InnerText(xs: seq<Inner>): string {
    if xs == [] then "" else (if xs[0].Ordinary? then [xs[0].c] else ['\\', xs[0].c]) + InnerText(xs[1..])
  }

  function PartText(p: Part): string {
    match p
    case Plain(c) => [c]
    case Escaped(c) => ['\\', c]
    case Quoted(q, inside) => [q] + (InnerText(inside) + [q])
  }

  function PartsText(ps: seq<Part>): string {
    if ps == [] then "" else PartText(ps[0]) + PartsText(ps[1..])
  }

  function GapText(g: Gap): string {
    match g
    case Blank(c) => [c]
    case Separator(c) => [c]
    case Escape(c) => ['\\', c]
    case Alone(q, inside) => PartText(Quoted(q, inside))
    case EscapedWord(c, body, blank) => ['\\', c] + (PartsText(body) + [blank])
    case QuotedWord(q, inside, c, body, blank) => PartText(Quoted(q, inside)) + ([c] + (PartsText(body) + [blank]))
  }

  function GapsText(gs: seq<Gap>): string {
    if gs == [] then "" else GapText(gs[0]) + GapsText(gs[1..])
  }

  function TokenText(t: Token): string {
    match t
    case Word(parts) => PartsText(parts)
    case Paren => ")"
  }

  predicate InnerWellFormed(q: char, xs: seq<Inner>) {
    IsQuote(q) && forall x <- xs :: x.Ordinary? ==> x.c != q && x.c != '\\'
  }

  /** A word ends at a delimiter; the word behind a quote or an escaped letter goes on to a blank. */
  predicate PartWellFormed(p: Part, toBlank: bool) {
    match p
    case Plain(c) => !IsQuote(c) && c != '\\' && (if toBlank then !IsBlank(c) else !Delimits(c))
    case Escaped(_) => true
    case Quoted(q, inside) => InnerWellFormed(q, inside)
  }

  predicate PartsWellFormed(ps: seq<Part>, toBlank: bool) {
    forall p <- ps :: PartWellFormed(p, toBlank)
  }

  predicate GapWellFormed(g: Gap) {
    match g
    case Blank(c) => IsBlank(c)
    case Separator(c) => Separates(c)
    case Escape(c) => !IsLetter(c)
    case Alone(q, inside) => InnerWellFormed(q, inside)
    case EscapedWord(c, body, blank) => IsLetter(c) && PartsWellFormed(body, true) && IsBlank(blank)
    case QuotedWord(q, inside, c, body, blank) =>
      InnerWellFormed(q, inside) && IsLetter(c) && PartsWellFormed(body, true) && IsBlank(blank)
  }

  /** The gaps stand in s from i on. */
  predicate Gapped(s: string, i: nat, gs: seq<Gap>)
    decreases |gs|
  {
    gs == [] ||
    var n := i + |GapText(gs[0])|;
    && GapWellFormed(gs[0]) && At(s, i, GapText(gs[0])) && (gs[0].Alone? ==> !IsLetter(CharAt(s, n)))
    && Gapped(s, n, gs[1..])
  }

  /** The token stands in s at k: a word begins with a bare character and ends at a delimiter or with the line. */
  predicate TokenAt(s: string, k: nat, t: Token) {
    && At(s, k, TokenText(t))
    && (t.Word? ==>
          && t.parts != [] && t.parts[0].Plain? && PartsWellFormed(t.parts, false)
          && (k + |TokenText(t)| == |s| || Delimits(s[k + |TokenText(t)|])))
  }

  /** From i on the line is these items and then the gaps of `rest`. */
  predicate Line(s: string, i: nat, items: seq<Item>, rest: seq<Gap>)
    decreases |items|
  {
    if items == [] then Gapped(s, i, rest) && i + |GapsText(rest)| == |s|
    else
      var k := i + |GapsText(items[0].gaps)|;
      && Gapped(s, i, items[0].gaps) && TokenAt(s, k, items[0].token)
      && Line(s, k + |TokenText(items[0].token)|, items[1..], rest)
  }

  predicate Opens(gs: seq<Gap>) { exists g <- gs :: g.Separator? }

  predicate EndsBlank(v: string) { v != "" && IsBlank(v[|v| - 1]) }

  /**
   The line with its aliases expanded: a word gives way to its value if it opens a command or follows a
   value that ended in a blank, and holds no backslash; with `all` set, every word that is an alias does.
   */
  function Expanded(items: seq<Item>, rest: seq<Gap>, command: bool, next: bool, table: Table, all: bool): string
    decreases |items|
  {
    if items == [] then GapsText(rest)
    else
      var w := TokenText(items[0].token);
      var may := (command || Opens(items[0].gaps) || next) && '\\' !in w;
      var hit := (may || all) && w in table;
      GapsText(items[0].gaps) +
      ((if hit then table[w] else w) +
       Expanded(items[1..], rest, false, hit && ((may && EndsBlank(table[w])) || all), table, all))
  }

  /** A quoted string is passed over up to the quote that closes it. */
  lemma {:induction false} QuoteCloses(s: string, i: nat, q: char, xs: seq<Inner>)
    requires InnerWellFormed(q, xs) && At(s, i, InnerText(xs)) && i + |InnerText(xs)| <= |s|
    ensures QuoteEnd(s, i, q) == QuoteEnd(s, i + |InnerText(xs)|, q)
    decreases |xs|
  {
    hide At;
    if xs != [] {
      var u := if xs[0].Ordinary? then [xs[0].c] else ['\\', xs[0].c];
      AtSplit(s, i, u, InnerText(xs[1..]));
      if xs[0].Ordinary? { AtOne(s, i, xs[0].c); } else { AtTwo(s, i, '\\', xs[0].c); }
      QuoteCloses(s, i + |u|, q, xs[1..]);
    }
  }

  lemma QuotedAt(s: string, i: nat, q: char, xs: seq<Inner>)
    requires InnerWellFormed(q, xs) && At(s, i, PartText(Quoted(q, xs)))
    ensures var n := i + |PartText(Quoted(q, xs))|;
            i + 1 < n <= |s| && s[i] == q && QuoteEnd(s, i + 1, q) == n - 1 && Quoting(q)
  {
    var u := InnerText(xs);
    hide At, InnerText;
    AtSplit(s, i, [q], u + [q]);
    AtSplit(s, i + 1, u, [q]);
    AtOne(s, i, q);
    AtOne(s, i + 1 + |u|, q);
    QuoteCloses(s, i + 1, q, xs);
    QuoteHere(s, i + 1 + |u|, q);
  }

  lemma QuoteHere(s: string, j: nat, q: char)
    requires j < |s| && s[j] == q && Quoting(q)
    ensures QuoteEnd(s, j, q) == j
  {}

  lemma PartRead(s: string, i: nat, p: Part)
    requires PartWellFormed(p, false) && At(s, i, PartText(p))
    ensures i + |PartText(p)| <= |s| && TokenEnd(s, i) == TokenEnd(s, i + |PartText(p)|)
  {
    match p
    case Plain(c) => AtOne(s, i, c);
    case Escaped(c) => AtTwo(s, i, '\\', c);
    case Quoted(q, xs) => QuotedAt(s, i, q, xs);
  }

  /** A word, whatever is quoted or escaped in it, is read as one token. */
  lemma {:induction false} WordIsToken(s: string, i: nat, ps: seq<Part>)
    requires PartsWellFormed(ps, false) && At(s, i, PartsText(ps))
    ensures i + |PartsText(ps)| <= |s| && TokenEnd(s, i) == TokenEnd(s, i + |PartsText(ps)|)
    decreases |ps|
  {
    hide PartText, TokenEnd, At;
    if ps == [] {
      AtBound(s, i, "");
    } else {
      AtSplit(s, i, PartText(ps[0]), PartsText(ps[1..]));
      PartRead(s, i, ps[0]);
      WordIsToken(s, i + |PartText(ps[0])|, ps[1..]);
    }
  }

  lemma PartSkipped(s: string, i: nat, p: Part, command: bool)
    requires PartWellFormed(p, true) && At(s, i, PartText(p))
    ensures i + |PartText(p)| <= |s|
    ensures SkipWs(s, i, true, false, command) == SkipWs(s, i + |PartText(p)|, true, false, command)
  {
    match p
    case Plain(c) => AtOne(s, i, c);
    case Escaped(c) =>
      AtTwo(s, i, '\\', c);
      PairSkipped(s, i, true, command);
    case Quoted(q, xs) => QuotedAt(s, i, q, xs);
  }

  /** An escaped character is passed over; if it is a letter, a word begins. */
  lemma PairSkipped(s: string, i: nat, inWord: bool, command: bool)
    requires i + 1 < |s| && s[i] == '\\'
    ensures SkipWs(s, i, inWord, false, command) == SkipWs(s, i + 2, inWord || Letter(s[i + 1]), false, command)
  {
    if Letter(s[i + 1]) {
      assert SkipWs(s, i + 1, true, false, command) == SkipWs(s, i + 2, true, false, command);
    }
  }

  lemma {:induction false} BodySkipped(s: string, i: nat, ps: seq<Part>, command: bool)
    requires PartsWellFormed(ps, true) && At(s, i, PartsText(ps))
    ensures i + |PartsText(ps)| <= |s|
    ensures SkipWs(s, i, true, false, command) == SkipWs(s, i + |PartsText(ps)|, true, false, command)
    decreases |ps|
  {
    hide PartText, SkipWs, At;
    if ps == [] {
      AtBound(s, i, "");
    } else {
      AtSplit(s, i, PartText(ps[0]), PartsText(ps[1..]));
      PartSkipped(s, i, ps[0], command);
      BodySkipped(s, i + |PartText(ps[0])|, ps[1..], command);
    }
  }

  /** From inside a word, its rest and the blank behind it are passed over. */
  lemma RestSkipped(s: string, i: nat, body: seq<Part>, blank: char, command: bool)
    requires PartsWellFormed(body, true) && White(blank) && At(s, i, PartsText(body) + [blank])
    ensures var n := i + |PartsText(body)| + 1;
            n <= |s| && SkipWs(s, i, true, false, command) == SkipWs(s, n, false, false, command)
  {
    hide PartsText, At;
    AtSplit(s, i, PartsText(body), [blank]);
    AtOne(s, i + |PartsText(body)|, blank);
    BodySkipped(s, i, body, command);
  }

  lemma StringSkipped(s: string, i: nat, q: char, xs: seq<Inner>, command: bool)
    requires InnerWellFormed(q, xs) && At(s, i, PartText(Quoted(q, xs)))
    ensures var n := i + |PartText(Quoted(q, xs))|;
            n <= |s| && SkipWs(s, i, false, false, command) == SkipWs(s, n, Letter(CharAt(s, n)), false, command)
  {
    hide PartText;
    QuotedAt(s, i, q, xs);
  }

  lemma GapSkipped(s: string, i: nat, g: Gap, command: bool)
    requires GapWellFormed(g) && At(s, i, GapText(g))
    requires g.Alone? ==> !IsLetter(CharAt(s, i + |GapText(g)|))
    ensures var n := i + |GapText(g)|;
            n <= |s| && SkipWs(s, i, false, false, command) == SkipWs(s, n, false, false, command || g.Separator?)
  {
    hide PartText, PartsText, At;
    match g
    case Blank(c) => AtOne(s, i, c);
    case Separator(c) => AtOne(s, i, c);
    case Escape(c) =>
      AtTwo(s, i, '\\', c);
      PairSkipped(s, i, false, command);
    case Alone(q, xs) => StringSkipped(s, i, q, xs, command);
    case EscapedWord(_, _, _) => EscapedWordSkipped(s, i, g, command);
    case QuotedWord(_, _, _, _, _) => QuotedWordSkipped(s, i, g, command);
  }

  lemma EscapedWordSkipped(s: string, i: nat, g: Gap, command: bool)
    requires g.EscapedWord? && GapWellFormed(g) && At(s, i, GapText(g))
    ensures var n := i + |GapText(g)|;
            n <= |s| && SkipWs(s, i, false, false, command) == SkipWs(s, n, false, false, command)
  {
    hide PartsText, At, SkipWs;
    AtSplit(s, i, ['\\', g.c], PartsText(g.body) + [g.blank]);
    AtTwo(s, i, '\\', g.c);
    PairSkipped(s, i, false, command);
    RestSkipped(s, i + 2, g.body, g.blank, command);
  }

  /** Where the parts of a word that begins with a quoted string stand. */
  lemma QuotedWordShape(s: string, i: nat, u: string, c: char, v: string)
    requires At(s, i, u + ([c] + v))
    ensures At(s, i, u) && i + |u| < |s| && s[i + |u|] == c && At(s, i + |u| + 1, v)
  {
    hide At;
    AtSplit(s, i, u, [c] + v);
    AtFirst(s, i + |u|, c, v);
  }

  lemma QuotedWordSkipped(s: string, i: nat, g: Gap, command: bool)
    requires g.QuotedWord? && GapWellFormed(g) && At(s, i, GapText(g))
    ensures var n := i + |GapText(g)|;
            n <= |s| && SkipWs(s, i, false, false, command) == SkipWs(s, n, false, false, command)
  {
    hide PartsText, PartText, At, SkipWs, InnerWellFormed, PartsWellFormed, CharAt;
    var u, v := PartText(Quoted(g.q, g.inside)), PartsText(g.body) + [g.blank];
    QuotedWordShape(s, i, u, g.c, v);
    StringSkipped(s, i, g.q, g.inside, command);
    CharThere(s, i + |u|);
    LetterPasses(s, i + |u|, command);
    RestSkipped(s, i + |u| + 1, g.body, g.blank, command);
  }

  lemma CharThere(s: string, i: nat)
    requires i < |s|
    ensures CharAt(s, i) == s[i]
  {}

  lemma LetterPasses(s: string, i: nat, command: bool)
    requires i < |s| && Letter(s[i])
    ensures SkipWs(s, i, true, false, command) == SkipWs(s, i + 1, true, false, command)
  {}

  /** All gaps are passed over, and the hint says whether a separator was among them. */
  lemma {:induction false} GapsSkipped(s: string, i: nat, gs: seq<Gap>, command: bool)
    requires i <= |s| && Gapped(s, i, gs)
    ensures var n := i + |GapsText(gs)|;
            && n <= |s| && At(s, i, GapsText(gs))
            && SkipWs(s, i, false, false, command) == SkipWs(s, n, false, false, command || Opens(gs))
    decreases |gs|
  {
    hide GapText, SkipWs, GapWellFormed, IsLetter, CharAt, At, Opens, Gapped;
    if gs == [] {
      NoGaps(s, i);
    } else {
      var n := i + |GapText(gs[0])|;
      GapThere(s, i, gs);
      GapSkipped(s, i, gs[0], command);
      GapsSkipped(s, n, gs[1..], command || gs[0].Separator?);
      AtJoin(s, i, GapText(gs[0]), GapsText(gs[1..]));
      OpensMore(gs);
    }
  }

  lemma GapThere(s: string, i: nat, gs: seq<Gap>)
    requires gs != [] && Gapped(s, i, gs)
    ensures var n := i + |GapText(gs[0])|;
            && GapWellFormed(gs[0]) && At(s, i, GapText(gs[0])) && (gs[0].Alone? ==> !IsLetter(CharAt(s, n)))
            && Gapped(s, n, gs[1..])
  {
    hide GapText, GapWellFormed, IsLetter, At;
  }

  lemma NoGaps(s: string, i: nat)
    requires i <= |s|
    ensures At(s, i, "") && !Opens([])
  {}

  lemma OpensMore(gs: seq<Gap>)
    requires gs != []
    ensures Opens(gs) <==> gs[0].Separator? || Opens(gs[1..])
  {
    if Opens(gs) {
      var g :| g in gs && g.Separator?;
      var j :| 0 <= j < |gs| && gs[j] == g;
      assert j > 0 ==> gs[1..][j - 1] == g;
    }
    if Opens(gs[1..]) {
      var g :| g in gs[1..] && g.Separator?;
      assert g in gs;
    }
  }

  /** Where the token of an item begins and ends. */
  lemma TokenFound(s: string, k: nat, t: Token, command: bool)
    requires TokenAt(s, k, t)
    ensures var n := k + |TokenText(t)|;
            && k < n <= |s| && s[k..n] == TokenText(t) && SkipWs(s, k, false, false, command) == Skip(k, command)
            && (if t.Word? then TokenEnd(s, k) == n else TokenEnd(s, k) == k && n == k + 1)
            && !CommandSeparator(s[k])
  {
    hide PartsText;
    AtBound(s, k, TokenText(t));
    match t
    case Paren => AtOne(s, k, ')');
    case Word(ps) =>
      WordIsToken(s, k, ps);
      FirstPart(s, k, ps);
  }

  lemma FirstPart(s: string, k: nat, ps: seq<Part>)
    requires ps != [] && ps[0].Plain? && PartWellFormed(ps[0], false) && At(s, k, PartsText(ps))
    ensures k < |s| && |PartsText(ps)| > 0 && s[k] == ps[0].c
  {
    AtSplit(s, k, PartText(ps[0]), PartsText(ps[1..]));
    AtOne(s, k, ps[0].c);
  }

  /** One item is read by one turn of the loop. */
  lemma ItemRead(s: string, i: nat, it: Item, command: bool, next: bool, table: Table, all: bool)
    requires i <= |s| && Gapped(s, i, it.gaps) && TokenAt(s, i + |GapsText(it.gaps)|, it.token)
    ensures var k, w := i + |GapsText(it.gaps)|, TokenText(it.token);
            var may := (command || Opens(it.gaps) || next) && '\\' !in w;
            var hit := (may || all) && w in table;
            && i < |s| && k + |w| <= |s| && s[i..k] == GapsText(it.gaps) && s[k..k + |w|] == w
            && Read(s, i, command, next, table, all) ==
               Turn(Copied(i, k), if hit then Replaced(k, k + |w|) else Copied(k, k + |w|),
                    hit && ((may && EndsBlank(table[w])) || all))
  {
    hide SkipWs, TokenEnd, GapsText, Gapped, TokenText, Opens, TokenAt;
    var k := i + |GapsText(it.gaps)|;
    GapsSkipped(s, i, it.gaps, command);
    TokenFound(s, k, it.token, command || Opens(it.gaps));
    AtBound(s, i, GapsText(it.gaps));
  }

  lemma ItemStep(s: string, i: nat, it: Item, command: bool, next: bool, table: Table, all: bool)
    requires i <= |s| && Gapped(s, i, it.gaps) && TokenAt(s, i + |GapsText(it.gaps)|, it.token)
    ensures var k, w := i + |GapsText(it.gaps)|, TokenText(it.token);
            var may := (command || Opens(it.gaps) || next) && '\\' !in w;
            var hit := (may || all) && w in table;
            && k + |w| <= |s|
            && Rest(s, i, command, next, table, all) ==
               GapsText(it.gaps) +
               ((if hit then table[w] else w) +
                Rest(s, k + |w|, false, hit && ((may && EndsBlank(table[w])) || all), table, all))
  {
    hide Rest, Read, GapsText, TokenText, Gapped, TokenAt, Opens, EndsBlank, Piece;
    var k, w := i + |GapsText(it.gaps)|, TokenText(it.token);
    ItemRead(s, i, it, command, next, table, all);
    RestStep(s, i, command, next, table, all);
    CopiedPiece(s, i, k, table);
    CopiedPiece(s, k, k + |w|, table);
    ReplacedPiece(s, k, k + |w|, table);
  }

  lemma ReplacedPiece(s: string, i: nat, j: nat, table: Table)
    requires i <= j <= |s|
    ensures s[i..j] in table ==> Piece(s, Replaced(i, j), table) == table[s[i..j]]
  {}

  /** Alias expansion of a line of words and gaps is what the words and gaps say. */
  lemma {:induction false} LineExpands(s: string, i: nat, items: seq<Item>, rest: seq<Gap>, command: bool, next: bool,
                                       table: Table, all: bool)
    requires i <= |s| && Line(s, i, items, rest)
    ensures Rest(s, i, command, next, table, all) == Expanded(items, rest, command, next, table, all)
    decreases |items|
  {
    hide Rest, GapsText, TokenText, Gapped, TokenAt, Opens, EndsBlank;
    if items == [] {
      RestIsGaps(s, i, rest, command, next, table, all);
    } else {
      var it := items[0];
      var k, w := i + |GapsText(it.gaps)|, TokenText(it.token);
      ItemStep(s, i, it, command, next, table, all);
      var may := (command || Opens(it.gaps) || next) && '\\' !in w;
      var hit := (may || all) && w in table;
      LineExpands(s, k + |w|, items[1..], rest, false, hit && ((may && EndsBlank(table[w])) || all), table, all);
    }
  }

  lemma RestIsGaps(s: string, i: nat, gs: seq<Gap>, command: bool, next: bool, table: Table, all: bool)
    requires i <= |s| && Gapped(s, i, gs) && i + |GapsText(gs)| == |s|
    ensures Rest(s, i, command, next, table, all) == GapsText(gs)
  {
    hide GapsText, Gapped, Opens, Rest, Piece;
    GapsSkipped(s, i, gs, command);
    AtBound(s, i, GapsText(gs));
    RestEnd(s, command, next, table, all);
    if i < |s| {
      assert SkipWs(s, |s|, false, false, command || Opens(gs)) == Skip(|s|, command || Opens(gs));
      NothingRead(s, i, command, next, table, all);
      RestStep(s, i, command, next, table, all);
      RestEnd(s, false, false, table, all);
      CopiedPiece(s, i, |s|, table);
      CopiedPiece(s, |s|, |s|, table);
    }
  }

  lemma CopiedPiece(s: string, i: nat, j: nat, table: Table)
    requires i <= j <= |s|
    ensures Piece(s, Copied(i, j), table) == s[i..j]
  {}

  lemma NothingRead(s: string, i: nat, command: bool, next: bool, table: Table, all: bool)
    requires i < |s| && SkipWs(s, i, false, false, command).at == |s|
    ensures Read(s, i, command, next, table, all) == Turn(Copied(i, |s|), Copied(|s|, |s|), false)
  {
    hide SkipWs;
    assert s[|s|..|s|] == "";
  }

  /** The tokens read are the words and parentheses of the line. */
  lemma {:induction false} LineTokens(s: string, i: nat, items: seq<Item>, rest: seq<Gap>)
    requires i <= |s| && Line(s, i, items, rest)
    ensures TokensRead(s, i) == seq(|items|, j requires 0 <= j < |items| => TokenText(items[j].token))
    decreases |items|
  {
    hide GapsText, TokenText, Gapped, TokenAt, SkipWs, TokenEnd;
    if items == [] {
      NoTokens(s, i, rest);
    } else {
      var it := items[0];
      var k := i + |GapsText(it.gaps)|;
      GapsSkipped(s, i, it.gaps, false);
      TokenFound(s, k, it.token, Opens(it.gaps));
      LineTokens(s, k + |TokenText(it.token)|, items[1..], rest);
    }
  }

  lemma NoTokens(s: string, i: nat, gs: seq<Gap>)
    requires i <= |s| && Gapped(s, i, gs) && i + |GapsText(gs)| == |s|
    ensures TokensRead(s, i) == []
  {
    hide GapsText, Gapped, Opens;
    GapsSkipped(s, i, gs, false);
  }

  /** A word with anything quoted or escaped in it is no alias, as long as alias names are bare. */
  lemma QuotedIsNoAlias(ps: seq<Part>, table: Table)
    requires PartsWellFormed(ps, false) && (exists p <- ps :: !p.Plain?) && forall w <- table.Keys :: Bare(w)
    ensures PartsText(ps) !in table
  {
    var p :| p in ps && !p.Plain?;
    var j :| 0 <= j < |ps| && ps[j] == p;
    var c := NotBare(ps, j);
  }

  lemma {:induction false} NotBare(ps: seq<Part>, j: nat) returns (c: char)
    requires PartsWellFormed(ps, false) && j < |ps| && !ps[j].Plain?
    ensures c in PartsText(ps) && (c == '\\' || Quoting(c))
    decreases j
  {
    if j == 0 {
      assert ps[0] in ps;
      c := PartText(ps[0])[0];
      assert PartsText(ps)[0] == c;
    } else {
      c := NotBare(ps[1..], j - 1);
    }
  }

  /** A quote that nothing closes, or a backslash at the end, takes the rest of the line into the token. */
  lemma UnclosedToken(s: string, i: nat, q: char, xs: seq<Inner>)
    requires InnerWellFormed(q, xs) && i < |s| && s[i] == q && At(s, i + 1, InnerText(xs))
    requires i + 1 + |InnerText(xs)| == |s| || (i + 2 + |InnerText(xs)| == |s| && s[|s| - 1] == '\\')
    ensures TokenEnd(s, i) == |s|
  {
    hide InnerText;
    QuoteCloses(s, i + 1, q, xs);
  }

  lemma LastBackslash(s: string)
    requires s != "" && s[|s| - 1] == '\\'
    ensures TokenEnd(s, |s| - 1) == |s|
  {}
}
