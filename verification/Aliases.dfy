/** Expanding the aliases of a whole line (alias.c). */
module Aliases {
  import opened Strings

  type Table = map<string, string>

  predicate White(c: char) { c == ' ' || c == '\t' }
  predicate Quoting(c: char) { c == '\'' || c == '"' }
  predicate Letter(c: char) { 'a' <= c <= 'z' || 'A' <= c <= 'Z' }
  predicate SelfDelimiting(c: char) { c in {' ', '\t', '\n', '\r', ';', '|', '&', '(', ')'} }
  predicate CommandSeparator(c: char) { c in {'\r', '\n', ';', '|', '&', '('} }

  /** The index of the closing quote, or the end, from i on. */
  function QuoteEnd(s: string, i: nat, delimiter: char): (j: nat)
    requires i <= |s|
    ensures i <= j <= |s|
    decreases |s| - i
  {
    if i == |s| then i
    else if s[i] == '\\' then if i + 1 == |s| then |s| else QuoteEnd(s, i + 2, delimiter)
    else if s[i] == delimiter then i
    else QuoteEnd(s, i + 1, delimiter)
  }

  /** Where `skipws` stops, and whether a command word follows. */
  datatype Skip = Skip(at: nat, command: bool)

  function SkipWs(s: string, i: nat, inWord: bool, pass: bool, command: bool): (r: Skip)
    requires i <= |s|
    ensures i <= r.at <= |s|
    decreases |s| - i
  {
    if i == |s| then Skip(i, command)
    else if pass then SkipWs(s, i + 1, inWord, false, command)
    else if White(s[i]) then SkipWs(s, i + 1, false, false, command)
    else if s[i] == '\\' then
      if i + 1 == |s| then Skip(i, command)
      else if Letter(s[i + 1]) then SkipWs(s, i + 1, true, false, command)
      else SkipWs(s, i + 1, inWord, true, command)
    else if Quoting(s[i]) then
      var j := QuoteEnd(s, i + 1, s[i]);
      if j == |s| then Skip(j, command)
      else SkipWs(s, j + 1, inWord || Letter(CharAt(s, j + 1)), false, command)
    else if inWord then SkipWs(s, i + 1, inWord, false, command)
    else if CommandSeparator(s[i]) then SkipWs(s, i + 1, inWord, false, true)
    else Skip(i, command)
  }

  function TokenEnd(s: string, i: nat): (j: nat)
    requires i <= |s|
    ensures i <= j <= |s|
    decreases |s| - i
  {
    if i == |s| || SelfDelimiting(s[i]) then i
    else if s[i] == '\\' then if i + 1 == |s| then |s| else TokenEnd(s, i + 2)
    else if Quoting(s[i]) then
      var j := QuoteEnd(s, i + 1, s[i]);
      if j == |s| then j else TokenEnd(s, j + 1)
    else TokenEnd(s, i + 1)
  }

  method SkipQuotesLoop(s: string, start: nat) returns (i: nat)
    requires start < |s|
    ensures i == QuoteEnd(s, start + 1, s[start])
  {
    i := start + 1;
    while i < |s|
      invariant start < i <= |s| && QuoteEnd(s, i, s[start]) == QuoteEnd(s, start + 1, s[start])
    {
      if s[i] == '\\' {
        i := i + 1;
        if i == |s| {
          break;
        }
      } else if s[i] == s[start] {
        return;
      }
      i := i + 1;
    }
  }

  method SkipWsLoop(s: string, start: nat, command: bool) returns (i: nat, cmd: bool)
    requires start <= |s|
    ensures Skip(i, cmd) == SkipWs(s, start, false, false, command)
  {
    i, cmd := start, command;
    var inWord, pass := false, false;
    while i < |s|
      invariant start <= i <= |s|
      invariant SkipWs(s, i, inWord, pass, cmd) == SkipWs(s, start, false, false, command)
    {
      if pass {
        pass := false;
      } else if White(s[i]) {
        inWord := false;
      } else if s[i] == '\\' {
        if i + 1 == |s| {
          return;
        }
        if Letter(s[i + 1]) {
          inWord := true;
        } else {
          pass := true;
        }
      } else if Quoting(s[i]) {
        i := SkipQuotesLoop(s, i);
        if i == |s| {
          return;
        }
        if Letter(CharAt(s, i + 1)) {
          inWord := true;
        }
      } else if inWord {
      } else if CommandSeparator(s[i]) {
        cmd := true;
      } else {
        return;
      }
      i := i + 1;
    }
  }

  method ReadToken(s: string, start: nat) returns (i: nat)
    requires start <= |s|
    ensures i == TokenEnd(s, start)
  {
    i := start;
    while i < |s| && !SelfDelimiting(s[i])
      invariant start <= i <= |s| && TokenEnd(s, i) == TokenEnd(s, start)
    {
      if s[i] == '\\' {
        i := i + 1;
        if i == |s| {
          break;
        }
      } else if Quoting(s[i]) {
        i := SkipQuotesLoop(s, i);
        if i == |s| {
          break;
        }
      }
      i := i + 1;
    }
  }

  /** A slice of the line: copied, or replaced by the alias of exactly that token. */
  datatype Segment = Copied(from: nat, to: nat) | Replaced(from: nat, to: nat)

  /** A token with the text skipped before it. */
  datatype Turn = Turn(skipped: Segment, token: Segment, next: bool)

  /** One turn of the loop from i: what is skipped, what is read, and whether the next word may expand. */
  function Read(s: string, i: nat, command: bool, expandNext: bool, table: Table, all: bool): (t: Turn)
    requires i < |s|
    ensures t.skipped == Copied(i, t.token.from) && i <= t.token.from <= t.token.to <= |s| && i < t.token.to
    ensures t.token.Replaced? ==> s[t.token.from..t.token.to] in table && s[t.token.from..t.token.to] != ""
    ensures t.token.Replaced? && '\\' in s[t.token.from..t.token.to] ==> all
  {
    var skip := SkipWs(s, i, false, false, command);
    var k := skip.at;
    var e := TokenEnd(s, k);
    var to := if e == k && k < |s| then k + 1 else e;
    var token := s[k..to];
    var expand := (skip.command || CommandSeparator(CharAt(s, k)) || expandNext) && '\\' !in token;
    var hit := token != "" && (expand || all) && token in table;
    var v := if hit then table[token] else "";
    Turn(Copied(i, k), if hit then Replaced(k, to) else Copied(k, to),
         hit && ((expand && v != "" && White(v[|v| - 1])) || all))
  }

  function Segments(s: string, i: nat, command: bool, expandNext: bool, table: Table, all: bool): seq<Segment>
    requires i <= |s|
    decreases |s| - i
  {
    if i == |s| then []
    else
      var t := Read(s, i, command, expandNext, table, all);
      [t.skipped, t.token] + Segments(s, t.token.to, false, t.next, table, all)
  }

  function Piece(s: string, seg: Segment, table: Table): string {
    if seg.from <= seg.to <= |s| then
      var w := s[seg.from..seg.to];
      if seg.Replaced? && w in table then table[w] else w
    else ""
  }

  function Written(s: string, segs: seq<Segment>, table: Table): string {
    if segs == [] then "" else Piece(s, segs[0], table) + Written(s, segs[1..], table)
  }

  /** The slices follow each other from i to n. */
  predicate Tile(segs: seq<Segment>, i: nat, n: nat) {
    if segs == [] then i == n
    else segs[0].from == i && i <= segs[0].to <= n && Tile(segs[1..], segs[0].to, n)
  }

  /** The slices cover the line exactly once, in order, and only aliased tokens are replaced. */
  lemma {:induction false} SegmentsTile(s: string, i: nat, command: bool, expandNext: bool, table: Table, all: bool)
    requires i <= |s|
    ensures var segs := Segments(s, i, command, expandNext, table, all);
            && Tile(segs, i, |s|)
            && forall g <- segs :: g.from <= g.to <= |s| && (g.Replaced? ==> s[g.from..g.to] in table)
    decreases |s| - i
  {
    hide Read;
    if i < |s| {
      var t := Read(s, i, command, expandNext, table, all);
      SegmentsTile(s, t.token.to, false, t.next, table, all);
      var rest := Segments(s, t.token.to, false, t.next, table, all);
      var segs := [t.skipped, t.token] + rest;
      assert segs[1..][1..] == rest;
      assert Tile(segs[1..], t.token.from, |s|);
    }
  }

  /** A tiling that replaces nothing writes the text it covers. */
  lemma {:induction false} CopiedText(s: string, segs: seq<Segment>, i: nat, table: Table)
    requires i <= |s| && Tile(segs, i, |s|) && forall g <- segs :: g.Copied?
    ensures Written(s, segs, table) == s[i..]
    decreases |segs|
  {
    if segs != [] {
      CopiedText(s, segs[1..], segs[0].to, table);
      assert segs[0].Copied? && Piece(s, segs[0], table) == s[i..segs[0].to];
      assert s[i..] == s[i..segs[0].to] + s[segs[0].to..];
    }
  }

  /** The tokens that are read from i on, whatever the aliases are. */
  function TokensRead(s: string, i: nat): seq<string>
    requires i <= |s|
    decreases |s| - i
  {
    if i == |s| then []
    else
      var k := SkipWs(s, i, false, false, false).at;
      var e := TokenEnd(s, k);
      var to := if e == k && k < |s| then k + 1 else e;
      (if k < to then [s[k..to]] else []) + TokensRead(s, to)
  }

  /** Where `skipws` stops does not depend on the hint it carries. */
  lemma {:induction false} SkipSame(s: string, i: nat, inWord: bool, pass: bool, command: bool, command': bool)
    requires i <= |s|
    ensures SkipWs(s, i, inWord, pass, command).at == SkipWs(s, i, inWord, pass, command').at
    decreases |s| - i
  {
    forall j: nat, w: bool, p: bool, c: bool, c': bool | i < j <= |s|
      ensures SkipWs(s, j, w, p, c).at == SkipWs(s, j, w, p, c').at
    {
      SkipSame(s, j, w, p, c, c');
    }
  }

  /** A replaced slice is one of the tokens read. */
  lemma {:induction false} ReplacedIsRead(s: string, i: nat, command: bool, expandNext: bool, table: Table, all: bool)
    requires i <= |s|
    ensures forall g <- Segments(s, i, command, expandNext, table, all) ::
              g.Replaced? ==> g.from <= g.to <= |s| && s[g.from..g.to] in table && s[g.from..g.to] in TokensRead(s, i)
    decreases |s| - i
  {
    if i < |s| {
      var t := Read(s, i, command, expandNext, table, all);
      SkipSame(s, i, false, false, command, false);
      ReplacedIsRead(s, t.token.to, false, t.next, table, all);
      hide Read, SkipWs, TokenEnd;
      assert TokensRead(s, i) ==
             (if t.token.from < t.token.to then [s[t.token.from..t.token.to]] else []) + TokensRead(s, t.token.to);
    }
  }

  /** A line none of whose tokens is an alias comes back as it was, whatever aliases its text contains otherwise. */
  lemma NoAliasNoChange(s: string, command: bool, expandNext: bool, table: Table, all: bool)
    requires forall w <- TokensRead(s, 0) :: w !in table
    ensures Written(s, Segments(s, 0, command, expandNext, table, all), table) == s
  {
    hide TokensRead, Segments, Written;
    SegmentsTile(s, 0, command, expandNext, table, all);
    ReplacedIsRead(s, 0, command, expandNext, table, all);
    CopiedText(s, Segments(s, 0, command, expandNext, table, all), 0, table);
    assert s[0..] == s;
  }

  /** The text written from i on. */
  function Rest(s: string, i: nat, command: bool, expandNext: bool, table: Table, all: bool): string
    requires i <= |s|
  {
    Written(s, Segments(s, i, command, expandNext, table, all), table)
  }

  lemma RestStep(s: string, i: nat, command: bool, expandNext: bool, table: Table, all: bool)
    requires i < |s|
    ensures var t := Read(s, i, command, expandNext, table, all);
            Rest(s, i, command, expandNext, table, all) ==
            Piece(s, t.skipped, table) + (Piece(s, t.token, table) + Rest(s, t.token.to, false, t.next, table, all))
  {
    hide Read, Piece;
    var t := Read(s, i, command, expandNext, table, all);
    var rest := Segments(s, t.token.to, false, t.next, table, all);
    var segs := [t.skipped, t.token] + rest;
    assert segs[1..] == [t.token] + rest && segs[1..][1..] == rest;
    assert Written(s, segs[1..], table) == Piece(s, t.token, table) + Written(s, rest, table);
  }

  /** One turn of the loop of `alias_expand`. */
  method TakeTurn(s: string, start: nat, command: bool, expandNext: bool, table: Table, all: bool)
    returns (piece: string, i: nat, next: bool)
    requires start < |s|
    ensures var t := Read(s, start, command, expandNext, table, all);
            piece == Piece(s, t.skipped, table) + Piece(s, t.token, table) && i == t.token.to && next == t.next
  {
    hide SkipWs, TokenEnd;
    var realStart, cmd := SkipWsLoop(s, start, command);
    piece := s[start..realStart];
    cmd := cmd || CommandSeparator(CharAt(s, realStart));
    var expandThis := cmd || expandNext;
    next := false;
    i := ReadToken(s, realStart);
    if i == realStart && i < |s| {
      i := i + 1;
    }
    var token := s[realStart..i];
    if '\\' in token {
      expandThis := false;
    }
    if token != "" && (expandThis || all) && token in table {
      var v := table[token];
      piece := piece + v;
      if (expandThis && v != "" && White(v[|v| - 1])) || all {
        next := true;
      }
    } else {
      piece := piece + token;
    }
  }

  /** `alias_expand`: the first word may expand, and the line is written slice by slice. */
  method AliasExpand(s: string, table: Table, all: bool) returns (line: string)
    ensures line == Written(s, Segments(s, 0, true, false, table, all), table)
    ensures (forall w <- TokensRead(s, 0) :: w !in table) ==> line == s
  {
    hide Read, Segments, Written, Piece, TokensRead;
    if forall w <- TokensRead(s, 0) :: w !in table {
      NoAliasNoChange(s, true, false, table, all);
    }
    line := "";
    var i := 0;
    var expandNext, command := false, true;
    while i < |s|
      invariant i <= |s|
      invariant line + Rest(s, i, command, expandNext, table, all) == Rest(s, 0, true, false, table, all)
    {
      RestStep(s, i, command, expandNext, table, all);
      var piece;
      piece, i, expandNext := TakeTurn(s, i, command, expandNext, table, all);
      command := false;
      line := line + piece;
    }
    RestEnd(s, command, expandNext, table, all);
  }

  lemma RestEnd(s: string, command: bool, expandNext: bool, table: Table, all: bool)
    ensures Rest(s, |s|, command, expandNext, table, all) == ""
  {}

  /** A word without delimiters, quotes or backslashes. */
  predicate Bare(w: string) {
    w != "" && forall c <- w :: !SelfDelimiting(c) && !Quoting(c) && c != '\\'
  }

  lemma {:induction false} BareToken(s: string, i: nat, n: nat)
    requires i <= n <= |s| && (n == |s| || SelfDelimiting(s[n]))
    requires forall j :: i <= j < n ==> !SelfDelimiting(s[j]) && !Quoting(s[j]) && s[j] != '\\'
    ensures TokenEnd(s, i) == n
    decreases n - i
  {
    if i < n { BareToken(s, i + 1, n); }
  }

  lemma WordRead(s: string, i: nat, k: nat, n: nat, hint: bool, command: bool, next: bool, table: Table)
    requires i <= k < n <= |s| && SkipWs(s, i, false, false, hint) == Skip(k, command) && TokenEnd(s, k) == n
    requires s[k..n] in table && '\\' !in s[k..n] && !CommandSeparator(s[k])
    ensures var v := table[s[k..n]];
            Read(s, i, hint, next, table, false) ==
            Turn(Copied(i, k), if command || next then Replaced(k, n) else Copied(k, n),
                 (command || next) && v != "" && White(v[|v| - 1]))
  {
    hide TokenEnd, SkipWs;
  }

  /** A bare alias name at the head of a line gives way to its value; after a blank-ended one the next word may too. */
  lemma FirstWordExpands(w: string, rest: string, table: Table)
    requires Bare(w) && w in table && (rest == "" || SelfDelimiting(rest[0]))
    ensures var s, v := w + rest, table[w];
            Rest(s, 0, true, false, table, false) ==
            v + Rest(s, |w|, false, v != "" && White(v[|v| - 1]), table, false)
  {
    hide Read, Rest;
    var s := w + rest;
    forall j | 0 <= j < |w| ensures !SelfDelimiting(s[j]) && !Quoting(s[j]) && s[j] != '\\' {
      assert s[j] == w[j] && w[j] in w;
    }
    BareToken(s, 0, |w|);
    assert s[0] == w[0];
    assert SkipWs(s, 0, false, false, true) == Skip(0, true);
    assert s[0..|w|] == w && s[0..0] == "";
    WordRead(s, 0, 0, |w|, true, true, false, table);
    RestStep(s, 0, true, false, table, false);
  }

  /** An alias name that is an argument stays, unless the value before it ended in a blank. */
  lemma ArgumentStays(pre: string, w: string, rest: string, next: bool, table: Table)
    requires Bare(w) && w in table && (rest == "" || SelfDelimiting(rest[0]))
    requires forall c <- pre :: White(c)
    ensures var s := pre + (w + rest);
            Rest(s, 0, false, next, table, false) ==
            pre + ((if next then table[w] else w) +
                   Rest(s, |pre| + |w|, false, next && table[w] != "" && White(table[w][|table[w]| - 1]), table, false))
  {
    hide Read, Rest, SkipWs, TokenEnd;
    var s := pre + (w + rest);
    var k, n := |pre|, |pre| + |w|;
    forall j | k <= j < n ensures !SelfDelimiting(s[j]) && !Quoting(s[j]) && s[j] != '\\' {
      assert s[j] == w[j - k] && w[j - k] in w;
    }
    BareToken(s, k, n);
    forall j | 0 <= j < k ensures White(s[j]) {
      assert s[j] == pre[j] && pre[j] in pre;
    }
    BlanksSkipped(s, 0, k);
    assert s[k..n] == w && s[0..k] == pre && '\\' !in w;
    WordRead(s, 0, k, n, false, false, next, table);
    RestStep(s, 0, false, next, table, false);
  }

  lemma {:induction false} BlanksSkipped(s: string, i: nat, k: nat)
    requires i <= k < |s| && !SelfDelimiting(s[k]) && !Quoting(s[k]) && s[k] != '\\'
    requires forall j :: i <= j < k ==> White(s[j])
    ensures SkipWs(s, i, false, false, false) == Skip(k, false)
    decreases k - i
  {
    if i < k { BlanksSkipped(s, i + 1, k); }
  }

  /** Blanks and separators are skipped, and a separator says that a command word follows. */
  lemma {:induction false} SeparatorSkipped(s: string, i: nat, k: nat, command: bool)
    requires i <= k < |s| && !SelfDelimiting(s[k]) && !Quoting(s[k]) && s[k] != '\\'
    requires forall j :: i <= j < k ==> White(s[j]) || CommandSeparator(s[j])
    ensures SkipWs(s, i, false, false, command) == Skip(k, command || exists j :: i <= j < k && CommandSeparator(s[j]))
    decreases k - i
  {
    if i < k { SeparatorSkipped(s, i + 1, k, command || CommandSeparator(s[i])); }
  }

  /** An alias name that opens a command behind `;`, `|`, `&`, `(` or a newline gives way to its value. */
  lemma CommandWordExpands(pre: string, w: string, rest: string, next: bool, table: Table)
    requires Bare(w) && w in table && (rest == "" || SelfDelimiting(rest[0]))
    requires (forall c <- pre :: White(c) || CommandSeparator(c)) && exists c <- pre :: CommandSeparator(c)
    ensures var s := pre + (w + rest);
            Rest(s, 0, false, next, table, false) ==
            pre + (table[w] +
                   Rest(s, |pre| + |w|, false, table[w] != "" && White(table[w][|table[w]| - 1]), table, false))
  {
    hide Read, Rest, SkipWs, TokenEnd;
    var s := pre + (w + rest);
    var k, n := |pre|, |pre| + |w|;
    forall j | k <= j < n ensures !SelfDelimiting(s[j]) && !Quoting(s[j]) && s[j] != '\\' {
      assert s[j] == w[j - k] && w[j - k] in w;
    }
    BareToken(s, k, n);
    forall j | 0 <= j < k ensures White(s[j]) || CommandSeparator(s[j]) {
      assert s[j] == pre[j] && pre[j] in pre;
    }
    var c :| c in pre && CommandSeparator(c);
    var m :| 0 <= m < |pre| && pre[m] == c;
    assert s[m] == c;
    SeparatorSkipped(s, 0, k, false);
    assert s[k..n] == w && s[0..k] == pre && '\\' !in w;
    WordRead(s, 0, k, n, false, true, next, table);
    RestStep(s, 0, false, next, table, false);
  }
}
