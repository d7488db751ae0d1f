/** Brace expansion (braces.c). */
module Braces {
  import opened Strings
  import SeqTerms

  /** What lies outside: the end of a command substitution. */
  datatype Outside = Outside(comsub: (string, nat) -> nat)

  predicate Blank(c: char) { c == '\0' || c == ' ' || c == '\t' || c == '\n' }

  const QUOTES := {'"', '\'', '`'}

  /** The state of `brace_gobbler`: the open quote or '\0', the brace depth, the separators seen, the escape flag. */
  datatype Scan = Scan(quoted: char, level: nat, commas: nat, pass: bool)

  function Begin(satisfy: char): Scan {
    Scan('\0', 0, if satisfy == '}' then 0 else 1, false)
  }

  /** Where a scan stopped, and whether at the character sought. */
  datatype Stop = Stop(at: nat, hit: bool)

  /** The index after a command or process substitution that opens at i. */
  function PastSubst(o: Outside, text: string, i: nat): (j: nat)
    requires i + 2 <= |text|
    ensures i + 2 <= j <= |text|
  {
    var j := o.comsub(text, i + 2) + 1;
    if i + 2 <= j <= |text| then j else |text|
  }

  predicate OpensSubst(text: string, i: nat) { CharAt(text, i + 1) == '(' }

  /** An open brace that stands alone, or an empty pair, is passed over. */
  predicate Lonely(text: string, i: nat) {
    && CharAt(text, i) == '{'
    && (i == 0 || Blank(CharAt(text, i - 1)))
    && (Blank(CharAt(text, i + 1)) || CharAt(text, i + 1) == '}')
  }

  predicate Dots(text: string, i: nat) { CharAt(text, i) == '.' && CharAt(text, i + 1) == '.' }

  /** One unquoted, unescaped character that is not the one sought. */
  function Note(text: string, i: nat, satisfy: char, st: Scan): Scan {
    var c := CharAt(text, i);
    if c == '{' then st.(level := st.level + 1)
    else if c == '}' && st.level > 0 then st.(level := st.level - 1)
    else if satisfy == '}' && st.level == 0 && (c == ',' || (Dots(text, i) && CharAt(text, i + 2) != '}'))
    then st.(commas := st.commas + 1)
    else st
  }

  /** `brace_gobbler` from position i on. */
  function Gobble(o: Outside, text: string, i: nat, satisfy: char, st: Scan): (r: Stop)
    requires i <= |text|
    ensures i <= r.at <= |text| && (r.hit ==> r.at < |text| && text[r.at] == satisfy)
    ensures !r.hit ==> r.at == |text|
    decreases |text| - i
  {
    if i == |text| then Stop(i, false)
    else
      var c := text[i];
      if st.pass then Gobble(o, text, i + 1, satisfy, st.(pass := false))
      else if c == '\\' && st.quoted in {'\0', '"', '`'} then Gobble(o, text, i + 1, satisfy, st.(pass := true))
      else if c == '$' && CharAt(text, i + 1) == '{' && st.quoted != '\'' then
        Gobble(o, text, i + 1, satisfy,
               st.(pass := true, level := if st.quoted == '\0' then st.level + 1 else st.level))
      else if st.quoted != '\0' then
        if c == st.quoted then Gobble(o, text, i + 1, satisfy, st.(quoted := '\0'))
        else if st.quoted == '"' && c == '$' && OpensSubst(text, i) then
          Gobble(o, text, PastSubst(o, text, i), satisfy, st)
        else Gobble(o, text, i + 1, satisfy, st)
      else if c in QUOTES then Gobble(o, text, i + 1, satisfy, st.(quoted := c))
      else if c in {'$', '<', '>'} && OpensSubst(text, i) then
        Gobble(o, text, PastSubst(o, text, i), satisfy, st)
      else if c == satisfy && st.level == 0 && st.commas > 0 then
        if Lonely(text, i) then Gobble(o, text, i + 1, satisfy, st) else Stop(i, true)
      else Gobble(o, text, i + 1, satisfy, Note(text, i, satisfy, st))
  }

  /** The loop of `brace_gobbler`. */
  method BraceGobbler(o: Outside, text: string, start: nat, satisfy: char) returns (i: nat, hit: bool)
    requires start <= |text|
    ensures Stop(i, hit) == Gobble(o, text, start, satisfy, Begin(satisfy))
  {
    i := start;
    var quoted, level: nat, pass := '\0', 0, false;
    var commas: nat := if satisfy == '}' then 0 else 1;
    while i < |text|
      invariant i <= |text|
      invariant Gobble(o, text, i, satisfy, Scan(quoted, level, commas, pass)) ==
                Gobble(o, text, start, satisfy, Begin(satisfy))
      decreases |text| - i
    {
      var c := text[i];
      if pass {
        pass := false;
        i := i + 1;
        continue;
      }
      if c == '\\' && (quoted == '\0' || quoted == '"' || quoted == '`') {
        pass := true;
        i := i + 1;
        continue;
      }
      if c == '$' && CharAt(text, i + 1) == '{' && quoted != '\'' {
        pass := true;
        i := i + 1;
        if quoted == '\0' {
          level := level + 1;
        }
        continue;
      }
      if quoted != '\0' {
        if c == quoted {
          quoted := '\0';
        }
        if quoted == '"' && c == '$' && OpensSubst(text, i) {
          i := PastSubst(o, text, i);
          continue;
        }
        i := i + 1;
        continue;
      }
      if c in QUOTES {
        quoted := c;
        i := i + 1;
        continue;
      }
      if c in {'$', '<', '>'} && OpensSubst(text, i) {
        i := PastSubst(o, text, i);
        continue;
      }
      if c == satisfy && level == 0 && commas > 0 {
        if Lonely(text, i) {
          i := i + 1;
          continue;
        }
        return i, true;
      }
      if c == '{' {
        level := level + 1;
      } else if c == '}' && level > 0 {
        level := level - 1;
      } else if satisfy == '}' && c == ',' && level == 0 {
        commas := commas + 1;
      } else if satisfy == '}' && Dots(text, i) && CharAt(text, i + 2) != satisfy && level == 0 {
        commas := commas + 1;
      }
      i := i + 1;
    }
    return i, false;
  }

  /** Each string of a followed by each string of b, a outermost. */
  function Product(a: seq<string>, b: seq<string>): seq<string> {
    if a == [] then [] else Prefixed(a[0], b) + Product(a[1..], b)
  }

  function Prefixed(x: string, b: seq<string>): (r: seq<string>)
    ensures |r| == |b| && forall j :: 0 <= j < |b| ==> r[j] == x + b[j]
  {
    seq(|b|, j requires 0 <= j < |b| => x + b[j])
  }

  lemma PrefixedNone(b: seq<string>)
    ensures Prefixed("", b) == b && Product([""], b) == b
  {
    assert forall j :: 0 <= j < |b| ==> "" + b[j] == b[j];
    assert Product([""], b) == Prefixed("", b) + [];
  }

  lemma {:induction false} ProductNone(a: seq<string>)
    ensures Product(a, [""]) == a
  {
    if a != [] {
      ProductNone(a[1..]);
      assert a[0] + "" == a[0];
      assert Prefixed(a[0], [""]) == [a[0]];
    }
  }

  lemma {:induction false} ProductSplit(a: seq<string>, a': seq<string>, b: seq<string>)
    ensures Product(a + a', b) == Product(a, b) + Product(a', b)
  {
    if a == [] {
      assert a + a' == a';
    } else {
      assert (a + a')[1..] == a[1..] + a';
      ProductSplit(a[1..], a', b);
    }
  }

  /** `array_concat`, whose two shortcuts change nothing. */
  method ArrayConcat(a: seq<string>, b: seq<string>) returns (r: seq<string>)
    ensures r == Product(a, b)
  {
    PrefixedNone(b);
    ProductNone(a);
    if a == [""] {
      return b;
    }
    if b == [""] {
      return a;
    }
    r := [];
    for i := 0 to |a|
      invariant r == Product(a[..i], b)
    {
      ghost var done := r;
      for j := 0 to |b|
        invariant r == done + Prefixed(a[i], b[..j])
      {
        r := r + [a[i] + b[j]];
        assert Prefixed(a[i], b[..j + 1]) == Prefixed(a[i], b[..j]) + [a[i] + b[j]];
      }
      assert b[..|b|] == b;
      assert a[..i + 1] == a[..i] + [a[i]];
      ProductSplit(a[..i], [a[i]], b);
      assert Product([a[i]], b) == Prefixed(a[i], b) + [];
    }
    assert a[..|a|] == a;
  }

  /** The first open brace that begins a valid brace expression, from i on. */
  function FirstBrace(o: Outside, text: string, i: nat): (r: Stop)
    requires i <= |text|
    ensures i <= r.at <= |text| && (r.hit ==> r.at < |text|) && (!r.hit ==> r.at == |text|)
    ensures r.hit ==> Close(o, text, r.at + 1).hit
    decreases |text| - i
  {
    var f := Gobble(o, text, i, '{', Begin('{'));
    if f.hit && !Close(o, text, f.at + 1).hit then FirstBrace(o, text, f.at + 1) else f
  }

  function Close(o: Outside, text: string, i: nat): Stop
    requires i <= |text|
  {
    Gobble(o, text, i, '}', Begin('}'))
  }

  /** Whether an unescaped separator occurs in the amble from j on. */
  predicate HasComma(amble: string, j: nat)
    decreases |amble| - j
  {
    j < |amble| && (amble[j] == ',' || HasComma(amble, if amble[j] == '\\' then j + 2 else j + 1))
  }

  /** `brace_expand`. */
  function Expand(o: Outside, text: string): seq<string>
    decreases |text|, 0
  {
    var f := FirstBrace(o, text, 0);
    if !f.hit then [text]
    else
      var i := Close(o, text, f.at + 1).at;
      var amble := text[f.at + 1..i];
      if HasComma(amble, 0) then Joined(o, text, f.at, i, Amble(o, amble, 0))
      else if SeqTerms.SeqTerm(amble).Some? then Joined(o, text, f.at, i, SeqTerms.SeqTerm(amble).value)
      else if i + 1 < |text| then Joined(o, text, f.at, i, [text[f.at..i + 1]])
      else [text]
  }

  /** The expansions of the brace at `open`..`close`, between the preamble and the expansions of the postamble. */
  function Joined(o: Outside, text: string, open: nat, close: nat, tack: seq<string>): seq<string>
    requires open < close < |text|
    decreases |text|, 0, 0
  {
    var front := Product([text[..open]], tack);
    if close + 1 < |text| then Product(front, Expand(o, text[close + 1..])) else front
  }

  /** `expand_amble`, from the arm that starts at i. */
  function Amble(o: Outside, text: string, i: nat): seq<string>
    requires i <= |text|
    decreases |text|, |text| - i + 1
  {
    var f := Gobble(o, text, i, ',', Begin(','));
    Expand(o, text[i..f.at]) + if f.hit then Amble(o, text, f.at + 1) else []
  }

  method FindBrace(o: Outside, text: string) returns (i: nat, hit: bool)
    ensures Stop(i, hit) == FirstBrace(o, text, 0)
  {
    i := 0;
    while true
      invariant i <= |text| && FirstBrace(o, text, i) == FirstBrace(o, text, 0)
      decreases |text| - i
    {
      i, hit := BraceGobbler(o, text, i, '{');
      if !hit {
        return;
      }
      var _, closed := BraceGobbler(o, text, i + 1, '}');
      if closed {
        return;
      }
      i := i + 1;
    }
  }

  method SeparatorScan(amble: string) returns (found: bool)
    ensures found == HasComma(amble, 0)
  {
    var j := 0;
    while j < |amble|
      invariant HasComma(amble, j) == HasComma(amble, 0)
    {
      if amble[j] == '\\' {
        j := j + 2;
        continue;
      }
      if amble[j] == ',' {
        return true;
      }
      j := j + 1;
    }
    return false;
  }

  /** `brace_expand` terminates on every text: each recursive argument is strictly shorter. */
  method BraceExpand(o: Outside, text: string) returns (result: seq<string>)
    ensures result == Expand(o, text)
    decreases |text|, 0
  {
    hide Gobble, FirstBrace, HasComma, Product, Amble, SeqTerms.SeqTerm;
    var start, hit := FindBrace(o, text);
    if !hit {
      return [text];
    }
    var i, _ := BraceGobbler(o, text, start + 1, '}');
    var amble := text[start + 1..i];
    var found := SeparatorScan(amble);
    var tack;
    if !found {
      var term := SeqTerms.ExpandSeqterm(amble);
      if term.Some? {
        tack := term.value;
      } else if i + 1 < |text| {
        tack := [text[start..i + 1]];
      } else {
        return [text];
      }
    } else {
      tack := ExpandAmble(o, amble);
    }
    result := ArrayConcat([text[..start]], tack);
    if i + 1 < |text| {
      tack := BraceExpand(o, text[i + 1..]);
      result := ArrayConcat(result, tack);
    }
  }

  lemma AmbleStep(o: Outside, text: string, i: nat)
    requires i <= |text|
    ensures var f := Gobble(o, text, i, ',', Begin(','));
            Amble(o, text, i) == Expand(o, text[i..f.at]) + if f.hit then Amble(o, text, f.at + 1) else []
  {
    hide Gobble, Expand;
  }

  method ExpandAmble(o: Outside, text: string) returns (result: seq<string>)
    ensures result == Amble(o, text, 0)
    decreases |text|, 1
  {
    hide Gobble, Expand, Amble;
    result := [];
    var start := 0;
    var more := true;
    while more
      invariant start <= |text| + 1 && (more ==> start <= |text|)
      invariant Amble(o, text, 0) == result + if more then Amble(o, text, start) else []
      decreases |text| + 1 - start
    {
      AmbleStep(o, text, start);
      var i;
      i, more := BraceGobbler(o, text, start, ',');
      var partial := BraceExpand(o, text[start..i]);
      result := result + partial;
      start := i + 1;
    }
  }

  /** Without a separator no closing brace is found, whatever is quoted, escaped or nested. */
  lemma {:induction false} NeverCloses(o: Outside, text: string, i: nat, st: Scan)
    requires i <= |text| && st.commas == 0 && forall j :: 0 <= j < |text| ==> text[j] != ',' && text[j] != '.'
    ensures !Gobble(o, text, i, '}', st).hit
    decreases |text| - i
  {
    forall j: nat, st': Scan | i < j <= |text| && st'.commas == 0 ensures !Gobble(o, text, j, '}', st').hit {
      NeverCloses(o, text, j, st');
    }
  }

  /** A text without commas and dots is left as it is. */
  lemma NoSeparator(o: Outside, text: string)
    requires forall j :: 0 <= j < |text| ==> text[j] != ',' && text[j] != '.'
    ensures Expand(o, text) == [text]
  {
    hide Gobble, Amble;
    var f := FirstBrace(o, text, 0);
    if f.hit {
      NeverCloses(o, text, f.at + 1, Begin('}'));
    }
  }
}
