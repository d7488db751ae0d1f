/** Completion text in braces (bracecomp.c): a sorted list of names folded into one brace pattern. */
module BraceNames {
  import opened Braces
  import opened BracePatterns
  import opened Strings

  /** The characters that `sh_backslash_quote` always quotes. */
  const QUOTED := {'\t', '\n', ' ', '!', '"', '$', '&', '\'', '(', ')', '*', ',', ';', '<', '>', '?',
                   '[', '\\', ']', '^', '`', '{', '|', '}'}

  function Quote(c: char, first: bool): Atom {
    if c in QUOTED || (c == '#' && first) then Escaped(c) else Plain(c)
  }

  /** The quoted text x and then q. */
  function QuotedThen(x: string, first: bool, q: Pattern): Pattern {
    if x == "" then q else Char(Quote(x[0], first), QuotedThen(x[1..], false, q))
  }

  /** Quote removal: a backslash goes and the character behind it stays. */
  function Dequote(w: string): string {
    if w == "" then ""
    else if w[0] == '\\' && |w| > 1 then [w[1]] + Dequote(w[2..])
    else [w[0]] + Dequote(w[1..])
  }

  function Dequoted(ws: seq<string>): (r: seq<string>)
    ensures |r| == |ws| && forall j :: 0 <= j < |ws| ==> r[j] == Dequote(ws[j])
  {
    seq(|ws|, j requires 0 <= j < |ws| => Dequote(ws[j]))
  }

  predicate Clear(x: string) { '\0' !in x }

  /** A pattern that can be an arm, without substitutions. */
  predicate Tame(p: Pattern) {
    Pieces(p) && Ordered(p, false, false) && Balanced(p, 0) && !HasSubst(p)
  }

  lemma {:induction false} QuotedWellFormed(x: string, first: bool, q: Pattern)
    requires Clear(x) && Tame(q)
    ensures Tame(QuotedThen(x, first, q))
  {
    if x != "" { QuotedWellFormed(x[1..], false, q); }
  }

  lemma EmptyTame()
    ensures Tame(Empty)
  {}

  lemma AltTame(arms: Arms)
    requires arms.And? && ArmsWellFormed(arms) && !ArmsHaveSubst(arms)
    ensures Tame(Alt(arms, Empty))
  {
    EmptyTame();
  }

  lemma ArmsTame(p: Pattern, more: Arms)
    requires Tame(p)
    ensures ArmsWellFormed(Last(p)) && !ArmsHaveSubst(Last(p))
    ensures ArmsWellFormed(more) && !ArmsHaveSubst(more) ==>
              ArmsWellFormed(And(p, more)) && !ArmsHaveSubst(And(p, more))
  {}

  lemma {:induction false} QuotedWords(x: string, first: bool, q: Pattern)
    ensures Dequoted(Words(QuotedThen(x, first, q))) == Prefixed(x, Dequoted(Words(q)))
  {
    hide Words, Quote, Dequoted, Prefixed;
    if x == "" {
      PrefixedNone(Dequoted(Words(q)));
    } else {
      var p := QuotedThen(x[1..], false, q);
      QuotedWords(x[1..], false, q);
      CharWords(x[0], first, p);
      PrefixedTwice([x[0]], x[1..], Dequoted(Words(q)));
      assert [x[0]] + x[1..] == x;
    }
  }

  lemma CharWords(c: char, first: bool, p: Pattern)
    ensures Dequoted(Words(Char(Quote(c, first), p))) == Prefixed([c], Dequoted(Words(p)))
  {
    hide Text, Dequote;
    var a, ws := Quote(c, first), Words(p);
    forall j | 0 <= j < |ws| ensures Dequote(Text(a) + ws[j]) == [c] + Dequote(ws[j]) {
      DequoteAtom(a, ws[j]);
    }
  }

  lemma DequoteAtom(a: Atom, w: string)
    requires a.Escaped? || (a.Plain? && a.c != '\\')
    ensures Dequote(Text(a) + w) == [a.c] + Dequote(w)
  {
    assert (Text(a) + w)[|Text(a)|..] == w;
  }

  function QuotedText(x: string, first: bool): string {
    Print(QuotedThen(x, first, Empty))
  }

  lemma QuotedStep(x: string, i: nat)
    requires i < |x|
    ensures QuotedText(x[i..], i == 0) ==
            (if x[i] in QUOTED || (x[i] == '#' && i == 0) then ['\\', x[i]] else [x[i]]) + QuotedText(x[i + 1..], false)
  {
    assert x[i..][1..] == x[i + 1..];
  }

  /** The loop of `sh_backslash_quote`. */
  method BackslashQuote(x: string) returns (r: string)
    ensures r == QuotedText(x, true)
  {
    hide QuotedText;
    r := "";
    assert x[0..] == x;
    for i := 0 to |x|
      invariant r + QuotedText(x[i..], i == 0) == QuotedText(x, true)
    {
      QuotedStep(x, i);
      ghost var done := r;
      if x[i] in QUOTED {
        r := r + ['\\', x[i]];
      } else if x[i] == '#' && i == 0 {
        r := r + ['\\', x[i]];
      } else {
        r := r + [x[i]];
      }
      Reassociated(done, r[|done|..], QuotedText(x[i + 1..], false));
    }
    QuotedEnd(x);
  }

  lemma QuotedEnd(x: string)
    ensures forall b :: QuotedText(x[|x|..], b) == ""
  {}

  /** The length of the longest common prefix. */
  function Common(s: string, t: string): nat {
    if s != "" && t != "" && s[0] == t[0] then 1 + Common(s[1..], t[1..]) else 0
  }

  method StringGcd(s: string, t: string) returns (i: nat)
    ensures i == Common(s, t)
  {
    i := 0;
    while i < |s| && i < |t|
      invariant i <= |s| && i <= |t| && i + Common(s[i..], t[i..]) == Common(s, t)
    {
      if s[i] != t[i] {
        return;
      }
      assert s[i..][1..] == s[i + 1..] && t[i..][1..] == t[i + 1..];
      i := i + 1;
    }
  }

  /** The order of `strcmp`. */
  predicate Upto(s: string, t: string) {
    s == "" || (t != "" && (s[0] < t[0] || (s[0] == t[0] && Upto(s[1..], t[1..]))))
  }

  /** Names that share a prefix stand together; names[0] is the text they complete, not a match. */
  ghost predicate Grouped(names: seq<string>) {
    forall i, j, k :: 1 <= i < j < k < |names| ==> Common(names[i], names[k]) <= Common(names[i], names[j])
  }

  /** A list in the order of `strcmp`, as readline leaves it. */
  ghost predicate Ascending(names: seq<string>) {
    forall i, j :: 1 <= i < j < |names| ==> Upto(names[i], names[j])
  }

  /** The first byte as a signed char. */
  function FirstByte(s: string): int {
    if s == "" then 0 else if s[0] as int < 128 then s[0] as int else s[0] as int - 256
  }

  /** The order of `_strcompare`: the first bytes as signed chars, and `strcmp` when they are equal. */
  predicate Compared(s: string, t: string) {
    FirstByte(s) < FirstByte(t) || (FirstByte(s) == FirstByte(t) && Upto(s, t))
  }

  /** A list as the call of `qsort` leaves it. */
  ghost predicate Qsorted(names: seq<string>) {
    forall i, j :: 1 <= i < j < |names| ==> Compared(names[i], names[j])
  }

  predicate Bytes(s: string) { forall i :: 0 <= i < |s| ==> 0 < s[i] as int < 256 }

  lemma {:induction false} CommonPrefix(s: string, t: string)
    ensures Common(s, t) <= |s| && Common(s, t) <= |t| && s[..Common(s, t)] == t[..Common(s, t)]
  {
    if s != "" && t != "" && s[0] == t[0] {
      var n := Common(s[1..], t[1..]);
      CommonPrefix(s[1..], t[1..]);
      assert s[..n + 1] == [s[0]] + s[1..][..n] && t[..n + 1] == [t[0]] + t[1..][..n];
    }
  }

  /** Along a sorted list the common prefix with the first name never grows. */
  lemma {:induction false} CommonShrinks(s: string, t: string, u: string)
    requires Upto(s, t) && Upto(t, u)
    ensures Common(s, u) <= Common(s, t)
  {
    if s != "" && u != "" && s[0] == u[0] {
      CommonShrinks(s[1..], t[1..], u[1..]);
    }
  }

  /** Both orders put names with a common prefix together. */
  lemma AscendingGroups(names: seq<string>)
    requires Ascending(names)
    ensures Grouped(names)
  {
    hide Common, Upto;
    forall i, j, k | 1 <= i < j < k < |names| ensures Common(names[i], names[k]) <= Common(names[i], names[j]) {
      CommonShrinks(names[i], names[j], names[k]);
    }
  }

  lemma QsortedGroups(names: seq<string>)
    requires Qsorted(names) && forall x <- names :: Bytes(x)
    ensures Grouped(names)
  {
    hide Common, Compared;
    forall i, j, k | 1 <= i < j < k < |names| ensures Common(names[i], names[k]) <= Common(names[i], names[j]) {
      ComparedShrinks(names[i], names[j], names[k]);
    }
  }

  lemma ComparedShrinks(s: string, t: string, u: string)
    requires Compared(s, t) && Compared(t, u) && Bytes(s) && Bytes(t) && Bytes(u)
    ensures Common(s, u) <= Common(s, t)
  {
    if s != "" && u != "" && s[0] == u[0] {
      assert FirstByte(s) == FirstByte(t) == FirstByte(u);
      CommonShrinks(s, t, u);
    }
  }

  /** Every name from lo up to hi has the first g characters in common. */
  ghost predicate Share(names: seq<string>, lo: nat, hi: nat, g: nat) {
    && 1 <= lo <= hi <= |names|
    && (forall j :: lo <= j < hi ==> g <= |names[j]|)
    && (forall j :: lo <= j < hi ==> names[j][..g] == names[lo][..g])
  }

  /** Where the run of names with more than g characters in common with the first ends. */
  function GroupEnd(names: seq<string>, lo: nat, e: nat, hi: nat, g: nat): (stop: nat)
    requires lo < e <= hi <= |names|
    ensures e <= stop <= hi
    ensures forall j :: e <= j < stop ==> Common(names[lo], names[j]) > g
    ensures stop < hi ==> Common(names[lo], names[stop]) <= g
    decreases hi - e
  {
    if e < hi && Common(names[lo], names[e]) > g then GroupEnd(names, lo, e + 1, hi, g) else e
  }

  /** How much a group of two or more names has in common. */
  function GroupGcd(names: seq<string>, lo: nat, stop: nat): nat
    requires lo < stop <= |names|
  {
    if stop == lo + 1 then |names[lo]| else Common(names[lo], names[stop - 1])
  }

  lemma ShorterPrefix(x: string, y: string, c: nat, n: nat)
    requires n <= c <= |x| && c <= |y| && x[..c] == y[..c]
    ensures x[..n] == y[..n]
  {
    assert x[..n] == x[..c][..n] && y[..n] == y[..c][..n];
  }

  /** The names of a group share what the first and the last of them share. */
  lemma GroupTogether(names: seq<string>, lo: nat, stop: nat)
    requires Grouped(names) && 1 <= lo && lo + 1 < stop <= |names|
    ensures Share(names, lo, stop, Common(names[lo], names[stop - 1]))
  {
    hide Common;
    var gcd := Common(names[lo], names[stop - 1]);
    CommonPrefix(names[lo], names[stop - 1]);
    forall j | lo < j < stop ensures gcd <= |names[j]| && names[j][..gcd] == names[lo][..gcd] {
      CommonPrefix(names[lo], names[j]);
      assert gcd <= Common(names[lo], names[j]);
      ShorterPrefix(names[lo], names[j], Common(names[lo], names[j]), gcd);
    }
  }

  lemma ShareRest(names: seq<string>, lo: nat, stop: nat, hi: nat, g: nat)
    requires Share(names, lo, hi, g) && lo < stop <= hi
    ensures Share(names, stop, hi, g) && g <= |names[lo]|
  {}

  lemma GroupShares(names: seq<string>, lo: nat, hi: nat, g: nat)
    requires Grouped(names) && Share(names, lo, hi, g) && lo < hi
    ensures var stop := GroupEnd(names, lo, lo + 1, hi, g);
            var gcd := GroupGcd(names, lo, stop);
            Share(names, lo, stop, gcd) && Share(names, stop, hi, g) && g <= gcd <= |names[lo]| &&
            (stop > lo + 1 ==> g < gcd && GroupEnd(names, lo, lo + 1, stop, gcd) < stop)
  {
    hide Common, Grouped;
    var stop := GroupEnd(names, lo, lo + 1, hi, g);
    ShareRest(names, lo, stop, hi, g);
    if stop > lo + 1 {
      hide Share, GroupEnd;
      GroupTogether(names, lo, stop);
      CommonPrefix(names[lo], names[stop - 1]);
    }
  }

  /** The arms for the names from lo up to hi, without the g characters already written. */
  ghost function Munge(names: seq<string>, lo: nat, hi: nat, g: nat): Arms
    requires Grouped(names) && Share(names, lo, hi, g) && lo < hi
    decreases hi - lo, |names[lo]| - g
  {
    GroupShares(names, lo, hi, g);
    var stop := GroupEnd(names, lo, lo + 1, hi, g);
    var arm := MungeGroup(names, lo, stop, g);
    if stop == hi then Last(arm) else And(arm, Munge(names, stop, hi, g))
  }

  ghost function MungeGroup(names: seq<string>, lo: nat, stop: nat, g: nat): Pattern
    requires Grouped(names) && lo < stop <= |names| && Share(names, lo, stop, GroupGcd(names, lo, stop))
    requires g <= GroupGcd(names, lo, stop) && (stop > lo + 1 ==> g < GroupGcd(names, lo, stop) <= |names[lo]|)
    decreases stop - lo, |names[lo]| - g, 0
  {
    var gcd := GroupGcd(names, lo, stop);
    if stop == lo + 1 then QuotedThen(names[lo][g..], true, Empty)
    else QuotedThen(names[lo][g..gcd], true, Alt(Munge(names, lo, stop, gcd), Empty))
  }

  /** The whole completion text: one group stands without braces of its own. */
  ghost function MungeAll(names: seq<string>, lo: nat, hi: nat): Pattern
    requires Grouped(names) && 1 <= lo < hi <= |names|
  {
    var arms := Munge(names, lo, hi, 0);
    if arms.Last? then arms.p else Alt(arms, Empty)
  }

  /** The names from lo up to hi, without their first g characters. */
  function Rests(names: seq<string>, lo: nat, hi: nat, g: nat): (r: seq<string>)
    requires lo <= hi <= |names| && forall j :: lo <= j < hi ==> g <= |names[j]|
    ensures |r| == hi - lo && forall j :: 0 <= j < |r| ==> r[j] == names[lo + j][g..]
  {
    seq(hi - lo, j requires 0 <= j < hi - lo => names[lo + j][g..])
  }

  lemma DequotedSplit(a: seq<string>, b: seq<string>)
    ensures Dequoted(a + b) == Dequoted(a) + Dequoted(b)
  {}

  lemma RestsSplit(names: seq<string>, lo: nat, mid: nat, hi: nat, g: nat)
    requires lo <= mid <= hi <= |names| && forall j :: lo <= j < hi ==> g <= |names[j]|
    ensures Rests(names, lo, hi, g) == Rests(names, lo, mid, g) + Rests(names, mid, hi, g)
  {}

  lemma RestsLonger(names: seq<string>, lo: nat, hi: nat, g: nat, gcd: nat)
    requires Share(names, lo, hi, gcd) && lo < hi && g <= gcd
    ensures Prefixed(names[lo][g..gcd], Rests(names, lo, hi, gcd)) == Rests(names, lo, hi, g)
  {
    forall j | lo <= j < hi ensures names[lo][g..gcd] + names[j][gcd..] == names[j][g..] {
      assert names[lo][g..gcd] == names[lo][..gcd][g..] && names[j][g..gcd] == names[j][..gcd][g..];
    }
  }

  /** The arms expand to the names, in order, up to quoting. */
  lemma {:induction false} MungeWords(names: seq<string>, lo: nat, hi: nat, g: nat)
    requires Grouped(names) && Share(names, lo, hi, g) && lo < hi
    ensures Dequoted(ArmWords(Munge(names, lo, hi, g))) == Rests(names, lo, hi, g)
    decreases hi - lo, |names[lo]| - g
  {
    hide Words, Dequoted, Rests, GroupEnd, GroupGcd, MungeGroup;
    GroupShares(names, lo, hi, g);
    var stop := GroupEnd(names, lo, lo + 1, hi, g);
    GroupWords(names, lo, stop, g);
    if stop < hi {
      MungeWords(names, stop, hi, g);
      DequotedSplit(Words(MungeGroup(names, lo, stop, g)), ArmWords(Munge(names, stop, hi, g)));
      RestsSplit(names, lo, stop, hi, g);
    }
  }

  lemma {:induction false} GroupWords(names: seq<string>, lo: nat, stop: nat, g: nat)
    requires Grouped(names) && lo < stop <= |names| && Share(names, lo, stop, GroupGcd(names, lo, stop))
    requires g <= GroupGcd(names, lo, stop) && (stop > lo + 1 ==> g < GroupGcd(names, lo, stop) <= |names[lo]|)
    ensures Dequoted(Words(MungeGroup(names, lo, stop, g))) == Rests(names, lo, stop, g)
    decreases stop - lo, |names[lo]| - g, 0
  {
    var gcd := GroupGcd(names, lo, stop);
    if stop == lo + 1 {
      QuotedWords(names[lo][g..], true, Empty);
      assert Dequoted([""]) == [""];
      assert names[lo][g..] + "" == names[lo][g..];
    } else {
      var arms := Munge(names, lo, stop, gcd);
      QuotedWords(names[lo][g..gcd], true, Alt(arms, Empty));
      ProductNone(ArmWords(arms));
      MungeWords(names, lo, stop, gcd);
      RestsLonger(names, lo, stop, g, gcd);
    }
  }

  lemma {:induction false} MungeWellFormed(names: seq<string>, lo: nat, hi: nat, g: nat)
    requires Grouped(names) && Share(names, lo, hi, g) && lo < hi && forall x <- names :: Clear(x)
    ensures ArmsWellFormed(Munge(names, lo, hi, g)) && !ArmsHaveSubst(Munge(names, lo, hi, g))
    ensures Tame(Munge(names, lo, hi, g).p)
    ensures Munge(names, lo, hi, g).And? <==> GroupEnd(names, lo, lo + 1, hi, g) < hi
    decreases hi - lo, |names[lo]| - g
  {
    hide GroupEnd, GroupGcd, QuotedThen, Tame, ArmsWellFormed, ArmsHaveSubst;
    GroupShares(names, lo, hi, g);
    assert Clear(names[lo]);
    var stop := GroupEnd(names, lo, lo + 1, hi, g);
    var gcd := GroupGcd(names, lo, stop);
    EmptyTame();
    if stop == lo + 1 {
      QuotedWellFormed(names[lo][g..], true, Empty);
    } else {
      MungeWellFormed(names, lo, stop, gcd);
      AltTame(Munge(names, lo, stop, gcd));
      QuotedWellFormed(names[lo][g..gcd], true, Alt(Munge(names, lo, stop, gcd), Empty));
    }
    if stop < hi {
      MungeWellFormed(names, stop, hi, g);
      ArmsTame(MungeGroup(names, lo, stop, g), Munge(names, stop, hi, g));
    } else {
      ArmsTame(MungeGroup(names, lo, stop, g), Last(Empty));
    }
  }

  /** Brace-expanding the completion text and removing the quotes gives back the list, in order. */
  lemma NamesReturn(o: Outside, names: seq<string>, lo: nat, hi: nat)
    requires Grouped(names) && 1 <= lo < hi <= |names| && forall x <- names :: Clear(x)
    ensures Dequoted(Expand(o, Print(MungeAll(names, lo, hi)))) == names[lo..hi]
  {
    hide Munge, GroupEnd, Expand, Print;
    var arms := Munge(names, lo, hi, 0);
    MungeWellFormed(names, lo, hi, 0);
    if arms.And? { AltTame(arms); }
    ExpandPrint(o, MungeAll(names, lo, hi));
    MungeWords(names, lo, hi, 0);
    ProductNone(ArmWords(arms));
    assert Rests(names, lo, hi, 0) == names[lo..hi];
  }

  lemma {:induction false} QuotedPrints(x: string, first: bool, q: Pattern)
    ensures Print(QuotedThen(x, first, q)) == QuotedText(x, first) + Print(q)
  {
    hide Text, Quote, PrintArms;
    if x != "" {
      QuotedPrints(x[1..], false, q);
      Reassociated(Text(Quote(x[0], first)), QuotedText(x[1..], false), Print(q));
    }
  }

  /** The arms as written inside braces, each with a separator behind it. */
  ghost function ArmsText(names: seq<string>, lo: nat, hi: nat, g: nat): string
    requires Grouped(names) && Share(names, lo, hi, g)
  {
    if lo == hi then "" else PrintArms(Munge(names, lo, hi, g)) + ","
  }

  lemma ArmsTextStep(names: seq<string>, lo: nat, hi: nat, g: nat, stop: nat)
    requires Grouped(names) && Share(names, lo, hi, g) && lo < hi && stop == GroupEnd(names, lo, lo + 1, hi, g)
    requires Share(names, lo, stop, GroupGcd(names, lo, stop)) && g <= GroupGcd(names, lo, stop)
    requires stop > lo + 1 ==> g < GroupGcd(names, lo, stop) <= |names[lo]|
    requires Share(names, stop, hi, g)
    ensures ArmsText(names, lo, hi, g) ==
            Print(MungeGroup(names, lo, stop, g)) + "," + ArmsText(names, stop, hi, g)
  {
    hide GroupEnd, GroupGcd, MungeGroup, Print;
  }

  /** The inner loop of `really_munge_braces`. */
  method FindGroup(names: seq<string>, start: nat, hi: nat, g: nat) returns (end: nat, gcd: nat)
    requires start < hi <= |names|
    ensures end == GroupEnd(names, start, start + 1, hi, g) && gcd == GroupGcd(names, start, end)
  {
    gcd := |names[start]|;
    end := start + 1;
    while end < hi
      invariant start < end <= hi && gcd == GroupGcd(names, start, end)
      invariant GroupEnd(names, start, end, hi, g) == GroupEnd(names, start, start + 1, hi, g)
    {
      var temp := StringGcd(names[start], names[end]);
      if temp <= g {
        break;
      }
      gcd := temp;
      end := end + 1;
    }
  }

  /** One group of `really_munge_braces`, without its separator. */
  method WriteGroup(names: seq<string>, start: nat, end: nat, g: nat, gcd: nat) returns (subterm: string)
    requires Grouped(names) && start < end <= |names| && gcd == GroupGcd(names, start, end)
    requires Share(names, start, end, gcd) && g <= gcd && (end > start + 1 ==> g < gcd <= |names[start]|)
    ensures subterm == Print(MungeGroup(names, start, end, g))
    decreases end - start, |names[start]| - g, 0
  {
    hide GroupGcd, Munge, QuotedText;
    if start + 1 == end {
      subterm := BackslashQuote(names[start][g..]);
      QuotedPrints(names[start][g..], true, Empty);
    } else {
      var x := names[start][g..gcd];
      subterm := BackslashQuote(x);
      var inner := ReallyMungeBraces(names, start, end, gcd);
      ghost var arms := Munge(names, start, end, gcd);
      QuotedPrints(x, true, Alt(arms, Empty));
      assert inner[..|inner| - 1] == PrintArms(arms);
      subterm := subterm + "{" + (inner[..|inner| - 1] + "}");
      assert Print(Alt(arms, Empty)) == "{" + (PrintArms(arms) + "}");
    }
  }

  lemma NoMore(names: seq<string>, hi: nat, g: nat)
    requires Grouped(names) && 1 <= hi <= |names|
    ensures ArmsText(names, hi, hi, g) == ""
  {}

  /** What is left to do at the top: the last separator becomes the closing brace, or goes. */
  lemma TopText(names: seq<string>, lo: nat, hi: nat, flag: bool, result: string)
    requires Grouped(names) && Share(names, lo, hi, 0) && lo < hi
    requires flag == (GroupEnd(names, lo, lo + 1, hi, 0) != hi)
    requires result == (if flag then "{" else "") + ArmsText(names, lo, hi, 0)
    ensures result != "" && result[..|result| - 1] + (if flag then "}" else "") == Print(MungeAll(names, lo, hi))
  {
    var arms := Munge(names, lo, hi, 0);
    var w := PrintArms(arms);
    assert flag <==> arms.And?;
    if flag {
      assert result[..|result| - 1] == "{" + w;
      assert Print(Alt(arms, Empty)) == "{" + (w + "}");
    } else {
      assert result[..|result| - 1] == w;
    }
  }

  /** `really_munge_braces`: at the top the whole text, below it the arms with a separator behind each. */
  method ReallyMungeBraces(names: seq<string>, lo: nat, hi: nat, g: nat) returns (result: string)
    requires Grouped(names) && Share(names, lo, hi, g) && names != [] && (lo < hi || hi == |names|)
    ensures lo == hi ==> result == QuotedText(names[0], true)
    ensures lo < hi && g > 0 ==> result == ArmsText(names, lo, hi, g)
    ensures lo < hi && g == 0 ==> result == Print(MungeAll(names, lo, hi))
    decreases hi - lo, if lo < hi then |names[lo]| - g else 0
  {
    hide ArmsText, MungeAll, GroupEnd, GroupGcd, QuotedText, MungeGroup, Print, Grouped;
    if lo == hi {
      result := BackslashQuote(names[0]);
      return;
    }
    result := "";
    var flag := false;
    var start := lo;
    while start < hi
      invariant lo <= start <= hi && Share(names, start, hi, g)
      invariant start == lo ==> result == "" && !flag
      invariant start > lo ==> flag == (g == 0 && GroupEnd(names, lo, lo + 1, hi, g) != hi)
      invariant result + ArmsText(names, start, hi, g) == (if flag then "{" else "") + ArmsText(names, lo, hi, g)
    {
      GroupShares(names, start, hi, g);
      var end, gcd := FindGroup(names, start, hi, g);
      ArmsTextStep(names, start, hi, g, end);
      if g == 0 && start == lo && end != hi {
        result := "{";
        flag := true;
      }
      var subterm := WriteGroup(names, start, end, g, gcd);
      result := result + subterm + ",";
      start := end;
    }
    NoMore(names, hi, g);
    assert result == (if flag then "{" else "") + ArmsText(names, lo, hi, g);
    if g == 0 {
      TopText(names, lo, hi, flag, result);
      result := result[..|result| - 1] + if flag then "}" else "";
    }
  }

  /** `hack_braces_completion`: the text expands to the matches, or to names[0] when that is the only name. */
  method HackBraces(o: Outside, names: seq<string>) returns (text: string)
    requires names != [] && Grouped(names) && forall x <- names :: Clear(x)
    ensures Dequoted(Expand(o, text)) == if |names| == 1 then names else names[1..]
  {
    hide Expand, Dequoted, MungeAll;
    text := ReallyMungeBraces(names, 1, |names|, 0);
    if |names| == 1 {
      LoneName(o, names[0]);
    } else {
      NamesReturn(o, names, 1, |names|);
    }
  }

  lemma LoneName(o: Outside, x: string)
    requires Clear(x)
    ensures Dequoted(Expand(o, QuotedText(x, true))) == [x]
  {
    hide Expand, Print;
    EmptyTame();
    QuotedWellFormed(x, true, Empty);
    ExpandPrint(o, QuotedThen(x, true, Empty));
    QuotedWords(x, true, Empty);
    assert Dequoted([""]) == [""];
    assert x + "" == x;
  }
}
