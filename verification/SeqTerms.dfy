/** Sequence expressions such as {1..10..3}, {a..e} and {007..42} (`expand_seqterm` in braces.c). */
module SeqTerms {
  import opened Int64
  import opened Numerals
  import opened Options
  import opened Sequences
  import opened Strings

  predicate IsAlpha(c: char) { IsLower(c) || IsUpper(c) }

  /** White space as `isspace` has it. */
  predicate White(c: char) { c == ' ' || '\t' <= c <= '\r' }

  function SkipWhite(s: string, i: nat): (j: nat)
    requires i <= |s|
    ensures i <= j <= |s|
    decreases |s| - i
  {
    if i < |s| && White(s[i]) then SkipWhite(s, i + 1) else i
  }

  function DigitsEnd(s: string, i: nat): (j: nat)
    requires i <= |s|
    ensures i <= j <= |s| && forall k :: i <= k < j ==> IsDigit(s[k])
    decreases |s| - i
  {
    if i < |s| && IsDigit(s[i]) then DigitsEnd(s, i + 1) else i
  }

  function DecimalValue(s: string): nat
    requires forall i :: 0 <= i < |s| ==> IsDigit(s[i])
  {
    if s == "" then 0
    else
      assert IsDigit(s[|s| - 1]);
      DecimalValue(s[..|s| - 1]) * 10 + (s[|s| - 1] - '0') as nat
  }

  /** What `strtoimax` gives: the value, where it stopped (at 0 without digits), and whether it overflowed. */
  datatype Parsed = Parsed(value: int, end: nat, overflow: bool)

  function Strtoimax(s: string): (p: Parsed)
    ensures p.end <= |s| && InRange(p.value)
  {
    var i := SkipWhite(s, 0);
    var j := if CharAt(s, i) == '-' || CharAt(s, i) == '+' then i + 1 else i;
    var k := DigitsEnd(s, j);
    if k == j then Parsed(0, 0, false)
    else
      var v: int := DecimalValue(s[j..k]);
      if CharAt(s, i) == '-' then
        if -v < INTMAX_MIN then Parsed(INTMAX_MIN, k, true) else Parsed(-v, k, false)
      else if v > INTMAX_MAX then Parsed(INTMAX_MAX, k, true) else Parsed(v, k, false)
  }

  function SkipBlank(s: string, i: nat): (j: nat)
    requires i <= |s|
    ensures i <= j <= |s|
    decreases |s| - i
  {
    if i < |s| && (s[i] == ' ' || s[i] == '\t') then SkipBlank(s, i + 1) else i
  }

  /** A whole text that is a number, blanks around it included. */
  function Number64(s: string): (r: Option<int>)
    ensures r.Some? ==> InRange(r.value)
  {
    var p := Strtoimax(s);
    if p.overflow || p.end == 0 then None
    else if SkipBlank(s, p.end) == |s| then Some(p.value)
    else None
  }

  /** `legal_number`. */
  method LegalNumber(s: string) returns (r: Option<int>)
    ensures r == Number64(s)
  {
    var p := Strtoimax(s);
    if p.overflow || p.end == 0 {
      return None;
    }
    var ep := p.end;
    while ep < |s| && (s[ep] == ' ' || s[ep] == '\t')
      invariant p.end <= ep <= |s| && SkipBlank(s, p.end) == SkipBlank(s, ep)
    {
      ep := ep + 1;
    }
    if ep == |s| {
      return Some(p.value);
    }
    return None;
  }

  /** One end of a sequence: a number, a letter, or neither. */
  datatype End = NoEnd | Int(v: int) | Char(c: char)

  predicate EndInRange(e: End) {
    match e
    case Int(v) => InRange(v)
    case Char(c) => IsAlpha(c)
    case NoEnd => true
  }

  function LeftEnd(lhs: string): (e: End)
    ensures EndInRange(e)
  {
    var n := Number64(lhs);
    if n.Some? then Int(n.value)
    else if |lhs| == 1 && IsAlpha(lhs[0]) then Char(lhs[0])
    else NoEnd
  }

  /** The right end, and where it stops in a text that may go on with an increment. */
  function RightEnd(rhs: string): (r: (End, nat))
    requires rhs != ""
    ensures EndInRange(r.0) && r.1 <= |rhs|
  {
    if IsDigit(rhs[0]) || ((rhs[0] == '+' || rhs[0] == '-') && IsDigit(CharAt(rhs, 1))) then
      var p := Strtoimax(rhs);
      if p.overflow || (p.end < |rhs| && rhs[p.end] != '.') then (NoEnd, p.end) else (Int(p.value), p.end)
    else if IsAlpha(rhs[0]) && (|rhs| == 1 || rhs[1] == '.') then (Char(rhs[0]), 1)
    else (NoEnd, 0)
  }

  /** The increment behind position ep; 1 if there is none, and nothing if the text there is no increment. */
  function Increment(rhs: string, ep: nat): (r: Option<int>)
    requires ep <= |rhs|
    ensures r.Some? ==> InRange(r.value)
  {
    if CharAt(rhs, ep) == '.' && CharAt(rhs, ep + 1) == '.' && ep + 2 < |rhs| then
      var p := Strtoimax(rhs[ep + 2..]);
      if ep + 2 + p.end < |rhs| || p.overflow then None else Some(p.value)
    else if ep < |rhs| then None
    else Some(1)
  }

  /** Leading zeros, which ask for padding. */
  predicate Zeroed(s: string) {
    (|s| > 1 && s[0] == '0') || (|s| > 2 && s[0] == '-' && s[1] == '0')
  }

  /** If either end has leading zeros, all elements are as wide as the wider end. */
  function KindOf(lhs: string, rhs: string): Kind {
    if Zeroed(lhs) || Zeroed(rhs) then Padded(if |lhs| < |rhs| then |rhs| else |lhs|) else Decimal
  }

  /** The elements between two ends; nothing for the one range that 64-bit arithmetic miscounts. */
  function Between(a: int, b: int, incr: int, kind: Kind): Option<seq<string>>
    requires InRange(a) && InRange(b) && InRange(incr)
  {
    if Countable(a, b, incr) then Elements(a, b, incr, kind) else None
  }

  /** The first `..` from i on, or the length of the text. */
  function FirstDots(s: string, i: nat): (j: nat)
    requires i <= |s|
    ensures i <= j <= |s| && (j < |s| ==> j + 2 <= |s| && s[j] == '.' && s[j + 1] == '.')
    decreases |s| - i
  {
    if i == |s| || (s[i] == '.' && CharAt(s, i + 1) == '.') then i else FirstDots(s, i + 1)
  }

  /** The words of a sequence expression, or nothing if the text is none. */
  function SeqTerm(text: string): Option<seq<string>> {
    var t := FirstDots(text, 0);
    if t == |text| || t == 0 || t + 2 == |text| then None
    else
      var lhs, rhs := text[..t], text[t + 2..];
      var (r, ep) := RightEnd(rhs);
      var incr := Increment(rhs, ep);
      if r.NoEnd? || incr.None? then None
      else
        match (LeftEnd(lhs), r)
        case (Int(a), Int(b)) => Between(a, b, incr.value, KindOf(lhs, rhs[..ep]))
        case (Char(a), Char(b)) => Between(a as int, b as int, incr.value, Letter)
        case _ => None
  }

  /** `expand_seqterm`. */
  method ExpandSeqterm(text: string) returns (result: Option<seq<string>>)
    ensures result == SeqTerm(text)
  {
    hide FirstDots, Number64, Between, RightEnd, Increment, KindOf;
    var lhsLen := FirstDots(text, 0);
    if lhsLen == |text| {
      return None;
    }
    var lhs, rhs := text[..lhsLen], text[lhsLen + 2..];
    if lhs == "" || rhs == "" {
      return None;
    }
    var left := NoEnd;
    var tl := LegalNumber(lhs);
    if tl.Some? {
      left := Int(tl.value);
    } else if IsAlpha(lhs[0]) && |lhs| == 1 {
      left := Char(lhs[0]);
    }
    assert left == LeftEnd(lhs);
    var right, rhsLen := ReadRight(rhs);
    var incr := None;
    if right != NoEnd {
      incr := ReadIncrement(rhs, rhsLen);
    }
    if left == NoEnd || incr == None || left.Char? != right.Char? {
      return None;
    }
    if left.Char? {
      result := Make(left.c as int, right.c as int, incr.value, Letter);
    } else {
      var kind := Padding(lhs, rhs, rhsLen);
      result := Make(left.v, right.v, incr.value, kind);
    }
  }

  /** The right end, and whether it looks as if an increment follows. */
  method ReadRight(rhs: string) returns (right: End, ep: nat)
    requires rhs != ""
    ensures (right, ep) == RightEnd(rhs)
  {
    right, ep := NoEnd, 0;
    if IsDigit(rhs[0]) || ((rhs[0] == '+' || rhs[0] == '-') && IsDigit(CharAt(rhs, 1))) {
      var tr := Strtoimax(rhs);
      right, ep := Int(tr.value), tr.end;
      if tr.overflow || (ep < |rhs| && rhs[ep] != '.') {
        right := NoEnd;
      }
    } else if IsAlpha(rhs[0]) && (|rhs| == 1 || rhs[1] == '.') {
      right, ep := Char(rhs[0]), 1;
    }
  }

  method ReadIncrement(rhs: string, oep: nat) returns (r: Option<int>)
    requires oep <= |rhs|
    ensures r == Increment(rhs, oep)
  {
    var incr, ep, overflow := 1, oep, false;
    if CharAt(rhs, ep) == '.' && CharAt(rhs, ep + 1) == '.' && ep + 2 < |rhs| {
      var p := Strtoimax(rhs[ep + 2..]);
      incr, ep, overflow := p.value, ep + 2 + p.end, p.overflow;
    }
    if ep < |rhs| || overflow {
      return None;
    }
    return Some(incr);
  }

  /** The width of padded elements, as it is worked out end by end. */
  method Padding(lhs: string, rhs: string, rhsLen: nat) returns (kind: Kind)
    requires lhs != "" && rhsLen <= |rhs|
    ensures kind == KindOf(lhs, rhs[..rhsLen])
  {
    var width, padded := 0, false;
    if |lhs| > 1 && lhs[0] == '0' {
      width, padded := |lhs|, true;
    }
    if |lhs| > 2 && lhs[0] == '-' && lhs[1] == '0' {
      width, padded := |lhs|, true;
    }
    if rhsLen > 1 && rhs[0] == '0' && width < rhsLen {
      width, padded := rhsLen, true;
    }
    if rhsLen > 2 && rhs[0] == '-' && rhs[1] == '0' && width < rhsLen {
      width, padded := rhsLen, true;
    }
    if width < |lhs| && padded {
      width := |lhs|;
    }
    if width < rhsLen && padded {
      width := rhsLen;
    }
    kind := if padded then Padded(width) else Decimal;
  }

  method Make(a: int, b: int, incr: int, kind: Kind) returns (result: Option<seq<string>>)
    requires InRange(a) && InRange(b) && InRange(incr)
    ensures result == Between(a, b, incr, kind)
  {
    if !Countable(a, b, incr) {
      return None;
    }
    result := MkSeq(a, b, incr, kind);
  }

  lemma {:induction false} DigitsSpan(s: string, i: nat, j: nat)
    requires i <= j <= |s| && (forall k :: i <= k < j ==> IsDigit(s[k])) && !IsDigit(CharAt(s, j))
    ensures DigitsEnd(s, i) == j
    decreases j - i
  {
    if i < j { DigitsSpan(s, i + 1, j); }
  }

  lemma ValueMore(h: string, d: nat)
    requires d < 10 && forall i :: 0 <= i < |h| ==> IsDigit(h[i])
    ensures var s := h + [DigitChar(d)];
            (forall i :: 0 <= i < |s| ==> IsDigit(s[i])) && DecimalValue(s) == DecimalValue(h) * 10 + d
  {
    assert (h + [DigitChar(d)])[..|h|] == h;
  }

  /** Decimal digits have the value they are the digits of. */
  lemma {:induction false} DigitsValue(v: nat)
    ensures (forall i :: 0 <= i < |Digits(v, 10)| ==> IsDigit(Digits(v, 10)[i])) && DecimalValue(Digits(v, 10)) == v
  {
    hide Digits, DecimalValue, DigitChar;
    DigitsMore(v, 10);
    if v < 10 {
      ValueMore("", v);
      NoValue();
      assert "" + [DigitChar(v)] == Digits(v, 10);
    } else {
      var h, d := v / 10, v % 10;
      Split(v, 10);
      DigitsValue(h);
      ValueMore(Digits(h, 10), d);
    }
  }

  lemma NoValue()
    ensures DecimalValue("") == 0
  {}

  lemma {:induction false} ZerosValue(n: nat, d: string)
    requires forall i :: 0 <= i < |d| ==> IsDigit(d[i])
    ensures DecimalValue(Zeros(n) + d) == DecimalValue(d)
    decreases n + |d|
  {
    var s := Zeros(n) + d;
    if d != "" {
      var d' := d[..|d| - 1];
      ZerosValue(n, d');
      assert s[..|s| - 1] == Zeros(n) + d';
    } else if n > 0 {
      ZerosValue(n - 1, "");
      assert s[..|s| - 1] == Zeros(n - 1) + "";
    }
  }

  lemma FilledValue(w: int, v: nat)
    ensures var s := Filled(w, Digits(v, 10));
            |s| > 0 && (forall i :: 0 <= i < |s| ==> IsDigit(s[i])) && DecimalValue(s) == v
  {
    hide Digits, DecimalValue;
    DigitsValue(v);
    ZerosValue(if w > |Digits(v, 10)| then w - |Digits(v, 10)| else 0, Digits(v, 10));
  }

  lemma {:induction false} WhiteSkipped(s: string, i: nat, j: nat)
    requires i <= j <= |s| && (forall k :: i <= k < j ==> White(s[k])) && !White(CharAt(s, j))
    ensures SkipWhite(s, i) == j
    decreases j - i
  {
    if i < j { WhiteSkipped(s, i + 1, j); }
  }

  function Signed(sign: string, n: int): int { if sign == "-" then -n else n }

  /**
   `strtoimax` passes over white space, takes one sign, reads the digits and stops at whatever is none; a
   number that does not fit comes out as the nearest that does, and is reported.
   */
  lemma NumberParsed(pre: string, sign: string, w: int, n: nat, rest: string)
    requires (forall c <- pre :: White(c)) && sign in {"", "+", "-"} && (rest != "" ==> !IsDigit(rest[0]))
    ensures var d := Filled(w, Digits(n, 10));
            var v := Signed(sign, n);
            Strtoimax(pre + (sign + (d + rest))) ==
            Parsed(if v < INTMAX_MIN then INTMAX_MIN else if v > INTMAX_MAX then INTMAX_MAX else v,
                   |pre| + |sign| + |d|, !InRange(v))
  {
    hide Filled, Digits, DecimalValue, SkipWhite, DigitsEnd;
    var d := Filled(w, Digits(n, 10));
    FilledValue(w, n);
    var s, i := pre + (sign + (d + rest)), |pre|;
    NumberPlaces(pre, sign, d, rest);
    assert s[i + |sign|..i + |sign| + |d|] == d;
  }

  /** Where the parts of a written number are found. */
  lemma NumberPlaces(pre: string, sign: string, d: string, rest: string)
    requires (forall c <- pre :: White(c)) && sign in {"", "+", "-"} && d != ""
    requires (forall m :: 0 <= m < |d| ==> IsDigit(d[m])) && (rest != "" ==> !IsDigit(rest[0]))
    ensures var s, i, j := pre + (sign + (d + rest)), |pre|, |pre| + |sign|;
            && SkipWhite(s, 0) == i && DigitsEnd(s, j) == j + |d|
            && CharAt(s, i) == (if sign == "" then d[0] else sign[0]) && IsDigit(d[0])
  {
    hide SkipWhite, DigitsEnd;
    var s, i := pre + (sign + (d + rest)), |pre|;
    var j := i + |sign|;
    var k := j + |d|;
    forall m | 0 <= m < i ensures White(s[m]) { assert s[m] == pre[m] && pre[m] in pre; }
    forall m | j <= m < k ensures IsDigit(s[m]) { assert s[m] == d[m - j]; }
    assert CharAt(s, i) == if sign != "" then sign[0] else d[0];
    assert k < |s| ==> s[k] == rest[0];
    WhiteSkipped(s, 0, i);
    DigitsSpan(s, j, k);
  }

  /** A number in decimal, with or without leading zeros, is read back, up to whatever is no digit. */
  lemma NumberRead(w: int, v: int, rest: string)
    requires InRange(v) && (rest != "" ==> !IsDigit(rest[0]))
    ensures var u := ZeroPadded(w, v);
            Strtoimax(u + rest) == Parsed(v, |u|, false) && |u| > 0
  {
    hide Filled, Digits, Strtoimax;
    if v < 0 {
      NumberParsed("", "-", w - 1, -v, rest);
      var d := Filled(w - 1, Digits(-v, 10));
      assert "" + ("-" + (d + rest)) == ZeroPadded(w, v) + rest;
    } else {
      NumberParsed("", "", w, v, rest);
      var d := Filled(w, Digits(v, 10));
      assert "" + ("" + (d + rest)) == ZeroPadded(w, v) + rest;
      FilledValue(w, v);
    }
  }

  lemma NumberWhole(w: int, v: int)
    requires InRange(v)
    ensures LeftEnd(ZeroPadded(w, v)) == Int(v)
  {
    hide ZeroPadded, Strtoimax;
    var u := ZeroPadded(w, v);
    NumberRead(w, v, "");
    assert u + "" == u;
  }

  lemma {:induction false} BlanksSkipped(s: string, i: nat)
    requires i <= |s| && forall k :: i <= k < |s| ==> s[k] == ' ' || s[k] == '\t'
    ensures SkipBlank(s, i) == |s|
    decreases |s| - i
  {
    if i < |s| { BlanksSkipped(s, i + 1); }
  }

  /** A whole number may have white space in front and blanks behind, and must fit 64 bits. */
  lemma WholeNumber(pre: string, sign: string, w: int, n: nat, post: string)
    requires (forall c <- pre :: White(c)) && sign in {"", "+", "-"} && (forall c <- post :: c == ' ' || c == '\t')
    ensures var v := Signed(sign, n);
            Number64(pre + (sign + (Filled(w, Digits(n, 10)) + post))) == if InRange(v) then Some(v) else None
  {
    hide Filled, Digits, Strtoimax, DecimalValue;
    var d := Filled(w, Digits(n, 10));
    var s, k := pre + (sign + (d + post)), |pre| + |sign| + |d|;
    assert post != "" ==> post[0] in post;
    NumberParsed(pre, sign, w, n, post);
    FilledValue(w, n);
    forall m | k <= m < |s| ensures s[m] == ' ' || s[m] == '\t' { assert s[m] == post[m - k] && post[m - k] in post; }
    BlanksSkipped(s, k);
  }

  lemma {:induction false} DotsAt(s: string, i: nat, j: nat)
    requires i <= j && j + 2 <= |s| && s[j] == '.' && s[j + 1] == '.'
    requires forall k :: i <= k < j ==> s[k] != '.'
    ensures FirstDots(s, i) == j
    decreases j - i
  {
    if i < j { DotsAt(s, i + 1, j); }
  }

  /** The characters of a written number. */
  lemma NumberChars(w: int, v: int)
    ensures var u := ZeroPadded(w, v); |u| > 0 && forall i :: 0 <= i < |u| ==> IsDigit(u[i]) || u[i] == '-'
    ensures var u := ZeroPadded(w, v); if v < 0 then u[0] == '-' && |u| > 1 && IsDigit(u[1]) else IsDigit(u[0])
  {
    hide Filled, Digits, DecimalValue;
    if v < 0 { FilledValue(w - 1, -v); } else { FilledValue(w, v); }
  }

  /** The pieces of a text around its first `..`. */
  lemma Halves(u: string, rhs: string)
    requires forall k :: 0 <= k < |u| ==> u[k] != '.'
    ensures var text := u + (".." + rhs);
            FirstDots(text, 0) == |u| && text[..|u|] == u && text[|u| + 2..] == rhs
  {
    DotsAt(u + (".." + rhs), 0, |u|);
  }

  lemma RightNumber(w: int, v: int, rest: string)
    requires InRange(v) && (rest != "" ==> rest[0] == '.')
    ensures var rhs := ZeroPadded(w, v) + rest; RightEnd(rhs) == (Int(v), |ZeroPadded(w, v)|)
  {
    hide ZeroPadded, Strtoimax;
    NumberRead(w, v, rest);
    NumberChars(w, v);
  }

  lemma StepText(u: string, w: int, incr: int)
    requires InRange(incr)
    ensures Increment(u + (".." + ZeroPadded(w, incr)), |u|) == Some(incr) && Increment(u, |u|) == Some(1)
  {
    hide ZeroPadded, Strtoimax;
    var step := ZeroPadded(w, incr);
    var rhs := u + (".." + step);
    NumberRead(w, incr, "");
    assert step + "" == step && rhs[|u| + 2..] == step;
  }

  /** The text of an integer range, each number written with leading zeros up to a width of its own. */
  function RangeText(w1: int, lo: int, w2: int, hi: int, step: string): string {
    ZeroPadded(w1, lo) + (".." + (ZeroPadded(w2, hi) + step))
  }

  /**
   {lo..hi} and {lo..hi..incr} are the integers from lo toward hi, for all 64-bit numbers however
   they are padded; the padding of the ends decides that of the elements.
   */
  lemma IntRange(w1: int, lo: int, w2: int, hi: int, w3: int, incr: int)
    requires InRange(lo) && InRange(hi) && InRange(incr)
    ensures var kind := KindOf(ZeroPadded(w1, lo), ZeroPadded(w2, hi));
            && SeqTerm(RangeText(w1, lo, w2, hi, "")) == Between(lo, hi, 1, kind)
            && SeqTerm(RangeText(w1, lo, w2, hi, ".." + ZeroPadded(w3, incr))) == Between(lo, hi, incr, kind)
  {
    hide ZeroPadded, Between;
    RangeIs(w1, lo, w2, hi, "", 1, w3);
    RangeIs(w1, lo, w2, hi, ".." + ZeroPadded(w3, incr), incr, w3);
  }

  lemma RangeIs(w1: int, lo: int, w2: int, hi: int, step: string, incr: int, w3: int)
    requires InRange(lo) && InRange(hi) && InRange(incr)
    requires (step == "" && incr == 1) || step == ".." + ZeroPadded(w3, incr)
    ensures SeqTerm(RangeText(w1, lo, w2, hi, step)) ==
            Between(lo, hi, incr, KindOf(ZeroPadded(w1, lo), ZeroPadded(w2, hi)))
  {
    hide ZeroPadded, Between, FirstDots, RightEnd, LeftEnd, Increment, KindOf;
    var u, v := ZeroPadded(w1, lo), ZeroPadded(w2, hi);
    var rhs := v + step;
    NumberChars(w1, lo);
    NumberChars(w2, hi);
    Halves(u, rhs);
    NumberWhole(w1, lo);
    RightNumber(w2, hi, step);
    StepText(v, w3, incr);
    assert v + "" == v && rhs[..|v|] == v;
  }

  /** Without leading zeros the numbers and the elements are plain decimal. */
  lemma PlainNumbers(v: int)
    ensures ZeroPadded(0, v) == Itos(v) && !Zeroed(Itos(v))
  {
    hide Digits;
    var d := Digits(if v < 0 then -v else v, 10);
    DigitsMore(0, 10);
    assert Zeros(0) + d == d;
    if v < 0 {
      assert Itos(v) == "-" + d && Itos(v)[1] == d[0] && d[0] != '0';
    } else {
      assert d[0] in d && (v > 0 ==> d[0] != '0');
    }
  }

  /** {a..e} and {a..e..2}: the characters between two letters. */
  lemma LetterRange(a: char, b: char, w: int, incr: int)
    requires IsAlpha(a) && IsAlpha(b) && InRange(incr)
    ensures SeqTerm([a] + (".." + [b])) == Between(a as int, b as int, 1, Letter)
    ensures SeqTerm([a] + (".." + ([b] + (".." + ZeroPadded(w, incr))))) == Between(a as int, b as int, incr, Letter)
  {
    hide ZeroPadded, Between, FirstDots, Increment;
    assert LeftEnd([a]) == Char(a);
    Halves([a], [b]);
    Halves([a], [b] + (".." + ZeroPadded(w, incr)));
    StepText([b], w, incr);
  }

  /** So the words of {a..b} are every character from a to b, in order. */
  lemma LetterWords(a: char, b: char)
    requires IsAlpha(a) && IsAlpha(b)
    ensures var r := SeqTerm([a] + (".." + [b]));
            && r.Some? && |r.value| == (if a <= b then b as int - a as int else a as int - b as int) + 1
            && forall k :: 0 <= k < |r.value| ==>
                 var c := if a <= b then a as int + k else a as int - k;
                 0 < c < 128 && r.value[k] == [c as char]
  {
    hide SeqTerm;
    LetterRange(a, b, 0, 1);
    LetterElements(a as int, b as int);
  }

  lemma LetterElements(a: int, b: int)
    requires 0 < a < 128 && 0 < b < 128
    ensures var r := Between(a, b, 1, Letter);
            && r.Some? && |r.value| == (if a <= b then b - a else a - b) + 1
            && forall k :: 0 <= k < |r.value| ==>
                 var c := if a <= b then a + k else a - k; 0 < c < 128 && r.value[k] == [c as char]
  {
    hide Refused, Stride, Count, Elements;
    UnitSteps(a, b);
    ElementsAre(a, b, 1, Letter);
  }

  /** Steps of one. */
  lemma UnitSteps(a: int, b: int)
    requires 0 < a < 128 && 0 < b < 128
    ensures !Refused(a, b, 1) && Count(a, b, 1) == (if a <= b then b - a else a - b) + 1
    ensures a != b ==> Stride(a, b, 1) == if a < b then 1 else -1
  {
    hide Steps;
    StepsExact(a, b, 1);
  }

  lemma ElementsAre(a: int, b: int, incr: int, kind: Kind)
    requires InRange(a) && InRange(b) && InRange(incr) && !Refused(a, b, incr)
    ensures var r := Elements(a, b, incr, kind);
            && r.Some? && |r.value| == Count(a, b, incr)
            && forall k :: 0 <= k < |r.value| ==> r.value[k] == Show(kind, a + k * Stride(a, b, incr))
  {
    hide Refused, Count, Stride, Show;
  }

  predicate FitsInt(n: int) { -0x8000_0000 <= n <= INT_MAX }

  /** A padded element reads back as itself if and only if it fits an `int`. */
  lemma PaddedReadsBack(w: nat, n: int)
    ensures Number64(Show(Padded(w), n)) == Some(n) <==> FitsInt(n)
  {
    hide ZeroPadded;
    NumberWhole(w, Int32(n));
  }

  lemma {:induction false} LongerDigits(a: nat, b: nat)
    requires a <= b
    ensures |Digits(a, 10)| <= |Digits(b, 10)|
  {
    hide Digits, DigitChar;
    DigitsMore(a, 10);
    DigitsMore(b, 10);
    if a >= 10 {
      Split(a, 10);
      Split(b, 10);
      LongerDigits(a / 10, b / 10);
    }
  }

  /** Padding adds nothing to a number that is wide enough. */
  lemma PaddedLength(w: int, v: int)
    ensures |ZeroPadded(w, v)| == if w > |Itos(v)| then w else |Itos(v)|
  {}

  /** Between two numbers none is wider than both. */
  lemma WidestEnd(lo: int, n: int, hi: int)
    requires lo <= n <= hi
    ensures |Itos(n)| <= |Itos(lo)| || |Itos(n)| <= |Itos(hi)|
  {
    hide Digits;
    if n < 0 { LongerDigits(-n, -lo); } else { LongerDigits(n, hi); }
  }

  /** The elements of a padded range are all as wide as its wider end, and each reads back as itself. */
  lemma PaddedRange(w1: int, lo: int, w2: int, hi: int, incr: int, k: nat)
    requires FitsInt(lo) && FitsInt(hi) && k < Count(lo, hi, incr)
    requires KindOf(ZeroPadded(w1, lo), ZeroPadded(w2, hi)).Padded?
    ensures var kind, n := KindOf(ZeroPadded(w1, lo), ZeroPadded(w2, hi)), Nth(lo, Stride(lo, hi, incr), k);
            |Show(kind, n)| == kind.width && Number64(Show(kind, n)) == Some(n)
  {
    hide ZeroPadded, Itos, Nth, Stride, Count, Zeroed, Number64;
    var kind, n := KindOf(ZeroPadded(w1, lo), ZeroPadded(w2, hi)), Nth(lo, Stride(lo, hi, incr), k);
    ElementInside(lo, hi, incr, k);
    if lo <= hi { WidestEnd(lo, n, hi); } else { WidestEnd(hi, n, lo); }
    PaddedLength(w1, lo);
    PaddedLength(w2, hi);
    PaddedLength(kind.width, n);
    PaddedReadsBack(kind.width, n);
    assert Int32(n) == n;
  }
}
