/** Integer constants of the arithmetic evaluator: `strlong`, and the decimal text `itos` writes. */
module Numerals {
  import opened Int64
  import opened Strings

  predicate IsDigit(c: char) { '0' <= c <= '9' }
  predicate IsLower(c: char) { 'a' <= c <= 'z' }
  predicate IsUpper(c: char) { 'A' <= c <= 'Z' }
  predicate IsAlnum(c: char) { IsDigit(c) || IsLower(c) || IsUpper(c) }
  predicate ValidNumChar(c: char) { IsAlnum(c) || c == '_' || c == '@' }

  datatype Problem =
    | InvalidNumber | InvalidBase | InvalidConstant | DigitTooGreat   // raised by constants
    | OperandExpected | BadOperator | NeedsLvalue | BadSubscript      // raised by the token reader
    | NotAVariable | NoTarget | DivByZero | NegativeExponent          // raised by the operators
    | ColonExpected | ExpressionExpected | MissingParen | IdentifierExpected | TrailingText
    | TooDeep | StackUnderflow                                        // raised by `pushexp` and `popexp`

  datatype Number = Number(value: int) | Malformed(problem: Problem)

  /** What reading a constant can give: a 64-bit value or one of four errors. */
  predicate Plausible(r: Number) {
    match r
    case Number(v) => InRange(v)
    case Malformed(e) => e in {InvalidNumber, InvalidBase, InvalidConstant, DigitTooGreat}
  }

  function DigitValue(c: char, base: nat): nat
    requires ValidNumChar(c)
  {
    if IsDigit(c) then (c - '0') as nat
    else if IsLower(c) then (c - 'a') as nat + 10
    else if IsUpper(c) then (c - 'A') as nat + (if base <= 36 then 10 else 36)
    else if c == '@' then 62
    else 63
  }

  /** The scanning loop of `strlong`, from the characters still unread. */
  function Scan(s: string, base: nat, foundBase: bool, val: int): (r: Number)
    requires InRange(val)
    ensures Plausible(r)
  {
    if s == "" then Number(val)
    else if s[0] == '#' then
      if foundBase then Malformed(InvalidNumber)
      else if val < 2 || val > 64 then Malformed(InvalidBase)
      else if |s| == 1 || !ValidNumChar(s[1]) then Malformed(InvalidConstant)
      else Scan(s[1..], val, true, 0)
    else if ValidNumChar(s[0]) then
      var d := DigitValue(s[0], base);
      if d >= base then Malformed(DigitTooGreat)
      else Scan(s[1..], base, foundBase, Wrap(val * base + d))
    else Number(val)
  }

  function Strlong(num: string): (r: Number)
    ensures Plausible(r)
  {
    if |num| >= 1 && num[0] == '0' then
      if |num| == 1 then Number(0)
      else if num[1] == 'x' || num[1] == 'X' then Scan(num[2..], 16, true, 0)
      else Scan(num[1..], 8, true, 0)
    else Scan(num, 10, false, 0)
  }

  /** `strlong` as the loop it is. */
  method ReadConstant(num: string) returns (r: Number)
    ensures r == Strlong(num)
  {
    var i, base, foundBase, val := 0, 10, false, 0;
    if |num| >= 1 && num[0] == '0' {
      i := 1;
      if |num| == 1 { return Number(0); }
      if num[1] == 'x' || num[1] == 'X' {
        base, i := 16, 2;
      } else {
        base := 8;
      }
      foundBase := true;
    }
    while i < |num|
      invariant 0 <= i <= |num| && base >= 0 && InRange(val)
      invariant Strlong(num) == Scan(num[i..], base, foundBase, val)
    {
      var c := num[i];
      if c == '#' {
        if foundBase { return Malformed(InvalidNumber); }
        if val < 2 || val > 64 { return Malformed(InvalidBase); }
        base, val, foundBase := val, 0, true;
        if i + 1 == |num| || !ValidNumChar(num[i + 1]) { return Malformed(InvalidConstant); }
      } else if ValidNumChar(c) {
        var d := DigitValue(c, base);
        if d >= base { return Malformed(DigitTooGreat); }
        val := Wrap(val * base + d);
      } else {
        return Number(val);
      }
      assert num[i..][1..] == num[i + 1..];
      i := i + 1;
    }
    return Number(val);
  }

  function DigitChar(d: nat): (c: char)
    requires d < 64
    ensures ValidNumChar(c)
  {
    if d < 10 then '0' + d as char
    else if d < 36 then 'a' + (d - 10) as char
    else if d < 62 then 'A' + (d - 36) as char
    else if d == 62 then '@' else '_'
  }

  /** The digits of v in the given base, most significant first, without leading zeros. */
  function Digits(v: nat, base: nat): (s: string)
    requires 2 <= base <= 64
    ensures |s| >= 1 && forall c :: c in s ==> ValidNumChar(c)
    ensures v > 0 ==> s[0] != '0'
    ensures base == 10 ==> forall c :: c in s ==> IsDigit(c)
  {
    if v < base then [DigitChar(v)]
    else
      Split(v, base);
      Digits(v / base, base) + [DigitChar(v % base)]
  }

  lemma Split(v: nat, base: nat)
    requires 2 <= base <= v
    ensures v == (v / base) * base + v % base && 0 < v / base < v && 0 <= v % base < base
  {
    DivMod(v, base);
  }

  lemma DigitRoundTrip(d: nat, base: nat)
    requires d < base <= 64
    ensures DigitValue(DigitChar(d), base) == d
  {}

  lemma ScanDigit(val: int, base: nat, foundBase: bool, d: nat, rest: string)
    requires d < base <= 64 && InRange(val)
    ensures Scan([DigitChar(d)] + rest, base, foundBase, val) == Scan(rest, base, foundBase, Wrap(val * base + d))
  {
    DigitRoundTrip(d, base);
    assert ([DigitChar(d)] + rest)[1..] == rest;
  }

  lemma DigitsMore(v: nat, base: nat)
    requires 2 <= base <= 64
    ensures v < base ==> Digits(v, base) == [DigitChar(v)]
    ensures v >= base ==> Digits(v, base) == Digits(v / base, base) + [DigitChar(v % base)]
  {}

  /** Reading the digits of v after a value of zero leaves v, truncated, as the value. */
  lemma {:induction false} ScanDigits(v: nat, base: nat, foundBase: bool, rest: string)
    requires 2 <= base <= 64
    ensures Scan(Digits(v, base) + rest, base, foundBase, 0) == Scan(rest, base, foundBase, Wrap(v))
  {
    hide Scan, Digits, DigitChar, Wrap;
    DigitsMore(v, base);
    if v < base {
      ScanDigit(0, base, foundBase, v, rest);
    } else {
      Split(v, base);
      var h, d := v / base, v % base;
      ScanDigits(h, base, foundBase, [DigitChar(d)] + rest);
      Reassociated(Digits(h, base), [DigitChar(d)], rest);
      ScanDigit(Wrap(h), base, foundBase, d, rest);
      WrapHorner(h, base, d);
    }
  }

  lemma WrapHorner(h: int, base: int, d: int)
    ensures Wrap(Wrap(h) * base + d) == Wrap(h * base + d)
  {
    WrapMul(h, base);
    WrapAdd(Wrap(h) * base, d);
    WrapAdd(h * base, d);
  }

  lemma ScanHash(base: nat, t: string)
    requires 2 <= base <= 64 && t != "" && ValidNumChar(t[0])
    ensures Scan("#" + t, 10, false, base) == Scan(t, base, true, 0)
  {
    assert ("#" + t)[1..] == t;
  }

  lemma BasePrefix(base: nat, t: string)
    requires 2 <= base <= 64 && t != "" && ValidNumChar(t[0])
    ensures Strlong(Digits(base, 10) + "#" + t) == Scan(t, base, true, 0)
  {
    hide Scan, Digits;
    Reassociated(Digits(base, 10), "#", t);
    ScanDigits(base, 10, false, "#" + t);
    ScanHash(base, t);
  }

  /** `base#digits` denotes v for every base from 2 to 64; a v of 2^63 or more comes out wrapped. */
  lemma BaseNotation(base: nat, v: nat)
    requires 2 <= base <= 64
    ensures Strlong(Digits(base, 10) + "#" + Digits(v, base)) == Number(Wrap(v))
  {
    hide Digits, Strlong, Wrap;
    var t := Digits(v, base);
    assert t[0] in t;
    BasePrefix(base, t);
    ScanDigits(v, base, true, "");
    assert t + "" == t;
  }

  /** A base is taken modulo 2^64 and must then lie between 2 and 64. */
  lemma BaseChecked(b: nat, t: string)
    requires b > 0
    ensures !(2 <= Wrap(b) <= 64) ==> Strlong(Digits(b, 10) + "#" + t) == Malformed(InvalidBase)
    ensures 2 <= Wrap(b) <= 64 && !(t != "" && ValidNumChar(t[0])) ==>
              Strlong(Digits(b, 10) + "#" + t) == Malformed(InvalidConstant)
    ensures 2 <= Wrap(b) <= 64 && t != "" && ValidNumChar(t[0]) ==>
              Strlong(Digits(b, 10) + "#" + t) == Scan(t, Wrap(b), true, 0)
  {
    hide Digits, Wrap;
    Reassociated(Digits(b, 10), "#", t);
    ScanDigits(b, 10, false, "#" + t);
    assert ("#" + t)[1..] == t;
  }

  /** A digit that does not exist in the base is an error, and so is a second `#`, wherever they stand. */
  lemma DigitChecked(v: nat, base: nat, c: char, rest: string)
    requires 2 <= base <= 64
    ensures ValidNumChar(c) && DigitValue(c, base) >= base ==>
              Scan(Digits(v, base) + ([c] + rest), base, true, 0) == Malformed(DigitTooGreat)
    ensures c == '#' ==> Scan(Digits(v, base) + ([c] + rest), base, true, 0) == Malformed(InvalidNumber)
  {
    hide Digits, Wrap;
    ScanDigits(v, base, true, [c] + rest);
  }

  /** The digits are 0 to 9, a to z, A to Z, @ and _; up to base 36 the two cases of a letter are one digit. */
  lemma DigitsListed(d: nat, base: nat)
    requires d < base <= 64
    ensures d < 10 ==> DigitValue('0' + d as char, base) == d
    ensures 10 <= d < 36 ==> DigitValue('a' + (d - 10) as char, base) == d
    ensures 10 <= d < 36 && base <= 36 ==> DigitValue('A' + (d - 10) as char, base) == d
    ensures 36 <= d < 62 ==> DigitValue('A' + (d - 36) as char, base) == d
    ensures d == 62 ==> DigitValue('@', base) == d
    ensures d == 63 ==> DigitValue('_', base) == d
  {}

  /** Plain decimal text denotes itself. */
  lemma DecimalNotation(v: nat)
    ensures Strlong(Digits(v, 10)) == Number(Wrap(v))
  {
    assert Digits(v, 10) == Digits(v, 10) + "";
    ScanDigits(v, 10, false, "");
  }

  predicate SameLetters(s: string, t: string) {
    |s| == |t| && forall i :: 0 <= i < |s| ==> Lower(s[i]) == Lower(t[i])
  }

  function Lower(c: char): char {
    if IsUpper(c) then c - 'A' + 'a' else c
  }

  lemma {:induction false} ScanCase(s: string, t: string, base: nat, val: int)
    requires base <= 36 && SameLetters(s, t) && InRange(val)
    ensures Scan(s, base, true, val) == Scan(t, base, true, val)
  {
    if s != "" {
      assert Lower(s[0]) == Lower(t[0]);
      if s[0] != '#' && ValidNumChar(s[0]) {
        var d := DigitValue(s[0], base);
        assert DigitValue(t[0], base) == d;
        ScanCase(s[1..], t[1..], base, Wrap(val * base + d));
      }
    }
  }

  /** The constant names a base above 36 in front of its `#`, after a decimal value so far. */
  predicate NamesBigBase(s: string, val: int)
    requires InRange(val)
  {
    s != "" &&
    if s[0] == '#' then val > 36 else IsDigit(s[0]) && NamesBigBase(s[1..], Wrap(val * 10 + (s[0] - '0') as int))
  }

  lemma {:induction false} ScanTenCase(s: string, t: string, val: int)
    requires SameLetters(s, t) && InRange(val) && !NamesBigBase(s, val)
    ensures Scan(s, 10, false, val) == Scan(t, 10, false, val)
  {
    if s != "" {
      assert Lower(s[0]) == Lower(t[0]);
      if s[0] == '#' {
        if |s| > 1 && 2 <= val {
          assert Lower(s[1]) == Lower(t[1]);
          ScanCase(s[1..], t[1..], val, 0);
        }
      } else if IsDigit(s[0]) {
        ScanTenCase(s[1..], t[1..], Wrap(val * 10 + (s[0] - '0') as int));
      }
    }
  }

  /** Unless a constant names a base above 36, the case of its letters is irrelevant, errors included. */
  lemma CaseIrrelevant(s: string, t: string)
    requires SameLetters(s, t) && ((s != "" && s[0] == '0') || !NamesBigBase(s, 0))
    ensures Strlong(s) == Strlong(t)
  {
    hide Scan, NamesBigBase;
    if s != "" { assert Lower(s[0]) == Lower(t[0]); }
    if s != "" && s[0] == '0' {
      if |s| > 1 {
        assert Lower(s[1]) == Lower(t[1]);
        ScanCase(s[1..], t[1..], 8, 0);
        ScanCase(s[2..], t[2..], 16, 0);
      }
    } else {
      ScanTenCase(s, t, 0);
    }
  }

  /**
   `0x` and a leading `0` mean `16#` and `8#`, errors included, exactly when a digit character follows;
   a leading `0` also has to be no part of `0x`.
   */
  lemma PrefixForms(t: string)
    ensures Strlong("0x" + t) == Strlong("0X" + t)
    ensures Strlong("0x" + t) == Strlong("16#" + t) <==> t != "" && ValidNumChar(t[0])
    ensures t == "" || t[0] !in "xX" ==> (Strlong("0" + t) == Strlong("8#" + t) <==> t != "" && ValidNumChar(t[0]))
  {
    hide Scan, Digits;
    assert ("0x" + t)[2..] == ("0X" + t)[2..] == t;
    assert t != "" ==> ("0" + t)[1] == t[0] && ("0" + t)[1..] == t;
    SixteenAndEight();
    assert "16" + "#" + t == "16#" + t && "8" + "#" + t == "8#" + t;
    if t != "" && ValidNumChar(t[0]) {
      BasePrefix(16, t);
      BasePrefix(8, t);
    } else {
      NoDigits(16, t);
      NoDigits(8, t);
    }
  }

  /** With no digit character after it, a named base is an error, and a base known from a prefix gives 0 or another. */
  lemma NoDigits(base: nat, t: string)
    requires 2 <= base <= 64 && !(t != "" && ValidNumChar(t[0]))
    ensures Strlong(Digits(base, 10) + "#" + t) == Malformed(InvalidConstant)
    ensures Scan(t, base, true, 0) != Malformed(InvalidConstant)
  {
    hide Digits;
    Reassociated(Digits(base, 10), "#", t);
    ScanDigits(base, 10, false, "#" + t);
    assert Digits(base, 10)[0] != '0';
  }

  lemma SixteenAndEight()
    ensures Digits(16, 10) == "16" && Digits(8, 10) == "8"
  {
    assert Digits(16, 10) == Digits(1, 10) + "6";
  }

  /** `itos`: the decimal text of a value. */
  function Itos(v: int): string {
    if v < 0 then "-" + Digits(-v, 10) else Digits(v, 10)
  }
}
