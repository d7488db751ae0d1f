/** The element loop of sequence expressions such as {1..10..3} (`mkseq` in braces.c). */
module Sequences {
  import opened Int64
  import opened Numerals
  import opened Options

  const INT_MAX := 0x7fff_ffff

  predicate AddOverflow(a: int, b: int, minv: int, maxv: int) {
    (a > 0 && b > maxv - a) || (a < 0 && b < minv - a)
  }

  predicate SubOverflow(a: int, b: int, minv: int, maxv: int) {
    (b > 0 && a < minv + b) || (b < 0 && a > maxv + b)
  }

  /** The increment the loop uses: never 0, and pointing from start to end when they differ. */
  function Stride(start: int, end: int, incr: int): (s: int)
    ensures s != 0 && (start < end ==> s > 0) && (start > end ==> s < 0)
    ensures Abs(s) == if incr == 0 then 1 else Abs(incr)
  {
    var s := if incr == 0 then 1 else incr;
    if (start > end && s > 0) || (start < end && s < 0) then -s else s
  }

  /** Element k, unbounded. */
  function Nth(start: int, stride: int, k: nat): int { start + k * stride }

  lemma NthNext(start: int, stride: int, k: nat)
    ensures Nth(start, stride, 0) == start && Nth(start, stride, k + 1) == Nth(start, stride, k) + stride
  {}

  /** How many elements fit between start and end. */
  function Count(start: int, end: int, incr: int): nat {
    Abs(end - start) / Abs(Stride(start, end, incr)) + 1
  }

  /** `sh_imaxabs`: the least integer is its own absolute value. */
  function WrappedAbs(x: int): int { Wrap(Abs(x)) }

  lemma WrappedAbsIs(x: int)
    requires InRange(x)
    ensures WrappedAbs(x) == if x == INTMAX_MIN then INTMAX_MIN else Abs(x)
  {}

  /** The steps between the ends, as 64-bit arithmetic computes them. */
  function Steps(start: int, end: int, incr: int): int
    requires InRange(start) && InRange(end) && InRange(incr) && !(start < end && incr == INTMAX_MIN)
  {
    WrappedAbsIs(Stride(start, end, incr));
    TruncDiv(WrappedAbs(end - start), WrappedAbs(Stride(start, end, incr)))
  }

  /** A value stored in an `int`. */
  function Int32(x: int): int { (x + 0x8000_0000) % 0x1_0000_0000 - 0x8000_0000 }

  /** The size of the vector asked for: the elements, counted in an `int`, and a terminator. */
  function Slots(start: int, end: int, incr: int): int
    requires InRange(start) && InRange(end) && InRange(incr) && !(start < end && incr == INTMAX_MIN)
  {
    Int32(Steps(start, end, incr) + 1) + 1
  }

  /** The checks that make `mkseq` give up. */
  predicate Refused(start: int, end: int, incr: int)
    requires InRange(start) && InRange(end) && InRange(incr)
  {
    || (start < end && incr == INTMAX_MIN)
    || SubOverflow(end, start, INTMAX_MIN + 3, INTMAX_MAX - 2)
    || AddOverflow(Steps(start, end, incr), 1, INTMAX_MIN, INTMAX_MAX)
    || Steps(start, end, incr) > INT_MAX - 3
  }

  /** The inputs for which 64-bit arithmetic counts right. */
  predicate Countable(start: int, end: int, incr: int) {
    !(start == 0 && end == INTMAX_MIN) || incr == INTMAX_MIN
  }

  /** The overflow checks are exact when the operand that is not their first is itself within the limits. */
  lemma OverflowExactly(a: int, b: int, minv: int, maxv: int)
    ensures minv <= b <= maxv ==> (AddOverflow(a, b, minv, maxv) <==> !(minv <= a + b <= maxv))
    ensures minv <= a <= maxv ==> (SubOverflow(a, b, minv, maxv) <==> !(minv <= a - b <= maxv))
  {}

  /** The overflow check keeps the difference in range. */
  lemma DifferenceInRange(start: int, end: int)
    requires InRange(start) && InRange(end)
    requires !SubOverflow(end, start, INTMAX_MIN + 3, INTMAX_MAX - 2)
    ensures InRange(end - start) && (end - start == INTMAX_MIN <==> start == 0 && end == INTMAX_MIN)
  {}

  /** Both absolute values exist in 64 bits exactly when neither difference nor increment is the least integer. */
  lemma BothFit(start: int, end: int, incr: int)
    requires InRange(start) && InRange(end) && InRange(incr)
    requires !SubOverflow(end, start, INTMAX_MIN + 3, INTMAX_MAX - 2)
    ensures InRange(Abs(end - start)) && InRange(Abs(Stride(start, end, incr))) <==>
            !(start == 0 && end == INTMAX_MIN) && incr != INTMAX_MIN
  {
    DifferenceInRange(start, end);
  }

  /** The wrapped count is the true one if and only if the input is countable. */
  lemma StepsExact(start: int, end: int, incr: int)
    requires InRange(start) && InRange(end) && InRange(incr) && !(start < end && incr == INTMAX_MIN)
    requires !SubOverflow(end, start, INTMAX_MIN + 3, INTMAX_MAX - 2)
    ensures Steps(start, end, incr) == Count(start, end, incr) - 1 <==> Countable(start, end, incr)
    ensures !Countable(start, end, incr) ==> Steps(start, end, incr) == -(Count(start, end, incr) - 1) < 0
  {
    hide WrappedAbs;
    DifferenceInRange(start, end);
    var d, s := end - start, Stride(start, end, incr);
    WrappedAbsIs(d);
    WrappedAbsIs(s);
    if d == INTMAX_MIN && s != INTMAX_MIN {
      QuotientPositive(Abs(d), Abs(s));
    } else if d != INTMAX_MIN && s == INTMAX_MIN {
      SmallQuotient(Abs(d), Abs(s));
    } else if d == INTMAX_MIN {
      SameQuotient(Abs(d));
    }
  }

  lemma QuotientPositive(d: nat, a: nat)
    requires 0 < a <= d
    ensures d / a > 0
  {}

  lemma SmallQuotient(d: nat, a: nat)
    requires d < a
    ensures d / a == 0
  {}

  lemma SameQuotient(d: nat)
    requires d > 0
    ensures d / d == 1
  {}

  /** The vector has room for exactly the elements and the terminator if and only if the input is countable. */
  lemma RoomExactly(start: int, end: int, incr: int)
    requires InRange(start) && InRange(end) && InRange(incr) && !Refused(start, end, incr)
    ensures Slots(start, end, incr) == Count(start, end, incr) + 1 <==> Countable(start, end, incr)
  {
    hide Steps, Count;
    StepsExact(start, end, incr);
  }

  /** {0..-9223372036854775808}: the checks pass, two slots are asked for, and 2^63 + 1 elements are due. */
  lemma TooFewSlots()
    ensures !Countable(0, INTMAX_MIN, 1) && !Refused(0, INTMAX_MIN, 1)
    ensures Slots(0, INTMAX_MIN, 1) == 2 && Count(0, INTMAX_MIN, 1) == TWO63 + 1
  {}

  lemma WithinCount(d: nat, a: nat, i: nat)
    requires a > 0
    ensures i * a <= d <==> i <= d / a
  {
    if i <= d / a {
      assert i * a <= (d / a) * a;
    } else {
      assert i * a >= (d / a + 1) * a;
    }
  }

  lemma NonEmpty(start: int, end: int, incr: int)
    ensures Count(start, end, incr) > 0
  {}

  /** Going on past element i leaves the interval exactly when i is the last. */
  lemma NextInside(start: int, end: int, incr: int, i: nat)
    ensures var s := Stride(start, end, incr);
            var n := Nth(start, s, i + 1);
            ((s < 0 && n < end) || (s > 0 && n > end)) <==> i + 1 >= Count(start, end, incr)
  {
    var s := Stride(start, end, incr);
    var d, a := Abs(end - start), Abs(s);
    WithinCount(d, a, i + 1);
    assert (i + 1) * s == if s < 0 then -((i + 1) * a) else (i + 1) * a;
  }

  /** Every element lies between the two ends. */
  lemma ElementInside(start: int, end: int, incr: int, k: nat)
    requires k < Count(start, end, incr)
    ensures var n := Nth(start, Stride(start, end, incr), k); start <= n <= end || end <= n <= start
  {
    var s := Stride(start, end, incr);
    WithinCount(Abs(end - start), Abs(s), k);
    assert k * s == if s < 0 then -(k * Abs(s)) else k * Abs(s);
  }

  /** How elements are written: in decimal, in decimal with leading zeros up to a width, or as a letter. */
  datatype Kind = Decimal | Padded(width: nat) | Letter

  function Zeros(n: nat): (s: string)
    ensures |s| == n && forall i :: 0 <= i < n ==> s[i] == '0'
  {
    seq(n, _ => '0')
  }

  /** The digits d behind as many zeros as make w characters. */
  function Filled(w: int, d: string): string {
    Zeros(if w > |d| then w - |d| else 0) + d
  }

  /** `%0*d`: the sign counts as one of the w characters. */
  function ZeroPadded(w: int, v: int): string {
    if v < 0 then "-" + Filled(w - 1, Digits(-v, 10)) else Filled(w, Digits(v, 10))
  }

  /** Padded elements go through an `int` on the way to their text. */
  function Show(kind: Kind, n: int): string {
    match kind
    case Decimal => Itos(n)
    case Padded(w) => ZeroPadded(w, Int32(n))
    case Letter => [(n % 256) as char]
  }

  /** The words of a sequence, unless the checks refuse it. */
  function Elements(start: int, end: int, incr: int, kind: Kind): Option<seq<string>>
    requires InRange(start) && InRange(end) && InRange(incr)
  {
    if Refused(start, end, incr) then None
    else
      Some(seq(Count(start, end, incr), k requires 0 <= k => Show(kind, Nth(start, Stride(start, end, incr), k))))
  }

  /** `mkseq`: the vector has room for, and is filled with, every element and its terminator. */
  method MkSeq(start: int, end: int, incr0: int, kind: Kind) returns (r: Option<seq<string>>)
    requires InRange(start) && InRange(end) && InRange(incr0)
    requires Countable(start, end, incr0)
    ensures r == None <==> Refused(start, end, incr0)
    ensures r.Some? ==> |r.value| == Count(start, end, incr0)
    ensures r.Some? ==>
              forall k :: 0 <= k < |r.value| ==> r.value[k] == Show(kind, Nth(start, Stride(start, end, incr0), k))
    ensures r == Elements(start, end, incr0, kind)
  {
    hide Nth, Count, WrappedAbs, TruncDiv, Int32, Show;
    var incr := if incr0 == 0 then 1 else incr0;
    if start > end && incr > 0 {
      incr := -incr;
    } else if start < end && incr < 0 {
      if incr == INTMAX_MIN {
        return None;
      }
      incr := -incr;
    }
    assert incr == Stride(start, end, incr0);
    if SubOverflow(end, start, INTMAX_MIN + 3, INTMAX_MAX - 2) {
      return None;
    }
    WrappedAbsIs(incr);
    StepsExact(start, end, incr0);
    var prevn := WrappedAbs(end - start);
    var steps := TruncDiv(prevn, WrappedAbs(incr));
    if AddOverflow(steps, 1, INTMAX_MIN, INTMAX_MAX) {
      return None;
    }
    if steps > INT_MAX - 3 {
      return None;
    }
    RoomExactly(start, end, incr0);
    var nelem := Int32(steps + 1);
    var result := new string[nelem + 1];
    var i := Fill(result, start, end, incr0, incr, kind);
    assert result[..i] == Elements(start, end, incr0, kind).value;
    return Some(result[..i]);
  }

  /** The loop: n never leaves 64 bits, and the write index never leaves the vector. */
  method Fill(result: array<string>, start: int, end: int, ghost incr0: int, incr: int, kind: Kind)
    returns (i: nat)
    requires InRange(start) && InRange(end) && incr == Stride(start, end, incr0) && InRange(incr)
    requires result.Length == Count(start, end, incr0) + 1
    modifies result
    ensures i == Count(start, end, incr0)
    ensures forall k :: 0 <= k < i ==> result[k] == Show(kind, Nth(start, incr, k))
  {
    hide Nth, Count, Stride, Show;
    NthNext(start, incr, 0);
    NonEmpty(start, end, incr0);
    i := 0;
    var n := start;
    while true
      invariant i < Count(start, end, incr0) && n == Nth(start, incr, i) && InRange(n)
      invariant forall k :: 0 <= k < i ==> result[k] == Show(kind, Nth(start, incr, k))
      decreases Count(start, end, incr0) - i
    {
      result[i] := Show(kind, n);
      i := i + 1;
      NextInside(start, end, incr0, i - 1);
      NthNext(start, incr, i - 1);
      if AddOverflow(n, incr, INTMAX_MIN, INTMAX_MAX) {
        break;
      }
      n := n + incr;
      if (incr < 0 && n < end) || (incr > 0 && n > end) {
        break;
      }
    }
    result[i] := "";
  }
}
