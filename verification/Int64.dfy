/** 64-bit two's-complement arithmetic as the arithmetic evaluator uses it (`intmax_t`). */
module Int64 {
  const TWO63: int := 0x8000_0000_0000_0000
  const TWO64: int := 0x1_0000_0000_0000_0000
  const INTMAX_MIN: int := -TWO63
  const INTMAX_MAX: int := TWO63 - 1

  predicate InRange(x: int) {
    INTMAX_MIN <= x <= INTMAX_MAX
  }

  /** The representative of x modulo 2^64 that an `intmax_t` can hold. */
  function Wrap(x: int): (r: int)
    ensures InRange(r)
    ensures InRange(x) ==> r == x
  {
    (x + TWO63) % TWO64 - TWO63
  }

  /** Wrapping identifies exactly the integers that differ by a multiple of 2^64. */
  lemma {:induction false} WrapPeriod(x: int, k: int)
    ensures Wrap(x + k * TWO64) == Wrap(x)
  {
    var y := x + TWO63;
    var q, r := y / TWO64, y % TWO64;
    assert y + k * TWO64 == (q + k) * TWO64 + r;
    RemainderUnique(y + k * TWO64, q + k, r);
  }

  lemma RemainderUnique(y: int, q: int, r: int)
    requires y == q * TWO64 + r && 0 <= r < TWO64
    ensures y % TWO64 == r
  {}

  lemma WrapDistance(x: int) returns (k: int)
    ensures Wrap(x) == x + k * TWO64
  {
    k := -((x + TWO63) / TWO64);
  }

  lemma WrapMul(x: int, y: int)
    ensures Wrap(Wrap(x) * y) == Wrap(x * y)
  {
    var k := WrapDistance(x);
    assert Wrap(x) * y == x * y + (k * y) * TWO64;
    WrapPeriod(x * y, k * y);
  }

  lemma WrapAdd(x: int, y: int)
    ensures Wrap(Wrap(x) + y) == Wrap(x + y)
  {
    var k := WrapDistance(x);
    WrapPeriod(x + y, k);
  }

  function Pow(b: int, e: nat): int {
    if e == 0 then 1 else b * Pow(b, e - 1)
  }

  lemma {:induction false} PowSquare(b: int, e: nat)
    ensures Pow(b * b, e) == Pow(b, 2 * e)
  {
    if e > 0 {
      PowSquare(b, e - 1);
      assert Pow(b, 2 * e) == b * (b * Pow(b, 2 * e - 2));
    }
  }

  lemma {:induction false} PowWrap(b: int, e: nat)
    ensures Wrap(Pow(Wrap(b), e)) == Wrap(Pow(b, e))
  {
    if e > 0 {
      var w := Wrap(b);
      calc {
        Wrap(w * Pow(w, e - 1));
        { WrapMul(Pow(w, e - 1), w); }
        Wrap(Wrap(Pow(w, e - 1)) * w);
        { PowWrap(b, e - 1); }
        Wrap(Wrap(Pow(b, e - 1)) * w);
        { WrapMul(Pow(b, e - 1), w); }
        Wrap(w * Pow(b, e - 1));
        { WrapMul(b, Pow(b, e - 1)); }
        Wrap(b * Pow(b, e - 1));
      }
    }
  }

  /** `ipow`: square-and-multiply with every product truncated to 64 bits. */
  method Ipow(base: int, exp: nat) returns (result: int)
    ensures result == Wrap(Pow(base, exp))
  {
    result := 1;
    var b, e := base, exp;
    while e != 0
      invariant e >= 0 && Wrap(result) == result
      invariant Wrap(result * Pow(b, e)) == Wrap(Pow(base, exp))
      decreases e
    {
      ghost var r0, b0, e0 := result, b, e;
      if e % 2 == 1 {
        result := Wrap(result * b);
      }
      e := e / 2;
      b := Wrap(b * b);
      IpowStep(r0, b0, e0);
    }
  }

  lemma IpowStep(r: int, b: int, e: nat)
    requires e > 0
    ensures Wrap((if e % 2 == 1 then Wrap(r * b) else r) * Pow(Wrap(b * b), e / 2)) == Wrap(r * Pow(b, e))
  {
    IpowExact(r, b, e);
    if e % 2 == 1 {
      WrapMulPow(r * b, b * b, e / 2);
      WrapMul(r * b, Pow(Wrap(b * b), e / 2));
    } else {
      WrapMulPow(r, b * b, e / 2);
    }
  }

  lemma IpowExact(r: int, b: int, e: nat)
    requires e > 0
    ensures (if e % 2 == 1 then r * b else r) * Pow(b * b, e / 2) == r * Pow(b, e)
  {
    PowSquare(b, e / 2);
    if e % 2 == 1 {
      var p := Pow(b, e - 1);
      assert (r * b) * p == r * (b * p);
    }
  }

  lemma WrapMulPow(x: int, b: int, e: nat)
    ensures Wrap(x * Pow(Wrap(b), e)) == Wrap(x * Pow(b, e))
  {
    PowWrap(b, e);
    WrapMulSame(x, Pow(Wrap(b), e), Pow(b, e));
  }

  lemma WrapMulSame(x: int, p: int, q: int)
    requires Wrap(p) == Wrap(q)
    ensures Wrap(x * p) == Wrap(x * q)
  {
    WrapMul(p, x);
    WrapMul(q, x);
  }

  function Abs(x: int): nat {
    if x < 0 then -x else x
  }

  /** C division (`imaxdiv().quot`): the quotient rounded toward zero. */
  function TruncDiv(a: int, b: int): int
    requires b != 0
  {
    var q := Abs(a) / Abs(b);
    if (a < 0) == (b < 0) then q else -q
  }

  /** C remainder (`imaxdiv().rem`): it takes the sign of the dividend. */
  function TruncMod(a: int, b: int): int
    requires b != 0
  {
    var r := Abs(a) % Abs(b);
    if a < 0 then -r else r
  }

  lemma TruncDivMod(a: int, b: int)
    requires b != 0
    ensures a == b * TruncDiv(a, b) + TruncMod(a, b)
    ensures Abs(TruncMod(a, b)) < Abs(b)
    ensures TruncMod(a, b) == 0 || (TruncMod(a, b) < 0) == (a < 0)
  {
    DivMod(Abs(a), Abs(b));
    Signs(b, Abs(a) / Abs(b));
  }

  lemma Signs(b: int, q: int)
    ensures Abs(b) * q == if b < 0 then b * -q else b * q
    ensures b * -q == -(b * q)
  {}

  lemma DivMod(a: nat, b: nat)
    requires b != 0
    ensures a == b * (a / b) + a % b && 0 <= a % b < b
  {}
}
