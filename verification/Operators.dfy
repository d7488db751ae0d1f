/** What the binary operators compute once both operands are known. */
module Operators {
  import opened Int64
  import opened Tokens

  function Truth(b: bool): int { if b then 1 else 0 }

  /** The low n bits of a and b combined bit by bit. */
  function Bits(op: BinOp, a: nat, b: nat, n: nat): (r: nat)
    requires op in {BAnd, BOr, BXor}
  {
    if n == 0 then 0
    else Bit(op, a % 2, b % 2) + 2 * Bits(op, a / 2, b / 2, n - 1)
  }

  function Bit(op: BinOp, x: nat, y: nat): (r: nat)
    requires op in {BAnd, BOr, BXor} && x < 2 && y < 2
    ensures r < 2
  {
    if op == BAnd then (if x == 1 && y == 1 then 1 else 0)
    else if op == BOr then (if x == 0 && y == 0 then 0 else 1)
    else (if x == y then 0 else 1)
  }

  function Bitwise(op: BinOp, a: int, b: int): int
    requires op in {BAnd, BOr, BXor}
  {
    Wrap(Bits(op, a % TWO64, b % TWO64, 64))
  }

  /** Bit i of the two's-complement form of x. */
  function BitOf(x: int, i: nat): (b: nat)
    ensures b < 2
    decreases i
  {
    if i == 0 then x % 2 else BitOf(x / 2, i - 1)
  }

  lemma {:induction false} BitsAt(op: BinOp, a: nat, b: nat, n: nat, i: nat)
    requires op in {BAnd, BOr, BXor} && i < n
    ensures BitOf(Bits(op, a, b, n), i) == Bit(op, BitOf(a, i), BitOf(b, i))
  {
    var bit, high := Bit(op, a % 2, b % 2), Bits(op, a / 2, b / 2, n - 1);
    HalfOf(bit, high);
    if i > 0 {
      BitsAt(op, a / 2, b / 2, n - 1, i - 1);
    }
  }

  lemma HalfOf(bit: nat, high: nat)
    requires bit < 2
    ensures (bit + 2 * high) % 2 == bit && (bit + 2 * high) / 2 == high
  {}

  lemma {:induction false} BitOfModulo(x: int, k: int, n: nat, i: nat)
    requires i < n
    ensures BitOf(x + k * Pow(2, n), i) == BitOf(x, i)
    decreases i
  {
    var p := Pow(2, n - 1);
    assert k * Pow(2, n) == 2 * (k * p);
    if i > 0 {
      BitOfModulo(x / 2, k, n - 1, i - 1);
    }
  }

  lemma Pow64()
    ensures Pow(2, 64) == TWO64
  {
    assert Pow(2, 8) == 0x100;
    PowAdd(2, 8, 8);
    PowAdd(2, 16, 16);
    PowAdd(2, 32, 32);
  }

  lemma {:induction false} PowAdd(b: int, m: nat, n: nat)
    ensures Pow(b, m + n) == Pow(b, m) * Pow(b, n)
  {
    if m > 0 {
      PowAdd(b, m - 1, n);
      assert b * (Pow(b, m - 1) * Pow(b, n)) == (b * Pow(b, m - 1)) * Pow(b, n);
    }
  }

  lemma SameBits(x: int, y: int, k: int, i: nat)
    requires i < 64 && x == y + k * TWO64
    ensures BitOf(x, i) == BitOf(y, i)
  {
    Pow64();
    BitOfModulo(y, k, 64, i);
  }

  /** `&`, `|` and `^` act on each of the 64 bits of their signed operands. */
  lemma BitwiseAt(op: BinOp, a: int, b: int, i: nat)
    requires op in {BAnd, BOr, BXor} && i < 64
    ensures BitOf(Bitwise(op, a, b), i) == Bit(op, BitOf(a, i), BitOf(b, i))
  {
    SameBits(a, a % TWO64, a / TWO64, i);
    SameBits(b, b % TWO64, b / TWO64, i);
    var r := Bits(op, a % TWO64, b % TWO64, 64);
    BitsAt(op, a % TWO64, b % TWO64, 64, i);
    var k := WrapDistance(r);
    SameBits(Wrap(r), r, k, i);
  }

  /** Shifts; the count is taken modulo 64, as the hardware takes it. */
  function Shift(op: BinOp, a: int, n: int): int
    requires op in {Lsh, Rsh}
  {
    PowPositive(n % 64);
    if op == Lsh then Wrap(a * Pow(2, n % 64)) else Wrap(a / Pow(2, n % 64))
  }

  lemma {:induction false} PowPositive(n: nat)
    ensures Pow(2, n) > 0
  {
    if n > 0 { PowPositive(n - 1); }
  }

  /** Halving n times is dividing by 2^n. */
  lemma {:induction false} BitOfQuotient(x: int, n: nat, i: nat)
    ensures Pow(2, n) > 0 && BitOf(x / Pow(2, n), i) == BitOf(x, i + n)
    decreases n
  {
    PowPositive(n);
    if n > 0 {
      BitOfQuotient(x / 2, n - 1, i);
      PowPositive(n - 1);
      Halved(x, Pow(2, n - 1));
    }
  }

  lemma Halved(x: int, p: int)
    requires p > 0
    ensures x / (2 * p) == (x / 2) / p
  {
    var q, r := (x / 2) / p, (x / 2) % p;
    assert x / 2 == q * p + r;
    QuotientIs(x, 2 * p, q, 2 * r + x % 2);
  }

  lemma QuotientIs(x: int, d: int, q: int, r: int)
    requires d > 0 && 0 <= r < d && x == q * d + r
    ensures x / d == q
  {
    var q' := x / d;
    Remainder(x, d);
    if q > q' {
      AtLeast(q - q', d);
      Distribute(q, q', d);
    } else if q < q' {
      AtLeast(q' - q, d);
      Distribute(q', q, d);
    }
  }

  lemma Remainder(x: int, d: int)
    requires d > 0
    ensures 0 <= x - (x / d) * d < d
  {}

  lemma AtLeast(k: int, d: int)
    requires k > 0 && d > 0
    ensures k * d >= d
  {}

  lemma Distribute(a: int, b: int, d: int)
    ensures (a - b) * d == a * d - b * d
  {}

  lemma {:induction false} BitOfProduct(x: int, n: nat, i: nat)
    ensures BitOf(x * Pow(2, n), i) == if i < n then 0 else BitOf(x, i - n)
    decreases n
  {
    if n > 0 {
      var y := x * Pow(2, n - 1);
      assert x * Pow(2, n) == 2 * y;
      if i > 0 { BitOfProduct(x, n - 1, i - 1); }
    }
  }

  lemma {:induction false} SignBits(x: int, n: nat)
    requires -Pow(2, n) <= x < Pow(2, n)
    ensures forall i :: i >= n ==> BitOf(x, i) == if x < 0 then 1 else 0
    decreases n
  {
    if n > 0 {
      SignBits(x / 2, n - 1);
      forall i | i >= n ensures BitOf(x, i) == if x < 0 then 1 else 0 {
        assert BitOf(x, i) == BitOf(x / 2, i - 1);
      }
    } else {
      forall i: nat ensures BitOf(x, i) == if x < 0 then 1 else 0 { SignBit(x, i); }
    }
  }

  lemma {:induction false} SignBit(x: int, i: nat)
    requires x == 0 || x == -1
    ensures BitOf(x, i) == if x < 0 then 1 else 0
  {
    if i > 0 { SignBit(x, i - 1); }
  }

  /** `<<` moves the 64 bits up and fills with zeros; `>>` moves them down and fills with the sign. */
  lemma ShiftAt(a: int, n: nat, i: nat)
    requires InRange(a) && n < 64 && i < 64
    ensures BitOf(Shift(Lsh, a, n), i) == if i < n then 0 else BitOf(a, i - n)
    ensures BitOf(Shift(Rsh, a, n), i) == if i + n < 64 then BitOf(a, i + n) else if a < 0 then 1 else 0
  {
    hide Wrap;
    assert n % 64 == n;
    BitOfProduct(a, n, i);
    WrapBits(a * Pow(2, n), i);
    BitOfQuotient(a, n, i);
    WrapBits(a / Pow(2, n), i);
    PowAdd(2, 63, 1);
    Pow64();
    assert Pow(2, 1) == 2;
    SignBits(a, 63);
  }

  lemma WrapBits(x: int, i: nat)
    requires i < 64
    ensures BitOf(Wrap(x), i) == BitOf(x, i)
  {
    var k := WrapDistance(x);
    SameBits(Wrap(x), x, k, i);
  }

  /** One turn of the loop at an operator's rung: `explor` to `expmuldiv`. */
  function Apply(op: BinOp, a: int, b: int): (r: int)
    requires op in {Div, Mod} ==> b != 0
    requires op != Power && InRange(a)
    ensures InRange(r)
  {
    match op
    case LOr => Truth(a != 0 || b != 0)
    case LAnd => Truth(a != 0 && b != 0)
    case BOr => Bitwise(BOr, a, b)
    case BXor => Bitwise(BXor, a, b)
    case BAnd => Bitwise(BAnd, a, b)
    case EqEq => Truth(a == b)
    case Neq => Truth(a != b)
    case Leq => Truth(a <= b)
    case Geq => Truth(a >= b)
    case Lt => Truth(a < b)
    case Gt => Truth(a > b)
    case Lsh => Shift(Lsh, a, b)
    case Rsh => Shift(Rsh, a, b)
    case Plus => Wrap(a + b)
    case Minus => Wrap(a - b)
    case Mul => Wrap(a * b)
    case Div => if a == INTMAX_MIN && b == -1 then a else Wrap(TruncDiv(a, b))
    case Mod => if a == INTMAX_MIN && b == -1 then 0 else Wrap(TruncMod(a, b))
  }

  predicate Assigning(op: BinOp) {
    op in {Mul, Div, Mod, Plus, Minus, Lsh, Rsh, BAnd, BOr, BXor}
  }

  /** The `switch` of `expassign`, which repeats the arithmetic of the rungs. */
  function ApplyAssign(op: BinOp, a: int, b: int): (r: int)
    requires op in {Div, Mod} ==> b != 0
    requires Assigning(op) && InRange(a)
    ensures InRange(r)
  {
    if op == Mul then Wrap(a * b)
    else if op == Div || op == Mod then
      if a == INTMAX_MIN && b == -1 then (if op == Div then INTMAX_MIN else 0)
      else Wrap(if op == Div then TruncDiv(a, b) else TruncMod(a, b))
    else if op == Plus then Wrap(a + b)
    else if op == Minus then Wrap(a - b)
    else if op == Lsh || op == Rsh then Shift(op, a, b)
    else Bitwise(op, a, b)
  }
}
