/** What the operators of intmax_t arithmetic come to, told without their
    definitions. */
module IntLaws {
  import opened Numbers
  import opened Int64

  // --------------------------------------------------------- sums and products

  /** Subtraction takes back what addition adds; either fails exactly when the exact
      result has more than 64 bits. */
  lemma SubUndoesAdd(a: int, b: int)
    requires InRange(a) && InRange(b)
    ensures if InRange(a + b) then Apply(Add, a, b).Number? && Apply(Sub, Apply(Add, a, b).n, b) == Number(a)
            else Apply(Add, a, b) == Faulty(Undefined)
    ensures if InRange(a - b) then Apply(Sub, a, b).Number? && Apply(Add, Apply(Sub, a, b).n, b) == Number(a)
            else Apply(Sub, a, b) == Faulty(Undefined)
    ensures Apply(Add, a, b) == Apply(Add, b, a) && Apply(Add, a, 0) == Number(a)
  {
  }

  /** A product is a sum of its left operand; a negative factor negates it. */
  lemma MulAddsUp(a: int, b: int)
    requires InRange(a) && InRange(b)
    ensures Apply(Mul, a, 0) == Number(0) && Apply(Mul, a, 1) == Number(a)
    ensures Apply(Mul, a, b).Number? <==> InRange(a * b)
    ensures InRange(a * b) && InRange(a * (b + 1)) ==> Apply(Mul, a, b + 1) == Apply(Add, Apply(Mul, a, b).n, a)
    ensures InRange(a * b) && InRange(a * -b) ==> Apply(Mul, a, -b) == ApplyUnary(Minus, Apply(Mul, a, b).n)
  {
    assert a * (b + 1) == a * b + a;
  }

  lemma Division(a: int, b: int)
    requires b != 0
    ensures var q := Quotient(a, b);
            var m := a - b * q;
            Abs(m) < Abs(b) && (m == 0 || (m < 0) == (a < 0)) && Abs(q) <= Abs(a)
  {
    var x, y := Abs(a), Abs(b);
    var q, r := x / y, x % y;
    Euclid(x, y);
    var p: int := Product(a, b, y, q);
    Remainder(a, b, x, y, q, r, p);
  }

  /** The divisor times the quotient, in terms of magnitudes. */
  lemma Product(a: int, b: int, y: nat, q: nat) returns (p: int)
    requires b != 0 && y == Abs(b)
    ensures p == y * q && p >= q
    ensures b * (if (a < 0) == (b < 0) then q else 0 - q) == if a < 0 then 0 - p else p
  {
    p := y * q;
    AtLeast(y, q);
    Signs(y, q);
    if b < 0 {
      assert b == 0 - y;
    }
  }

  lemma Remainder(a: int, b: int, x: nat, y: nat, q: nat, r: nat, p: int)
    requires b != 0 && x == Abs(a) && y == Abs(b) && q == x / y && x == p + r && r < y && p >= q
    requires b * (if (a < 0) == (b < 0) then q else 0 - q) == if a < 0 then 0 - p else p
    ensures var s := Quotient(a, b);
            var m := a - b * s;
            Abs(m) < Abs(b) && (m == 0 || (m < 0) == (a < 0)) && Abs(s) <= Abs(a)
  {
    var s := Quotient(a, b);
    assert s == if (a < 0) == (b < 0) then q else 0 - q;
    assert b * s == if a < 0 then 0 - p else p;
  }

  lemma Euclid(x: nat, y: nat)
    requires y > 0
    ensures x == y * (x / y) + x % y && 0 <= x % y < y && x / y >= 0
  {
  }

  lemma AtLeast(y: int, q: int)
    requires y > 0 && q >= 0
    ensures y * q >= q
  {
  }

  lemma Signs(y: int, q: int)
    ensures (-y) * q == -(y * q) && y * (-q) == -(y * q) && (-y) * (-q) == y * q
  {
  }

  /** Quotient and remainder: the quotient is truncated, the remainder smaller than
      the divisor and never of the other sign than the dividend. They fail exactly
      for the divisor 0 and for the one quotient of more than 64 bits. */
  lemma DivMod(a: int, b: int)
    requires InRange(a) && InRange(b)
    ensures b == 0 ==> Apply(Div, a, b) == Faulty(DivisionByZero) && Apply(Mod, a, b) == Faulty(DivisionByZero)
    ensures a == INT64_MIN && b == -1 ==> Apply(Div, a, b) == Faulty(Undefined) && Apply(Mod, a, b) == Faulty(Undefined)
    ensures b != 0 && !(a == INT64_MIN && b == -1) ==>
              && Apply(Div, a, b).Number? && Apply(Mod, a, b).Number?
              && (var q, m := Apply(Div, a, b).n, Apply(Mod, a, b).n;
                  a == b * q + m && Abs(m) < Abs(b) && (m == 0 || (m < 0) == (a < 0)))
  {
    if b != 0 {
      Division(a, b);
    }
  }

  // --------------------------------------------------------------- comparisons

  /** Exactly one of <, == and > gives 1, by the sign of the difference; the other
      comparisons are their opposites. Every one of them gives 1 or 0. */
  lemma Comparisons(a: int, b: int)
    ensures Apply(Lt, a, b) == Number(if a - b < 0 then 1 else 0)
    ensures Apply(Gt, a, b) == Apply(Lt, b, a)
    ensures var lt, eq, gt := Apply(Lt, a, b), Apply(Eq, a, b), Apply(Gt, a, b);
            lt.Number? && eq.Number? && gt.Number? && lt.n + eq.n + gt.n == 1 && 0 <= eq.n <= 1
    ensures Apply(Ge, a, b) == ApplyUnary(Not, Apply(Lt, a, b).n)
    ensures Apply(Le, a, b) == ApplyUnary(Not, Apply(Gt, a, b).n)
    ensures Apply(Ne, a, b) == ApplyUnary(Not, Apply(Eq, a, b).n)
  {
  }

  /** && and || by their tables, on truth as `!!` gives it. */
  lemma Connectives(a: int, b: int)
    ensures ApplyUnary(Not, 0) == Number(1) && (a != 0 ==> ApplyUnary(Not, a) == Number(0))
    ensures a == 0 ==> Apply(LogAnd, a, b) == Number(0) && Apply(LogOr, a, b) == Apply(Ne, b, 0)
    ensures a != 0 ==> Apply(LogAnd, a, b) == Apply(Ne, b, 0) && Apply(LogOr, a, b) == Number(1)
  {
  }

  /** The unary operators: `-` gives the additive inverse, where there is one. */
  lemma UnaryOperators(a: int)
    requires InRange(a)
    ensures ApplyUnary(Plus, a) == Number(a)
    ensures if a == INT64_MIN then ApplyUnary(Minus, a) == Faulty(Undefined)
            else ApplyUnary(Minus, a).Number? && Apply(Add, a, ApplyUnary(Minus, a).n) == Number(0)
  {
  }

  // --------------------------------------------------------------------- shifts

  lemma ShiftStep(b: nat)
    ensures Pow2(b + 1) == 2 * Pow2(b) && Pow2(1) == 2 && Pow2(0) == 1
  {
  }

  /** Wrapping keeps the value modulo 2 to the 64. */
  lemma Wrapped(n: int)
    ensures (Wrap(n) - n) % TWO_TO_THE_64 == 0 && (InRange(n) ==> Wrap(n) == n)
  {
    if 0 <= n < TWO_TO_THE_64 {
    } else if -TWO_TO_THE_64 <= n < 0 {
      assert n % TWO_TO_THE_64 == n + TWO_TO_THE_64;
    }
    var k := n / TWO_TO_THE_64;
    assert n == TWO_TO_THE_64 * k + n % TWO_TO_THE_64;
    var j := if n % TWO_TO_THE_64 > INT64_MAX then -k - 1 else -k;
    assert Wrap(n) - n == TWO_TO_THE_64 * j;
    MultipleOf(TWO_TO_THE_64, j);
  }

  lemma MultipleOf(d: int, k: int)
    requires d > 0
    ensures (d * k) % d == 0
  {
    DivisionIs(d * k, d, k, 0);
  }

  lemma DivisionIs(n: int, d: int, q: int, r: int)
    requires n == d * q + r && 0 <= r < d
    ensures n / d == q && n % d == r
  {
    var p, m := n / d, n % d;
    assert n == d * p + m;
    Multiples(d, p - q);
    assert d * (p - q) == d * p - d * q;
  }

  lemma Multiples(d: int, k: int)
    requires d > 0
    ensures (k > 0 ==> d * k >= d) && (k < 0 ==> d * k <= -d) && (k == 0 ==> d * k == 0)
  {
  }

  lemma WrapTwice(n: int)
    ensures Wrap(2 * Wrap(n)) == Wrap(2 * n)
  {
    Wrapped(n);
    var k := (Wrap(n) - n) / TWO_TO_THE_64;
    assert 2 * Wrap(n) == 2 * n + TWO_TO_THE_64 * (2 * k);
    var q, r := (2 * n) / TWO_TO_THE_64, (2 * n) % TWO_TO_THE_64;
    DivisionIs(2 * Wrap(n), TWO_TO_THE_64, q + 2 * k, r);
  }

  lemma HalfOf(a: int, p: int)
    requires p > 0
    ensures a / (2 * p) == (a / p) / 2
  {
    var q := a / p;
    var s, t := q / 2, q % 2;
    assert a == p * q + a % p && q == 2 * s + t;
    assert a == (2 * p) * s + (p * t + a % p);
    assert 0 <= p * t + a % p < 2 * p;
    DivisionIs(a, 2 * p, s, p * t + a % p);
  }

  /** << by one doubles modulo 2 to the 64, >> by one halves and rounds down, and a
      longer shift is a shorter one and one more. Both fail outside 0 to 63. */
  lemma Shifts(a: int, b: int)
    requires InRange(a)
    ensures !(0 <= b < 64) ==> Apply(Shl, a, b) == Faulty(Undefined) && Apply(Shr, a, b) == Faulty(Undefined)
    ensures Apply(Shl, a, 0) == Number(a) && Apply(Shr, a, 0) == Number(a)
    ensures 0 <= b < 64 ==> Apply(Shl, a, b).Number? && Apply(Shr, a, b).Number?
    ensures Apply(Shl, a, 1).Number? && InRange(Apply(Shl, a, 1).n)
    ensures (Apply(Shl, a, 1).n - 2 * a) % TWO_TO_THE_64 == 0
    ensures Apply(Shr, a, 1).Number? && 0 <= a - 2 * Apply(Shr, a, 1).n <= 1
    ensures 0 <= b < 63 ==>
              && Apply(Shl, a, b + 1) == Apply(Shl, Apply(Shl, a, b).n, 1)
              && Apply(Shr, a, b + 1) == Apply(Shr, Apply(Shr, a, b).n, 1)
  {
    ShiftStep(0);
    Wrapped(a);
    Wrapped(2 * a);
    assert a * 2 == 2 * a;
    Wrapped(a / 2);
    if 0 <= b < 63 {
      LongerShift(a, b);
    }
  }

  lemma LongerShift(a: int, b: nat)
    requires InRange(a) && b < 63
    ensures Apply(Shl, a, b + 1) == Apply(Shl, Wrap(a * Pow2(b)), 1)
    ensures Apply(Shr, a, b + 1) == Apply(Shr, Wrap(a / Pow2(b)), 1)
  {
    hide Wrap;
    ShiftStep(b);
    LongerProduct(a, Pow2(b));
    HalfOf(a, Pow2(b));
    Smaller(a, Pow2(b));
    Wrapped(a / Pow2(b));
  }

  lemma LongerProduct(a: int, p: int)
    ensures Wrap(a * (2 * p)) == Wrap(Wrap(a * p) * 2)
  {
    hide Wrap;
    assert a * (2 * p) == 2 * (a * p) && Wrap(a * p) * 2 == 2 * Wrap(a * p);
    WrapTwice(a * p);
  }

  lemma Smaller(a: int, p: int)
    requires p > 0 && InRange(a)
    ensures InRange(a / p)
  {
    var q := a / p;
    assert a == p * q + a % p;
    if q > 0 {
      AtLeast(p, q);
    } else if q < 0 {
      AtLeast(p, -q - 1);
      assert p * q == -(p * (-q - 1)) - p;
    }
  }

  // ----------------------------------------------------------------------- bits

  /** Bit i of n in two's complement. */
  function Bit(n: int, i: nat): (r: int)
    ensures r == 0 || r == 1
    decreases i
  {
    if i == 0 then n % 2 else Bit(n / 2, i - 1)
  }

  lemma {:induction false} SignBit(n: int, width: nat)
    requires Fits(n, width)
    ensures Bit(n, width) == if n < 0 then 1 else 0
    decreases width
  {
    if width > 0 {
      SignBit(n / 2, width - 1);
    }
  }

  lemma {:induction false} BitwiseBit(op: BinOp, a: int, b: int, width: nat, i: nat)
    requires i <= width && Fits(a, width) && Fits(b, width)
    ensures Bit(Bitwise(op, a, b, width), i) == OnBits(op, Bit(a, i), Bit(b, i))
    decreases i
  {
    if width == 0 {
      SignBit(a, 0);
      SignBit(b, 0);
    } else {
      LowBit(op, a, b, width);
      if i > 0 {
        BitwiseBit(op, a / 2, b / 2, width - 1, i - 1);
      }
    }
  }

  lemma LowBit(op: BinOp, a: int, b: int, width: nat)
    requires width > 0
    ensures var r := Bitwise(op, a, b, width);
            r / 2 == Bitwise(op, a / 2, b / 2, width - 1) && r % 2 == OnBits(op, a % 2, b % 2)
  {
  }

  lemma ApplyBit(op: BinOp, a: int, b: int, i: nat)
    requires op in {BitAnd, BitXor, BitOr} && InRange(a) && InRange(b) && i < 64
    ensures Apply(op, a, b).Number? && InRange(Apply(op, a, b).n)
    ensures Bit(Apply(op, a, b).n, i) == OnBits(op, Bit(a, i), Bit(b, i))
  {
    hide Apply, Bitwise, Bit, OnBits, Fits, InRange;
    RangeFits(a);
    RangeFits(b);
    RangeFits(Bitwise(op, a, b, 63));
    BitwiseBit(op, a, b, 63, i);
    BitwiseIs(op, a, b);
  }

  lemma RangeFits(n: int)
    ensures InRange(n) <==> Fits(n, 63)
  {
    HalfRange();
  }

  lemma BitwiseIs(op: BinOp, a: int, b: int)
    requires op in {BitAnd, BitXor, BitOr}
    ensures Apply(op, a, b) == Number(Bitwise(op, a, b, 63))
  {
    hide Bitwise;
  }

  /** The bitwise operators, bit by bit, the sign included. */
  lemma BitByBit(a: int, b: int, i: nat)
    requires InRange(a) && InRange(b) && i < 64
    ensures forall op :: op in {BitAnd, BitXor, BitOr} ==> Apply(op, a, b).Number? && InRange(Apply(op, a, b).n)
    ensures Bit(Apply(BitAnd, a, b).n, i) == (if Bit(a, i) == 1 == Bit(b, i) then 1 else 0)
    ensures Bit(Apply(BitXor, a, b).n, i) == (if Bit(a, i) == Bit(b, i) then 0 else 1)
    ensures Bit(Apply(BitOr, a, b).n, i) == (if Bit(a, i) == 0 == Bit(b, i) then 0 else 1)
    ensures ApplyUnary(Complement, a).Number? && Bit(ApplyUnary(Complement, a).n, i) == 1 - Bit(a, i)
  {
    hide Apply, Bit;
    ApplyBit(BitAnd, a, b, i);
    ApplyBit(BitXor, a, b, i);
    ApplyBit(BitOr, a, b, i);
    ComplementBit(a, i);
  }

  lemma {:induction false} ComplementBit(a: int, i: nat)
    ensures Bit(-a - 1, i) == 1 - Bit(a, i)
    decreases i
  {
    assert (-a - 1) / 2 == -(a / 2) - 1 && (-a - 1) % 2 == 1 - a % 2;
    if i > 0 {
      ComplementBit(a / 2, i - 1);
    }
  }

  /** A 64-bit number is its bits. */
  lemma {:induction false} BitsDetermine(a: int, b: int, width: nat)
    requires Fits(a, width) && Fits(b, width)
    requires forall i :: 0 <= i <= width ==> Bit(a, i) == Bit(b, i)
    ensures a == b
    decreases width
  {
    assert Bit(a, 0) == Bit(b, 0);
    if width > 0 {
      forall i | 0 <= i <= width - 1 ensures Bit(a / 2, i) == Bit(b / 2, i) {
        assert Bit(a, i + 1) == Bit(b, i + 1);
      }
      BitsDetermine(a / 2, b / 2, width - 1);
    }
  }
}
