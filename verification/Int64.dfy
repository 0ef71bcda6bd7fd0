/** The operators of intmax_t arithmetic (src/expand/arithmetic.cpp:242-404):
    two's complement, 64 bits. Where the language leaves the result undefined
    (signed overflow, a shift by less than 0 or more than 63) so does Apply. */
module Int64 {
  import opened Numbers

  datatype BinOp =
    | Mul | Div | Mod | Add | Sub | Shl | Shr | Lt | Le | Gt | Ge | Eq | Ne
    | BitAnd | BitXor | BitOr | LogAnd | LogOr

  datatype UnOp = Plus | Minus | Not | Complement

  datatype Fault = SyntaxError | DivisionByZero | Undefined | ReadOnly

  datatype Outcome = Number(n: int) | Faulty(fault: Fault)

  predicate InRange(n: int) {
    INT64_MIN <= n <= INT64_MAX
  }

  function Checked(n: int): Outcome {
    if InRange(n) then Number(n) else Faulty(Undefined)
  }

  const TWO_TO_THE_64: int := 0x1_0000_0000_0000_0000

  function Signed(n: int): (r: int)
    requires 0 <= n < TWO_TO_THE_64
    ensures InRange(r)
  {
    if n > INT64_MAX then n - TWO_TO_THE_64 else n
  }

  function Wrap(n: int): (r: int)
    ensures InRange(r)
  {
    Signed(n % TWO_TO_THE_64)
  }

  /** A bitwise operator on one bit of each operand. */
  function OnBits(op: BinOp, x: int, y: int): int {
    match op
    case BitAnd => if x == 1 && y == 1 then 1 else 0
    case BitXor => if x != y then 1 else 0
    case _ => if x == 1 || y == 1 then 1 else 0
  }

  /** n has width bits and a sign. */
  predicate Fits(n: int, width: nat) {
    0 <= n + Pow2(width) < 2 * Pow2(width)
  }

  /** The operator on every bit of two's complement, width bits and the sign. */
  function Bitwise(op: BinOp, a: int, b: int, width: nat): (r: int)
    ensures Fits(r, width)
    decreases width
  {
    if width == 0 then -OnBits(op, if a < 0 then 1 else 0, if b < 0 then 1 else 0)
    else 2 * Bitwise(op, a / 2, b / 2, width - 1) + OnBits(op, a % 2, b % 2)
  }

  function Pow2(n: nat): (r: nat)
    ensures r > 0
  {
    if n == 0 then 1 else 2 * Pow2(n - 1)
  }

  function Abs(n: int): nat {
    if n < 0 then -n else n
  }

  /** Division truncates toward zero. */
  function Quotient(a: int, b: int): int
    requires b != 0
  {
    var q := Abs(a) / Abs(b);
    if (a < 0) == (b < 0) then q else -q
  }

  function Truth(b: bool): int {
    if b then 1 else 0
  }

  function Apply(op: BinOp, a: int, b: int): Outcome {
    match op
    case Mul => Checked(a * b)
    case Div => if b == 0 then Faulty(DivisionByZero) else Checked(Quotient(a, b))
    case Mod =>
      if b == 0 then Faulty(DivisionByZero)
      else if !InRange(Quotient(a, b)) then Faulty(Undefined)
      else Checked(a - b * Quotient(a, b))
    case Add => Checked(a + b)
    case Sub => Checked(a - b)
    case Shl => if 0 <= b < 64 then Number(Wrap(a * Pow2(b))) else Faulty(Undefined)
    case Shr => if 0 <= b < 64 then Number(Wrap(a / Pow2(b))) else Faulty(Undefined)
    case Lt => Number(Truth(a < b))
    case Le => Number(Truth(a <= b))
    case Gt => Number(Truth(a > b))
    case Ge => Number(Truth(a >= b))
    case Eq => Number(Truth(a == b))
    case Ne => Number(Truth(a != b))
    case LogAnd => Number(Truth(a != 0 && b != 0))
    case LogOr => Number(Truth(a != 0 || b != 0))
    case _ => Number(Bitwise(op, a, b, 63))
  }

  function ApplyUnary(op: UnOp, a: int): Outcome {
    match op
    case Plus => Number(a)
    case Minus => Checked(-a)
    case Not => Number(Truth(a == 0))
    case Complement => Number(-a - 1)
  }

  lemma {:induction false} PowersMultiply(m: nat, n: nat)
    ensures Pow2(m + n) == Pow2(m) * Pow2(n)
  {
    if m > 0 {
      PowersMultiply(m - 1, n);
      assert 2 * (Pow2(m - 1) * Pow2(n)) == Pow2(m) * Pow2(n);
    }
  }

  lemma SmallPower()
    ensures Pow2(7) == 0x80
  {
  }

  lemma HalfRange()
    ensures Pow2(63) == INT64_MAX + 1
  {
    hide Pow2;
    SmallPower();
    PowersMultiply(7, 7);
    PowersMultiply(14, 14);
    PowersMultiply(28, 28);
    PowersMultiply(56, 7);
  }

  /** Results of operations on 64-bit values are 64-bit values. */
  lemma ResultInRange(op: BinOp, a: int, b: int)
    ensures Apply(op, a, b).Number? ==> InRange(Apply(op, a, b).n)
  {
    HalfRange();
  }
}
