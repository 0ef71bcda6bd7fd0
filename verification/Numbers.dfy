/** Numbers as text: what the program writes with to_string and reads back with
    atoi, stoi and stoll. */
module Numbers {
  import opened Prelude

  const INT_MAX: int := 0x7FFF_FFFF
  const INT_MIN: int := -0x8000_0000
  const INT64_MAX: int := 0x7FFF_FFFF_FFFF_FFFF
  const INT64_MIN: int := -0x8000_0000_0000_0000

  // ---------------------------------------------------------------- writing

  function Digit(n: nat): char
    requires n < 10
  {
    '0' + n as char
  }

  function ToDecimal(n: nat): (r: string)
    ensures r != "" && (forall i :: 0 <= i < |r| ==> IsDigit(r[i]))
    ensures if n == 0 then r == "0" else r[0] != '0'
  {
    if n < 10 then [Digit(n)] else ToDecimal(n / 10) + [Digit(n % 10)]
  }

  /** to_string. */
  function ToText(n: int): string {
    if n < 0 then "-" + ToDecimal(-n) else ToDecimal(n)
  }

  // ---------------------------------------------------------------- reading

  /** The value of a character as a digit, or 99. */
  function DigitOf(c: char): nat {
    if '0' <= c <= '9' then c as int - '0' as int
    else if 'a' <= c <= 'z' then c as int - 'a' as int + 10
    else if 'A' <= c <= 'Z' then c as int - 'A' as int + 10
    else 99
  }

  /** The longest run of digits of the base, after the value so far. */
  function Run(s: string, base: nat, soFar: nat): (r: (nat, string))
    ensures |r.1| <= |s|
    decreases |s|
  {
    if s == "" || DigitOf(s[0]) >= base then (soFar, s)
    else Run(s[1..], base, soFar * base + DigitOf(s[0]))
  }

  /** atoi on a text of digits, without a bound. */
  function DecimalValue(digits: string): nat {
    Run(digits, 10, 0).0
  }

  function SkipSpaces(s: string): string {
    if s != "" && IsSpace(s[0]) then SkipSpaces(s[1..]) else s
  }

  /** The magnitude at the front of s and the text after it. With detect, a
      prefix 0x means base 16 and a leading 0 means base 8. */
  function ReadMagnitude(s: string, detect: bool): Option<(nat, string)> {
    if detect && |s| >= 3 && s[0] == '0' && (s[1] == 'x' || s[1] == 'X') && DigitOf(s[2]) < 16 then
      Some(Run(s[2..], 16, 0))
    else
      var base := if detect && s != "" && s[0] == '0' then 8 else 10;
      if s == "" || DigitOf(s[0]) >= base then None else Some(Run(s, base, 0))
  }

  /** stoll (detect) and stoi: white space, a sign, a number in the range. The
      text after the number is returned with it; None is a thrown exception. */
  function ReadInteger(s: string, detect: bool, lo: int, hi: int): Option<(int, string)> {
    var t := SkipSpaces(s);
    var signed := t != "" && (t[0] == '-' || t[0] == '+');
    match ReadMagnitude(if signed then t[1..] else t, detect)
    case None => None
    case Some((m, rest)) =>
      var n := (if signed && t[0] == '-' then -1 else 1) * m as int;
      if lo <= n <= hi then Some((n, rest)) else None
  }

  // ------------------------------------------------------------ round trips

  lemma {:induction false} RunSnoc(s: string, c: char, base: nat, soFar: nat)
    requires (forall i :: 0 <= i < |s| ==> DigitOf(s[i]) < base) && DigitOf(c) < base
    ensures Run(s, base, soFar).1 == ""
    ensures Run(s + [c], base, soFar) == (Run(s, base, soFar).0 * base + DigitOf(c), "")
    decreases |s|
  {
    if s == "" {
      assert s + [c] == [c] && [c][1..] == "";
    } else {
      assert (s + [c])[0] == s[0] && (s + [c])[1..] == s[1..] + [c];
      RunSnoc(s[1..], c, base, soFar * base + DigitOf(s[0]));
    }
  }

  lemma {:induction false} RunDecimal(n: nat)
    ensures Run(ToDecimal(n), 10, 0) == (n, "")
  {
    if n < 10 {
      RunSnoc("", Digit(n), 10, 0);
      assert "" + [Digit(n)] == [Digit(n)];
    } else {
      RunDecimal(n / 10);
      RunSnoc(ToDecimal(n / 10), Digit(n % 10), 10, 0);
    }
  }

  lemma DecimalRoundTrip(n: nat)
    ensures DecimalValue(ToDecimal(n)) == n
  {
    RunDecimal(n);
  }

  lemma MagnitudeRoundTrip(n: nat, detect: bool)
    ensures ReadMagnitude(ToDecimal(n), detect) == Some((n, ""))
  {
    RunDecimal(n);
    if n == 0 {
      assert "0"[1..] == "" && Run("", 8, 0) == (0, "") && Run("", 10, 0) == (0, "");
    }
  }

  /** Any number in range, written by to_string, is read back unchanged, with
      the base detected from the text or fixed to ten. */
  lemma TextRoundTrip(n: int, detect: bool, lo: int, hi: int)
    requires lo <= n <= hi
    ensures ReadInteger(ToText(n), detect, lo, hi) == Some((n, ""))
  {
    var m := if n < 0 then -n else n;
    MagnitudeRoundTrip(m, detect);
    var t := ToText(n);
    assert IsDigit(ToDecimal(m)[0]);
    assert SkipSpaces(t) == t;
    if n < 0 {
      assert t[1..] == ToDecimal(m);
    }
  }

  // ------------------------------------------------------------ other bases

  function DigitIn(n: nat, upper: bool): (c: char)
    requires n < 16
    ensures DigitOf(c) == n
  {
    if n < 10 then Digit(n) else (if upper then 'A' else 'a') + (n - 10) as char
  }

  function ToBase(n: nat, base: nat, upper: bool): (r: string)
    requires base == 8 || base == 16
    ensures r != "" && (forall i :: 0 <= i < |r| ==> DigitOf(r[i]) < base)
    decreases n
  {
    if n < base then [DigitIn(n, upper)] else ToBase(n / base, base, upper) + [DigitIn(n % base, upper)]
  }

  lemma {:induction false} RunBase(n: nat, base: nat, upper: bool)
    requires base == 8 || base == 16
    ensures Run(ToBase(n, base, upper), base, 0) == (n, "")
    decreases n
  {
    if n < base {
      RunSnoc("", DigitIn(n, upper), base, 0);
      assert "" + [DigitIn(n, upper)] == [DigitIn(n, upper)];
    } else if base == 8 {
      RunBase(n / 8, 8, upper);
      RunSnoc(ToBase(n / 8, 8, upper), DigitIn(n % 8, upper), 8, 0);
    } else {
      RunBase(n / 16, 16, upper);
      RunSnoc(ToBase(n / 16, 16, upper), DigitIn(n % 16, upper), 16, 0);
    }
  }

  /** 0x or 0X and hexadecimal digits of either case, or 0 and octal digits, are read
      as the number they write when the base is detected; read in base ten, a leading
      0 makes no difference. */
  lemma PrefixedMagnitude(n: nat, upper: bool)
    ensures ReadMagnitude("0x" + ToBase(n, 16, upper), true) == Some((n, ""))
    ensures ReadMagnitude("0X" + ToBase(n, 16, upper), true) == Some((n, ""))
    ensures ReadMagnitude("0" + ToBase(n, 8, upper), true) == Some((n, ""))
    ensures ReadMagnitude("0" + ToDecimal(n), false) == Some((n, ""))
  {
    hide ToBase, ToDecimal, Run;
    RunBase(n, 16, upper);
    RunBase(n, 8, upper);
    RunDecimal(n);
    Hex(ToBase(n, 16, upper));
    ZeroFirst(ToBase(n, 8, upper), 8);
    ZeroFirst(ToDecimal(n), 10);
    assert ("0" + ToBase(n, 8, upper))[1] == ToBase(n, 8, upper)[0];
  }

  lemma Hex(digits: string)
    requires digits != "" && DigitOf(digits[0]) < 16
    ensures ReadMagnitude("0x" + digits, true) == Some(Run(digits, 16, 0)) == ReadMagnitude("0X" + digits, true)
  {
    hide Run;
    assert ("0x" + digits)[2..] == digits && ("0X" + digits)[2..] == digits;
  }

  lemma ZeroFirst(digits: string, base: nat)
    requires base > 0
    ensures Run("0" + digits, base, 0) == Run(digits, base, 0)
  {
    assert ("0" + digits)[1..] == digits;
  }

  /** White space and a sign may stand before the number. */
  lemma BlanksAndSign(blanks: string, digits: string, n: nat, detect: bool, lo: int, hi: int)
    requires forall i :: 0 <= i < |blanks| ==> IsSpace(blanks[i])
    requires digits != "" && IsDigit(digits[0]) && ReadMagnitude(digits, detect) == Some((n, ""))
    ensures lo <= n <= hi ==> ReadInteger(blanks + digits, detect, lo, hi) == Some((n as int, ""))
    ensures lo <= n <= hi ==> ReadInteger(blanks + "+" + digits, detect, lo, hi) == Some((n as int, ""))
    ensures lo <= 0 - n <= hi ==> ReadInteger(blanks + "-" + digits, detect, lo, hi) == Some((0 - n, ""))
    ensures !(lo <= n <= hi) ==> ReadInteger(blanks + digits, detect, lo, hi) == None
  {
    hide ReadMagnitude;
    Blanks(blanks, digits);
    Blanks(blanks, "+" + digits);
    Blanks(blanks, "-" + digits);
    assert blanks + "+" + digits == blanks + ("+" + digits) && blanks + "-" + digits == blanks + ("-" + digits);
    assert ("+" + digits)[1..] == digits && ("-" + digits)[1..] == digits;
  }

  /** A number ends before the first character that is no digit of it. */
  lemma {:induction false} RunGoesTo(digits: string, x: string, soFar: nat)
    requires (forall i :: 0 <= i < |digits| ==> IsDigit(digits[i])) && x != "" && DigitOf(x[0]) >= 10
    ensures Run(digits + x, 10, soFar).1 == x
    decreases |digits|
  {
    if digits == "" {
      assert digits + x == x;
    } else {
      assert (digits + x)[0] == digits[0] && (digits + x)[1..] == digits[1..] + x;
      RunGoesTo(digits[1..], x, soFar * 10 + DigitOf(digits[0]));
    }
  }

  lemma {:induction false} Blanks(blanks: string, t: string)
    requires (forall i :: 0 <= i < |blanks| ==> IsSpace(blanks[i])) && t != "" && !IsSpace(t[0])
    ensures SkipSpaces(blanks + t) == t
    decreases |blanks|
  {
    if blanks == "" {
      assert blanks + t == t;
    } else {
      assert (blanks + t)[1..] == blanks[1..] + t;
      Blanks(blanks[1..], t);
    }
  }
}
