/** How the operators group, and what a compound assignment is short for. */
module ArithLaws {
  import opened Prelude
  import opened Numbers
  import opened Int64
  import opened ArithSpec
  import opened ArithRefinement
  import opened Arithmetic

  /** The precedence table of C, the loosest operators first. */
  const TABLE: seq<set<BinOp>> :=
    [{LogOr}, {LogAnd}, {BitOr}, {BitXor}, {BitAnd}, {Eq, Ne}, {Lt, Le, Gt, Ge}, {Shl, Shr}, {Add, Sub}, {Mul, Div, Mod}]

  lemma LevelIsRow(op: BinOp)
    ensures forall i :: 0 <= i < |TABLE| ==> (op in TABLE[i] <==> Level(op) == i + 3)
  {
  }

  /** The tree of `a p b q c`: C groups to the right only if q is in a later row. */
  function Grouped(a: nat, p: BinOp, b: nat, q: BinOp, c: nat): Expr {
    if exists i, j :: 0 <= i < j < |TABLE| && p in TABLE[i] && q in TABLE[j] then
      Binary(p, Literal(a), Binary(q, Literal(b), Literal(c)))
    else
      Binary(q, Binary(p, Literal(a), Literal(b)), Literal(c))
  }

  /** Three numbers and any two operators, without parentheses: the value of the text
      is that of the grouping C gives it. */
  lemma OperatorsGroupAsInC(a: nat, p: BinOp, b: nat, q: BinOp, c: nat, env: Env)
    requires a <= INT64_MAX && b <= INT64_MAX && c <= INT64_MAX
    ensures Evaluate(SpellToks([Num(a), Op(p), Num(b), Op(q), Num(c), End]), env)
         == match Meaning(Grouped(a, p, b, q, c), env)
            case Value(v, after) => (Ok(v), after)
            case Fails(f, after) => (Err(f), after)
  {
    hide *;
    PrintsFlat(a, p, b, q, c);
    GroupedIsWritable(a, p, b, q, c);
    TextIs(Grouped(a, p, b, q, c), [Num(a), Op(p), Num(b), Op(q), Num(c), End], env);
  }

  lemma GroupedIsWritable(a: nat, p: BinOp, b: nat, q: BinOp, c: nat)
    requires a <= INT64_MAX && b <= INT64_MAX && c <= INT64_MAX
    ensures Writable(Grouped(a, p, b, q, c))
  {
    hide TABLE;
    var x, y, z := Literal(a), Literal(b), Literal(c);
    assert Writable(x) && Writable(y) && Writable(z);
    assert Writable(Binary(p, x, y)) && Writable(Binary(q, y, z));
  }

  lemma TextIs(e: Expr, ts: Toks, env: Env)
    requires Writable(e) && Print(e, 0, [End]) == ts
    ensures Evaluate(SpellToks(ts), env)
         == match Meaning(e, env)
            case Value(v, after) => (Ok(v), after)
            case Fails(f, after) => (Err(f), after)
  {
    hide Evaluate, Meaning, SpellToks, Print, Writable;
    TextRefinesMeaning(e, env);
  }

  lemma PrintsLiteral(n: nat, level: nat, k: Toks)
    requires level <= 14
    ensures Print(Literal(n), level, k) == [Num(n)] + k
  {
  }

  lemma PrintsLast(op: BinOp, left: Expr, n: nat, level: nat, k: Toks)
    requires level <= Level(op)
    ensures Print(Binary(op, left, Literal(n)), level, k) == Print(left, Level(op), [Op(op)] + ([Num(n)] + k))
  {
    hide Level;
    PrintsLiteral(n, Level(op) + 1, k);
  }

  lemma PrintsFlat(a: nat, p: BinOp, b: nat, q: BinOp, c: nat)
    ensures Print(Grouped(a, p, b, q, c), 0, [End]) == [Num(a), Op(p), Num(b), Op(q), Num(c), End]
  {
    hide Print, Level, TABLE;
    RowsOf(p, q);
    var more: Toks := [Op(q)] + ([Num(c)] + [End]);
    if Level(p) < Level(q) {
      PrintsLast(q, Literal(b), c, Level(p) + 1, [End]);
      PrintsLiteral(b, Level(q), more);
      PrintsBinary(p, Literal(a), Binary(q, Literal(b), Literal(c)), [End]);
      PrintsLiteral(a, Level(p), [Op(p)] + ([Num(b)] + more));
    } else {
      PrintsLast(q, Binary(p, Literal(a), Literal(b)), c, 0, [End]);
      PrintsLast(p, Literal(a), b, Level(q), more);
      PrintsLiteral(a, Level(p), [Op(p)] + ([Num(b)] + more));
    }
  }

  lemma PrintsBinary(op: BinOp, left: Expr, right: Expr, k: Toks)
    ensures Print(Binary(op, left, right), 0, k) == Print(left, Level(op), [Op(op)] + Print(right, Level(op) + 1, k))
  {
    hide Level;
  }

  lemma RowsOf(p: BinOp, q: BinOp)
    ensures (exists i, j :: 0 <= i < j < |TABLE| && p in TABLE[i] && q in TABLE[j]) <==> Level(p) < Level(q)
  {
    LevelIsRow(p);
    LevelIsRow(q);
    if Level(p) < Level(q) {
      assert p in TABLE[Level(p) - 3] && q in TABLE[Level(q) - 3];
    }
  }

  /** A unary operator binds tighter than any binary one. */
  lemma UnaryBindsTightest(u: UnOp, a: nat, p: BinOp, b: nat, env: Env)
    requires a <= INT64_MAX && b <= INT64_MAX
    ensures Evaluate(SpellToks([UnaryTok(u), Num(a), Op(p), Num(b), End]), env)
         == match Meaning(Binary(p, Unary(u, Literal(a)), Literal(b)), env)
            case Value(v, after) => (Ok(v), after)
            case Fails(f, after) => (Err(f), after)
  {
    hide Evaluate, Meaning, SpellToks, Level;
    var e := Binary(p, Unary(u, Literal(a)), Literal(b));
    PrintsLast(p, Unary(u, Literal(a)), b, 0, [End]);
    PrintsUnary(u, a, Level(p), [Op(p)] + ([Num(b)] + [End]));
    assert Writable(Literal(a)) && Writable(Unary(u, Literal(a))) && Writable(Literal(b));
    TextIs(e, [UnaryTok(u), Num(a), Op(p), Num(b), End], env);
  }

  lemma PrintsUnary(u: UnOp, a: nat, level: nat, k: Toks)
    requires level <= 13
    ensures Print(Unary(u, Literal(a)), level, k) == [UnaryTok(u)] + ([Num(a)] + k)
  {
    hide UnaryTok;
    PrintsLiteral(a, 13, k);
  }

  /** `x op= e` is `x = x op v`, v being the value of e, evaluated first. */
  lemma CompoundAssignment(op: BinOp, name: string, e: Expr, env: Env)
    ensures Meaning(Assign(Some(op), name, e), env)
         == match Meaning(e, env)
            case Fails(f, after) => Fails(f, after)
            case Value(v, after) => Meaning(Assign(None, name, Binary(op, Variable(name), Literal(v))), after)
  {
    hide Apply, Lookup, Store;
    match Meaning(e, env)
    case Fails(_, _) =>
    case Value(v, after) =>
      assert Meaning(Literal(v), after) == Value(v, after);
      assert Meaning(Variable(name), after) == Value(Lookup(after, name), after);
      assert Meaning(Binary(op, Variable(name), Literal(v)), after) == Concluded(Apply(op, Lookup(after, name), v), after);
  }

  /** A variable whose text is a number in base 16, 8 or 10, with white space and a
      sign before it, counts as that number; unset, it counts as 0. */
  lemma VariablesInAnyBase(env: Env, name: string, n: nat, upper: bool, blanks: string, digits: string)
    requires digits in {"0x" + ToBase(n, 16, upper), "0X" + ToBase(n, 16, upper), "0" + ToBase(n, 8, upper), ToDecimal(n)}
    requires n <= INT64_MAX && forall i :: 0 <= i < |blanks| ==> IsSpace(blanks[i])
    ensures name !in env.vars ==> Lookup(env, name) == 0
    ensures name in env.vars && env.vars[name] in {blanks + digits, blanks + "+" + digits} ==> Lookup(env, name) == n
    ensures name in env.vars && env.vars[name] == blanks + "-" + digits ==> Lookup(env, name) == 0 - n
  {
    hide ReadMagnitude, ReadInteger, ToBase, ToDecimal;
    PrefixedMagnitude(n, upper);
    MagnitudeRoundTrip(n, true);
    BlanksAndSign(blanks, digits, n, true, INT64_MIN, INT64_MAX);
  }

  /** Text that goes on after the number is no number and counts as 0. */
  lemma TrailingTextCountsAsZero(env: Env, name: string, n: nat, x: string)
    requires n > 0 && x != "" && DigitOf(x[0]) >= 10
    requires name in env.vars && env.vars[name] == ToDecimal(n) + x
    ensures Lookup(env, name) == 0
  {
    hide ToDecimal, Run;
    var t := ToDecimal(n) + x;
    assert t[0] == ToDecimal(n)[0] && IsDigit(t[0]) && SkipSpaces(t) == t;
    RunGoesTo(ToDecimal(n), x, 0);
  }

  // ------------------------------------------------------------------ tokens

  /** White space before a token makes no difference. */
  lemma {:induction false} WhiteSpaceIsSkipped(blanks: string, s: string, out: seq<Tok>)
    requires forall i :: 0 <= i < |blanks| ==> IsSpace(blanks[i])
    ensures TokenizeFrom(blanks + s, out) == TokenizeFrom(s, out)
    decreases |blanks|
  {
    hide FrontToken;
    if blanks == "" {
      assert blanks + s == s;
    } else {
      assert (blanks + s)[0] == blanks[0] && (blanks + s)[1..] == blanks[1..] + s;
      WhiteSpaceIsSkipped(blanks[1..], s, out);
    }
  }

  /** A number in base 16, 8 or 10, up to the first character that can not go on with
      it, is the token of its value. */
  lemma NumberTokens(n: nat, upper: bool, digits: string, rest: string)
    requires digits in {"0x" + ToBase(n, 16, upper), "0X" + ToBase(n, 16, upper), "0" + ToBase(n, 8, upper), ToDecimal(n)}
    requires n <= INT64_MAX && (rest == "" || DigitOf(rest[0]) == 99)
    ensures digits != "" && FrontToken(digits + rest) == Some((Num(n), |digits|))
  {
    hide ReadInteger, ReadMagnitude, ToBase, ToDecimal, Run, Span;
    PrefixedMagnitude(n, upper);
    MagnitudeRoundTrip(n, true);
    assert "" + digits == digits;
    BlanksAndSign("", digits, n, true, INT64_MIN, INT64_MAX);
    assert (digits + rest)[..|digits|] == digits && (digits + rest)[0] == digits[0];
    if digits == "0x" + ToBase(n, 16, upper) || digits == "0X" + ToBase(n, 16, upper) {
      HexLength(digits, ToBase(n, 16, upper), rest);
    } else if digits == "0" + ToBase(n, 8, upper) {
      DecimalLength(digits, rest);
    } else {
      DecimalLength(digits, rest);
    }
  }

  lemma HexLength(digits: string, hex: string, rest: string)
    requires (digits == "0x" + hex || digits == "0X" + hex) && forall i :: 0 <= i < |hex| ==> DigitOf(hex[i]) < 16
    requires rest == "" || DigitOf(rest[0]) == 99
    ensures (digits + rest)[0] == '0' && NumberLength(digits + rest) == |digits|
  {
    hide Span;
    var s := digits + rest;
    assert s[2..] == hex + rest && s[1] == digits[1];
    SpanAt(hex + rest, IsHexDigit, |hex|);
  }

  lemma DecimalLength(digits: string, rest: string)
    requires digits != "" && (forall i :: 0 <= i < |digits| ==> DigitOf(digits[i]) < 10)
    requires rest == "" || DigitOf(rest[0]) == 99
    ensures IsDigit((digits + rest)[0]) && NumberLength(digits + rest) == |digits|
  {
    hide Span;
    var s := digits + rest;
    assert |digits| > 1 ==> s[1] == digits[1];
    assert |digits| == 1 && rest != "" ==> s[1] == rest[0];
    SpanAt(s, IsDigit, |digits|);
  }
}
