/** Arithmetic expansion as the program has it: a tokenizer over an index, and
    an evaluator object that moves a position and writes variables. */
module Arithmetic {
  import opened Prelude
  import opened Numbers
  import opened Int64
  import opened ArithSpec
  import opened ArithRefinement

  // --------------------------------------------------------------- tokenizer

  function Span(s: string, f: char -> bool): (n: nat)
    ensures n <= |s|
    ensures s != "" && f(s[0]) ==> n > 0
  {
    if s == "" || !f(s[0]) then 0 else 1 + Span(s[1..], f)
  }

  predicate IsHexDigit(c: char) {
    DigitOf(c) < 16
  }

  function NumberLength(s: string): (n: nat)
    requires s != "" && IsDigit(s[0])
    ensures 0 < n <= |s|
  {
    if s[0] == '0' && |s| > 1 && (s[1] == 'x' || s[1] == 'X') then 2 + Span(s[2..], IsHexDigit)
    else Span(s, IsDigit)
  }

  /** The operator at the front of s and its length: the longest one. */
  function Symbol(s: string): (r: Option<(Tok, nat)>)
    requires s != ""
    ensures r.Some? ==> 0 < r.value.1 <= |s|
  {
    var c := s[0];
    var d := if |s| > 1 then s[1] else '\0';
    var e := if |s| > 2 then s[2] else '\0';
    if c == '<' && d == '<' && e == '=' then Some((AssignOp(Some(Shl)), 3))
    else if c == '>' && d == '>' && e == '=' then Some((AssignOp(Some(Shr)), 3))
    else if c == '<' && d == '<' then Some((Op(Shl), 2))
    else if c == '>' && d == '>' then Some((Op(Shr), 2))
    else if c == '<' && d == '=' then Some((Op(Le), 2))
    else if c == '>' && d == '=' then Some((Op(Ge), 2))
    else if c == '=' && d == '=' then Some((Op(Eq), 2))
    else if c == '!' && d == '=' then Some((Op(Ne), 2))
    else if c == '&' && d == '&' then Some((Op(LogAnd), 2))
    else if c == '|' && d == '|' then Some((Op(LogOr), 2))
    else if c == '+' && d == '=' then Some((AssignOp(Some(Add)), 2))
    else if c == '-' && d == '=' then Some((AssignOp(Some(Sub)), 2))
    else if c == '*' && d == '=' then Some((AssignOp(Some(Mul)), 2))
    else if c == '/' && d == '=' then Some((AssignOp(Some(Div)), 2))
    else if c == '%' && d == '=' then Some((AssignOp(Some(Mod)), 2))
    else if c == '&' && d == '=' then Some((AssignOp(Some(BitAnd)), 2))
    else if c == '^' && d == '=' then Some((AssignOp(Some(BitXor)), 2))
    else if c == '|' && d == '=' then Some((AssignOp(Some(BitOr)), 2))
    else
      match c
      case '+' => Some((Op(Add), 1))
      case '-' => Some((Op(Sub), 1))
      case '*' => Some((Op(Mul), 1))
      case '/' => Some((Op(Div), 1))
      case '%' => Some((Op(Mod), 1))
      case '<' => Some((Op(Lt), 1))
      case '>' => Some((Op(Gt), 1))
      case '&' => Some((Op(BitAnd), 1))
      case '^' => Some((Op(BitXor), 1))
      case '|' => Some((Op(BitOr), 1))
      case '!' => Some((Bang, 1))
      case '~' => Some((Tilde, 1))
      case '?' => Some((Question, 1))
      case ':' => Some((Colon, 1))
      case '=' => Some((AssignOp(None), 1))
      case ',' => Some((Comma, 1))
      case '(' => Some((LParen, 1))
      case ')' => Some((RParen, 1))
      case _ => None
  }

  /** The token at the front of s, which is no white space, and its length. */
  function FrontToken(s: string): (r: Option<(Tok, nat)>)
    requires s != ""
    ensures r.Some? ==> 0 < r.value.1 <= |s|
  {
    if IsDigit(s[0]) then
      var n := NumberLength(s);
      match ReadInteger(s[..n], true, INT64_MIN, INT64_MAX)
      case None => None
      case Some((v, rest)) => if rest == "" then Some((Num(v), n)) else None
    else if IsNameStart(s[0]) then
      var n := 1 + Span(s[1..], IsNameChar);
      Some((Ident(s[..n]), n))
    else Symbol(s)
  }

  function TokenizeFrom(s: string, out: seq<Tok>): Result<seq<Tok>, Fault>
    decreases |s|
  {
    if s == "" then Ok(out + [End])
    else if IsSpace(s[0]) then TokenizeFrom(s[1..], out)
    else
      match FrontToken(s)
      case None => Err(SyntaxError)
      case Some((t, n)) => TokenizeFrom(s[n..], out + [t])
  }

  lemma {:induction false} TokensEnd(s: string, out: seq<Tok>)
    ensures var r := TokenizeFrom(s, out); r.Ok? ==> r.value != [] && r.value[|r.value| - 1] == End
    decreases |s|
  {
    if s == "" {
    } else if IsSpace(s[0]) {
      TokensEnd(s[1..], out);
    } else {
      match FrontToken(s)
      case None =>
      case Some((t, n)) => TokensEnd(s[n..], out + [t]);
    }
  }

  lemma {:induction false} SpanAt(s: string, f: char -> bool, i: nat)
    requires i <= |s| && (forall j :: 0 <= j < i ==> f(s[j])) && (i < |s| ==> !f(s[i]))
    ensures Span(s, f) == i
    decreases |s|
  {
    if i > 0 {
      SpanAt(s[1..], f, i - 1);
    }
  }

  method ScanSpan(s: string, start: nat, f: char -> bool) returns (i: nat)
    requires start <= |s|
    ensures start <= i <= |s| && i == start + Span(s[start..], f)
  {
    i := start;
    while i < |s| && f(s[i])
      invariant start <= i <= |s| && forall j :: start <= j < i ==> f(s[j])
    {
      i := i + 1;
    }
    SpanAt(s[start..], f, i - start);
  }

  method ScanNumber(s: string, start: nat) returns (t: Option<Tok>, i: nat)
    requires start < |s| && IsDigit(s[start])
    ensures i <= |s|
    ensures FrontToken(s[start..]) == if t.None? then None else Some((t.value, i - start))
  {
    hide ReadInteger, Symbol, Span;
    ghost var rest := s[start..];
    if s[start] == '0' && start + 1 < |s| && (s[start + 1] == 'x' || s[start + 1] == 'X') {
      i := ScanSpan(s, start + 2, IsHexDigit);
      assert rest[2..] == s[start + 2..];
    } else {
      i := ScanSpan(s, start, IsDigit);
    }
    var numText := s[start..i];
    assert i == start + NumberLength(rest) && numText == rest[..i - start];
    var v := ReadInteger(numText, true, INT64_MIN, INT64_MAX);
    t := if v.None? || v.value.1 != "" then None else Some(Num(v.value.0));
  }

  method ScanName(s: string, start: nat) returns (t: Tok, i: nat)
    requires start < |s| && !IsDigit(s[start]) && IsNameStart(s[start])
    ensures start < i <= |s| && FrontToken(s[start..]) == Some((t, i - start))
  {
    hide Symbol, Span;
    ghost var rest := s[start..];
    i := ScanSpan(s, start + 1, IsNameChar);
    assert rest[1..] == s[start + 1..] && s[start..i] == rest[..i - start];
    t := Ident(s[start..i]);
  }

  /** One token, from a position that is no white space. */
  method ScanToken(s: string, start: nat) returns (t: Option<Tok>, i: nat)
    requires start < |s| && !IsSpace(s[start])
    ensures match FrontToken(s[start..])
            case None => t == None
            case Some((tok, n)) => t == Some(tok) && i == start + n <= |s|
  {
    hide NumberLength, ReadInteger, Symbol;
    i := start;
    if IsDigit(s[i]) {
      t, i := ScanNumber(s, i);
    } else if IsNameStart(s[i]) {
      var name;
      name, i := ScanName(s, i);
      t := Some(name);
    } else {
      var symbol := Symbol(s[i..]);
      t := if symbol.None? then None else Some(symbol.value.0);
      i := if symbol.None? then i else i + symbol.value.1;
    }
  }

  method Tokenize(s: string) returns (r: Result<seq<Tok>, Fault>)
    ensures r == TokenizeFrom(s, [])
  {
    hide FrontToken;
    var out: seq<Tok> := [];
    var i := 0;
    assert s[0..] == s;
    while i < |s|
      invariant 0 <= i <= |s| && TokenizeFrom(s[i..], out) == TokenizeFrom(s, [])
    {
      ghost var start := i;
      if IsSpace(s[i]) {
        assert s[i..][1..] == s[i + 1..];
        i := i + 1;
        continue;
      }
      var t: Option<Tok>;
      t, i := ScanToken(s, i);
      if t.None? {
        return Err(SyntaxError);
      }
      assert s[start..][i - start..] == s[i..];
      out := out + [t.value];
    }
    return Ok(out + [End]);
  }

  // --------------------------------------------------------------- evaluator

  class ArithEvaluator {
    const toks: Toks
    var pos: nat
    var env: Env

    ghost predicate Valid()
      reads this
    {
      pos < |toks|
    }

    ghost function Rest(): Toks
      reads this
      requires Valid()
    {
      toks[pos..]
    }

    constructor (ts: Toks, e: Env)
      ensures Valid() && toks == ts && Rest() == ts && env == e
    {
      toks, pos, env := ts, 0, e;
    }

    function Cur(): (t: Tok)
      reads this
      requires Valid()
      ensures t == Rest()[0]
    {
      toks[pos]
    }

    method Advance()
      requires Valid() && Cur() != End
      modifies this`pos
      ensures Valid() && Rest() == Tail(old(Rest()))
    {
      if pos + 1 < |toks| {
        pos := pos + 1;
      }
    }

    method ParseComma() returns (r: Result<int, Fault>)
      requires Valid()
      modifies this
      ensures match EvComma(old(Rest()), old(env))
              case Done(v, e, ts) => r == Ok(v) && Valid() && env == e && Rest() == ts
              case Thrown(f, e) => r == Err(f) && env == e
      decreases |Rest()|, 20
    {
      hide EvAssignment;
      var v :- ParseAssignment();
      ghost var v0, ts0, e0 := v, Rest(), env;
      while Cur() == Comma
        invariant Valid() && |Rest()| <= |ts0|
        invariant EvCommaRest(v, Rest(), env) == EvCommaRest(v0, ts0, e0)
        decreases |Rest()|
      {
        Advance();
        v :- ParseAssignment();
      }
      return Ok(v);
    }

    method ParseAssignment() returns (r: Result<int, Fault>)
      requires Valid()
      modifies this
      ensures match EvAssignment(old(Rest()), old(env))
              case Done(v, e, ts) => r == Ok(v) && Valid() && env == e && Rest() == ts
              case Thrown(f, e) => r == Err(f) && env == e
      decreases |Rest()|, 19
    {
      hide EvAssignment, EvConditional, StoreResult;
      AssignmentIs(Rest(), env);
      assert Rest()[0] == Cur() && (pos + 1 < |toks| ==> Rest()[1] == toks[pos + 1]);
      if Cur().Ident? && pos + 1 < |toks| && toks[pos + 1].AssignOp? {
        var name, op := TakeTarget();
        var rhs :- ParseAssignment();
        r := AssignTo(name, op, rhs);
        return;
      }
      r := ParseConditional();
    }

    /** The name and the operator of an assignment. */
    method TakeTarget() returns (name: string, op: Option<BinOp>)
      requires Valid() && StartsAssignment(Rest())
      modifies this`pos
      ensures Valid() && Rest() == Tail(Tail(old(Rest())))
      ensures name == old(Rest())[0].name && op == old(Rest())[1].compound
    {
      name := Cur().name;
      Advance();
      op := Cur().compound;
      Advance();
    }

    method AssignTo(name: string, op: Option<BinOp>, rhs: int) returns (r: Result<int, Fault>)
      requires Valid()
      modifies this`env
      ensures Valid()
      ensures match StoreResult(name, op, rhs, old(env), Rest())
              case Done(v, e, ts) => r == Ok(v) && env == e && Rest() == ts
              case Thrown(f, e) => r == Err(f) && env == e
    {
      hide Lookup, Assigned, Store;
      var result := Assigned(op, Lookup(env, name), rhs);
      if result.Faulty? {
        return Err(result.fault);
      }
      var stored := Store(env, name, result.n);
      if stored.None? {
        return Err(ReadOnly);
      }
      env := stored.value;
      return Ok(result.n);
    }

    method ParseConditional() returns (r: Result<int, Fault>)
      requires Valid()
      modifies this
      ensures match EvConditional(old(Rest()), old(env))
              case Done(v, e, ts) => r == Ok(v) && Valid() && env == e && Rest() == ts
              case Thrown(f, e) => r == Err(f) && env == e
      decreases |Rest()|, 18
    {
      hide EvAssignment, EvBinary;
      var cond :- ParseBinary(3);
      if Cur() != Question {
        return Ok(cond);
      }
      Advance();
      var thenV :- ParseAssignment();
      if Cur() != Colon {
        return Err(SyntaxError);
      }
      Advance();
      var elseV :- ParseConditional();
      return Ok(if cond != 0 then thenV else elseV);
    }

    /** parseLogicalOr (level 3) to parseMultiplicative (level 12). */
    method ParseBinary(level: nat) returns (r: Result<int, Fault>)
      requires Valid() && 3 <= level <= 13
      modifies this
      ensures match EvBinary(level, old(Rest()), old(env))
              case Done(v, e, ts) => r == Ok(v) && Valid() && env == e && Rest() == ts
              case Thrown(f, e) => r == Err(f) && env == e
      decreases |Rest()|, 17 - level
    {
      hide EvUnary, EvBinaryRest;
      if level == 13 {
        r := ParseUnary();
        return;
      }
      var v :- ParseBinary(level + 1);
      r := ParseBinaryRest(level, v);
    }

    /** The loop over the operators of one level. */
    method ParseBinaryRest(level: nat, first: int) returns (r: Result<int, Fault>)
      requires Valid() && 3 <= level <= 12
      modifies this
      ensures match EvBinaryRest(level, first, old(Rest()), old(env))
              case Done(v, e, ts) => r == Ok(v) && Valid() && env == e && Rest() == ts
              case Thrown(f, e) => r == Err(f) && env == e
      decreases |Rest()|, 17 - level
    {
      hide EvBinary, EvBinaryRest, Apply, Level;
      var v := first;
      while Cur().Op? && Level(Cur().op) == level
        invariant Valid() && |Rest()| <= |old(Rest())|
        invariant EvBinaryRest(level, v, Rest(), env) == EvBinaryRest(level, first, old(Rest()), old(env))
        decreases |Rest()|
      {
        BinaryTurn(level, v, Rest(), env);
        var op := Cur().op;
        Advance();
        var rhs :- ParseBinary(level + 1);
        var result := Apply(op, v, rhs);
        if result.Faulty? {
          return Err(result.fault);
        }
        v := result.n;
      }
      BinaryTurn(level, v, Rest(), env);
      return Ok(v);
    }

    method ParseUnary() returns (r: Result<int, Fault>)
      requires Valid()
      modifies this
      ensures match EvUnary(old(Rest()), old(env))
              case Done(v, e, ts) => r == Ok(v) && Valid() && env == e && Rest() == ts
              case Thrown(f, e) => r == Err(f) && env == e
      decreases |Rest()|, 3
    {
      hide EvPrimary, ApplyUnary;
      var op := UnaryOf(Cur());
      if op.None? {
        r := ParsePrimary();
        return;
      }
      Advance();
      var v :- ParseUnary();
      var result := ApplyUnary(op.value, v);
      return if result.Faulty? then Err(result.fault) else Ok(result.n);
    }

    method ParsePrimary() returns (r: Result<int, Fault>)
      requires Valid()
      modifies this
      ensures match EvPrimary(old(Rest()), old(env))
              case Done(v, e, ts) => r == Ok(v) && Valid() && env == e && Rest() == ts
              case Thrown(f, e) => r == Err(f) && env == e
      decreases |Rest()|, 2
    {
      hide EvComma, Lookup;
      if Cur().Num? {
        var v := Cur().n;
        Advance();
        return Ok(v);
      }
      if Cur().Ident? {
        var name := Cur().name;
        Advance();
        return Ok(Lookup(env, name));
      }
      if Cur() == LParen {
        Advance();
        var v :- ParseComma();
        if Cur() != RParen {
          return Err(SyntaxError);
        }
        Advance();
        return Ok(v);
      }
      return Err(SyntaxError);
    }

    method Run() returns (r: Result<int, Fault>)
      requires Valid()
      modifies this
      ensures match EvRun(old(Rest()), old(env))
              case Done(v, e, ts) => r == Ok(v) && env == e
              case Thrown(f, e) => r == Err(f) && env == e
    {
      hide EvComma;
      var v :- ParseComma();
      if Cur() != End {
        return Err(SyntaxError);
      }
      return Ok(v);
    }
  }

  /** evaluateArithmetic as a function of the expression text and variables. */
  function Evaluate(s: string, env: Env): (Result<int, Fault>, Env) {
    match TokenizeFrom(s, [])
    case Err(f) => (Err(f), env)
    case Ok(ts) =>
      TokensEnd(s, []);
      match EvRun(ts, env)
      case Done(v, e, _) => (Ok(v), e)
      case Thrown(f, e) => (Err(f), e)
  }

  method EvaluateArithmetic(s: string, env: Env) returns (r: Result<int, Fault>, after: Env)
    ensures (r, after) == Evaluate(s, env)
  {
    hide TokenizeFrom, EvRun;
    TokensEnd(s, []);
    var ts := Tokenize(s);
    if ts.Err? {
      return Err(ts.error), env;
    }
    var evaluator := new ArithEvaluator(ts.value, env);
    r := evaluator.Run();
    after := evaluator.env;
  }

  // -------------------------------------------------------- from text to value

  function SpellOp(op: BinOp): string {
    match op
    case Mul => "*"
    case Div => "/"
    case Mod => "%"
    case Add => "+"
    case Sub => "-"
    case Shl => "<<"
    case Shr => ">>"
    case Lt => "<"
    case Le => "<="
    case Gt => ">"
    case Ge => ">="
    case Eq => "=="
    case Ne => "!="
    case BitAnd => "&"
    case BitXor => "^"
    case BitOr => "|"
    case LogAnd => "&&"
    case LogOr => "||"
  }

  function SpellTok(t: Tok): string {
    match t
    case Num(n) => ToText(n)
    case Ident(name) => name
    case Op(op) => SpellOp(op)
    case Bang => "!"
    case Tilde => "~"
    case Question => "?"
    case Colon => ":"
    case Comma => ","
    case LParen => "("
    case RParen => ")"
    case AssignOp(compound) => if compound.None? then "=" else SpellOp(compound.value) + "="
    case End => ""
  }

  /** Every token followed by a blank. */
  function SpellToks(ts: seq<Tok>): string {
    if ts == [] || ts[0] == End then "" else SpellTok(ts[0]) + (" " + SpellToks(ts[1..]))
  }

  predicate HasAssignForm(op: BinOp) {
    op == Mul || op == Div || op == Mod || op == Add || op == Sub
    || op == Shl || op == Shr || op == BitAnd || op == BitXor || op == BitOr
  }

  predicate Spellable(t: Tok) {
    match t
    case Num(n) => 0 <= n <= INT64_MAX
    case Ident(name) => IsName(name)
    case AssignOp(compound) => compound.Some? ==> HasAssignForm(compound.value)
    case End => false
    case _ => true
  }

  /** All but the last token can be spelled, and the last is End. */
  predicate AllSpellable(ts: seq<Tok>) {
    ts != [] && if |ts| == 1 then ts[0] == End else Spellable(ts[0]) && AllSpellable(ts[1..])
  }

  lemma SymbolBack(t: Tok, rest: string)
    requires Spellable(t) && !t.Num? && !t.Ident?
    ensures var s := SpellTok(t) + (" " + rest);
            SpellTok(t) != "" && Symbol(s) == Some((t, |SpellTok(t)|))
            && !IsDigit(s[0]) && !IsNameStart(s[0]) && !IsSpace(s[0])
  {
    var spelled := SpellTok(t);
    var s := spelled + (" " + rest);
    var n := |spelled|;
    assert s[0] == spelled[0] && s[n] == ' ';
    assert n > 1 ==> s[1] == spelled[1];
    assert n > 2 ==> s[2] == spelled[2];
  }

  lemma NumberBack(n: nat, rest: string)
    requires n <= INT64_MAX
    ensures var s := ToDecimal(n) + (" " + rest);
            IsDigit(s[0]) && FrontToken(s) == Some((Num(n), |ToDecimal(n)|))
  {
    hide ReadInteger;
    var d := ToDecimal(n);
    var s := d + (" " + rest);
    assert forall i :: 0 <= i < |d| ==> s[i] == d[i];
    assert s[|d|] == ' ';
    if |d| > 1 {
      assert IsDigit(d[1]);
    }
    SpanAt(s, IsDigit, |d|);
    assert s[..|d|] == d;
    TextRoundTrip(n, true, INT64_MIN, INT64_MAX);
  }

  lemma NameBack(name: string, rest: string)
    requires IsName(name)
    ensures var s := name + (" " + rest);
            !IsDigit(s[0]) && !IsSpace(s[0]) && FrontToken(s) == Some((Ident(name), |name|))
  {
    var s := name + (" " + rest);
    assert forall i :: 0 <= i < |name| - 1 ==> s[1..][i] == name[i + 1];
    assert s[1..][|name| - 1] == ' ';
    SpanAt(s[1..], IsNameChar, |name| - 1);
    assert s[..|name|] == name;
  }

  lemma FrontBack(t: Tok, rest: string)
    requires Spellable(t)
    ensures var s := SpellTok(t) + (" " + rest);
            SpellTok(t) != "" && !IsSpace(s[0]) && FrontToken(s) == Some((t, |SpellTok(t)|))
  {
    hide FrontToken, Symbol, ToDecimal;
    if t.Num? {
      NumberBack(t.n, rest);
    } else if t.Ident? {
      NameBack(t.name, rest);
    } else {
      SymbolBack(t, rest);
      SymbolFront(SpellTok(t) + (" " + rest));
    }
  }

  lemma SymbolFront(s: string)
    requires s != "" && !IsDigit(s[0]) && !IsNameStart(s[0])
    ensures FrontToken(s) == Symbol(s)
  {
  }

  lemma {:induction false} TokensRoundTrip(ts: seq<Tok>, out: seq<Tok>)
    requires AllSpellable(ts)
    ensures TokenizeFrom(SpellToks(ts), out) == Ok(out + ts)
    decreases |ts|
  {
    hide FrontToken, SpellTok;
    if |ts| == 1 {
      assert out + ts == out + [End];
    } else {
      var rest := SpellToks(ts[1..]);
      var spelled := SpellTok(ts[0]);
      var s := SpellToks(ts);
      FrontBack(ts[0], rest);
      assert s == spelled + (" " + rest) && s[|spelled|..] == " " + rest;
      assert (" " + rest)[1..] == rest;
      TokensRoundTrip(ts[1..], out + [ts[0]]);
      assert out + [ts[0]] + ts[1..] == out + ts;
    }
  }

  /** Expressions over 64-bit literals and well-formed names. */
  predicate Writable(e: Expr) {
    match e
    case Literal(n) => 0 <= n <= INT64_MAX
    case Variable(name) => IsName(name)
    case Unary(_, arg) => Writable(arg)
    case Binary(_, left, right) => Writable(left) && Writable(right)
    case Conditional(cond, yes, no) => Writable(cond) && Writable(yes) && Writable(no)
    case Assign(compound, name, rhs) =>
      (compound.Some? ==> HasAssignForm(compound.value)) && IsName(name) && Writable(rhs)
    case Sequence(first, second) => Writable(first) && Writable(second)
  }

  lemma SpellableCons(t: Tok, k: Toks)
    requires Spellable(t) && AllSpellable(k)
    ensures AllSpellable([t] + k)
  {
    assert ([t] + k)[1..] == k;
  }

  lemma {:induction false} PrintSpellable(e: Expr, level: nat, k: Toks)
    requires Writable(e) && AllSpellable(k)
    ensures AllSpellable(Print(e, level, k))
    decreases e, 2
  {
    hide Writable, AllSpellable, PrintBare;
    if LevelOf(e) < level {
      SpellableCons(RParen, k);
      BareSpellable(e, [RParen] + k);
      SpellableCons(LParen, PrintBare(e, [RParen] + k));
    } else {
      BareSpellable(e, k);
    }
  }

  lemma {:induction false} BareSpellable(e: Expr, k: Toks)
    requires Writable(e) && AllSpellable(k)
    ensures AllSpellable(PrintBare(e, k))
    decreases e, 1
  {
    hide AllSpellable, Print, Level;
    match e
    case Literal(n) => SpellableCons(Num(n), k);
    case Variable(name) => SpellableCons(Ident(name), k);
    case Unary(op, arg) =>
      PrintSpellable(arg, 13, k);
      SpellableCons(UnaryTok(op), Print(arg, 13, k));
    case Binary(op, left, right) =>
      PrintSpellable(right, Level(op) + 1, k);
      SpellableCons(Op(op), Print(right, Level(op) + 1, k));
      PrintSpellable(left, Level(op), [Op(op)] + Print(right, Level(op) + 1, k));
    case Conditional(_, _, _) => ConditionalSpellable(e, k);
    case Assign(_, _, _) => AssignSpellable(e, k);
    case Sequence(first, second) =>
      PrintSpellable(second, 1, k);
      SpellableCons(Comma, Print(second, 1, k));
      PrintSpellable(first, 0, [Comma] + Print(second, 1, k));
  }

  lemma {:induction false} ConditionalSpellable(e: Expr, k: Toks)
    requires e.Conditional? && Writable(e) && AllSpellable(k)
    ensures AllSpellable(PrintBare(e, k))
    decreases e, 0
  {
    hide AllSpellable, Print;
    var no := Print(e.no, 2, k);
    PrintSpellable(e.no, 2, k);
    SpellableCons(Colon, no);
    var yes := Print(e.yes, 1, [Colon] + no);
    PrintSpellable(e.yes, 1, [Colon] + no);
    SpellableCons(Question, yes);
    PrintSpellable(e.cond, 3, [Question] + yes);
  }

  lemma {:induction false} AssignSpellable(e: Expr, k: Toks)
    requires e.Assign? && Writable(e) && AllSpellable(k)
    ensures AllSpellable(PrintBare(e, k))
    decreases e, 0
  {
    hide AllSpellable, Print;
    var rhs := Print(e.rhs, 1, k);
    PrintSpellable(e.rhs, 1, k);
    SpellableCons(AssignOp(e.compound), rhs);
    SpellableCons(Ident(e.name), [AssignOp(e.compound)] + rhs);
  }

  /** The text of an expression. */
  function TextOf(e: Expr): string {
    SpellToks(Print(e, 0, [End]))
  }

  /** Evaluating the text of any expression, from any variables, gives the
      value and final variables of its meaning, or fails as its meaning does. */
  lemma TextRefinesMeaning(e: Expr, env: Env)
    requires Writable(e)
    ensures Evaluate(TextOf(e), env)
         == match Meaning(e, env)
            case Value(v, after) => (Ok(v), after)
            case Fails(f, after) => (Err(f), after)
  {
    var ts := Print(e, 0, [End]);
    PrintSpellable(e, 0, [End]);
    TokensRoundTrip(ts, []);
    assert [] + ts == ts;
    EvaluatorRefinesMeaning(e, env);
  }
}
