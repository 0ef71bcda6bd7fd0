/** The evaluator that computes while it parses agrees with the meaning of the
    expression tree, on the printed form of every expression. */
module ArithRefinement {
  import opened Prelude
  import opened Int64
  import opened ArithSpec

  // ---------------------------------------------------------------- printing

  /** Precedence levels: 0 comma, 1 assignment, 2 ?:, 3-12 binary operators,
      13 unary operators, 14 numbers, names and parentheses. */
  function LevelOf(e: Expr): (r: nat)
    ensures r <= 14
  {
    match e
    case Sequence(_, _) => 0
    case Assign(_, _, _) => 1
    case Conditional(_, _, _) => 2
    case Binary(op, _, _) => Level(op)
    case Unary(_, _) => 13
    case _ => 14
  }

  function UnaryTok(op: UnOp): Tok {
    match op
    case Plus => Op(Add)
    case Minus => Op(Sub)
    case Not => Bang
    case Complement => Tilde
  }

  /** The tokens of e, in parentheses where its level asks for them, before k. */
  function Print(e: Expr, level: nat, k: Toks): (r: Toks)
    ensures |r| > |k|
    decreases e, 1
  {
    if LevelOf(e) < level then [LParen] + PrintBare(e, [RParen] + k) else PrintBare(e, k)
  }

  function PrintBare(e: Expr, k: Toks): (r: Toks)
    ensures |r| > |k|
    decreases e, 0
  {
    match e
    case Literal(n) => [Num(n)] + k
    case Variable(name) => [Ident(name)] + k
    case Unary(op, arg) => [UnaryTok(op)] + Print(arg, 13, k)
    case Binary(op, left, right) => Print(left, Level(op), [Op(op)] + Print(right, Level(op) + 1, k))
    case Conditional(cond, yes, no) =>
      Print(cond, 3, [Question] + Print(yes, 1, [Colon] + Print(no, 2, k)))
    case Assign(compound, name, rhs) => [Ident(name)] + ([AssignOp(compound)] + Print(rhs, 1, k))
    case Sequence(first, second) => Print(first, 0, [Comma] + Print(second, 1, k))
  }

  /** Tokens that cannot continue an expression of the level. */
  predicate Follows(level: nat, t: Tok) {
    && !t.AssignOp?
    && (t.Op? ==> Level(t.op) < level)
    && (t == Question ==> level > 2)
    && (t == Comma ==> level > 0)
  }

  // ---------------------------------------------------------- evaluation at a level

  function EvAt(level: nat, ts: Toks, env: Env): Eval
    requires level <= 14
  {
    if level == 0 then EvComma(ts, env)
    else if level == 1 then EvAssignment(ts, env)
    else if level == 2 then EvConditional(ts, env)
    else if level <= 13 then EvBinary(level, ts, env)
    else EvPrimary(ts, env)
  }

  /** A meaning, reached with the tokens k still to read. */
  function Reached(m: Denotation, k: Toks): Eval {
    match m
    case Value(v, env) => Done(v, env, k)
    case Fails(f, env) => Thrown(f, env)
  }

  /** A meaning, reached as the left operand of a loop that reads on from k. */
  function Continued(level: nat, m: Denotation, k: Toks): Eval
    requires level == 0 || 3 <= level <= 12
  {
    match m
    case Fails(f, env) => Thrown(f, env)
    case Value(v, env) => if level == 0 then EvCommaRest(v, k, env) else EvBinaryRest(level, v, k, env)
  }

  lemma TailOf(t: Tok, k: Toks)
    requires t != End
    ensures ([t] + k)[0] == t && Tail([t] + k) == k
  {
  }

  // --------------------------------------------------------------- first tokens

  /** An expression printed above the assignment level never looks like one. */
  lemma {:induction false} NotAnAssignment(e: Expr, level: nat, k: Toks)
    requires level <= 14 && (level >= 2 || LevelOf(e) >= 2) && !k[0].AssignOp?
    ensures !StartsAssignment(Print(e, level, k))
    decreases e
  {
    if LevelOf(e) >= level {
      match e
      case Literal(_) =>
      case Variable(name) =>
        assert Print(e, level, k)[1] == k[0];
      case Unary(op, _) =>
      case Binary(op, left, right) =>
        NotAnAssignment(left, Level(op), [Op(op)] + Print(right, Level(op) + 1, k));
      case Conditional(cond, yes, no) =>
        NotAnAssignment(cond, 3, [Question] + Print(yes, 1, [Colon] + Print(no, 2, k)));
    }
  }

  lemma NoUnaryOperator(e: Expr, k: Toks)
    requires !e.Unary?
    ensures UnaryOf(Print(e, 14, k)[0]) == None
  {
  }

  // ----------------------------------------------------------------- agreement

  /** Evaluating the printed form of e at a level gives the meaning of e and
      stops exactly at the tokens that follow. */
  lemma {:induction false} Agrees(e: Expr, level: nat, k: Toks, env: Env)
    requires level <= 14 && Follows(level, k[0])
    ensures EvAt(level, Print(e, level, k), env) == Reached(Meaning(e, env), k)
    decreases e, if LevelOf(e) < level then 1 else 0, 14 - level, 1
  {
    hide EvComma, EvCommaRest, EvAssignment, EvConditional, EvBinary, EvBinaryRest, EvUnary, EvPrimary, Meaning;
    if level == 0 || 3 <= level <= 12 {
      LeftAgrees(e, level, k, env);
      LoopStops(level, Meaning(e, env), k);
    } else if level == 1 {
      if e.Assign? {
        AssignAgrees(e, k, env);
      } else if LevelOf(e) >= 2 {
        Agrees(e, 2, k, env);
        NotAnAssignment(e, 1, k);
        SkipLevel(1, Print(e, 1, k), env);
      } else {
        Agrees(e, 2, k, env);
        NotAnAssignment(e, 2, k);
        SkipLevel(1, Print(e, 1, k), env);
      }
    } else if level == 2 {
      if e.Conditional? {
        ConditionalAgrees(e, k, env);
      } else {
        Agrees(e, 3, k, env);
        ConditionalStops(Print(e, 2, k), env, Meaning(e, env), k);
      }
    } else if level == 13 {
      if e.Unary? {
        UnaryAgrees(e, k, env);
      } else {
        Agrees(e, 14, k, env);
        NoUnaryOperator(e, k);
        SkipLevel(13, Print(e, 13, k), env);
      }
    } else {
      PrimaryAgrees(e, k, env);
    }
  }

  lemma LoopStops(level: nat, m: Denotation, k: Toks)
    requires level == 0 || 3 <= level <= 12
    requires Follows(level, k[0])
    ensures Continued(level, m, k) == Reached(m, k)
  {
  }

  lemma SkipLevel(level: nat, ts: Toks, env: Env)
    requires (level == 1 && !StartsAssignment(ts)) || (level == 13 && UnaryOf(ts[0]) == None)
    ensures EvAt(level, ts, env) == EvAt(level + 1, ts, env)
  {
    hide EvConditional, EvPrimary;
    if level == 13 {
      assert EvBinary(13, ts, env) == EvUnary(ts, env);
    }
  }

  lemma ConditionalStops(ts: Toks, env: Env, m: Denotation, k: Toks)
    requires EvBinary(3, ts, env) == Reached(m, k) && k[0] != Question
    ensures EvConditional(ts, env) == Reached(m, k)
  {
    hide EvBinary, EvAssignment;
  }

  lemma {:induction false} LeftAgrees(e: Expr, level: nat, k: Toks, env: Env)
    requires (level == 0 || 3 <= level <= 12) && Follows(level + 1, k[0])
    ensures EvAt(level, Print(e, level, k), env) == Continued(level, Meaning(e, env), k)
    decreases e, if LevelOf(e) < level then 1 else 0, 14 - level, 0
  {
    hide EvComma, EvCommaRest, EvAssignment, EvConditional, EvBinary, EvBinaryRest, EvUnary, EvPrimary, Meaning;
    if level == 0 && e.Sequence? {
      SequenceAgrees(e, k, env);
    } else if e.Binary? && Level(e.bop) == level {
      BinaryAgrees(e, k, env);
    } else {
      Agrees(e, level + 1, k, env);
      EnterLoop(level, Print(e, level, k), env, Meaning(e, env), k);
    }
  }

  lemma EnterLoop(level: nat, ts: Toks, env: Env, m: Denotation, k: Toks)
    requires (level == 0 || 3 <= level <= 12) && EvAt(level + 1, ts, env) == Reached(m, k)
    ensures EvAt(level, ts, env) == Continued(level, m, k)
  {
    hide EvCommaRest, EvBinaryRest, EvAssignment, EvUnary;
  }

  lemma {:induction false} SequenceAgrees(e: Expr, k: Toks, env: Env)
    requires e.Sequence? && Follows(1, k[0])
    ensures EvComma(Print(e, 0, k), env) == Continued(0, Meaning(e, env), k)
    decreases e, 0, 0, 0
  {
    hide EvComma, EvAssignment;
    var second := Print(e.second, 1, k);
    LeftAgrees(e.first, 0, [Comma] + second, env);
    match Meaning(e.first, env)
    case Fails(_, _) =>
    case Value(_, e1) =>
      TailOf(Comma, second);
      Agrees(e.second, 1, k, e1);
  }

  lemma {:induction false} BinaryAgrees(e: Expr, k: Toks, env: Env)
    requires e.Binary? && Follows(Level(e.bop) + 1, k[0])
    ensures EvBinary(Level(e.bop), Print(e, Level(e.bop), k), env) == Continued(Level(e.bop), Meaning(e, env), k)
    decreases e, 0, 0, 0
  {
    hide EvBinary, EvComma, EvAssignment, EvConditional, EvUnary, Apply;
    var level := Level(e.bop);
    var right := Print(e.right, level + 1, k);
    LeftAgrees(e.left, level, [Op(e.bop)] + right, env);
    match Meaning(e.left, env)
    case Fails(_, _) =>
    case Value(v, e1) =>
      TailOf(Op(e.bop), right);
      Agrees(e.right, level + 1, k, e1);
  }

  lemma AssignStep(name: string, compound: Option<BinOp>, rhs: Toks, env: Env)
    ensures var r := EvAssignment(rhs, env);
            EvAssignment([Ident(name)] + ([AssignOp(compound)] + rhs), env)
            == if r.Done? then StoreResult(name, compound, r.v, r.env, r.ts) else r
  {
    hide StoreResult, EvConditional;
    var ts: Toks := [Ident(name)] + ([AssignOp(compound)] + rhs);
    TailOf(AssignOp(compound), rhs);
    TailOf(Ident(name), [AssignOp(compound)] + rhs);
    assert ts[1] == AssignOp(compound);
  }

  lemma {:induction false} AssignAgrees(e: Expr, k: Toks, env: Env)
    requires e.Assign? && Follows(1, k[0])
    ensures EvAssignment(Print(e, 1, k), env) == Reached(Meaning(e, env), k)
    decreases e, 0, 0, 0
  {
    hide EvAssignment, Assigned, Lookup, Store;
    AssignStep(e.name, e.compound, Print(e.rhs, 1, k), env);
    Agrees(e.rhs, 1, k, env);
  }

  /** The three operands of ?: are evaluated one after the other. */
  lemma ConditionalStep(ts: Toks, env: Env, yes: Toks, no: Toks)
    ensures var c := EvBinary(3, ts, env);
            && (c.Thrown? ==> EvConditional(ts, env) == c)
            && (c.Done? && c.ts == [Question] + yes ==>
                  var y := EvAssignment(yes, c.env);
                  && (y.Thrown? ==> EvConditional(ts, env) == y)
                  && (y.Done? && y.ts == [Colon] + no ==>
                        var n := EvConditional(no, y.env);
                        EvConditional(ts, env) == if n.Thrown? then n else Done(if c.v != 0 then y.v else n.v, n.env, n.ts)))
  {
    hide EvAssignment, EvBinary;
    TailOf(Question, yes);
    TailOf(Colon, no);
  }

  lemma {:induction false} ConditionalAgrees(e: Expr, k: Toks, env: Env)
    requires e.Conditional? && Follows(2, k[0])
    ensures EvConditional(Print(e, 2, k), env) == Reached(Meaning(e, env), k)
    decreases e, 0, 0, 0
  {
    hide EvAssignment, EvBinary, EvConditional;
    var no := Print(e.no, 2, k);
    var yes := Print(e.yes, 1, [Colon] + no);
    Agrees(e.cond, 3, [Question] + yes, env);
    ConditionalStep(Print(e, 2, k), env, yes, no);
    var c := Meaning(e.cond, env);
    if c.Value? {
      Agrees(e.yes, 1, [Colon] + no, c.env);
      var y := Meaning(e.yes, c.env);
      if y.Value? {
        Agrees(e.no, 2, k, y.env);
      }
    }
  }

  lemma {:induction false} UnaryAgrees(e: Expr, k: Toks, env: Env)
    requires e.Unary? && Follows(13, k[0])
    ensures EvBinary(13, Print(e, 13, k), env) == Reached(Meaning(e, env), k)
    decreases e, 0, 0, 0
  {
    hide EvPrimary, ApplyUnary;
    TailOf(UnaryTok(e.uop), Print(e.arg, 13, k));
    Agrees(e.arg, 13, k, env);
    assert UnaryOf(UnaryTok(e.uop)) == Some(e.uop);
  }

  lemma {:induction false} PrimaryAgrees(e: Expr, k: Toks, env: Env)
    requires Follows(14, k[0])
    ensures EvPrimary(Print(e, 14, k), env) == Reached(Meaning(e, env), k)
    decreases e, if LevelOf(e) < 14 then 1 else 0, 0, 0
  {
    hide EvComma, Lookup;
    if e.Literal? {
      TailOf(Num(e.n), k);
    } else if e.Variable? {
      TailOf(Ident(e.name), k);
    } else {
      Agrees(e, 0, [RParen] + k, env);
      TailOf(LParen, Print(e, 0, [RParen] + k));
      TailOf(RParen, k);
    }
  }

  /** On the printed form of any expression, and from any variables, the
      evaluator gives the value, final variables or failure of its meaning. */
  lemma EvaluatorRefinesMeaning(e: Expr, env: Env)
    ensures EvRun(Print(e, 0, [End]), env) == Reached(Meaning(e, env), [End])
  {
    hide EvComma, Meaning;
    Agrees(e, 0, [End], env);
  }

  // ------------------------------------------------------------- short circuits

  /** The meaning C gives: &&, || and ?: evaluate only what they need. */
  function LazyMeaning(e: Expr, env: Env): Denotation {
    match e
    case Literal(n) => Value(n, env)
    case Variable(name) => Value(Lookup(env, name), env)
    case Unary(op, arg) =>
      (match LazyMeaning(arg, env)
       case Fails(f, e1) => Fails(f, e1)
       case Value(v, e1) => Concluded(ApplyUnary(op, v), e1))
    case Binary(op, left, right) =>
      (match LazyMeaning(left, env)
       case Fails(f, e1) => Fails(f, e1)
       case Value(v, e1) =>
         if op == LogAnd && v == 0 then Value(0, e1)
         else if op == LogOr && v != 0 then Value(1, e1)
         else
           match LazyMeaning(right, e1)
           case Fails(f, e2) => Fails(f, e2)
           case Value(w, e2) => Concluded(Apply(op, v, w), e2))
    case Conditional(cond, yes, no) =>
      (match LazyMeaning(cond, env)
       case Fails(f, e1) => Fails(f, e1)
       case Value(c, e1) => LazyMeaning(if c != 0 then yes else no, e1))
    case Assign(compound, name, rhs) =>
      (match LazyMeaning(rhs, env)
       case Fails(f, e1) => Fails(f, e1)
       case Value(v, e1) => StoreMeaning(compound, name, v, e1))
    case Sequence(first, second) =>
      (match LazyMeaning(first, env)
       case Fails(f, e1) => Fails(f, e1)
       case Value(_, e1) => LazyMeaning(second, e1))
  }

  predicate Assigns(e: Expr) {
    match e
    case Literal(_) => false
    case Variable(_) => false
    case Unary(_, arg) => Assigns(arg)
    case Binary(_, left, right) => Assigns(left) || Assigns(right)
    case Conditional(cond, yes, no) => Assigns(cond) || Assigns(yes) || Assigns(no)
    case Assign(_, _, _) => true
    case Sequence(first, second) => Assigns(first) || Assigns(second)
  }

  /** No operand that C might skip assigns. */
  predicate SkippableIsPure(e: Expr) {
    match e
    case Literal(_) => true
    case Variable(_) => true
    case Unary(_, arg) => SkippableIsPure(arg)
    case Binary(op, left, right) =>
      SkippableIsPure(left) && SkippableIsPure(right) && (op == LogAnd || op == LogOr ==> !Assigns(right))
    case Conditional(cond, yes, no) =>
      SkippableIsPure(cond) && SkippableIsPure(yes) && SkippableIsPure(no) && !Assigns(yes) && !Assigns(no)
    case Assign(_, _, rhs) => SkippableIsPure(rhs)
    case Sequence(first, second) => SkippableIsPure(first) && SkippableIsPure(second)
  }

  lemma {:induction false} PureKeepsVariables(e: Expr, env: Env)
    requires !Assigns(e) && Meaning(e, env).Value?
    ensures Meaning(e, env).env == env
  {
    match e
    case Literal(_) =>
    case Variable(_) =>
    case Unary(_, arg) => PureKeepsVariables(arg, env);
    case Binary(_, left, right) =>
      PureKeepsVariables(left, env);
      PureKeepsVariables(right, env);
    case Conditional(cond, yes, no) =>
      PureKeepsVariables(cond, env);
      PureKeepsVariables(yes, env);
      PureKeepsVariables(no, env);
    case Sequence(first, second) =>
      PureKeepsVariables(first, env);
      PureKeepsVariables(second, env);
  }

  /** Evaluating every operand agrees with C, value and variables, whenever no
      operand that C might skip assigns and nothing fails. */
  lemma {:induction false} EagerAgreesWithShortCircuit(e: Expr, env: Env)
    requires SkippableIsPure(e) && Meaning(e, env).Value?
    ensures LazyMeaning(e, env) == Meaning(e, env)
  {
    hide Lookup, Store, Assigned;
    match e
    case Literal(_) =>
    case Variable(_) =>
    case Unary(_, arg) => EagerAgreesWithShortCircuit(arg, env);
    case Binary(op, left, right) =>
      EagerAgreesWithShortCircuit(left, env);
      var e1 := Meaning(left, env).env;
      EagerAgreesWithShortCircuit(right, e1);
      if op == LogAnd || op == LogOr {
        PureKeepsVariables(right, e1);
      }
    case Conditional(cond, yes, no) =>
      EagerAgreesWithShortCircuit(cond, env);
      var e1 := Meaning(cond, env).env;
      EagerAgreesWithShortCircuit(yes, e1);
      PureKeepsVariables(yes, e1);
      EagerAgreesWithShortCircuit(no, e1);
      PureKeepsVariables(no, e1);
    case Assign(_, _, rhs) => EagerAgreesWithShortCircuit(rhs, env);
    case Sequence(first, second) =>
      EagerAgreesWithShortCircuit(first, env);
      EagerAgreesWithShortCircuit(second, Meaning(first, env).env);
  }

  predicate Skips(op: BinOp, v: int) {
    (op == LogAnd && v == 0) || (op == LogOr && v != 0)
  }

  predicate KeepsVariables(e: Expr, env: Env) {
    Meaning(e, env).Value? && Meaning(e, env).env == env
  }

  /** The second of two operands, evaluated after the first. */
  function Then(first: Expr, second: Expr, env: Env): Denotation {
    match Meaning(first, env)
    case Fails(f, e1) => Fails(f, e1)
    case Value(_, e1) => Meaning(second, e1)
  }

  /** In this evaluation every operand that C skips makes no difference: it gives
      some value and leaves the variables alone, or (the first branch of ?:) the
      second branch comes out as it would without it. */
  predicate SkippedIsHarmless(e: Expr, env: Env) {
    match e
    case Literal(_) => true
    case Variable(_) => true
    case Unary(_, arg) => SkippedIsHarmless(arg, env)
    case Binary(op, left, right) =>
      && SkippedIsHarmless(left, env)
      && (Meaning(left, env).Value? ==>
            var (v, e1) := (Meaning(left, env).v, Meaning(left, env).env);
            if Skips(op, v) then KeepsVariables(right, e1) else SkippedIsHarmless(right, e1))
    case Conditional(cond, yes, no) =>
      && SkippedIsHarmless(cond, env)
      && (Meaning(cond, env).Value? ==>
            var (c, e1) := (Meaning(cond, env).v, Meaning(cond, env).env);
            if c != 0 then
              SkippedIsHarmless(yes, e1) && (Meaning(yes, e1).Value? ==> KeepsVariables(no, Meaning(yes, e1).env))
            else
              SkippedIsHarmless(no, e1) && Then(yes, no, e1) == Meaning(no, e1))
    case Assign(_, _, rhs) => SkippedIsHarmless(rhs, env)
    case Sequence(first, second) =>
      && SkippedIsHarmless(first, env)
      && (Meaning(first, env).Value? ==> SkippedIsHarmless(second, Meaning(first, env).env))
  }

  /** The evaluation agrees with C here and at every operand that C evaluates. */
  predicate AgreesThroughout(e: Expr, env: Env) {
    && LazyMeaning(e, env) == Meaning(e, env)
    && match e
       case Literal(_) => true
       case Variable(_) => true
       case Unary(_, arg) => AgreesThroughout(arg, env)
       case Binary(op, left, right) =>
         && AgreesThroughout(left, env)
         && (var l := LazyMeaning(left, env); l.Value? && !Skips(op, l.v) ==> AgreesThroughout(right, l.env))
       case Conditional(cond, yes, no) =>
         && AgreesThroughout(cond, env)
         && (var c := LazyMeaning(cond, env); c.Value? ==> AgreesThroughout(if c.v != 0 then yes else no, c.env))
       case Assign(_, _, rhs) => AgreesThroughout(rhs, env)
       case Sequence(first, second) =>
         && AgreesThroughout(first, env)
         && (var l := LazyMeaning(first, env); l.Value? ==> AgreesThroughout(second, l.env))
  }

  /** Evaluating every operand agrees with C at every operand C evaluates if and
      only if the operands that C skips make no difference. */
  lemma {:induction false} EagerAgreesIff(e: Expr, env: Env)
    ensures AgreesThroughout(e, env) <==> SkippedIsHarmless(e, env)
  {
    hide Lookup, Store, Assigned, ApplyUnary;
    match e
    case Literal(_) =>
    case Variable(_) =>
    case Unary(_, arg) => EagerAgreesIff(arg, env);
    case Binary(op, left, right) =>
      EagerAgreesIff(left, env);
      EagerAgreesIff(right, Meaning(left, env).env);
      if Meaning(left, env).Value? && Meaning(right, Meaning(left, env).env).Value? && Skips(op, Meaning(left, env).v) {
        SkippedOperator(op, Meaning(left, env).v, Meaning(right, Meaning(left, env).env).v);
      }
    case Conditional(cond, yes, no) =>
      EagerAgreesIff(cond, env);
      var e1 := Meaning(cond, env).env;
      EagerAgreesIff(yes, e1);
      EagerAgreesIff(no, e1);
    case Assign(_, _, rhs) => EagerAgreesIff(rhs, env);
    case Sequence(first, second) =>
      EagerAgreesIff(first, env);
      EagerAgreesIff(second, Meaning(first, env).env);
  }

  lemma SkippedOperator(op: BinOp, v: int, w: int)
    requires Skips(op, v)
    ensures Apply(op, v, w) == Number(if op == LogAnd then 0 else 1)
  {
  }

  /** Neither condition can be dropped: `0 && 1/0` fails here and is 0 in C,
      and `0 && (x = 1)` assigns here and not in C. */
  lemma EagerDiffersFromShortCircuit()
    ensures var env := Env(map[], {});
            var fails := Binary(LogAnd, Literal(0), Binary(Div, Literal(1), Literal(0)));
            var assigns := Binary(LogAnd, Literal(0), Assign(None, "x", Literal(1)));
            && SkippableIsPure(fails) && Meaning(fails, env) == Fails(DivisionByZero, env)
            && LazyMeaning(fails, env) == Value(0, env)
            && Meaning(assigns, env) == Value(0, Env(map["x" := "1"], {}))
            && LazyMeaning(assigns, env) == Value(0, env)
  {
    var env := Env(map[], {});
    assert env.vars["x" := "1"] == map["x" := "1"];
  }
}
