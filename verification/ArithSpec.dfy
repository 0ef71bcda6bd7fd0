/** Arithmetic expansion: the evaluator that computes while it parses, as
    functions of the tokens still unread, and the meaning of expression trees. */
module ArithSpec {
  import opened Prelude
  import opened Numbers
  import opened Int64

  datatype Tok =
    | Num(n: int)
    | Ident(name: string)
    | Op(op: BinOp)
    | Bang | Tilde | Question | Colon | Comma | LParen | RParen
    | AssignOp(compound: Option<BinOp>)
    | End

  /** The tokens from the current one on, ending with End. */
  type Toks = ts: seq<Tok> | ts != [] && ts[|ts| - 1] == End witness [End]

  /** Shell variables as text, and those that may not be set. */
  datatype Env = Env(vars: map<string, string>, readonly: set<string>)

  /** Evaluation ends with a value and the tokens left, or is thrown out of;
      either way assignments made so far stay made. */
  datatype Eval = Done(v: int, env: Env, ts: Toks) | Thrown(fault: Fault, env: Env)

  /** An unset variable, or one whose text is not a number, counts as 0. */
  function Lookup(env: Env, name: string): int {
    if name !in env.vars then 0
    else
      match ReadInteger(env.vars[name], true, INT64_MIN, INT64_MAX)
      case None => 0
      case Some((n, rest)) => if rest == "" then n else 0
  }

  function Store(env: Env, name: string, n: int): Option<Env> {
    if name in env.readonly then None else Some(env.(vars := env.vars[name := ToText(n)]))
  }

  /** The value an assignment operator stores: the current value is looked up
      after the right operand has been evaluated. */
  function Assigned(compound: Option<BinOp>, current: int, rhs: int): Outcome {
    if compound.None? then Number(rhs) else Apply(compound.value, current, rhs)
  }

  /** The precedence level of a binary operator, from 3 (||) to 12 (* / %). */
  function Level(op: BinOp): (r: nat)
    ensures 3 <= r <= 12
  {
    match op
    case LogOr => 3
    case LogAnd => 4
    case BitOr => 5
    case BitXor => 6
    case BitAnd => 7
    case Eq => 8
    case Ne => 8
    case Lt => 9
    case Le => 9
    case Gt => 9
    case Ge => 9
    case Shl => 10
    case Shr => 10
    case Add => 11
    case Sub => 11
    case _ => 12
  }

  function UnaryOf(t: Tok): Option<UnOp> {
    match t
    case Op(Add) => Some(UnOp.Plus)
    case Op(Sub) => Some(UnOp.Minus)
    case Bang => Some(UnOp.Not)
    case Tilde => Some(UnOp.Complement)
    case _ => None
  }

  function Tail(ts: Toks): (r: Toks)
    requires ts[0] != End
    ensures |r| < |ts| && r == ts[1..]
  {
    ts[1..]
  }

  /** The outcome of an operator, as the rest of the evaluation sees it. */
  function Settle(o: Outcome, env: Env, ts: Toks): Eval {
    match o
    case Number(n) => Done(n, env, ts)
    case Faulty(f) => Thrown(f, env)
  }

  // ------------------------------------------------------------ productions

  function EvComma(ts: Toks, env: Env): (r: Eval)
    ensures r.Done? ==> |r.ts| < |ts|
    decreases |ts|, 20
  {
    match EvAssignment(ts, env)
    case Thrown(f, e) => Thrown(f, e)
    case Done(v, e, rest) => EvCommaRest(v, rest, e)
  }

  function EvCommaRest(v: int, ts: Toks, env: Env): (r: Eval)
    ensures r.Done? ==> |r.ts| <= |ts|
    decreases |ts|, 20
  {
    if ts[0] != Comma then Done(v, env, ts)
    else
      match EvAssignment(Tail(ts), env)
      case Thrown(f, e) => Thrown(f, e)
      case Done(w, e, rest) => EvCommaRest(w, rest, e)
  }

  predicate StartsAssignment(ts: Toks) {
    ts[0].Ident? && |ts| > 1 && ts[1].AssignOp?
  }

  function EvAssignment(ts: Toks, env: Env): (r: Eval)
    ensures r.Done? ==> |r.ts| < |ts|
    decreases |ts|, 19
  {
    if !StartsAssignment(ts) then EvConditional(ts, env)
    else
      match EvAssignment(Tail(Tail(ts)), env)
      case Thrown(f, e) => Thrown(f, e)
      case Done(rhs, e, rest) => StoreResult(ts[0].name, ts[1].compound, rhs, e, rest)
  }

  lemma AssignmentIs(ts: Toks, env: Env)
    ensures !StartsAssignment(ts) ==> EvAssignment(ts, env) == EvConditional(ts, env)
    ensures StartsAssignment(ts) ==>
              var r := EvAssignment(Tail(Tail(ts)), env);
              EvAssignment(ts, env) == if r.Done? then StoreResult(ts[0].name, ts[1].compound, r.v, r.env, r.ts) else r
  {
    hide EvConditional, StoreResult;
  }

  function StoreResult(name: string, compound: Option<BinOp>, rhs: int, env: Env, ts: Toks): Eval {
    match Assigned(compound, Lookup(env, name), rhs)
    case Faulty(f) => Thrown(f, env)
    case Number(n) =>
      match Store(env, name, n)
      case None => Thrown(ReadOnly, env)
      case Some(e) => Done(n, e, ts)
  }

  /** Both branches are evaluated, whatever the condition. */
  function EvConditional(ts: Toks, env: Env): (r: Eval)
    ensures r.Done? ==> |r.ts| < |ts|
    decreases |ts|, 18
  {
    match EvBinary(3, ts, env)
    case Thrown(f, e) => Thrown(f, e)
    case Done(c, e, rest) =>
      if rest[0] != Question then Done(c, e, rest)
      else
        match EvAssignment(Tail(rest), e)
        case Thrown(f, e1) => Thrown(f, e1)
        case Done(x, e1, rest1) =>
          if rest1[0] != Colon then Thrown(SyntaxError, e1)
          else
            match EvConditional(Tail(rest1), e1)
            case Thrown(f, e2) => Thrown(f, e2)
            case Done(y, e2, rest2) => Done(if c != 0 then x else y, e2, rest2)
  }

  /** parseLogicalOr (level 3) to parseMultiplicative (level 12); each calls the
      next, and the last calls parseUnary. */
  function EvBinary(level: nat, ts: Toks, env: Env): (r: Eval)
    requires 3 <= level <= 13
    ensures r.Done? ==> |r.ts| < |ts|
    decreases |ts|, 17 - level
  {
    if level == 13 then EvUnary(ts, env)
    else
      match EvBinary(level + 1, ts, env)
      case Thrown(f, e) => Thrown(f, e)
      case Done(v, e, rest) => EvBinaryRest(level, v, rest, e)
  }

  function EvBinaryRest(level: nat, v: int, ts: Toks, env: Env): (r: Eval)
    requires 3 <= level <= 12
    ensures r.Done? ==> |r.ts| <= |ts|
    decreases |ts|, 17 - level
  {
    if !(ts[0].Op? && Level(ts[0].op) == level) then Done(v, env, ts)
    else
      match EvBinary(level + 1, Tail(ts), env)
      case Thrown(f, e) => Thrown(f, e)
      case Done(w, e, rest) =>
        match Apply(ts[0].op, v, w)
        case Faulty(f) => Thrown(f, e)
        case Number(n) => EvBinaryRest(level, n, rest, e)
  }

  /** One turn of the loop over the operators of a level. */
  lemma BinaryTurn(level: nat, v: int, ts: Toks, env: Env)
    requires 3 <= level <= 12
    ensures !(ts[0].Op? && Level(ts[0].op) == level) ==> EvBinaryRest(level, v, ts, env) == Done(v, env, ts)
    ensures ts[0].Op? && Level(ts[0].op) == level ==>
              var w := EvBinary(level + 1, Tail(ts), env);
              && (w.Thrown? ==> EvBinaryRest(level, v, ts, env) == w)
              && (w.Done? ==>
                    var o := Apply(ts[0].op, v, w.v);
                    EvBinaryRest(level, v, ts, env)
                    == if o.Faulty? then Thrown(o.fault, w.env) else EvBinaryRest(level, o.n, w.ts, w.env))
  {
    hide EvBinary, Apply, Level;
  }

  function EvUnary(ts: Toks, env: Env): (r: Eval)
    ensures r.Done? ==> |r.ts| < |ts|
    decreases |ts|, 3
  {
    var op := UnaryOf(ts[0]);
    if op.None? then EvPrimary(ts, env)
    else
      match EvUnary(Tail(ts), env)
      case Thrown(f, e) => Thrown(f, e)
      case Done(v, e, rest) => Settle(ApplyUnary(op.value, v), e, rest)
  }

  function EvPrimary(ts: Toks, env: Env): (r: Eval)
    ensures r.Done? ==> |r.ts| < |ts|
    decreases |ts|, 2
  {
    match ts[0]
    case Num(n) => Done(n, env, Tail(ts))
    case Ident(name) => Done(Lookup(env, name), env, Tail(ts))
    case LParen =>
      (match EvComma(Tail(ts), env)
       case Thrown(f, e) => Thrown(f, e)
       case Done(v, e, rest) => if rest[0] == RParen then Done(v, e, Tail(rest)) else Thrown(SyntaxError, e))
    case _ => Thrown(SyntaxError, env)
  }

  /** run: a whole expression. */
  function EvRun(ts: Toks, env: Env): Eval {
    match EvComma(ts, env)
    case Thrown(f, e) => Thrown(f, e)
    case Done(v, e, rest) => if rest[0] == End then Done(v, e, rest) else Thrown(SyntaxError, e)
  }

  // -------------------------------------------------------- expression trees

  datatype Expr =
    | Literal(n: int)
    | Variable(name: string)
    | Unary(uop: UnOp, arg: Expr)
    | Binary(bop: BinOp, left: Expr, right: Expr)
    | Conditional(cond: Expr, yes: Expr, no: Expr)
    | Assign(compound: Option<BinOp>, name: string, rhs: Expr)
    | Sequence(first: Expr, second: Expr)

  datatype Denotation = Value(v: int, env: Env) | Fails(fault: Fault, env: Env)

  /** The eager left-to-right meaning of an expression. */
  function Meaning(e: Expr, env: Env): Denotation {
    match e
    case Literal(n) => Value(n, env)
    case Variable(name) => Value(Lookup(env, name), env)
    case Unary(op, arg) =>
      (match Meaning(arg, env)
       case Fails(f, e1) => Fails(f, e1)
       case Value(v, e1) => Concluded(ApplyUnary(op, v), e1))
    case Binary(op, left, right) =>
      (match Meaning(left, env)
       case Fails(f, e1) => Fails(f, e1)
       case Value(v, e1) =>
         match Meaning(right, e1)
         case Fails(f, e2) => Fails(f, e2)
         case Value(w, e2) => Concluded(Apply(op, v, w), e2))
    case Conditional(cond, yes, no) =>
      (match Meaning(cond, env)
       case Fails(f, e1) => Fails(f, e1)
       case Value(c, e1) =>
         match Meaning(yes, e1)
         case Fails(f, e2) => Fails(f, e2)
         case Value(x, e2) =>
           match Meaning(no, e2)
           case Fails(f, e3) => Fails(f, e3)
           case Value(y, e3) => Value(if c != 0 then x else y, e3))
    case Assign(compound, name, rhs) =>
      (match Meaning(rhs, env)
       case Fails(f, e1) => Fails(f, e1)
       case Value(v, e1) => StoreMeaning(compound, name, v, e1))
    case Sequence(first, second) =>
      (match Meaning(first, env)
       case Fails(f, e1) => Fails(f, e1)
       case Value(_, e1) => Meaning(second, e1))
  }

  function Concluded(o: Outcome, env: Env): Denotation {
    match o
    case Number(n) => Value(n, env)
    case Faulty(f) => Fails(f, env)
  }

  function StoreMeaning(compound: Option<BinOp>, name: string, rhs: int, env: Env): Denotation {
    match Assigned(compound, Lookup(env, name), rhs)
    case Faulty(f) => Fails(f, env)
    case Number(n) =>
      match Store(env, name, n)
      case None => Fails(ReadOnly, env)
      case Some(e) => Value(n, e)
  }

  /** What is stored is what is looked up afterwards; the others keep theirs, and
      exactly a read-only variable refuses. */
  lemma StoreThenLookup(env: Env, name: string, n: int)
    requires InRange(n)
    ensures Store(env, name, n).None? <==> name in env.readonly
    ensures name !in env.readonly ==>
              var after := Store(env, name, n).value;
              && Lookup(after, name) == n && after.readonly == env.readonly
              && forall other :: other != name ==>
                   Lookup(after, other) == Lookup(env, other) && (other in after.vars <==> other in env.vars)
                   && (other in env.vars ==> after.vars[other] == env.vars[other])
  {
    TextRoundTrip(n, true, INT64_MIN, INT64_MAX);
  }
}
