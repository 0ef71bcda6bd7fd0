/** A simple command written with its redirections anywhere among its words. */
module SimpleForms {
  import opened Prelude
  import opened Tokens
  import opened Ast
  import opened ParserSpec
  import opened ParserRoundTrip

  datatype Piece = Assigning(a: Assignment) | Saying(w: Word) | Redirecting(r: Redirect)

  function Write(ps: seq<Piece>, k: seq<Token>): (r: seq<Token>)
    ensures k != [] ==> r != []
  {
    if ps == [] then k
    else
      match ps[0]
      case Assigning(a) => [WordTok(AssignmentWord(a))] + Write(ps[1..], k)
      case Saying(w) => [WordTok(w)] + Write(ps[1..], k)
      case Redirecting(r) => EmitRedirect(r, Write(ps[1..], k))
  }

  function AssignmentsOf(ps: seq<Piece>): seq<Assignment> {
    if ps == [] then [] else (if ps[0].Assigning? then [ps[0].a] else []) + AssignmentsOf(ps[1..])
  }

  function WordsOf(ps: seq<Piece>): seq<Word> {
    if ps == [] then [] else (if ps[0].Saying? then [ps[0].w] else []) + WordsOf(ps[1..])
  }

  function RedirectsOf(ps: seq<Piece>): seq<Redirect> {
    if ps == [] then [] else (if ps[0].Redirecting? then [ps[0].r] else []) + RedirectsOf(ps[1..])
  }

  /** cmd and the pieces, each kind in order. */
  function With(cmd: SimpleCommand, ps: seq<Piece>): SimpleCommand {
    SimpleCommand(cmd.assignments + AssignmentsOf(ps), cmd.words + WordsOf(ps), cmd.redirects + RedirectsOf(ps))
  }

  /** After a word (said) no piece is an assignment; the first word does not look like
      one. */
  predicate Good(ps: seq<Piece>, said: bool) {
    ps != [] ==>
      && (match ps[0]
          case Assigning(a) => WellFormedAssignment(a) && !said
          case Saying(w) => said || TrySplitAssignment(w) == None
          case Redirecting(r) => WellFormedRedirect(r))
      && Good(ps[1..], said || ps[0].Saying?)
  }

  function Plus(cmd: SimpleCommand, p: Piece): SimpleCommand {
    match p
    case Assigning(a) => cmd.(assignments := cmd.assignments + [a])
    case Saying(w) => cmd.(words := cmd.words + [w])
    case Redirecting(r) => cmd.(redirects := cmd.redirects + [r])
  }

  lemma WithFirst(cmd: SimpleCommand, ps: seq<Piece>)
    requires ps != []
    ensures With(Plus(cmd, ps[0]), ps[1..]) == With(cmd, ps)
  {
    var xs, ws, rs := AssignmentsOf(ps[1..]), WordsOf(ps[1..]), RedirectsOf(ps[1..]);
    assert [] + xs == xs && [] + ws == ws && [] + rs == rs;
    match ps[0] {
      case Assigning(a) => assert cmd.assignments + [a] + xs == cmd.assignments + ([a] + xs);
      case Saying(w) => assert cmd.words + [w] + ws == cmd.words + ([w] + ws);
      case Redirecting(r) => assert cmd.redirects + [r] + rs == cmd.redirects + ([r] + rs);
    }
  }

  lemma WithNone(cmd: SimpleCommand)
    ensures With(cmd, []) == cmd
  {
  }

  lemma PieceStep(p: Piece, cmd: SimpleCommand, z: Stream, ps: seq<Piece>, k: seq<Token>)
    requires Good([p] + ps, cmd.words != []) && k != []
    ensures Good(ps, Plus(cmd, p).words != [])
    ensures ParseSimpleCommand(On(z, Write([p] + ps, k)), cmd) == ParseSimpleCommand(On(z, Write(ps, k)), Plus(cmd, p))
  {
    hide ParseSimpleCommand, EmitRedirect, AssignmentWord, TrySplitAssignment, WellFormedAssignment, WellFormedRedirect;
    assert ([p] + ps)[1..] == ps;
    match p {
      case Assigning(a) => AssignmentStep(a, cmd, z, Write(ps, k));
      case Saying(w) => SimpleWord(w, cmd, z, Write(ps, k));
      case Redirecting(r) => SimpleRedirect(r, cmd, z, Write(ps, k));
    }
  }

  lemma {:induction false} PiecesBack(ps: seq<Piece>, cmd: SimpleCommand, z: Stream, k: seq<Token>)
    requires Good(ps, cmd.words != []) && k != [] && EndsCommand(k[0])
    requires ps == [] ==> cmd != SimpleCommand([], [], [])
    ensures ParseSimpleCommand(On(z, Write(ps, k)), cmd) == Ok((With(cmd, ps), On(z, k)))
    decreases |ps|
  {
    hide ParseSimpleCommand, With, Good, EndsCommand;
    if ps == [] {
      WithNone(cmd);
      SimpleStops(cmd, z, k);
    } else {
      assert [ps[0]] + ps[1..] == ps;
      PieceStep(ps[0], cmd, z, ps[1..], k);
      PiecesBack(ps[1..], Plus(cmd, ps[0]), z, k);
      WithFirst(cmd, ps);
    }
  }

  lemma AssignmentStep(a: Assignment, cmd: SimpleCommand, z: Stream, k: seq<Token>)
    requires WellFormedAssignment(a) && cmd.words == [] && k != []
    ensures ParseSimpleCommand(On(z, [WordTok(AssignmentWord(a))] + k), cmd)
         == ParseSimpleCommand(On(z, k), cmd.(assignments := cmd.assignments + [a]))
  {
    hide ParseRedirect, TrySplitAssignment, AssignmentWord;
    Step(z, WordTok(AssignmentWord(a)), k);
    SplitBack(a);
  }

  /** A simple command in any order of its pieces: assignments, words and redirections
      come back, each kind in order. Only a first word may be taken for something else. */
  lemma SimpleInAnyOrder(ps: seq<Piece>, z: Stream, k: seq<Token>)
    requires Good(ps, false) && ps != [] && k != [] && EndsCommand(k[0])
    requires ps[0].Saying? ==> !StartsNoCommand(WordTok(ps[0].w))
    ensures ParseCommand(On(z, Write(ps, k)))
         == Ok((Simple(SimpleCommand(AssignmentsOf(ps), WordsOf(ps), RedirectsOf(ps))), On(z, k)))
  {
    hide ParseSimpleCommand, LooksLikeFunction, ParseCompoundBody, ParseFunctionDefinition, StartsNoCommand, Good, StartsCompound;
    WriteHead(ps, z, k);
    PiecesBack(ps, SimpleCommand([], [], []), z, k);
    assert [] + AssignmentsOf(ps) == AssignmentsOf(ps) && [] + WordsOf(ps) == WordsOf(ps);
    assert [] + RedirectsOf(ps) == RedirectsOf(ps);
  }

  lemma WriteHead(ps: seq<Piece>, z: Stream, k: seq<Token>)
    requires Good(ps, false) && ps != [] && k != [] && EndsCommand(k[0])
    requires ps[0].Saying? ==> !StartsNoCommand(WordTok(ps[0].w))
    ensures !StartsCompound(Write(ps, k)[0])
    ensures LooksLikeFunction(On(z, Write(ps, k))) == Ok(false)
  {
    hide TrySplitAssignment, AssignmentWord;
    match ps[0] {
      case Assigning(a) => SplitBack(a);
      case Saying(w) =>
        NoParenNext(ps[1..], true, k);
        assert Write(ps, k)[1] == Write(ps[1..], k)[0];
      case Redirecting(r) =>
    }
  }

  lemma NoParenNext(ps: seq<Piece>, said: bool, k: seq<Token>)
    requires Good(ps, said) && k != [] && EndsCommand(k[0])
    ensures Write(ps, k)[0] != LParen
  {
    hide AssignmentWord, TrySplitAssignment;
  }
}
