/** The recursive-descent parser as the program has it: a current token, a
    lookahead buffer, and here-documents whose bodies are read when the parser
    leaves a NEWLINE. Every production is proved to compute the function of the
    eager token stream that ParserSpec defines. */
module Parser {
  import opened Prelude
  import opened Numbers
  import opened Tokens
  import opened LexerSpec
  import opened Lexer
  import opened Ast
  import opened TokenStream
  import Spec = ParserSpec

  datatype Error = Thrown(error: Spec.Error) | LookaheadPastNewline

  /** What is pending, and whether a delimiter is due, after the tokens ts. */
  function After(pending: seq<HereDoc>, awaiting: Option<bool>, ts: seq<Token>): (seq<HereDoc>, Option<bool>)
    decreases |ts|
  {
    if ts == [] then (pending, awaiting)
    else After(Register(pending, awaiting, ts[0]), Awaiting(ts[0]), ts[1..])
  }

  lemma {:induction false} AfterSnoc(pending: seq<HereDoc>, awaiting: Option<bool>, ts: seq<Token>, t: Token)
    ensures var (p, a) := After(pending, awaiting, ts);
            After(pending, awaiting, ts + [t]) == (Register(p, a, t), Awaiting(t))
    decreases |ts|
  {
    if ts == [] {
      assert [t][1..] == [] && ts + [t] == [t];
    } else {
      assert (ts + [t])[1..] == ts[1..] + [t];
      AfterSnoc(Register(pending, awaiting, ts[0]), Awaiting(ts[0]), ts[1..], t);
    }
  }

  /** The part of the stream that the lexer has still to deliver after the
      tokens window, the last of which it has just delivered. */
  ghost function Unread(rest: string, pending: seq<HereDoc>, awaiting: Option<bool>, window: seq<Token>): (r: Lexed)
    requires window != []
    ensures r.clean ==> (window + r.ts)[|window| + |r.ts| - 1] == EndOfInput
  {
    var (p, a) := After(pending, awaiting, window);
    var last := window[|window| - 1];
    if last == EndOfInput then Lexed([], true, [])
    else if last == Newline then LexLine(rest, p)
    else LexAll(rest, p, a)
  }

  /** Delivering one more token moves it from the unread part to the window. */
  lemma UnreadNext(rest: string, pending: seq<HereDoc>, awaiting: Option<bool>, window: seq<Token>)
    requires window != [] && window[|window| - 1] != EndOfInput && window[|window| - 1] != Newline
    ensures match Next(rest)
            case Unterminated => Unread(rest, pending, awaiting, window) == Lexed([], false, [])
            case Got(t, rest') =>
              Unread(rest, pending, awaiting, window) == Cons(t, Unread(rest', pending, awaiting, window + [t]))
  {
    match Next(rest)
    case Unterminated =>
    case Got(t, rest') =>
      AfterSnoc(pending, awaiting, window, t);
      var w := window + [t];
      assert w[|w| - 1] == t;
  }

  predicate NoneBeyondNewline(window: seq<Token>) {
    forall i :: 0 <= i < |window| - 1 ==> window[i] != Newline && window[i] != EndOfInput
  }

  lemma ExtendWindow(window: seq<Token>, t: Token, rest: seq<Token>)
    requires window != [] && NoneBeyondNewline(window)
    requires window[|window| - 1] != Newline && window[|window| - 1] != EndOfInput
    ensures NoneBeyondNewline(window + [t])
    ensures window + ([t] + rest) == (window + [t]) + rest
  {
  }

  lemma DropFirst(window: seq<Token>, rest: seq<Token>)
    requires |window| > 1 && NoneBeyondNewline(window)
    ensures NoneBeyondNewline(window[1..]) && (window + rest)[1..] == window[1..] + rest
  {
    var tail := window[1..];
    assert forall i :: 0 <= i < |tail| ==> tail[i] == window[i + 1];
  }

  /** Once registered, a delimiter word is like any other word. */
  lemma UnreadRegistered(rest: string, pending: seq<HereDoc>, strip: bool, window: seq<Token>)
    requires window != [] && window[0].WordTok?
    ensures Unread(rest, pending, Some(strip), window)
         == Unread(rest, pending + [DocOf(strip, window[0].word)], None, window)
  {
  }

  lemma ShiftWindow(c: Token, t: Token, rest: seq<Token>)
    ensures ([c] + ([t] + rest))[1..] == [t] + rest && |[c] + ([t] + rest)| > 1
  {
  }

  /** Leaving the first token of a longer window. */
  lemma UnreadTail(rest: string, pending: seq<HereDoc>, awaiting: Option<bool>, window: seq<Token>)
    requires |window| > 1 && (awaiting.Some? ==> !window[0].WordTok?)
    ensures Unread(rest, pending, awaiting, window) == Unread(rest, pending, Awaiting(window[0]), window[1..])
  {
  }

  lemma UnreadSingle(rest: string, pending: seq<HereDoc>, awaiting: Option<bool>, t: Token)
    requires t != EndOfInput && (awaiting.Some? ==> !t.WordTok?)
    ensures Unread(rest, pending, awaiting, [t])
         == if t == Newline then LexLine(rest, pending) else LexAll(rest, pending, Awaiting(t))
  {
    AfterSnoc(pending, awaiting, [], t);
    assert [] + [t] == [t];
  }

  lemma UnreadFirst(rest: string, pending: seq<HereDoc>, awaiting: Option<bool>)
    ensures match Next(rest)
            case Unterminated => LexAll(rest, pending, awaiting) == Lexed([], false, [])
            case Got(t, rest') =>
              LexAll(rest, pending, awaiting) == Cons(t, Unread(rest', pending, awaiting, [t]))
  {
    match Next(rest)
    case Unterminated =>
    case Got(t, rest') =>
      AfterSnoc(pending, awaiting, [], t);
      assert [] + [t] == [t];
  }

  lemma LexLineRead(s: string, docs: seq<HereDoc>)
    ensures match ReadBodies(s, docs, [])
            case Unterminated => LexLine(s, docs) == Lexed([], false, [])
            case Got(bodies, rest) =>
              var more := LexAll(rest, [], None);
              LexLine(s, docs) == more.(bodies := bodies + more.bodies)
  {
  }

  class Parser {
    const lexer: Lexer
    var current: Token
    var lookahead: seq<Token>
    /** All here-documents registered, the bodies of the first of them, and the
        others, which await the end of the line. */
    var heredocs: seq<HereDoc>
    var bodies: seq<string>
    var pending: seq<HereDoc>
    /** Set between a here-document operator and its delimiter. */
    ghost var awaiting: Option<bool>
    ghost const expected: seq<string>
    /** The eager stream from the current token on. */
    ghost var st: Spec.State

    ghost function Window(): seq<Token>
      reads this
    {
      [current] + lookahead
    }

    ghost function Rest(): Lexed
      reads this, lexer
      requires lexer.pos <= |lexer.src|
    {
      Unread(lexer.Rest(), pending, awaiting, Window())
    }

    /** The lookahead buffer never holds a token beyond a NEWLINE. */
    ghost predicate Consistent()
      reads this, lexer
    {
      && lexer.Valid()
      && NoneBeyondNewline(Window())
      && |heredocs| == |bodies| + |pending|
      && heredocs[|bodies|..] == pending
      && bodies + Rest().bodies == expected
      && st == Spec.Stream(Window() + Rest().ts, Rest().clean, |heredocs|)
    }

    ghost predicate Valid()
      reads this, lexer
    {
      Consistent() && awaiting == None
    }

    constructor (l: Lexer, first: Token, ghost rest: string)
      requires l.Valid() && l.pos <= |l.src|
      requires Next(rest) == Got(first, l.Rest())
      ensures Valid() && lexer == l && bodies == [] && heredocs == []
      ensures var all := LexAll(rest, [], None);
              st == Spec.Stream(all.ts, all.clean, 0) && expected == all.bodies
    {
      lexer, current, lookahead := l, first, [];
      heredocs, bodies, pending, awaiting := [], [], [], None;
      var all := LexAll(rest, [], None);
      expected, st := all.bodies, Spec.Stream(all.ts, all.clean, 0);
      new;
      assert Window() == [first] && After([], None, [first]) == (Register([], None, first), Awaiting(first));
      assert LexAll(rest, [], None) == Cons(first, Rest());
      assert [] + Rest().bodies == Rest().bodies;
    }

    method ReadPendingBodies(docs: seq<HereDoc>) returns (r: Option<seq<string>>)
      requires lexer.Valid()
      modifies lexer
      ensures lexer.Valid()
      ensures match ReadBodies(old(lexer.Rest()), docs, [])
              case Unterminated => r == None
              case Got(read, rest) => r == Some(read) && lexer.Rest() == rest
    {
      hide HeredocBody, LineAfter, ColumnAfter;
      var read: seq<string> := [];
      var i := 0;
      while i < |docs|
        invariant lexer.Valid() && 0 <= i <= |docs|
        invariant ReadBodies(lexer.Rest(), docs[i..], read) == ReadBodies(old(lexer.Rest()), docs, [])
      {
        var body := lexer.ConsumeHeredocBody(docs[i].delimiter, docs[i].strip);
        if body.None? {
          return None;
        }
        read := read + [body.value];
        i := i + 1;
      }
      return Some(read);
    }

    /** Reads the bodies of the pending here-documents, in order, from the start
        of a line. */
    method DrainPending() returns (r: Result<(), Error>)
      requires lexer.Valid()
      modifies this`bodies, this`pending, lexer
      ensures lexer.Valid()
      ensures var line := LexLine(old(lexer.Rest()), old(pending));
              match r
              case Ok(_) =>
                var all := LexAll(lexer.Rest(), [], None);
                && line.ts == all.ts && line.clean == all.clean
                && old(bodies) + line.bodies == bodies + all.bodies
                && pending == [] && |bodies| == |old(bodies)| + |old(pending)|
              case Err(e) => e == Thrown(Spec.LexError) && line == Lexed([], false, [])
    {
      hide Next, ReadBodies, LexAll, LexLine, LineAfter, ColumnAfter;
      var docs := pending;
      pending := [];
      LexLineRead(lexer.Rest(), docs);
      var read := ReadPendingBodies(docs);
      if read.None? {
        return Err(Thrown(Spec.LexError));
      }
      bodies := bodies + read.value;
      ghost var more := LexAll(lexer.Rest(), [], None).bodies;
      assert old(bodies) + (read.value + more) == bodies + more;
      return Ok(());
    }

    /** Takes the next token from the lookahead buffer. */
    method TakeLookahead()
      requires Consistent() && lookahead != []
      requires awaiting.Some? ==> !current.WordTok?
      modifies this
      ensures Consistent() && awaiting == Awaiting(old(current))
      ensures st == old(st).(ts := old(st).ts[1..])
    {
      hide Next, LexAll, LexLine, NoneBeyondNewline, LineAfter, ColumnAfter, Unread;
      ghost var window := Window();
      UnreadTail(lexer.Rest(), pending, awaiting, window);
      DropFirst(window, Rest().ts);
      awaiting := Awaiting(current);
      st := st.(ts := st.ts[1..]);
      current, lookahead := lookahead[0], lookahead[1..];
      assert window[1..] == Window();
    }

    /** Brings the lexer to the start of the next token. */
    method LeaveCurrent() returns (r: Result<(), Error>)
      requires Consistent() && lookahead == [] && current != EndOfInput
      requires awaiting.Some? ==> !current.WordTok?
      modifies this`bodies, this`pending, lexer
      ensures lexer.Valid()
      ensures match r
              case Ok(_) =>
                var all := LexAll(lexer.Rest(), pending, Awaiting(current));
                && st == Spec.Stream([current] + all.ts, all.clean, |heredocs|) && bodies + all.bodies == expected
                && |heredocs| == |bodies| + |pending| && heredocs[|bodies|..] == pending
              case Err(e) => e == Thrown(Spec.LexError) && st.ts == [current] && !st.clean
    {
      hide Next, LexAll, LexLine, LineAfter, ColumnAfter, Unread;
      assert Window() == [current];
      UnreadSingle(lexer.Rest(), pending, awaiting, current);
      if current == Newline {
        r := DrainPending();
      } else {
        r := Ok(());
      }
    }

    /** Takes the next token from the lexer, after the pending here-documents. */
    method TakeFromLexer() returns (r: Result<(), Error>)
      requires Consistent() && lookahead == [] && current != EndOfInput
      requires awaiting.Some? ==> !current.WordTok?
      modifies this, lexer
      ensures match Spec.Advance(old(st))
              case Ok(s) => r == Ok(()) && Consistent() && st == s && awaiting == Awaiting(old(current))
              case Err(e) => r == Err(Thrown(e))
    {
      hide Next, LexAll, LexLine, LineAfter, ColumnAfter, Unread;
      var _ :- LeaveCurrent();
      UnreadFirst(lexer.Rest(), pending, Awaiting(current));
      var t := lexer.NextToken();
      if t.None? {
        return Err(Thrown(Spec.LexError));
      }
      awaiting := Awaiting(current);
      current := t.value;
      assert Window() == [current];
      ShiftWindow(old(current), current, Rest().ts);
      st := st.(ts := st.ts[1..]);
      return Ok(());
    }

    method Advance() returns (r: Result<(), Error>)
      requires Consistent() && current != EndOfInput
      requires awaiting.Some? ==> !current.WordTok?
      modifies this, lexer
      ensures match Spec.Advance(old(st))
              case Ok(s) => r == Ok(()) && Consistent() && st == s && awaiting == Awaiting(old(current))
              case Err(e) => r == Err(Thrown(e))
    {
      hide Unread, NoneBeyondNewline;
      if lookahead != [] {
        TakeLookahead();
        return Ok(());
      }
      r := TakeFromLexer();
    }

    /** Lexes one token into the lookahead buffer. */
    method BufferOne() returns (r: Result<(), Error>)
      requires Consistent() && Window()[|lookahead|] != Newline && Window()[|lookahead|] != EndOfInput
      modifies this, lexer
      ensures match Spec.Peek(old(st), |old(lookahead)| + 1)
              case Ok(t) =>
                && r == Ok(()) && lookahead == old(lookahead) + [t]
                && Consistent() && st == old(st) && awaiting == old(awaiting) && current == old(current)
              case Err(e) => r == Err(Thrown(e))
    {
      hide Next, LexAll, LexLine, LineAfter, ColumnAfter, NoneBeyondNewline, Unread;
      ghost var window := Window();
      UnreadNext(lexer.Rest(), pending, awaiting, window);
      var t := lexer.NextToken();
      if t.None? {
        return Err(Thrown(Spec.LexError));
      }
      lookahead := lookahead + [t.value];
      assert Window() == window + [t.value];
      ExtendWindow(window, t.value, Rest().ts);
      return Ok(());
    }

    method PeekAhead(n: nat) returns (r: Result<Token, Error>)
      requires Consistent() && n > 0
      requires current != Newline && current != EndOfInput
      requires n > 1 ==> |lookahead| >= n - 1 && lookahead[n - 2] != Newline && lookahead[n - 2] != EndOfInput
      modifies this, lexer
      ensures r != Err(LookaheadPastNewline)
      ensures match Spec.Peek(old(st), n)
              case Ok(t) => r == Ok(t) && |lookahead| >= n && lookahead[n - 1] == t
              case Err(e) => r == Err(Thrown(e))
      ensures r.Ok? ==> Consistent() && st == old(st) && awaiting == old(awaiting) && current == old(current)
    {
      hide Unread, NoneBeyondNewline;
      while |lookahead| < n
        invariant Consistent() && st == old(st) && awaiting == old(awaiting) && current == old(current)
        invariant |lookahead| >= n - 1
        invariant |lookahead| == n - 1 ==> lookahead == old(lookahead)
        decreases n - |lookahead|
      {
        if lookahead != [] && lookahead[|lookahead| - 1] == Newline {
          return Err(LookaheadPastNewline);
        }
        var _ :- BufferOne();
      }
      assert Window()[n] == lookahead[n - 1];
      return Ok(lookahead[n - 1]);
    }

    function Failure<T>(): Result<T, Error>
      reads this
    {
      Err(Thrown(Spec.SyntaxError(current == EndOfInput)))
    }

    method ExpectReservedWord(w: string) returns (r: Result<(), Error>)
      requires Valid()
      modifies this, lexer
      ensures match Spec.ExpectReserved(old(st), w)
              case Ok(s) => r == Ok(()) && Valid() && st == s
              case Err(e) => r == Err(Thrown(e))
    {
      hide Unread, NoneBeyondNewline;
      if !Spec.IsReserved(current, w) {
        return Failure();
      }
      r := Advance();
    }

    method ExpectOp(t: Token) returns (r: Result<(), Error>)
      requires Valid() && t != EndOfInput && Awaiting(t) == None
      modifies this, lexer
      ensures match Spec.ExpectOp(old(st), t)
              case Ok(s) => r == Ok(()) && Valid() && st == s
              case Err(e) => r == Err(Thrown(e))
    {
      hide Unread, NoneBeyondNewline;
      if current != t {
        return Failure();
      }
      r := Advance();
    }

    method SkipLinebreak() returns (r: Result<(), Error>)
      requires Valid()
      modifies this, lexer
      ensures match Spec.SkipLinebreak(old(st))
              case Ok(s) => r == Ok(()) && Valid() && st == s
              case Err(e) => r == Err(Thrown(e))
    {
      hide Unread, NoneBeyondNewline;
      while current == Newline
        invariant Valid()
        invariant Spec.SkipLinebreak(st) == Spec.SkipLinebreak(old(st))
        decreases |st.ts|
      {
        var _ :- Advance();
      }
      return Ok(());
    }

    method ExpectSequentialSep() returns (r: Result<(), Error>)
      requires Valid()
      modifies this, lexer
      ensures match Spec.SequentialSep(old(st))
              case Ok(s) => r == Ok(()) && Valid() && st == s
              case Err(e) => r == Err(Thrown(e))
    {
      hide Unread, NoneBeyondNewline;
      if current == Semi {
        var _ :- Advance();
        r := SkipLinebreak();
      } else if current == Newline {
        r := SkipLinebreak();
      } else {
        r := Failure();
      }
    }

    // ------------------------------------------------------- redirections

    /** Parks a here-document until the parser leaves the line. */
    method RegisterHereDoc(strip: bool) returns (target: Target)
      requires Consistent() && current.WordTok? && awaiting == Some(strip)
      modifies this
      ensures Valid() && current == old(current)
      ensures target == HereDocTarget(|old(heredocs)|, DocOf(strip, current.word))
      ensures st == old(st).(docs := old(st).docs + 1)
    {
      hide Next, LexAll, LexLine, LineAfter, ColumnAfter, NoneBeyondNewline, Unread, FlattenText;
      var doc := DocOf(strip, current.word);
      UnreadRegistered(lexer.Rest(), pending, strip, Window());
      target := HereDocTarget(|heredocs|, doc);
      pending := pending + [doc];
      heredocs := heredocs + [doc];
      st := st.(docs := st.docs + 1);
      awaiting := None;
      assert heredocs[|bodies|..] == old(heredocs)[|bodies|..] + [doc];
    }

    method ParseTarget(op: Token) returns (r: Result<Target, Error>)
      requires Consistent() && awaiting == Awaiting(op)
      modifies this, lexer
      ensures match Spec.ParseTarget(old(st), op)
              case Ok(p) => r == Ok(p.0) && Valid() && st == p.1
              case Err(e) => r == Err(Thrown(e))
    {
      hide Unread, NoneBeyondNewline, FlattenText, AnyQuoted;
      if !current.WordTok? {
        return Failure();
      }
      var target := WordTarget(current.word);
      if op == DLess || op == DLessDash {
        target := RegisterHereDoc(op == DLessDash);
      }
      var _ :- Advance();
      return Ok(target);
    }

    method ParseRedirect() returns (r: Result<Redirect, Error>)
      requires Valid()
      modifies this, lexer
      ensures match Spec.ParseRedirect(old(st))
              case Ok(p) => r == Ok(p.0) && Valid() && st == p.1
              case Err(e) => r == Err(Thrown(e))
    {
      hide Unread, NoneBeyondNewline, Spec.ParseTarget;
      var io := None;
      if current.IoNumber? {
        io := Some(DecimalValue(current.digits));
        var _ :- Advance();
      }
      var op := current;
      if !Spec.IsRedirectOp(op) {
        return Failure();
      }
      var _ :- Advance();
      var target :- ParseTarget(op);
      return Ok(Redirect(io, op, target));
    }

    method ParseRedirectList() returns (r: Result<seq<Redirect>, Error>)
      requires Valid()
      modifies this, lexer
      ensures match Spec.ParseRedirectList(old(st), [])
              case Ok(p) => r == Ok(p.0) && Valid() && st == p.1
              case Err(e) => r == Err(Thrown(e))
    {
      hide Unread, NoneBeyondNewline, Spec.ParseRedirect;
      var redirects: seq<Redirect> := [];
      while Spec.StartsRedirect(current)
        invariant Valid()
        invariant Spec.ParseRedirectList(st, redirects) == Spec.ParseRedirectList(old(st), [])
        decreases |st.ts|
      {
        var redirect :- ParseRedirect();
        redirects := redirects + [redirect];
      }
      return Ok(redirects);
    }

    // ----------------------------------------------------- simple commands

    method ParseSimpleCommand() returns (r: Result<SimpleCommand, Error>)
      requires Valid()
      modifies this, lexer
      ensures match Spec.ParseSimpleCommand(old(st), SimpleCommand([], [], []))
              case Ok(p) => r == Ok(p.0) && Valid() && st == p.1
              case Err(e) => r == Err(Thrown(e))
    {
      hide Unread, NoneBeyondNewline, Spec.ParseRedirect, Spec.TrySplitAssignment;
      var cmd := SimpleCommand([], [], []);
      var haveCmdName := false;
      while true
        invariant Valid() && haveCmdName == (cmd.words != [])
        invariant Spec.ParseSimpleCommand(st, cmd) == Spec.ParseSimpleCommand(old(st), SimpleCommand([], [], []))
        decreases |st.ts|
      {
        if Spec.StartsRedirect(current) {
          var redirect :- ParseRedirect();
          cmd := cmd.(redirects := cmd.redirects + [redirect]);
          continue;
        }
        if !current.WordTok? {
          break;
        }
        var w := current.word;
        if !haveCmdName {
          var split := Spec.TrySplitAssignment(w);
          if split.Some? {
            cmd := cmd.(assignments := cmd.assignments + [split.value]);
            var _ :- Advance();
            continue;
          }
        }
        cmd := cmd.(words := cmd.words + [w]);
        haveCmdName := true;
        var _ :- Advance();
      }
      if cmd.assignments == [] && cmd.words == [] && cmd.redirects == [] {
        return Failure();
      }
      return Ok(cmd);
    }

    method ParseWords() returns (r: Result<seq<Word>, Error>)
      requires Valid()
      modifies this, lexer
      ensures match Spec.ParseWords(old(st), [])
              case Ok(p) => r == Ok(p.0) && Valid() && st == p.1
              case Err(e) => r == Err(Thrown(e))
    {
      hide Unread, NoneBeyondNewline;
      var words: seq<Word> := [];
      while current.WordTok?
        invariant Valid()
        invariant Spec.ParseWords(st, words) == Spec.ParseWords(old(st), [])
        decreases |st.ts|
      {
        words := words + [current.word];
        var _ :- Advance();
      }
      return Ok(words);
    }

    method ParsePatternList() returns (r: Result<seq<Word>, Error>)
      requires Valid()
      modifies this, lexer
      ensures match Spec.ParsePatterns(old(st), [])
              case Ok(p) => r == Ok(p.0) && Valid() && st == p.1
              case Err(e) => r == Err(Thrown(e))
    {
      hide Unread, NoneBeyondNewline;
      if !current.WordTok? {
        return Failure();
      }
      ghost var s := st;
      var patterns := [current.word];
      assert [] + [current.word] == patterns;
      var _ :- Advance();
      while current == Pipe
        invariant Valid()
        invariant (if Spec.Cur(st) == Pipe then
                     match Spec.Advance(st) case Ok(s2) => Spec.ParsePatterns(s2, patterns) case Err(e) => Err(e)
                   else Ok((patterns, st))) == Spec.ParsePatterns(s, [])
        decreases |st.ts|
      {
        var _ :- Advance();
        if !current.WordTok? {
          return Failure();
        }
        patterns := patterns + [current.word];
        var _ :- Advance();
      }
      return Ok(patterns);
    }

    // -------------------------------------------------------------- lists

    method ParseCompoundList() returns (r: Result<List, Error>)
      requires Valid()
      modifies this, lexer
      ensures match Spec.ParseCompoundList(old(st))
              case Ok(p) => r == Ok(p.0) && Valid() && st == p.1
              case Err(e) => r == Err(Thrown(e))
      decreases |st.ts|, 9
    {
      hide Unread, NoneBeyondNewline, Spec.ParseTerm, Spec.SkipLinebreak;
      var _ :- SkipLinebreak();
      r := ParseTerm();
    }

    method ParseTerm() returns (r: Result<List, Error>)
      requires Valid()
      modifies this, lexer
      ensures match Spec.ParseTerm(old(st), [])
              case Ok(p) => r == Ok(p.0) && Valid() && st == p.1
              case Err(e) => r == Err(Thrown(e))
      decreases |st.ts|, 8
    {
      hide Unread, NoneBeyondNewline, Spec.ParseAndOr, Spec.ParseSeparator;
      var items: seq<ListItem> := [];
      while Spec.CanStartCommand(current)
        invariant Valid() && |st.ts| <= |old(st).ts|
        invariant Spec.ParseTerm(st, items) == Spec.ParseTerm(old(st), [])
        decreases |st.ts|
      {
        var andOr :- ParseAndOr();
        var sep :- ParseSeparator();
        items := items + [ListItem(andOr, sep)];
        if sep == NoSeparator {
          break;
        }
      }
      return Ok(List(items));
    }

    method ParseSeparator() returns (r: Result<Separator, Error>)
      requires Valid()
      modifies this, lexer
      ensures match Spec.ParseSeparator(old(st))
              case Ok(p) => r == Ok(p.0) && Valid() && st == p.1
              case Err(e) => r == Err(Thrown(e))
    {
      hide Unread, NoneBeyondNewline;
      var sep := NoSeparator;
      if current == Semi {
        sep := Sequential;
        var _ :- Advance();
      } else if current == And {
        sep := Async;
        var _ :- Advance();
      }
      var sawNewline := current == Newline;
      var _ :- SkipLinebreak();
      if sep == NoSeparator && sawNewline {
        sep := Sequential;
      }
      return Ok(sep);
    }

    method ParseAndOr() returns (r: Result<AndOr, Error>)
      requires Valid()
      modifies this, lexer
      ensures match Spec.ParseAndOr(old(st))
              case Ok(p) => r == Ok(p.0) && Valid() && st == p.1
              case Err(e) => r == Err(Thrown(e))
      decreases |st.ts|, 7
    {
      hide Unread, NoneBeyondNewline, Spec.ParsePipeline, Spec.SkipLinebreak;
      var first :- ParsePipeline();
      ghost var s := st;
      var rest: seq<AndOrPart> := [];
      while current == AndIf || current == OrIf
        invariant Valid() && |st.ts| <= |s.ts| < |old(st).ts|
        invariant Spec.ParseAndOrRest(st, rest) == Spec.ParseAndOrRest(s, [])
        decreases |st.ts|
      {
        var isAnd := current == AndIf;
        var _ :- Advance();
        var _ :- SkipLinebreak();
        var pipeline :- ParsePipeline();
        rest := rest + [AndOrPart(isAnd, pipeline)];
      }
      return Ok(AndOr(first, rest));
    }

    method ParsePipeline() returns (r: Result<Pipeline, Error>)
      requires Valid()
      modifies this, lexer
      ensures match Spec.ParsePipeline(old(st))
              case Ok(p) => r == Ok(p.0) && Valid() && st == p.1
              case Err(e) => r == Err(Thrown(e))
      decreases |st.ts|, 6
    {
      hide Unread, NoneBeyondNewline, Spec.ParseCommand, Spec.SkipLinebreak;
      var negated := false;
      if Spec.IsReserved(current, "!") {
        negated := true;
        var _ :- Advance();
      }
      var command :- ParseCommand();
      ghost var s := st;
      var commands := [command];
      while current == Pipe
        invariant Valid() && |st.ts| <= |s.ts| < |old(st).ts|
        invariant Spec.ParsePipelineRest(st, commands) == Spec.ParsePipelineRest(s, [command])
        decreases |st.ts|
      {
        var _ :- Advance();
        var _ :- SkipLinebreak();
        var next :- ParseCommand();
        commands := commands + [next];
      }
      return Ok(Pipeline(negated, commands));
    }

    method LooksLikeFunction() returns (r: Result<bool, Error>)
      requires Valid()
      modifies this, lexer
      ensures match Spec.LooksLikeFunction(old(st))
              case Ok(b) => r == Ok(b) && Valid() && st == old(st)
              case Err(e) => r == Err(Thrown(e))
    {
      hide Unread, NoneBeyondNewline, IsName;
      if !Spec.IsPlainName(current) {
        return Ok(false);
      }
      var t1 :- PeekAhead(1);
      if t1 != LParen {
        return Ok(false);
      }
      var t2 :- PeekAhead(2);
      return Ok(t2 == RParen);
    }

    method ParseCommand() returns (r: Result<Command, Error>)
      requires Valid()
      modifies this, lexer
      ensures match Spec.ParseCommand(old(st))
              case Ok(p) => r == Ok(p.0) && Valid() && st == p.1
              case Err(e) => r == Err(Thrown(e))
      decreases |st.ts|, 5
    {
      hide Unread, NoneBeyondNewline, Spec.ParseCompoundBody, Spec.ParseRedirectList,
           Spec.ParseFunctionDefinition, Spec.ParseSimpleCommand;
      if Spec.StartsCompound(current) {
        var body :- ParseCompoundCommandBody();
        var redirects :- ParseRedirectList();
        return Ok(Compound(body, redirects));
      }
      var isFunction :- LooksLikeFunction();
      if isFunction {
        r := ParseFunctionDefinition();
        return;
      }
      var cmd :- ParseSimpleCommand();
      return Ok(Simple(cmd));
    }

    method ParseFunctionDefinition() returns (r: Result<Command, Error>)
      requires Valid() && current.WordTok?
      modifies this, lexer
      ensures match Spec.ParseFunctionDefinition(old(st))
              case Ok(p) => r == Ok(p.0) && Valid() && st == p.1
              case Err(e) => r == Err(Thrown(e))
      decreases |st.ts|, 4
    {
      hide Unread, NoneBeyondNewline, Spec.ParseCompoundBody, Spec.ParseRedirectList, Spec.ExpectOp, Spec.SkipLinebreak;
      var name := UnquotedText(current.word);
      var _ :- Advance();
      var _ :- ExpectOp(LParen);
      var _ :- ExpectOp(RParen);
      var _ :- SkipLinebreak();
      var body :- ParseCompoundCommandBody();
      var redirects :- ParseRedirectList();
      return Ok(FunctionDefinition(name, body, redirects));
    }

    // -------------------------------------------------- compound commands

    method ParseCompoundCommandBody() returns (r: Result<CompoundCommand, Error>)
      requires Valid()
      modifies this, lexer
      ensures match Spec.ParseCompoundBody(old(st))
              case Ok(p) => r == Ok(p.0) && Valid() && st == p.1
              case Err(e) => r == Err(Thrown(e))
      decreases |st.ts|, 4
    {
      hide Unread, NoneBeyondNewline, Spec.ParseSubshell, Spec.ParseBraceGroup, Spec.ParseForClause,
           Spec.ParseCaseClause, Spec.ParseIfClause, Spec.ParseLoop;
      if current == LParen {
        r := ParseSubshell();
      } else if Spec.IsReserved(current, "{") {
        r := ParseBraceGroup();
      } else if Spec.IsReserved(current, "for") {
        r := ParseForClause();
      } else if Spec.IsReserved(current, "case") {
        r := ParseCaseClause();
      } else if Spec.IsReserved(current, "if") {
        r := ParseIfClause();
      } else if Spec.IsReserved(current, "while") {
        r := ParseLoop("while");
      } else if Spec.IsReserved(current, "until") {
        r := ParseLoop("until");
      } else {
        r := Failure();
      }
    }

    method ParseBraceGroup() returns (r: Result<CompoundCommand, Error>)
      requires Valid()
      modifies this, lexer
      ensures match Spec.ParseBraceGroup(old(st))
              case Ok(p) => r == Ok(p.0) && Valid() && st == p.1
              case Err(e) => r == Err(Thrown(e))
      decreases |st.ts|, 3
    {
      hide Unread, NoneBeyondNewline, Spec.ParseCompoundList, Spec.ExpectReserved;
      var _ :- ExpectReservedWord("{");
      var list :- ParseCompoundList();
      var _ :- ExpectReservedWord("}");
      return Ok(BraceGroup(list));
    }

    method ParseSubshell() returns (r: Result<CompoundCommand, Error>)
      requires Valid()
      modifies this, lexer
      ensures match Spec.ParseSubshell(old(st))
              case Ok(p) => r == Ok(p.0) && Valid() && st == p.1
              case Err(e) => r == Err(Thrown(e))
      decreases |st.ts|, 3
    {
      hide Unread, NoneBeyondNewline, Spec.ParseCompoundList, Spec.ExpectOp;
      var _ :- ExpectOp(LParen);
      var list :- ParseCompoundList();
      var _ :- ExpectOp(RParen);
      return Ok(Subshell(list));
    }

    method ParseDoGroup() returns (r: Result<List, Error>)
      requires Valid()
      modifies this, lexer
      ensures match Spec.ParseDoGroup(old(st))
              case Ok(p) => r == Ok(p.0) && Valid() && st == p.1
              case Err(e) => r == Err(Thrown(e))
      decreases |st.ts|, 3
    {
      hide Unread, NoneBeyondNewline, Spec.ParseCompoundList, Spec.ExpectReserved;
      var _ :- ExpectReservedWord("do");
      var list :- ParseCompoundList();
      var _ :- ExpectReservedWord("done");
      return Ok(list);
    }

    method ParseForWords() returns (r: Result<Option<seq<Word>>, Error>)
      requires Valid()
      modifies this, lexer
      ensures match Spec.ParseForWords(old(st))
              case Ok(p) => r == Ok(p.0) && Valid() && st == p.1
              case Err(e) => r == Err(Thrown(e))
    {
      hide Unread, NoneBeyondNewline, Spec.ParseWords, Spec.SequentialSep;
      if !Spec.IsReserved(current, "in") {
        return Ok(None);
      }
      var _ :- Advance();
      var words :- ParseWords();
      var _ :- ExpectSequentialSep();
      return Ok(Some(words));
    }

    method ParseForClause() returns (r: Result<CompoundCommand, Error>)
      requires Valid()
      modifies this, lexer
      ensures match Spec.ParseForClause(old(st))
              case Ok(p) => r == Ok(p.0) && Valid() && st == p.1
              case Err(e) => r == Err(Thrown(e))
      decreases |st.ts|, 3
    {
      hide Unread, NoneBeyondNewline, Spec.ParseForWords, Spec.ParseDoGroup, Spec.ExpectReserved, Spec.SkipLinebreak, IsName;
      var _ :- ExpectReservedWord("for");
      if !Spec.IsPlainName(current) {
        return Failure();
      }
      var name := UnquotedText(current.word);
      var _ :- Advance();
      if current == Semi {
        var _ :- Advance();
      }
      var _ :- SkipLinebreak();
      var words :- ParseForWords();
      var list :- ParseDoGroup();
      return Ok(ForClause(name, words, list));
    }

    method ParseCaseClause() returns (r: Result<CompoundCommand, Error>)
      requires Valid()
      modifies this, lexer
      ensures match Spec.ParseCaseClause(old(st))
              case Ok(p) => r == Ok(p.0) && Valid() && st == p.1
              case Err(e) => r == Err(Thrown(e))
      decreases |st.ts|, 3
    {
      hide Unread, NoneBeyondNewline, Spec.ParseCaseItems, Spec.ExpectReserved, Spec.SkipLinebreak;
      var _ :- ExpectReservedWord("case");
      if !current.WordTok? {
        return Failure();
      }
      var subject := current.word;
      var _ :- Advance();
      var _ :- SkipLinebreak();
      var _ :- ExpectReservedWord("in");
      var _ :- SkipLinebreak();
      var items :- ParseCaseItems();
      var _ :- ExpectReservedWord("esac");
      return Ok(CaseClause(subject, items));
    }

    method ParseCaseItem() returns (r: Result<CaseItem, Error>)
      requires Valid()
      modifies this, lexer
      ensures match Spec.ParseCaseItem(old(st))
              case Ok(p) => r == Ok(p.0) && Valid() && st == p.1
              case Err(e) => r == Err(Thrown(e))
      decreases |st.ts|, 10
    {
      hide Unread, NoneBeyondNewline, Spec.ParseCompoundList, Spec.ExpectOp, Spec.ParsePatterns;
      if current == LParen {
        var _ :- Advance();
      }
      var patterns :- ParsePatternList();
      var _ :- ExpectOp(RParen);
      var body :- ParseCompoundList();
      return Ok(CaseItem(patterns, body));
    }

    method ParseCaseItems() returns (r: Result<seq<CaseItem>, Error>)
      requires Valid()
      modifies this, lexer
      ensures match Spec.ParseCaseItems(old(st), [])
              case Ok(p) => r == Ok(p.0) && Valid() && st == p.1
              case Err(e) => r == Err(Thrown(e))
      decreases |st.ts|, 11
    {
      hide Unread, NoneBeyondNewline, Spec.ParseCaseItem, Spec.SkipLinebreak;
      var items: seq<CaseItem> := [];
      while !Spec.IsReserved(current, "esac")
        invariant Valid() && |st.ts| <= |old(st).ts|
        invariant Spec.ParseCaseItems(st, items) == Spec.ParseCaseItems(old(st), [])
        decreases |st.ts|
      {
        var item :- ParseCaseItem();
        items := items + [item];
        if current != DSemi {
          break;
        }
        var _ :- Advance();
        var _ :- SkipLinebreak();
      }
      return Ok(items);
    }

    method ParseBranch() returns (r: Result<Branch, Error>)
      requires Valid()
      modifies this, lexer
      ensures match Spec.ParseBranch(old(st))
              case Ok(p) => r == Ok(p.0) && Valid() && st == p.1
              case Err(e) => r == Err(Thrown(e))
      decreases |st.ts|, 10
    {
      hide Unread, NoneBeyondNewline, Spec.ParseCompoundList, Spec.ExpectReserved;
      var cond :- ParseCompoundList();
      var _ :- ExpectReservedWord("then");
      var body :- ParseCompoundList();
      return Ok(Branch(cond, body));
    }

    method ParseElse() returns (r: Result<Option<List>, Error>)
      requires Valid()
      modifies this, lexer
      ensures match Spec.ParseElse(old(st))
              case Ok(p) => r == Ok(p.0) && Valid() && st == p.1
              case Err(e) => r == Err(Thrown(e))
      decreases |st.ts|, 10
    {
      hide Unread, NoneBeyondNewline, Spec.ParseCompoundList;
      if !Spec.IsReserved(current, "else") {
        return Ok(None);
      }
      var _ :- Advance();
      var list :- ParseCompoundList();
      return Ok(Some(list));
    }

    method ParseIfClause() returns (r: Result<CompoundCommand, Error>)
      requires Valid()
      modifies this, lexer
      ensures match Spec.ParseIfClause(old(st))
              case Ok(p) => r == Ok(p.0) && Valid() && st == p.1
              case Err(e) => r == Err(Thrown(e))
      decreases |st.ts|, 3
    {
      hide Unread, NoneBeyondNewline, Spec.ParseBranch, Spec.ParseElse, Spec.ExpectReserved;
      var _ :- ExpectReservedWord("if");
      var branch :- ParseBranch();
      ghost var s := st;
      var branches := [branch];
      while Spec.IsReserved(current, "elif")
        invariant Valid() && |st.ts| <= |s.ts| < |old(st).ts|
        invariant Spec.ParseElifs(st, branches) == Spec.ParseElifs(s, [branch])
        decreases |st.ts|
      {
        var _ :- Advance();
        var next :- ParseBranch();
        branches := branches + [next];
      }
      var elseBranch :- ParseElse();
      var _ :- ExpectReservedWord("fi");
      return Ok(IfClause(branches, elseBranch));
    }

    /** parseWhileClause and parseUntilClause. */
    method ParseLoop(keyword: string) returns (r: Result<CompoundCommand, Error>)
      requires Valid()
      modifies this, lexer
      ensures match Spec.ParseLoop(old(st), keyword)
              case Ok(p) => r == Ok(p.0) && Valid() && st == p.1
              case Err(e) => r == Err(Thrown(e))
      decreases |st.ts|, 3
    {
      hide Unread, NoneBeyondNewline, Spec.ParseCompoundList, Spec.ParseDoGroup, Spec.ExpectReserved;
      var _ :- ExpectReservedWord(keyword);
      var cond :- ParseCompoundList();
      var list :- ParseDoGroup();
      return Ok(if keyword == "while" then WhileClause(cond, list) else UntilClause(cond, list));
    }

    method ParseProgram() returns (r: Result<List, Error>)
      requires Valid()
      modifies this, lexer
      ensures match Spec.ParseProgram(old(st))
              case Ok(list) => r == Ok(list) && Valid() && current == EndOfInput && bodies == expected
              case Err(e) => r == Err(Thrown(e))
    {
      var program :- ParseCompoundList();
      if current != EndOfInput {
        return Failure();
      }
      assert bodies + [] == bodies;
      return Ok(program);
    }
  }

  /** Parsing a source text, as a function of its eager stream. */
  function ParseStream(all: Lexed): Result<List, Spec.Error>
  {
    if all.ts == [] then Err(Spec.LexError) else Spec.ParseProgram(Spec.Stream(all.ts, all.clean, 0))
  }

  /** The lazy parser, with its lookahead and its postponed here-documents,
      agrees with reading all tokens and bodies first and parsing then. It
      terminates on every source and never looks past a NEWLINE. */
  method Parse(source: string) returns (r: Result<(List, seq<string>), Error>)
    ensures var all := LexAll(source, [], None);
            r == match ParseStream(all)
                 case Ok(list) => Ok((list, all.bodies))
                 case Err(e) => Err(Thrown(e))
  {
    var lexer := new Lexer(source);
    var first := lexer.NextToken();
    if first.None? {
      return Err(Thrown(Spec.LexError));
    }
    var parser := new Parser(lexer, first.value, source);
    var list :- parser.ParseProgram();
    return Ok((list, parser.bodies));
  }
}
