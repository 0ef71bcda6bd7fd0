/** The text inside `$( )`, `${ }` and `$(( ))` as a grammar, apart from the scanners
    that look for its end. */
module BalancedText {
  import opened Prelude
  import opened LexerSpec

  /** A character of text in double quotes or backquotes, or one after a backslash. */
  datatype Raw = One(c: char) | Pair(c: char)

  datatype Piece =
    | Plain(c: char)
    | Escaped(c: char)
    | Single(text: string)
    | Double(raw: seq<Raw>)
    | Back(raw: seq<Raw>)
    | Group(inner: seq<Piece>)

  datatype Dialect = InParens | InBraces | InArith

  function Opener(d: Dialect): string {
    if d.InBraces? then "${" else "("
  }

  function Closer(d: Dialect): string {
    if d.InBraces? then "}" else ")"
  }

  function PrintRaw(raw: seq<Raw>): string {
    if raw == [] then ""
    else (if raw[0].One? then [raw[0].c] else ['\\', raw[0].c]) + PrintRaw(raw[1..])
  }

  function PrintPiece(d: Dialect, p: Piece): (r: string)
    ensures r != ""
    decreases p, 0
  {
    match p
    case Plain(c) => [c]
    case Escaped(c) => ['\\', c]
    case Single(text) => "'" + text + "'"
    case Double(raw) => "\"" + PrintRaw(raw) + "\""
    case Back(raw) => "`" + PrintRaw(raw) + "`"
    case Group(inner) => Opener(d) + Print(d, inner) + Closer(d)
  }

  function Print(d: Dialect, ps: seq<Piece>): string
    decreases ps, 1
  {
    if ps == [] then "" else PrintPiece(d, ps[0]) + Print(d, ps[1..])
  }

  predicate ValidRaw(q: char, raw: seq<Raw>) {
    forall i :: 0 <= i < |raw| && raw[i].One? ==> raw[i].c != q && raw[i].c != '\\'
  }

  /** Characters that mean something of their own. In arithmetic backquotes do not. */
  predicate IsSpecial(d: Dialect, c: char) {
    c == '\\' || c == '\'' || c == '"' || match d
                                          case InParens => c == '`' || c == '(' || c == ')'
                                          case InBraces => c == '`' || c == '}'
                                          case InArith => c == '(' || c == ')'
  }

  predicate ValidPiece(d: Dialect, p: Piece, next: string)
    decreases p, 0
  {
    match p
    case Plain(c) => !IsSpecial(d, c) && (d.InBraces? && c == '$' ==> next == "" || next[0] != '{')
    case Escaped(_) => true
    case Single(text) => '\'' !in text
    case Double(raw) => ValidRaw('"', raw)
    case Back(raw) => !d.InArith? && ValidRaw('`', raw)
    case Group(inner) => Valid(d, inner)
  }

  /** The pieces stand before a closer. */
  predicate Valid(d: Dialect, ps: seq<Piece>)
    decreases ps, 1
  {
    ps != [] ==> ValidPiece(d, ps[0], Print(d, ps[1..]) + Closer(d)) && Valid(d, ps[1..])
  }

  /** Text with every quote, backquote and parenthesis (or `${`) closed. */
  ghost predicate IsBalanced(d: Dialect, text: string) {
    exists ps :: Valid(d, ps) && Print(d, ps) == text
  }

  // ------------------------------------------------ the scanners take it whole

  lemma {:induction false} RawScan(q: char, raw: seq<Raw>, rest: string, buffer: string)
    requires ValidRaw(q, raw) && q != '\\'
    ensures RawUntil(q, true, PrintRaw(raw) + ([q] + rest), buffer) == Got(buffer + PrintRaw(raw) + [q], rest)
    decreases |raw|
  {
    var s := PrintRaw(raw) + ([q] + rest);
    if raw == [] {
      assert s[0] == q && s[1..] == rest && buffer + "" == buffer;
    } else {
      var first, more := if raw[0].One? then [raw[0].c] else ['\\', raw[0].c], PrintRaw(raw[1..]);
      assert s == first + (more + ([q] + rest));
      RawStep(q, raw[0], more + ([q] + rest), buffer);
      RawScan(q, raw[1..], rest, buffer + first);
      assert buffer + first + more == buffer + PrintRaw(raw);
    }
  }

  lemma RawStep(q: char, r: Raw, more: string, buffer: string)
    requires q != '\\' && (r.One? ==> r.c != q && r.c != '\\') && more != ""
    ensures var first := if r.One? then [r.c] else ['\\', r.c];
            RawUntil(q, true, first + more, buffer) == RawUntil(q, true, more, buffer + first)
  {
    if r.One? {
      assert ([r.c] + more)[1..] == more;
    } else {
      assert (['\\', r.c] + more)[2..] == more && buffer + ['\\'] + [r.c] == buffer + ['\\', r.c];
    }
  }

  lemma {:induction false} SingleScan(text: string, rest: string, buffer: string)
    requires '\'' !in text
    ensures RawUntil('\'', false, text + "'" + rest, buffer) == Got(buffer + text + "'", rest)
    decreases |text|
  {
    var s := text + "'" + rest;
    if text == "" {
      assert s[0] == '\'' && s[1..] == rest && buffer + "" == buffer;
    } else {
      assert s[0] == text[0] && s[1..] == text[1..] + "'" + rest;
      SingleScan(text[1..], rest, buffer + [text[0]]);
      assert buffer + [text[0]] + text[1..] == buffer + text;
    }
  }

  /** What the quoted text of a piece is to the scan that copies it. */
  lemma QuotedScan(d: Dialect, p: Piece, rest: string, buffer: string)
    requires (p.Single? || p.Double? || p.Back?) && ValidPiece(d, p, rest)
    ensures var s := PrintPiece(d, p) + rest;
            var q := if p.Single? then '\'' else if p.Double? then '"' else '`';
            && s[0] == q
            && RawUntil(q, q != '\'', s[1..], buffer + [q]) == Got(buffer + PrintPiece(d, p), rest)
  {
    hide RawUntil, PrintRaw;
    var s := PrintPiece(d, p) + rest;
    var q := s[0];
    if p.Single? {
      assert s[1..] == p.text + "'" + rest;
      SingleScan(p.text, rest, buffer + [q]);
      assert buffer + [q] + p.text + "'" == buffer + PrintPiece(d, p);
    } else {
      assert s[1..] == PrintRaw(p.raw) + ([q] + rest);
      RawScan(q, p.raw, rest, buffer + [q]);
      assert buffer + [q] + PrintRaw(p.raw) + [q] == buffer + PrintPiece(d, p);
    }
  }

  lemma PrintCons(d: Dialect, ps: seq<Piece>, rest: string)
    requires ps != []
    ensures Print(d, ps) + rest == PrintPiece(d, ps[0]) + (Print(d, ps[1..]) + rest)
  {
  }

  lemma GroupIs(d: Dialect, p: Piece, rest: string)
    requires p.Group?
    ensures PrintPiece(d, p) + rest == Opener(d) + (Print(d, p.inner) + (Closer(d) + rest))
  {
  }

  lemma {:induction false} ParensPiece(p: Piece, rest: string, depth: nat, buffer: string)
    requires depth > 0 && ValidPiece(InParens, p, rest)
    ensures BalancedParens(PrintPiece(InParens, p) + rest, depth, buffer)
         == BalancedParens(rest, depth, buffer + PrintPiece(InParens, p))
    decreases p, 0
  {
    var s := PrintPiece(InParens, p) + rest;
    match p {
      case Plain(c) => assert s[0] == c && s[1..] == rest;
      case Escaped(c) =>
        assert s[0] == '\\' && s[1] == c && s[2..] == rest;
        assert buffer + ['\\'] + [c] == buffer + ['\\', c];
      case Group(inner) =>
        hide BalancedParens;
        GroupIs(InParens, p, rest);
        var body := Print(InParens, inner) + (")" + rest);
        assert s[0] == '(' && s[1..] == body;
        OpenParen(s, depth, buffer);
        ParensScan(inner, ")" + rest, depth + 1, buffer + "(");
        CloseParen(rest, depth + 1, buffer + "(" + Print(InParens, inner));
        assert buffer + "(" + Print(InParens, inner) + ")" == buffer + PrintPiece(InParens, p);
      case _ => QuotedScan(InParens, p, rest, buffer);
    }
  }

  lemma OpenParen(s: string, depth: nat, buffer: string)
    requires depth > 0 && s != "" && s[0] == '('
    ensures BalancedParens(s, depth, buffer) == BalancedParens(s[1..], depth + 1, buffer + "(")
  {
  }

  lemma CloseParen(rest: string, depth: nat, buffer: string)
    requires depth > 0
    ensures BalancedParens(")" + rest, depth, buffer)
         == if depth == 1 then Got(buffer, rest) else BalancedParens(rest, depth - 1, buffer + ")")
  {
    assert (")" + rest)[1..] == rest;
  }

  lemma {:induction false} ParensScan(ps: seq<Piece>, rest: string, depth: nat, buffer: string)
    requires depth > 0 && Valid(InParens, ps)
    ensures BalancedParens(Print(InParens, ps) + rest, depth, buffer)
         == BalancedParens(rest, depth, buffer + Print(InParens, ps))
    decreases ps, 1
  {
    hide BalancedParens, PrintPiece;
    if ps == [] {
      assert Print(InParens, ps) + rest == rest && buffer + "" == buffer;
    } else {
      PrintCons(InParens, ps, rest);
      AnyNext(ps[0], Print(InParens, ps[1..]) + Closer(InParens), Print(InParens, ps[1..]) + rest, InParens);
      ParensPiece(ps[0], Print(InParens, ps[1..]) + rest, depth, buffer);
      ParensScan(ps[1..], rest, depth, buffer + PrintPiece(InParens, ps[0]));
      assert buffer + PrintPiece(InParens, ps[0]) + Print(InParens, ps[1..]) == buffer + Print(InParens, ps);
    }
  }

  lemma AnyNext(p: Piece, next: string, other: string, d: Dialect)
    requires ValidPiece(d, p, next) && (!d.InBraces? || (next != "" && other != "" && next[0] == other[0]))
    ensures ValidPiece(d, p, other)
  {
  }

  /** For any pieces: the scan from inside takes exactly their text, whatever follows. */
  lemma ParensTakePieces(ps: seq<Piece>, after: string)
    requires Valid(InParens, ps)
    ensures BalancedParens(Print(InParens, ps) + ")" + after, 1, "") == Got(Print(InParens, ps), after)
  {
    hide BalancedParens;
    var text := Print(InParens, ps);
    assert text + ")" + after == text + (")" + after) && "" + text == text;
    ParensScan(ps, ")" + after, 1, "");
    CloseParen(after, 1, text);
  }

  lemma {:induction false} BracesPiece(p: Piece, rest: string, depth: nat, buffer: string)
    requires depth > 0 && ValidPiece(InBraces, p, rest)
    ensures BalancedBraces(PrintPiece(InBraces, p) + rest, depth, buffer)
         == BalancedBraces(rest, depth, buffer + PrintPiece(InBraces, p))
    decreases p, 0
  {
    var s := PrintPiece(InBraces, p) + rest;
    match p {
      case Plain(c) =>
        assert s[0] == c && s[1..] == rest;
      case Escaped(c) =>
        assert s[0] == '\\' && s[1] == c && s[2..] == rest;
        assert buffer + ['\\'] + [c] == buffer + ['\\', c];
      case Group(inner) =>
        hide BalancedBraces;
        GroupIs(InBraces, p, rest);
        var body := Print(InBraces, inner) + ("}" + rest);
        assert s[0] == '$' && s[1] == '{' && s[2..] == body;
        OpenBrace(s, depth, buffer);
        BracesScan(inner, "}" + rest, depth + 1, buffer + "${");
        CloseBrace(rest, depth + 1, buffer + "${" + Print(InBraces, inner));
        assert buffer + "${" + Print(InBraces, inner) + "}" == buffer + PrintPiece(InBraces, p);
      case _ => QuotedScan(InBraces, p, rest, buffer);
    }
  }

  lemma OpenBrace(s: string, depth: nat, buffer: string)
    requires depth > 0 && |s| > 1 && s[0] == '$' && s[1] == '{'
    ensures BalancedBraces(s, depth, buffer) == BalancedBraces(s[2..], depth + 1, buffer + "${")
  {
    assert buffer + ['$'] + ['{'] == buffer + "${";
  }

  lemma CloseBrace(rest: string, depth: nat, buffer: string)
    requires depth > 0
    ensures BalancedBraces("}" + rest, depth, buffer)
         == if depth == 1 then Got(buffer, rest) else BalancedBraces(rest, depth - 1, buffer + "}")
  {
    assert ("}" + rest)[1..] == rest;
  }

  lemma {:induction false} BracesScan(ps: seq<Piece>, rest: string, depth: nat, buffer: string)
    requires depth > 0 && Valid(InBraces, ps) && rest != "" && rest[0] == '}'
    ensures BalancedBraces(Print(InBraces, ps) + rest, depth, buffer)
         == BalancedBraces(rest, depth, buffer + Print(InBraces, ps))
    decreases ps, 1
  {
    hide BalancedBraces, PrintPiece;
    if ps == [] {
      assert Print(InBraces, ps) + rest == rest && buffer + "" == buffer;
    } else {
      PrintCons(InBraces, ps, rest);
      AnyNext(ps[0], Print(InBraces, ps[1..]) + Closer(InBraces), Print(InBraces, ps[1..]) + rest, InBraces);
      BracesPiece(ps[0], Print(InBraces, ps[1..]) + rest, depth, buffer);
      BracesScan(ps[1..], rest, depth, buffer + PrintPiece(InBraces, ps[0]));
      assert buffer + PrintPiece(InBraces, ps[0]) + Print(InBraces, ps[1..]) == buffer + Print(InBraces, ps);
    }
  }

  lemma BracesTakePieces(ps: seq<Piece>, after: string)
    requires Valid(InBraces, ps)
    ensures BalancedBraces(Print(InBraces, ps) + "}" + after, 1, "") == Got(Print(InBraces, ps), after)
  {
    hide BalancedBraces;
    var text := Print(InBraces, ps);
    assert text + "}" + after == text + ("}" + after) && "" + text == text;
    BracesScan(ps, "}" + after, 1, "");
    CloseBrace(after, 1, text);
  }

  lemma {:induction false} ArithPiece(p: Piece, rest: string, depth: nat, buffer: string)
    requires ValidPiece(InArith, p, rest)
    ensures ArithScan(PrintPiece(InArith, p) + rest, depth, buffer)
         == ArithScan(rest, depth, buffer + PrintPiece(InArith, p))
    decreases p, 0
  {
    var s := PrintPiece(InArith, p) + rest;
    match p {
      case Plain(c) => assert s[0] == c && s[1..] == rest;
      case Escaped(c) =>
        assert s[0] == '\\' && s[1] == c && s[2..] == rest;
        assert buffer + ['\\'] + [c] == buffer + ['\\', c];
      case Group(inner) =>
        hide ArithScan;
        GroupIs(InArith, p, rest);
        var body := Print(InArith, inner) + (")" + rest);
        assert s[0] == '(' && s[1..] == body;
        OpenArith(s, depth, buffer);
        ArithPieces(inner, ")" + rest, depth + 1, buffer + "(");
        CloseArith(rest, depth + 1, buffer + "(" + Print(InArith, inner));
        assert buffer + "(" + Print(InArith, inner) + ")" == buffer + PrintPiece(InArith, p);
      case _ => QuotedScan(InArith, p, rest, buffer);
    }
  }

  lemma OpenArith(s: string, depth: nat, buffer: string)
    requires s != "" && s[0] == '('
    ensures ArithScan(s, depth, buffer) == ArithScan(s[1..], depth + 1, buffer + "(")
  {
  }

  lemma CloseArith(rest: string, depth: nat, buffer: string)
    ensures ArithScan(")" + rest, depth, buffer)
         == if depth > 0 then ArithScan(rest, depth - 1, buffer + ")")
            else if rest == "" then RanOut
            else if rest[0] == ')' then Closed(buffer, rest[1..])
            else Broken
  {
    assert (")" + rest)[1..] == rest;
    assert rest != "" ==> (")" + rest)[2..] == rest[1..];
  }

  lemma {:induction false} ArithPieces(ps: seq<Piece>, rest: string, depth: nat, buffer: string)
    requires Valid(InArith, ps)
    ensures ArithScan(Print(InArith, ps) + rest, depth, buffer) == ArithScan(rest, depth, buffer + Print(InArith, ps))
    decreases ps, 1
  {
    hide ArithScan, PrintPiece;
    if ps == [] {
      assert Print(InArith, ps) + rest == rest && buffer + "" == buffer;
    } else {
      PrintCons(InArith, ps, rest);
      AnyNext(ps[0], Print(InArith, ps[1..]) + Closer(InArith), Print(InArith, ps[1..]) + rest, InArith);
      ArithPiece(ps[0], Print(InArith, ps[1..]) + rest, depth, buffer);
      ArithPieces(ps[1..], rest, depth, buffer + PrintPiece(InArith, ps[0]));
      assert buffer + PrintPiece(InArith, ps[0]) + Print(InArith, ps[1..]) == buffer + Print(InArith, ps);
    }
  }

  /** Arithmetic is the text up to `))`; a lone `)` there breaks it off, and the end of
      the input leaves it undecided. */
  lemma ArithTakesPieces(ps: seq<Piece>, after: string)
    requires Valid(InArith, ps)
    ensures ArithScan(Print(InArith, ps) + "))" + after, 0, "") == Closed(Print(InArith, ps), after)
    ensures after != "" && after[0] != ')' ==> ArithScan(Print(InArith, ps) + ")" + after, 0, "") == Broken
    ensures ArithScan(Print(InArith, ps), 0, "") == RanOut == ArithScan(Print(InArith, ps) + ")", 0, "")
  {
    hide ArithScan;
    var text := Print(InArith, ps);
    assert text + "))" + after == text + (")" + (")" + after)) && text + ")" + after == text + (")" + after) && "" + text == text;
    assert (")" + after)[1..] == after && text + ")" == text + (")" + "") && text + "" == text;
    ArithPieces(ps, ")" + (")" + after), 0, "");
    ArithPieces(ps, ")" + after, 0, "");
    ArithPieces(ps, ")" + "", 0, "");
    ArithPieces(ps, "", 0, "");
    CloseArith(")" + after, 0, text);
    CloseArith(after, 0, text);
    CloseArith("", 0, text);
    NothingLeft(text);
  }

  lemma NothingLeft(buffer: string)
    ensures ArithScan("", 0, buffer) == RanOut
  {
  }

  // --------------------------------------- what they take is made of pieces

  lemma {:induction false} RawFrom(q: char, s: string, buffer: string) returns (raw: seq<Raw>)
    requires q != '\\' && RawUntil(q, true, s, buffer).Got?
    ensures ValidRaw(q, raw) && RawUntil(q, true, s, buffer).value == buffer + PrintRaw(raw) + [q]
    decreases |s|
  {
    if s[0] == '\\' {
      raw := RawFrom(q, s[2..], buffer + [s[0]] + [s[1]]);
      raw := [Pair(s[1])] + raw;
      assert buffer + ['\\'] + [s[1]] + PrintRaw(raw[1..]) == buffer + PrintRaw(raw);
    } else if s[0] == q {
      raw := [];
      assert buffer + "" + [q] == buffer + [q];
    } else {
      raw := RawFrom(q, s[1..], buffer + [s[0]]);
      raw := [One(s[0])] + raw;
      assert buffer + [s[0]] + PrintRaw(raw[1..]) == buffer + PrintRaw(raw);
    }
  }

  lemma {:induction false} SingleFrom(s: string, buffer: string) returns (text: string)
    requires RawUntil('\'', false, s, buffer).Got?
    ensures '\'' !in text && RawUntil('\'', false, s, buffer).value == buffer + text + "'"
    decreases |s|
  {
    if s[0] == '\'' {
      text := "";
      assert buffer + "" + "'" == buffer + ['\''];
    } else {
      text := SingleFrom(s[1..], buffer + [s[0]]);
      assert buffer + [s[0]] + text == buffer + ([s[0]] + text);
      text := [s[0]] + text;
    }
  }

  lemma QuotedFrom(d: Dialect, s: string, buffer: string) returns (p: Piece)
    requires s != "" && (s[0] == '\'' || s[0] == '"' || (s[0] == '`' && !d.InArith?))
    requires RawUntil(s[0], s[0] != '\'', s[1..], buffer + [s[0]]).Got?
    ensures (forall next :: ValidPiece(d, p, next))
    ensures RawUntil(s[0], s[0] != '\'', s[1..], buffer + [s[0]]).value == buffer + PrintPiece(d, p)
  {
    hide RawUntil, PrintRaw;
    var q := s[0];
    if q == '\'' {
      var text := SingleFrom(s[1..], buffer + [q]);
      p := Single(text);
      assert buffer + [q] + text + "'" == buffer + PrintPiece(d, p);
    } else {
      var raw := RawFrom(q, s[1..], buffer + [q]);
      p := if q == '"' then Double(raw) else Back(raw);
      assert buffer + [q] + PrintRaw(raw) + [q] == buffer + PrintPiece(d, p);
    }
  }

  /** The open levels of a scan, the innermost first: the pieces still to come in each. */
  function Levels(d: Dialect, levels: seq<seq<Piece>>): string {
    if levels == [] then ""
    else Print(d, levels[0]) + if |levels| == 1 then "" else Closer(d) + Levels(d, levels[1..])
  }

  predicate AllValid(d: Dialect, levels: seq<seq<Piece>>) {
    forall i :: 0 <= i < |levels| ==> Valid(d, levels[i])
  }

  lemma LevelsFirst(d: Dialect, levels: seq<seq<Piece>>)
    requires levels != []
    ensures Levels(d, levels) == Print(d, levels[0]) + if |levels| == 1 then "" else Closer(d) + Levels(d, levels[1..])
  {
  }

  /** One more piece at the front of the innermost level. */
  lemma AddPiece(d: Dialect, p: Piece, levels: seq<seq<Piece>>, buffer: string) returns (more: seq<seq<Piece>>)
    requires levels != [] && AllValid(d, levels) && ValidPiece(d, p, Print(d, levels[0]) + Closer(d))
    ensures |more| == |levels| && AllValid(d, more)
    ensures buffer + Levels(d, more) == buffer + PrintPiece(d, p) + Levels(d, levels)
  {
    hide PrintPiece, ValidPiece, Levels, Closer;
    more := [[p] + levels[0]] + levels[1..];
    assert ([p] + levels[0])[1..] == levels[0] && more[1..] == levels[1..];
    assert Valid(d, [p] + levels[0]);
    LevelsFirst(d, levels);
    LevelsFirst(d, more);
    var tail := if |levels| == 1 then "" else Closer(d) + Levels(d, levels[1..]);
    assert Print(d, more[0]) == PrintPiece(d, p) + Print(d, levels[0]);
    assert buffer + (PrintPiece(d, p) + Print(d, levels[0]) + tail) == buffer + PrintPiece(d, p) + (Print(d, levels[0]) + tail);
  }

  /** An opener: the innermost level becomes a group of the next. */
  lemma AddGroup(d: Dialect, levels: seq<seq<Piece>>, buffer: string) returns (more: seq<seq<Piece>>)
    requires |levels| > 1 && AllValid(d, levels)
    ensures |more| == |levels| - 1 && AllValid(d, more)
    ensures buffer + Levels(d, more) == buffer + Opener(d) + Levels(d, levels)
  {
    hide Print, Levels;
    var p := Group(levels[0]);
    assert AllValid(d, levels[1..]);
    more := AddPiece(d, p, levels[1..], buffer);
    LevelsSplit(d, levels);
    GroupIs(d, p, Levels(d, levels[1..]));
    assert buffer + PrintPiece(d, p) + Levels(d, levels[1..]) == buffer + (PrintPiece(d, p) + Levels(d, levels[1..]));
  }

  lemma LevelsSplit(d: Dialect, levels: seq<seq<Piece>>)
    requires |levels| > 1
    ensures Levels(d, levels) == Print(d, levels[0]) + (Closer(d) + Levels(d, levels[1..]))
  {
  }

  lemma AddLevel(d: Dialect, levels: seq<seq<Piece>>, buffer: string)
    requires levels != [] && AllValid(d, levels)
    ensures AllValid(d, [[]] + levels) && buffer + Levels(d, [[]] + levels) == buffer + Closer(d) + Levels(d, levels)
  {
    hide Levels, Print, Closer;
    var more := [[]] + levels;
    assert more[1..] == levels && more[0] == [] && Valid(d, []);
    LevelsSplit(d, more);
    NoPieces(d);
    assert "" + (Closer(d) + Levels(d, levels)) == Closer(d) + Levels(d, levels);
    assert buffer + (Closer(d) + Levels(d, levels)) == buffer + Closer(d) + Levels(d, levels);
  }

  lemma NoPieces(d: Dialect)
    ensures Print(d, []) == ""
  {
  }

  lemma OneLevel(d: Dialect)
    ensures AllValid(d, [[]]) && Levels(d, [[]]) == ""
  {
    assert Valid(d, []);
  }

  /** Whatever the scan for `)` takes, at any depth, is made of pieces. */
  lemma {:induction false} ParensFrom(s: string, depth: nat, buffer: string) returns (levels: seq<seq<Piece>>)
    requires depth > 0 && BalancedParens(s, depth, buffer).Got?
    ensures |levels| == depth && AllValid(InParens, levels)
    ensures BalancedParens(s, depth, buffer).value == buffer + Levels(InParens, levels)
    decreases |s|
  {
    hide Levels, AllValid, Print;
    var c := s[0];
    if c == '\\' {
      levels := ParensFrom(s[2..], depth, buffer + [c] + [s[1]]);
      levels := AddPiece(InParens, Escaped(s[1]), levels, buffer);
      assert buffer + [c] + [s[1]] == buffer + PrintPiece(InParens, Escaped(s[1]));
    } else if c == '\'' || c == '"' || c == '`' {
      var p := QuotedFrom(InParens, s, buffer);
      var r := RawUntil(c, c != '\'', s[1..], buffer + [c]);
      levels := ParensFrom(r.rest, depth, r.value);
      assert ValidPiece(InParens, p, Print(InParens, levels[0]) + Closer(InParens));
      levels := AddPiece(InParens, p, levels, buffer);
    } else if c == '(' {
      levels := ParensFrom(s[1..], depth + 1, buffer + [c]);
      levels := AddGroup(InParens, levels, buffer);
    } else if c == ')' {
      if depth == 1 {
        levels := [[]];
        OneLevel(InParens);
        assert buffer + "" == buffer;
      } else {
        levels := ParensFrom(s[1..], depth - 1, buffer + [c]);
        AddLevel(InParens, levels, buffer);
        levels := [[]] + levels;
      }
    } else {
      levels := ParensFrom(s[1..], depth, buffer + [c]);
      levels := AddPiece(InParens, Plain(c), levels, buffer);
    }
  }

  /** What comes next inside the innermost level is what comes next in the text. */
  lemma HeadOfLevels(d: Dialect, levels: seq<seq<Piece>>, after: string)
    requires levels != []
    ensures (Levels(d, levels) + (Closer(d) + after))[0] == (Print(d, levels[0]) + Closer(d))[0]
  {
    hide Print;
    if Print(d, levels[0]) == "" && |levels| > 1 {
      assert Levels(d, levels)[0] == Closer(d)[0];
    }
  }

  lemma {:induction false} BracesFrom(s: string, depth: nat, buffer: string) returns (levels: seq<seq<Piece>>)
    requires depth > 0 && BalancedBraces(s, depth, buffer).Got?
    ensures |levels| == depth && AllValid(InBraces, levels)
    ensures BalancedBraces(s, depth, buffer).value == buffer + Levels(InBraces, levels)
    decreases |s|
  {
    hide Levels, AllValid, Print;
    var c := s[0];
    if c == '\\' {
      levels := BracesFrom(s[2..], depth, buffer + [c] + [s[1]]);
      levels := AddPiece(InBraces, Escaped(s[1]), levels, buffer);
      assert buffer + [c] + [s[1]] == buffer + PrintPiece(InBraces, Escaped(s[1]));
    } else if c == '\'' || c == '"' || c == '`' {
      var p := QuotedFrom(InBraces, s, buffer);
      var r := RawUntil(c, c != '\'', s[1..], buffer + [c]);
      levels := BracesFrom(r.rest, depth, r.value);
      assert ValidPiece(InBraces, p, Print(InBraces, levels[0]) + Closer(InBraces));
      levels := AddPiece(InBraces, p, levels, buffer);
    } else if c == '$' && |s| > 1 && s[1] == '{' {
      levels := BracesFrom(s[2..], depth + 1, buffer + [c] + [s[1]]);
      levels := AddGroup(InBraces, levels, buffer);
      assert buffer + [c] + [s[1]] == buffer + "${";
    } else if c == '}' {
      if depth == 1 {
        levels := [[]];
        OneLevel(InBraces);
        assert buffer + "" == buffer;
      } else {
        levels := BracesFrom(s[1..], depth - 1, buffer + [c]);
        AddLevel(InBraces, levels, buffer);
        levels := [[]] + levels;
      }
    } else {
      levels := BracesFrom(s[1..], depth, buffer + [c]);
      PlainInBraces(s, depth, buffer, levels);
      levels := AddPiece(InBraces, Plain(c), levels, buffer);
    }
  }

  lemma PlainInBraces(s: string, depth: nat, buffer: string, levels: seq<seq<Piece>>)
    requires depth > 0 && s != "" && !IsSpecial(InBraces, s[0]) && !(s[0] == '$' && |s| > 1 && s[1] == '{')
    requires BalancedBraces(s[1..], depth, buffer + [s[0]]).Got? && levels != []
    requires BalancedBraces(s[1..], depth, buffer + [s[0]]).value == buffer + [s[0]] + Levels(InBraces, levels)
    ensures ValidPiece(InBraces, Plain(s[0]), Print(InBraces, levels[0]) + Closer(InBraces))
  {
    hide BalancedBraces, Levels, Print;
    var r := BalancedBraces(s[1..], depth, buffer + [s[0]]);
    var before, taken := buffer + [s[0]], Levels(InBraces, levels);
    assert before + s[1..] == before + taken + ['}'] + r.rest;
    assert before + taken + ['}'] + r.rest == before + (taken + ("}" + r.rest));
    SameEnd(before, s[1..], taken + ("}" + r.rest));
    HeadOfLevels(InBraces, levels, r.rest);
    assert s[1..] != "";
  }

  lemma SameEnd(a: string, b: string, c: string)
    requires a + b == a + c
    ensures b == c
  {
    assert (a + b)[|a|..] == b && (a + c)[|a|..] == c;
  }

  lemma {:induction false} ArithFrom(s: string, depth: nat, buffer: string) returns (levels: seq<seq<Piece>>)
    requires ArithScan(s, depth, buffer).Closed?
    ensures |levels| == depth + 1 && AllValid(InArith, levels)
    ensures ArithScan(s, depth, buffer).text == buffer + Levels(InArith, levels)
    decreases |s|
  {
    hide Levels, AllValid, Print;
    var c := s[0];
    if c == '\\' {
      levels := ArithFrom(s[2..], depth, buffer + [c] + [s[1]]);
      levels := AddPiece(InArith, Escaped(s[1]), levels, buffer);
      assert buffer + [c] + [s[1]] == buffer + PrintPiece(InArith, Escaped(s[1]));
    } else if c == '\'' || c == '"' {
      var p := QuotedFrom(InArith, s, buffer);
      var r := RawUntil(c, c != '\'', s[1..], buffer + [c]);
      levels := ArithFrom(r.rest, depth, r.value);
      assert ValidPiece(InArith, p, Print(InArith, levels[0]) + Closer(InArith));
      levels := AddPiece(InArith, p, levels, buffer);
    } else if c == '(' {
      levels := ArithFrom(s[1..], depth + 1, buffer + [c]);
      levels := AddGroup(InArith, levels, buffer);
    } else if c == ')' {
      if depth == 0 {
        levels := [[]];
        OneLevel(InArith);
        assert buffer + "" == buffer;
      } else {
        levels := ArithFrom(s[1..], depth - 1, buffer + [c]);
        AddLevel(InArith, levels, buffer);
        levels := [[]] + levels;
      }
    } else {
      levels := ArithFrom(s[1..], depth, buffer + [c]);
      levels := AddPiece(InArith, Plain(c), levels, buffer);
    }
  }

  // ------------------------------------------------------------ exactly those

  /** `$(` takes a text exactly when it is made of pieces and the next character
      closes it. */
  lemma ParensIff(s: string, text: string, after: string)
    ensures BalancedParens(s, 1, "") == Got(text, after) <==> IsBalanced(InParens, text) && s == text + ")" + after
  {
    hide BalancedParens;
    if BalancedParens(s, 1, "") == Got(text, after) {
      var levels := ParensFrom(s, 1, "");
      assert Valid(InParens, levels[0]) && Print(InParens, levels[0]) == text;
      assert "" + s == s;
    }
    if IsBalanced(InParens, text) && s == text + ")" + after {
      var ps :| Valid(InParens, ps) && Print(InParens, ps) == text;
      ParensTakePieces(ps, after);
    }
  }

  /** The same for `${`. */
  lemma BracesIff(s: string, text: string, after: string)
    ensures BalancedBraces(s, 1, "") == Got(text, after) <==> IsBalanced(InBraces, text) && s == text + "}" + after
  {
    hide BalancedBraces;
    if BalancedBraces(s, 1, "") == Got(text, after) {
      var levels := BracesFrom(s, 1, "");
      assert Valid(InBraces, levels[0]) && Print(InBraces, levels[0]) == text;
      assert "" + s == s;
    }
    if IsBalanced(InBraces, text) && s == text + "}" + after {
      var ps :| Valid(InBraces, ps) && Print(InBraces, ps) == text;
      BracesTakePieces(ps, after);
    }
  }

  /** The same for `$((`, with two parentheses. */
  lemma ArithIff(s: string, text: string, after: string)
    ensures ArithScan(s, 0, "") == Closed(text, after) <==> IsBalanced(InArith, text) && s == text + "))" + after
  {
    hide ArithScan;
    if ArithScan(s, 0, "") == Closed(text, after) {
      var levels := ArithFrom(s, 0, "");
      assert Valid(InArith, levels[0]) && Print(InArith, levels[0]) == text;
      assert "" + s == s;
    }
    if IsBalanced(InArith, text) && s == text + "))" + after {
      var ps :| Valid(InArith, ps) && Print(InArith, ps) == text;
      ArithTakesPieces(ps, after);
    }
  }
}
