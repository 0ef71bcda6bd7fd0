/** What quoting promises: a string written in quotes, and a parameter list
    written `"$@"`, come out of lexing, expansion, splitting and the pathname
    step exactly as they went in. */
module Quoting {
  import opened Prelude
  import opened Tokens
  import opened LexerSpec
  import opened WordRoundTrip
  import opened FieldSplitSpec
  import opened ExpansionSpec

  // ------------------------------------------------------- text and fields

  function TextOf(a: seq<Atom>): string {
    if a == [] then "" else (if a[0].Char? then [a[0].c] else "") + TextOf(a[1..])
  }

  lemma {:induction false} TextOfConcat(a: seq<Atom>, b: seq<Atom>)
    ensures TextOf(a + b) == TextOf(a) + TextOf(b)
    decreases |a|
  {
    if a == [] {
      assert a + b == b;
    } else {
      assert (a + b)[0] == a[0] && (a + b)[1..] == a[1..] + b;
      TextOfConcat(a[1..], b);
      Associate(if a[0].Char? then [a[0].c] else "", TextOf(a[1..]), TextOf(b));
    }
  }

  lemma {:induction false} TextOfChars(t: string, quoted: bool)
    ensures TextOf(CharsOf(t, quoted)) == t
    decreases |t|
  {
    if t != "" {
      assert CharsOf(t, quoted)[1..] == CharsOf(t[1..], quoted);
      TextOfChars(t[1..], quoted);
    }
  }

  lemma {:induction false} TextOfAtoms(w: ExpandedWord)
    ensures TextOf(Atoms(w)) == Flatten(w)
    decreases |w|
  {
    if w != [] {
      TextOfAtoms(w[1..]);
      TextOfConcat(PieceAtoms(w[0]), Atoms(w[1..]));
      TextOfChars(w[0].text, w[0].quoted);
      assert TextOf([EmptyQuote]) == "";
    }
  }

  lemma FlattenCons(p: Piece, w: ExpandedWord)
    ensures Flatten([p] + w) == p.text + Flatten(w)
  {
    assert ([p] + w)[1..] == w;
  }

  lemma {:induction false} FlattenConcat(v: ExpandedWord, w: ExpandedWord)
    ensures Flatten(v + w) == Flatten(v) + Flatten(w)
    decreases |v|
  {
    hide Flatten;
    if v == [] {
      FlattenNothing();
      assert v + w == w && "" + Flatten(w) == Flatten(w);
    } else {
      var p, rest := v[0], v[1..];
      assert v == [p] + rest && v + w == [p] + (rest + w);
      FlattenCons(p, rest);
      FlattenCons(p, rest + w);
      FlattenConcat(rest, w);
      Associate(p.text, Flatten(rest), Flatten(w));
    }
  }

  lemma FlattenNothing()
    ensures Flatten([]) == ""
  {
  }

  lemma FlattenOne(p: Piece)
    ensures Flatten([p]) == p.text
  {
    assert [p][1..] == [];
  }

  lemma FlattenAppend(w: ExpandedWord, text: string, quoted: bool)
    ensures Flatten(Append(w, text, quoted)) == Flatten(w) + text
  {
    hide Flatten;
    var n := |w| - 1;
    if text == "" && !quoted {
    } else if w != [] && w[n].quoted == quoted {
      assert w == w[..n] + [w[n]];
      FlattenConcat(w[..n], [w[n]]);
      FlattenConcat(w[..n], [w[n].(text := w[n].text + text)]);
      FlattenOne(w[n]);
      FlattenOne(w[n].(text := w[n].text + text));
      Associate(Flatten(w[..n]), w[n].text, text);
    } else {
      FlattenConcat(w, [Piece(text, quoted, false)]);
      FlattenOne(Piece(text, quoted, false));
    }
  }

  /** A field's text is the text of its atoms. */
  lemma {:induction false} FlattenGroup(field: seq<Atom>)
    ensures Flatten(Group(field)) == TextOf(field)
    decreases |field|
  {
    hide Append, Flatten;
    if field == [] {
      FlattenNothing();
    } else {
      var n := |field| - 1;
      FlattenGroup(field[..n]);
      assert field == field[..n] + [field[n]];
      TextOfConcat(field[..n], [field[n]]);
      assert TextOf([field[n]]) == if field[n].Char? then [field[n].c] else "";
      FlattenAppend(Group(field[..n]), TextOf([field[n]]), field[n].EmptyQuote? || field[n].quoted);
    }
  }

  function FlattenAll(fields: seq<ExpandedWord>): string {
    if fields == [] then "" else Flatten(fields[0]) + FlattenAll(fields[1..])
  }

  lemma {:induction false} FlattenGroups(fields: seq<seq<Atom>>)
    ensures FlattenAll(GroupAll(fields)) == TextOf(Concat(fields))
    decreases |fields|
  {
    if fields != [] {
      FlattenGroups(fields[1..]);
      FlattenGroup(fields[0]);
      TextOfConcat(fields[0], Concat(fields[1..]));
    }
  }

  /** Splitting conserves text: the fields of a segment, joined, are its text
      without the unquoted IFS characters. */
  lemma SplittingConserves(segment: ExpandedWord, ifs: string)
    requires ifs != ""
    ensures FlattenAll(SplitSegment(segment, ifs)) == TextOf(Kept(Atoms(segment), ifs))
  {
    hide Fields, Kept;
    FlattenGroups(Fields(Atoms(segment), ifs));
    FieldsConserve(Atoms(segment), ifs);
  }

  // ------------------------------------------- segments that are one field

  /** A piece that splitting cannot touch or drop. */
  predicate Solid(p: Piece, ifs: string) {
    p.quoted || (p.text != "" && forall i :: 0 <= i < |p.text| ==> p.text[i] !in ifs)
  }

  predicate AllSolid(w: ExpandedWord, ifs: string) {
    forall i :: 0 <= i < |w| ==> Solid(w[i], ifs)
  }

  lemma {:induction false} SolidAtoms(w: ExpandedWord, ifs: string)
    requires AllSolid(w, ifs)
    ensures forall i :: 0 <= i < |Atoms(w)| ==> Text(Atoms(w)[i], ifs)
    ensures w != [] ==> Atoms(w) != []
    decreases |w|
  {
    if w != [] {
      assert forall i :: 0 <= i < |w[1..]| ==> w[1..][i] == w[i + 1];
      SolidAtoms(w[1..], ifs);
      assert Solid(w[0], ifs);
    }
  }

  lemma {:induction false} AllTextRuns(a: seq<Atom>, ifs: string)
    requires forall i :: 0 <= i < |a| ==> Text(a[i], ifs)
    ensures TextRun(a, ifs) == |a| && WhiteRun(a, ifs) == 0
    decreases |a|
  {
    if a != [] {
      AllTextRuns(a[1..], ifs);
    }
  }

  lemma AllTextIsOneField(a: seq<Atom>, ifs: string)
    requires forall i :: 0 <= i < |a| ==> Text(a[i], ifs)
    requires a != []
    ensures Fields(a, ifs) == [a]
  {
    hide TextRun, WhiteRun, Text;
    AllTextRuns(a, ifs);
    assert a[0..] == a && a[..|a|] == a && a[|a|..] == [];
    assert DelimiterLength([], ifs) == 0;
  }

  /** The pieces of a grouped field are quoted as its atoms are, so a
      metacharacter can come only from an unquoted one. */
  predicate MetaAtom(a: Atom) {
    a.Char? && !a.quoted && IsMetachar(a.c)
  }

  lemma AppendMeta(w: ExpandedWord, text: string, quoted: bool)
    ensures HasMetachar(Append(w, text, quoted)) ==> HasMetachar(w) || PieceHasMetachar(Piece(text, quoted, false))
  {
    var r := Append(w, text, quoted);
    if i :| 0 <= i < |r| && PieceHasMetachar(r[i]) {
      var n := |w| - 1;
      if i < |w| && r[i] == w[i] {
        assert PieceHasMetachar(w[i]);
      } else if i == n {
        var j :| 0 <= j < |r[i].text| && IsMetachar(r[i].text[j]);
        if j < |w[n].text| {
          assert IsMetachar(w[n].text[j]);
          assert PieceHasMetachar(w[n]);
        } else {
          assert IsMetachar(text[j - |w[n].text|]);
        }
      }
    }
  }

  lemma {:induction false} GroupMeta(field: seq<Atom>)
    requires forall i :: 0 <= i < |field| ==> !MetaAtom(field[i])
    ensures !HasMetachar(Group(field))
    decreases |field|
  {
    hide HasMetachar;
    if field == [] {
      NoMetaInNothing();
    } else {
      var n := |field| - 1;
      GroupMeta(field[..n]);
      var a := field[n];
      assert !MetaAtom(a);
      AppendMeta(Group(field[..n]), if a.Char? then [a.c] else "", a.EmptyQuote? || a.quoted);
    }
  }

  lemma NoMetaInNothing()
    ensures !HasMetachar([])
  {
  }

  lemma {:induction false} AtomsMeta(w: ExpandedWord)
    requires !HasMetachar(w)
    ensures forall i :: 0 <= i < |Atoms(w)| ==> !MetaAtom(Atoms(w)[i])
    decreases |w|
  {
    if w != [] {
      forall i | 0 <= i < |w[1..]| ensures !PieceHasMetachar(w[1..][i]) {
        assert w[1..][i] == w[i + 1];
      }
      AtomsMeta(w[1..]);
      assert !PieceHasMetachar(w[0]);
    }
  }

  /** A segment of solid pieces is one field with the same text. */
  lemma SolidIsOneField(segment: ExpandedWord, ifs: string)
    requires segment != [] && AllSolid(segment, ifs)
    ensures |SplitSegment(segment, ifs)| == 1
    ensures Flatten(SplitSegment(segment, ifs)[0]) == Flatten(segment)
    ensures !HasMetachar(segment) ==> !HasMetachar(SplitSegment(segment, ifs)[0])
  {
    hide Fields, Group, Flatten, HasMetachar, Atoms;
    if ifs == "" {
      assert Solid(segment[0], ifs);
    } else {
      var a := Atoms(segment);
      SolidAtoms(segment, ifs);
      AllTextIsOneField(a, ifs);
      assert [a][1..] == [];
      TextOfAtoms(segment);
      FlattenGroup(a);
      if !HasMetachar(segment) {
        AtomsMeta(segment);
        GroupMeta(a);
      }
    }
  }

  lemma {:induction false} NoBreaksIsOneSegment(segment: ExpandedWord, w: ExpandedWord, ifs: string)
    requires forall i :: 0 <= i < |w| ==> !w[i].fieldBreakAfter
    ensures SplitWord(segment, w, ifs) == if segment + w == [] then [] else SplitSegment(segment + w, ifs)
    decreases |w|
  {
    hide SplitSegment;
    if w == [] {
      assert segment + w == segment;
    } else {
      assert segment + [w[0]] + w[1..] == segment + w;
      NoBreaksIsOneSegment(segment + [w[0]], w[1..], ifs);
    }
  }

  predicate AllQuoted(w: ExpandedWord) {
    forall i :: 0 <= i < |w| ==> w[i].quoted && !w[i].fieldBreakAfter
  }

  /** Quoted text is one field, whatever IFS is and whatever it contains. */
  lemma QuotedIsOneField(w: ExpandedWord, env: Env)
    requires AllQuoted(w)
    ensures Pathnames(SplitWord([], w, env.ifs), env) == if w == [] then [] else [Flatten(w)]
  {
    hide SplitSegment, Flatten, SplitWord;
    NoBreaksIsOneSegment([], w, env.ifs);
    assert [] + w == w;
    if w != [] {
      assert AllSolid(w, env.ifs);
      SolidIsOneField(w, env.ifs);
      assert !HasMetachar(w);
      PathnamesOne(SplitSegment(w, env.ifs), env);
    }
  }

  lemma PathnamesOne(fields: seq<ExpandedWord>, env: Env)
    requires |fields| == 1 && !HasMetachar(fields[0])
    ensures Pathnames(fields, env) == [Flatten(fields[0])]
  {
    assert Pathnames(fields[1..], env) == [];
  }

  // ---------------------------------------------------------- single quotes

  /** A string in single quotes, each single quote written `'\''`. */
  function SingleQuotedSpelling(s: string): string {
    "'" + SingleQuoteInner(s) + "'"
  }

  function SingleQuoteInner(s: string): string {
    if s == "" then "" else (if s[0] == '\'' then "'\\''" else [s[0]]) + SingleQuoteInner(s[1..])
  }

  /** The parts it scans to. */
  function QuotedChunks(s: string): (r: Word)
    ensures r != [] && forall i :: 0 <= i < |r| ==> r[i].SingleQuoted?
    decreases |s|
  {
    var n := FirstQuote(s);
    if n == |s| then [SingleQuoted(s)] else [SingleQuoted(s[..n] + "'")] + QuotedChunks(s[n + 1..])
  }

  lemma FirstQuoteIs(s: string)
    ensures FirstQuote(s) < |s| ==> s[FirstQuote(s)] == '\''
  {
  }

  lemma {:induction false} InnerAt(s: string)
    ensures var n := FirstQuote(s);
            SingleQuoteInner(s) == s[..n] + if n == |s| then "" else "'\\''" + SingleQuoteInner(s[n + 1..])
    decreases |s|
  {
    if s != "" && s[0] != '\'' {
      InnerAt(s[1..]);
      var n := FirstQuote(s[1..]);
      assert s[..n + 1] == [s[0]] + s[1..][..n];
      if n < |s[1..]| {
        assert s[1..][n + 1..] == s[n + 2..];
        Associate([s[0]], s[1..][..n], "'\\''" + SingleQuoteInner(s[n + 2..]));
      }
    }
  }

  /** What follows the first quoted run of a spelling. */
  function AfterRun(s: string, after: string): string {
    var n := FirstQuote(s);
    if n == |s| then after else ['\\', '\''] + (SingleQuotedSpelling(s[n + 1..]) + after)
  }

  lemma Regroup(x: string, y: string, after: string)
    ensures "'" + (x + ("'\\''" + y)) + "'" + after == ['\''] + (x + "'" + (['\\', '\''] + ("'" + y + "'" + after)))
  {
    var tail := y + "'" + after;
    assert "'" + (x + ("'\\''" + y)) + "'" + after == ['\''] + x + "'\\''" + tail;
    assert "'" + y + "'" + after == "'" + tail;
    assert "'\\''" + tail == "'" + (['\\', '\''] + ("'" + tail));
  }

  lemma SpellingAt(s: string, after: string)
    ensures SingleQuotedSpelling(s) + after == ['\''] + (s[..FirstQuote(s)] + "'" + AfterRun(s, after))
  {
    hide FirstQuote, SingleQuoteInner;
    var n := FirstQuote(s);
    InnerAt(s);
    if n == |s| {
      assert s[..n] + "" == s[..n];
      assert "'" + s[..n] + "'" + after == ['\''] + (s[..n] + "'" + after);
    } else {
      Regroup(s[..n], SingleQuoteInner(s[n + 1..]), after);
    }
  }

  lemma QuoteStep(t: string, tail: string, parts: Word)
    requires '\'' !in t
    ensures ScanWord(['\''] + (t + "'" + tail), true, parts) == ScanWord(tail, true, parts + [SingleQuoted(t)])
  {
    hide SingleQuotedBody, Dollar, Backtick, ExpansionBody, AppendText;
    var all := ['\''] + (t + "'" + tail);
    assert all[0] == '\'' && all[1..] == t + "'" + tail;
    SingleQuotedBodyOf(t, tail, "");
    assert "" + t == t;
  }

  lemma WordStops(after: string, parts: Word)
    requires after == "" || EndsWord(after[0])
    ensures ScanWord(after, true, parts) == Got(parts, after)
  {
  }

  lemma {:induction false} ScanSingleQuoted(s: string, after: string, parts: Word)
    requires after == "" || EndsWord(after[0])
    ensures ScanWord(SingleQuotedSpelling(s) + after, true, parts) == Got(parts + QuotedChunks(s), after)
    decreases |s|
  {
    hide ScanWord, SingleQuotedSpelling, AppendText, FirstQuote;
    var n := FirstQuote(s);
    SpellingAt(s, after);
    QuoteStep(s[..n], AfterRun(s, after), parts);
    if n == |s| {
      assert s[..n] == s;
      WordStops(after, parts + [SingleQuoted(s)]);
    } else {
      var chunk := [SingleQuoted(s[..n] + "'")];
      BackslashStep('\'', SingleQuotedSpelling(s[n + 1..]) + after, parts + [SingleQuoted(s[..n])], true);
      QuoteJoins(parts, s[..n]);
      ScanSingleQuoted(s[n + 1..], after, parts + chunk);
      Associate(parts, chunk, QuotedChunks(s[n + 1..]));
    }
  }

  lemma QuoteJoins(parts: Word, t: string)
    ensures AppendText(parts + [SingleQuoted(t)], true, "'") == parts + [SingleQuoted(t + "'")]
  {
    var p := parts + [SingleQuoted(t)];
    assert p[..|p| - 1] == parts;
  }

  lemma QuotedFirst(t: string, rest: Word, env: Env)
    ensures var w := [SingleQuoted(t)] + rest;
            && Parts(w, env) == [Piece(t, true, false)] + Parts(rest, env)
            && Flatten(Parts(w, env)) == t + Flatten(Parts(rest, env))
  {
    hide Flatten;
    var w := [SingleQuoted(t)] + rest;
    assert w[1..] == rest;
    FlattenConcat([Piece(t, true, false)], Parts(rest, env));
    FlattenOne(Piece(t, true, false));
  }

  lemma NoParts(env: Env)
    ensures Parts([], env) == [] && Flatten(Parts([], env)) == "" && AllQuoted([])
  {
  }

  lemma QuoteBetween(s: string, n: nat)
    requires n < |s| && s[n] == '\''
    ensures s[..n] + "'" + s[n + 1..] == s
  {
  }

  lemma {:induction false} ChunksExpand(s: string, env: Env)
    ensures AllQuoted(Parts(QuotedChunks(s), env)) && Parts(QuotedChunks(s), env) != []
    ensures Flatten(Parts(QuotedChunks(s), env)) == s
    decreases |s|
  {
    hide Parts, Flatten, FirstQuote;
    var n := FirstQuote(s);
    if n == |s| {
      QuotedFirst(s, [], env);
      NoParts(env);
      assert [SingleQuoted(s)] + [] == [SingleQuoted(s)] && s + "" == s;
    } else {
      QuotedFirst(s[..n] + "'", QuotedChunks(s[n + 1..]), env);
      ChunksExpand(s[n + 1..], env);
      FirstQuoteIs(s);
      QuoteBetween(s, n);
    }
  }

  lemma SingleQuotedToken(s: string, after: string)
    requires after == "" || EndsWord(after[0])
    ensures Next(SingleQuotedSpelling(s) + after) == Got(WordTok(QuotedChunks(s)), after)
  {
    hide ScanWord, QuotedChunks;
    ScanSingleQuoted(s, after, []);
    assert [] + QuotedChunks(s) == QuotedChunks(s);
    assert (SingleQuotedSpelling(s) + after)[0] == '\'';
  }

  /** Single quotes protect every string: one word, one field, that string, for
      every IFS and whatever the directories hold. */
  lemma SingleQuotesProtect(s: string, after: string, env: Env)
    requires after == "" || EndsWord(after[0])
    ensures Next(SingleQuotedSpelling(s) + after) == Got(WordTok(QuotedChunks(s)), after)
    ensures ToFields(QuotedChunks(s), env) == [s]
  {
    hide Parts, Flatten, SplitWord, Pathnames, QuotedChunks;
    SingleQuotedToken(s, after);
    assert !IsUnquotedLiteral(QuotedChunks(s)) && !StartsWithTilde(QuotedChunks(s));
    ChunksExpand(s, env);
    QuotedIsOneField(Parts(QuotedChunks(s), env), env);
  }

  /** The argument list of a line of words: every word's fields, in order. */
  function Arguments(line: string, env: Env): Option<seq<string>>
    decreases |line|
  {
    match Next(line)
    case Unterminated => None
    case Got(t, rest) =>
      if t.WordTok? then
        match Arguments(rest, env)
        case None => None
        case Some(more) => Some(ToFields(t.word, env) + more)
      else if t.Newline? || t.EndOfInput? then Some([])
      else None
  }

  function QuoteAll(args: seq<string>): string {
    if args == [] then "" else SingleQuotedSpelling(args[0]) + ([' '] + QuoteAll(args[1..]))
  }

  lemma BlankBefore(line: string, env: Env)
    ensures Arguments([' '] + line, env) == Arguments(line, env)
  {
    hide ToFields;
    var all := [' '] + line;
    assert all[0] == ' ' && all[1..] == line;
    assert Next(all) == Next(line);
  }

  /** A quoted argument list is the argument list of its line. */
  lemma {:induction false} ArgumentsBack(args: seq<string>, env: Env)
    ensures Arguments(QuoteAll(args), env) == Some(args)
    decreases |args|
  {
    hide Next, ToFields, QuotedChunks, SingleQuotedSpelling;
    if args == [] {
      NothingNext();
    } else {
      var after := [' '] + QuoteAll(args[1..]);
      SingleQuotesProtect(args[0], after, env);
      BlankBefore(QuoteAll(args[1..]), env);
      ArgumentsBack(args[1..], env);
      assert args == [args[0]] + args[1..];
    }
  }

  lemma NothingNext()
    ensures Next("") == Got(EndOfInput, "")
  {
  }

  // ---------------------------------------------------------- double quotes

  function DoubleQuoteInner(s: string): string {
    if s == "" then "" else (if ProtectedInQuotes(s[0]) then ['\\', s[0]] else [s[0]]) + DoubleQuoteInner(s[1..])
  }

  function DoubleQuotedSpelling(s: string): string {
    "\"" + DoubleQuoteInner(s) + "\""
  }

  /** The parts it scans to, appended to those already there. */
  function InnerParts(parts: Word, s: string): Word
    decreases |s|
  {
    if s == "" then parts else InnerParts(AppendText(parts, ProtectedInQuotes(s[0]), [s[0]]), s[1..])
  }

  lemma {:induction false} ScanDoubleQuoted(s: string, after: string, parts: Word)
    ensures ExpansionBody(DoubleQuoteInner(s) + "\"" + after, true, parts) == Got(InnerParts(parts, s), after)
    decreases |s|
  {
    hide Dollar, Backtick, AppendText;
    var all := DoubleQuoteInner(s) + "\"" + after;
    if s == "" {
      assert all[0] == '"' && all[1..] == after;
    } else {
      var tail := DoubleQuoteInner(s[1..]) + "\"" + after;
      ScanDoubleQuoted(s[1..], after, AppendText(parts, ProtectedInQuotes(s[0]), [s[0]]));
      if ProtectedInQuotes(s[0]) {
        assert all == ['\\', s[0]] + tail;
        assert all[0] == '\\' && all[1] == s[0] && all[2..] == tail;
      } else {
        assert all == [s[0]] + tail;
        assert all[0] == s[0] && all[1..] == tail;
      }
    }
  }

  /** Text parts only, none of them empty. */
  predicate TextParts(w: Word) {
    forall i :: 0 <= i < |w| ==> (w[i].Literal? || w[i].SingleQuoted?) && w[i].text != ""
  }

  lemma {:induction false} NestedConcat(v: Word, w: Word, env: Env)
    ensures Nested(v + w, env) == Nested(v, env) + Nested(w, env)
    decreases |v|
  {
    hide NestedPart;
    if v == [] {
      assert v + w == w;
    } else {
      assert (v + w)[0] == v[0] && (v + w)[1..] == v[1..] + w;
      NestedConcat(v[1..], w, env);
      Associate(NestedPart(v[0], env), Nested(v[1..], env), Nested(w, env));
    }
  }

  lemma NestedText(p: WordPart, env: Env)
    requires p.Literal? || p.SingleQuoted?
    ensures Nested([p], env) == [Piece(p.text, true, false)]
  {
    assert [p][1..] == [];
    assert NestedPart(p, env) == [Piece(p.text, true, false)];
  }

  lemma AppendTextExpands(parts: Word, quoted: bool, c: char, env: Env)
    requires TextParts(parts)
    ensures var r := AppendText(parts, quoted, [c]);
            && TextParts(r) && r != []
            && Flatten(Nested(r, env)) == Flatten(Nested(parts, env)) + [c]
            && (AllQuoted(Nested(parts, env)) ==> AllQuoted(Nested(r, env)))
  {
    hide Nested, Flatten;
    var r := AppendText(parts, quoted, [c]);
    var n := |r| - 1;
    var last := r[n];
    assert r == r[..n] + [last];
    NestedConcat(r[..n], [last], env);
    NestedText(last, env);
    FlattenConcat(Nested(r[..n], env), [Piece(last.text, true, false)]);
    FlattenOne(Piece(last.text, true, false));
    if |parts| == |r| {
      assert parts == r[..n] + [parts[n]];
      NestedConcat(r[..n], [parts[n]], env);
      NestedText(parts[n], env);
      FlattenConcat(Nested(r[..n], env), [Piece(parts[n].text, true, false)]);
      FlattenOne(Piece(parts[n].text, true, false));
      Associate(Flatten(Nested(r[..n], env)), parts[n].text, [c]);
      AllQuotedFront(Nested(r[..n], env), Piece(parts[n].text, true, false), Piece(last.text, true, false));
    } else {
      assert r[..n] == parts;
      AllQuotedBack(Nested(parts, env), Piece(last.text, true, false));
    }
  }

  lemma AllQuotedFront(w: ExpandedWord, p: Piece, q: Piece)
    requires q.quoted && !q.fieldBreakAfter
    ensures AllQuoted(w + [p]) ==> AllQuoted(w + [q])
  {
    if AllQuoted(w + [p]) {
      forall i | 0 <= i < |w| ensures w[i].quoted && !w[i].fieldBreakAfter {
        assert (w + [p])[i] == w[i];
      }
    }
  }

  lemma AllQuotedBack(w: ExpandedWord, q: Piece)
    requires q.quoted && !q.fieldBreakAfter
    ensures AllQuoted(w) ==> AllQuoted(w + [q])
  {
  }

  lemma {:induction false} InnerExpands(parts: Word, s: string, env: Env)
    requires TextParts(parts) && AllQuoted(Nested(parts, env))
    ensures var r := InnerParts(parts, s);
            && AllQuoted(Nested(r, env)) && Flatten(Nested(r, env)) == Flatten(Nested(parts, env)) + s
    decreases |s|
  {
    hide Nested, AppendText, AllQuoted, Flatten;
    if s == "" {
      assert Flatten(Nested(parts, env)) + "" == Flatten(Nested(parts, env));
    } else {
      var more := AppendText(parts, ProtectedInQuotes(s[0]), [s[0]]);
      AppendTextExpands(parts, ProtectedInQuotes(s[0]), s[0], env);
      InnerExpands(more, s[1..], env);
      assert [s[0]] + s[1..] == s;
      Associate(Flatten(Nested(parts, env)), [s[0]], s[1..]);
    }
  }

  function DoubleQuotedWord(s: string): Word {
    [DoubleQuoted(InnerParts([], s))]
  }

  /** Double quotes with `$`, backquote, `"` and `\` escaped protect a string
      exactly when it is not empty: a bare `""` makes no field at all. */
  lemma DoubleQuotesProtect(s: string, after: string, env: Env)
    requires after == "" || EndsWord(after[0])
    ensures Next(DoubleQuotedSpelling(s) + after) == Got(WordTok(DoubleQuotedWord(s)), after)
    ensures ToFields(DoubleQuotedWord(s), env) == [s] <==> s != ""
    ensures s == "" ==> ToFields(DoubleQuotedWord(s), env) == []
  {
    hide Nested, ExpansionBody, Flatten, SplitWord, Pathnames, InnerParts, Dollar, Backtick, SingleQuotedBody, AppendText;
    DoubleQuotedToken(s, after);
    var w := DoubleQuotedWord(s);
    var parts := InnerParts([], s);
    NestedNothing(env);
    InnerExpands([], s, env);
    assert "" + s == s;
    PartsOne(w[0], env);
    QuotedIsOneField(Nested(parts, env), env);
    if s == "" {
      InnerNothing();
    }
  }

  lemma DoubleQuotedToken(s: string, after: string)
    requires after == "" || EndsWord(after[0])
    ensures Next(DoubleQuotedSpelling(s) + after) == Got(WordTok(DoubleQuotedWord(s)), after)
  {
    hide ExpansionBody, InnerParts, Dollar, Backtick, SingleQuotedBody, AppendText;
    var all := DoubleQuotedSpelling(s) + after;
    assert all == ['"'] + (DoubleQuoteInner(s) + "\"" + after);
    assert all[0] == '"' && all[1..] == DoubleQuoteInner(s) + "\"" + after;
    ScanDoubleQuoted(s, after, []);
    assert [] + DoubleQuotedWord(s) == DoubleQuotedWord(s);
    assert ScanWord(after, true, DoubleQuotedWord(s)) == Got(DoubleQuotedWord(s), after);
  }

  lemma NestedNothing(env: Env)
    ensures Nested([], env) == [] && Flatten([]) == ""
  {
  }

  lemma InnerNothing()
    ensures InnerParts([], "") == []
  {
  }

  lemma PartsOne(p: WordPart, env: Env)
    ensures Parts([p], env) == Part(p, env)
    ensures !p.Literal? ==> Expand([p], env) == Part(p, env)
  {
    assert [p][1..] == [] && Part(p, env) + [] == Part(p, env);
  }

  // ------------------------------------------------- positional parameters

  predicate NoIfs(p: string, ifs: string) {
    forall i :: 0 <= i < |p| ==> p[i] !in ifs
  }

  predicate NoMetachars(p: string) {
    forall i :: 0 <= i < |p| ==> !IsMetachar(p[i])
  }

  /** A parameter that an unquoted `$@` passes on untouched. */
  predicate PlainParam(p: string, ifs: string) {
    p != "" && NoIfs(p, ifs) && NoMetachars(p)
  }

  lemma OnePieceField(p: Piece, env: Env)
    requires Solid(p, env.ifs) && !PieceHasMetachar(p)
    ensures Pathnames(SplitSegment([p], env.ifs), env) == [p.text]
  {
    hide SplitSegment, Flatten, Solid;
    assert [p][0] == p;
    SolidIsOneField([p], env.ifs);
    assert !HasMetachar([p]);
    FlattenOne(p);
    PathnamesOne(SplitSegment([p], env.ifs), env);
  }

  lemma {:induction false} PathnamesConcat(a: seq<ExpandedWord>, b: seq<ExpandedWord>, env: Env)
    ensures Pathnames(a + b, env) == Pathnames(a, env) + Pathnames(b, env)
    decreases |a|
  {
    hide Pathname;
    if a == [] {
      assert a + b == b;
    } else {
      assert (a + b)[0] == a[0] && (a + b)[1..] == a[1..] + b;
      PathnamesConcat(a[1..], b, env);
      Associate(Pathname(a[0], env), Pathnames(a[1..], env), Pathnames(b, env));
    }
  }

  lemma {:induction false} AtIsParams(params: seq<string>, quoted: bool, env: Env)
    requires quoted || forall i :: 0 <= i < |params| ==> PlainParam(params[i], env.ifs)
    ensures Pathnames(SplitWord([], AtPieces(params, quoted), env.ifs), env) == params
    decreases |params|
  {
    hide SplitSegment, Pathname;
    if params != [] {
      var pieces := AtPieces(params, quoted);
      assert quoted || PlainParam(params[0], env.ifs);
      OnePieceField(pieces[0], env);
      assert [] + [pieces[0]] == [pieces[0]];
      assert pieces[1..] == AtPieces(params[1..], quoted);
      AtIsParams(params[1..], quoted, env);
      assert params == [params[0]] + params[1..];
      var first := SplitSegment([pieces[0]], env.ifs);
      PathnamesConcat(first, SplitWord([], pieces[1..], env.ifs), env);
      if |params| == 1 {
        assert SplitWord([], pieces, env.ifs) == SplitWord([pieces[0]], pieces[1..], env.ifs);
        assert first + SplitWord([], pieces[1..], env.ifs) == first;
      }
    }
  }

  function AtWord(quoted: bool): Word {
    if quoted then [DoubleQuoted([ParamExpansion("@")])] else [ParamExpansion("@")]
  }

  lemma AtExpands(quoted: bool, env: Env)
    ensures Expand(AtWord(quoted), env) == AtPieces(env.params, quoted)
  {
    hide Parts, Expand;
    var p := ParamExpansion("@");
    assert IsAtOrStar(p);
    if quoted {
      assert [p][1..] == [] && AtPieces(env.params, true) + [] == AtPieces(env.params, true);
      PartsOne(DoubleQuoted([p]), env);
    } else {
      PartsOne(p, env);
    }
  }

  /** `"$@"` reproduces every parameter list, empty strings included, under
      every IFS; unquoted `$@` reproduces every list of plain parameters. */
  lemma AtReproducesParams(quoted: bool, env: Env)
    requires quoted || forall i :: 0 <= i < |env.params| ==> PlainParam(env.params[i], env.ifs)
    ensures ToFields(AtWord(quoted), env) == env.params
  {
    hide Expand, SplitWord, Pathnames, AtWord;
    AtExpands(quoted, env);
    AtIsParams(env.params, quoted, env);
  }

  // ------------------------------------------- before the pathname step

  predicate AllFree(params: seq<string>, ifs: string) {
    forall i :: 0 <= i < |params| ==> params[i] != "" && NoIfs(params[i], ifs)
  }

  /** The text of each field. */
  function FieldTexts(fields: seq<ExpandedWord>): (r: seq<string>)
    ensures |r| == |fields|
  {
    if fields == [] then [] else [Flatten(fields[0])] + FieldTexts(fields[1..])
  }

  lemma {:induction false} FieldTextsConcat(a: seq<ExpandedWord>, b: seq<ExpandedWord>)
    ensures FieldTexts(a + b) == FieldTexts(a) + FieldTexts(b)
    decreases |a|
  {
    hide Flatten;
    if a == [] {
      assert a + b == b;
    } else {
      assert (a + b)[0] == a[0] && (a + b)[1..] == a[1..] + b;
      FieldTextsConcat(a[1..], b);
      Associate([Flatten(a[0])], FieldTexts(a[1..]), FieldTexts(b));
    }
  }

  lemma OnePieceText(p: Piece, ifs: string)
    requires Solid(p, ifs)
    ensures FieldTexts(SplitSegment([p], ifs)) == [p.text]
  {
    hide SplitSegment, Flatten, Solid;
    assert [p][0] == p;
    SolidIsOneField([p], ifs);
    FlattenOne(p);
    assert FieldTexts(SplitSegment([p], ifs)[1..]) == [];
  }

  lemma {:induction false} AtPiecesSplit(params: seq<string>, quoted: bool, ifs: string)
    requires quoted || AllFree(params, ifs)
    ensures FieldTexts(SplitWord([], AtPieces(params, quoted), ifs)) == params
    decreases |params|
  {
    hide SplitSegment;
    if params != [] {
      var pieces := AtPieces(params, quoted);
      assert quoted || (params[0] != "" && NoIfs(params[0], ifs));
      OnePieceText(pieces[0], ifs);
      assert [] + [pieces[0]] == [pieces[0]];
      assert pieces[1..] == AtPieces(params[1..], quoted);
      AtPiecesSplit(params[1..], quoted, ifs);
      assert params == [params[0]] + params[1..];
      var first := SplitSegment([pieces[0]], ifs);
      FieldTextsConcat(first, SplitWord([], pieces[1..], ifs));
      if |params| == 1 {
        assert SplitWord([], pieces, ifs) == SplitWord([pieces[0]], pieces[1..], ifs);
        assert first + SplitWord([], pieces[1..], ifs) == first;
      }
    }
  }

  /** Field splitting gives back the parameters of `$@`, metacharacters and all:
      quoted, every list; unquoted, every list of non-empty parameters without
      IFS characters. */
  lemma AtSplitsToParams(quoted: bool, env: Env)
    requires quoted || AllFree(env.params, env.ifs)
    ensures FieldTexts(SplitWord([], Expand(AtWord(quoted), env), env.ifs)) == env.params
  {
    hide Expand, SplitWord, FieldTexts, AtWord;
    AtExpands(quoted, env);
    AtPiecesSplit(env.params, quoted, env.ifs);
  }

  // ------------------------------------------------------------ literal text

  lemma {:induction false} KeptLength(t: string, ifs: string)
    ensures var kept := Kept(CharsOf(t, false), ifs);
            |kept| <= |t| && (|kept| == |t| ==> NoIfs(t, ifs)) && |TextOf(kept)| <= |kept|
    decreases |t|
  {
    if t != "" {
      var a := CharsOf(t, false);
      assert a[1..] == CharsOf(t[1..], false);
      KeptLength(t[1..], ifs);
      var kept := Kept(a, ifs);
      if t[0] in ifs {
        assert kept == Kept(a[1..], ifs);
      } else {
        assert kept == [a[0]] + Kept(a[1..], ifs) && kept[1..] == Kept(a[1..], ifs);
      }
    }
  }

  lemma UnquotedIsOneFieldIff(t: string, ifs: string)
    ensures FieldTexts(SplitWord([], [Piece(t, false, false)], ifs)) == [t] <==> t != "" && NoIfs(t, ifs)
  {
    hide SplitSegment, Kept;
    var p := Piece(t, false, false);
    assert [p][1..] == [] && [] + [p] == [p];
    assert SplitWord([], [p], ifs) == SplitWord([p], [], ifs) == SplitSegment([p], ifs);
    if t != "" && NoIfs(t, ifs) {
      OnePieceText(p, ifs);
    } else if ifs == "" {
      NothingIsLeft(p);
    } else if FieldTexts(SplitSegment([p], ifs)) == [t] {
      OneTextIsAll(SplitSegment([p], ifs), t);
      SplittingConserves([p], ifs);
      assert Atoms([p]) == CharsOf(t, false) + [] == CharsOf(t, false);
      KeptLength(t, ifs);
      EmptyMakesNothing(ifs);
    }
  }

  /** Literal text is split as well (the standard splits only what expansions give):
      it is one field, unchanged, if and only if it is not empty and free of IFS
      characters. */
  lemma LiteralIsOneFieldIff(t: string, env: Env)
    requires !StartsWithTilde([Literal(t)])
    ensures FieldTexts(SplitWord([], Expand([Literal(t)], env), env.ifs)) == [t] <==> t != "" && NoIfs(t, env.ifs)
  {
    hide SplitWord;
    PartsOne(Literal(t), env);
    assert Expand([Literal(t)], env) == [Piece(t, false, false)];
    UnquotedIsOneFieldIff(t, env.ifs);
  }

  lemma NothingIsLeft(p: Piece)
    requires p == Piece("", false, false)
    ensures SplitSegment([p], "") == []
  {
  }

  lemma EmptyMakesNothing(ifs: string)
    requires ifs != ""
    ensures SplitSegment([Piece("", false, false)], ifs) == []
  {
    hide Fields;
    FieldsOfNothing(ifs);
    assert Atoms([Piece("", false, false)]) == CharsOf("", false) + [] == CharsOf("", false);
  }

  lemma OneTextIsAll(fields: seq<ExpandedWord>, t: string)
    requires FieldTexts(fields) == [t]
    ensures FlattenAll(fields) == t
  {
    hide Flatten;
    assert |fields| == 1 && fields[1..] == [];
    assert FieldTexts(fields)[0] == Flatten(fields[0]);
    assert FlattenAll(fields[1..]) == "" && t + "" == t;
  }

  // ------------------------------------------------------------ unquoted $*

  /** One parameter, then a separator that ends its field. */
  lemma CutAtSeparator(p: string, c: char, rest: seq<Atom>, ifs: string)
    requires p != "" && NoIfs(p, ifs) && c in ifs
    requires rest != [] && Text(rest[0], ifs)
    ensures Cut(CharsOf(p, false) + ([Char(c, false)] + rest), ifs) == [CharsOf(p, false)] + Cut(rest, ifs)
  {
    hide Text;
    var a := CharsOf(p, false) + ([Char(c, false)] + rest);
    forall i | 0 <= i < |p| ensures Text(a[i], ifs) {
      TextChar(p[i], ifs);
      assert a[i] == Char(p[i], false);
    }
    DelimiterChar(c, ifs);
    assert a[|p|] == Char(c, false);
    RunLength(a, |p|, ifs);
    assert a[..|p|] == CharsOf(p, false) && a[|p|..] == [Char(c, false)] + rest;
    SeparatorLength(c, rest, ifs);
    assert ([Char(c, false)] + rest)[1..] == rest;
  }

  lemma TextChar(c: char, ifs: string)
    requires c !in ifs
    ensures Text(Char(c, false), ifs)
  {
  }

  lemma DelimiterChar(c: char, ifs: string)
    requires c in ifs
    ensures !Text(Char(c, false), ifs)
  {
  }

  lemma {:induction false} RunLength(a: seq<Atom>, n: nat, ifs: string)
    requires n <= |a| && (forall i :: 0 <= i < n ==> Text(a[i], ifs))
    requires n < |a| ==> !Text(a[n], ifs)
    ensures TextRun(a, ifs) == n
    decreases n
  {
    if n > 0 {
      RunLength(a[1..], n - 1, ifs);
    }
  }

  lemma SeparatorLength(c: char, rest: seq<Atom>, ifs: string)
    requires c in ifs && rest != [] && Text(rest[0], ifs)
    ensures DelimiterLength([Char(c, false)] + rest, ifs) == 1
  {
    var a := [Char(c, false)] + rest;
    assert a[1..] == rest && a[2..] == rest[1..];
    assert WhiteRun(rest, ifs) == 0;
  }

  function CharsAll(params: seq<string>): seq<seq<Atom>> {
    if params == [] then [] else [CharsOf(params[0], false)] + CharsAll(params[1..])
  }

  lemma {:induction false} CutJoined(params: seq<string>, ifs: string)
    requires params != [] && ifs != "" && AllFree(params, ifs)
    ensures var a := CharsOf(Join(params, Separator(ifs)), false);
            && a != [] && Text(a[0], ifs) && Cut(a, ifs) == CharsAll(params)
    decreases |params|
  {
    hide Cut, Text;
    assert params[0] != "" && NoIfs(params[0], ifs);
    TextChar(params[0][0], ifs);
    var a := CharsOf(Join(params, Separator(ifs)), false);
    var first := CharsOf(params[0], false);
    if |params| == 1 {
      CutOne(params[0], ifs);
      assert CharsAll(params[1..]) == [];
    } else {
      assert AllFree(params[1..], ifs) by {
        assert forall i :: 0 <= i < |params[1..]| ==> params[1..][i] == params[i + 1];
      }
      CutJoined(params[1..], ifs);
      var rest := CharsOf(Join(params[1..], Separator(ifs)), false);
      assert a == first + ([Char(ifs[0], false)] + rest);
      CutAtSeparator(params[0], ifs[0], rest, ifs);
    }
  }

  lemma CutOne(p: string, ifs: string)
    requires p != "" && NoIfs(p, ifs)
    ensures Cut(CharsOf(p, false), ifs) == [CharsOf(p, false)]
  {
    var a := CharsOf(p, false);
    RunLength(a, |p|, ifs);
    assert a[..|p|] == a && a[|p|..] == [];
    assert DelimiterLength([], ifs) == 0;
  }

  lemma {:induction false} CharsAllPathnames(params: seq<string>, env: Env)
    requires forall i :: 0 <= i < |params| ==> NoMetachars(params[i])
    ensures Pathnames(GroupAll(CharsAll(params)), env) == params
    decreases |params|
  {
    hide Group, HasMetachar, Flatten;
    if params != [] {
      CharsAllPathnames(params[1..], env);
      var a := CharsOf(params[0], false);
      FlattenGroup(a);
      TextOfChars(params[0], false);
      assert NoMetachars(params[0]);
      GroupMeta(a);
      var fields := GroupAll(CharsAll(params));
      assert fields[0] == Group(a) && fields[1..] == GroupAll(CharsAll(params[1..]));
    }
  }

  lemma StarExpands(env: Env)
    ensures Expand([ParamExpansion("*")], env) == [Piece(Join(env.params, Separator(env.ifs)), false, false)]
  {
    hide Parts, Expand;
    PartsOne(ParamExpansion("*"), env);
  }

  lemma StarSplits(joined: string, ifs: string)
    requires ifs != ""
    ensures SplitWord([], [Piece(joined, false, false)], ifs) == GroupAll(Fields(CharsOf(joined, false), ifs))
  {
    hide Fields;
    var w := [Piece(joined, false, false)];
    assert w[1..] == [] && [] + w == w;
    assert SplitWord([], w, ifs) == SplitWord(w, [], ifs);
    assert Atoms(w) == CharsOf(joined, false) + [];
    assert CharsOf(joined, false) + [] == CharsOf(joined, false);
  }

  /** Unquoted `$*` joins with the first IFS character and splits again, which
      reproduces every list of plain parameters when IFS is not empty. */
  lemma StarReproducesParams(env: Env)
    requires env.ifs != ""
    requires forall i :: 0 <= i < |env.params| ==> PlainParam(env.params[i], env.ifs)
    ensures ToFields([ParamExpansion("*")], env) == env.params
  {
    hide Expand, SplitWord, Pathnames, Cut, Text, GroupAll;
    StarExpands(env);
    var joined := Join(env.params, Separator(env.ifs));
    StarSplits(joined, env.ifs);
    CharsAllPathnames(env.params, env);
    if env.params == [] {
      FieldsOfNothing(env.ifs);
    } else {
      CutJoined(env.params, env.ifs);
      NoLeadingWhite(CharsOf(joined, false), env.ifs);
    }
  }

  lemma {:induction false} CharsAllTexts(params: seq<string>)
    ensures FieldTexts(GroupAll(CharsAll(params))) == params
    decreases |params|
  {
    hide Group, Flatten;
    if params != [] {
      CharsAllTexts(params[1..]);
      var a := CharsOf(params[0], false);
      FlattenGroup(a);
      TextOfChars(params[0], false);
      var fields := GroupAll(CharsAll(params));
      assert fields[0] == Group(a) && fields[1..] == GroupAll(CharsAll(params[1..]));
    }
  }

  /** Before the pathname step `$*` is the parameters too, metacharacters and all. */
  lemma StarSplitsToParams(env: Env)
    requires env.ifs != "" && AllFree(env.params, env.ifs)
    ensures FieldTexts(SplitWord([], Expand([ParamExpansion("*")], env), env.ifs)) == env.params
  {
    hide Expand, SplitWord, FieldTexts, Cut, Text, GroupAll;
    StarExpands(env);
    var joined := Join(env.params, Separator(env.ifs));
    StarSplits(joined, env.ifs);
    CharsAllTexts(env.params);
    if env.params == [] {
      FieldsOfNothing(env.ifs);
    } else {
      CutJoined(env.params, env.ifs);
      NoLeadingWhite(CharsOf(joined, false), env.ifs);
    }
  }

  lemma FieldsOfNothing(ifs: string)
    ensures Fields(CharsOf("", false), ifs) == []
  {
    var a := CharsOf("", false);
    assert a == [] && a[0..] == [] && a[..0] == [];
  }

  lemma NoLeadingWhite(a: seq<Atom>, ifs: string)
    requires a != [] && Text(a[0], ifs)
    ensures Fields(a, ifs) == Cut(a, ifs)
  {
    hide Cut;
    assert WhiteRun(a, ifs) == 0 && a[0..] == a;
  }
}
