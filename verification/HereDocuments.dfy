/** Here-document bodies laid out after their line are read back exactly. */
module HereDocuments {
  import opened Prelude
  import opened LexerSpec
  import opened Ast
  import opened TokenStream
  import opened Tokens
  import ParserSpec

  function JoinLines(lines: seq<string>): string {
    if lines == [] then "" else lines[0] + "\n" + JoinLines(lines[1..])
  }

  predicate AreLines(lines: seq<string>) {
    forall i :: 0 <= i < |lines| ==> '\n' !in lines[i]
  }

  /** No line ends the body early and none is changed by tab stripping. */
  predicate KeepsLines(lines: seq<string>, delimiter: string, strip: bool) {
    forall i :: 0 <= i < |lines| ==>
      lines[i] != delimiter && (strip ==> lines[i] == "" || lines[i][0] != '\t')
  }

  predicate IsDelimiter(delimiter: string, strip: bool) {
    '\n' !in delimiter && (strip ==> delimiter == "" || delimiter[0] != '\t')
  }

  lemma {:induction false} LineEndAt(line: string, rest: string)
    requires '\n' !in line
    ensures LineEnd(line + "\n" + rest) == |line|
  {
    var s := line + "\n" + rest;
    if line != "" {
      assert s[1..] == line[1..] + "\n" + rest;
      LineEndAt(line[1..], rest);
    }
  }

  /** One line of a body. */
  lemma BodyLine(line: string, rest: string, delimiter: string, strip: bool, body: string)
    requires '\n' !in line
    ensures var kept := if strip then StripTabs(line) else line;
            HeredocBody(line + "\n" + rest, delimiter, strip, body)
            == if kept == delimiter then Got(body, rest) else HeredocBody(rest, delimiter, strip, body + kept + "\n")
  {
    LineEndAt(line, rest);
    var s := line + "\n" + rest;
    assert s[..|line|] == line && s[|line| + 1..] == rest;
  }

  lemma {:induction false} StripShortens(line: string)
    ensures |StripTabs(line)| <= |line|
    ensures line != "" && line[0] == '\t' ==> |StripTabs(line)| < |line|
  {
    if line != "" && line[0] == '\t' {
      StripShortens(line[1..]);
    }
  }

  function Laid(lines: seq<string>, delimiter: string, rest: string): string {
    JoinLines(lines) + delimiter + "\n" + rest
  }

  lemma LaidCons(lines: seq<string>, delimiter: string, rest: string)
    requires lines != []
    ensures Laid(lines, delimiter, rest) == lines[0] + "\n" + Laid(lines[1..], delimiter, rest)
  {
  }

  lemma LaidEnd(delimiter: string, rest: string, strip: bool, body: string)
    requires IsDelimiter(delimiter, strip)
    ensures HeredocBody(Laid([], delimiter, rest), delimiter, strip, body) == Got(body, rest)
  {
    assert Laid([], delimiter, rest) == delimiter + "\n" + rest;
    BodyLine(delimiter, rest, delimiter, strip, body);
  }

  /** Whatever the lines are, reading up to the last delimiter never adds text. */
  lemma {:induction false} BodyNeverGrows(lines: seq<string>, delimiter: string, rest: string, strip: bool, body: string)
    requires AreLines(lines) && IsDelimiter(delimiter, strip)
    ensures var r := HeredocBody(Laid(lines, delimiter, rest), delimiter, strip, body);
            r.Got? && |r.rest| >= |rest| && |r.value| <= |body| + |JoinLines(lines)|
    decreases |lines|
  {
    if lines == [] {
      LaidEnd(delimiter, rest, strip, body);
    } else {
      var more := Laid(lines[1..], delimiter, rest);
      LaidCons(lines, delimiter, rest);
      BodyLine(lines[0], more, delimiter, strip, body);
      StripShortens(lines[0]);
      var kept := if strip then StripTabs(lines[0]) else lines[0];
      if kept != delimiter {
        BodyNeverGrows(lines[1..], delimiter, rest, strip, body + kept + "\n");
      }
    }
  }

  /** A body comes back unchanged, with the text after its delimiter line, if
      and only if no line of it is (or, with `<<-`, begins with a tab or is) the
      delimiter. */
  lemma {:induction false} BodyRoundTrip(lines: seq<string>, delimiter: string, rest: string, strip: bool, body: string)
    requires AreLines(lines) && IsDelimiter(delimiter, strip)
    ensures HeredocBody(Laid(lines, delimiter, rest), delimiter, strip, body) == Got(body + JoinLines(lines), rest)
       <==> KeepsLines(lines, delimiter, strip)
    decreases |lines|
  {
    hide HeredocBody, StripTabs, Laid, KeepsLines;
    if lines == [] {
      assert KeepsLines(lines, delimiter, strip) by { KeepsNone(delimiter, strip); }
      LaidEnd(delimiter, rest, strip, body);
      assert body + JoinLines(lines) == body;
    } else {
      var line, more := lines[0], Laid(lines[1..], delimiter, rest);
      LaidCons(lines, delimiter, rest);
      BodyLine(line, more, delimiter, strip, body);
      StripShortens(line);
      var kept := if strip then StripTabs(line) else line;
      var next := body + kept + "\n";
      if kept == line && line != delimiter {
        BodyRoundTrip(lines[1..], delimiter, rest, strip, next);
        JoinCons(lines, body);
        KeepsCons(lines, delimiter, strip);
      } else {
        BodyNeverGrows(lines[1..], delimiter, rest, strip, next);
        JoinCons(lines, body);
        LaidLength(lines[1..], delimiter, rest);
        KeepsNot(lines, delimiter, strip);
      }
    }
  }

  lemma KeepsNone(delimiter: string, strip: bool)
    ensures KeepsLines([], delimiter, strip)
  {
  }

  lemma JoinCons(lines: seq<string>, body: string)
    requires lines != []
    ensures body + JoinLines(lines) == body + lines[0] + "\n" + JoinLines(lines[1..])
    ensures |JoinLines(lines)| == |lines[0]| + 1 + |JoinLines(lines[1..])|
  {
  }

  lemma LaidLength(lines: seq<string>, delimiter: string, rest: string)
    ensures |Laid(lines, delimiter, rest)| > |rest|
  {
  }

  lemma KeepsNot(lines: seq<string>, delimiter: string, strip: bool)
    requires lines != [] && IsDelimiter(delimiter, strip)
    requires (if strip then StripTabs(lines[0]) else lines[0]) != lines[0] || lines[0] == delimiter
    ensures !KeepsLines(lines, delimiter, strip)
    ensures lines[0] == delimiter ==> (if strip then StripTabs(lines[0]) else lines[0]) == delimiter
    ensures |if strip then StripTabs(lines[0]) else lines[0]| < |lines[0]| || lines[0] == delimiter
  {
    StripShortens(lines[0]);
  }

  lemma KeepsCons(lines: seq<string>, delimiter: string, strip: bool)
    requires lines != [] && lines[0] != delimiter && (if strip then StripTabs(lines[0]) else lines[0]) == lines[0]
    ensures KeepsLines(lines, delimiter, strip) <==> KeepsLines(lines[1..], delimiter, strip)
  {
    StripShortens(lines[0]);
    if KeepsLines(lines[1..], delimiter, strip) {
      forall i | 0 <= i < |lines|
        ensures lines[i] != delimiter && (strip ==> lines[i] == "" || lines[i][0] != '\t')
      {
        assert i == 0 || lines[i] == lines[1..][i - 1];
      }
    }
    if KeepsLines(lines, delimiter, strip) {
      assert forall i :: 0 <= i < |lines| - 1 ==> lines[1..][i] == lines[i + 1];
    }
  }

  // ------------------------------------------------ several here-documents

  datatype LaidDocument = LaidDocument(doc: HereDoc, lines: seq<string>)

  function Docs(ds: seq<LaidDocument>): (r: seq<HereDoc>)
    ensures |r| == |ds|
  {
    if ds == [] then [] else [ds[0].doc] + Docs(ds[1..])
  }

  function Bodies(ds: seq<LaidDocument>): seq<string> {
    if ds == [] then [] else [JoinLines(ds[0].lines)] + Bodies(ds[1..])
  }

  function Layout(ds: seq<LaidDocument>, rest: string): string {
    if ds == [] then rest else Laid(ds[0].lines, ds[0].doc.delimiter, Layout(ds[1..], rest))
  }

  predicate Readable(d: LaidDocument) {
    && AreLines(d.lines) && IsDelimiter(d.doc.delimiter, d.doc.strip)
    && KeepsLines(d.lines, d.doc.delimiter, d.doc.strip)
  }

  lemma ReadOne(s: string, docs: seq<HereDoc>, done: seq<string>, body: string, rest: string)
    requires docs != [] && HeredocBody(s, docs[0].delimiter, docs[0].strip, "") == Got(body, rest)
    ensures ReadBodies(s, docs, done) == ReadBodies(rest, docs[1..], done + [body])
  {
    hide HeredocBody;
  }

  lemma {:induction false} BodiesRoundTrip(ds: seq<LaidDocument>, rest: string, done: seq<string>)
    requires forall i :: 0 <= i < |ds| ==> Readable(ds[i])
    ensures ReadBodies(Layout(ds, rest), Docs(ds), done) == Got(done + Bodies(ds), rest)
    decreases |ds|
  {
    hide HeredocBody, Laid, Readable, JoinLines;
    if ds == [] {
      assert done + Bodies(ds) == done;
    } else {
      var body := JoinLines(ds[0].lines);
      assert Readable(ds[0]);
      OneBody(ds[0], Layout(ds[1..], rest));
      assert Docs(ds)[0] == ds[0].doc && Docs(ds)[1..] == Docs(ds[1..]);
      ReadOne(Layout(ds, rest), Docs(ds), done, body, Layout(ds[1..], rest));
      BodiesRoundTrip(ds[1..], rest, done + [body]);
      Regroup(done, body, Bodies(ds[1..]));
    }
  }

  lemma Regroup(done: seq<string>, body: string, more: seq<string>)
    ensures done + [body] + more == done + ([body] + more)
  {
  }

  lemma OneBody(d: LaidDocument, rest: string)
    requires Readable(d)
    ensures HeredocBody(Laid(d.lines, d.doc.delimiter, rest), d.doc.delimiter, d.doc.strip, "")
         == Got(JoinLines(d.lines), rest)
  {
    BodyRoundTrip(d.lines, d.doc.delimiter, rest, d.doc.strip, "");
    assert "" + JoinLines(d.lines) == JoinLines(d.lines);
  }

  /** The bodies of all here-documents pending at the end of a line, laid out in
      order from its next character, read back exactly; tokens resume after
      them. */
  lemma PendingBodiesRoundTrip(ds: seq<LaidDocument>, rest: string)
    requires forall i :: 0 <= i < |ds| ==> Readable(ds[i])
    ensures var more := LexAll(rest, [], None);
            LexLine(Layout(ds, rest), Docs(ds)) == more.(bodies := Bodies(ds) + more.bodies)
  {
    hide ReadBodies, LexAll, Layout, Readable;
    BodiesRoundTrip(ds, rest, []);
    assert [] + Bodies(ds) == Bodies(ds);
  }

  // --------------------------------------------------------- tabs and ends

  function Tabs(n: nat): (r: string)
    ensures |r| == n
  {
    if n == 0 then "" else "\t" + Tabs(n - 1)
  }

  /** The lines, each with tabs before it. */
  function Indented(lines: seq<string>, tabs: seq<nat>): (r: seq<string>)
    requires |tabs| == |lines|
    ensures |r| == |lines|
  {
    if lines == [] then [] else [Tabs(tabs[0]) + lines[0]] + Indented(lines[1..], tabs[1..])
  }

  lemma {:induction false} TabsAreStripped(n: nat, line: string)
    requires line == "" || line[0] != '\t'
    ensures StripTabs(Tabs(n) + line) == line
    ensures '\n' !in line ==> '\n' !in Tabs(n) + line
  {
    if n == 0 {
      assert Tabs(n) + line == line;
    } else {
      assert (Tabs(n) + line)[1..] == Tabs(n - 1) + line;
      TabsAreStripped(n - 1, line);
    }
  }

  /** With `<<-` any tabs before the lines and before the delimiter go. */
  lemma {:induction false} IndentedBodyBack(lines: seq<string>, tabs: seq<nat>, last: nat, delimiter: string, rest: string,
                                            body: string)
    requires |tabs| == |lines| && AreLines(lines) && IsDelimiter(delimiter, true) && KeepsLines(lines, delimiter, true)
    ensures HeredocBody(Laid(Indented(lines, tabs), Tabs(last) + delimiter, rest), delimiter, true, body)
         == Got(body + JoinLines(lines), rest)
    decreases |lines|
  {
    hide HeredocBody, StripTabs, Laid, Tabs;
    var indented := Indented(lines, tabs);
    if lines == [] {
      TabsAreStripped(last, delimiter);
      LaidIsEnd(Tabs(last) + delimiter, rest);
      BodyLine(Tabs(last) + delimiter, rest, delimiter, true, body);
      assert body + JoinLines(lines) == body;
    } else {
      var more := Laid(indented[1..], Tabs(last) + delimiter, rest);
      LaidCons(indented, Tabs(last) + delimiter, rest);
      assert lines[0] != delimiter && (lines[0] == "" || lines[0][0] != '\t');
      TabsAreStripped(tabs[0], lines[0]);
      BodyLine(indented[0], more, delimiter, true, body);
      assert forall i :: 0 <= i < |lines| - 1 ==> lines[1..][i] == lines[i + 1];
      IndentedBodyBack(lines[1..], tabs[1..], last, delimiter, rest, body + lines[0] + "\n");
      JoinCons(lines, body);
    }
  }

  lemma LaidIsEnd(delimiter: string, rest: string)
    ensures Laid([], delimiter, rest) == delimiter + "\n" + rest
  {
  }

  /** The last line of the input may be the delimiter without a newline; without a
      delimiter the body is unterminated. */
  lemma EndOfInput(line: string, delimiter: string, strip: bool, body: string)
    requires '\n' !in line
    ensures HeredocBody(line, delimiter, strip, body)
         == if (if strip then StripTabs(line) else line) == delimiter then Got(body, "") else Unterminated
  {
    hide StripTabs;
    NoLineEnd(line);
    assert line[..|line|] == line;
  }

  lemma {:induction false} NoLineEnd(line: string)
    requires '\n' !in line
    ensures LineEnd(line) == |line|
  {
    if line != "" {
      NoLineEnd(line[1..]);
    }
  }

  // ------------------------------------------------------------- delimiters

  lemma FlattenFirst(p: WordPart, w: Word)
    ensures FlattenText([p] + w) == FlattenText([p]) + FlattenText(w)
  {
    assert ([p] + w)[1..] == w && [p][1..] == [];
  }

  /** The delimiter is the word after the operator without its quotes; the body is
      literal if and only if any of the word was quoted. The tree and the list of
      pending here-documents agree on it. */
  lemma DelimiterOfWord(w: Word, plain: string, quoted: string, s: ParserSpec.State, op: Token)
    requires ParserSpec.Cur(s) == WordTok(w) && (op == DLess || op == DLessDash) && |s.ts| > 1
    ensures var target := ParserSpec.ParseTarget(s, op);
            var doc := DocOf(op == DLessDash, w);
            && target.Ok? && target.value.0 == HereDocTarget(s.docs, doc) && Awaiting(op) == Some(doc.strip)
            && doc.strip == (op == DLessDash)
            && (w == [Literal(plain)] ==> doc.delimiter == plain && !doc.literal)
            && (w == [Literal(plain), SingleQuoted(quoted)] ==> doc.delimiter == plain + quoted && doc.literal)
            && (w == [DoubleQuoted([Literal(quoted)]), Literal(plain)] ==> doc.delimiter == quoted + plain && doc.literal)
  {
    FlattenFirst(Literal(plain), [SingleQuoted(quoted)]);
    FlattenFirst(DoubleQuoted([Literal(quoted)]), [Literal(plain)]);
    assert [Literal(plain)] + [SingleQuoted(quoted)] == [Literal(plain), SingleQuoted(quoted)];
    assert [DoubleQuoted([Literal(quoted)])] + [Literal(plain)] == [DoubleQuoted([Literal(quoted)]), Literal(plain)];
    assert [Literal(plain)][1..] == [] && [SingleQuoted(quoted)][1..] == [] && [Literal(quoted)][1..] == [];
    assert [DoubleQuoted([Literal(quoted)])][1..] == [];
    assert w == [Literal(plain), SingleQuoted(quoted)] ==> w[1].SingleQuoted?;
    assert w == [DoubleQuoted([Literal(quoted)]), Literal(plain)] ==> w[0].DoubleQuoted?;
  }
}
