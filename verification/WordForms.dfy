/** Other ways to write what the canonical spelling writes: parameters without
    braces, line continuations, backslashes in backquotes, comments and blanks. */
module WordForms {
  import opened Prelude
  import opened Tokens
  import opened LexerSpec
  import opened WordRoundTrip

  // ---------------------------------------------------------------- parameters

  lemma {:induction false} NameRunTakes(n: string, rest: string, buffer: string)
    requires (forall i :: 0 <= i < |n| ==> IsNameChar(n[i])) && (rest == "" || !IsNameChar(rest[0]))
    ensures NameRun(n + rest, buffer) == (buffer + n, rest)
    decreases |n|
  {
    if n == "" {
      assert n + rest == rest && buffer + n == buffer;
    } else {
      assert (n + rest)[0] == n[0] && (n + rest)[1..] == n[1..] + rest;
      NameRunTakes(n[1..], rest, buffer + [n[0]]);
      assert buffer + [n[0]] + n[1..] == buffer + n;
    }
  }

  /** `$name` is the parameter whose name goes on as far as it can, in quotes or not. */
  lemma NamedParameter(n: string, rest: string, parts: Word, ends: bool)
    requires IsName(n) && (rest == "" || !IsNameChar(rest[0]))
    ensures ScanWord("$" + (n + rest), ends, parts) == ScanWord(rest, ends, parts + [ParamExpansion(n)])
    ensures ExpansionBody("$" + (n + rest), ends, parts) == ExpansionBody(rest, ends, parts + [ParamExpansion(n)])
  {
    hide ScanWord, ExpansionBody, NameRun;
    NameRunTakes(n, rest, "");
    assert "" + n == n && (n + rest)[0] == n[0];
    assert Dollar(n + rest, parts) == Got(parts + [ParamExpansion(n)], rest);
    OpenDollar(n + rest, parts, ends);
  }

  lemma OneCharacterNames(c: char)
    ensures c in "0123456789@*#?-$!" <==> IsDigit(c) || IsSpecialParam(c)
  {
    var names := "0123456789@*#?-$!";
    if IsDigit(c) {
      assert names[c as int - '0' as int] == c;
    }
    assert names[10] == '@' && names[11] == '*' && names[12] == '#' && names[13] == '?';
    assert names[14] == '-' && names[15] == '$' && names[16] == '!';
  }

  /** `$` and one digit or special character is that parameter, whatever follows. */
  lemma OneCharacterParameter(c: char, rest: string, parts: Word, ends: bool)
    requires c in "0123456789@*#?-$!"
    ensures ScanWord("$" + ([c] + rest), ends, parts) == ScanWord(rest, ends, parts + [ParamExpansion([c])])
    ensures ExpansionBody("$" + ([c] + rest), ends, parts) == ExpansionBody(rest, ends, parts + [ParamExpansion([c])])
  {
    hide ScanWord, ExpansionBody;
    OneCharacterNames(c);
    assert ([c] + rest)[0] == c && ([c] + rest)[1..] == rest;
    assert Dollar([c] + rest, parts) == Got(parts + [ParamExpansion([c])], rest);
    OpenDollar([c] + rest, parts, ends);
  }

  lemma NotAmong(c: char)
    requires c !in "({0123456789@*#?-$!"
    ensures c !in "0123456789@*#?-$!" && c != '(' && c != '{'
  {
    var all, names := "({0123456789@*#?-$!", "0123456789@*#?-$!";
    assert all[2..] == names && all[0] == '(' && all[1] == '{';
  }

  /** Any other `$` is literal. */
  lemma LoneDollar(rest: string, parts: Word, ends: bool)
    requires rest == "" || (!IsNameStart(rest[0]) && rest[0] !in "({0123456789@*#?-$!")
    ensures ScanWord("$" + rest, ends, parts) == ScanWord(rest, ends, AppendText(parts, false, "$"))
    ensures ExpansionBody("$" + rest, ends, parts) == ExpansionBody(rest, ends, AppendText(parts, false, "$"))
  {
    hide ScanWord, ExpansionBody, Dollar;
    if rest != "" {
      OneCharacterNames(rest[0]);
      NotAmong(rest[0]);
    }
    DollarIsLiteral(rest, parts);
    OpenDollar(rest, parts, ends);
  }

  // -------------------------------------------------------------- backslashes

  /** A backslash before a newline disappears with it, in quotes or not. */
  lemma ContinuationDisappears(s: string, parts: Word, ends: bool)
    ensures ScanWord("\\\n" + s, ends, parts) == ScanWord(s, ends, parts)
    ensures ExpansionBody("\\\n" + s, ends, parts) == ExpansionBody(s, ends, parts)
  {
    var t := "\\\n" + s;
    assert t[0] == '\\' && t[1] == '\n' && t[2..] == s;
  }

  /** Any other character loses its meaning after a backslash, outside quotes. */
  lemma BackslashProtects(c: char, s: string, parts: Word, ends: bool)
    requires c != '\n'
    ensures ScanWord(['\\', c] + s, ends, parts) == ScanWord(s, ends, AppendText(parts, true, [c]))
  {
    hide ScanWord;
    BackslashStep(c, s, parts, ends);
  }

  /** Where no quotes are around the text, as in the body of a here-document, a double
      quote is literal. A backslash before it goes all the same, although section 2.7.4
      of POSIX.1-2017 has it stay there. */
  lemma DoubleQuoteInBody(s: string, parts: Word)
    ensures ExpansionBody("\"" + s, false, parts) == ExpansionBody(s, false, AppendText(parts, false, "\""))
    ensures ExpansionBody("\\\"" + s, false, parts) == ExpansionBody(s, false, AppendText(parts, true, "\""))
  {
    hide AppendText;
    var t, u := "\"" + s, "\\\"" + s;
    assert t[0] == '"' && t[1..] == s && u[0] == '\\' && u[1] == '"' && u[2..] == s;
  }

  /** A character of text in backquotes: as it is, or after a backslash. */
  datatype Quoted = AsIs(c: char) | Backslashed(c: char)

  predicate IsProtected(c: char) {
    c == '$' || c == '`' || c == '\\'
  }

  function WriteOne(q: Quoted): string {
    if q.AsIs? then [q.c] else ['\\', q.c]
  }

  /** What is left of it: the backslash goes before `$`, backquote and backslash only. */
  function MeantByOne(q: Quoted): string {
    if q.AsIs? || IsProtected(q.c) then [q.c] else ['\\', q.c]
  }

  function WriteQuoted(qs: seq<Quoted>): string {
    if qs == [] then "" else WriteOne(qs[0]) + WriteQuoted(qs[1..])
  }

  function Meant(qs: seq<Quoted>): string {
    if qs == [] then "" else MeantByOne(qs[0]) + Meant(qs[1..])
  }

  /** Backquotes hold any text written so, up to the first bare backquote. */
  lemma {:induction false} BackquotesUnescape(qs: seq<Quoted>, after: string, buffer: string)
    requires forall i :: 0 <= i < |qs| && qs[i].AsIs? ==> qs[i].c != '`' && qs[i].c != '\\'
    ensures BacktickBody(WriteQuoted(qs) + ("`" + after), buffer) == Got(buffer + Meant(qs), after)
    decreases |qs|
  {
    hide WriteOne, MeantByOne, BacktickBody;
    if qs == [] {
      BackquoteEnds(after, buffer);
      assert buffer + "" == buffer && "" + ("`" + after) == "`" + after;
    } else {
      var more := WriteQuoted(qs[1..]) + ("`" + after);
      assert WriteQuoted(qs) + ("`" + after) == WriteOne(qs[0]) + more;
      BackquoteStep(qs[0], more, buffer);
      BackquotesUnescape(qs[1..], after, buffer + MeantByOne(qs[0]));
      assert buffer + MeantByOne(qs[0]) + Meant(qs[1..]) == buffer + Meant(qs);
    }
  }

  lemma BackquoteEnds(after: string, buffer: string)
    ensures BacktickBody("`" + after, buffer) == Got(buffer, after)
  {
    assert ("`" + after)[1..] == after;
  }

  lemma BackquoteStep(q: Quoted, more: string, buffer: string)
    requires more != "" && (q.AsIs? ==> q.c != '`' && q.c != '\\')
    ensures BacktickBody(WriteOne(q) + more, buffer) == BacktickBody(more, buffer + MeantByOne(q))
  {
    if q.AsIs? {
      assert ([q.c] + more)[1..] == more;
    } else {
      var s := ['\\', q.c] + more;
      assert s[0] == '\\' && s[1] == q.c && s[2..] == more;
      if !IsProtected(q.c) {
        assert s[1..] == [q.c] + more && ([q.c] + more)[1..] == more;
        assert BacktickBody(s, buffer) == BacktickBody([q.c] + more, buffer + ['\\']);
        assert buffer + ['\\'] + [q.c] == buffer + ['\\', q.c];
      }
    }
  }

  // --------------------------------------------------------- between tokens

  /** Blanks before a token, and a comment up to the end of its line, are skipped. */
  lemma BlanksAndCommentsAreSkipped(blanks: string, comment: string, s: string)
    requires (forall i :: 0 <= i < |blanks| ==> blanks[i] == ' ' || blanks[i] == '\t') && '\n' !in comment
    ensures Next(blanks + s) == Next(s)
    ensures Next(blanks + ("#" + comment + ("\n" + s))) == Got(Newline, s)
    ensures Next(blanks + ("#" + comment)) == Got(EndOfInput, "")
  {
    hide ScanWord, Operator, WordToken;
    BlanksSkipped(blanks, s);
    var line := "#" + comment + ("\n" + s);
    BlanksSkipped(blanks, line);
    assert line[1..] == comment + ("\n" + s);
    LineSkipped(comment, "\n" + s);
    BlanksSkipped(blanks, "#" + comment);
    assert ("#" + comment)[1..] == comment && comment + "" == comment;
    LineSkipped(comment, "");
    assert ("\n" + s)[1..] == s;
  }

  lemma {:induction false} BlanksSkipped(blanks: string, s: string)
    requires forall i :: 0 <= i < |blanks| ==> blanks[i] == ' ' || blanks[i] == '\t'
    ensures SkipBlanks(blanks + s) == SkipBlanks(s)
    decreases |blanks|
  {
    if blanks == "" {
      assert blanks + s == s;
    } else {
      assert (blanks + s)[0] == blanks[0] && (blanks + s)[1..] == blanks[1..] + s;
      BlanksSkipped(blanks[1..], s);
    }
  }

  lemma {:induction false} LineSkipped(comment: string, rest: string)
    requires '\n' !in comment && (rest == "" || rest[0] == '\n')
    ensures SkipLine(comment + rest) == rest
    decreases |comment|
  {
    if comment == "" {
      assert comment + rest == rest;
    } else {
      assert (comment + rest)[0] == comment[0] && (comment + rest)[1..] == comment[1..] + rest;
      LineSkipped(comment[1..], rest);
    }
  }

  /** Digits are an IO_NUMBER exactly directly before `<` or `>`. */
  lemma NumberBeforeRedirection(digits: string, rest: string)
    requires AllDigits(digits)
    ensures WordToken([Literal(digits)], rest)
         == if rest != "" && rest[0] in "<>" then IoNumber(digits) else WordTok([Literal(digits)])
  {
  }
}
