/** Words survive being spelled out and scanned again. Spell writes a word tree
    in a canonical quoted form, and NormalForm says which trees the scanner can
    be given back. */
module WordRoundTrip {
  import opened Prelude
  import opened Tokens
  import opened LexerSpec
  import opened BalancedText

  // --------------------------------------------------- canonical spelling

  function BackslashEach(t: string): string {
    if t == "" then "" else ['\\', t[0]] + BackslashEach(t[1..])
  }

  /** Inside backquotes a backslash protects a backquote or a backslash. */
  function EscapeBackquotes(t: string): string {
    if t == "" then ""
    else (if t[0] == '`' || t[0] == '\\' then ['\\', t[0]] else [t[0]]) + EscapeBackquotes(t[1..])
  }

  function FirstQuote(t: string): (n: nat)
    ensures n <= |t| && '\'' !in t[..n]
  {
    if t == "" || t[0] == '\'' then 0 else 1 + FirstQuote(t[1..])
  }

  /** Protected text is written in single quotes up to its first single quote
      and with backslashes from there; inside double quotes, with backslashes. */
  function SpellPart(p: WordPart, inQuotes: bool): string
    decreases p, 0
  {
    match p
    case Literal(t) => t
    case SingleQuoted(t) =>
      if inQuotes then BackslashEach(t)
      else "'" + t[..FirstQuote(t)] + "'" + BackslashEach(t[FirstQuote(t)..])
    case DoubleQuoted(ps) => "\"" + Spell(ps, true) + "\""
    case ParamExpansion(t) => "${" + t + "}"
    case CommandSubDollar(t) => "$(" + t + ")"
    case CommandSubBacktick(t) => "`" + EscapeBackquotes(t) + "`"
    case ArithExpansion(t) => "$((" + t + "))"
  }

  function Spell(w: Word, inQuotes: bool): string
    decreases w, 1
  {
    if w == [] then "" else SpellPart(w[0], inQuotes) + Spell(w[1..], inQuotes)
  }

  // ----------------------------------------------------------- normal form

  predicate ProtectedInQuotes(c: char) {
    c == '$' || c == '`' || c == '"' || c == '\\'
  }

  /** A literal character that is read as itself when next follows it. */
  predicate LiteralChar(c: char, inQuotes: bool, next: string) {
    && c != '"' && c != '`'
    && (c == '$' ==> next == "" || !StartsExpansion(next[0]))
    && if inQuotes
       then c == '\\' ==> next != "" && !ProtectedInQuotes(next[0]) && next[0] != '\n'
       else c != '\\' && c != '\'' && !EndsWord(c)
  }

  predicate LiteralText(t: string, inQuotes: bool, after: string) {
    t == "" || (LiteralChar(t[0], inQuotes, t[1..] + after) && LiteralText(t[1..], inQuotes, after))
  }

  /** The text reads as arithmetic, up to a `))`, after `$((`. */
  ghost predicate ReadsAsArith(s: string) {
    exists text, after :: IsBalanced(InArith, text) && s == text + "))" + after
  }

  /** p can be spelled in front of the text after. A command substitution that
      starts with a parenthesis must not be taken for arithmetic there. */
  ghost predicate PartNormal(p: WordPart, inQuotes: bool, after: string)
    decreases p, 0
  {
    match p
    case Literal(t) => t != "" && LiteralText(t, inQuotes, after)
    case SingleQuoted(t) =>
      if inQuotes then t != "" && forall i :: 0 <= i < |t| ==> ProtectedInQuotes(t[i])
      else '\n' !in t[FirstQuote(t)..]
    case DoubleQuoted(ps) => !inQuotes && NormalForm(ps, true, "\"" + after)
    case ParamExpansion(t) => IsBalanced(InBraces, t)
    case CommandSubDollar(t) =>
      && IsBalanced(InParens, t)
      && (t != "" && t[0] == '(' ==> !ReadsAsArith(t[1..] + ")" + after))
    case CommandSubBacktick(t) => true
    case ArithExpansion(t) => IsBalanced(InArith, t)
  }

  /** The scanner would run two such parts together. */
  predicate Merges(w: Word, p: WordPart, inQuotes: bool) {
    w != [] && (
      || (w[|w| - 1].Literal? && p.Literal?)
      || (inQuotes && w[|w| - 1].SingleQuoted? && p.SingleQuoted?))
  }

  ghost predicate NormalForm(w: Word, inQuotes: bool, after: string)
    decreases w, 1
  {
    w != [] ==>
      && PartNormal(w[0], inQuotes, Spell(w[1..], inQuotes) + after)
      && (|w| > 1 ==> !Merges([w[0]], w[1], inQuotes))
      && NormalForm(w[1..], inQuotes, after)
  }

  // ------------------------------- raw scans do not look past what they take

  lemma {:induction false} RawUntilLocal(q: char, escapes: bool, s: string, buffer: string, x: string)
    requires q != '\\' && RawUntil(q, escapes, s, buffer).Got?
    ensures var r := RawUntil(q, escapes, s, buffer);
            RawUntil(q, escapes, s + x, buffer) == Got(r.value, r.rest + x)
    decreases |s|
  {
    assert (s + x)[0] == s[0] && (s + x)[1..] == s[1..] + x;
    if escapes && s[0] == '\\' {
      assert (s + x)[1] == s[1] && (s + x)[2..] == s[2..] + x;
      RawUntilLocal(q, escapes, s[2..], buffer + [s[0]] + [s[1]], x);
    } else if s[0] != q {
      RawUntilLocal(q, escapes, s[1..], buffer + [s[0]], x);
    }
  }

  lemma {:induction false} BalancedParensLocal(s: string, depth: nat, buffer: string, x: string)
    requires depth > 0 && BalancedParens(s, depth, buffer).Got?
    ensures var r := BalancedParens(s, depth, buffer);
            BalancedParens(s + x, depth, buffer) == Got(r.value, r.rest + x)
    decreases |s|
  {
    var c := s[0];
    assert (s + x)[0] == c && (s + x)[1..] == s[1..] + x;
    if c == '\\' {
      assert (s + x)[1] == s[1] && (s + x)[2..] == s[2..] + x;
      BalancedParensLocal(s[2..], depth, buffer + [c] + [s[1]], x);
    } else if c == '\'' || c == '"' || c == '`' {
      RawUntilLocal(c, c != '\'', s[1..], buffer + [c], x);
      var r := RawUntil(c, c != '\'', s[1..], buffer + [c]);
      BalancedParensLocal(r.rest, depth, r.value, x);
    } else if c == '(' {
      BalancedParensLocal(s[1..], depth + 1, buffer + [c], x);
    } else if c == ')' {
      if depth > 1 {
        BalancedParensLocal(s[1..], depth - 1, buffer + [c], x);
      }
    } else {
      BalancedParensLocal(s[1..], depth, buffer + [c], x);
    }
  }

  lemma {:induction false} ArithScanLocal(s: string, depth: nat, buffer: string, x: string)
    requires ArithScan(s, depth, buffer) != RanOut
    ensures var r := ArithScan(s, depth, buffer);
            ArithScan(s + x, depth, buffer) == if r.Closed? then Closed(r.text, r.rest + x) else Broken
    decreases |s|
  {
    var c := s[0];
    assert (s + x)[0] == c && (s + x)[1..] == s[1..] + x;
    if c == '\\' {
      assert (s + x)[1] == s[1] && (s + x)[2..] == s[2..] + x;
      ArithScanLocal(s[2..], depth, buffer + [c] + [s[1]], x);
    } else if c == '\'' || c == '"' {
      RawUntilLocal(c, c == '"', s[1..], buffer + [c], x);
      var r := RawUntil(c, c == '"', s[1..], buffer + [c]);
      ArithScanLocal(r.rest, depth, r.value, x);
    } else if c == '(' {
      ArithScanLocal(s[1..], depth + 1, buffer + [c], x);
    } else if c == ')' {
      if depth > 0 {
        ArithScanLocal(s[1..], depth - 1, buffer + [c], x);
      } else {
        assert (s + x)[1] == s[1] && (s + x)[2..] == s[2..] + x;
      }
    } else {
      ArithScanLocal(s[1..], depth, buffer + [c], x);
    }
  }

  // ------------------------------------------------------ one part at a time

  lemma {:induction false} SingleQuotedBodyOf(t: string, after: string, buffer: string)
    requires '\'' !in t
    ensures SingleQuotedBody(t + "'" + after, buffer) == Got(buffer + t, after)
    decreases |t|
  {
    var s := t + "'" + after;
    if t == "" {
      assert s[0] == '\'' && s[1..] == after && buffer + t == buffer;
    } else {
      assert s[0] == t[0] && s[1..] == t[1..] + "'" + after;
      SingleQuotedBodyOf(t[1..], after, buffer + [t[0]]);
      assert buffer + [t[0]] + t[1..] == buffer + t;
    }
  }

  lemma {:induction false} BacktickBodyOf(t: string, after: string, buffer: string)
    ensures BacktickBody(EscapeBackquotes(t) + "`" + after, buffer) == Got(buffer + t, after)
    decreases |t|
  {
    var s := EscapeBackquotes(t) + "`" + after;
    if t == "" {
      assert s[0] == '`' && s[1..] == after && buffer + t == buffer;
    } else {
      var next := EscapeBackquotes(t[1..]) + "`" + after;
      assert s == (if t[0] == '`' || t[0] == '\\' then ['\\', t[0]] else [t[0]]) + next;
      if t[0] == '`' || t[0] == '\\' {
        assert s[2..] == next;
      } else {
        assert s[1..] == next;
      }
      BacktickBodyOf(t[1..], after, buffer + [t[0]]);
      assert buffer + [t[0]] + t[1..] == buffer + t;
    }
  }

  predicate IsDollarPart(p: WordPart) {
    p.ParamExpansion? || p.CommandSubDollar? || p.ArithExpansion?
  }

  lemma Inside(c: char, t: string, after: string)
    ensures var s := [c] + t + after; s[0] == c && s[1..] == t + after
  {
  }

  lemma ParamOf(s: string, t: string, after: string, parts: Word)
    requires IsBalanced(InBraces, t) && s == ['{'] + (t + "}") + after
    ensures Dollar(s, parts) == Got(parts + [ParamExpansion(t)], after)
  {
    hide IsBalanced, BalancedBraces;
    Inside('{', t + "}", after);
    BracesIff(t + "}" + after, t, after);
  }

  lemma ArithOf(s: string, t: string, after: string, parts: Word)
    requires IsBalanced(InArith, t) && s == ['('] + (['('] + (t + "))")) + after
    ensures Dollar(s, parts) == Got(parts + [ArithExpansion(t)], after)
  {
    hide IsBalanced, ArithScan;
    Inside('(', ['('] + (t + "))"), after);
    Inside('(', t + "))", after);
    ArithIff(t + "))" + after, t, after);
  }

  lemma NotArith(s: string)
    requires !ReadsAsArith(s)
    ensures !ArithScan(s, 0, "").Closed?
  {
    hide ArithScan, IsBalanced;
    var r := ArithScan(s, 0, "");
    if r.Closed? {
      ArithIff(s, r.text, r.rest);
    }
  }

  lemma CommandSubOf(s: string, t: string, after: string, parts: Word)
    requires IsBalanced(InParens, t) && s == ['('] + (t + ")") + after
    requires t != "" && t[0] == '(' ==> !ReadsAsArith(t[1..] + ")" + after)
    ensures Dollar(s, parts) == Got(parts + [CommandSubDollar(t)], after)
  {
    hide IsBalanced, BalancedParens, ArithScan, ReadsAsArith;
    Inside('(', t + ")", after);
    ParensIff(t + ")" + after, t, after);
    if t == "" {
      assert (t + ")" + after)[0] == ')';
    } else {
      assert (t + ")" + after)[0] == t[0] && (t + ")" + after)[1..] == t[1..] + ")" + after;
      if t[0] == '(' {
        NotArith(t[1..] + ")" + after);
      }
    }
  }

  lemma DollarOf(p: WordPart, inQuotes: bool, after: string, parts: Word)
    requires IsDollarPart(p) && PartNormal(p, inQuotes, after)
    ensures SpellPart(p, inQuotes) != "" && SpellPart(p, inQuotes)[0] == '$'
    ensures Dollar((SpellPart(p, inQuotes) + after)[1..], parts) == Got(parts + [p], after)
  {
    var s := (SpellPart(p, inQuotes) + after)[1..];
    if p.ParamExpansion? {
      assert s == ['{'] + (p.text + "}") + after;
      ParamOf(s, p.text, after, parts);
    } else if p.CommandSubDollar? {
      assert s == ['('] + (p.text + ")") + after;
      CommandSubOf(s, p.text, after, parts);
    } else {
      assert s == ['('] + (['('] + (p.text + "))")) + after;
      ArithOf(s, p.text, after, parts);
    }
  }

  predicate Fresh(parts: Word, quoted: bool) {
    parts != [] ==> if quoted then !parts[|parts| - 1].SingleQuoted? else !parts[|parts| - 1].Literal?
  }

  /** The part that collects text, once it exists. */
  function Grown(parts: Word, quoted: bool, text: string): Word {
    if text == "" then parts else parts + [if quoted then SingleQuoted(text) else Literal(text)]
  }

  lemma GrowByOne(parts: Word, quoted: bool, text: string, c: char)
    requires text == "" ==> Fresh(parts, quoted)
    ensures AppendText(Grown(parts, quoted, text), quoted, [c]) == Grown(parts, quoted, text + [c])
  {
    if text == "" {
      assert text + [c] == [c];
    } else {
      var g := Grown(parts, quoted, text);
      assert g[..|g| - 1] == parts;
    }
  }

  lemma DollarIsLiteral(s: string, parts: Word)
    requires s == "" || !StartsExpansion(s[0])
    ensures Dollar(s, parts) == Got(AppendText(parts, false, "$"), s)
  {
  }

  lemma LiteralStep(c: char, tail: string, parts: Word, ends: bool)
    requires LiteralChar(c, false, tail)
    ensures ScanWord([c] + tail, ends, parts) == ScanWord(tail, ends, AppendText(parts, false, [c]))
  {
    hide Dollar, Backtick, SingleQuotedBody, ExpansionBody, AppendText;
    var s := [c] + tail;
    assert s[0] == c && s[1..] == tail;
    if c == '$' {
      DollarIsLiteral(tail, parts);
    }
  }

  lemma LiteralStepInQuotes(c: char, tail: string, parts: Word, ends: bool)
    requires LiteralChar(c, true, tail)
    ensures ExpansionBody([c] + tail, ends, parts) == ExpansionBody(tail, ends, AppendText(parts, false, [c]))
  {
    hide Dollar, Backtick, AppendText;
    var s := [c] + tail;
    assert s[0] == c && s[1..] == tail;
    if c == '$' {
      DollarIsLiteral(tail, parts);
    }
  }

  lemma BackslashStep(c: char, tail: string, parts: Word, ends: bool)
    requires c != '\n'
    ensures ScanWord(['\\', c] + tail, ends, parts) == ScanWord(tail, ends, AppendText(parts, true, [c]))
  {
    hide Dollar, Backtick, SingleQuotedBody, ExpansionBody, AppendText;
    var s := ['\\', c] + tail;
    assert s[0] == '\\' && s[1] == c && s[2..] == tail;
  }

  lemma BackslashStepInQuotes(c: char, tail: string, parts: Word, ends: bool)
    requires ProtectedInQuotes(c)
    ensures ExpansionBody(['\\', c] + tail, ends, parts) == ExpansionBody(tail, ends, AppendText(parts, true, [c]))
  {
    hide Dollar, Backtick, AppendText;
    var s := ['\\', c] + tail;
    assert s[0] == '\\' && s[1] == c && s[2..] == tail;
  }

  lemma Peel(done: string, t: string, after: string)
    requires t != ""
    ensures t + after == [t[0]] + (t[1..] + after) && done + [t[0]] + t[1..] == done + t
  {
  }

  lemma PeelBackslash(t: string, after: string)
    requires t != ""
    ensures BackslashEach(t) + after == ['\\', t[0]] + (BackslashEach(t[1..]) + after)
  {
  }

  lemma {:induction false} LiteralRun(done: string, t: string, after: string, parts: Word, ends: bool)
    requires LiteralText(t, false, after) && (done == "" ==> Fresh(parts, false))
    ensures ScanWord(t + after, ends, Grown(parts, false, done))
         == ScanWord(after, ends, Grown(parts, false, done + t))
    decreases |t|
  {
    hide ScanWord, Grown, AppendText, LiteralChar;
    if t == "" {
      assert t + after == after && done + t == done;
    } else {
      Peel(done, t, after);
      LiteralStep(t[0], t[1..] + after, Grown(parts, false, done), ends);
      GrowByOne(parts, false, done, t[0]);
      LiteralRun(done + [t[0]], t[1..], after, parts, ends);
    }
  }

  lemma {:induction false} LiteralRunInQuotes(done: string, t: string, after: string, parts: Word, ends: bool)
    requires LiteralText(t, true, after) && (done == "" ==> Fresh(parts, false))
    ensures ExpansionBody(t + after, ends, Grown(parts, false, done))
         == ExpansionBody(after, ends, Grown(parts, false, done + t))
    decreases |t|
  {
    hide ExpansionBody, Grown, AppendText, LiteralChar;
    if t == "" {
      assert t + after == after && done + t == done;
    } else {
      Peel(done, t, after);
      LiteralStepInQuotes(t[0], t[1..] + after, Grown(parts, false, done), ends);
      GrowByOne(parts, false, done, t[0]);
      LiteralRunInQuotes(done + [t[0]], t[1..], after, parts, ends);
    }
  }

  lemma {:induction false} BackslashRun(done: string, t: string, after: string, parts: Word, ends: bool)
    requires '\n' !in t
    ensures ScanWord(BackslashEach(t) + after, ends, parts + [SingleQuoted(done)])
         == ScanWord(after, ends, parts + [SingleQuoted(done + t)])
    decreases |t|
  {
    hide ScanWord;
    if t == "" {
      assert BackslashEach(t) + after == after && done + t == done;
    } else {
      PeelBackslash(t, after);
      Peel(done, t, after);
      var g := parts + [SingleQuoted(done)];
      assert g[..|g| - 1] == parts;
      BackslashStep(t[0], BackslashEach(t[1..]) + after, g, ends);
      BackslashRun(done + [t[0]], t[1..], after, parts, ends);
    }
  }

  lemma {:induction false} BackslashRunInQuotes(done: string, t: string, after: string, parts: Word, ends: bool)
    requires forall i :: 0 <= i < |t| ==> ProtectedInQuotes(t[i])
    requires done == "" ==> Fresh(parts, true)
    ensures ExpansionBody(BackslashEach(t) + after, ends, Grown(parts, true, done))
         == ExpansionBody(after, ends, Grown(parts, true, done + t))
    decreases |t|
  {
    hide ExpansionBody, Grown, AppendText;
    if t == "" {
      assert BackslashEach(t) + after == after && done + t == done;
    } else {
      PeelBackslash(t, after);
      Peel(done, t, after);
      BackslashStepInQuotes(t[0], BackslashEach(t[1..]) + after, Grown(parts, true, done), ends);
      GrowByOne(parts, true, done, t[0]);
      BackslashRunInQuotes(done + [t[0]], t[1..], after, parts, ends);
    }
  }

  lemma PartInQuotes(p: WordPart, after: string, parts: Word, ends: bool)
    requires PartNormal(p, true, after) && !Merges(parts, p, true)
    ensures ExpansionBody(SpellPart(p, true) + after, ends, parts) == ExpansionBody(after, ends, parts + [p])
  {
    hide ExpansionBody;
    if IsDollarPart(p) {
      ExpansionOf(p, true, after, parts, ends);
    } else if p.CommandSubBacktick? {
      BackquotedOf(p.text, after, parts, ends);
    } else if p.Literal? {
      LiteralRunInQuotes("", p.text, after, parts, ends);
      assert "" + p.text == p.text;
    } else {
      BackslashRunInQuotes("", p.text, after, parts, ends);
      assert "" + p.text == p.text;
    }
  }

  lemma ClosingQuote(rest: string, parts: Word)
    ensures ExpansionBody("\"" + rest, true, parts) == Got(parts, rest)
  {
    assert ("\"" + rest)[0] == '"' && ("\"" + rest)[1..] == rest;
  }

  lemma SpellCons(w: Word, inQuotes: bool, rest: string)
    requires w != []
    ensures Spell(w, inQuotes) + rest == SpellPart(w[0], inQuotes) + (Spell(w[1..], inQuotes) + rest)
  {
  }

  lemma {:induction false} BodyScan(w: Word, after: string, parts: Word, ends: bool)
    requires NormalForm(w, true, after) && (w != [] ==> !Merges(parts, w[0], true))
    ensures ExpansionBody(Spell(w, true) + after, ends, parts) == ExpansionBody(after, ends, parts + w)
    decreases |w|
  {
    hide ExpansionBody, PartNormal, SpellPart;
    if w == [] {
      assert Spell(w, true) + after == after && parts + w == parts;
    } else {
      SpellCons(w, true, after);
      PartInQuotes(w[0], Spell(w[1..], true) + after, parts, ends);
      BodyScan(w[1..], after, parts + [w[0]], ends);
      assert parts + [w[0]] + w[1..] == parts + w;
    }
  }

  lemma QuotedBodyRoundTrip(w: Word, rest: string, parts: Word)
    requires NormalForm(w, true, "\"" + rest) && (w != [] ==> !Merges(parts, w[0], true))
    ensures ExpansionBody(Spell(w, true) + ("\"" + rest), true, parts) == Got(parts + w, rest)
  {
    hide ExpansionBody, NormalForm, Spell, Merges;
    BodyScan(w, "\"" + rest, parts, true);
    ClosingQuote(rest, parts + w);
  }

  /** Text without quotes around it, as the body of a here-document is read: the same
      round trip, to the end of the text. */
  lemma OpenBodyRoundTrip(w: Word)
    requires NormalForm(w, true, "")
    ensures ExpansionBody(Spell(w, true), false, []) == Got(w, "")
  {
    hide NormalForm, Spell, SpellPart;
    BodyScan(w, "", [], false);
    assert Spell(w, true) + "" == Spell(w, true) && [] + w == w;
  }

  lemma OpenSingleQuote(body: string, parts: Word, ends: bool)
    requires SingleQuotedBody(body, "").Got?
    ensures var r := SingleQuotedBody(body, "");
            ScanWord("'" + body, ends, parts) == ScanWord(r.rest, ends, parts + [SingleQuoted(r.value)])
  {
    hide SingleQuotedBody, AppendText;
    assert ("'" + body)[0] == '\'' && ("'" + body)[1..] == body;
  }

  lemma OpenDoubleQuote(body: string, parts: Word, ends: bool)
    requires ExpansionBody(body, true, []).Got?
    ensures var r := ExpansionBody(body, true, []);
            ScanWord("\"" + body, ends, parts) == ScanWord(r.rest, ends, parts + [DoubleQuoted(r.value)])
  {
    hide ExpansionBody, AppendText;
    assert ("\"" + body)[0] == '"' && ("\"" + body)[1..] == body;
  }

  lemma OpenBackquote(body: string, parts: Word, ends: bool)
    requires Backtick(body, parts).Got?
    ensures var r := Backtick(body, parts);
            && ScanWord("`" + body, ends, parts) == ScanWord(r.rest, ends, r.value)
            && ExpansionBody("`" + body, ends, parts) == ExpansionBody(r.rest, ends, r.value)
  {
    hide Backtick, AppendText;
    assert ("`" + body)[0] == '`' && ("`" + body)[1..] == body;
  }

  lemma OpenDollar(body: string, parts: Word, ends: bool)
    requires Dollar(body, parts).Got?
    ensures var r := Dollar(body, parts);
            && ScanWord("$" + body, ends, parts) == ScanWord(r.rest, ends, r.value)
            && ExpansionBody("$" + body, ends, parts) == ExpansionBody(r.rest, ends, r.value)
  {
    hide Dollar, AppendText;
    assert ("$" + body)[0] == '$' && ("$" + body)[1..] == body;
  }

  lemma SingleQuotedOf(t: string, u: string, after: string, parts: Word, ends: bool)
    requires '\'' !in t && '\n' !in u
    ensures ScanWord("'" + t + "'" + BackslashEach(u) + after, ends, parts)
         == ScanWord(after, ends, parts + [SingleQuoted(t + u)])
  {
    hide ScanWord, SingleQuotedBody, BackslashEach;
    var more := BackslashEach(u) + after;
    assert "'" + t + "'" + BackslashEach(u) + after == "'" + (t + "'" + more);
    SingleQuotedBodyOf(t, more, "");
    assert "" + t == t;
    OpenSingleQuote(t + "'" + more, parts, ends);
    BackslashRun(t, u, after, parts, ends);
  }

  lemma BackquotedOf(t: string, after: string, parts: Word, ends: bool)
    ensures ScanWord("`" + EscapeBackquotes(t) + "`" + after, ends, parts)
         == ScanWord(after, ends, parts + [CommandSubBacktick(t)])
    ensures ExpansionBody("`" + EscapeBackquotes(t) + "`" + after, ends, parts)
         == ExpansionBody(after, ends, parts + [CommandSubBacktick(t)])
  {
    hide ScanWord, ExpansionBody, BacktickBody, EscapeBackquotes;
    var body := EscapeBackquotes(t) + "`" + after;
    assert "`" + EscapeBackquotes(t) + "`" + after == "`" + body;
    BacktickBodyOf(t, after, "");
    assert "" + t == t;
    OpenBackquote(body, parts, ends);
  }

  lemma DoubleQuotedOf(ps: Word, after: string, parts: Word, ends: bool)
    requires NormalForm(ps, true, "\"" + after)
    ensures ScanWord("\"" + Spell(ps, true) + "\"" + after, ends, parts)
         == ScanWord(after, ends, parts + [DoubleQuoted(ps)])
  {
    hide ScanWord, ExpansionBody, Spell, NormalForm;
    var body := Spell(ps, true) + ("\"" + after);
    assert "\"" + Spell(ps, true) + "\"" + after == "\"" + body;
    QuotedBodyRoundTrip(ps, after, []);
    assert [] + ps == ps;
    OpenDoubleQuote(body, parts, ends);
  }

  lemma LiteralOf(t: string, after: string, parts: Word, ends: bool)
    requires t != "" && LiteralText(t, false, after) && Fresh(parts, false)
    ensures ScanWord(t + after, ends, parts) == ScanWord(after, ends, parts + [Literal(t)])
  {
    hide ScanWord, LiteralText;
    LiteralRun("", t, after, parts, ends);
    assert "" + t == t;
  }

  lemma ExpansionOf(p: WordPart, inQuotes: bool, after: string, parts: Word, ends: bool)
    requires IsDollarPart(p) && PartNormal(p, inQuotes, after)
    ensures ScanWord(SpellPart(p, inQuotes) + after, ends, parts) == ScanWord(after, ends, parts + [p])
    ensures ExpansionBody(SpellPart(p, inQuotes) + after, ends, parts) == ExpansionBody(after, ends, parts + [p])
  {
    hide ScanWord, ExpansionBody, Dollar, SpellPart, PartNormal;
    DollarOf(p, inQuotes, after, parts);
    var s := SpellPart(p, inQuotes) + after;
    assert s == "$" + s[1..];
    OpenDollar(s[1..], parts, ends);
  }

  lemma PartRoundTrip(p: WordPart, after: string, parts: Word, ends: bool)
    requires PartNormal(p, false, after) && !Merges(parts, p, false)
    ensures ScanWord(SpellPart(p, false) + after, ends, parts) == ScanWord(after, ends, parts + [p])
  {
    hide ScanWord;
    if IsDollarPart(p) {
      ExpansionOf(p, false, after, parts, ends);
    } else if p.Literal? {
      LiteralOf(p.text, after, parts, ends);
    } else if p.SingleQuoted? {
      var n := FirstQuote(p.text);
      SingleQuotedOf(p.text[..n], p.text[n..], after, parts, ends);
      assert p.text[..n] + p.text[n..] == p.text;
    } else if p.DoubleQuoted? {
      DoubleQuotedOf(p.parts, after, parts, ends);
    } else {
      BackquotedOf(p.text, after, parts, ends);
    }
  }

  lemma WordEnds(rest: string, parts: Word)
    requires rest == "" || EndsWord(rest[0])
    ensures ScanWord(rest, true, parts) == Got(parts, rest)
  {
  }

  lemma {:induction false} WordScan(w: Word, rest: string, parts: Word, ends: bool)
    requires NormalForm(w, false, rest) && (w != [] ==> !Merges(parts, w[0], false))
    ensures ScanWord(Spell(w, false) + rest, ends, parts) == ScanWord(rest, ends, parts + w)
    decreases |w|
  {
    hide ScanWord, PartNormal, SpellPart;
    if w == [] {
      assert Spell(w, false) + rest == rest && parts + w == parts;
    } else {
      SpellCons(w, false, rest);
      PartRoundTrip(w[0], Spell(w[1..], false) + rest, parts, ends);
      WordScan(w[1..], rest, parts + [w[0]], ends);
      assert parts + [w[0]] + w[1..] == parts + w;
    }
  }

  /** Scanning the spelling of a word in normal form rebuilds exactly that word
      and stops at the blank, newline or operator that follows it. */
  lemma WordBack(w: Word, rest: string, parts: Word)
    requires NormalForm(w, false, rest) && (rest == "" || EndsWord(rest[0]))
    requires w != [] ==> !Merges(parts, w[0], false)
    ensures ScanWord(Spell(w, false) + rest, true, parts) == Got(parts + w, rest)
  {
    hide ScanWord, NormalForm, Spell, Merges;
    WordScan(w, rest, parts, true);
    WordEnds(rest, parts + w);
  }

  /** A text that is one word to its end, as the operand of an expansion is: the same,
      and blanks, newlines and operators do not end it but are literal. */
  lemma WholeTextBack(w: Word, blank: char, x: Word)
    requires NormalForm(w, false, [blank] + Spell(x, false)) && NormalForm(x, false, "") && EndsWord(blank)
    requires x != [] ==> !x[0].Literal?
    ensures ScanWord(Spell(w, false) + ([blank] + Spell(x, false)), false, []) == Got(AppendText(w, false, [blank]) + x, "")
  {
    hide ScanWord, NormalForm, SpellPart, AppendText, EndsWord;
    WordScan(w, [blank] + Spell(x, false), [], false);
    assert [] + w == w;
    BlankIsLiteral(blank, Spell(x, false), w);
    if x != [] {
      NoMerge(AppendText(w, false, [blank]), x);
    }
    WordScan(x, "", AppendText(w, false, [blank]), false);
    assert Spell(x, false) + "" == Spell(x, false);
    TextEnds(AppendText(w, false, [blank]) + x);
  }

  lemma NoMerge(parts: Word, x: Word)
    requires x != [] && !x[0].Literal?
    ensures !Merges(parts, x[0], false)
  {
  }

  lemma BlankIsLiteral(c: char, tail: string, parts: Word)
    requires EndsWord(c)
    ensures ScanWord([c] + tail, false, parts) == ScanWord(tail, false, AppendText(parts, false, [c]))
  {
    hide AppendText;
    assert ([c] + tail)[0] == c && ([c] + tail)[1..] == tail;
  }

  lemma TextEnds(parts: Word)
    ensures ScanWord("", false, parts) == Got(parts, "")
  {
  }

  /** Two words in normal form with the same spelling are the same word. */
  lemma SpellingIsInjective(v: Word, w: Word)
    requires NormalForm(v, false, "") && NormalForm(w, false, "")
    requires Spell(v, false) == Spell(w, false)
    ensures v == w
  {
    hide ScanWord, NormalForm, Spell;
    assert Spell(v, false) + "" == Spell(v, false);
    WordBack(v, "", []);
    WordBack(w, "", []);
    assert [] + v == v && [] + w == w;
  }

  // ------------------------------------------------------ the `$((` decision

  lemma DoubleParenIs(s: string, t: string)
    requires s == "(" + t && t != "" && t[0] == '('
    ensures Dollar(s, []) == match DollarDoubleParen(t)
                             case Unterminated => Unterminated
                             case Got(part, rest) => Got([part], rest)
  {
    assert s[0] == '(' && s[1..] == t && s[1] == t[0];
    match DollarDoubleParen(t)
    case Unterminated =>
    case Got(part, _) => assert [] + [part] == [part];
  }

  /** The condition on command substitutions is needed: the tentative scan runs
      past the end of this one and closes on the parenthesis that follows. */
  lemma DoubleParenCapturesWhatFollows()
    ensures IsBalanced(InParens, "(`(`)")
    ensures Dollar("(" + "(`(`))", []) == Got([CommandSubDollar("(`(`)")], "")
    ensures Dollar("(" + "(`(`)))", []) == Got([ArithExpansion("`(`)")], "")
  {
    hide IsBalanced;
    ParensOfExample();
    ParensIff("(`(`))", "(`(`)", "");
    ArithOfExample();
    assert "(`(`)" + ")" == "(`(`))";
    DoubleParenIs("(" + "(`(`))", "(`(`))");
    DoubleParenIs("(" + "(`(`)))", "(`(`)))");
    assert "(`(`))"[1..] == "`(`))" && "(`(`)))"[1..] == "`(`)))";
  }

  lemma ParensOfExample()
    ensures BalancedParens("(`(`))", 1, "") == Got("(`(`)", "")
  {
    assert RawUntil('`', true, "(`))", "(`") == Got("(`(`", "))") by {
      assert "(`))"[1..] == "`))" && "`))"[1..] == "))" && "(`" + ['('] == "(`(" && "(`(" + ['`'] == "(`(`";
      assert RawUntil('`', true, "`))", "(`(") == Got("(`(`", "))");
    }
    assert "(`(`))"[1..] == "`(`))" && "`(`))"[1..] == "(`))" && "))"[1..] == ")" && ")"[1..] == "";
    assert "(`(`" + [')'] == "(`(`)" && "(" + ['`'] == "(`" && "" + ['('] == "(";
    assert BalancedParens(")", 1, "(`(`)") == Got("(`(`)", "");
    assert BalancedParens("))", 2, "(`(`") == Got("(`(`)", "");
    assert BalancedParens("`(`))", 2, "(") == Got("(`(`)", "");
  }

  lemma ArithOfExample()
    ensures ArithScan("`(`))", 0, "") == RanOut
    ensures ArithScan("`(`)))", 0, "") == Closed("`(`)", "")
  {
    assert "`(`))"[1..] == "(`))" && "(`))"[1..] == "`))" && "`))"[1..] == "))" && "))"[1..] == ")";
    assert ArithScan(")", 0, "`(`)") == RanOut;
    assert ArithScan("))", 1, "`(`") == RanOut;
    assert ArithScan("`))", 1, "`(") == RanOut;
    assert ArithScan("(`))", 0, "`") == RanOut;
    assert "`(`)))"[1..] == "(`)))" && "(`)))"[1..] == "`)))" && "`)))"[1..] == ")))" && ")))"[1..] == "))" && "))"[2..] == "";
    assert ArithScan("))", 0, "`(`)") == Closed("`(`)", "");
    assert ArithScan(")))", 1, "`(`") == Closed("`(`)", "");
    assert ArithScan("`)))", 1, "`(") == Closed("`(`)", "");
    assert ArithScan("(`)))", 0, "`") == Closed("`(`)", "");
  }

  /** Not every word the scanner returns is in normal form: a line continuation after
      a dollar leaves a literal dollar in front of a name, which no spelling here
      could give back. */
  lemma ContinuationHidesDollar()
    ensures ScanWord("$\\\nx", true, []) == Got([Literal("$x")], "")
    ensures !NormalForm([Literal("$x")], false, "")
    ensures Spell([Literal("$x")], false) == "$x" && ScanWord("$x", true, []) == Got([ParamExpansion("x")], "")
  {
    hide ScanWord;
    ScanContinued();
    ScanName();
    assert [Literal("$x")][1..] == [] && "$x"[1..] == "x" && "x" + "" == "x";
    assert Spell([], false) + "" == "";
    assert !LiteralChar('$', false, "x");
  }

  lemma ScanContinued()
    ensures ScanWord("$\\\nx", true, []) == Got([Literal("$x")], "")
  {
    hide ScanWord, Dollar;
    var s := "$\\\nx";
    var t := s[1..];
    assert t[0] == '\\' && t[1] == '\n' && t[2..] == "x" && "x"[1..] == "";
    DollarAlone(t);
    DollarStep(s, []);
    ContinuationStep(t, [Literal("$")]);
    CharStep("x", [Literal("$")]);
    assert [Literal("$")][..0] + [Literal("$x")] == [Literal("$x")] && "$" + "x" == "$x";
    EndStep([Literal("$x")]);
  }

  lemma ScanName()
    ensures ScanWord("$x", true, []) == Got([ParamExpansion("x")], "")
  {
    hide ScanWord, Dollar;
    assert "$x"[1..] == "x";
    DollarX();
    DollarStep("$x", []);
    EndStep([ParamExpansion("x")]);
  }

  lemma DollarAlone(t: string)
    requires t != "" && t[0] == '\\'
    ensures Dollar(t, []) == Got([Literal("$")], t)
  {
    assert [] + [Literal("$")] == [Literal("$")];
  }

  lemma DollarX()
    ensures Dollar("x", []) == Got([ParamExpansion("x")], "")
  {
    var s := "x";
    assert s[0] == 'x' && s[1..] == "" && "" + ['x'] == "x" && IsNameStart('x');
    assert NameRun("", "x") == ("x", "");
    assert NameRun(s, "") == ("x", "");
    var none: Word := [];
    assert none + [ParamExpansion("x")] == [ParamExpansion("x")];
    assert Dollar(s, none) == Got(none + [ParamExpansion("x")], "");
  }

  lemma DollarStep(s: string, parts: Word)
    requires s != "" && s[0] == '$' && Dollar(s[1..], parts).Got?
    ensures var d := Dollar(s[1..], parts); ScanWord(s, true, parts) == ScanWord(d.rest, true, d.value)
  {
    hide Dollar;
  }

  lemma ContinuationStep(s: string, parts: Word)
    requires |s| >= 2 && s[0] == '\\' && s[1] == '\n'
    ensures ScanWord(s, true, parts) == ScanWord(s[2..], true, parts)
  {
  }

  lemma CharStep(s: string, parts: Word)
    requires s != "" && IsNameChar(s[0])
    ensures ScanWord(s, true, parts) == ScanWord(s[1..], true, AppendText(parts, false, [s[0]]))
  {
    hide AppendText;
  }

  lemma EndStep(parts: Word)
    ensures ScanWord("", true, parts) == Got(parts, "")
  {
  }
}
