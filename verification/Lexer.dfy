/** The lexer as the program has it: a cursor into the source, moved one
    character at a time, that also counts lines and columns. Every scanner is
    proved to compute the function of the unread text that LexerSpec defines,
    and every error is raised at the end of the input. */
module Lexer {
  import opened Prelude
  import opened Tokens
  import opened LexerSpec

  /** The line on which the text after p starts, counted from 1. */
  ghost function LineAfter(p: string): nat {
    if p == "" then 1
    else LineAfter(p[..|p| - 1]) + if p[|p| - 1] == '\n' then 1 else 0
  }

  /** The column at which the text after p starts, counted from 1. */
  ghost function ColumnAfter(p: string): nat {
    if p == "" then 1
    else if p[|p| - 1] == '\n' then 1
    else ColumnAfter(p[..|p| - 1]) + 1
  }

  class Lexer {
    const src: string
    var pos: nat
    var line: nat
    var column: nat

    /** In every reachable state line and column are functions of the position. */
    ghost predicate Valid()
      reads this
    {
      && pos <= |src|
      && line == LineAfter(src[..pos])
      && column == ColumnAfter(src[..pos])
    }

    ghost function Rest(): string
      reads this
      requires pos <= |src|
    {
      src[pos..]
    }

    constructor (source: string)
      ensures Valid() && src == source && pos == 0 && Rest() == source
    {
      src := source;
      pos, line, column := 0, 1, 1;
    }

    predicate AtEnd()
      reads this
    {
      pos >= |src|
    }

    function PeekChar(): (c: char)
      reads this
      ensures pos < |src| ==> c == src[pos]
    {
      if pos < |src| then src[pos] else '\0'
    }

    method AdvanceChar() returns (c: char)
      requires Valid() && !AtEnd()
      modifies this
      ensures Valid() && pos == old(pos) + 1
      ensures old(Rest())[1..] == Rest() && old(Rest())[0] == c
    {
      assert src[..pos + 1][..pos] == src[..pos];
      c := src[pos];
      pos := pos + 1;
      if c == '\n' {
        line, column := line + 1, 1;
      } else {
        column := column + 1;
      }
    }

    /** Copies through the next unescaped q: copyQuotedRaw, and the same loop
        inline for a backquoted part of balanced text. */
    method CopyRaw(q: char, escapes: bool, buffer0: string) returns (r: Option<string>)
      requires Valid()
      modifies this
      ensures Valid()
      ensures match RawUntil(q, escapes, old(Rest()), buffer0)
              case Unterminated => r == None && AtEnd()
              case Got(b, rest) => r == Some(b) && Rest() == rest
    {
      hide LineAfter, ColumnAfter;
      var buffer := buffer0;
      while true
        invariant Valid()
        invariant RawUntil(q, escapes, Rest(), buffer) == RawUntil(q, escapes, old(Rest()), buffer0)
        decreases |src| - pos
      {
        if AtEnd() {
          return None;
        }
        ghost var s := Rest();
        var c := AdvanceChar();
        if escapes && c == '\\' && !AtEnd() {
          var d := AdvanceChar();
          assert s[2..] == Rest();
          buffer := buffer + [c] + [d];
          continue;
        }
        buffer := buffer + [c];
        if c == q {
          return Some(buffer);
        }
      }
    }

    method ScanBalancedParens() returns (r: Option<string>)
      requires Valid()
      modifies this
      ensures Valid()
      ensures match BalancedParens(old(Rest()), 1, "")
              case Unterminated => r == None && AtEnd()
              case Got(text, rest) => r == Some(text) && Rest() == rest
    {
      hide RawUntil, LineAfter, ColumnAfter;
      var buffer, depth := "", 1;
      while true
        invariant Valid() && depth > 0
        invariant BalancedParens(Rest(), depth, buffer) == BalancedParens(old(Rest()), 1, "")
        decreases |src| - pos
      {
        if AtEnd() {
          return None;
        }
        ghost var s := Rest();
        var c := AdvanceChar();
        if c == '\\' {
          buffer := buffer + [c];
          if !AtEnd() {
            var d := AdvanceChar();
            assert s[2..] == Rest();
            buffer := buffer + [d];
          }
          continue;
        }
        if c == '\'' || c == '"' {
          var copied := CopyRaw(c, c == '"', buffer + [c]);
          if copied.None? {
            return None;
          }
          buffer := copied.value;
          continue;
        }
        if c == '`' {
          var copied := CopyRaw('`', true, buffer + [c]);
          if copied.None? {
            return None;
          }
          buffer := copied.value;
          continue;
        }
        if c == '(' {
          depth := depth + 1;
        } else if c == ')' {
          depth := depth - 1;
          if depth == 0 {
            return Some(buffer);
          }
        }
        buffer := buffer + [c];
      }
    }

    method ScanBalancedBraces() returns (r: Option<string>)
      requires Valid()
      modifies this
      ensures Valid()
      ensures match BalancedBraces(old(Rest()), 1, "")
              case Unterminated => r == None && AtEnd()
              case Got(text, rest) => r == Some(text) && Rest() == rest
    {
      hide RawUntil, LineAfter, ColumnAfter;
      var buffer, depth := "", 1;
      while true
        invariant Valid() && depth > 0
        invariant BalancedBraces(Rest(), depth, buffer) == BalancedBraces(old(Rest()), 1, "")
        decreases |src| - pos
      {
        if AtEnd() {
          return None;
        }
        ghost var s := Rest();
        var c := AdvanceChar();
        if c == '\\' {
          buffer := buffer + [c];
          if !AtEnd() {
            var d := AdvanceChar();
            assert s[2..] == Rest();
            buffer := buffer + [d];
          }
          continue;
        }
        if c == '\'' || c == '"' {
          var copied := CopyRaw(c, c == '"', buffer + [c]);
          if copied.None? {
            return None;
          }
          buffer := copied.value;
          continue;
        }
        if c == '`' {
          var copied := CopyRaw('`', true, buffer + [c]);
          if copied.None? {
            return None;
          }
          buffer := copied.value;
          continue;
        }
        if c == '$' {
          buffer := buffer + [c];
          if !AtEnd() && PeekChar() == '{' {
            var d := AdvanceChar();
            assert s[2..] == Rest();
            buffer := buffer + [d];
            depth := depth + 1;
          }
          continue;
        }
        if c == '}' {
          depth := depth - 1;
          if depth == 0 {
            return Some(buffer);
          }
        }
        buffer := buffer + [c];
      }
    }

    /** The cursor is on the second parenthesis of `$((`. The tentative scan is
        undone, cursor, line and column together, when it does not close. */
    method ScanDollarDoubleParen() returns (r: Option<WordPart>)
      requires Valid() && !AtEnd() && PeekChar() == '('
      modifies this
      ensures Valid()
      ensures match DollarDoubleParen(old(Rest()))
              case Unterminated => r == None && AtEnd()
              case Got(part, rest) => r == Some(part) && Rest() == rest
    {
      hide RawUntil, BalancedParens, LineAfter, ColumnAfter;
      var savedPos, savedLine, savedColumn := pos, line, column;
      var _ := AdvanceChar();
      ghost var start := Rest();
      assert start == old(Rest())[1..];
      var buffer, depth: nat := "", 0;
      while true
        invariant Valid()
        invariant ArithScan(Rest(), depth, buffer) == ArithScan(start, 0, "")
        decreases |src| - pos
      {
        if AtEnd() {
          break;
        }
        ghost var s := Rest();
        var c := AdvanceChar();
        if c == '\\' {
          buffer := buffer + [c];
          if !AtEnd() {
            var d := AdvanceChar();
            assert s[2..] == Rest();
            buffer := buffer + [d];
          }
          continue;
        }
        if c == '\'' || c == '"' {
          var copied := CopyRaw(c, c == '"', buffer + [c]);
          if copied.None? {
            break;
          }
          buffer := copied.value;
          continue;
        }
        if c == '(' {
          depth := depth + 1;
        } else if c == ')' {
          if depth == 0 {
            if !AtEnd() && PeekChar() == ')' {
              var _ := AdvanceChar();
              assert s[2..] == Rest();
              return Some(ArithExpansion(buffer));
            }
            break;
          }
          depth := depth - 1;
        }
        buffer := buffer + [c];
      }
      assert !ArithScan(start, 0, "").Closed?;
      pos, line, column := savedPos, savedLine, savedColumn;
      var text := ScanBalancedParens();
      r := if text.None? then None else Some(CommandSubDollar(text.value));
    }

    method ScanSingleQuoted(parts: Word) returns (r: Option<Word>)
      requires Valid()
      modifies this
      ensures Valid()
      ensures match SingleQuotedBody(old(Rest()), "")
              case Unterminated => r == None && AtEnd()
              case Got(text, rest) => r == Some(parts + [SingleQuoted(text)]) && Rest() == rest
    {
      hide LineAfter, ColumnAfter;
      var buffer := "";
      while true
        invariant Valid()
        invariant SingleQuotedBody(Rest(), buffer) == SingleQuotedBody(old(Rest()), "")
        decreases |src| - pos
      {
        if AtEnd() {
          return None;
        }
        var c := AdvanceChar();
        if c == '\'' {
          return Some(parts + [SingleQuoted(buffer)]);
        }
        buffer := buffer + [c];
      }
    }

    method ScanBacktick(parts: Word) returns (r: Option<Word>)
      requires Valid()
      modifies this
      ensures Valid()
      ensures match Backtick(old(Rest()), parts)
              case Unterminated => r == None && AtEnd()
              case Got(ps, rest) => r == Some(ps) && Rest() == rest
    {
      hide LineAfter, ColumnAfter;
      var buffer := "";
      while true
        invariant Valid()
        invariant BacktickBody(Rest(), buffer) == BacktickBody(old(Rest()), "")
        decreases |src| - pos
      {
        if AtEnd() {
          return None;
        }
        ghost var s := Rest();
        var c := AdvanceChar();
        if c == '`' {
          return Some(parts + [CommandSubBacktick(buffer)]);
        }
        if c == '\\' && !AtEnd() {
          var n := PeekChar();
          if n == '$' || n == '`' || n == '\\' {
            var d := AdvanceChar();
            assert s[2..] == Rest() && s[1] == d;
            buffer := buffer + [d];
            continue;
          }
        }
        buffer := buffer + [c];
      }
    }

    method ScanDollar(parts: Word) returns (r: Option<Word>)
      requires Valid()
      modifies this
      ensures Valid()
      ensures match Dollar(old(Rest()), parts)
              case Unterminated => r == None && AtEnd()
              case Got(ps, rest) => r == Some(ps) && Rest() == rest
    {
      hide RawUntil, BalancedParens, BalancedBraces, DollarDoubleParen, AppendText, LineAfter, ColumnAfter;
      if AtEnd() {
        return Some(AppendText(parts, false, "$"));
      }
      ghost var s := Rest();
      var c := PeekChar();
      if c == '(' {
        var _ := AdvanceChar();
        if !AtEnd() && PeekChar() == '(' {
          var part := ScanDollarDoubleParen();
          return if part.None? then None else Some(parts + [part.value]);
        }
        var text := ScanBalancedParens();
        return if text.None? then None else Some(parts + [CommandSubDollar(text.value)]);
      }
      if c == '{' {
        var _ := AdvanceChar();
        var text := ScanBalancedBraces();
        return if text.None? then None else Some(parts + [ParamExpansion(text.value)]);
      }
      if IsNameStart(c) {
        var name := "";
        while !AtEnd()
          invariant Valid()
          invariant NameRun(Rest(), name) == NameRun(s, "")
          decreases |src| - pos
        {
          if !IsNameChar(PeekChar()) {
            break;
          }
          var d := AdvanceChar();
          name := name + [d];
        }
        assert NameRun(Rest(), name) == (name, Rest());
        return Some(parts + [ParamExpansion(name)]);
      }
      if IsDigit(c) || IsSpecialParam(c) {
        var d := AdvanceChar();
        return Some(parts + [ParamExpansion([d])]);
      }
      return Some(AppendText(parts, false, "$"));
    }

    method ScanExpansionAwareBody(parts0: Word, stopAtDoubleQuote: bool) returns (r: Option<Word>)
      requires Valid()
      modifies this
      ensures Valid()
      ensures match ExpansionBody(old(Rest()), stopAtDoubleQuote, parts0)
              case Unterminated => r == None && AtEnd()
              case Got(ps, rest) => r == Some(ps) && Rest() == rest
    {
      hide Dollar, Backtick, AppendText, LineAfter, ColumnAfter;
      var parts := parts0;
      while true
        invariant Valid()
        invariant ExpansionBody(Rest(), stopAtDoubleQuote, parts)
               == ExpansionBody(old(Rest()), stopAtDoubleQuote, parts0)
        decreases |src| - pos
      {
        if AtEnd() {
          return if stopAtDoubleQuote then None else Some(parts);
        }
        ghost var s := Rest();
        var c := PeekChar();
        if stopAtDoubleQuote && c == '"' {
          var _ := AdvanceChar();
          return Some(parts);
        }
        if c == '\\' {
          var _ := AdvanceChar();
          if AtEnd() {
            parts := AppendText(parts, false, "\\");
            continue;
          }
          var n := PeekChar();
          if n == '$' || n == '`' || n == '"' || n == '\\' {
            var d := AdvanceChar();
            assert s[2..] == Rest() && s[1] == d;
            parts := AppendText(parts, true, [d]);
          } else if n == '\n' {
            var _ := AdvanceChar();
            assert s[2..] == Rest();
          } else {
            parts := AppendText(parts, false, "\\");
          }
          continue;
        }
        if c == '$' {
          var _ := AdvanceChar();
          var scanned := ScanDollar(parts);
          if scanned.None? {
            return None;
          }
          parts := scanned.value;
          continue;
        }
        if c == '`' {
          var _ := AdvanceChar();
          var scanned := ScanBacktick(parts);
          if scanned.None? {
            return None;
          }
          parts := scanned.value;
          continue;
        }
        var d := AdvanceChar();
        parts := AppendText(parts, false, [d]);
      }
    }

    method ScanDoubleQuoted(parts: Word) returns (r: Option<Word>)
      requires Valid()
      modifies this
      ensures Valid()
      ensures match ExpansionBody(old(Rest()), true, [])
              case Unterminated => r == None && AtEnd()
              case Got(inner, rest) => r == Some(parts + [DoubleQuoted(inner)]) && Rest() == rest
    {
      var inner := ScanExpansionAwareBody([], true);
      r := if inner.None? then None else Some(parts + [DoubleQuoted(inner.value)]);
    }

    /** scanWord (stop) and scanWordUntilEnd (not stop). */
    method ScanWordImpl(stop: bool) returns (r: Option<Word>)
      requires Valid()
      modifies this
      ensures Valid()
      ensures match ScanWord(old(Rest()), stop, [])
              case Unterminated => r == None && AtEnd()
              case Got(ps, rest) => r == Some(ps) && Rest() == rest
    {
      hide Dollar, Backtick, ExpansionBody, SingleQuotedBody, AppendText, LineAfter, ColumnAfter;
      var parts: Word := [];
      while !AtEnd()
        invariant Valid()
        invariant ScanWord(Rest(), stop, parts) == ScanWord(old(Rest()), stop, [])
        decreases |src| - pos
      {
        ghost var s := Rest();
        var c := PeekChar();
        if stop && EndsWord(c) {
          break;
        }
        if c == '\\' {
          var _ := AdvanceChar();
          if AtEnd() {
            return Some(AppendText(parts, false, "\\"));
          }
          var d := AdvanceChar();
          assert s[2..] == Rest() && s[1] == d;
          if d != '\n' {
            parts := AppendText(parts, true, [d]);
          }
          continue;
        }
        var scanned: Option<Word>;
        if c == '\'' {
          var _ := AdvanceChar();
          scanned := ScanSingleQuoted(parts);
        } else if c == '"' {
          var _ := AdvanceChar();
          scanned := ScanDoubleQuoted(parts);
        } else if c == '$' {
          var _ := AdvanceChar();
          scanned := ScanDollar(parts);
        } else if c == '`' {
          var _ := AdvanceChar();
          scanned := ScanBacktick(parts);
        } else {
          var d := AdvanceChar();
          scanned := Some(AppendText(parts, false, [d]));
        }
        if scanned.None? {
          return None;
        }
        parts := scanned.value;
      }
      r := Some(parts);
    }

    method SkipBlanksAndComments()
      requires Valid()
      modifies this
      ensures Valid() && Rest() == SkipBlanks(old(Rest()))
    {
      hide LineAfter, ColumnAfter;
      while !AtEnd()
        invariant Valid()
        invariant SkipBlanks(Rest()) == SkipBlanks(old(Rest()))
        decreases |src| - pos
      {
        var c := PeekChar();
        if c == ' ' || c == '\t' {
          var _ := AdvanceChar();
          continue;
        }
        if c == '#' {
          ghost var s := Rest();
          var _ := AdvanceChar();
          while !AtEnd() && PeekChar() != '\n'
            invariant Valid()
            invariant SkipLine(Rest()) == SkipLine(s[1..]) && |Rest()| < |s|
            decreases |src| - pos
          {
            var _ := AdvanceChar();
          }
          continue;
        }
        break;
      }
    }

    method LexOperator() returns (t: Token)
      requires Valid() && !AtEnd() && IsOperatorStart(PeekChar())
      modifies this
      ensures Valid() && (t, Rest()) == Operator(old(Rest()))
    {
      hide LineAfter, ColumnAfter;
      ghost var s := Rest();
      var c := AdvanceChar();
      var n := if AtEnd() then ' ' else PeekChar();
      match c {
        case '&' =>
          t := if n == '&' then AndIf else And;
        case '|' =>
          t := if n == '|' then OrIf else Pipe;
        case ';' =>
          t := if n == ';' then DSemi else Semi;
        case '(' =>
          t := LParen;
        case ')' =>
          t := RParen;
        case '<' =>
          t := if n == '<' then DLess else if n == '&' then LessAnd else if n == '>' then LessGreat else Less;
        case _ =>
          t := if n == '>' then DGreat else if n == '&' then GreatAnd else if n == '|' then Clobber else Great;
      }
      if t != And && t != Pipe && t != Semi && t != LParen && t != RParen && t != Less && t != Great {
        var _ := AdvanceChar();
        assert s[2..] == Rest();
        if t == DLess && !AtEnd() && PeekChar() == '-' {
          var _ := AdvanceChar();
          assert s[3..] == Rest();
          t := DLessDash;
        }
      }
    }

    method LexWordOrIoNumber() returns (r: Option<Token>)
      requires Valid()
      modifies this
      ensures Valid()
      ensures match ScanWord(old(Rest()), true, [])
              case Unterminated => r == None && AtEnd()
              case Got(w, rest) => r == Some(WordToken(w, rest)) && Rest() == rest
    {
      hide ScanWord, LineAfter, ColumnAfter;
      var w := ScanWordImpl(true);
      if w.None? {
        return None;
      }
      var allDigits := IsUnquotedLiteral(w.value) && w.value[0].text != "";
      if allDigits {
        var text := w.value[0].text;
        var i := 0;
        while i < |text|
          invariant 0 <= i <= |text|
          invariant allDigits <==> forall j :: 0 <= j < i ==> IsDigit(text[j])
        {
          if !IsDigit(text[i]) {
            allDigits := false;
            break;
          }
          i := i + 1;
        }
      }
      if allDigits && !AtEnd() && (PeekChar() == '<' || PeekChar() == '>') {
        return Some(IoNumber(w.value[0].text));
      }
      r := Some(WordTok(w.value));
    }

    method NextToken() returns (r: Option<Token>)
      requires Valid()
      modifies this
      ensures Valid()
      ensures match Next(old(Rest()))
              case Unterminated => r == None && AtEnd()
              case Got(t, rest) => r == Some(t) && Rest() == rest
    {
      hide ScanWord, LineAfter, ColumnAfter;
      SkipBlanksAndComments();
      if AtEnd() {
        return Some(EndOfInput);
      }
      var c := PeekChar();
      if c == '\n' {
        var _ := AdvanceChar();
        return Some(Newline);
      }
      if IsOperatorStart(c) {
        var t := LexOperator();
        return Some(t);
      }
      r := LexWordOrIoNumber();
    }

    /** The rest of the current line; its newline, if any, is consumed too. */
    method ReadLine() returns (line: string, hadNewline: bool)
      requires Valid()
      modifies this
      ensures Valid()
      ensures var s := old(Rest()); var n := LineEnd(s);
              line == s[..n] && hadNewline == (n < |s|) && Rest() == if hadNewline then s[n + 1..] else ""
    {
      hide LineAfter, ColumnAfter;
      line := "";
      ghost var s := Rest();
      while !AtEnd() && PeekChar() != '\n'
        invariant Valid() && |line| <= |s| && line == s[..|line|] && Rest() == s[|line|..]
        invariant LineEnd(s) == |line| + LineEnd(Rest())
        decreases |src| - pos
      {
        var d := AdvanceChar();
        line := line + [d];
      }
      hadNewline := !AtEnd();
      if hadNewline {
        var _ := AdvanceChar();
      }
    }

    method ConsumeHeredocBody(delimiter: string, strip: bool) returns (r: Option<string>)
      requires Valid()
      modifies this
      ensures Valid()
      ensures match HeredocBody(old(Rest()), delimiter, strip, "")
              case Unterminated => r == None && AtEnd()
              case Got(body, rest) => r == Some(body) && Rest() == rest
    {
      hide LineAfter, ColumnAfter;
      var body := "";
      while true
        invariant Valid()
        invariant HeredocBody(Rest(), delimiter, strip, body)
               == HeredocBody(old(Rest()), delimiter, strip, "")
        decreases |src| - pos
      {
        var line, hadNewline := ReadLine();
        if strip {
          line := DropTabs(line);
        }
        if line == delimiter {
          return Some(body);
        }
        if !hadNewline {
          return None;
        }
        body := body + line + "\n";
      }
    }
  }

  method DropTabs(line: string) returns (r: string)
    ensures r == StripTabs(line)
  {
    var i := 0;
    while i < |line| && line[i] == '\t'
      invariant 0 <= i <= |line| && StripTabs(line[i..]) == StripTabs(line)
    {
      i := i + 1;
    }
    r := line[i..];
  }
}
