/** What the lexer computes, as functions of the text still unread. Each scanner
    takes the unread text and what it has collected so far. */
module LexerSpec {
  import opened Prelude
  import opened Tokens

  /** A scan ends with a value and the text after it, or runs out of input inside
      an unterminated construct (LexError). */
  datatype Scan<+T> = Got(value: T, rest: string) | Unterminated

  predicate IsOperatorStart(c: char) {
    c == '&' || c == '|' || c == ';' || c == '<' || c == '>' || c == '(' || c == ')'
  }

  predicate EndsWord(c: char) {
    c == ' ' || c == '\t' || c == '\n' || IsOperatorStart(c)
  }

  predicate IsSpecialParam(c: char) {
    c == '@' || c == '*' || c == '#' || c == '?' || c == '-' || c == '$' || c == '!'
  }

  /** The characters after which an unquoted `$` begins an expansion. */
  predicate StartsExpansion(c: char) {
    c == '(' || c == '{' || IsNameStart(c) || IsDigit(c) || IsSpecialParam(c)
  }

  // ---------------------------------------------------------------- raw text

  /** Copies through the next unescaped q, which is copied too. */
  function RawUntil(q: char, escapes: bool, s: string, buffer: string): (r: Scan<string>)
    ensures r.Got? ==> |r.rest| < |s| && buffer + s == r.value + r.rest
    decreases |s|
  {
    if s == "" then Unterminated
    else if escapes && s[0] == '\\' && |s| > 1 then RawUntil(q, escapes, s[2..], buffer + [s[0]] + [s[1]])
    else if s[0] == q then Got(buffer + [q], s[1..])
    else RawUntil(q, escapes, s[1..], buffer + [s[0]])
  }

  /** Text up to the parenthesis that closes the depth open ones. */
  function BalancedParens(s: string, depth: nat, buffer: string): (r: Scan<string>)
    requires depth > 0
    ensures r.Got? ==> |r.rest| < |s| && buffer + s == r.value + [')'] + r.rest
    decreases |s|
  {
    if s == "" then Unterminated
    else if s[0] == '\\' then
      if |s| == 1 then Unterminated else BalancedParens(s[2..], depth, buffer + [s[0]] + [s[1]])
    else if s[0] == '\'' || s[0] == '"' then
      match RawUntil(s[0], s[0] == '"', s[1..], buffer + [s[0]])
      case Unterminated => Unterminated
      case Got(b, rest) => BalancedParens(rest, depth, b)
    else if s[0] == '`' then
      match RawUntil('`', true, s[1..], buffer + [s[0]])
      case Unterminated => Unterminated
      case Got(b, rest) => BalancedParens(rest, depth, b)
    else if s[0] == '(' then BalancedParens(s[1..], depth + 1, buffer + [s[0]])
    else if s[0] == ')' then
      if depth == 1 then Got(buffer, s[1..]) else BalancedParens(s[1..], depth - 1, buffer + [s[0]])
    else BalancedParens(s[1..], depth, buffer + [s[0]])
  }

  /** Text up to the brace that closes the depth open `${`. */
  function BalancedBraces(s: string, depth: nat, buffer: string): (r: Scan<string>)
    requires depth > 0
    ensures r.Got? ==> |r.rest| < |s| && buffer + s == r.value + ['}'] + r.rest
    decreases |s|
  {
    if s == "" then Unterminated
    else if s[0] == '\\' then
      if |s| == 1 then Unterminated else BalancedBraces(s[2..], depth, buffer + [s[0]] + [s[1]])
    else if s[0] == '\'' || s[0] == '"' then
      match RawUntil(s[0], s[0] == '"', s[1..], buffer + [s[0]])
      case Unterminated => Unterminated
      case Got(b, rest) => BalancedBraces(rest, depth, b)
    else if s[0] == '`' then
      match RawUntil('`', true, s[1..], buffer + [s[0]])
      case Unterminated => Unterminated
      case Got(b, rest) => BalancedBraces(rest, depth, b)
    else if s[0] == '$' && |s| > 1 && s[1] == '{' then BalancedBraces(s[2..], depth + 1, buffer + [s[0]] + [s[1]])
    else if s[0] == '}' then
      if depth == 1 then Got(buffer, s[1..]) else BalancedBraces(s[1..], depth - 1, buffer + [s[0]])
    else BalancedBraces(s[1..], depth, buffer + [s[0]])
  }

  /** The tentative scan after `$((`: it closes at a `))` outside every inner
      parenthesis, breaks at a lone `)` there, or runs out of input. */
  datatype Tentative = Closed(text: string, rest: string) | Broken | RanOut

  function ArithScan(s: string, depth: nat, buffer: string): (r: Tentative)
    ensures r.Closed? ==> |r.rest| < |s| && buffer + s == r.text + "))" + r.rest
    decreases |s|
  {
    if s == "" then RanOut
    else if s[0] == '\\' then
      if |s| == 1 then RanOut else ArithScan(s[2..], depth, buffer + [s[0]] + [s[1]])
    else if s[0] == '\'' || s[0] == '"' then
      match RawUntil(s[0], s[0] == '"', s[1..], buffer + [s[0]])
      case Unterminated => RanOut
      case Got(b, rest) => ArithScan(rest, depth, b)
    else if s[0] == '(' then ArithScan(s[1..], depth + 1, buffer + [s[0]])
    else if s[0] == ')' then
      if depth > 0 then ArithScan(s[1..], depth - 1, buffer + [s[0]])
      else if |s| == 1 then RanOut
      else if s[1] == ')' then Closed(buffer, s[2..])
      else Broken
    else ArithScan(s[1..], depth, buffer + [s[0]])
  }

  /** `$((`: arithmetic exactly when the tentative scan closes; otherwise a
      command substitution scanned afresh from the first parenthesis. The text
      s starts at the second `(`. */
  function DollarDoubleParen(s: string): (r: Scan<WordPart>)
    requires s != "" && s[0] == '('
    ensures r.Got? ==> |r.rest| < |s|
  {
    match ArithScan(s[1..], 0, "")
    case Closed(text, rest) => Got(ArithExpansion(text), rest)
    case _ =>
      match BalancedParens(s, 1, "")
      case Unterminated => Unterminated
      case Got(text, rest) => Got(CommandSubDollar(text), rest)
  }

  // ------------------------------------------------------------ word parts

  /** Appends text to the last part when that part has the same kind. */
  function AppendText(parts: Word, quoted: bool, text: string): (r: Word) {
    if parts != [] && !quoted && parts[|parts| - 1].Literal? then
      parts[..|parts| - 1] + [Literal(parts[|parts| - 1].text + text)]
    else if parts != [] && quoted && parts[|parts| - 1].SingleQuoted? then
      parts[..|parts| - 1] + [SingleQuoted(parts[|parts| - 1].text + text)]
    else
      parts + [if quoted then SingleQuoted(text) else Literal(text)]
  }

  function SingleQuotedBody(s: string, buffer: string): (r: Scan<string>)
    ensures r.Got? ==> |r.rest| < |s| && buffer + s == r.value + ['\''] + r.rest
    decreases |s|
  {
    if s == "" then Unterminated
    else if s[0] == '\'' then Got(buffer, s[1..])
    else SingleQuotedBody(s[1..], buffer + [s[0]])
  }

  function BacktickBody(s: string, buffer: string): (r: Scan<string>)
    ensures r.Got? ==> |r.rest| < |s|
    decreases |s|
  {
    if s == "" then Unterminated
    else if s[0] == '`' then Got(buffer, s[1..])
    else if s[0] == '\\' && |s| > 1 && (s[1] == '$' || s[1] == '`' || s[1] == '\\') then
      BacktickBody(s[2..], buffer + [s[1]])
    else BacktickBody(s[1..], buffer + [s[0]])
  }

  function NameRun(s: string, buffer: string): (r: (string, string))
    ensures |r.1| <= |s| && buffer + s == r.0 + r.1
    decreases |s|
  {
    if s == "" || !IsNameChar(s[0]) then (buffer, s) else NameRun(s[1..], buffer + [s[0]])
  }

  /** What an unquoted `$` begins; s is the text after it. */
  function Dollar(s: string, parts: Word): (r: Scan<Word>)
    ensures r.Got? ==> |r.rest| <= |s|
  {
    if s == "" then Got(AppendText(parts, false, "$"), s)
    else if s[0] == '(' then
      if |s| > 1 && s[1] == '(' then
        match DollarDoubleParen(s[1..])
        case Unterminated => Unterminated
        case Got(part, rest) => Got(parts + [part], rest)
      else
        match BalancedParens(s[1..], 1, "")
        case Unterminated => Unterminated
        case Got(text, rest) => Got(parts + [CommandSubDollar(text)], rest)
    else if s[0] == '{' then
      match BalancedBraces(s[1..], 1, "")
      case Unterminated => Unterminated
      case Got(text, rest) => Got(parts + [ParamExpansion(text)], rest)
    else if IsNameStart(s[0]) then
      var (name, rest) := NameRun(s, "");
      Got(parts + [ParamExpansion(name)], rest)
    else if IsDigit(s[0]) || IsSpecialParam(s[0]) then
      Got(parts + [ParamExpansion([s[0]])], s[1..])
    else Got(AppendText(parts, false, "$"), s)
  }

  function Backtick(s: string, parts: Word): (r: Scan<Word>)
    ensures r.Got? ==> |r.rest| < |s|
  {
    match BacktickBody(s, "")
    case Unterminated => Unterminated
    case Got(text, rest) => Got(parts + [CommandSubBacktick(text)], rest)
  }

  /** Double-quote rules: only `$`, backquote, `"` and `\` are special. With
      inQuotes the scan ends at (and consumes) the closing `"`; without it, at
      the end of the text. */
  function ExpansionBody(s: string, inQuotes: bool, parts: Word): (r: Scan<Word>)
    ensures r.Got? ==> |r.rest| <= |s| && (inQuotes ==> |r.rest| < |s|)
    decreases |s|
  {
    if s == "" then if inQuotes then Unterminated else Got(parts, s)
    else if inQuotes && s[0] == '"' then Got(parts, s[1..])
    else if s[0] == '\\' then
      if |s| == 1 then ExpansionBody(s[1..], inQuotes, AppendText(parts, false, "\\"))
      else if s[1] == '$' || s[1] == '`' || s[1] == '"' || s[1] == '\\' then
        ExpansionBody(s[2..], inQuotes, AppendText(parts, true, [s[1]]))
      else if s[1] == '\n' then ExpansionBody(s[2..], inQuotes, parts)
      else ExpansionBody(s[1..], inQuotes, AppendText(parts, false, "\\"))
    else if s[0] == '$' then
      match Dollar(s[1..], parts)
      case Unterminated => Unterminated
      case Got(ps, rest) => ExpansionBody(rest, inQuotes, ps)
    else if s[0] == '`' then
      match Backtick(s[1..], parts)
      case Unterminated => Unterminated
      case Got(ps, rest) => ExpansionBody(rest, inQuotes, ps)
    else ExpansionBody(s[1..], inQuotes, AppendText(parts, false, [s[0]]))
  }

  /** One word. With stop it ends before an unquoted blank, newline or operator
      character; without it, at the end of the text. */
  function ScanWord(s: string, stop: bool, parts: Word): (r: Scan<Word>)
    ensures r.Got? ==> |r.rest| <= |s|
    ensures r.Got? && s != "" && !EndsWord(s[0]) ==> |r.rest| < |s|
    decreases |s|
  {
    if s == "" || (stop && EndsWord(s[0])) then Got(parts, s)
    else if s[0] == '\\' then
      if |s| == 1 then Got(AppendText(parts, false, "\\"), s[1..])
      else if s[1] == '\n' then ScanWord(s[2..], stop, parts)
      else ScanWord(s[2..], stop, AppendText(parts, true, [s[1]]))
    else if s[0] == '\'' then
      match SingleQuotedBody(s[1..], "")
      case Unterminated => Unterminated
      case Got(text, rest) => ScanWord(rest, stop, parts + [SingleQuoted(text)])
    else if s[0] == '"' then
      match ExpansionBody(s[1..], true, [])
      case Unterminated => Unterminated
      case Got(inner, rest) => ScanWord(rest, stop, parts + [DoubleQuoted(inner)])
    else if s[0] == '$' then
      match Dollar(s[1..], parts)
      case Unterminated => Unterminated
      case Got(ps, rest) => ScanWord(rest, stop, ps)
    else if s[0] == '`' then
      match Backtick(s[1..], parts)
      case Unterminated => Unterminated
      case Got(ps, rest) => ScanWord(rest, stop, ps)
    else ScanWord(s[1..], stop, AppendText(parts, false, [s[0]]))
  }

  // ---------------------------------------------------------------- tokens

  function SkipLine(s: string): (r: string)
    ensures |r| <= |s|
  {
    if s == "" || s[0] == '\n' then s else SkipLine(s[1..])
  }

  function SkipBlanks(s: string): (r: string)
    ensures |r| <= |s|
    ensures r != "" ==> r[0] != ' ' && r[0] != '\t' && r[0] != '#'
    decreases |s|
  {
    if s == "" then s
    else if s[0] == ' ' || s[0] == '\t' then SkipBlanks(s[1..])
    else if s[0] == '#' then SkipBlanks(SkipLine(s[1..]))
    else s
  }

  function Operator(s: string): (r: (Token, string))
    requires s != "" && IsOperatorStart(s[0])
    ensures |r.1| < |s|
    ensures !r.0.WordTok? && !r.0.IoNumber? && !r.0.Newline? && !r.0.EndOfInput?
  {
    var second := if |s| > 1 then s[1] else ' ';
    match s[0]
    case '&' => if second == '&' then (AndIf, s[2..]) else (And, s[1..])
    case '|' => if second == '|' then (OrIf, s[2..]) else (Pipe, s[1..])
    case ';' => if second == ';' then (DSemi, s[2..]) else (Semi, s[1..])
    case '(' => (LParen, s[1..])
    case ')' => (RParen, s[1..])
    case '<' =>
      if second == '<' then
        if |s| > 2 && s[2] == '-' then (DLessDash, s[3..]) else (DLess, s[2..])
      else if second == '&' then (LessAnd, s[2..])
      else if second == '>' then (LessGreat, s[2..])
      else (Less, s[1..])
    case _ =>
      if second == '>' then (DGreat, s[2..])
      else if second == '&' then (GreatAnd, s[2..])
      else if second == '|' then (Clobber, s[2..])
      else (Great, s[1..])
  }

  predicate AllDigits(s: string) {
    s != "" && forall i :: 0 <= i < |s| ==> IsDigit(s[i])
  }

  /** A word of digits directly before `<` or `>` is an IO_NUMBER. */
  function WordToken(w: Word, rest: string): Token {
    if IsUnquotedLiteral(w) && AllDigits(w[0].text) && rest != "" && (rest[0] == '<' || rest[0] == '>')
    then IoNumber(w[0].text)
    else WordTok(w)
  }

  /** The next token. */
  function Next(s0: string): (r: Scan<Token>)
    ensures r.Got? ==> |r.rest| <= |s0| && (!r.value.EndOfInput? ==> |r.rest| < |s0|)
    ensures r.Got? && r.value.EndOfInput? ==> r.rest == ""
  {
    var s := SkipBlanks(s0);
    if s == "" then Got(EndOfInput, s)
    else if s[0] == '\n' then Got(Newline, s[1..])
    else if IsOperatorStart(s[0]) then var (t, rest) := Operator(s); Got(t, rest)
    else
      match ScanWord(s, true, [])
      case Unterminated => Unterminated
      case Got(w, rest) => Got(WordToken(w, rest), rest)
  }

  // ---------------------------------------------------- here-document bodies

  /** The characters before the first newline, and the rest from that newline. */
  function LineEnd(s: string): (n: nat)
    ensures n <= |s|
    ensures forall i :: 0 <= i < n ==> s[i] != '\n'
    ensures n < |s| ==> s[n] == '\n'
  {
    if s == "" || s[0] == '\n' then 0 else 1 + LineEnd(s[1..])
  }

  function StripTabs(line: string): (r: string)
    ensures r == "" || r[0] != '\t'
  {
    if line != "" && line[0] == '\t' then StripTabs(line[1..]) else line
  }

  function HeredocBody(s: string, delimiter: string, strip: bool, body: string): (r: Scan<string>)
    ensures r.Got? ==> |r.rest| <= |s|
    decreases |s|
  {
    var n := LineEnd(s);
    var line := if strip then StripTabs(s[..n]) else s[..n];
    if line == delimiter then Got(body, if n < |s| then s[n + 1..] else "")
    else if n == |s| then Unterminated
    else HeredocBody(s[n + 1..], delimiter, strip, body + line + "\n")
  }
}
