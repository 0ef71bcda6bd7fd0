# A verified model of ush

This project models the language core of `ush`, a POSIX shell, and its two
run-time protocols, and proves what they promise for every input, every run and
every reachable state. `dafny verify dfyconfig.toml` checks it.

The model follows the program file by file. Where the program changes things in
place there is a class with the same fields and methods with the same loops
(`Lexer`, `Parser`, `ArithEvaluator`, `Splitter`, `Expander`, `Kernel`,
`FdRestorer`, `Shell`, `JobTable`, `Environment`, `HistoryList`). Each method is
proved equal to a function of its inputs or of the old state, defined in the
module named `...Spec` or beside the class, and the theorems are about those
functions. Thrown signals and errors are datatypes; the kernel, the file system
and other processes are parameters.

| files | what they hold |
|---|---|
| `Prelude`, `Numbers`, `Tokens`, `Ast` | shared datatypes; numbers as text |
| `LexerSpec`, `Lexer`, `BalancedText`, `WordRoundTrip`, `WordForms` | the scanner; what balanced text is; words survive being spelled and scanned |
| `TokenStream`, `ParserSpec`, `Parser`, `ParserRoundTrip`, `SimpleForms`, `HereDocuments`, `HereDocOrder`, `SourceRoundTrip`, `IncompleteInput` | the parser; trees survive being written in any layout, down to characters; which errors more input mends |
| `Int64`, `IntLaws`, `ArithSpec`, `ArithRefinement`, `ArithLaws`, `Arithmetic` | what the operators compute; `$((...))` evaluated while parsed, against a semantics on trees |
| `FieldSplitSpec`, `FieldSplit`, `ExpansionSpec`, `Expansion`, `Quoting`, `ExpansionLaws` | expansion and field splitting; what quoting protects |
| `Descriptors`, `ExecSpec`, `ExecJumps`, `ExecLaws`, `ControlLaws`, `CommandLaws`, `Executor`, `PlainPrograms`, `LoopConditions`, `Calls`, `DefinitionRedirects` | running command trees: descriptors and variables restored, counted jumps, composition, what each command does |
| `TinyPrograms`, `RedirectExample` | small hosts and programs for the examples; redirect lists |
| `JobSpec`, `JobNotices`, `JobWaiting`, `Jobs`, `StopMirror` | the job table and its notices; waiting; stops passed up a chain of processes |
| `Getopts`, `History` | option parsing across calls; the command history |

Where the code disagrees with its documentation or with the standard the model
follows the code:

- A bare `""` makes no field (`src/expand/expander.cpp:119-140`), although
  `src/expand/field_split.hpp` keeps fields that are empty but quoted;
  `DoubleQuotesProtect` says exactly when a field appears.
- Literal text is split into fields with IFS (`src/expand/expander.cpp:111-116`),
  where section 2.6.5 of POSIX.1-2017 splits only the results of expansions;
  `LiteralIsOneFieldIff` says exactly when that cannot be seen.
- The home directory that replaces a tilde-prefix is split into fields
  (`src/expand/expander.cpp:86-109`), where section 2.6.1 of POSIX.1-2017 treats it
  as quoted; `HomeIsOneFieldIff`.
- In the body of a here-document `\"` loses its backslash
  (`src/lexer/lexer.cpp:332-379`), which section 2.7.4 of POSIX.1-2017 keeps;
  `DoubleQuoteInBody`.
- A name and `(` at the end of the input is no incomplete command
  (`src/parser/parser.cpp:259-287`): `BeginningOfFunctionIsWrong`.
- The redirections of a function definition are never applied when the function
  is called (`src/exec/executor.cpp:1024-1038`); `CallsKeepPromiseIff`.
- A redirection whose `open` returns the target's own number leaves the target
  closed (`src/exec/executor.cpp:1121-1128`); `OpenedReachesTargetIff`.
- A repeated redirection target may overwrite a backup (`RepeatLosesDescriptor`).
  `OpenRepeatsAreUndone` is the condition to check before the list is run;
  `UndoneThroughoutIff`, with `ChangeIsUndoneIff` for one step, is exact.
- `&&`, `||` and `?:` evaluate every operand (`src/expand/arithmetic.cpp:281-307`);
  `EagerAgreesIff` says exactly when that cannot be seen.
- The condition of a loop is outside it for `break` and `continue`
  (`src/exec/executor.cpp:937-954`, as `src/exec/control_signals.hpp` says), where
  the standard has it inside (section 2.14 of POSIX.1-2017 speaks of the enclosing
  loop): `BreakInCondition`. When
  that makes a difference is `ConditionJumpsIff`; `QuietConditionIsInLoop` can be
  checked on the text.
- Prefix assignments are to be restored "either way"
  (`src/exec/executor.cpp:780-783`), but stay when a signal unwinds the command
  (`BreakKeepsAssignment`). `PrefixIsRestoredIfQuiet` is a condition on the text;
  `RegularRestoresIff` is exact, in terms of how the command ended.
- Without job control a stop is to be invisible
  (`src/exec/executor.cpp:396-400`), but it is mirrored: `StopIsMirroredIff`.
- A pipeline that is stopped after one of its processes has ended is never made
  done by an update of the job table (`StoppedJobCompletesIff`); `fg` takes it out
  (`ForegroundFinishes`), and so does the utility wait, which is left out here.
- A wrapper that has seen a stop and is then stopped by the group's signal stops
  once more after the job is resumed: `StrayStop`.
- `getopts` finds the option character `:` in the option string itself;
  `ColonIsAnOptionIff`. Its character index is stale when a script sets OPTIND
  back in the middle of bundled options, so that letters are skipped;
  `RestartsIff` says exactly when they are not.
- History entries that span lines do not survive a save; `SaveLoad` is exact.

## Model

| member | source | states |
|---|---|---|
| Numbers.TextRoundTrip | src/expand/arithmetic.cpp:223-234 | Any number in range, written as text by to_string, is read back unchanged with nothing left over, with the base detected from the text or fixed to ten. |
| Numbers.DecimalRoundTrip | src/parser/parser.cpp:524-533 | The digits of an IO_NUMBER written for n are read as n. |
| Numbers.PrefixedMagnitude | src/expand/arithmetic.cpp:223-234 | Digits after 0x or 0X in base 16 and after 0 in base 8 are read as the number they write when the base is detected; read in base ten a leading 0 makes no difference. |
| Numbers.BlanksAndSign | src/expand/arithmetic.cpp:223-234 | White space and a sign may come before the number, and a number out of range is none. |
| Lexer.Lexer.AdvanceChar | src/lexer/lexer.cpp:21-30 | One character is consumed; line and column stay the functions of the position that counting newlines defines. |
| LexerSpec.RawUntil | src/lexer/lexer.cpp:475-486 | Copied text and unread text together are the input: nothing is lost or reordered, and the scan makes progress. |
| LexerSpec.BalancedParens | src/lexer/lexer.cpp:488-535 | The captured text, the closing parenthesis and the unread text together are the input; the scan makes progress. What is captured: ParensIff. |
| LexerSpec.BalancedBraces | src/lexer/lexer.cpp:537-585 | The captured text, the closing brace and the unread text together are the input; the scan makes progress. What is captured: BracesIff. |
| LexerSpec.ArithScan | src/lexer/lexer.cpp:587-646 | When the tentative scan closes, its text, `))` and the unread text together are the input. What is captured: ArithIff. |
| LexerSpec.Next | src/lexer/lexer.cpp:84-108 | A token other than the end of input consumes something, so repeated lexing ends; the end of input leaves nothing. |
| Lexer.Lexer.CopyRaw | src/lexer/lexer.cpp:475-486 | The loop computes RawUntil of the unread text; failure happens only at the end of the input. |
| Lexer.Lexer.ScanBalancedParens | src/lexer/lexer.cpp:488-535 | The loop over nested quotes, backquotes and depths computes BalancedParens of the unread text; failure only at the end of the input. |
| Lexer.Lexer.ScanBalancedBraces | src/lexer/lexer.cpp:537-585 | The same for nested `${`. |
| Lexer.Lexer.ScanDollarDoubleParen | src/lexer/lexer.cpp:587-646 | Arithmetic exactly when the tentative scan closes with `))`; otherwise text and cursor are those of a fresh balanced scan from the first parenthesis, and line and column are restored with the cursor. |
| Lexer.Lexer.ScanSingleQuoted | src/lexer/lexer.cpp:303-315 | Computes the single-quoted part of the unread text; an error only at the end of the input. |
| Lexer.Lexer.ScanBacktick | src/lexer/lexer.cpp:449-469 | Computes the backquoted part of the unread text with its three backslash escapes; an error only at the end of the input. |
| Lexer.Lexer.ScanDollar | src/lexer/lexer.cpp:385-447 | Computes what an unquoted `$` begins: parameter, command substitution, arithmetic or a literal dollar. |
| Lexer.Lexer.ScanExpansionAwareBody | src/lexer/lexer.cpp:332-379 | Computes the parts of double-quoted or expansion-only text, to the closing quote or to the end. |
| Lexer.Lexer.ScanDoubleQuoted | src/lexer/lexer.cpp:317-324 | Appends the nested parts as one part and stops after the closing quote. |
| Lexer.Lexer.ScanWordImpl | src/lexer/lexer.cpp:253-301 | Computes the word at the front of the unread text, up to the blank, newline or operator (or the end); an error only at the end of the input. |
| Lexer.Lexer.SkipBlanksAndComments | src/lexer/lexer.cpp:64-82 | Leaves the cursor at the first character that is no blank and in no comment. |
| Lexer.Lexer.LexOperator | src/lexer/lexer.cpp:110-184 | Recognises the longest operator at the cursor and consumes exactly it. |
| Lexer.Lexer.LexWordOrIoNumber | src/lexer/lexer.cpp:186-215 | A word, or an IO_NUMBER when it is all digits and `<` or `>` follows directly. |
| Lexer.Lexer.NextToken | src/lexer/lexer.cpp:84-108 | Computes the next token of the unread text, whatever the cursor did on the way. |
| Lexer.Lexer.ConsumeHeredocBody | src/lexer/lexer.cpp:221-243 | Computes the here-document body at the front of the unread text; an error only when no delimiter line is left. |
| WordRoundTrip.WordBack | src/lexer/lexer.cpp:253-469 | For every word in normal form (literals, quoted text, nested double quotes, `${}`, `$()`, `$(())`, backquotes, with balanced text inside as the grammar of BalancedText defines it) scanning its canonical spelling rebuilds exactly that word and stops at the blank, newline or operator that follows. |
| WordRoundTrip.SpellingIsInjective | src/lexer/lexer.cpp:253-469 | No two words in normal form share a spelling. |
| WordRoundTrip.ContinuationHidesDollar | src/lexer/lexer.cpp:385-447 | Normal form is not all that the scanner returns: `$`, a line continuation and x give the literal text `$x`, which has no such spelling. |
| WordRoundTrip.QuotedBodyRoundTrip | src/lexer/lexer.cpp:332-379 | The same round trip for the inside of double quotes, up to and past the closing quote. |
| WordRoundTrip.OpenBodyRoundTrip | src/lexer/lexer.cpp:332-379 | The same for text that no quote ends, as the body of a here-document. |
| WordRoundTrip.WholeTextBack | src/lexer/lexer.cpp:253-301 | The scan of a whole text does not stop at blanks, newlines and operators, which are literal there. |
| BalancedText.ParensIff | src/lexer/lexer.cpp:488-535 | By a grammar of plain characters, escaped pairs, single-quoted, double-quoted and backquoted text and parenthesised groups: the scan for the end of `$(` captures a text and leaves another if and only if the first is made by that grammar and one closing parenthesis stands between them. |
| BalancedText.BracesIff | src/lexer/lexer.cpp:537-585 | The same for `${`, where `${` opens a group and a closing brace ends it. |
| BalancedText.ArithIff | src/lexer/lexer.cpp:587-646 | The same for `$((`, where backquotes are ordinary and two parentheses end it. |
| BalancedText.ArithTakesPieces | src/lexer/lexer.cpp:587-646 | After text of that grammar a closing parenthesis that has no second one behind it breaks arithmetic off, and the end of the input leaves it undecided. |
| WordForms.NamedParameter | src/lexer/lexer.cpp:385-447 | `$name` takes the longest name, inside quotes and outside. |
| WordForms.OneCharacterParameter | src/lexer/lexer.cpp:385-447 | `$` and a digit or special character is that parameter, whatever follows: `$10` is `$1` and a 0. |
| WordForms.LoneDollar | src/lexer/lexer.cpp:385-447 | `$` before anything else, or at the end, is literal. |
| WordForms.ContinuationDisappears | src/lexer/lexer.cpp:253-379 | A backslash and the newline after it are gone, in quotes or not. |
| WordForms.BackslashProtects | src/lexer/lexer.cpp:253-301 | Outside quotes any other character after a backslash is quoted text. |
| WordForms.DoubleQuoteInBody | src/lexer/lexer.cpp:332-379 | In the body of a here-document a double quote is literal, and a backslash before it is removed. |
| WordForms.BackquotesUnescape | src/lexer/lexer.cpp:449-469 | Any text written between backquotes with backslashes in front of some of its characters is read up to the first bare backquote; only the backslashes before `$`, backquote and backslash are removed. |
| WordForms.BlanksAndCommentsAreSkipped | src/lexer/lexer.cpp:64-108 | Blanks and tabs before a token, and a comment to the end of its line, change nothing; the newline after the comment is a token. |
| WordForms.NumberBeforeRedirection | src/lexer/lexer.cpp:186-215 | Digits are an IO_NUMBER if and only if `<` or `>` comes directly after them. |
| WordRoundTrip.BalancedParensLocal | src/lexer/lexer.cpp:488-535 | A scan that closes is not affected by what follows: the same text, and the added text left unread. |
| WordRoundTrip.ArithScanLocal | src/lexer/lexer.cpp:587-646 | A tentative scan that closes or breaks decides the same way whatever follows. |
| WordRoundTrip.DoubleParenCapturesWhatFollows | src/lexer/lexer.cpp:587-646 | A scan that ran out may decide otherwise when more text follows: a balanced command substitution that is read as arithmetic because of the parenthesis after it. |
| Parser.Parser.Advance | src/parser/parser.cpp:19-33 | One token leaves the eager stream, whether it comes from the lookahead buffer or the lexer, and pending here-document bodies are read exactly when a NEWLINE is left. |
| Parser.Parser.PeekAhead | src/parser/parser.cpp:35-50 | Delivers the n-th token of the eager stream without changing it; the error of looking past a NEWLINE never happens. |
| Parser.Parser.DrainPending | src/parser/parser.cpp:19-33 | All pending bodies are read, in order, from the first character of the next line, and the token stream resumes after them. |
| Parser.Parser.ParseRedirect | src/parser/parser.cpp:524-564 | Computes the redirection of the eager stream; a here-document is registered for the end of the line. |
| Parser.Parser.ParseSimpleCommand | src/parser/parser.cpp:302-335 | Computes assignments, words and redirections of a simple command in source order. |
| Parser.Parser.ParseTerm | src/parser/parser.cpp:201-226 | Computes the list of and-or lists with their separators, stopping where no command can start. |
| Parser.Parser.ParseAndOr | src/parser/parser.cpp:232-242 | Computes the chain of pipelines with their connectives. |
| Parser.Parser.ParsePipeline | src/parser/parser.cpp:244-257 | Computes the commands joined by the pipe symbol and the leading `!`. |
| Parser.Parser.ParseCommand | src/parser/parser.cpp:259-287 | Chooses compound command, function definition (by two tokens of lookahead) or simple command as the eager parser does. |
| Parser.Parser.ParseFunctionDefinition | src/parser/parser.cpp:337-347 | Computes name, body and trailing redirections. |
| Parser.Parser.ParseForClause | src/parser/parser.cpp:376-410 | Computes variable, optional word list and body. |
| Parser.Parser.ParseCaseClause | src/parser/parser.cpp:426-453 | Computes subject and items. |
| Parser.Parser.ParseIfClause | src/parser/parser.cpp:455-478 | Computes the branches and the else part. |
| Parser.Parser.ParseLoop | src/parser/parser.cpp:480-494 | Computes condition and body of while and until. |
| Parser.Parser.ParseProgram | src/parser/parser.cpp:575-581 | Computes the whole program and requires the end of input after it. |
| Parser.Parse | src/parser/parser.cpp:11-50 | On every source the lazy parser, with its lookahead and postponed here-documents, ends and agrees with reading all tokens and bodies first and parsing then: same tree, same bodies, same error. |
| ParserSpec.ParseAndOr | src/parser/parser.cpp:232-242 | An and-or list that is parsed consumes at least one token, so the loop over a list ends on every token stream. |
| TokenStream.LexAll | src/lexer/lexer.cpp:84-108 | A stream without lexical error ends with the end of input. |
| ParserRoundTrip.ProgramRoundTrip | src/parser/parser.cpp:196-564 | Parsing the tokens of a well-formed tree without here-documents rebuilds exactly that tree, in every layout: any number of newlines wherever the grammar takes a linebreak, newlines for semicolons, `case` items with or without the opening parenthesis, the last one with or without `;;`. |
| ParserRoundTrip.ListBack | src/parser/parser.cpp:196-226 | A list in any layout in front of any token that ends it is rebuilt, and parsing stops exactly there. |
| ParserRoundTrip.CompoundBack | src/parser/parser.cpp:289-300 | The same for every compound command, whatever follows. |
| ParserRoundTrip.CommandBack | src/parser/parser.cpp:259-287 | The same for every command in front of a token that ends commands. |
| ParserRoundTrip.SimpleBack | src/parser/parser.cpp:302-335 | The same for simple commands written with assignments first, then words, then redirections. |
| ParserRoundTrip.SeparatorBack | src/parser/parser.cpp:212-226 | `&` makes an item asynchronous; `;` or at least one newline makes it sequential; every newline after either is taken with it. |
| SimpleForms.SimpleInAnyOrder | src/parser/parser.cpp:302-335 | Assignments before the first word, words, and redirections anywhere among them: each kind comes back in its order. |
| IncompleteInput.OpenConstructIsIncomplete | src/parser/parser.cpp:583-590 | An opened `{`, `(`, `if`, `while` or `until` with a list, and nothing more, is an error that more input could mend. |
| IncompleteInput.OpenBodyIsIncomplete | src/parser/parser.cpp:455-494 | So is one whose `then`, `else` or `do` has been read. |
| IncompleteInput.OpenChainIsIncomplete | src/parser/parser.cpp:232-242 | So is a chain that ends with AND_IF or OR_IF. |
| IncompleteInput.StrayCloserIsWrong | src/parser/parser.cpp:575-581 | A closing parenthesis or `;;` after a program is an error that no further input mends. |
| IncompleteInput.BeginningOfFunctionIsWrong | src/parser/parser.cpp:259-287 | A name and `(` at the end of the input is flagged as such an error too, although a function definition begins so. |
| IncompleteInput.RedirectNeedsWord | src/parser/parser.cpp:524-564 | A redirection operator before anything but a word is an error, that more input could mend exactly at the end of the input. |
| ParserRoundTrip.RedirectHidesReserved | src/parser/parser.cpp:302-335 | Well-formed trees are not all that the parser returns: any redirection before the word `if` makes it an argument, which written first would begin a compound command. |
| ParserRoundTrip.SplitBack | src/parser/parser.cpp:113-134 | An assignment written as a word is split into the same name and value. |
| ParserRoundTrip.RenderingIsInjective | src/parser/parser.cpp:196-564 | No two well-formed trees share a rendering, in whatever layouts. |
| SourceRoundTrip.TokensRoundTrip | src/lexer/lexer.cpp:84-215 | Lexing the spelled tokens of a normal token list, with any blanks and comments between them, or nothing where no longer operator or word results, gives exactly that list. |
| SourceRoundTrip.SourceBack | src/parser/parser.cpp:196-581 | From characters to tree: the text of a well-formed tree in any layout, with any blanks and comments, its words in normal form where they stand, lexes and parses back to exactly that tree. |
| HereDocuments.BodyRoundTrip | src/lexer/lexer.cpp:221-243 | A body is read back unchanged, with the right text left, if and only if no line of it is the delimiter and, for `<<-`, none begins with a tab. |
| HereDocuments.PendingBodiesRoundTrip | src/parser/parser.cpp:19-33 | Any list of such bodies laid out in order from the start of a line is read back exactly, and tokens resume after the last. |
| HereDocuments.IndentedBodyBack | src/lexer/lexer.cpp:221-243 | For `<<-` any number of tabs before each line and before the delimiter is removed. |
| HereDocuments.EndOfInput | src/lexer/lexer.cpp:221-243 | The delimiter may be the last line without a newline; any other last line leaves the body unfinished. |
| HereDocuments.DelimiterOfWord | src/parser/parser.cpp:545-560 | The delimiter is the text of the word without its quotes, and any quoting keeps the body literal. |
| HereDocOrder.DocumentsInOrder | src/parser/parser.cpp:524-564 | The here-documents of any parsed program, wherever they stand in it, are those of its tokens in order, each with its delimiter and numbered from the first: none is lost, doubled or moved. |
| HereDocOrder.EachGetsItsBody | src/parser/parser.cpp:19-33 | From text to tree: the i-th body read was read for the i-th here-document of the tree, and when the last line is complete each has one. |
| Arithmetic.Tokenize | src/expand/arithmetic.cpp:61-163 | The index loop computes the tokens of the text, or fails where they do. |
| Arithmetic.TokensRoundTrip | src/expand/arithmetic.cpp:61-163 | Spelled tokens are read back as the same tokens: multi-character operators, decimal numbers, names. |
| ArithSpec.StoreThenLookup | src/expand/arithmetic.cpp:223-279 | A value stored as text is the value looked up, every other variable keeps its text, and exactly a read-only variable refuses. |
| Arithmetic.ArithEvaluator.ParseComma | src/expand/arithmetic.cpp:236-240 | Value, variables and remaining tokens are those of evaluating the tokens; the loop ends. |
| Arithmetic.ArithEvaluator.ParseAssignment | src/expand/arithmetic.cpp:242-279 | The same, with the assignment decided by two tokens and written back as text. |
| Arithmetic.ArithEvaluator.ParseConditional | src/expand/arithmetic.cpp:281-290 | The same; both branches are evaluated and one value chosen. |
| Arithmetic.ArithEvaluator.ParseBinary | src/expand/arithmetic.cpp:292-379 | The same for every binary precedence level. |
| Arithmetic.ArithEvaluator.ParseBinaryRest | src/expand/arithmetic.cpp:292-379 | The same for the loop over the operators of one level, left-associative. |
| Arithmetic.ArithEvaluator.ParseUnary | src/expand/arithmetic.cpp:380-386 | The same for prefix operators. |
| Arithmetic.ArithEvaluator.ParsePrimary | src/expand/arithmetic.cpp:387-404 | The same for numbers, variables and parentheses. |
| Arithmetic.EvaluateArithmetic | src/expand/arithmetic.cpp:409-411 | The class run on the tokenized text gives the value, variables and failure of Evaluate. |
| ArithRefinement.Agrees | src/expand/arithmetic.cpp:236-404 | At every precedence level, on the printed form of any expression and before any token that ends it there, evaluation while parsing reaches exactly the meaning of the tree and stops after it. |
| ArithRefinement.EvaluatorRefinesMeaning | src/expand/arithmetic.cpp:191-404 | Evaluating while parsing equals a left-to-right, eager semantics on trees: same value, same final variables, same failure. |
| Arithmetic.TextRefinesMeaning | src/expand/arithmetic.cpp:61-411 | The same from the text of the expression. |
| ArithRefinement.EagerAgreesIff | src/expand/arithmetic.cpp:281-307 | Evaluating every operand agrees with C, at the whole and at every operand C evaluates, if and only if each operand that C skips makes no difference there: it gives a value and keeps the variables, or leaves the branch taken after it as it would be. |
| ArithRefinement.EagerAgreesWithShortCircuit | src/expand/arithmetic.cpp:281-307 | Value and variables are those of C whenever, by the text of the expression, no operand that C may skip assigns, and nothing fails. |
| ArithRefinement.EagerDiffersFromShortCircuit | src/expand/arithmetic.cpp:281-307 | Neither condition can be dropped: `0 && 1/0` fails here, `0 && (x = 1)` assigns here. |
| Int64.ResultInRange | src/expand/arithmetic.cpp:242-404 | Every operator keeps values inside 64 bits. What the operators compute: the laws of IntLaws. |
| IntLaws.SubUndoesAdd | src/expand/arithmetic.cpp:352-360 | Subtraction takes back addition and addition subtraction; either fails exactly when the exact result has more than 64 bits; addition commutes. |
| IntLaws.MulAddsUp | src/expand/arithmetic.cpp:361-365 | A product by one more is the product and the factor once more; a negative factor negates it; it fails exactly when the exact product has more than 64 bits. |
| IntLaws.DivMod | src/expand/arithmetic.cpp:366-374 | Divisor times quotient and remainder make the dividend; the remainder is smaller than the divisor and never of the other sign than the dividend. Failures: divisor 0 and the one quotient out of range. |
| IntLaws.Comparisons | src/expand/arithmetic.cpp:323-342 | Exactly one of the three is 1, by the sign of the difference; the other comparisons are their opposites. |
| IntLaws.Connectives | src/expand/arithmetic.cpp:292-307 | The truth tables of `&&` and of its dual, with any number but 0 as true. |
| IntLaws.UnaryOperators | src/expand/arithmetic.cpp:380-386 | The additive inverse where there is one, complement as its predecessor, and the identity. |
| IntLaws.Shifts | src/expand/arithmetic.cpp:343-351 | Left by one doubles modulo 2 to the 64, right by one halves and rounds down, and n + 1 is n and one more; outside 0 to 63 there is no result. |
| IntLaws.BitByBit | src/expand/arithmetic.cpp:308-322 | And, exclusive or, or and complement, bit by bit over all 64 bits, the sign included. |
| IntLaws.BitsDetermine | src/expand/arithmetic.cpp:308-322 | The bits of a number determine it, so that these laws fix the result. |
| ArithLaws.LevelIsRow | src/expand/arithmetic.cpp:292-379 | The precedence of every operator is its row in the table of C. |
| ArithLaws.OperatorsGroupAsInC | src/expand/arithmetic.cpp:292-379 | For any three numbers and any two operators, written without parentheses: the value is that of the grouping C gives, the left operator first unless the right one is in a tighter row. |
| ArithLaws.UnaryBindsTightest | src/expand/arithmetic.cpp:380-386 | A unary operator is applied before any binary one. |
| ArithLaws.CompoundAssignment | src/expand/arithmetic.cpp:242-279 | Every `x op= e` is `x = x op (e)` with e evaluated first. |
| ArithLaws.VariablesInAnyBase | src/expand/arithmetic.cpp:223-234 | A variable holding a number in base 16, 8 or 10, signed or after white space, counts as that number; unset, as 0. |
| ArithLaws.TrailingTextCountsAsZero | src/expand/arithmetic.cpp:223-234 | A variable whose text goes on after its number counts as 0. |
| ArithLaws.NumberTokens | src/expand/arithmetic.cpp:61-163 | A number in base 16, 8 or 10 in the text is one token with its value. |
| ArithLaws.WhiteSpaceIsSkipped | src/expand/arithmetic.cpp:61-163 | White space before a token changes nothing. |
| FieldSplit.LeadIsReference | src/expand/field_split.cpp:19-117 | The states of the delimiter machine, started at the front, yield exactly the declarative fields. |
| FieldSplit.DelimiterIsReference | src/expand/field_split.cpp:57-99 | Inside a delimiter the machine goes on to the end of the maximal delimiter: white space around at most one other IFS character. |
| FieldSplit.Splitter.EndDelimiterIfPending | src/expand/field_split.cpp:59-65 | Text completes the field before a pending delimiter and nothing else; what remains to be emitted is unchanged. |
| FieldSplit.Splitter.AddIfsChar | src/expand/field_split.cpp:79-99 | One IFS character moves the four state variables so that the fields emitted and still to come stay the same. |
| FieldSplit.SplitOneSegment | src/expand/field_split.cpp:19-117 | The character loop computes the declarative splitter: leading IFS white space dropped, a cut at each maximal delimiter, nothing after a final delimiter, and no empty unquoted field before one. |
| FieldSplit.SplitFields | src/expand/field_split.cpp:121-146 | Segments are split one by one at forced boundaries; an empty IFS splits nothing. |
| FieldSplitSpec.FieldsConserve | src/expand/field_split.cpp:19-117 | The fields, joined, are the input with exactly its unquoted IFS characters removed. |
| Quoting.SplittingConserves | src/expand/field_split.cpp:19-117 | The same for the text of the fields the program emits. |
| FieldSplitSpec.ChunkingIsInvisible | src/expand/field_split.cpp:72-111 | Where a run of text is cut into pieces changes no atom and so no field. |
| ExpansionLaws.BlanksSeparate | src/expand/field_split.cpp:19-117 | Any words free of IFS characters, with IFS white space before, after and between them, split into exactly those words. |
| ExpansionLaws.OthersSeparateFields | src/expand/field_split.cpp:19-117 | Any strings with one IFS character between them that is no white space split into exactly those strings, empty ones included; only an empty one at the end does not come. |
| Expansion.Expander.ExpandAtOrStar | src/expand/expander.cpp:159-182 | Appends one piece a parameter with boundaries between them, or the joined text, to what is there. |
| Expansion.Expander.ExpandPart | src/expand/expander.cpp:111-157 | Appends exactly the pieces of one part; everything inside double quotes comes out quoted. |
| Expansion.Expander.Expand | src/expand/expander.cpp:72-109 | Computes the expansion of a word, tilde-prefix first. |
| Expansion.Expander.MetacharIn | src/expand/pattern.cpp:11-30 | True exactly when some unquoted character is `*`, `?` or `[`. |
| Expansion.Expander.ExpandToFields | src/exec/executor.cpp:1044-1050 | Computes the fields of a word through expansion, splitting and the pathname step. |
| Quoting.SingleQuotesProtect | src/expand/expander.cpp:66-157 | For every string, IFS and directory contents: written in single quotes, each single quote as `'\''`, it lexes to one word that becomes exactly one field equal to the string. |
| Quoting.ArgumentsBack | src/exec/executor.cpp:737-741 | Any list of strings so quoted, on one line, is the argument list of that line. |
| Quoting.LiteralIsOneFieldIff | src/expand/expander.cpp:111-116 | Unquoted literal text is split too: a word that is literal text without a tilde-prefix becomes one field with that text if and only if it is not empty and has no IFS character. |
| Quoting.DoubleQuotesProtect | src/expand/expander.cpp:119-140 | The same in double quotes with `$`, backquote, `"` and `\` escaped, if and only if the string is not empty; a bare `""` makes no field. |
| Quoting.AtReproducesParams | src/expand/expander.cpp:159-166 | `"$@"` reproduces every parameter list under every IFS; unquoted `$@` reproduces every list of non-empty parameters free of IFS characters and metacharacters. |
| Quoting.AtSplitsToParams | src/expand/expander.cpp:159-166 | Before the pathname step the texts of the fields of `$@` are the parameters: quoted, always; unquoted, whenever they are non-empty and free of IFS characters, metacharacters or not. |
| Quoting.StarReproducesParams | src/expand/expander.cpp:167-182 | Unquoted `$*` reproduces lists of non-empty parameters free of IFS characters and metacharacters when IFS is not empty: joined with its first character and split again. |
| Quoting.StarSplitsToParams | src/expand/expander.cpp:167-182 | Before the pathname step the same holds of `$*` whatever metacharacters the parameters have. |
| ExpansionLaws.QuotedStarIsOneField | src/expand/expander.cpp:167-182 | `"$*"` is one field, the parameters with the first character of IFS between them, or nothing between them when IFS is empty. |
| ExpansionLaws.JoinConcat | src/expand/expander.cpp:167-182 | Joining two lists is joining the joins, so that the separator stands once between neighbours and nowhere else. |
| ExpansionLaws.TildePrefix | src/expand/expander.cpp:86-109 | An unquoted `~name` before a slash or the end of the first literal becomes the home directory when there is one, otherwise it stays. |
| ExpansionLaws.OtherTildes | src/expand/expander.cpp:86-109 | A word that does not begin with an unquoted tilde expands part by part. |
| ExpansionLaws.HomeIsOneFieldIff | src/expand/expander.cpp:86-109 | The home directory is split like other text: `~` gives it as one field if and only if it is not empty and has no IFS character. |
| ExpansionLaws.QuotedExpansionIsOneField | src/expand/expander.cpp:119-140 | In double quotes the result of an expansion is one field, unsplit and unmatched, whatever characters it has. |
| ExpansionLaws.UnquotedResultIsMatched | src/exec/executor.cpp:1044-1050 | Unquoted, a result free of IFS characters is matched against the directory if and only if it has a metacharacter. |
| Quoting.SolidIsOneField | src/expand/field_split.cpp:121-146 | A segment of quoted or IFS-free pieces is one field with the same text, and gains no metacharacter. |
| Descriptors.LowestFree | src/exec/executor.cpp:183-188 | The number given out is free and every smaller one is taken. |
| Descriptors.OpenOnto | src/exec/executor.cpp:1121-1129 | Opening onto a target replaces its file, except when open gives out the target itself: then it ends closed, as it was. |
| ExecSpec.OpenedReachesTargetIff | src/exec/executor.cpp:1065-1130 | After a redirection that opens a file has succeeded the target holds that file if and only if it was not the lowest free number; otherwise it is closed. |
| RedirectExample.ThirdStaysClosed | src/exec/executor.cpp:1121-1129 | `3>x` with 0 to 2 open succeeds and leaves 3 closed. |
| Descriptors.SaveIsUndone | src/exec/executor.cpp:170-193 | Saving a descriptor is invisible once undone, wherever the backup lands. |
| Descriptors.ChangeIsUndone | src/exec/executor.cpp:170-193 | Whatever is done to a saved target is undone when no later backup sits on its number. |
| Descriptors.ChangeIsUndoneIff | src/exec/executor.cpp:170-193 | For any table and backups: putting a file on a descriptor, or closing it, is undone if and only if the change is harmless: no difference, or written over, or striking a backup whose loss is harmless to the backups before it. |
| Descriptors.RepeatIsUndoneIff | src/exec/executor.cpp:170-193 | Pointing an already saved target at a file is undone if and only if no later backup sits on its number or it held that file already. |
| Descriptors.RepeatedCloseIsUndoneIff | src/exec/executor.cpp:170-193 | Closing an already saved target is undone if and only if no later backup sits on its number, or it was closed, or that backup can be lost. |
| Descriptors.PipesAreClosed | src/exec/executor.cpp:650-692 | Opening the pipes of a pipeline and closing them again leaves the table as it was. |
| Descriptors.FdRestorer.SaveFd | src/exec/executor.cpp:183-188 | A target is saved once, the first time. |
| Descriptors.FdRestorer.Restore | src/exec/executor.cpp:172-181 | Backups go back in reverse order; the table becomes what undoing the stack says. |
| ExecSpec.RedirectsAreUndone | src/exec/executor.cpp:1058-1130 | Wherever a redirect list stops (success, failure or a throw), undoing it restores the table when no redirection struck a live backup. |
| CommandLaws.DefaultDescriptors | src/exec/executor.cpp:143-155 | Without a number the operators that read stand for 0 and the others for 1. |
| CommandLaws.DuplicationShares | src/exec/executor.cpp:1094-1110 | After `n>&m` descriptor n refers to the file of m and all else is as before; a closed m is an error that changes nothing. |
| CommandLaws.DuplicationNeedsNumber | src/exec/executor.cpp:1094-1110 | So is text that does not begin with a number or goes on after it, or a number of more than 64 bits. |
| CommandLaws.DashCloses | src/exec/executor.cpp:1094-1110 | `n>&-` closes n and changes nothing else. |
| CommandLaws.RedirectsCompose | src/exec/executor.cpp:1058-1063 | A list of redirections is its parts one after the other, up to the first failure. |
| CommandLaws.OrderOfRedirections | src/exec/executor.cpp:1058-1130 | `>f 2>&1` puts both on f, `2>&1 >f` leaves 2 where 1 was. |
| ExecSpec.PlainNeverStrikes | src/exec/executor.cpp:1058-1130 | A list in which only open descriptors that it never closes occur more than once strikes no backup, even one that lands on the number of a later target. |
| ExecSpec.DistinctNeverStrikes | src/exec/executor.cpp:1058-1130 | In particular pairwise distinct targets never strike. |
| ExecSpec.OpenRepeatsAreUndone | src/exec/executor.cpp:1058-1130 | Checked before the list is run: when every target that occurs more than once is open and the list does not close it, undoing restores the table wherever the list stopped. |
| ExecSpec.UndoneThroughoutIff | src/exec/executor.cpp:1058-1130 | For every list, state and host: undoing after each part of the list restores the table if and only if every step is harmless. |
| RedirectExample.RepeatLosesDescriptor | src/exec/executor.cpp:170-193 | `3>x 1>y 3>&-` with 3 closed leaves standard output on y. |
| RedirectExample.LossIsForeseen | src/exec/executor.cpp:170-193 | Both conditions reject that list: 3 occurs twice and is closed, and not every step is harmless. |
| RedirectExample.ThirdStepStrikes | src/exec/executor.cpp:170-193 | Its third step is the failing instance of RepeatedCloseIsUndoneIff. |
| RedirectExample.LoggingIsUndone | src/exec/executor.cpp:1058-1130 | `1>a 2>&1 1>b`, which repeats an open target, is undone. |
| ExecSpec.RunList | src/exec/executor.cpp:583-618 | However a command tree ends (status, break, continue, return, exit, error), if exec did not run and redirect lists (in the tree, the functions and the programs brought in by utilities it does not forgo naming) repeat only descriptors of some set that is open and never closed (the empty set, or 0 to 2), the descriptor table is exactly as found; a jump still under way names a loop further out. A tree that names none of a set of utilities (break and continue bare in its own loops aside) does not end by the signals that only these raise, and when its own words throw nothing by no error but a read-only variable. Utilities it names nowhere may do anything. |
| ExecSpec.RunAndOr | src/exec/executor.cpp:620-637 | The same for and-or lists. |
| ExecSpec.RunPipeline | src/exec/executor.cpp:639-707 | The same for pipelines. |
| ExecSpec.RunCommand | src/exec/executor.cpp:713-725 | The same for commands: redirections of a compound command are undone on every path. |
| ExecSpec.RunSimple | src/exec/executor.cpp:737-826 | The same for simple commands, whatever the name turns out to be. |
| ExecSpec.RunCompound | src/exec/executor.cpp:918-926 | The same for compound commands. |
| ExecSpec.RunLoop | src/exec/executor.cpp:937-954 | The same for while and until; a jump of the body that names this loop does not leave it. |
| ExecSpec.RunFor | src/exec/executor.cpp:958-982 | The same for the for loop. |
| ExecSpec.CallFunction | src/exec/executor.cpp:1024-1038 | The caller's positional parameters are back on every path, no return passes the call, and descriptors are kept. |
| ControlLaws.IfTakesFirstTrue | src/exec/executor.cpp:928-934 | For every state: when the first condition ends with status 0 the run goes on with its body; with another status, with the rest of the command; when it is unwound, that is how the command ends. |
| ControlLaws.IfEndsWithElse | src/exec/executor.cpp:928-934 | With no condition left the else part is run, and without one the status is 0. |
| ControlLaws.CaseTakesFirstMatch | src/exec/executor.cpp:984-993 | The body of the first item with a pattern that matches is run, and no other; when none matches the status is 0. |
| ControlLaws.CaseExpandsSubject | src/exec/executor.cpp:984-993 | The subject is expanded once, before the patterns. |
| ControlLaws.LoopTurn | src/exec/executor.cpp:937-954 | One turn: while goes on after a success, until after a failure, with the status of the body; otherwise the loop ends with the status so far. |
| ControlLaws.LoopStartsWithZero | src/exec/executor.cpp:937-954 | That status is 0 before the first turn. |
| ControlLaws.CatchIs | src/exec/executor.cpp:937-982 | A jump that names this loop ends it or goes on, one that names a loop further out passes with its count one lower, and anything else passes as it is. |
| ControlLaws.ForTurn | src/exec/executor.cpp:958-982 | One turn: the body runs with the variable holding the next item and all else unchanged; a read-only one ends the loop with status 1. |
| ControlLaws.ForItems | src/exec/executor.cpp:958-982 | The items are the fields of the words, or the positional parameters when there is no `in`. |
| ControlLaws.NegationInverts | src/exec/executor.cpp:639-707 | `!` turns status 0 into 1 and any other into 0, in the same state, and lets everything else pass. |
| ControlLaws.SeveralCommands | src/exec/executor.cpp:650-707 | Of n commands each two neighbours get a pipe of two new descriptors with files of their own; the children have these and the descriptors of the shell, and the shell keeps only the status. |
| ControlLaws.AndOrTurn | src/exec/executor.cpp:620-637 | The second pipeline runs after a success or a failure, as the connective says, and sees the status in `$?`. |
| ControlLaws.BackgroundIsNotWaitedFor | src/exec/executor.cpp:583-618 | An asynchronous item leaves all but `$?` as it is and has status 0. |
| ControlLaws.SubshellIsApart | src/exec/executor.cpp:918-926 | A subshell leaves the state of the shell as it is; a brace group is its list. |
| PlainPrograms.PlainHostIfNamed | src/exec/builtins.cpp:273-316 | In a shell whose eval, `.`, fc and command may bring in any program, and no other utility any, every program the rules let a utility bring in is plain as soon as the rules forbid naming the four. |
| PlainPrograms.PlainListKeepsDescriptors | src/exec/executor.cpp:583-618 | In every such shell a plain list that does not name the four leaves the descriptors as found, however it ends, unless exec ran. |
| PlainPrograms.QuietListEnds | src/exec/executor.cpp:583-618 | There a list that names no jump, exit or exec either, and whose words throw nothing, ends with a status, by the error of a read-only variable, or by a return if it may name one. |
| PlainPrograms.SomeEvalIsNotPlain | src/exec/builtins.cpp:273-280 | That eval must be named nowhere cannot be dropped: with an eval that runs `: n>a n>b` for n words, no finite set of descriptors makes all that it runs plain. |
| ExecSpec.Levels | src/exec/builtins.cpp:176-184 | A break or continue count is at least one. |
| ExecJumps.ListAgrees | src/exec/executor.cpp:583-618 | Running any list with counted jumps and with jumps labelled by static depth gives the same state and the same end. |
| ExecJumps.LoopAgrees | src/exec/executor.cpp:937-954 | A loop that lowers counts and one that answers only to its own label do the same, iteration by iteration. |
| ExecJumps.ForAgrees | src/exec/executor.cpp:958-982 | The same for the for loop. |
| ExecJumps.CallFunctionAgrees | src/exec/executor.cpp:1024-1038 | A jump out of every loop of a function goes on at the call, counted or labelled. |
| ExecJumps.CountedIsLabelled | src/exec/executor.cpp:928-982 | A jump still under way with count n, d loops deep, is the label d - n: it names the n-th enclosing loop and none further in. |
| LoopConditions.ConditionJumpsIff | src/exec/executor.cpp:937-954 | A while or until loop does what the standard promises, a jump of its condition being caught as one of its body, if and only if no condition that is reached jumps, or the jump is continue for this very loop and the loop gone on with would end by the same jump and state; a jump that is reached is how the loop ends. |
| LoopConditions.QuietConditionIsInLoop | src/exec/executor.cpp:937-954 | Checked before the loop is run: condition and functions name break and continue only bare and in loops of their own, and neither eval nor what else may bring in a program that does; then the loop does what the standard promises, whatever its redirections are. |
| LoopConditions.BreakInCondition | src/exec/executor.cpp:937-954 | `while break; do ...; done` ends in a jump to the loop around it, for every body, where the standard has it end with status 0. |
| ExecLaws.FuelOnlyBounds | src/exec/executor.cpp:583-1038 | A run that ends within some fuel gives the same state and end with any more: fuel only bounds how far loops and calls are followed. |
| ExecLaws.LoopFuel | src/exec/executor.cpp:937-954 | The same for one loop, condition and body included. |
| ExecLaws.ListsCompose | src/exec/executor.cpp:583-618 | A list made of two runs the second where the first ended, unless the first was unwound. |
| ExecLaws.ChainsCompose | src/exec/executor.cpp:620-637 | AND_IF and OR_IF have equal precedence and associate to the left: what follows in a chain sees only the status of all before it. |
| ExecLaws.SkippedPartsDoNothing | src/exec/executor.cpp:620-637 | After a success a run of OR_IF parts, and after a failure a run of AND_IF parts, leaves state and status as they are. |
| CommandLaws.CompoundUnderRedirects | src/exec/executor.cpp:713-725 | A compound command whose redirections fail is not run and has status 1; otherwise it ends as its body does. |
| CommandLaws.NamesAreLookedUpInOrder | src/exec/executor.cpp:737-826 | Special utilities come before functions, functions before other utilities, and any other name is a program. |
| CommandLaws.FunctionIsItsBody | src/exec/executor.cpp:1024-1038 | A call runs the body with the arguments as positional parameters; a return gives its status. |
| CommandLaws.DefinitionBinds | src/exec/executor.cpp:713-725 | A definition binds the name to the body, with status 0. |
| CommandLaws.SetVarSets | src/exec/executor.cpp:727-735 | A variable that is set has the value and its old export mark; the others are unchanged; exactly a read-only one refuses. |
| CommandLaws.AssignInOrder | src/exec/executor.cpp:797-804 | Assignments are made in order, each before the next is expanded, up to the first that is refused. |
| CommandLaws.WordsInOrder | src/exec/executor.cpp:737-741 | Words are expanded in order, and their fields are the arguments in order. |
| CommandLaws.BareAssignment | src/exec/executor.cpp:743-752 | `x=v` alone sets x, with status 0, or 1 when x is read-only. |
| CommandLaws.BareRedirectFails | src/exec/executor.cpp:743-752 | Without a command name a redirection that fails keeps the assignments from being made. |
| CommandLaws.SpecialKeepsAssignments | src/exec/executor.cpp:763-778 | Assignments before a special utility stay; when one is refused the utility is not run. |
| CommandLaws.ExecKeepsRedirections | src/exec/executor.cpp:769-774 | The redirections of exec stay; with a command the shell ends as that command. |
| CommandLaws.SignalsOf | src/exec/builtins.cpp:163-184 | Without operand break and continue count 1 and return and exit give `$?`; with a number they give it, a jump at least 1. |
| CommandLaws.MalformedOperand | src/exec/builtins.cpp:163-184 | For an operand that is no number the count is 1, return gives 0 and exit 2. |
| CommandLaws.UtilityFinishes | src/exec/builtins.cpp:1358-1365 | A utility gives its status, variables and parameters; functions it removes are gone. |
| CommandLaws.SourcedProgramRunsHere | src/exec/builtins.cpp:273-316 | A program brought in runs in the current state; the positional parameters come back when it had its own. |
| Executor.Shell.TrySetVar | src/exec/executor.cpp:727-735 | Sets the variable, or refuses and changes nothing when it is read-only. |
| Executor.Shell.ApplyOneRedirect | src/exec/executor.cpp:1065-1130 | Save, expansion, open, duplication and closing leave the state and the backup stack that ApplyOne gives. |
| Executor.Shell.ApplyAll | src/exec/executor.cpp:1058-1063 | Redirections are applied in order up to the first failure. |
| Executor.Shell.RunList | src/exec/executor.cpp:583-618 | The new state and outcome are those of ExecSpec.RunList. |
| Executor.Shell.RunAndOr | src/exec/executor.cpp:620-637 | Those of ExecSpec.RunAndOr. |
| Executor.Shell.RunPipeline | src/exec/executor.cpp:639-707 | Those of ExecSpec.RunPipeline. |
| Executor.Shell.RunCommand | src/exec/executor.cpp:713-725 | Those of ExecSpec.RunCommand. |
| Executor.Shell.RunSimple | src/exec/executor.cpp:737-826 | Those of ExecSpec.RunSimple. |
| Executor.Shell.RunRegular | src/exec/executor.cpp:779-826 | Those of ExecSpec.RunRegular: prefix assignments are restored after a status and stay when a signal unwinds. |
| Calls.PrefixIsRestored | src/exec/executor.cpp:780-826 | A variable that the expansions of the line itself leave alone, assigned before a regular command that ends with a status, has afterwards the value it had before, or none. |
| Calls.RegularEnds | src/exec/executor.cpp:780-826 | From what can be checked before the call (the line and the functions name no jump, exit or exec, nor eval or the like, break and continue bare in loops of their own aside; their words throw nothing) a regular command ends with a status, unless a variable has become read-only. |
| Calls.PrefixIsRestoredIfQuiet | src/exec/executor.cpp:780-826 | Such a command line leaves every variable that its own expansions leave alone with the value from before, unless that error comes. |
| Calls.LoopKeepsBreak | src/exec/executor.cpp:780-826 | `X=1 f`, f being `{ while :; do break; done; }`, ends with status 0, with any fuel at all, and X is unset again. |
| Calls.LoopIsQuiet | src/exec/executor.cpp:780-826 | That line meets the condition on the text of PrefixIsRestoredIfQuiet. |
| Calls.RestoreGivesFirst | src/exec/executor.cpp:788-796 | Restoring from last to first gives each variable the value saved before its first assignment. |
| Calls.RestoresIff | src/exec/executor.cpp:788-796 | Restoring goes through if and only if no variable with a value to get back is read-only, where only its last assignment counts. |
| Calls.BreakKeepsAssignment | src/exec/executor.cpp:780-826 | `X=1 f`, f being `{ break; }`, leaves X assigned although it was unset. |
| DefinitionRedirects.CallsKeepPromiseIff | src/exec/executor.cpp:1024-1038 | Over hosts that expand literal text to itself: all calls of a function are as the standard promises (redirections of the definition applied, and undone) if and only if the definition has none. |
| DefinitionRedirects.FileIsNotOpened | src/exec/executor.cpp:1024-1038 | A call of a function defined with `>x` does not open x. |
| Executor.Shell.CallBuiltin | src/exec/builtins.cpp:1358-1365 | Those of ExecSpec.CallBuiltin, for utilities that compute and for those that run a program in the current context. |
| Executor.Shell.CallFunction | src/exec/executor.cpp:1024-1038 | Those of ExecSpec.CallFunction; positional parameters are unchanged. |
| Executor.Shell.RunCompound | src/exec/executor.cpp:918-926 | Those of ExecSpec.RunCompound. |
| Executor.Shell.RunIfBranches | src/exec/executor.cpp:928-934 | Conditions are run in order to the first that succeeds. |
| Executor.Shell.RunLoopClause | src/exec/executor.cpp:937-954 | Those of ExecSpec.RunLoop; the loop ends within its fuel. |
| Executor.Shell.RunForClause | src/exec/executor.cpp:958-982 | Those of ExecSpec.RunFor. |
| Executor.Shell.RunCaseClause | src/exec/executor.cpp:984-993 | Those of ExecSpec.RunCase: the first matching pattern decides. |
| Executor.Shell.RunProgram | src/exec/executor.cpp:487-515 | Every outcome becomes a status (1 for expansion errors, 2 for syntax errors) and an exit request, except an assignment to a read-only variable, which nobody catches; a plain program that did not use exec leaves the descriptors as they were, when the rules speak of descriptors. |
| Jobs.JobTable.AddJob | src/exec/executor.cpp:278-289 | The job gets the next number, larger than every number ever in the table, and the log records it. |
| Jobs.JobTable.FindJob | src/exec/executor.cpp:291-296 | Finds the job with that number if there is one. |
| Jobs.JobTable.RemoveJob | src/exec/executor.cpp:300-307 | Exactly the job with that number leaves the table. |
| Jobs.JobTable.UpdateAndNotifyJobs | src/exec/executor.cpp:309-365 | Every job absorbs exactly the reports of its group. Every job that has stopped or become done since it was last announced is told of exactly once, with its number, state, status and command; no other job is. A job that is done leaves the table, any other stays, and a stopped one is marked as announced. The log gets exactly the notices printed, and afterwards the last state of every job that does not run has been announced. |
| JobNotices.UpdateTells | src/exec/executor.cpp:343-364 | The same of the function that the method computes: one notice for each job that calls for one, in terms of the jobs alone. |
| JobNotices.ReportsDecide | src/exec/executor.cpp:309-341 | After its reports a job is done if and only if each of its processes was done or is reported to have ended, otherwise stopped or running as the last stop or continue says; its status is that of its last process. |
| JobNotices.EachTakesItsOwn | src/exec/executor.cpp:309-341 | Jobs of different process groups take exactly the reports of their own group. |
| JobNotices.AnnouncementsTell | src/exec/executor.cpp:343-364 | After the announcements the last entry of the log about a job that does not run is its announcement. |
| Jobs.JobTable.ResumeJob | src/exec/executor.cpp:367-390 | In the background the job runs on under its number; in the foreground it leaves the table and is waited for, and a stop puts it back under a new number. |
| Jobs.JobTable.WaitForJob | src/exec/executor.cpp:392-451 | With job control reports are taken until a stop or the last process, and a stop registers the job and gives 128 + SIGTSTP. Without it each process is waited for in turn, stops are mirrored, and the status is that of the last process, or 0 when it can not be waited for. |
| Jobs.WaitQueue.WaitForChild | src/exec/executor.cpp:453-485 | One SIGSTOP is raised for each stop reported of the process before its end; the end is returned, and reports on other processes are left. |
| JobWaiting.StopIsMirroredIff | src/exec/executor.cpp:392-485 | Without job control the shell stops itself if and only if, when the wait for one of the processes begins, the first report on that process is a stop. |
| JobWaiting.StopsIff | src/exec/executor.cpp:392-451 | With job control a wait ends by a stop if and only if a report of a stop comes while some process has not ended. |
| JobWaiting.LostProcessCountsAsZero | src/exec/executor.cpp:392-451 | Without job control a last process that can not be waited for counts as status 0. |
| JobWaiting.WaitsAgree | src/exec/executor.cpp:392-451 | When nothing stops and the last process is reported to have ended, both ways of waiting give its status. |
| JobWaiting.StoppedJobCompletesIff | src/exec/executor.cpp:392-451 | A job stopped in the foreground is registered with no process done: of processes that all end, updates of the table make it done if and only if none had ended before the stop. |
| JobWaiting.ForegroundFinishes | src/exec/executor.cpp:367-451 | Waiting for it in the foreground ends without a stop, so that it leaves the table for good; the status is 1 when its last process had ended before. |
| JobWaiting.StoppedJobStays | src/exec/executor.cpp:309-341 | An example: a pipeline of two, the first of which ended before the stop, is not made done by the reports on the second. |
| JobWaiting.StoppedJobEndsInForeground | src/exec/executor.cpp:367-451 | The same pipeline, waited for in the foreground, ends with the status of its second process. |
| JobSpec.AbsorbTracked | src/exec/executor.cpp:309-341 | One report moves the job and the log together and keeps every promise of the log. |
| JobSpec.ChangeBetween | src/exec/executor.cpp:343-364 | Between two announcements of a job it took on the state the second announces: no stop and no completion is announced twice. |
| JobSpec.DoneIsLast | src/exec/executor.cpp:343-364 | After a job has become done the log holds at most its one announcement: it never changes state or is announced otherwise. |
| JobSpec.DoneMeansReaped | src/exec/executor.cpp:325-341 | A job becomes done only after a report for each of its processes, and with the status of the last one. |
| StopMirror.WrapperIsFaithful | src/exec/executor.cpp:453-485 | Over every run: the moves of a wrapper are those the wait loop makes on the reports it is told of the process below, up to one stop still owed. |
| StopMirror.MovesAreTheLoops | src/exec/executor.cpp:453-485 | On the same reports the wait loop raises as many stops as those moves, and ends exactly when they do. |
| StopMirror.StepInv | src/exec/executor.cpp:453-485 | Every step of wrappers, leaf and shell keeps the invariant of the chain, a stop signal to the group included when it meets no wrapper between seeing a stop and raising one. |
| StopMirror.StopIsWhole | src/exec/executor.cpp:85-91 | Over every such run, any chain length: when the leader has stopped or the job is recorded stopped, no process of it runs; the continue signal sent then leaves every process waiting or ended, none about to stop itself. |
| StopMirror.ResumedWaitIff | src/exec/executor.cpp:453-485 | The condition is exact at every group stop and resumption: all processes wait again or have ended if and only if no wrapper was between seeing a stop and raising one; a wrapper that was can stop itself next. |
| StopMirror.StrayStop | src/exec/executor.cpp:453-485 | In any chain such a wrapper, above a stopped process, ends up stopped above a running one. |
| StopMirror.StopIsNotWhole | src/exec/executor.cpp:453-485 | A run of one wrapper that ends with the leader stopped and the leaf running. |
| StopMirror.StopReachesLeader | src/exec/executor.cpp:453-485 | A stopped leaf stops the leader: the wrappers make at most two moves each, in any order, and can stop moving only when the leader has stopped. |
| StopMirror.StatusIsTheLeafs | src/exec/executor.cpp:34-40 | Over every run: the status reported is the exit code of the leaf or 128 and its signal, through any number of wrappers. |
| Getopts.Environment.NextOption | src/exec/builtins.cpp:815-917 | One call changes exactly the variables that Call says; it needs only that the character index does not lie beyond the end of an option operand, where the program would read out of bounds. |
| Getopts.Look | src/exec/builtins.cpp:845-917 | Operand index and character index increase lexicographically and stay in range. |
| Getopts.CallMoves | src/exec/builtins.cpp:829-842 | The counters written as text are read back by the next call; name and OPTARG report the option found. |
| Getopts.RunIsParse | src/exec/builtins.cpp:815-917 | Calling until the end reports exactly what a one-pass parse finds and leaves OPTIND at the first operand. |
| Getopts.OptionsBack | src/exec/builtins.cpp:815-917 | Any list of options, bundled or apart, arguments attached or not, is returned in order from the initial state, with OPTIND at the first operand. |
| Getopts.RestartsIff | src/exec/builtins.cpp:842-858 | After OPTIND is set back, the next call finds what it finds from the start of the operand if and only if that operand is no option or the letters left are all its letters (the index is still one). |
| Getopts.RestartSkipsOption | src/exec/builtins.cpp:842-858 | With OPTIND 1 and index 2 the call on `-ab` finds b, not a. |
| Getopts.ColonIsAnOptionIff | src/exec/builtins.cpp:861-882 | For every option string: `-:` is accepted as a flag if and only if the string has a colon whose first is not followed by another, and is unknown, as it should be, if and only if no option takes an argument. |
| Getopts.ColonIsAFlag | src/exec/builtins.cpp:861-882 | With `a:b` and with `a:` it is accepted. |
| Getopts.UnknownAndMissing | src/exec/builtins.cpp:861-917 | A letter not in the option string gives `?`, a missing argument `:` in silent mode and `?` otherwise; OPTARG is the letter in silent mode and unset otherwise. |
| Getopts.ColonAfter | src/exec/builtins.cpp:861-882 | A letter takes an argument if and only if a colon follows its first place in the option string. |
| Getopts.CounterReads | src/exec/builtins.cpp:829-842 | A counter is the number its text writes; unset, empty or less than 1 it is 1. |
| History.HistoryList.Add | src/runtime/history.cpp:24-33 | A command is recorded unless blank or a repeat of the newest; the entries stay the tail window of the log and numbers keep their meaning. |
| History.HistoryList.Trim | src/runtime/history.cpp:7-12 | Only the oldest entries go, and the first number moves with them. |
| History.HistoryList.SetMaxSize | src/runtime/history.cpp:14-17 | The newest entries stay; the log is unchanged. |
| History.HistoryList.Clear | src/runtime/history.cpp:19-22 | The window empties and no number is used again. |
| History.HistoryList.ByNumber | src/runtime/history.cpp:35-38 | A number in the window gives the command it was given to in the log, any other nothing. |
| History.HistoryList.Load | src/runtime/history.cpp:40-45 | Adds the lines of the file in order; the log only grows. |
| History.HistoryList.Save | src/runtime/history.cpp:47-51 | Writes every entry and a newline. |
| History.SaveLoad | src/runtime/history.cpp:40-51 | Saved and loaded into a fresh history whose cap has room, the entries come back if and only if none holds a newline. |
| History.HistoryList.ResolveHistRef | src/exec/builtins.cpp:70-102 | A number returned lies in the window; a text reference gives the most recent command that starts with it, or none does; a numeric one is exactly the number, or that many back. |
| History.HistoryList.PreviousCommandNumber | src/exec/builtins.cpp:112-115 | The number of the command before the newest, in the window, when there are two. |
| History.NumbersRefer | src/exec/builtins.cpp:70-102 | A positive reference is that number, a negative one that many back from the newest, and nothing outside the window is found. |
| History.RecordsOnce | src/runtime/history.cpp:24-33 | One newline at the end of a command is no part of it; blank commands and repeats of the newest are not recorded. |

## Left out

- Source locations in tokens and trees, and the wording of messages.
- System calls and their failures (fork, pipe, dup2 on a number out of range, tmpfile, write), limits on descriptor numbers, terminal ownership, and PATH search. Which files open is a parameter.
- What forked children do: their statuses are parameters. A jump raised in a child is not modelled; the program lets it run on in the child.
- Trap delivery, startup files, prompts and the line editor.
- `${...}` operators, special parameters, command substitution output and pathname matching: parameters of the expansion model. In the executor an expansion may change variables and throw, but not descriptors.
- The built-in utilities except break, continue, return, exit, exec and getopts: a parameter that may finish, throw or name a program to run in the current context (eval, `.`, fc). The lifetime of function bodies defined by such programs is not modelled.
- The program shares a here-document between tree and parser; here the tree holds its index among all here-documents.
- ParseBinary: one method indexed by precedence level stands for the ten productions from parseLogicalOr to parseMultiplicative.
- ParseLoop: one production for while and until; the same holds for RunLoopClause, as in the program.
- Signed overflow and shifts by less than 0 or more than 63 have no defined result in C++: the model gives the failure Undefined. Number tokens are within 64 bits, and the digits of an IO_NUMBER are not bounded as atoi bounds them.
- Assignment to a read-only variable in arithmetic is a failure result; in getopts it is not modelled.
- NormalForm: smaller than what the scanner returns (ContinuationHidesDollar). For the other words the spelling used here, which has no line continuations, does not scan back; WordForms has the steps for the other forms.
- WellFormedCommand: smaller than what the parser returns (RedirectHidesReserved), since Emit writes the words of a simple command before its redirections; SimpleInAnyOrder has the other orders.
- ProgramRoundTrip: trees with here-documents are outside it, because their bodies are not among the command's tokens; BodyRoundTrip, PendingBodiesRoundTrip and EachGetsItsBody cover them.
- SourceBack: each word must be in normal form in front of the text that follows it, because a command substitution that starts with a parenthesis may be read as arithmetic depending on that text (DoubleParenCapturesWhatFollows).
- QuietConditionIsInLoop: the condition on the text is sufficient; a jump may also stand where no run reaches it. The same holds of PrefixIsRestoredIfQuiet.
- RunList: of a list that names eval, `.`, fc or command nothing is promised unless every program they may bring in is plain (SomeEvalIsNotPlain).
- RunLoop: loops, calls and sourced programs take fuel; a run that is out of fuel unwinds like an error, and a run that is not does not depend on it (FuelOnlyBounds). Endless runs are seen only as far as their fuel goes.
- StopIsWhole: only the leaf is killed, or stopped alone, from outside; a stop or continue signal to the group reaches all its processes at once.
- RunCalls: operands are short enough for the counters to fit an int, and the variable named is none of the three getopts uses itself.
