/** Word expansion (section 2.6 of POSIX.1-2017), from word trees to fields.
    What `${...}`, command substitution and arithmetic produce, the home
    directories and the directory scan are parameters. */
module ExpansionSpec {
  import opened Prelude
  import opened Tokens
  import opened FieldSplitSpec

  datatype Env = Env(
    params: seq<string>,
    ifs: string,
    home: string -> Option<string>,
    other: WordPart -> ExpandedWord,
    glob: ExpandedWord -> seq<string>)

  function Join(params: seq<string>, separator: string): string {
    if params == [] then ""
    else if |params| == 1 then params[0]
    else params[0] + separator + Join(params[1..], separator)
  }

  function Separator(ifs: string): string {
    if ifs == "" then "" else [ifs[0]]
  }

  /** `$@`: one piece a parameter, with a field boundary between them. */
  function AtPieces(params: seq<string>, quoted: bool): (r: ExpandedWord)
    ensures |r| == |params|
  {
    seq(|params|, i requires 0 <= i < |params| => Piece(params[i], quoted, i + 1 != |params|))
  }

  predicate IsAtOrStar(p: WordPart) {
    p.ParamExpansion? && (p.text == "@" || p.text == "*")
  }

  function AtOrStar(name: string, quoted: bool, env: Env): ExpandedWord {
    if name == "@" then AtPieces(env.params, quoted)
    else [Piece(Join(env.params, Separator(env.ifs)), quoted, false)]
  }

  function ForceQuoted(w: ExpandedWord): (r: ExpandedWord)
    ensures |r| == |w|
  {
    seq(|w|, i requires 0 <= i < |w| => w[i].(quoted := true))
  }

  function Part(p: WordPart, env: Env): ExpandedWord
    decreases p, 0
  {
    match p
    case Literal(t) => [Piece(t, false, false)]
    case SingleQuoted(t) => [Piece(t, true, false)]
    case DoubleQuoted(ps) => Nested(ps, env)
    case _ => if IsAtOrStar(p) then AtOrStar(p.text, false, env) else env.other(p)
  }

  /** What double quotes make of one part inside them. */
  function NestedPart(p: WordPart, env: Env): ExpandedWord
    decreases p, 1
  {
    if IsAtOrStar(p) then AtOrStar(p.text, true, env) else ForceQuoted(Part(p, env))
  }

  function Nested(ps: Word, env: Env): ExpandedWord
    decreases ps, 2
  {
    if ps == [] then [] else NestedPart(ps[0], env) + Nested(ps[1..], env)
  }

  function Parts(w: Word, env: Env): ExpandedWord {
    if w == [] then [] else Part(w[0], env) + Parts(w[1..], env)
  }

  function SlashAt(t: string): (n: nat)
    ensures n <= |t| && '/' !in t[..n] && (n < |t| ==> t[n] == '/')
  {
    if t == "" || t[0] == '/' then 0 else 1 + SlashAt(t[1..])
  }

  predicate StartsWithTilde(w: Word) {
    w != [] && w[0].Literal? && w[0].text != "" && w[0].text[0] == '~'
  }

  /** A tilde-prefix up to the first slash; unresolved, it is ordinary text. */
  function Tilde(text: string, env: Env): ExpandedWord
    requires text != ""
  {
    var n := SlashAt(text[1..]);
    match env.home(text[1..][..n])
    case None => [Piece(text, false, false)]
    case Some(dir) =>
      [Piece(dir, false, false)] + if n < |text[1..]| then [Piece(text[1..][n..], false, false)] else []
  }

  function Expand(w: Word, env: Env): ExpandedWord {
    if StartsWithTilde(w) then Tilde(w[0].text, env) + Parts(w[1..], env) else Parts(w, env)
  }

  // -------------------------------------------------- pathname expansion

  predicate IsMetachar(c: char) {
    c == '*' || c == '?' || c == '['
  }

  predicate PieceHasMetachar(p: Piece) {
    !p.quoted && exists i :: 0 <= i < |p.text| && IsMetachar(p.text[i])
  }

  predicate HasMetachar(w: ExpandedWord) {
    exists i :: 0 <= i < |w| && PieceHasMetachar(w[i])
  }

  function Pathname(field: ExpandedWord, env: Env): seq<string> {
    if HasMetachar(field) then env.glob(field) else [Flatten(field)]
  }

  function Pathnames(fields: seq<ExpandedWord>, env: Env): seq<string> {
    if fields == [] then [] else Pathname(fields[0], env) + Pathnames(fields[1..], env)
  }

  /** The fields a command word becomes. */
  function ToFields(w: Word, env: Env): seq<string> {
    Pathnames(SplitWord([], Expand(w, env), env.ifs), env)
  }
}
