/** What field splitting means (section 2.6.5 of POSIX.1-2017), on a word taken
    apart into atoms: characters that know whether they were quoted, and a mark
    for quoted text that is empty. */
module FieldSplitSpec {

  /** A run of expanded text (src/expand/expander.hpp). */
  datatype Piece = Piece(text: string, quoted: bool, fieldBreakAfter: bool)

  type ExpandedWord = seq<Piece>

  function Flatten(w: ExpandedWord): string {
    if w == [] then "" else w[0].text + Flatten(w[1..])
  }

  datatype Atom = Char(c: char, quoted: bool) | EmptyQuote

  function CharsOf(text: string, quoted: bool): (r: seq<Atom>)
    ensures |r| == |text| && forall i :: 0 <= i < |r| ==> r[i] == Char(text[i], quoted)
  {
    seq(|text|, i requires 0 <= i < |text| => Char(text[i], quoted))
  }

  function PieceAtoms(p: Piece): seq<Atom> {
    if p.quoted && p.text == "" then [EmptyQuote] else CharsOf(p.text, p.quoted)
  }

  function Atoms(w: ExpandedWord): seq<Atom> {
    if w == [] then [] else PieceAtoms(w[0]) + Atoms(w[1..])
  }

  // ------------------------------------------------------------ IFS classes

  predicate IsIfsWhitespace(c: char, ifs: string) {
    (c == ' ' || c == '\t' || c == '\n') && c in ifs
  }

  predicate IsIfsChar(c: char, ifs: string) {
    c in ifs
  }

  predicate White(a: Atom, ifs: string) {
    a.Char? && !a.quoted && IsIfsWhitespace(a.c, ifs)
  }

  predicate Other(a: Atom, ifs: string) {
    a.Char? && !a.quoted && IsIfsChar(a.c, ifs) && !IsIfsWhitespace(a.c, ifs)
  }

  predicate Text(a: Atom, ifs: string) {
    !White(a, ifs) && !Other(a, ifs)
  }

  // ----------------------------------------------------- reference splitter

  function WhiteRun(a: seq<Atom>, ifs: string): (n: nat)
    ensures n <= |a| && (forall i :: 0 <= i < n ==> White(a[i], ifs)) && (n < |a| ==> !White(a[n], ifs))
  {
    if a == [] || !White(a[0], ifs) then 0 else 1 + WhiteRun(a[1..], ifs)
  }

  function TextRun(a: seq<Atom>, ifs: string): (n: nat)
    ensures n <= |a| && (forall i :: 0 <= i < n ==> Text(a[i], ifs)) && (n < |a| ==> !Text(a[n], ifs))
  {
    if a == [] || !Text(a[0], ifs) then 0 else 1 + TextRun(a[1..], ifs)
  }

  /** A maximal delimiter: IFS white space around at most one other IFS character. */
  function DelimiterLength(a: seq<Atom>, ifs: string): (n: nat)
    ensures n <= |a| && (a != [] && !Text(a[0], ifs) ==> n > 0)
    ensures forall i :: 0 <= i < n ==> !Text(a[i], ifs)
  {
    var w := WhiteRun(a, ifs);
    if w < |a| && Other(a[w], ifs) then
      var v := WhiteRun(a[w + 1..], ifs);
      assert forall i :: w + 1 <= i < w + 1 + v ==> a[i] == a[w + 1..][i - (w + 1)];
      w + 1 + v
    else w
  }

  /** Drop leading IFS white space, then cut at the delimiters. */
  function Fields(a: seq<Atom>, ifs: string): seq<seq<Atom>> {
    Cut(a[WhiteRun(a, ifs)..], ifs)
  }

  /** Cut at every maximal delimiter; drop what a final delimiter leaves after
      it, and the field before it too when that is empty and unquoted. */
  function Cut(a: seq<Atom>, ifs: string): seq<seq<Atom>>
    decreases |a|
  {
    var n := TextRun(a, ifs);
    var field, rest := a[..n], a[n..];
    var d := DelimiterLength(rest, ifs);
    if d == |rest| then NonEmpty(field) else [field] + Cut(rest[d..], ifs)
  }

  function NonEmpty(field: seq<Atom>): seq<seq<Atom>> {
    if field == [] then [] else [field]
  }

  // --------------------------------------------------------- conservation

  function Concat(fields: seq<seq<Atom>>): seq<Atom> {
    if fields == [] then [] else fields[0] + Concat(fields[1..])
  }

  /** The atoms that are not unquoted IFS characters. */
  function Kept(a: seq<Atom>, ifs: string): seq<Atom> {
    if a == [] then [] else KeptHead(a[0], ifs) + Kept(a[1..], ifs)
  }

  function KeptHead(a: Atom, ifs: string): seq<Atom> {
    if Text(a, ifs) then [a] else []
  }

  lemma {:induction false} KeptConcat(a: seq<Atom>, b: seq<Atom>, ifs: string)
    ensures Kept(a + b, ifs) == Kept(a, ifs) + Kept(b, ifs)
    decreases |a|
  {
    hide KeptHead;
    if a == [] {
      assert a + b == b;
    } else {
      assert (a + b)[0] == a[0] && (a + b)[1..] == a[1..] + b;
      KeptConcat(a[1..], b, ifs);
      Associate(KeptHead(a[0], ifs), Kept(a[1..], ifs), Kept(b, ifs));
    }
  }

  lemma Associate<T>(x: seq<T>, y: seq<T>, z: seq<T>)
    ensures x + (y + z) == x + y + z
  {
  }

  lemma {:induction false} KeptText(a: seq<Atom>, ifs: string)
    requires forall i :: 0 <= i < |a| ==> Text(a[i], ifs)
    ensures Kept(a, ifs) == a
    decreases |a|
  {
    if a != [] {
      KeptText(a[1..], ifs);
    }
  }

  lemma {:induction false} KeptDelimiter(a: seq<Atom>, ifs: string)
    requires forall i :: 0 <= i < |a| ==> !Text(a[i], ifs)
    ensures Kept(a, ifs) == []
    decreases |a|
  {
    if a != [] {
      KeptDelimiter(a[1..], ifs);
    }
  }

  lemma KeptSplit(a: seq<Atom>, n: nat, ifs: string)
    requires n <= |a|
    ensures Kept(a, ifs) == Kept(a[..n], ifs) + Kept(a[n..], ifs)
  {
    assert a == a[..n] + a[n..];
    KeptConcat(a[..n], a[n..], ifs);
  }

  lemma KeptTextThenDelimiter(a: seq<Atom>, n: nat, d: nat, ifs: string)
    requires n + d <= |a|
    requires forall i :: 0 <= i < n ==> Text(a[i], ifs)
    requires forall i :: n <= i < n + d ==> !Text(a[i], ifs)
    ensures Kept(a, ifs) == a[..n] + Kept(a[n + d..], ifs)
  {
    hide Kept, Text;
    var rest := a[n..];
    KeptSplit(a, n, ifs);
    KeptSplit(rest, d, ifs);
    KeptText(a[..n], ifs);
    KeptDelimiter(rest[..d], ifs);
    assert rest[d..] == a[n + d..];
    assert [] + Kept(a[n + d..], ifs) == Kept(a[n + d..], ifs);
  }

  lemma ConcatCons(field: seq<Atom>, fields: seq<seq<Atom>>)
    ensures Concat([field] + fields) == field + Concat(fields)
  {
    assert ([field] + fields)[1..] == fields;
  }

  lemma CutConserves(a: seq<Atom>, ifs: string)
    ensures Concat(Cut(a, ifs)) == Kept(a, ifs)
    decreases |a|
  {
    hide WhiteRun, TextRun, DelimiterLength, Text, Kept, Concat, NonEmpty;
    var n := TextRun(a, ifs);
    var rest := a[n..];
    var d := DelimiterLength(rest, ifs);
    KeptTextThenDelimiter(a, n, d, ifs);
    assert rest[d..] == a[n + d..];
    if d == |rest| {
      KeptText(a[n + d..], ifs);
      assert a[..n] + a[n + d..] == a[..n];
      ConcatNonEmpty(a[..n]);
    } else {
      CutConserves(rest[d..], ifs);
      ConcatCons(a[..n], Cut(rest[d..], ifs));
    }
  }

  lemma ConcatNonEmpty(field: seq<Atom>)
    ensures Concat(NonEmpty(field)) == field
  {
    if field != [] {
      assert [field][1..] == [] && field + [] == field;
    }
  }

  lemma WhiteIsNoText(a: Atom, ifs: string)
    requires White(a, ifs)
    ensures !Text(a, ifs)
  {
  }

  /** The fields, joined, are the input without its unquoted IFS characters. */
  lemma FieldsConserve(a: seq<Atom>, ifs: string)
    ensures Concat(Fields(a, ifs)) == Kept(a, ifs)
  {
    hide WhiteRun, Cut, Kept, Concat, Text;
    var w := WhiteRun(a, ifs);
    KeptSplit(a, w, ifs);
    forall i | 0 <= i < w ensures !Text(a[..w][i], ifs) {
      WhiteIsNoText(a[i], ifs);
    }
    KeptDelimiter(a[..w], ifs);
    CutConserves(a[w..], ifs);
    assert [] + Kept(a[w..], ifs) == Kept(a[w..], ifs);
  }

  lemma {:induction false} AtomsConcat(v: ExpandedWord, w: ExpandedWord)
    ensures Atoms(v + w) == Atoms(v) + Atoms(w)
    decreases |v|
  {
    if v == [] {
      assert v + w == w;
    } else {
      assert (v + w)[1..] == v[1..] + w;
      AtomsConcat(v[1..], w);
    }
  }

  /** Where a run of text is cut into pieces makes no difference to the atoms,
      so none to the fields. */
  lemma ChunkingIsInvisible(v: ExpandedWord, s: string, t: string, quoted: bool, w: ExpandedWord)
    requires quoted ==> s != "" && t != ""
    ensures Atoms(v + [Piece(s, quoted, false), Piece(t, quoted, false)] + w) == Atoms(v + [Piece(s + t, quoted, false)] + w)
  {
    hide Atoms;
    var two, one := [Piece(s, quoted, false), Piece(t, quoted, false)], [Piece(s + t, quoted, false)];
    AtomsConcat(v + two, w);
    AtomsConcat(v, two);
    AtomsConcat(v + one, w);
    AtomsConcat(v, one);
    PairAtoms(s, t, quoted);
  }

  lemma PairAtoms(s: string, t: string, quoted: bool)
    requires quoted ==> s != "" && t != ""
    ensures Atoms([Piece(s, quoted, false), Piece(t, quoted, false)]) == Atoms([Piece(s + t, quoted, false)])
  {
    hide Atoms;
    var p, q := Piece(s, quoted, false), Piece(t, quoted, false);
    assert [p] + [q] == [p, q];
    AtomsConcat([p], [q]);
    AtomsOne(p);
    AtomsOne(q);
    AtomsOne(Piece(s + t, quoted, false));
    assert CharsOf(s + t, quoted) == CharsOf(s, quoted) + CharsOf(t, quoted);
  }

  lemma AtomsOne(p: Piece)
    ensures Atoms([p]) == PieceAtoms(p)
  {
    hide PieceAtoms;
    assert [p][1..] == [] && PieceAtoms(p) + [] == PieceAtoms(p);
  }

  // ------------------------------------------------------- fields as words

  /** Appends text, joining it to a last piece with the same quoting. */
  function Append(w: ExpandedWord, text: string, quoted: bool): ExpandedWord {
    if text == "" && !quoted then w
    else if w != [] && w[|w| - 1].quoted == quoted then
      w[..|w| - 1] + [w[|w| - 1].(text := w[|w| - 1].text + text)]
    else w + [Piece(text, quoted, false)]
  }

  function AppendAtom(w: ExpandedWord, a: Atom): (r: ExpandedWord)
    ensures r != []
  {
    match a
    case EmptyQuote => Append(w, "", true)
    case Char(c, quoted) => Append(w, [c], quoted)
  }

  /** A field, from its atoms. */
  function Group(field: seq<Atom>): (r: ExpandedWord)
    ensures r == [] <==> field == []
  {
    if field == [] then [] else AppendAtom(Group(field[..|field| - 1]), field[|field| - 1])
  }

  function GroupAll(fields: seq<seq<Atom>>): (r: seq<ExpandedWord>)
    ensures |r| == |fields|
  {
    if fields == [] then [] else [Group(fields[0])] + GroupAll(fields[1..])
  }

  /** The fields of a word, segment by segment: a piece that forces a field
      boundary ends a segment, and an empty IFS splits nothing. */
  function SplitSegment(segment: ExpandedWord, ifs: string): seq<ExpandedWord> {
    if ifs != "" then GroupAll(Fields(Atoms(segment), ifs))
    else if exists i :: 0 <= i < |segment| && (segment[i].quoted || segment[i].text != "") then [segment]
    else []
  }

  function SplitWord(segment: ExpandedWord, w: ExpandedWord, ifs: string): seq<ExpandedWord>
    decreases |w|
  {
    if w == [] then if segment == [] then [] else SplitSegment(segment, ifs)
    else
      var grown := segment + [w[0]];
      if w[0].fieldBreakAfter then SplitSegment(grown, ifs) + SplitWord([], w[1..], ifs)
      else SplitWord(grown, w[1..], ifs)
  }
}
