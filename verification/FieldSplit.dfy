/** Field splitting as the program does it: a character loop over a delimiter
    state of four variables, proved equal to the reference splitter. */
module FieldSplit {
  import opened FieldSplitSpec

  /** The fields still to come in each state: while leading white space is
      trimmed, inside a field, and inside a delimiter. */
  ghost function FromLead(a: seq<Atom>, ifs: string): seq<seq<Atom>>
    decreases |a|
  {
    if a == [] then []
    else if White(a[0], ifs) then FromLead(a[1..], ifs)
    else if Other(a[0], ifs) then FromDelimiter([], true, a[1..], ifs)
    else FromField([], a, ifs)
  }

  ghost function FromField(field: seq<Atom>, a: seq<Atom>, ifs: string): seq<seq<Atom>>
    decreases |a|, 0
  {
    if a == [] then NonEmpty(field)
    else if Text(a[0], ifs) then FromField(field + [a[0]], a[1..], ifs)
    else FromDelimiter(field, Other(a[0], ifs), a[1..], ifs)
  }

  ghost function FromDelimiter(field: seq<Atom>, sawOther: bool, a: seq<Atom>, ifs: string): seq<seq<Atom>>
    decreases |a|, 1
  {
    if a == [] then NonEmpty(field)
    else if White(a[0], ifs) then FromDelimiter(field, sawOther, a[1..], ifs)
    else if Other(a[0], ifs) then
      if sawOther then [field] + FromDelimiter([], true, a[1..], ifs)
      else FromDelimiter(field, true, a[1..], ifs)
    else [field] + FromField([], a, ifs)
  }

  // ------------------------------------- the states agree with the reference

  /** What a delimiter state stands for: the delimiter goes on for d atoms. */
  ghost function AfterDelimiter(field: seq<Atom>, d: nat, a: seq<Atom>, ifs: string): seq<seq<Atom>>
    requires d <= |a|
  {
    if d == |a| then NonEmpty(field) else [field] + Cut(a[d..], ifs)
  }

  lemma {:induction false} DelimiterIsReference(field: seq<Atom>, sawOther: bool, a: seq<Atom>, ifs: string)
    ensures FromDelimiter(field, sawOther, a, ifs)
         == AfterDelimiter(field, if sawOther then WhiteRun(a, ifs) else DelimiterLength(a, ifs), a, ifs)
    decreases |a|, 1
  {
    hide Cut, WhiteRun, DelimiterLength, White, Other, FromField;
    if a == [] {
    } else if White(a[0], ifs) {
      DelimiterIsReference(field, sawOther, a[1..], ifs);
      DelimiterWhite(a, ifs);
      DropOne(field, a, if sawOther then WhiteRun(a[1..], ifs) else DelimiterLength(a[1..], ifs), ifs);
    } else if Other(a[0], ifs) {
      DelimiterIsReference(if sawOther then [] else field, true, a[1..], ifs);
      CutAtOther(a, ifs);
      DropOne(if sawOther then [] else field, a, WhiteRun(a[1..], ifs), ifs);
      NoWhite(a, ifs);
      assert a[0..] == a;
    } else {
      FieldIsReference([], a, ifs);
      NoWhite(a, ifs);
      assert a[0..] == a;
      CutIs(a, ifs);
    }
  }

  lemma DropOne(field: seq<Atom>, a: seq<Atom>, d: nat, ifs: string)
    requires d + 1 <= |a|
    ensures AfterDelimiter(field, d, a[1..], ifs) == AfterDelimiter(field, d + 1, a, ifs)
  {
    assert a[1..][d..] == a[d + 1..];
  }

  lemma NoWhite(a: seq<Atom>, ifs: string)
    requires a != [] && !White(a[0], ifs)
    ensures WhiteRun(a, ifs) == 0
    ensures !Other(a[0], ifs) ==> DelimiterLength(a, ifs) == 0
  {
  }

  lemma DelimiterWhite(a: seq<Atom>, ifs: string)
    requires a != [] && White(a[0], ifs)
    ensures DelimiterLength(a, ifs) == 1 + DelimiterLength(a[1..], ifs)
    ensures WhiteRun(a, ifs) == 1 + WhiteRun(a[1..], ifs)
  {
    var w := WhiteRun(a[1..], ifs);
    if w < |a[1..]| {
      assert a[1..][w + 1..] == a[w + 2..];
    }
  }

  lemma CutAtOther(a: seq<Atom>, ifs: string)
    requires a != [] && Other(a[0], ifs)
    ensures var d := 1 + WhiteRun(a[1..], ifs);
            && DelimiterLength(a, ifs) == d
            && Cut(a, ifs) == AfterDelimiter([], d, a, ifs)
  {
    assert a[0..] == a && a[..0] == [];
  }

  /** The reference, with part of the first field already read. */
  ghost function CutAfter(field: seq<Atom>, a: seq<Atom>, ifs: string): seq<seq<Atom>> {
    var n := TextRun(a, ifs);
    var rest := a[n..];
    var d := DelimiterLength(rest, ifs);
    if d == |rest| then NonEmpty(field + a[..n]) else [field + a[..n]] + Cut(rest[d..], ifs)
  }

  lemma CutIs(a: seq<Atom>, ifs: string)
    ensures CutAfter([], a, ifs) == Cut(a, ifs)
  {
    var n := TextRun(a, ifs);
    assert [] + a[..n] == a[..n];
  }

  lemma CutAfterText(field: seq<Atom>, a: seq<Atom>, ifs: string)
    requires a != [] && Text(a[0], ifs)
    ensures CutAfter(field, a, ifs) == CutAfter(field + [a[0]], a[1..], ifs)
  {
    hide Cut, DelimiterLength;
    var n := TextRun(a[1..], ifs);
    assert field + [a[0]] + a[1..][..n] == field + a[..n + 1];
    assert a[1..][n..] == a[n + 1..];
  }

  lemma CutAfterDelimiter(field: seq<Atom>, a: seq<Atom>, ifs: string)
    requires a == [] || !Text(a[0], ifs)
    ensures CutAfter(field, a, ifs) == AfterDelimiter(field, DelimiterLength(a, ifs), a, ifs)
  {
    hide Cut, DelimiterLength;
    assert a[0..] == a && field + a[..0] == field;
  }

  lemma {:induction false} FieldIsReference(field: seq<Atom>, a: seq<Atom>, ifs: string)
    ensures FromField(field, a, ifs) == CutAfter(field, a, ifs)
    decreases |a|, 0
  {
    hide Cut, CutAfter, FromDelimiter, WhiteRun, DelimiterLength, White, Other;
    if a == [] {
      CutAfterDelimiter(field, a, ifs);
    } else if Text(a[0], ifs) {
      FieldIsReference(field + [a[0]], a[1..], ifs);
      CutAfterText(field, a, ifs);
    } else {
      DelimiterIsReference(field, Other(a[0], ifs), a[1..], ifs);
      CutAfterDelimiter(field, a, ifs);
      if White(a[0], ifs) {
        NotBoth(a[0], ifs);
        DelimiterWhite(a, ifs);
        DropOne(field, a, DelimiterLength(a[1..], ifs), ifs);
      } else {
        CutAtOther(a, ifs);
        DropOne(field, a, WhiteRun(a[1..], ifs), ifs);
      }
    }
  }

  lemma NotBoth(a: Atom, ifs: string)
    ensures !(White(a, ifs) && Other(a, ifs))
  {
  }

  lemma {:induction false} LeadIsReference(a: seq<Atom>, ifs: string)
    ensures FromLead(a, ifs) == Fields(a, ifs)
    decreases |a|
  {
    if a == [] {
      assert a[0..] == [];
      CutIs([], ifs);
    } else if White(a[0], ifs) {
      LeadIsReference(a[1..], ifs);
      assert a[1..][WhiteRun(a[1..], ifs)..] == a[WhiteRun(a, ifs)..];
    } else if Other(a[0], ifs) {
      assert a[0..] == a;
      DelimiterIsReference([], true, a[1..], ifs);
      CutAtOther(a, ifs);
    } else {
      assert a[0..] == a;
      FieldIsReference([], a, ifs);
      CutIs(a, ifs);
    }
  }

  // -------------------------------------------------------------- the machine

  /** The fields still to come from the four variables of the machine. */
  ghost function Remaining(field: seq<Atom>, lead: bool, inDelimiter: bool, sawOther: bool, a: seq<Atom>, ifs: string)
    : seq<seq<Atom>>
  {
    if inDelimiter then FromDelimiter(field, sawOther, a, ifs)
    else if lead then FromLead(a, ifs)
    else FromField(field, a, ifs)
  }

  predicate AllText(t: seq<Atom>, ifs: string) {
    forall i :: 0 <= i < |t| ==> Text(t[i], ifs)
  }

  lemma {:induction false} FieldText(field: seq<Atom>, t: seq<Atom>, a: seq<Atom>, ifs: string)
    requires AllText(t, ifs)
    ensures FromField(field, t + a, ifs) == FromField(field + t, a, ifs)
    decreases |t|
  {
    if t == [] {
      assert t + a == a && field + t == field;
    } else {
      assert (t + a)[0] == t[0] && (t + a)[1..] == t[1..] + a;
      assert Text(t[0], ifs) && AllText(t[1..], ifs);
      FieldText(field + [t[0]], t[1..], a, ifs);
      assert field + [t[0]] + t[1..] == field + t;
    }
  }

  /** Regular text ends a pending delimiter and then joins the field. */
  lemma TextEndsDelimiter(field: seq<Atom>, lead: bool, inDelimiter: bool, sawOther: bool, t: seq<Atom>, a: seq<Atom>,
                          ifs: string)
    requires t != [] && AllText(t, ifs) && (lead ==> field == [] && !inDelimiter)
    ensures Remaining(field, lead, inDelimiter, sawOther, t + a, ifs)
         == (if inDelimiter then [field] else []) + FromField((if inDelimiter then [] else field) + t, a, ifs)
  {
    hide FromField;
    assert (t + a)[0] == t[0] && Text(t[0], ifs);
    FieldText(if inDelimiter then [] else field, t, a, ifs);
    assert [] + FromField(field + t, a, ifs) == FromField(field + t, a, ifs);
  }

  /** What one unquoted IFS character does to the state: the field it completes,
      if any, and whether a delimiter is now being read and has its one other
      character. */
  lemma IfsCharacter(field: seq<Atom>, lead: bool, inDelimiter: bool, sawOther: bool, c: char, a: seq<Atom>, ifs: string)
    requires IsIfsChar(c, ifs) && (lead ==> field == [] && !inDelimiter)
    ensures var other := !IsIfsWhitespace(c, ifs);
            Remaining(field, lead, inDelimiter, sawOther, [Char(c, false)] + a, ifs)
            == if lead && !other then Remaining(field, true, false, sawOther, a, ifs)
               else if inDelimiter && other && sawOther then [field] + Remaining([], false, true, true, a, ifs)
               else Remaining(field, false, true, other || (inDelimiter && sawOther), a, ifs)
  {
    var all := [Char(c, false)] + a;
    assert all[0] == Char(c, false) && all[1..] == a;
  }

  lemma GroupSnoc(field: seq<Atom>, a: Atom)
    ensures Group(field + [a]) == AppendAtom(Group(field), a)
  {
    var all := field + [a];
    assert all[..|all| - 1] == field;
  }

  lemma CharsSnoc(field: seq<Atom>, text: string, quoted: bool)
    requires text != ""
    ensures var n := |text| - 1;
            && field + CharsOf(text, quoted) == field + CharsOf(text[..n], quoted) + [Char(text[n], quoted)]
            && text == text[..n] + [text[n]]
  {
  }

  lemma {:induction false} GroupMore(field: seq<Atom>, text: string, quoted: bool)
    requires text != ""
    ensures Group(field + CharsOf(text, quoted)) == Append(Group(field), text, quoted)
    decreases |text|
  {
    hide Group, Append;
    var n := |text| - 1;
    CharsSnoc(field, text, quoted);
    GroupSnoc(field + CharsOf(text[..n], quoted), Char(text[n], quoted));
    if n == 0 {
      assert field + CharsOf(text[..n], quoted) == field && text == [text[0]];
    } else {
      GroupMore(field, text[..n], quoted);
      AppendTwice(Group(field), text[..n], [text[n]], quoted);
    }
  }

  lemma AppendTwice(w: ExpandedWord, s: string, t: string, quoted: bool)
    requires s != "" && t != ""
    ensures Append(Append(w, s, quoted), t, quoted) == Append(w, s + t, quoted)
  {
    var once := Append(w, s, quoted);
    var n := |once| - 1;
    var p := once[n];
    assert s + t != "" && once == once[..n] + [p];
    if w != [] && w[|w| - 1].quoted == quoted {
      Associate(w[n].text, s, t);
      assert once[..n] == w[..n];
      assert Append(once, t, quoted) == w[..n] + [p.(text := p.text + t)];
    } else {
      assert once[..n] == w;
      assert Append(once, t, quoted) == w + [p.(text := p.text + t)];
    }
  }

  lemma GroupPiece(field: seq<Atom>, p: Piece)
    requires p.quoted || p.text != ""
    ensures Group(field + PieceAtoms(p)) == Append(Group(field), p.text, p.quoted)
  {
    if p.text == "" {
      GroupSnoc(field, EmptyQuote);
    } else {
      GroupMore(field, p.text, p.quoted);
    }
  }

  lemma {:induction false} GroupAllConcat(a: seq<seq<Atom>>, b: seq<seq<Atom>>)
    ensures GroupAll(a + b) == GroupAll(a) + GroupAll(b)
    decreases |a|
  {
    if a == [] {
      assert a + b == b;
    } else {
      assert (a + b)[1..] == a[1..] + b;
      GroupAllConcat(a[1..], b);
    }
  }

  lemma CharsCons(text: string, i: nat, j: nat, a: seq<Atom>)
    requires i <= j <= |text|
    ensures CharsOf(text[i..], false) + a == CharsOf(text[i..j], false) + (CharsOf(text[j..], false) + a)
  {
  }

  lemma FirstChar(text: string, i: nat, a: seq<Atom>)
    requires i < |text|
    ensures CharsOf(text[i..], false) + a == [Char(text[i], false)] + (CharsOf(text[i + 1..], false) + a)
  {
  }

  /** The end of the run of regular characters at a position. */
  method RunEnd(text: string, start: nat, ifs: string) returns (i: nat)
    requires start < |text| && !IsIfsChar(text[start], ifs)
    ensures start < i <= |text|
    ensures AllText(CharsOf(text[start..i], false), ifs)
    ensures i < |text| ==> IsIfsChar(text[i], ifs)
  {
    i := start;
    while i < |text| && !IsIfsWhitespace(text[i], ifs) && !IsIfsChar(text[i], ifs)
      invariant start <= i <= |text| && (i == start ==> !IsIfsChar(text[i], ifs))
      invariant forall j :: start <= j < i ==> !IsIfsChar(text[j], ifs)
    {
      i := i + 1;
    }
  }

  class Splitter {
    const ifs: string
    var fields: seq<ExpandedWord>
    var curField: ExpandedWord
    var nonDiscardable: bool
    var inLeadingTrim: bool
    var inDelimiter: bool
    var delimiterSawNonWhite: bool
    /** The atoms of the current field, and the fields the whole segment has. */
    ghost var field: seq<Atom>
    ghost const all: seq<seq<Atom>>

    /** The state is right for a rest of the segment that consists of a. */
    ghost predicate Valid(a: seq<Atom>)
      reads this
    {
      && curField == Group(field) && nonDiscardable == (field != [])
      && (inLeadingTrim ==> field == [] && !inDelimiter)
      && fields + GroupAll(Remaining(field, inLeadingTrim, inDelimiter, delimiterSawNonWhite, a, ifs)) == GroupAll(all)
    }

    constructor (ifs: string, ghost a: seq<Atom>)
      ensures Valid(a) && this.ifs == ifs && all == Fields(a, ifs)
    {
      hide FromLead, FromField, FromDelimiter, Fields;
      this.ifs := ifs;
      fields, curField, nonDiscardable := [], [], false;
      inLeadingTrim, inDelimiter, delimiterSawNonWhite := true, false, false;
      field, all := [], Fields(a, ifs);
      LeadIsReference(a, ifs);
    }

    method EmitField()
      modifies this
      requires curField == Group(field)
      ensures fields == old(fields) + GroupAll([old(field)])
      ensures field == [] && curField == [] && !nonDiscardable
      ensures inLeadingTrim == old(inLeadingTrim) && inDelimiter == old(inDelimiter)
      ensures delimiterSawNonWhite == old(delimiterSawNonWhite)
    {
      fields := fields + [curField];
      curField, nonDiscardable, field := [], false, [];
      assert [old(field)][1..] == [];
    }

    /** Text is about to be added, which ends a pending delimiter. */
    method EndDelimiterIfPending(ghost t: seq<Atom>, ghost a: seq<Atom>)
      modifies this
      requires t != [] && AllText(t, ifs) && Valid(t + a)
      ensures curField == Group(field) && !inLeadingTrim && !inDelimiter
      ensures fields + GroupAll(FromField(field + t, a, ifs)) == GroupAll(all)
    {
      hide FromLead, FromField, FromDelimiter, Group, GroupAll;
      TextEndsDelimiter(field, inLeadingTrim, inDelimiter, delimiterSawNonWhite, t, a, ifs);
      if inDelimiter {
        GroupAllConcat([field], FromField([] + t, a, ifs));
        EmitField();
        inDelimiter, delimiterSawNonWhite := false, false;
      } else {
        NoneBefore(FromField(field + t, a, ifs));
      }
      inLeadingTrim := false;
    }

    /** Quoted text, or a run of regular characters. */
    method AddText(p: Piece, ghost a: seq<Atom>)
      modifies this
      requires (p.quoted || p.text != "") && AllText(PieceAtoms(p), ifs) && Valid(PieceAtoms(p) + a)
      ensures Valid(a) && !inLeadingTrim && !inDelimiter
    {
      hide FromLead, FromField, FromDelimiter, Group, GroupAll, PieceAtoms, AllText, Append;
      AtomsOfPiece(p);
      EndDelimiterIfPending(PieceAtoms(p), a);
      GroupPiece(field, p);
      curField := Append(curField, p.text, p.quoted);
      nonDiscardable := true;
      field := field + PieceAtoms(p);
    }

    method AddIfsChar(c: char, ghost a: seq<Atom>)
      modifies this
      requires IsIfsChar(c, ifs) && Valid([Char(c, false)] + a)
      ensures Valid(a)
    {
      hide FromLead, FromField, FromDelimiter, Group, GroupAll, Remaining, IsIfsWhitespace;
      IfsCharacter(field, inLeadingTrim, inDelimiter, delimiterSawNonWhite, c, a, ifs);
      var other := !IsIfsWhitespace(c, ifs);
      if inLeadingTrim {
        if other {
          inLeadingTrim, inDelimiter, delimiterSawNonWhite := false, true, true;
        }
      } else if !inDelimiter {
        inDelimiter, delimiterSawNonWhite := true, other;
      } else if other {
        if delimiterSawNonWhite {
          GroupAllConcat([field], Remaining([], false, true, true, a, ifs));
          EmitField();
        } else {
          delimiterSawNonWhite := true;
        }
      }
    }

    method AddUnquoted(text: string, ghost a: seq<Atom>)
      modifies this
      requires Valid(CharsOf(text, false) + a)
      ensures Valid(a)
    {
      hide FromLead, FromField, FromDelimiter, Group, GroupAll;
      var i, n := 0, |text|;
      assert text[0..] == text;
      while i < n
        invariant 0 <= i <= n && Valid(CharsOf(text[i..], false) + a)
      {
        var start := i;
        if IsIfsChar(text[i], ifs) {
          i := i + 1;
          FirstChar(text, start, a);
          AddIfsChar(text[start], CharsOf(text[i..], false) + a);
          continue;
        }
        i := RunEnd(text, start, ifs);
        var run := Piece(text[start..i], false, false);
        CharsCons(text, start, i, a);
        AddText(run, CharsOf(text[i..], false) + a);
      }
      assert CharsOf(text[n..], false) + a == a;
    }

    method Finish()
      modifies this
      requires Valid([])
      ensures fields == GroupAll(all)
    {
      hide Group, GroupAll;
      GroupNone();
      if nonDiscardable {
        EmitField();
      }
      assert fields + [] == fields;
    }
  }

  lemma NoneBefore(fields: seq<seq<Atom>>)
    ensures [] + fields == fields
  {
  }

  lemma AtomsOfPiece(p: Piece)
    ensures PieceAtoms(p) == [] <==> !p.quoted && p.text == ""
  {
  }

  lemma GroupNone()
    ensures GroupAll([]) == []
  {
  }

  /** The machine computes the reference splitter's fields. */
  method SplitOneSegment(segment: ExpandedWord, ifs: string) returns (fields: seq<ExpandedWord>)
    ensures fields == GroupAll(Fields(Atoms(segment), ifs))
  {
    hide Group, GroupAll, Fields, FromLead, FromField, FromDelimiter;
    var m := new Splitter(ifs, Atoms(segment));
    var k := 0;
    assert segment[0..] == segment;
    while k < |segment|
      invariant 0 <= k <= |segment| && m.Valid(Atoms(segment[k..]))
      invariant m.all == Fields(Atoms(segment), ifs) && fresh(m) && m.ifs == ifs
    {
      var piece := segment[k];
      assert segment[k..][1..] == segment[k + 1..];
      if piece.quoted {
        m.AddText(piece, Atoms(segment[k + 1..]));
      } else {
        m.AddUnquoted(piece.text, Atoms(segment[k + 1..]));
      }
      k := k + 1;
    }
    m.Finish();
    fields := m.fields;
  }

  /** flushSegment. */
  method FlushSegment(segment: ExpandedWord, ifs: string) returns (fields: seq<ExpandedWord>)
    ensures fields == SplitSegment(segment, ifs)
  {
    hide GroupAll, Fields;
    if ifs != "" {
      fields := SplitOneSegment(segment, ifs);
      return;
    }
    var anyQuoted, anyText := false, false;
    var i := 0;
    while i < |segment|
      invariant 0 <= i <= |segment|
      invariant anyQuoted || anyText <==> exists j :: 0 <= j < i && (segment[j].quoted || segment[j].text != "")
    {
      anyQuoted := anyQuoted || segment[i].quoted;
      anyText := anyText || segment[i].text != "";
      i := i + 1;
    }
    fields := if anyText || anyQuoted then [segment] else [];
  }

  method SplitFields(word: ExpandedWord, ifs: string) returns (allFields: seq<ExpandedWord>)
    ensures allFields == SplitWord([], word, ifs)
  {
    hide SplitSegment;
    allFields := [];
    var segment: ExpandedWord := [];
    var k := 0;
    while k < |word|
      invariant 0 <= k <= |word|
      invariant allFields + SplitWord(segment, word[k..], ifs) == SplitWord([], word, ifs)
    {
      assert word[k..][1..] == word[k + 1..];
      segment := segment + [word[k]];
      if word[k].fieldBreakAfter {
        var more := FlushSegment(segment, ifs);
        allFields := allFields + more;
        segment := [];
      }
      k := k + 1;
    }
    if segment != [] {
      var more := FlushSegment(segment, ifs);
      allFields := allFields + more;
    }
    assert allFields + [] == allFields;
  }
}
