/** What tilde-prefixes, `"$*"` and field splitting come to, apart from how they are
    computed. */
module ExpansionLaws {
  import opened Prelude
  import opened Tokens
  import opened FieldSplitSpec
  import opened ExpansionSpec
  import opened Quoting

  // ------------------------------------------------------------------ "$*"

  /** Parameters joined are the parts of the list joined. */
  lemma {:induction false} JoinConcat(a: seq<string>, b: seq<string>, separator: string)
    requires a != [] && b != []
    ensures Join(a + b, separator) == Join(a, separator) + separator + Join(b, separator)
    ensures Join([], separator) == "" && Join([a[0]], separator) == a[0]
    decreases |a|
  {
    assert (a + b)[0] == a[0] && (a + b)[1..] == a[1..] + b;
    if |a| == 1 {
      assert a[1..] + b == b && a == [a[0]];
    } else {
      JoinConcat(a[1..], b, separator);
      assert a[0] + separator + (Join(a[1..], separator) + separator + Join(b, separator))
          == Join(a, separator) + separator + Join(b, separator);
    }
  }

  /** `"$*"` is always one field: the parameters with the first character of IFS
      between them, or nothing when IFS is empty. */
  lemma QuotedStarIsOneField(env: Env)
    ensures ToFields([DoubleQuoted([ParamExpansion("*")])], env)
         == [Join(env.params, if env.ifs == "" then "" else env.ifs[..1])]
  {
    hide Join, Pathnames, SplitWord, Expand;
    var star := ParamExpansion("*");
    var joined := Join(env.params, Separator(env.ifs));
    assert env.ifs != "" ==> env.ifs[..1] == [env.ifs[0]];
    assert IsAtOrStar(star) && [star][1..] == [];
    PartsOne(DoubleQuoted([star]), env);
    assert Nested([star], env) == [Piece(joined, true, false)] + [] == [Piece(joined, true, false)];
    QuotedIsOneField([Piece(joined, true, false)], env);
    FlattenOne(Piece(joined, true, false));
  }

  // ------------------------------------------------------------------ tildes

  /** A word that begins with `~name` unquoted: up to the first slash it stands for the
      home directory if there is one, and otherwise for itself. */
  lemma TildePrefix(user: string, rest: string, more: Word, env: Env)
    requires '/' !in user && (rest == "" || rest[0] == '/')
    ensures var w := [Literal("~" + user + rest)] + more;
            Flatten(Expand(w, env))
            == (if env.home(user).Some? then env.home(user).value + rest else "~" + user + rest) + Flatten(Parts(more, env))
  {
    hide Parts, Flatten;
    var text := "~" + user + rest;
    var w := [Literal(text)] + more;
    assert w[0] == Literal(text) && w[1..] == more && text[1..] == user + rest;
    SlashIsThere(user, rest);
    assert (user + rest)[..|user|] == user && (user + rest)[|user|..] == rest;
    FlattenConcat(Tilde(text, env), Parts(more, env));
    FlattenOne(Piece(text, false, false));
    if env.home(user).Some? {
      var dir := env.home(user).value;
      FlattenOne(Piece(dir, false, false));
      FlattenOne(Piece(rest, false, false));
      FlattenConcat([Piece(dir, false, false)], [Piece(rest, false, false)]);
      if rest == "" {
        assert [Piece(dir, false, false)] + [] == [Piece(dir, false, false)] && dir + rest == dir;
      }
    }
  }

  lemma {:induction false} SlashIsThere(user: string, rest: string)
    requires '/' !in user && (rest == "" || rest[0] == '/')
    ensures SlashAt(user + rest) == |user|
    decreases |user|
  {
    if user == "" {
      assert user + rest == rest;
    } else {
      assert (user + rest)[0] == user[0] && (user + rest)[1..] == user[1..] + rest;
      SlashIsThere(user[1..], rest);
    }
  }

  /** Anywhere else, or quoted, a tilde is a tilde. */
  lemma OtherTildes(w: Word, env: Env)
    requires w == [] || !w[0].Literal? || w[0].text == "" || w[0].text[0] != '~'
    ensures Expand(w, env) == Parts(w, env)
  {
  }

  /** The home directory is split like other text (the standard takes it as quoted):
      `~` is one field, unchanged, if and only if the directory is not empty and free
      of IFS characters. */
  lemma HomeIsOneFieldIff(dir: string, env: Env)
    requires env.home("") == Some(dir)
    ensures FieldTexts(SplitWord([], Expand([Literal("~")], env), env.ifs)) == [dir] <==> dir != "" && NoIfs(dir, env.ifs)
  {
    hide SplitWord;
    var t := "~";
    assert t[1..] == "" && ""[..0] == "" && [Literal(t)][1..] == [];
    assert Tilde(t, env) == [Piece(dir, false, false)] + [] == [Piece(dir, false, false)];
    assert Expand([Literal(t)], env) == [Piece(dir, false, false)] + [] == [Piece(dir, false, false)];
    UnquotedIsOneFieldIff(dir, env.ifs);
  }

  /** Words expand part by part. */
  lemma {:induction false} PartsConcat(v: Word, w: Word, env: Env)
    ensures Parts(v + w, env) == Parts(v, env) + Parts(w, env)
    decreases |v|
  {
    hide Part;
    if v == [] {
      assert v + w == w;
    } else {
      assert (v + w)[0] == v[0] && (v + w)[1..] == v[1..] + w;
      PartsConcat(v[1..], w, env);
      Associate(Part(v[0], env), Parts(v[1..], env), Parts(w, env));
    }
  }

  // ------------------------------------------------------- splitting by blanks

  /** Blanks, tabs and newlines that are in IFS. */
  predicate IsGap(s: string, ifs: string) {
    forall i :: 0 <= i < |s| ==> s[i] in " \t\n" && s[i] in ifs
  }

  /** Each word and the gap after it. */
  function Spread(words: seq<string>, gaps: seq<string>): string
    requires |gaps| == |words|
  {
    if words == [] then "" else words[0] + (gaps[0] + Spread(words[1..], gaps[1..]))
  }

  predicate Separates(words: seq<string>, gaps: seq<string>, ifs: string)
    requires |gaps| == |words|
  {
    && (forall i :: 0 <= i < |words| ==> words[i] != "" && NoIfs(words[i], ifs) && IsGap(gaps[i], ifs))
    && (forall i :: 0 <= i < |words| - 1 ==> gaps[i] != "")
  }

  lemma CharsConcat(s: string, t: string)
    ensures CharsOf(s + t, false) == CharsOf(s, false) + CharsOf(t, false)
  {
  }

  lemma {:induction false} GapRun(gap: string, rest: seq<Atom>, ifs: string)
    requires IsGap(gap, ifs) && (rest == [] || Text(rest[0], ifs))
    ensures WhiteRun(CharsOf(gap, false) + rest, ifs) == |gap|
    decreases |gap|
  {
    var a := CharsOf(gap, false) + rest;
    if gap == "" {
      assert a == rest;
    } else {
      assert a[0] == Char(gap[0], false) && a[1..] == CharsOf(gap[1..], false) + rest;
      GapRun(gap[1..], rest, ifs);
    }
  }

  /** A word, a gap and what follows: one field, and those of the rest. */
  lemma CutAtGap(w: string, gap: string, rest: seq<Atom>, ifs: string)
    requires w != "" && NoIfs(w, ifs) && IsGap(gap, ifs) && (rest == [] || (gap != "" && Text(rest[0], ifs)))
    ensures Cut(CharsOf(w, false) + (CharsOf(gap, false) + rest), ifs)
         == [CharsOf(w, false)] + if rest == [] then [] else Cut(rest, ifs)
  {
    hide Text, WhiteRun, TextRun;
    var field, tail := CharsOf(w, false), CharsOf(gap, false) + rest;
    var a := field + tail;
    forall i | 0 <= i < |w| ensures Text(a[i], ifs) {
      TextChar(w[i], ifs);
      assert a[i] == Char(w[i], false);
    }
    if gap != "" {
      DelimiterChar(gap[0], ifs);
      assert a[|w|] == Char(gap[0], false);
    }
    RunLength(a, |w|, ifs);
    assert a[..|w|] == field && a[|w|..] == tail;
    GapRun(gap, rest, ifs);
    assert tail[|gap|..] == rest;
    assert rest != [] ==> tail[|gap|] == rest[0];
    NotOther(rest, ifs);
    assert [field] + [] == [field];
  }

  lemma NotOther(rest: seq<Atom>, ifs: string)
    requires rest == [] || Text(rest[0], ifs)
    ensures rest != [] ==> !Other(rest[0], ifs)
  {
  }

  lemma {:induction false} CutSpread(words: seq<string>, gaps: seq<string>, ifs: string)
    requires |gaps| == |words| && Separates(words, gaps, ifs) && words != []
    ensures var a := CharsOf(Spread(words, gaps), false);
            a != [] && Text(a[0], ifs) && Cut(a, ifs) == CharsAll(words)
    decreases |words|
  {
    hide Cut, Text;
    var more := Spread(words[1..], gaps[1..]);
    var rest := CharsOf(more, false);
    CharsConcat(words[0], gaps[0] + more);
    CharsConcat(gaps[0], more);
    TextChar(words[0][0], ifs);
    if |words| == 1 {
      assert more == "" && CharsAll(words[1..]) == [];
    } else {
      SeparatesRest(words, gaps, ifs);
      CutSpread(words[1..], gaps[1..], ifs);
    }
    CutAtGap(words[0], gaps[0], rest, ifs);
  }

  lemma SeparatesRest(words: seq<string>, gaps: seq<string>, ifs: string)
    requires |gaps| == |words| && Separates(words, gaps, ifs) && words != []
    ensures Separates(words[1..], gaps[1..], ifs)
  {
    assert forall i :: 0 <= i < |words| - 1 ==> words[1..][i] == words[i + 1] && gaps[1..][i] == gaps[i + 1];
  }

  /** Words free of IFS characters, with IFS white space before, after and at least one
      of it between them, split into exactly these words. */
  lemma BlanksSeparate(lead: string, words: seq<string>, gaps: seq<string>, ifs: string)
    requires |gaps| == |words| && Separates(words, gaps, ifs) && IsGap(lead, ifs) && ifs != ""
    ensures FieldTexts(SplitWord([], [Piece(lead + Spread(words, gaps), false, false)], ifs)) == words
  {
    hide Cut, Text, WhiteRun, SplitWord;
    var text := Spread(words, gaps);
    var rest := CharsOf(text, false);
    StarSplits(lead + text, ifs);
    CharsConcat(lead, text);
    if words != [] {
      CutSpread(words, gaps, ifs);
    } else {
      CutNothing(ifs);
      assert CharsAll(words) == [];
    }
    GapRun(lead, rest, ifs);
    assert (CharsOf(lead, false) + rest)[|lead|..] == rest;
    CharsAllTexts(words);
  }

  lemma CutNothing(ifs: string)
    ensures Cut([], ifs) == []
  {
  }

  // ------------------------------------------------- splitting by other characters

  /** Strings with one character between them. */
  function Between(parts: seq<string>, c: char): string {
    Join(parts, [c])
  }

  function DropEmptyEnd(parts: seq<string>): seq<string> {
    if parts != [] && parts[|parts| - 1] == "" then parts[..|parts| - 1] else parts
  }

  lemma {:induction false} OthersSeparate(parts: seq<string>, c: char, ifs: string)
    requires parts != [] && c in ifs && c !in " \t\n" && forall i :: 0 <= i < |parts| ==> NoIfs(parts[i], ifs)
    ensures Cut(CharsOf(Between(parts, c), false), ifs)
         == CharsAll(if parts[|parts| - 1] == "" then DropEmptyEnd(parts[..|parts| - 1]) else parts)
    decreases |parts|
  {
    hide Cut;
    if |parts| == 1 {
      if parts[0] == "" {
        CutNothing(ifs);
        assert CharsOf("", false) == [] && parts[..0] == [];
      } else {
        CutOne(parts[0], ifs);
        assert parts == [parts[0]] && CharsAll(parts[1..]) == [];
      }
    } else {
      var more := Between(parts[1..], c);
      var rest := CharsOf(more, false);
      assert Between(parts, c) == parts[0] + ([c] + more);
      CharsConcat(parts[0], [c] + more);
      CharsConcat([c], more);
      assert CharsOf([c], false) == [Char(c, false)];
      NoWhiteFirst(parts[1..], c, ifs);
      CutAtOther(parts[0], c, rest, ifs);
      assert forall i :: 0 <= i < |parts| - 1 ==> parts[1..][i] == parts[i + 1];
      OthersSeparate(parts[1..], c, ifs);
      DropStep(parts);
    }
  }

  /** Any IFS character that is no white space ends a field, an empty one included; but
      at the end of the text nothing comes after it, and when the last field before it
      is empty that one does not come either. */
  lemma OthersSeparateFields(parts: seq<string>, c: char, ifs: string)
    requires parts != [] && c in ifs && c !in " \t\n" && forall i :: 0 <= i < |parts| ==> NoIfs(parts[i], ifs)
    ensures FieldTexts(SplitWord([], [Piece(Between(parts, c), false, false)], ifs))
         == if parts[|parts| - 1] == "" then DropEmptyEnd(parts[..|parts| - 1]) else parts
  {
    hide Cut, SplitWord, DropEmptyEnd;
    var a := CharsOf(Between(parts, c), false);
    StarSplits(Between(parts, c), ifs);
    NoWhiteFirst(parts, c, ifs);
    assert WhiteRun(a, ifs) == 0 && a[0..] == a;
    OthersSeparate(parts, c, ifs);
    CharsAllTexts(if parts[|parts| - 1] == "" then DropEmptyEnd(parts[..|parts| - 1]) else parts);
  }

  lemma NoWhiteFirst(parts: seq<string>, c: char, ifs: string)
    requires parts != [] && c in ifs && c !in " \t\n" && forall i :: 0 <= i < |parts| ==> NoIfs(parts[i], ifs)
    ensures var rest := CharsOf(Between(parts, c), false); rest == [] || !White(rest[0], ifs)
    ensures Between(parts, c) == "" <==> parts == [""]
  {
    if parts[0] != "" {
      assert NoIfs(parts[0], ifs);
      assert Between(parts, c)[0] == parts[0][0];
    } else if |parts| > 1 {
      assert Between(parts, c)[0] == c;
    }
  }

  lemma CutAtOther(p: string, c: char, rest: seq<Atom>, ifs: string)
    requires NoIfs(p, ifs) && c in ifs && c !in " \t\n" && (rest == [] || !White(rest[0], ifs))
    ensures Cut(CharsOf(p, false) + ([Char(c, false)] + rest), ifs)
         == if rest == [] then NonEmpty(CharsOf(p, false)) else [CharsOf(p, false)] + Cut(rest, ifs)
  {
    hide Text;
    var a, tail := CharsOf(p, false) + ([Char(c, false)] + rest), [Char(c, false)] + rest;
    forall i | 0 <= i < |p| ensures Text(a[i], ifs) {
      TextChar(p[i], ifs);
      assert a[i] == Char(p[i], false);
    }
    DelimiterChar(c, ifs);
    assert a[|p|] == Char(c, false);
    RunLength(a, |p|, ifs);
    assert a[..|p|] == CharsOf(p, false) && a[|p|..] == tail;
    assert tail[1..] == rest && WhiteRun(tail, ifs) == 0 && WhiteRun(rest, ifs) == 0;
    assert DelimiterLength(tail, ifs) == 1;
  }

  lemma DropStep(parts: seq<string>)
    requires |parts| > 1
    ensures var last, tail := parts[|parts| - 1], parts[1..];
            var dropped := if last == "" then DropEmptyEnd(tail[..|tail| - 1]) else tail;
            var all := if last == "" then DropEmptyEnd(parts[..|parts| - 1]) else parts;
            CharsAll(all)
            == if tail == [""] then NonEmpty(CharsOf(parts[0], false)) else [CharsOf(parts[0], false)] + CharsAll(dropped)
  {
    var tail := parts[1..];
    var last := parts[|parts| - 1];
    assert tail[|tail| - 1] == last;
    if tail == [""] {
      assert parts[..|parts| - 1] == [parts[0]] && [parts[0]][1..] == [] && [parts[0]][..0] == [];
    } else {
      var dropped := if last == "" then DropEmptyEnd(tail[..|tail| - 1]) else tail;
      assert parts[..|parts| - 1] == [parts[0]] + tail[..|tail| - 1];
      assert ([parts[0]] + dropped)[1..] == dropped;
      if last == "" && |tail| > 1 {
        assert DropEmptyEnd(parts[..|parts| - 1]) == [parts[0]] + dropped;
      } else {
        assert parts == [parts[0]] + tail;
      }
    }
  }

  // ---------------------------------------------------- quotes and patterns

  /** Inside double quotes the result of an expansion is one field, however it is split
      or matched outside. */
  lemma QuotedExpansionIsOneField(p: WordPart, env: Env)
    requires (p.ParamExpansion? || p.CommandSubDollar? || p.CommandSubBacktick? || p.ArithExpansion?) && !IsAtOrStar(p)
    requires env.other(p) != [] && forall i :: 0 <= i < |env.other(p)| ==> !env.other(p)[i].fieldBreakAfter
    ensures ToFields([DoubleQuoted([p])], env) == [Flatten(env.other(p))]
  {
    hide Pathnames, SplitWord, Expand, Flatten;
    var w := ForceQuoted(env.other(p));
    assert [p][1..] == [];
    PartsOne(DoubleQuoted([p]), env);
    assert Part(p, env) == env.other(p) && NestedPart(p, env) == w;
    assert Nested([p], env) == w + [] == w;
    QuotedIsOneField(w, env);
    SameText(env.other(p));
  }

  lemma {:induction false} SameText(w: ExpandedWord)
    ensures Flatten(ForceQuoted(w)) == Flatten(w)
    decreases |w|
  {
    if w != [] {
      assert ForceQuoted(w)[1..] == ForceQuoted(w[1..]);
      SameText(w[1..]);
    }
  }

  /** Unquoted, a result free of IFS characters is matched against the directory when it
      has a metacharacter, and is itself when it has none. */
  lemma UnquotedResultIsMatched(p: WordPart, t: string, env: Env)
    requires (p.ParamExpansion? || p.CommandSubDollar? || p.CommandSubBacktick? || p.ArithExpansion?) && !IsAtOrStar(p)
    requires env.other(p) == [Piece(t, false, false)] && t != "" && NoIfs(t, env.ifs)
    ensures ToFields([p], env) == if exists i :: 0 <= i < |t| && t[i] in "*?[" then env.glob([Piece(t, false, false)]) else [t]
  {
    hide Flatten, SplitSegment;
    var piece := Piece(t, false, false);
    PartsOne(p, env);
    assert Expand([p], env) == [piece];
    assert [piece][1..] == [] && [] + [piece] == [piece];
    assert SplitWord([], [piece], env.ifs) == SplitWord([piece], [], env.ifs) == SplitSegment([piece], env.ifs);
    OneFieldOf(t, env.ifs);
    FlattenOne(piece);
    var fields := [[piece]];
    assert fields[1..] == [] && Pathnames([], env) == [];
    assert Pathnames(fields, env) == Pathname([piece], env) + [] == Pathname([piece], env);
    if i :| 0 <= i < |t| && t[i] in "*?[" {
      assert IsMetachar(piece.text[i]);
      assert PieceHasMetachar([piece][0]);
    } else {
      assert !PieceHasMetachar(piece);
    }
  }

  /** The one field of unquoted text free of IFS characters is that text, unquoted. */
  lemma OneFieldOf(t: string, ifs: string)
    requires t != "" && NoIfs(t, ifs)
    ensures SplitSegment([Piece(t, false, false)], ifs) == [[Piece(t, false, false)]]
  {
    hide Fields;
    var piece := Piece(t, false, false);
    if ifs != "" {
      var a := CharsOf(t, false);
      assert Atoms([piece]) == a + [] == a;
      forall i | 0 <= i < |a| ensures Text(a[i], ifs) {
        TextChar(t[i], ifs);
      }
      AllTextIsOneField(a, ifs);
      GroupOfChars(t);
      assert GroupAll([a]) == [Group(a)] + GroupAll([]) == [Group(a)];
    }
  }

  lemma {:induction false} GroupOfChars(t: string)
    requires t != ""
    ensures Group(CharsOf(t, false)) == [Piece(t, false, false)]
    decreases |t|
  {
    var a := CharsOf(t, false);
    var front := t[..|t| - 1];
    assert a[..|a| - 1] == CharsOf(front, false) && a[|a| - 1] == Char(t[|t| - 1], false);
    assert front + [t[|t| - 1]] == t;
    if front != "" {
      GroupOfChars(front);
      var w := [Piece(front, false, false)];
      assert w[..|w| - 1] == [];
    } else {
      assert t == [t[0]];
    }
  }
}
