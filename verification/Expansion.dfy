/** The expander as the program runs it: parts append pieces to an output list. */
module Expansion {
  import opened Prelude
  import opened Tokens
  import opened FieldSplitSpec
  import opened ExpansionSpec
  import FieldSplit

  lemma JoinSnoc(params: seq<string>, separator: string)
    requires |params| > 1
    ensures Join(params, separator) == Join(params[..|params| - 1], separator) + separator + params[|params| - 1]
    decreases |params|
  {
    var n := |params| - 1;
    if n > 1 {
      JoinSnoc(params[1..], separator);
      assert params[1..][..n - 1] == params[..n][1..];
    }
  }

  class Expander {
    const env: Env

    constructor (env: Env)
      ensures this.env == env
    {
      this.env := env;
    }

    method ExpandAtOrStar(name: string, quoted: bool, before: ExpandedWord) returns (out: ExpandedWord)
      ensures out == before + AtOrStar(name, quoted, env)
    {
      out := before;
      var n, i := |env.params|, 0;
      if name == "@" {
        while i < n
          invariant 0 <= i <= n && out == before + AtPieces(env.params, quoted)[..i]
        {
          out := out + [Piece(env.params[i], quoted, i + 1 != n)];
          i := i + 1;
        }
        return;
      }
      var separator := Separator(env.ifs);
      var joined := "";
      while i < n
        invariant 0 <= i <= n && joined == Join(env.params[..i], separator)
      {
        assert env.params[..i + 1][..i] == env.params[..i];
        if i > 0 {
          JoinSnoc(env.params[..i + 1], separator);
          joined := joined + separator;
        }
        joined := joined + env.params[i];
        i := i + 1;
      }
      assert env.params[..n] == env.params;
      out := out + [Piece(joined, quoted, false)];
    }

    method ExpandPart(part: WordPart, before: ExpandedWord) returns (out: ExpandedWord)
      ensures out == before + Part(part, env)
      decreases part
    {
      match part {
        case Literal(t) => out := before + [Piece(t, false, false)];
        case SingleQuoted(t) => out := before + [Piece(t, true, false)];
        case DoubleQuoted(ps) =>
          out := before;
          var i := 0;
          while i < |ps|
            invariant 0 <= i <= |ps| && out + Nested(ps[i..], env) == before + Nested(ps, env)
          {
            assert ps[i..][0] == ps[i] && ps[i..][1..] == ps[i + 1..];
            ghost var was := out;
            if IsAtOrStar(ps[i]) {
              out := ExpandAtOrStar(ps[i].text, true, out);
            } else {
              var nested := ExpandPart(ps[i], []);
              out := AppendQuoted(out, nested);
            }
            Associate(was, NestedPart(ps[i], env), Nested(ps[i + 1..], env));
            i := i + 1;
          }
          assert out + [] == out;
        case ParamExpansion(name) =>
          if name == "@" || name == "*" {
            out := ExpandAtOrStar(name, false, before);
          } else {
            out := before + env.other(part);
          }
        case _ => out := before + env.other(part);
      }
    }

    method AppendQuoted(before: ExpandedWord, nested: ExpandedWord) returns (out: ExpandedWord)
      ensures out == before + ForceQuoted(nested)
    {
      out := before;
      var i := 0;
      while i < |nested|
        invariant 0 <= i <= |nested| && out == before + ForceQuoted(nested)[..i]
      {
        out := out + [nested[i].(quoted := true)];
        i := i + 1;
      }
    }

    method ExpandPartsInto(word: Word, startIndex: nat, before: ExpandedWord) returns (out: ExpandedWord)
      requires startIndex <= |word|
      ensures out == before + Parts(word[startIndex..], env)
    {
      hide Part;
      out := before;
      var i := startIndex;
      while i < |word|
        invariant startIndex <= i <= |word|
        invariant out + Parts(word[i..], env) == before + Parts(word[startIndex..], env)
      {
        assert word[i..][0] == word[i] && word[i..][1..] == word[i + 1..];
        Associate(out, Part(word[i], env), Parts(word[i + 1..], env));
        out := ExpandPart(word[i], out);
        i := i + 1;
      }
      assert out + [] == out;
    }

    method Expand(word: Word) returns (out: ExpandedWord)
      ensures out == ExpansionSpec.Expand(word, env)
    {
      out := [];
      var startIndex := 0;
      if StartsWithTilde(word) {
        out := Tilde(word[0].text, env);
        startIndex := 1;
      }
      out := ExpandPartsInto(word, startIndex, out);
      assert word[0..] == word && [] + Parts(word, env) == Parts(word, env);
    }

    method MetacharIn(field: ExpandedWord) returns (found: bool)
      ensures found == HasMetachar(field)
    {
      found := false;
      var k := 0;
      while k < |field|
        invariant 0 <= k <= |field|
        invariant found == exists j :: 0 <= j < k && PieceHasMetachar(field[j])
      {
        if !field[k].quoted {
          var i := 0;
          while i < |field[k].text| && !IsMetachar(field[k].text[i])
            invariant 0 <= i <= |field[k].text|
            invariant forall j :: 0 <= j < i ==> !IsMetachar(field[k].text[j])
          {
            i := i + 1;
          }
          assert PieceHasMetachar(field[k]) <==> i < |field[k].text|;
          found := found || i < |field[k].text|;
        }
        k := k + 1;
      }
    }

    method ExpandToFields(word: Word) returns (result: seq<string>)
      ensures result == ToFields(word, env)
    {
      var expanded := Expand(word);
      var fields := FieldSplit.SplitFields(expanded, env.ifs);
      result := [];
      var i := 0;
      while i < |fields|
        invariant 0 <= i <= |fields|
        invariant result + Pathnames(fields[i..], env) == Pathnames(fields, env)
      {
        assert fields[i..][0] == fields[i] && fields[i..][1..] == fields[i + 1..];
        Associate(result, Pathname(fields[i], env), Pathnames(fields[i + 1..], env));
        var meta := MetacharIn(fields[i]);
        result := result + if meta then env.glob(fields[i]) else [Flatten(fields[i])];
        i := i + 1;
      }
      assert result + [] == result;
    }
  }
}
