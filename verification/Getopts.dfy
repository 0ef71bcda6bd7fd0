/** The getopts utility. Its state between calls lives in variables, as text;
    run to its end it is a one-pass parse of the operands. */
module Getopts {
  import opened Prelude
  import opened Numbers

  type Vars = map<string, string>

  const CHAR_INDEX: string := "_ush_getopts_charidx"

  // ------------------------------------------------------------- one call

  predicate IsSilent(optstring: string) {
    optstring != "" && optstring[0] == ':'
  }

  function Options(optstring: string): string {
    if IsSilent(optstring) then optstring[1..] else optstring
  }

  function Find(opts: string, c: char): (n: nat)
    ensures n <= |opts| && c !in opts[..n] && (n < |opts| ==> opts[n] == c)
  {
    if opts == "" || opts[0] == c then 0 else 1 + Find(opts[1..], c)
  }

  predicate Known(opts: string, c: char) {
    Find(opts, c) < |opts|
  }

  predicate TakesArg(opts: string, c: char) {
    Find(opts, c) + 1 < |opts| && opts[Find(opts, c) + 1] == ':'
  }

  predicate IsOptionArg(cur: string) {
    cur != "--" && |cur| >= 2 && cur[0] == '-'
  }

  /** A counter kept in a variable: at least one, and one when it is unset or no number. */
  function Counter(vars: Vars, name: string): (r: int)
    ensures r >= 1
  {
    if name !in vars then 1
    else
      match ReadInteger(vars[name], false, INT_MIN, INT_MAX)
      case None => 1
      case Some((n, _)) => if n < 1 then 1 else n
  }

  function SetPosition(vars: Vars, optind: int, charIndex: int): Vars {
    vars["OPTIND" := ToText(optind)][CHAR_INDEX := ToText(charIndex)]
  }

  function SetArg(vars: Vars, arg: Option<string>): Vars {
    if arg.Some? then vars["OPTARG" := arg.value] else vars - {"OPTARG"}
  }

  predicate AtOption(operands: seq<string>, optind: int) {
    1 <= optind <= |operands| && IsOptionArg(operands[optind - 1])
  }

  /** The character index may be used on the operand: where the operand is not an
      option it is not looked at, and an index just past the end reads NUL. */
  predicate IsPlace(operands: seq<string>, optind: int, charIndex: int) {
    && optind >= 1 && charIndex >= 1
    && (AtOption(operands, optind) ==> charIndex <= |operands[optind - 1]|)
  }

  predicate InRange(vars: Vars, operands: seq<string>) {
    IsPlace(operands, Counter(vars, "OPTIND"), Counter(vars, CHAR_INDEX))
  }

  function CharAt(cur: string, i: nat): char
    requires i <= |cur|
  {
    if i < |cur| then cur[i] else 0 as char
  }

  /** The option letters that a bundle holds from an index on. */
  function Letters(cur: string, i: nat): (r: string)
    requires i <= |cur|
    ensures r != "" && r[0] == CharAt(cur, i) && (i < |cur| ==> r == cur[i..])
  {
    if i < |cur| then cur[i..] else [0 as char]
  }

  /** Counters stay in the range of an int. */
  predicate Fits(operands: seq<string>) {
    |operands| + 2 <= INT_MAX && forall i :: 0 <= i < |operands| ==> |operands[i]| <= INT_MAX
  }

  class Environment {
    var vars: Vars

    constructor (vars: Vars)
      ensures this.vars == vars
    {
      this.vars := vars;
    }

    method GetIntVar(name: string) returns (n: int)
      ensures n == Counter(vars, name)
    {
      if name in vars {
        var read := ReadInteger(vars[name], false, INT_MIN, INT_MAX);
        if read.Some? {
          return if read.value.0 < 1 then 1 else read.value.0;
        }
      }
      n := 1;
    }

    method MoveTo(optind: int, charIndex: int)
      modifies this
      ensures vars == SetPosition(old(vars), optind, charIndex)
    {
      vars := vars["OPTIND" := ToText(optind)];
      vars := vars[CHAR_INDEX := ToText(charIndex)];
    }

    method Tell(name: string, value: string, arg: Option<string>)
      modifies this
      ensures vars == SetArg(old(vars)[name := value], arg)
    {
      vars := vars[name := value];
      if arg.Some? {
        vars := vars["OPTARG" := arg.value];
      } else {
        vars := vars - {"OPTARG"};
      }
    }

    /** biGetopts: 0 with the next option in the variables, or 1 at the end. */
    method NextOption(optstring: string, varname: string, operands: seq<string>) returns (status: int)
      requires InRange(vars, operands)
      modifies this
      ensures (status, vars) == Call(old(vars), optstring, varname, operands)
    {
      hide Counter, SetPosition, SetArg, Find, IsSilent, Options;
      var silent := IsSilent(optstring);
      var opts := Options(optstring);
      var optind := GetIntVar("OPTIND");
      var charIndex := GetIntVar(CHAR_INDEX);
      var idx := optind - 1;
      if idx >= |operands| {
        MoveTo(optind, 1);
        return 1;
      }
      var cur := operands[idx];
      if cur == "--" {
        MoveTo(optind + 1, 1);
        return 1;
      }
      if |cur| < 2 || cur[0] != '-' {
        MoveTo(optind, 1);
        return 1;
      }
      var c := CharAt(cur, charIndex);
      var lastCharOfArg := charIndex + 1 >= |cur|;
      var spec := Find(opts, c);
      if spec == |opts| {
        Tell(varname, "?", if silent then Some([c]) else None);
        if lastCharOfArg {
          MoveTo(optind + 1, 1);
        } else {
          MoveTo(optind, charIndex + 1);
        }
        return 0;
      }
      if !(spec + 1 < |opts| && opts[spec + 1] == ':') {
        Tell(varname, [c], None);
        if lastCharOfArg {
          MoveTo(optind + 1, 1);
        } else {
          MoveTo(optind, charIndex + 1);
        }
        return 0;
      }
      if !lastCharOfArg {
        Tell(varname, [c], Some(cur[charIndex + 1..]));
        MoveTo(optind + 1, 1);
        return 0;
      }
      if idx + 1 < |operands| {
        Tell(varname, [c], Some(operands[idx + 1]));
        MoveTo(optind + 2, 1);
        return 0;
      }
      Tell(varname, if silent then ":" else "?", if silent then Some([c]) else None);
      MoveTo(optind + 1, 1);
      return 0;
    }
  }

  /** What one option is reported as: the name variable and OPTARG. */
  datatype Item = Flag(c: char) | WithArg(c: char, arg: string) | Unknown(c: char) | Missing(c: char)

  function NameOf(item: Item, silent: bool): string {
    match item
    case Unknown(_) => "?"
    case Missing(_) => if silent then ":" else "?"
    case _ => [item.c]
  }

  function ArgOf(item: Item, silent: bool): Option<string> {
    match item
    case Flag(_) => None
    case WithArg(_, arg) => Some(arg)
    case _ => if silent then Some([item.c]) else None
  }

  /** What one call finds: an option and the place after it, or the end. */
  datatype Found = Found(item: Item, optind: int, charIndex: int) | AtEnd(optind: int)

  function Look(opts: string, operands: seq<string>, optind: int, charIndex: int): (r: Found)
    requires IsPlace(operands, optind, charIndex)
    ensures r.Found? ==>
              && optind <= |operands| && (r.optind > optind || (r.optind == optind && r.charIndex > charIndex))
              && 1 <= r.optind <= |operands| + 1
              && r.charIndex >= 1
              && (r.charIndex > 1 ==>
                    r.optind == optind && IsOptionArg(operands[optind - 1]) && r.charIndex < |operands[optind - 1]|)
  {
    if optind > |operands| then AtEnd(optind)
    else
      var cur := operands[optind - 1];
      if cur == "--" then AtEnd(optind + 1)
      else if !IsOptionArg(cur) then AtEnd(optind)
      else
        var c, last := CharAt(cur, charIndex), charIndex + 1 >= |cur|;
        if !Known(opts, c) || !TakesArg(opts, c) then
          var item := if Known(opts, c) then Flag(c) else Unknown(c);
          if last then Found(item, optind + 1, 1) else Found(item, optind, charIndex + 1)
        else if !last then Found(WithArg(c, cur[charIndex + 1..]), optind + 1, 1)
        else if optind < |operands| then Found(WithArg(c, operands[optind]), optind + 2, 1)
        else Found(Missing(c), optind + 1, 1)
  }

  /** What the call that starts from these variables finds. */
  function Looked(vars: Vars, optstring: string, operands: seq<string>): Found
    requires InRange(vars, operands)
  {
    Look(Options(optstring), operands, Counter(vars, "OPTIND"), Counter(vars, CHAR_INDEX))
  }

  function Call(vars: Vars, optstring: string, varname: string, operands: seq<string>): (int, Vars)
    requires InRange(vars, operands)
  {
    match Looked(vars, optstring, operands)
    case AtEnd(optind) => (1, SetPosition(vars, optind, 1))
    case Found(item, optind, charIndex) =>
      var told := SetArg(vars[varname := NameOf(item, IsSilent(optstring))], ArgOf(item, IsSilent(optstring)));
      (0, SetPosition(told, optind, charIndex))
  }

  // ------------------------------------------------------------ whole runs

  predicate Ordinary(varname: string) {
    varname != "OPTIND" && varname != CHAR_INDEX && varname != "OPTARG"
  }

  /** Counters written as text are read back, so the next call goes on where this
      one ended; and the place it ends is in range again. */
  lemma CallMoves(vars: Vars, optstring: string, varname: string, operands: seq<string>)
    requires InRange(vars, operands) && Fits(operands) && Ordinary(varname)
    ensures var (status, after) := Call(vars, optstring, varname, operands);
            && InRange(after, operands) && "OPTIND" in after
            && match Looked(vars, optstring, operands)
               case AtEnd(optind) => status == 1 && after["OPTIND"] == ToText(optind)
               case Found(item, optind, charIndex) =>
                 && status == 0
                 && Counter(after, "OPTIND") == optind && Counter(after, CHAR_INDEX) == charIndex
                 && after[varname] == NameOf(item, IsSilent(optstring))
                 && (if "OPTARG" in after then Some(after["OPTARG"]) else None) == ArgOf(item, IsSilent(optstring))
  {
    hide ReadInteger, ToText;
    var look := Looked(vars, optstring, operands);
    TextRoundTrip(1, false, INT_MIN, INT_MAX);
    if look.Found? {
      TextRoundTrip(look.optind, false, INT_MIN, INT_MAX);
      TextRoundTrip(look.charIndex, false, INT_MIN, INT_MAX);
    }
  }

  /** Calling until the end: what each call reported, and the variables then. The
      measure is what makes every run end. */
  function RunCalls(vars: Vars, optstring: string, varname: string, operands: seq<string>): (seq<(string, Option<string>)>, Vars)
    requires InRange(vars, operands) && Fits(operands) && Ordinary(varname)
    decreases |operands| + 2 - Counter(vars, "OPTIND"),
      if Counter(vars, "OPTIND") <= |operands| then |operands[Counter(vars, "OPTIND") - 1]| - Counter(vars, CHAR_INDEX) else 0
  {
    var (status, after) := Call(vars, optstring, varname, operands);
    CallMoves(vars, optstring, varname, operands);
    if status != 0 then ([], after)
    else
      var report := (after[varname], if "OPTARG" in after then Some(after["OPTARG"]) else None);
      var (reports, end) := RunCalls(after, optstring, varname, operands);
      ([report] + reports, end)
  }

  // ------------------------------------------------------ reference parse

  /** The options at the front of the operands, and the operands after them. */
  function ParseArgs(opts: string, operands: seq<string>): (seq<Item>, seq<string>)
    decreases |operands|, 1, 0
  {
    if operands == [] then ([], [])
    else if operands[0] == "--" then ([], operands[1..])
    else if !IsOptionArg(operands[0]) then ([], operands)
    else ParseBundle(opts, operands[0][1..], operands[1..])
  }

  function ParseBundle(opts: string, letters: string, more: seq<string>): (seq<Item>, seq<string>)
    decreases |more| + 1, 0, |letters|
  {
    if letters == "" then ParseArgs(opts, more)
    else
      var c := letters[0];
      if !Known(opts, c) then Before(Unknown(c), ParseBundle(opts, letters[1..], more))
      else if !TakesArg(opts, c) then Before(Flag(c), ParseBundle(opts, letters[1..], more))
      else if |letters| > 1 then Before(WithArg(c, letters[1..]), ParseArgs(opts, more))
      else if more != [] then Before(WithArg(c, more[0]), ParseArgs(opts, more[1..]))
      else Before(Missing(c), ParseArgs(opts, more))
  }

  function Before(item: Item, r: (seq<Item>, seq<string>)): (seq<Item>, seq<string>) {
    ([item] + r.0, r.1)
  }

  function Reports(items: seq<Item>, silent: bool): seq<(string, Option<string>)> {
    if items == [] then []
    else [(NameOf(items[0], silent), ArgOf(items[0], silent))] + Reports(items[1..], silent)
  }

  /** The reference from the place that the counters name. */
  function ParseFrom(opts: string, operands: seq<string>, optind: int, charIndex: int): (seq<Item>, seq<string>)
    requires IsPlace(operands, optind, charIndex)
  {
    if optind > |operands| then ([], [])
    else if charIndex == 1 || !AtOption(operands, optind) then ParseArgs(opts, operands[optind - 1..])
    else ParseBundle(opts, Letters(operands[optind - 1], charIndex), operands[optind..])
  }

  function Parsed(vars: Vars, optstring: string, operands: seq<string>): (seq<Item>, seq<string>)
    requires InRange(vars, operands)
  {
    ParseFrom(Options(optstring), operands, Counter(vars, "OPTIND"), Counter(vars, CHAR_INDEX))
  }

  lemma ParseStep(opts: string, operands: seq<string>, optind: int, charIndex: int)
    requires IsPlace(operands, optind, charIndex)
    ensures var look := Look(opts, operands, optind, charIndex);
            var here := ParseFrom(opts, operands, optind, charIndex);
            if look.Found? then here == Before(look.item, ParseFrom(opts, operands, look.optind, look.charIndex))
            else here.0 == [] && (optind <= |operands| + 1 ==> look.optind == |operands| - |here.1| + 1)
  {
    hide Known, TakesArg;
    if optind <= |operands| {
      var cur := operands[optind - 1];
      var tail := operands[optind - 1..];
      assert tail[0] == cur && tail[1..] == operands[optind..];
      if IsOptionArg(cur) {
        var letters, more := Letters(cur, charIndex), operands[optind..];
        assert ParseFrom(opts, operands, optind, charIndex) == ParseBundle(opts, letters, more);
        FromNext(opts, operands, optind);
        if charIndex + 1 >= |cur| {
          assert letters == [CharAt(cur, charIndex)] && letters[1..] == "";
          assert ParseBundle(opts, "", more) == ParseArgs(opts, more);
        } else {
          assert letters[1..] == cur[charIndex + 1..];
          assert ParseFrom(opts, operands, optind, charIndex + 1) == ParseBundle(opts, letters[1..], more);
        }
      }
    }
  }

  lemma FromNext(opts: string, operands: seq<string>, optind: int)
    requires 1 <= optind <= |operands|
    ensures ParseFrom(opts, operands, optind + 1, 1) == ParseArgs(opts, operands[optind..])
    ensures optind < |operands| ==>
              && operands[optind..][0] == operands[optind]
              && ParseFrom(opts, operands, optind + 2, 1) == ParseArgs(opts, operands[optind..][1..])
  {
    if optind < |operands| {
      assert operands[optind..][1..] == operands[optind + 1..];
    }
  }

  /** A run of getopts reports exactly what the one-pass parse finds, in order,
      and leaves OPTIND at the first operand after the options. */
  lemma {:induction false} RunIsParse(vars: Vars, optstring: string, varname: string, operands: seq<string>)
    requires InRange(vars, operands) && Fits(operands) && Ordinary(varname)
    requires Counter(vars, "OPTIND") <= |operands| + 1
    ensures var (reports, end) := RunCalls(vars, optstring, varname, operands);
            var (items, rest) := Parsed(vars, optstring, operands);
            && reports == Reports(items, IsSilent(optstring))
            && "OPTIND" in end && end["OPTIND"] == ToText(|operands| - |rest| + 1)
    decreases |operands| + 2 - Counter(vars, "OPTIND"),
      if Counter(vars, "OPTIND") <= |operands| then |operands[Counter(vars, "OPTIND") - 1]| - Counter(vars, CHAR_INDEX) else 0
  {
    hide Counter, ToText, ParseFrom, Find, IsOptionArg, Known, TakesArg, NameOf, ArgOf, SetPosition, SetArg;
    var (status, after) := Call(vars, optstring, varname, operands);
    CallMoves(vars, optstring, varname, operands);
    ParseStep(Options(optstring), operands, Counter(vars, "OPTIND"), Counter(vars, CHAR_INDEX));
    if status == 0 {
      RunIsParse(after, optstring, varname, operands);
      var look := Look(Options(optstring), operands, Counter(vars, "OPTIND"), Counter(vars, CHAR_INDEX));
      var (items, rest) := ParseFrom(Options(optstring), operands, look.optind, look.charIndex);
      assert ([look.item] + items)[1..] == items;
      var silent := IsSilent(optstring);
      assert Reports([look.item] + items, silent)
          == [(NameOf(look.item, silent), ArgOf(look.item, silent))] + Reports(items, silent);
    }
  }

  // ------------------------------------------------------------ rendering

  /** Some flags written together, and perhaps an option with its argument, in the
      same operand or in the next. */
  datatype Group = Group(flags: string, last: Option<(char, string)>, attached: bool)

  function RenderGroup(g: Group): seq<string> {
    match g.last
    case None => ["-" + g.flags]
    case Some((c, arg)) => if g.attached then ["-" + g.flags + [c] + arg] else ["-" + g.flags + [c], arg]
  }

  predicate GroupFits(g: Group, opts: string) {
    && (forall i :: 0 <= i < |g.flags| ==> Known(opts, g.flags[i]) && !TakesArg(opts, g.flags[i]))
    && (g.last.Some? ==> Known(opts, g.last.value.0) && TakesArg(opts, g.last.value.0) && (g.attached ==> g.last.value.1 != ""))
    && (g.flags != "" || g.last.Some?)
    && RenderGroup(g)[0] != "--"
  }

  function GroupItems(g: Group): seq<Item> {
    FlagItems(g.flags) + if g.last.Some? then [WithArg(g.last.value.0, g.last.value.1)] else []
  }

  function FlagItems(flags: string): seq<Item> {
    if flags == "" then [] else [Flag(flags[0])] + FlagItems(flags[1..])
  }

  function Render(groups: seq<Group>): seq<string> {
    if groups == [] then [] else RenderGroup(groups[0]) + Render(groups[1..])
  }

  function Items(groups: seq<Group>): seq<Item> {
    if groups == [] then [] else GroupItems(groups[0]) + Items(groups[1..])
  }

  lemma {:induction false} FlagsBack(flags: string, letters: string, more: seq<string>, opts: string)
    requires forall i :: 0 <= i < |flags| ==> Known(opts, flags[i]) && !TakesArg(opts, flags[i])
    ensures var r := ParseBundle(opts, letters, more);
            ParseBundle(opts, flags + letters, more) == (FlagItems(flags) + r.0, r.1)
    decreases |flags|
  {
    hide Known, TakesArg;
    if flags == "" {
      assert flags + letters == letters;
      assert [] + ParseBundle(opts, letters, more).0 == ParseBundle(opts, letters, more).0;
    } else {
      assert (flags + letters)[0] == flags[0] && (flags + letters)[1..] == flags[1..] + letters;
      FlagsBack(flags[1..], letters, more, opts);
      var r := ParseBundle(opts, letters, more).0;
      assert [Flag(flags[0])] + (FlagItems(flags[1..]) + r) == FlagItems(flags) + r;
    }
  }

  lemma GroupBack(g: Group, more: seq<string>, opts: string)
    requires GroupFits(g, opts)
    ensures var r := ParseArgs(opts, more);
            ParseArgs(opts, RenderGroup(g) + more) == (GroupItems(g) + r.0, r.1)
  {
    hide Known, TakesArg, FlagItems;
    var all := RenderGroup(g) + more;
    var r := ParseArgs(opts, more);
    var letters := if g.last.None? then "" else [g.last.value.0] + if g.attached then g.last.value.1 else "";
    assert all[0] == "-" + (g.flags + letters) && all[0][1..] == g.flags + letters;
    if g.last.None? {
      assert all[1..] == more;
      FlagsBack(g.flags, "", more, opts);
      assert FlagItems(g.flags) + [] == FlagItems(g.flags);
    } else {
      var (c, arg) := g.last.value;
      assert all[1..] == if g.attached then more else [arg] + more;
      assert ([arg] + more)[1..] == more && letters[1..] == if g.attached then arg else "";
      FlagsBack(g.flags, letters, all[1..], opts);
      assert FlagItems(g.flags) + ([WithArg(c, arg)] + r.0) == FlagItems(g.flags) + [WithArg(c, arg)] + r.0;
    }
  }

  /** The operands that end the options: none, an ordinary one, or `--`. */
  predicate EndsOptions(operands: seq<string>) {
    operands == [] || operands[0] == "--" || !IsOptionArg(operands[0])
  }

  function AfterOptions(operands: seq<string>): seq<string> {
    if operands != [] && operands[0] == "--" then operands[1..] else operands
  }

  lemma {:induction false} GroupsBack(groups: seq<Group>, operands: seq<string>, opts: string)
    requires (forall i :: 0 <= i < |groups| ==> GroupFits(groups[i], opts)) && EndsOptions(operands)
    ensures ParseArgs(opts, Render(groups) + operands) == (Items(groups), AfterOptions(operands))
    decreases |groups|
  {
    hide GroupFits, RenderGroup, GroupItems;
    if groups == [] {
      assert Render(groups) + operands == operands;
    } else {
      assert GroupFits(groups[0], opts);
      var more := Render(groups[1..]) + operands;
      assert Render(groups) + operands == RenderGroup(groups[0]) + more;
      GroupBack(groups[0], more, opts);
      GroupsBack(groups[1..], operands, opts);
    }
  }

  /** However a list of options is written, bundled or apart, arguments attached or
      not, running getopts from its initial state returns that list and leaves
      OPTIND at the first operand. */
  lemma OptionsBack(groups: seq<Group>, operands: seq<string>, optstring: string, varname: string, vars: Vars)
    requires "OPTIND" !in vars && CHAR_INDEX !in vars
    requires (forall i :: 0 <= i < |groups| ==> GroupFits(groups[i], Options(optstring))) && EndsOptions(operands)
    requires Fits(Render(groups) + operands) && Ordinary(varname)
    ensures var all := Render(groups) + operands;
            var (reports, end) := RunCalls(vars, optstring, varname, all);
            && reports == Reports(Items(groups), IsSilent(optstring))
            && "OPTIND" in end && end["OPTIND"] == ToText(|all| - |AfterOptions(operands)| + 1)
  {
    hide ParseArgs, Render, Items, Reports, ToText, RunCalls, AfterOptions, GroupFits;
    var all := Render(groups) + operands;
    RunIsParse(vars, optstring, varname, all);
    GroupsBack(groups, operands, Options(optstring));
    assert all[0..] == all;
    NoOperands(Options(optstring));
  }

  lemma NoOperands(opts: string)
    ensures ParseArgs(opts, []) == ([], [])
  {
  }

  // ------------------------------------------------- restarting a bundle

  /** A script sets OPTIND in the middle of bundled options: the character index
      stays. The next call finds what it would find from the start of the operand
      if and only if the operand is not an option, or the letters left there are
      all its letters; that is (NUL aside) if and only if the index is still one. */
  lemma RestartsIff(opts: string, operands: seq<string>, optind: int, charIndex: int)
    requires IsPlace(operands, optind, charIndex)
    ensures Look(opts, operands, optind, charIndex) == Look(opts, operands, optind, 1)
       <==> (AtOption(operands, optind) ==> Letters(operands[optind - 1], charIndex) == Letters(operands[optind - 1], 1))
    ensures AtOption(operands, optind) && 0 as char !in operands[optind - 1] ==>
              (Letters(operands[optind - 1], charIndex) == Letters(operands[optind - 1], 1) <==> charIndex == 1)
  {
    hide Known, TakesArg;
    if AtOption(operands, optind) {
      var cur := operands[optind - 1];
      var here, whole := Letters(cur, charIndex), Letters(cur, 1);
      assert |whole| == |cur| - 1 && (charIndex < |cur| ==> |here| == |cur| - charIndex);
      if charIndex > 1 && charIndex + 1 < |cur| {
        assert |cur[charIndex + 1..]| < |cur[2..]|;
      }
      if charIndex == 2 == |cur| {
        assert here == [CharAt(cur, 2)] && whole == [cur[1]];
      }
    }
  }

  /** With OPTIND set back to 1 after `a` was found in `-ab`, the next call finds
      `b`, not `a`. */
  lemma RestartSkipsOption()
    ensures var vars := SetPosition(map[], 1, 2);
            && vars["OPTIND"] == "1" && vars[CHAR_INDEX] == "2" && InRange(vars, ["-ab"])
            && Looked(vars, "ab", ["-ab"]) == Found(Flag('b'), 2, 1)
            && Look("ab", ["-ab"], 1, 1) == Found(Flag('a'), 1, 2)
  {
    hide ReadInteger;
    TextRoundTrip(1, false, INT_MIN, INT_MAX);
    TextRoundTrip(2, false, INT_MIN, INT_MAX);
    assert Find("b", 'b') == 0 && "ab"[1..] == "b";
    assert Find("ab", 'a') == 0 && Find("ab", 'b') == 1;
    assert IsOptionArg("-ab") by { assert "-ab"[1] != "--"[1]; }
  }

  // ------------------------------------------------- the option character `:`

  /** For every option string: `-:` is accepted as a flag if and only if the option
      string has a `:` and its first is not followed by another; it is unknown, as it should be, if and
      only if no option takes an argument. */
  lemma ColonIsAnOptionIff(opts: string)
    ensures ParseArgs(opts, ["-:"]) == ([Flag(':')], []) <==> ':' in opts && !TakesArg(opts, ':')
    ensures ParseArgs(opts, ["-:"]) == ([Missing(':')], []) <==> ':' in opts && TakesArg(opts, ':')
    ensures ParseArgs(opts, ["-:"]) == ([Unknown(':')], []) <==> ':' !in opts
  {
    assert "-:"[1..] == ":" && ":"[1..] == "" && ["-:"][1..] == [];
    assert IsOptionArg("-:") by { assert "-:"[1] != "--"[1]; }
    NoOperands(opts);
    assert ParseBundle(opts, "", []) == ([], []);
    assert ParseArgs(opts, ["-:"]) == ParseBundle(opts, ":", []);
    var item := if !Known(opts, ':') then Unknown(':') else if TakesArg(opts, ':') then Missing(':') else Flag(':');
    assert ParseBundle(opts, ":", []) == Before(item, ([], []));
    assert [item] + [] == [item];
  }

  lemma ColonIsAFlag()
    ensures ParseArgs("a:b", ["-:"]) == ([Flag(':')], []) == ParseArgs("a:", ["-:"])
  {
    assert Find(":b", ':') == 0 && "a:b"[1..] == ":b";
    assert Find(":", ':') == 0 && "a:"[1..] == ":";
    assert Find("a:b", ':') == 1 == Find("a:", ':');
    ColonIsAnOptionIff("a:b");
    ColonIsAnOptionIff("a:");
  }

  // ------------------------------------------------------- one option alone

  lemma OneLetter(opts: string, c: char)
    requires c != '-'
    ensures ParseArgs(opts, ["-" + [c]])
         == ([if !Known(opts, c) then Unknown(c) else if TakesArg(opts, c) then Missing(c) else Flag(c)], [])
  {
    var operand: string := "-" + [c];
    var operands := [operand];
    assert operand[1..] == [c] && [c][1..] == "" && operands[1..] == [] && operand[1] == c;
    assert IsOptionArg(operand) by { assert "--"[1] == '-'; }
    NoOperands(opts);
    assert ParseBundle(opts, "", []) == ([], []);
    var item := if !Known(opts, c) then Unknown(c) else if TakesArg(opts, c) then Missing(c) else Flag(c);
    assert ParseBundle(opts, [c], []) == Before(item, ([], []));
    assert [item] + [] == [item];
  }

  /** One option and no more operands: a flag is told by its letter; an option that is
      not in the string by `?`; one that lacks its argument by `?` as well, or by `:`
      when the string begins with a colon. Only then does OPTARG name the option. */
  lemma UnknownAndMissing(optstring: string, c: char, varname: string, vars: Vars)
    requires "OPTIND" !in vars && CHAR_INDEX !in vars && Ordinary(varname) && c != '-'
    ensures var silent := optstring != "" && optstring[0] == ':';
            var opts := if silent then optstring[1..] else optstring;
            var (reports, end) := RunCalls(vars, optstring, varname, ["-" + [c]]);
            && (c !in opts ==> reports == [("?", if silent then Some([c]) else None)])
            && (c in opts && TakesArg(opts, c) ==> reports == [if silent then (":", Some([c])) else ("?", None)])
            && (c in opts && !TakesArg(opts, c) ==> reports == [([c], None)])
  {
    hide ParseArgs, ToText, RunCalls, TakesArg;
    var operands := ["-" + [c]];
    RunIsParse(vars, optstring, varname, operands);
    assert operands[0..] == operands;
    OneLetter(Options(optstring), c);
    OneReport(if !Known(Options(optstring), c) then Unknown(c)
              else if TakesArg(Options(optstring), c) then Missing(c) else Flag(c), IsSilent(optstring));
  }

  lemma OneReport(item: Item, silent: bool)
    ensures Reports([item], silent) == [(NameOf(item, silent), ArgOf(item, silent))]
  {
    assert [item][1..] == [];
  }

  /** An option takes an argument when a colon follows its first place in the string. */
  lemma ColonAfter(before: string, c: char, after: string)
    requires c !in before
    ensures TakesArg(before + [c] + after, c) <==> after != "" && after[0] == ':'
  {
    FindIs(before, c, after);
    assert after != "" ==> (before + [c] + after)[|before| + 1] == after[0];
  }

  lemma {:induction false} FindIs(before: string, c: char, after: string)
    requires c !in before
    ensures Find(before + [c] + after, c) == |before|
    decreases |before|
  {
    var opts := before + [c] + after;
    if before != "" {
      assert opts[0] == before[0] && opts[1..] == before[1..] + [c] + after;
      FindIs(before[1..], c, after);
    }
  }

  /** A counter is the number its variable holds, from one on; smaller, malformed or
      unset it counts as one. */
  lemma CounterReads(vars: Vars, name: string, n: int)
    requires INT_MIN <= n <= INT_MAX && name in vars
    ensures vars[name] == ToText(n) ==> Counter(vars, name) == if n >= 1 then n else 1
    ensures vars[name] == "" ==> Counter(vars, name) == 1
    ensures forall other :: other !in vars ==> Counter(vars, other) == 1
  {
    hide ToText;
    TextRoundTrip(n, false, INT_MIN, INT_MAX);
  }
}
