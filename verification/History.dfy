/** The command history: a capped window whose numbers never change their
    meaning. The log holds every command ever recorded; the retained entries
    are its tail, and command number n is log[n - 1]. */
module History {
  import opened Prelude
  import opened Numbers

  // ------------------------------------------------------------ one entry

  function WithoutNewline(entry: string): string {
    if entry != "" && entry[|entry| - 1] == '\n' then entry[..|entry| - 1] else entry
  }

  predicate IsBlank(entry: string) {
    forall i :: 0 <= i < |entry| ==> entry[i] == ' ' || entry[i] == '\t' || entry[i] == '\n'
  }

  /** What recording an entry appends: nothing when it is blank or repeats the
      newest one. */
  function Recorded(entries: seq<string>, entry: string): seq<string> {
    var e := WithoutNewline(entry);
    if IsBlank(e) || (entries != [] && entries[|entries| - 1] == e) then [] else [e]
  }

  /** The newest entries that the cap lets stay; a cap of 0 is none. */
  function Capped(entries: seq<string>, maxSize: nat): (r: seq<string>)
    ensures |r| <= |entries| && r == entries[|entries| - |r|..]
    ensures maxSize > 0 ==> |r| <= maxSize
    ensures maxSize == 0 || |entries| <= maxSize ==> r == entries
  {
    if maxSize == 0 || |entries| <= maxSize then entries else entries[|entries| - maxSize..]
  }

  predicate Reachable(entries: seq<string>) {
    && (forall i :: 0 <= i < |entries| ==> !IsBlank(entries[i]))
    && (forall i :: 0 < i < |entries| ==> entries[i] != entries[i - 1])
  }

  // ---------------------------------------------------------- file format

  function LineLength(text: string): (n: nat)
    ensures n <= |text| && '\n' !in text[..n] && (n < |text| ==> text[n] == '\n')
  {
    if text == "" || text[0] == '\n' then 0 else 1 + LineLength(text[1..])
  }

  function AfterLine(text: string): (r: string)
    ensures text != "" ==> |r| < |text|
  {
    var n := LineLength(text);
    if n == |text| then "" else text[n + 1..]
  }

  /** getline, until it fails. */
  function Lines(text: string): seq<string>
    decreases |text|
  {
    if text == "" then [] else [text[..LineLength(text)]] + Lines(AfterLine(text))
  }

  function Saved(entries: seq<string>): string {
    if entries == [] then "" else entries[0] + "\n" + Saved(entries[1..])
  }

  function AddAll(entries: seq<string>, maxSize: nat, lines: seq<string>): seq<string>
    decreases |lines|
  {
    if lines == [] then entries
    else AddAll(Capped(entries + Recorded(entries, lines[0]), maxSize), maxSize, lines[1..])
  }

  // ------------------------------------------------------------ the window

  lemma AddFirst(entries: seq<string>, maxSize: nat, line: string, more: seq<string>)
    ensures AddAll(entries, maxSize, [line] + more)
         == AddAll(Capped(entries + Recorded(entries, line), maxSize), maxSize, more)
  {
    hide Capped, Recorded;
    assert ([line] + more)[1..] == more;
  }

  lemma NextLine(text: string, entries: seq<string>, maxSize: nat)
    requires text != ""
    ensures var line := text[..LineLength(text)];
            AddAll(entries, maxSize, Lines(text))
            == AddAll(Capped(entries + Recorded(entries, line), maxSize), maxSize, Lines(AfterLine(text)))
  {
    hide LineLength, AfterLine, Capped, Recorded, AddAll;
    AddFirst(entries, maxSize, text[..LineLength(text)], Lines(AfterLine(text)));
  }

  lemma NoLine(entries: seq<string>, maxSize: nat)
    ensures AddAll(entries, maxSize, Lines("")) == entries
  {
  }

  method Blank(e: string) returns (blank: bool)
    ensures blank == IsBlank(e)
  {
    var i := 0;
    while i < |e| && (e[i] == ' ' || e[i] == '\t' || e[i] == '\n')
      invariant 0 <= i <= |e| && forall k :: 0 <= k < i ==> e[k] == ' ' || e[k] == '\t' || e[k] == '\n'
    {
      i := i + 1;
    }
    blank := i == |e|;
  }

  lemma NothingAdded(entries: seq<string>, log: seq<string>, maxSize: nat)
    ensures entries + [] == entries && log + [] == log
    ensures maxSize == 0 || |entries| <= maxSize ==> Capped(entries, maxSize) == entries
  {
  }

  lemma OneMore(entries: seq<string>, log: seq<string>, firstNumber: nat, e: string)
    requires 1 <= firstNumber && |log| == firstNumber - 1 + |entries| && entries == log[firstNumber - 1..]
    requires Reachable(entries) && !IsBlank(e) && (entries != [] ==> entries[|entries| - 1] != e)
    ensures entries + [e] == (log + [e])[firstNumber - 1..] && Reachable(entries + [e])
  {
    hide IsBlank;
  }

  class HistoryList {
    var entries: seq<string>
    var maxSize: nat
    var firstNumber: nat
    ghost var log: seq<string>

    ghost predicate Valid()
      reads this
    {
      && 1 <= firstNumber && |log| == firstNumber - 1 + |entries|
      && entries == log[firstNumber - 1..]
      && (maxSize > 0 ==> |entries| <= maxSize)
      && Reachable(entries)
    }

    constructor ()
      ensures Valid() && entries == [] && maxSize == 0 && log == []
    {
      entries, maxSize, firstNumber, log := [], 0, 1, [];
    }

    method Trim()
      requires 1 <= firstNumber && |log| == firstNumber - 1 + |entries| && entries == log[firstNumber - 1..] && Reachable(entries)
      modifies this`entries, this`firstNumber
      ensures Valid() && entries == Capped(old(entries), maxSize)
    {
      if maxSize == 0 || |entries| <= maxSize {
        return;
      }
      var drop := |entries| - maxSize;
      entries := entries[drop..];
      firstNumber := firstNumber + drop;
    }

    method SetMaxSize(n: nat)
      requires Valid()
      modifies this
      ensures Valid() && maxSize == n && log == old(log) && entries == Capped(old(entries), n)
    {
      maxSize := n;
      Trim();
    }

    method Clear()
      requires Valid()
      modifies this
      ensures Valid() && entries == [] && log == old(log) && maxSize == old(maxSize)
    {
      firstNumber := firstNumber + |entries|;
      entries := [];
    }

    method Add(entry: string)
      requires Valid()
      modifies this
      ensures Valid() && maxSize == old(maxSize)
      ensures log == old(log) + Recorded(old(entries), entry)
      ensures entries == Capped(old(entries) + Recorded(old(entries), entry), maxSize)
    {
      hide Reachable, IsBlank, Capped;
      var e := WithoutNewline(entry);
      var blank := Blank(e);
      if blank || (entries != [] && entries[|entries| - 1] == e) {
        NothingAdded(entries, log, maxSize);
        return;
      }
      OneMore(entries, log, firstNumber, e);
      entries := entries + [e];
      log := log + [e];
      Trim();
    }

    function FirstNumber(): nat
      reads this
    {
      if entries == [] then 0 else firstNumber
    }

    function LastNumber(): nat
      reads this
    {
      if entries == [] || firstNumber == 0 then 0 else firstNumber + |entries| - 1
    }

    /** A number in the window, and only such a one, names the command it was given to. */
    method ByNumber(number: nat) returns (r: Option<string>)
      requires Valid()
      ensures r == if firstNumber <= number <= |log| then Some(log[number - 1]) else None
    {
      if entries == [] || number < firstNumber || number > LastNumber() {
        return None;
      }
      r := Some(entries[number - firstNumber]);
    }

    method Load(text: string)
      requires Valid()
      modifies this
      ensures Valid() && old(log) <= log && maxSize == old(maxSize)
      ensures entries == AddAll(old(entries), maxSize, Lines(text))
    {
      hide Valid, Recorded, Capped, LineLength, AfterLine, Lines, AddAll;
      var rest := text;
      while rest != ""
        invariant Valid() && old(log) <= log && maxSize == old(maxSize)
        invariant AddAll(entries, maxSize, Lines(rest)) == AddAll(old(entries), maxSize, Lines(text))
        decreases |rest|
      {
        var n := LineLength(rest);
        NextLine(rest, entries, maxSize);
        Add(rest[..n]);
        rest := AfterLine(rest);
      }
      NoLine(entries, maxSize);
    }

    method Save() returns (text: string)
      ensures text == Saved(entries)
    {
      text := "";
      var i := 0;
      while i < |entries|
        invariant 0 <= i <= |entries| && text + Saved(entries[i..]) == Saved(entries)
      {
        assert entries[i..][1..] == entries[i + 1..];
        text := text + entries[i] + "\n";
        i := i + 1;
      }
      assert text + "" == text;
    }

    // ------------------------------------------------------- references

    /** A command reference of fc. A number, or a number of commands back from the
        newest, must lie in the window; any other text finds the newest
        command that starts with it. */
    method ResolveHistRef(ref: string) returns (r: Option<nat>)
      requires Valid()
      ensures r.Some? ==> firstNumber <= r.value <= |log|
      ensures ref == "" ==> r == None
      ensures IsNumber(ref) ==> r == ByNumberReference(ref, firstNumber, |log|)
      ensures ref != "" && !IsNumber(ref) ==>
                if r.Some?
                then Starts(log, r.value, ref) && forall k :: r.value < k <= |log| ==> !Starts(log, k, ref)
                else forall k :: firstNumber <= k <= |log| ==> !Starts(log, k, ref)
    {
      if ref == "" || entries == [] {
        return None;
      }
      var start := if ref[0] == '-' then 1 else 0;
      var allDigits, i := start < |ref|, start;
      while i < |ref| && allDigits
        invariant start <= i <= |ref| && (allDigits <==> start < |ref| && forall k :: start <= k < i ==> IsDigit(ref[k]))
      {
        allDigits := IsDigit(ref[i]);
        i := i + 1;
      }
      assert allDigits <==> IsNumber(ref);
      if allDigits {
        var read := ReadInteger(ref, false, INT64_MIN, INT64_MAX);
        if read.None? {
          return None;
        }
        var n := read.value.0;
        if n < 0 {
          var resolved := LastNumber() + n;
          return if resolved < FirstNumber() then None else Some(resolved);
        }
        if n == 0 {
          return None;
        }
        var found := ByNumber(n);
        return if found.Some? then Some(n) else None;
      }
      var num := LastNumber();
      while true
        invariant firstNumber <= num <= |log|
        invariant forall k :: num < k <= |log| ==> !Starts(log, k, ref)
        decreases num
      {
        if ref <= entries[num - firstNumber] {
          return Some(num);
        }
        if num == FirstNumber() {
          break;
        }
        num := num - 1;
      }
      r := None;
    }

    /** The command before the newest one, which is fc itself. */
    method PreviousCommandNumber() returns (r: Option<nat>)
      requires Valid()
      ensures r == if |entries| > 1 then Some(|log| - 1) else None
      ensures r.Some? ==> firstNumber <= r.value < |log| && log[r.value - 1] == entries[|entries| - 2]
    {
      if LastNumber() <= FirstNumber() {
        return None;
      }
      r := Some(LastNumber() - 1);
    }
  }

  /** Command number k of the log starts with the text. */
  predicate Starts(log: seq<string>, k: int, ref: string) {
    1 <= k <= |log| && ref <= log[k - 1]
  }

  predicate IsNumber(ref: string) {
    var start := if ref != "" && ref[0] == '-' then 1 else 0;
    start < |ref| && forall i :: start <= i < |ref| ==> IsDigit(ref[i])
  }

  /** The number itself, or that many back from the last one; None outside the window. */
  function ByNumberReference(ref: string, first: int, last: int): Option<nat>
    requires first >= 1
  {
    match ReadInteger(ref, false, INT64_MIN, INT64_MAX)
    case None => None
    case Some((n, _)) =>
      var number := if n < 0 then last + n else n;
      if n != 0 && first <= number <= last then Some(number) else None
  }

  // --------------------------------------------------------- save and load

  lemma {:induction false} LineIs(e: string, after: string)
    requires '\n' !in e
    ensures LineLength(e + "\n" + after) == |e|
    decreases |e|
  {
    var text := e + "\n" + after;
    if e == "" {
      assert text[0] == '\n';
    } else {
      assert text[0] == e[0] && e[0] in e;
      assert text[1..] == e[1..] + "\n" + after;
      LineIs(e[1..], after);
    }
  }

  lemma {:induction false} LinesOfSaved(entries: seq<string>)
    requires forall i :: 0 <= i < |entries| ==> '\n' !in entries[i]
    ensures Lines(Saved(entries)) == entries
    decreases |entries|
  {
    if entries != [] {
      var text := Saved(entries);
      LineIs(entries[0], Saved(entries[1..]));
      var n := |entries[0]|;
      assert text[..n] == entries[0] && text[n + 1..] == Saved(entries[1..]);
      LinesOfSaved(entries[1..]);
    }
  }

  lemma {:induction false} LinesHaveNoNewline(text: string)
    ensures forall i :: 0 <= i < |Lines(text)| ==> '\n' !in Lines(text)[i]
    decreases |text|
  {
    if text != "" {
      var n := LineLength(text);
      assert forall i :: 0 <= i < n ==> text[i] in text[..n];
      LinesHaveNoNewline(AfterLine(text));
    }
  }

  lemma {:induction false} AddAllLines(entries: seq<string>, maxSize: nat, lines: seq<string>)
    requires Reachable(entries + lines) && (maxSize == 0 || |entries + lines| <= maxSize)
    requires forall i :: 0 <= i < |lines| ==> '\n' !in lines[i]
    ensures AddAll(entries, maxSize, lines) == entries + lines
    decreases |lines|
  {
    if lines == [] {
      assert entries + lines == entries;
    } else {
      var all := entries + lines;
      var e := lines[0];
      assert all[|entries|] == e && '\n' !in e;
      assert entries != [] ==> all[|entries| - 1] == entries[|entries| - 1];
      assert e != "" ==> e[|e| - 1] in e;
      assert Recorded(entries, e) == [e];
      assert entries + [e] + lines[1..] == all;
      AddAllLines(entries + [e], maxSize, lines[1..]);
    }
  }

  lemma {:induction false} AddAllHasNoNewline(entries: seq<string>, maxSize: nat, lines: seq<string>)
    requires forall i :: 0 <= i < |entries| ==> '\n' !in entries[i]
    requires forall i :: 0 <= i < |lines| ==> '\n' !in lines[i]
    ensures forall i :: 0 <= i < |AddAll(entries, maxSize, lines)| ==> '\n' !in AddAll(entries, maxSize, lines)[i]
    decreases |lines|
  {
    if lines != [] {
      var more := Recorded(entries, lines[0]);
      assert forall i :: 0 <= i < |more| ==> '\n' !in more[i];
      var all := entries + more;
      var next := Capped(all, maxSize);
      forall i | 0 <= i < |next| ensures '\n' !in next[i] {
        assert next[i] == all[|all| - |next| + i];
      }
      AddAllHasNoNewline(next, maxSize, lines[1..]);
    }
  }

  /** What a history holds comes back from its file, into a fresh history whose cap
      has room for it, exactly when no entry spans several lines. */
  lemma SaveLoad(entries: seq<string>, maxSize: nat)
    requires Reachable(entries) && (maxSize == 0 || |entries| <= maxSize)
    ensures AddAll([], maxSize, Lines(Saved(entries))) == entries <==> forall i :: 0 <= i < |entries| ==> '\n' !in entries[i]
  {
    hide AddAll, Lines, Saved, Reachable;
    if forall i :: 0 <= i < |entries| ==> '\n' !in entries[i] {
      LinesOfSaved(entries);
      assert [] + entries == entries;
      AddAllLines([], maxSize, entries);
    } else {
      LinesHaveNoNewline(Saved(entries));
      AddAllHasNoNewline([], maxSize, Lines(Saved(entries)));
    }
  }

  // ------------------------------------------------------------ references

  /** A number refers to itself and a negative one to that many before the newest, in
      either case only inside the window; 0 refers to nothing. */
  lemma NumbersRefer(n: nat, first: int, last: int)
    requires 1 <= first && first - 1 <= last && n <= INT64_MAX
    ensures ByNumberReference(ToText(n), first, last) == if first <= n <= last then Some(n) else None
    ensures n > 0 ==> ByNumberReference(ToText(-(n as int)), first, last) == if last - n >= first then Some(last - n) else None
    ensures IsNumber(ToText(n)) && IsNumber(ToText(-(n as int))) && !IsNumber("") && !IsNumber("-")
  {
    hide ToDecimal, ReadInteger;
    TextRoundTrip(n, false, INT64_MIN, INT64_MAX);
    TextRoundTrip(-(n as int), false, INT64_MIN, INT64_MAX);
  }

  /** One newline at the end of an entry is not part of it, and an entry is not recorded
      twice in a row, nor when nothing but blanks is left of it. */
  lemma RecordsOnce(entries: seq<string>, e: string)
    requires e != "" && e[|e| - 1] !in " \t\n"
    ensures Recorded(entries, e + "\n") == Recorded(entries, e)
    ensures Recorded(entries, e) == if entries != [] && entries[|entries| - 1] == e then [] else [e]
    ensures forall blanks: string :: (forall i :: 0 <= i < |blanks| ==> blanks[i] in " \t\n") ==> Recorded(entries, blanks) == []
  {
    assert (e + "\n")[..|e|] == e;
  }
}
