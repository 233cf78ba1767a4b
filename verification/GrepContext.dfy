/**
 grep with context: which lines are printed around the selected ones, how they are tagged, and where
 groups are separated. Whether a line matches the pattern is a parameter.
 */
module GrepContext {
  import opened Wrappers
  import opened Numerals

  datatype Options = Options(
    invert: bool, maxCount: Option<nat>, before: nat, after: nat, showLineNumbers: bool)

  datatype File = File(lines: seq<string>, filename: string, showFilename: bool)

  datatype ContextResult = ContextResult(output: string, matchCount: nat, hadMatch: bool)

  // ----- what is asked for ------------------------------------------------------------------------

  function Wanted(matches: string -> bool, o: Options, line: string): bool {
    matches(line) != o.invert
  }

  function Count(matches: string -> bool, o: Options, lines: seq<string>): (n: nat)
    ensures n <= |lines|
  {
    if lines == [] then 0
    else Count(matches, o, lines[..|lines| - 1]) + (if Wanted(matches, o, lines[|lines| - 1]) then 1 else 0)
  }

  /** The line is one of the first `maxCount` wanted ones. */
  predicate Selected(matches: string -> bool, o: Options, lines: seq<string>, i: nat)
    requires i < |lines|
  {
    Wanted(matches, o, lines[i]) && (o.maxCount.Some? ==> Count(matches, o, lines[..i]) < o.maxCount.value)
  }

  /** Some selected line is near enough. */
  predicate Shown(matches: string -> bool, o: Options, lines: seq<string>, i: nat)
    requires i < |lines|
  {
    exists j :: 0 <= j < |lines| && Selected(matches, o, lines, j) && j - o.before <= i <= j + o.after
  }

  datatype Entry = Line(i: nat, selected: bool) | Separator

  /** What is printed from line `i` on, `last` being the line printed before. */
  function Entries(matches: string -> bool, o: Options, lines: seq<string>, i: nat, last: Option<nat>): seq<Entry>
    requires i <= |lines|
    decreases |lines| - i
  {
    if i == |lines| then []
    else if !Shown(matches, o, lines, i) then Entries(matches, o, lines, i + 1, last)
    else
      var rest := [Line(i, Selected(matches, o, lines, i))] + Entries(matches, o, lines, i + 1, Some(i));
      if Gap(i, last) then [Separator] + rest else rest
  }

  predicate Gap(i: nat, last: Option<nat>) {
    last.Some? && i > last.value + 1
  }

  predicate InFile(es: seq<Entry>, n: nat) {
    es == [] || ((es[0].Line? ==> es[0].i < n) && InFile(es[1..], n))
  }

  function MatchLine(f: File, o: Options, i: nat, sep: char): string
    requires i < |f.lines|
  {
    (if f.showFilename then f.filename + [sep] else "")
    + (if o.showLineNumbers then Decimal(i + 1) + [sep] else "")
    + f.lines[i] + "\n"
  }

  function EntryText(f: File, o: Options, e: Entry): string
    requires e.Line? ==> e.i < |f.lines|
  {
    match e
    case Line(i, selected) => MatchLine(f, o, i, if selected then ':' else '-')
    case Separator => "--\n"
  }

  function Text(f: File, o: Options, es: seq<Entry>): string
    requires InFile(es, |f.lines|)
  {
    if es == [] then "" else EntryText(f, o, es[0]) + Text(f, o, es[1..])
  }

  function Least(cap: Option<nat>, n: nat): nat {
    if cap.Some? && cap.value < n then cap.value else n
  }

  // ----- the three passes ---------------------------------------------------------------------------

  method FormatMatchLine(out: string, f: File, o: Options, i: nat, sep: char) returns (longer: string)
    requires i < |f.lines|
    ensures longer == out + MatchLine(f, o, i, sep)
  {
    longer := out;
    if f.showFilename {
      longer := longer + f.filename;
      longer := longer + [sep];
    }
    if o.showLineNumbers {
      longer := longer + Decimal(i + 1);
      longer := longer + [sep];
    }
    longer := longer + f.lines[i];
    longer := longer + "\n";
  }

  lemma {:induction false} CountGrows(matches: string -> bool, o: Options, lines: seq<string>, m: nat, n: nat)
    requires m <= n <= |lines|
    ensures Count(matches, o, lines[..m]) <= Count(matches, o, lines[..n])
    decreases n
  {
    if m < n {
      assert lines[..n][..n - 1] == lines[..n - 1];
      CountGrows(matches, o, lines, m, n - 1);
    }
  }

  /** Marks the selected lines, stopping once there are enough. */
  method FindMatches(matches: string -> bool, o: Options, lines: seq<string>, isMatch: array<bool>)
    returns (matchCount: nat, hadMatch: bool)
    requires isMatch.Length == |lines| && forall k :: 0 <= k < |lines| ==> !isMatch[k]
    modifies isMatch
    ensures forall k :: 0 <= k < |lines| ==> isMatch[k] == Selected(matches, o, lines, k)
    ensures matchCount == Least(o.maxCount, Count(matches, o, lines)) && hadMatch == (matchCount > 0)
  {
    matchCount, hadMatch := 0, false;
    assert lines[..0] == [];
    for i := 0 to |lines|
      invariant matchCount == Least(o.maxCount, Count(matches, o, lines[..i])) && hadMatch == (matchCount > 0)
      invariant forall k :: 0 <= k < i ==> isMatch[k] == Selected(matches, o, lines, k)
      invariant forall k :: i <= k < |lines| ==> !isMatch[k]
    {
      if o.maxCount.Some? && matchCount >= o.maxCount.value {
        forall k | i <= k <= |lines|
          ensures Count(matches, o, lines[..k]) >= o.maxCount.value
        {
          CountGrows(matches, o, lines, i, k);
        }
        assert lines[..|lines|] == lines;
        break;
      }
      assert lines[..i + 1][..i] == lines[..i];
      var matched := matches(lines[i]);
      if o.invert {
        matched := !matched;
      }
      if matched {
        isMatch[i] := true;
        matchCount := matchCount + 1;
        hadMatch := true;
      }
    }
    assert lines[..|lines|] == lines;
  }

  /** Marks the lines within reach of a marked one. */
  method MarkContext(o: Options, isMatch: array<bool>, printLine: array<bool>)
    requires isMatch != printLine && isMatch.Length == printLine.Length
    requires forall k :: 0 <= k < printLine.Length ==> !printLine[k]
    modifies printLine
    ensures forall k :: 0 <= k < printLine.Length ==>
              (printLine[k] <==> exists j :: 0 <= j < isMatch.Length && isMatch[j] && j - o.before <= k <= j + o.after)
  {
    var n := isMatch.Length;
    for i := 0 to n
      invariant forall k :: 0 <= k < n ==>
                  (printLine[k] <==> exists j :: 0 <= j < i && isMatch[j] && j - o.before <= k <= j + o.after)
    {
      if isMatch[i] {
        var start := if i >= o.before then i - o.before else 0;
        var end := if i + o.after + 1 <= n then i + o.after + 1 else n;
        ghost var was := printLine[..];
        for p := start to end
          invariant forall k :: 0 <= k < n ==> printLine[k] == (was[k] || start <= k < p)
        {
          printLine[p] := true;
        }
        forall k | 0 <= k < n
          ensures printLine[k] <==> exists j :: 0 <= j < i + 1 && isMatch[j] && j - o.before <= k <= j + o.after
        {
          if start <= k < end {
            assert isMatch[i] && i - o.before <= k <= i + o.after;
          }
        }
      }
    }
  }

  lemma {:induction false} EntriesInFile(matches: string -> bool, o: Options, lines: seq<string>, i: nat,
                                         last: Option<nat>)
    requires i <= |lines|
    ensures InFile(Entries(matches, o, lines, i, last), |lines|)
    decreases |lines| - i
  {
    hide Shown, Selected;
    if i < |lines| {
      EntriesInFile(matches, o, lines, i + 1, last);
      EntriesInFile(matches, o, lines, i + 1, Some(i));
      var line := Line(i, Selected(matches, o, lines, i));
      Prepend(line, Entries(matches, o, lines, i + 1, Some(i)), |lines|);
      Prepend(Separator, [line] + Entries(matches, o, lines, i + 1, Some(i)), |lines|);
    }
  }

  lemma Prepend(e: Entry, es: seq<Entry>, n: nat)
    ensures ([e] + es)[0] == e && ([e] + es)[1..] == es
    ensures InFile([e] + es, n) <==> (e.Line? ==> e.i < n) && InFile(es, n)
  {
    assert ([e] + es)[1..] == es;
  }

  lemma PrependText(f: File, o: Options, e: Entry, es: seq<Entry>)
    requires InFile([e] + es, |f.lines|)
    ensures InFile(es, |f.lines|) && (e.Line? ==> e.i < |f.lines|)
    ensures Text(f, o, [e] + es) == EntryText(f, o, e) + Text(f, o, es)
  {
    Prepend(e, es, |f.lines|);
  }

  /** The text from line `i` on. */
  ghost function Printed(matches: string -> bool, f: File, o: Options, i: nat, last: Option<nat>): string
    requires i <= |f.lines|
  {
    EntriesInFile(matches, o, f.lines, i, last);
    Text(f, o, Entries(matches, o, f.lines, i, last))
  }

  lemma PrintedOpens(matches: string -> bool, f: File, o: Options, i: nat, last: Option<nat>)
    requires i < |f.lines|
    ensures Printed(matches, f, o, i, last) ==
            if !Shown(matches, o, f.lines, i) then Printed(matches, f, o, i + 1, last)
            else
              (if Gap(i, last) then "--\n" else "")
              + MatchLine(f, o, i, if Selected(matches, o, f.lines, i) then ':' else '-')
              + Printed(matches, f, o, i + 1, Some(i))
  {
    hide Shown, Selected, MatchLine, Text;
    if Shown(matches, o, f.lines, i) {
      EntriesInFile(matches, o, f.lines, i, last);
      var rest := Entries(matches, o, f.lines, i + 1, Some(i));
      var line := Line(i, Selected(matches, o, f.lines, i));
      if Gap(i, last) {
        PrependText(f, o, Separator, [line] + rest);
      }
      PrependText(f, o, line, rest);
    }
  }

  lemma PrintedEnds(matches: string -> bool, f: File, o: Options, last: Option<nat>)
    ensures Printed(matches, f, o, |f.lines|, last) == ""
  {
  }

  /** Prints the marked lines, with group separators. */
  method PrintGroups(ghost matches: string -> bool, f: File, o: Options, isMatch: array<bool>, printLine: array<bool>)
    returns (output: string)
    requires isMatch.Length == printLine.Length == |f.lines|
    requires forall k :: 0 <= k < |f.lines| ==>
               isMatch[k] == Selected(matches, o, f.lines, k) && printLine[k] == Shown(matches, o, f.lines, k)
    ensures output == Printed(matches, f, o, 0, None)
  {
    hide Shown, Selected, MatchLine, Printed;
    output := "";
    var lastPrinted: Option<nat> := None;
    for i := 0 to |f.lines|
      invariant output + Printed(matches, f, o, i, lastPrinted) == Printed(matches, f, o, 0, None)
    {
      PrintedOpens(matches, f, o, i, lastPrinted);
      if printLine[i] {
        if lastPrinted.Some? && i > lastPrinted.value + 1 {
          output := output + "--\n";
        }
        var sep := if isMatch[i] then ':' else '-';
        output := FormatMatchLine(output, f, o, i, sep);
        lastPrinted := Some(i);
      }
    }
    PrintedEnds(matches, f, o, lastPrinted);
  }

  method GrepWithContext(matches: string -> bool, f: File, o: Options) returns (r: ContextResult)
    ensures r.output == Printed(matches, f, o, 0, None)
    ensures r.matchCount == Least(o.maxCount, Count(matches, o, f.lines)) && r.hadMatch == (r.matchCount > 0)
  {
    var n := |f.lines|;
    var isMatch := new bool[n](_ => false);
    var matchCount, hadMatch := FindMatches(matches, o, f.lines, isMatch);
    var printLine := new bool[n](_ => false);
    MarkContext(o, isMatch, printLine);
    forall k | 0 <= k < n
      ensures printLine[k] == Shown(matches, o, f.lines, k)
    {
      if printLine[k] {
        var j :| 0 <= j < n && isMatch[j] && j - o.before <= k <= j + o.after;
        assert Selected(matches, o, f.lines, j);
      }
      if Shown(matches, o, f.lines, k) {
        var j :| 0 <= j < n && Selected(matches, o, f.lines, j) && j - o.before <= k <= j + o.after;
        assert isMatch[j];
      }
    }
    var output := PrintGroups(matches, f, o, isMatch, printLine);
    r := ContextResult(output, matchCount, hadMatch);
  }

  // ----- what the entries are ---------------------------------------------------------------------

  /** The lines among the entries. */
  function LinesOf(es: seq<Entry>): seq<nat> {
    if es == [] then [] else (if es[0].Line? then [es[0].i] else []) + LinesOf(es[1..])
  }

  /** All shown lines from `i` on, in order, each once. */
  function ShownFrom(matches: string -> bool, o: Options, lines: seq<string>, i: nat): (r: seq<nat>)
    requires i <= |lines|
    ensures forall k :: k in r <==> i <= k < |lines| && Shown(matches, o, lines, k)
    ensures forall a, b :: 0 <= a < b < |r| ==> r[a] < r[b]
    decreases |lines| - i
  {
    if i == |lines| then []
    else
      var rest := ShownFrom(matches, o, lines, i + 1);
      assert forall b :: 0 <= b < |rest| ==> rest[b] in rest;
      if Shown(matches, o, lines, i) then [i] + rest else rest
  }

  /** A separator stands between two printed lines that are not neighbours, and nowhere else. */
  predicate Separated(es: seq<Entry>, last: Option<nat>) {
    if es == [] then true
    else if es[0].Separator? then
      |es| > 1 && es[1].Line? && last.Some? && es[1].i > last.value + 1 && Separated(es[2..], Some(es[1].i))
    else (last.Some? ==> es[0].i == last.value + 1) && Separated(es[1..], Some(es[0].i))
  }

  /** Of the line entries: in range from `i` on, and tagged by whether they are selected. */
  predicate Tagged(es: seq<Entry>, matches: string -> bool, o: Options, lines: seq<string>, i: nat) {
    forall k :: 0 <= k < |es| && es[k].Line? ==>
      i <= es[k].i < |lines| && es[k].selected == Selected(matches, o, lines, es[k].i)
  }

  /** Exactly the shown lines, each once and in order, tagged and separated as they should be. */
  lemma {:induction false} EntriesAreExact(matches: string -> bool, o: Options, lines: seq<string>, i: nat,
                                           last: Option<nat>)
    requires i <= |lines| && (last.Some? ==> last.value < i)
    ensures LinesOf(Entries(matches, o, lines, i, last)) == ShownFrom(matches, o, lines, i)
    ensures Separated(Entries(matches, o, lines, i, last), last)
    ensures Tagged(Entries(matches, o, lines, i, last), matches, o, lines, i)
    decreases |lines| - i
  {
    hide Shown, Selected, LinesOf, Separated;
    if i == |lines| {
      NoEntries(last);
    } else if Shown(matches, o, lines, i) {
      EntriesAreExact(matches, o, lines, i + 1, Some(i));
      var rest := Entries(matches, o, lines, i + 1, Some(i));
      var line := Line(i, Selected(matches, o, lines, i));
      PrependExact(line, rest, i, last);
    } else {
      EntriesAreExact(matches, o, lines, i + 1, last);
    }
  }

  lemma NoEntries(last: Option<nat>)
    ensures LinesOf([]) == [] && Separated([], last)
  {
  }

  lemma PrependExact(line: Entry, rest: seq<Entry>, i: nat, last: Option<nat>)
    requires line.Line? && line.i == i && Separated(rest, Some(i)) && (last.Some? ==> last.value < i)
    ensures LinesOf([line] + rest) == [i] + LinesOf(rest)
    ensures LinesOf([Separator] + ([line] + rest)) == [i] + LinesOf(rest)
    ensures Separated(if Gap(i, last) then [Separator] + ([line] + rest) else [line] + rest, last)
  {
    var es := [line] + rest;
    assert es[1..] == rest;
    assert LinesOf(es) == [i] + LinesOf(rest);
    var more := [Separator] + es;
    assert more[1..] == es && more[2..] == rest;
    assert LinesOf(more) == [] + LinesOf(es);
  }
}
