/** What grep prints with context, line by line, from the selected lines alone. */
module GrepOutput {
  import opened Wrappers
  import opened Sequences
  import opened Numerals
  import opened GrepContext

  /** With `-v` the lines that do not match are wanted. */
  predicate Chosen(matches: string -> bool, o: Options, line: string) {
    if o.invert then !matches(line) else matches(line)
  }

  /** The chosen lines before line `i`. */
  ghost function ChosenBefore(matches: string -> bool, o: Options, lines: seq<string>, i: nat): set<nat>
    requires i <= |lines|
  {
    set j: nat | j < i && Chosen(matches, o, lines[j])
  }

  lemma {:induction false} CountIsSize(matches: string -> bool, o: Options, lines: seq<string>, i: nat)
    requires i <= |lines|
    ensures Count(matches, o, lines[..i]) == |ChosenBefore(matches, o, lines, i)|
  {
    if i == 0 {
      assert ChosenBefore(matches, o, lines, 0) == {};
    } else {
      CountIsSize(matches, o, lines, i - 1);
      assert lines[..i][..i - 1] == lines[..i - 1];
      var before, upTo := ChosenBefore(matches, o, lines, i - 1), ChosenBefore(matches, o, lines, i);
      if Chosen(matches, o, lines[i - 1]) {
        assert upTo == before + {i - 1};
      } else {
        assert upTo == before;
      }
    }
  }

  /** A line is selected if it is chosen and fewer than the maximum are chosen before it. */
  lemma SelectedIsChosen(matches: string -> bool, o: Options, lines: seq<string>, i: nat)
    requires i < |lines|
    ensures Selected(matches, o, lines, i) <==>
            && Chosen(matches, o, lines[i])
            && (o.maxCount.Some? ==> |ChosenBefore(matches, o, lines, i)| < o.maxCount.value)
  {
    CountIsSize(matches, o, lines, i);
  }

  /** The count that is returned. */
  lemma CountIsChosen(matches: string -> bool, o: Options, lines: seq<string>)
    ensures var all := |ChosenBefore(matches, o, lines, |lines|)|;
            Least(o.maxCount, Count(matches, o, lines)) ==
            if o.maxCount.Some? && o.maxCount.value < all then o.maxCount.value else all
  {
    CountIsSize(matches, o, lines, |lines|);
    assert lines[..|lines|] == lines;
  }

  /** `name:number:text` for a selected line, `name-number-text` for context; each part only if asked for. */
  function LineOut(f: File, o: Options, i: nat, selected: bool): string
    requires i < |f.lines|
  {
    match (f.showFilename, o.showLineNumbers, selected)
    case (true, true, true) => f.filename + ":" + Decimal(i + 1) + ":" + f.lines[i] + "\n"
    case (true, true, false) => f.filename + "-" + Decimal(i + 1) + "-" + f.lines[i] + "\n"
    case (true, false, true) => f.filename + ":" + f.lines[i] + "\n"
    case (true, false, false) => f.filename + "-" + f.lines[i] + "\n"
    case (false, true, true) => Decimal(i + 1) + ":" + f.lines[i] + "\n"
    case (false, true, false) => Decimal(i + 1) + "-" + f.lines[i] + "\n"
    case (false, false, _) => f.lines[i] + "\n"
  }

  /** The lines in order, with `--` where one is left out between two. */
  ghost function Output(matches: string -> bool, f: File, o: Options, shown: seq<nat>, k: nat): string
    requires k <= |shown| && forall n :: 0 <= n < |shown| ==> shown[n] < |f.lines|
    decreases |shown| - k
  {
    if k == |shown| then ""
    else
      (if k > 0 && shown[k] != shown[k - 1] + 1 then "--\n" else "")
      + LineOut(f, o, shown[k], Selected(matches, o, f.lines, shown[k]))
      + Output(matches, f, o, shown, k + 1)
  }

  lemma LineOutIs(f: File, o: Options, i: nat, selected: bool)
    requires i < |f.lines|
    ensures MatchLine(f, o, i, if selected then ':' else '-') == LineOut(f, o, i, selected)
  {
    var mark := [if selected then ':' else '-'];
    assert selected ==> mark == ":";
    assert !selected ==> mark == "-";
    if f.showFilename && !o.showLineNumbers {
      assert f.filename + mark + "" == f.filename + mark;
    } else if f.showFilename {
      Associates(f.filename + mark, Decimal(i + 1), mark);
    } else {
      assert "" + (Decimal(i + 1) + mark) == Decimal(i + 1) + mark;
      assert "" + "" + f.lines[i] == f.lines[i];
    }
  }

  lemma OutputOpens(matches: string -> bool, f: File, o: Options, shown: seq<nat>, k: nat)
    requires k < |shown| && forall n :: 0 <= n < |shown| ==> shown[n] < |f.lines|
    ensures Output(matches, f, o, shown, k) ==
            (if k > 0 && shown[k] != shown[k - 1] + 1 then "--\n" else "")
            + LineOut(f, o, shown[k], Selected(matches, o, f.lines, shown[k]))
            + Output(matches, f, o, shown, k + 1)
  {
    hide Selected, LineOut;
  }

  /** What is printed from line `i` on is the output of the shown lines from there on. */
  lemma {:induction false} PrintedIsOutput(matches: string -> bool, f: File, o: Options, i: nat, last: Option<nat>,
                                           shown: seq<nat>, k: nat)
    requires i <= |f.lines| && k <= |shown| && forall n :: 0 <= n < |shown| ==> shown[n] < |f.lines|
    requires shown[k..] == ShownFrom(matches, o, f.lines, i)
    requires if k == 0 then last == None else last == Some(shown[k - 1]) && shown[k - 1] < i
    ensures Printed(matches, f, o, i, last) == Output(matches, f, o, shown, k)
    decreases |f.lines| - i
  {
    hide Shown, Selected, MatchLine, LineOut, Printed, Output, ShownFrom, Count;
    if i == |f.lines| {
      PrintedEnds(matches, f, o, last);
      NothingLeft(matches, f, o, shown, k);
    } else {
      PrintedOpens(matches, f, o, i, last);
      ShownOpens(matches, o, f.lines, i);
      if Shown(matches, o, f.lines, i) {
        HeadIs(shown, k, i, ShownFrom(matches, o, f.lines, i + 1));
        LineOutIs(f, o, i, Selected(matches, o, f.lines, i));
        PrintedIsOutput(matches, f, o, i + 1, Some(i), shown, k + 1);
        OutputOpens(matches, f, o, shown, k);
      } else {
        PrintedIsOutput(matches, f, o, i + 1, last, shown, k);
      }
    }
  }

  lemma NothingLeft(matches: string -> bool, f: File, o: Options, shown: seq<nat>, k: nat)
    requires k <= |shown| && forall n :: 0 <= n < |shown| ==> shown[n] < |f.lines|
    requires shown[k..] == ShownFrom(matches, o, f.lines, |f.lines|)
    ensures k == |shown| && Output(matches, f, o, shown, k) == ""
  {
    assert |shown[k..]| == 0;
  }

  lemma HeadIs<T>(s: seq<T>, k: nat, x: T, rest: seq<T>)
    requires k <= |s| && s[k..] == [x] + rest
    ensures k < |s| && s[k] == x && s[k + 1..] == rest
  {
    assert |s[k..]| == 1 + |rest|;
    assert s[k] == s[k..][0];
    assert s[k + 1..] == s[k..][1..];
  }

  lemma ShownOpens(matches: string -> bool, o: Options, lines: seq<string>, i: nat)
    requires i < |lines|
    ensures ShownFrom(matches, o, lines, i) ==
            if Shown(matches, o, lines, i) then [i] + ShownFrom(matches, o, lines, i + 1)
            else ShownFrom(matches, o, lines, i + 1)
  {
    hide Shown;
  }

  /**
   The output is that of the lines within reach of a selected one, in order and each once, written out
   with number and name as asked for.
   */
  lemma OutputIsOfShownLines(matches: string -> bool, f: File, o: Options) returns (shown: seq<nat>)
    ensures forall i: nat :: i in shown <==>
              i < |f.lines| && exists j: nat :: j < |f.lines| && Selected(matches, o, f.lines, j)
                                                && j - o.before <= i <= j + o.after
    ensures forall a, b :: 0 <= a < b < |shown| ==> shown[a] < shown[b]
    ensures forall n :: 0 <= n < |shown| ==> shown[n] < |f.lines|
    ensures Printed(matches, f, o, 0, None) == Output(matches, f, o, shown, 0)
  {
    hide Printed, Output, Selected;
    shown := ShownFrom(matches, o, f.lines, 0);
    assert forall n :: 0 <= n < |shown| ==> shown[n] in shown;
    assert shown[0..] == shown;
    PrintedIsOutput(matches, f, o, 0, None, shown, 0);
    forall i: nat
      ensures i in shown <==>
              i < |f.lines| && exists j: nat :: j < |f.lines| && Selected(matches, o, f.lines, j)
                                                && j - o.before <= i <= j + o.after
    {
      if i < |f.lines| && Shown(matches, o, f.lines, i) {
        var j :| 0 <= j < |f.lines| && Selected(matches, o, f.lines, j) && j - o.before <= i <= j + o.after;
        var k: nat := j;
        assert Selected(matches, o, f.lines, k) && k - o.before <= i <= k + o.after;
      }
    }
  }
}
