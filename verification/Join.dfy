/**
 join: a merge of two files sorted on their key fields, which must deliver what comparing every
 line with every line would.
 */
module Join {
  import opened Sequences
  import opened TextOrder

  // ----- keys -----------------------------------------------------------------------------------

  type Fields = seq<string>

  /** The key field, counted from 1; a missing field is an empty key. */
  function GetKey(fields: Fields, field: nat): string {
    if field == 0 || field > |fields| then "" else fields[field - 1]
  }

  function Keys(lines: seq<Fields>, field: nat): (keys: seq<string>)
    ensures |keys| == |lines|
  {
    seq(|lines|, i requires 0 <= i < |lines| => GetKey(lines[i], field))
  }

  ghost predicate Sorted(keys: seq<string>) {
    forall i, j :: 0 <= i < j < |keys| ==> AtMost(keys[i], keys[j])
  }

  // ----- what is printed --------------------------------------------------------------------------

  /** One output line: two joined lines, or an unpaired line of the first or the second file. */
  datatype Event = Pair(i: nat, k: nat) | Left(i: nat) | Right(k: nat)

  function Text(events: seq<Event>, render: Event -> string): string {
    if events == [] then "" else render(events[0]) + "\n" + Text(events[1..], render)
  }

  function Rights(from: nat, end: nat): (r: seq<Event>)
    requires from <= end
  {
    seq(end - from, n requires 0 <= n < end - from => Right(from + n))
  }

  function Pairs(i: nat, from: nat, end: nat): (r: seq<Event>)
    requires from <= end
  {
    seq(end - from, n requires 0 <= n < end - from => Pair(i, from + n))
  }

  /** The first index from `j` on whose key is not below `key`. */
  function LessEnd(keys: seq<string>, j: nat, key: string): (end: nat)
    requires j <= |keys|
    ensures j <= end <= |keys|
    ensures forall n :: j <= n < end ==> Less(keys[n], key)
    ensures end < |keys| ==> AtMost(key, keys[end])
    decreases |keys| - j
  {
    if j < |keys| && Less(keys[j], key) then LessEnd(keys, j + 1, key) else j
  }

  /** The first index from `k` on whose key is not `key`. */
  function EqualEnd(keys: seq<string>, k: nat, key: string): (end: nat)
    requires k <= |keys|
    ensures k <= end <= |keys|
    ensures forall n :: k <= n < end ==> keys[n] == key
    ensures end < |keys| ==> keys[end] != key
    decreases |keys| - k
  {
    if k < |keys| && keys[k] == key then EqualEnd(keys, k + 1, key) else k
  }

  /** Which unpaired lines to print (`-a 1`, `-a 2`). */
  datatype Unpaired = Unpaired(first: bool, second: bool)

  function Max(a: nat, b: nat): nat {
    if a < b then b else a
  }

  /** What line `i` prints: second-file lines skipped, its pairs, itself if it has none. */
  function Row(u: Unpaired, i: nat, changed: bool, matchEnd: nat, start: nat, end: nat): seq<Event>
    requires start <= end && (changed ==> matchEnd <= start)
  {
    (if changed && u.second then Rights(matchEnd, start) else [])
    + Pairs(i, start, end)
    + (if start == end && u.first then [Left(i)] else [])
  }

  /** The merge from line `i` of the first file on, with the loop's variables. */
  function Merge(keys1: seq<string>, keys2: seq<string>, u: Unpaired, i: nat, j: nat, matchEnd: nat, prev: string)
    : seq<Event>
    requires i <= |keys1| && j <= |keys2| && matchEnd <= |keys2|
    decreases |keys1| - i
  {
    if i == |keys1| then (if u.second then Rights(matchEnd, |keys2|) else [])
    else
      var key := keys1[i];
      var start := if key != prev then LessEnd(keys2, matchEnd, key) else j;
      var end := EqualEnd(keys2, start, key);
      Row(u, i, key != prev, matchEnd, start, end)
      + Merge(keys1, keys2, u, i + 1, start, Max(matchEnd, end), key)
  }

  function Joined(keys1: seq<string>, keys2: seq<string>, u: Unpaired): seq<Event> {
    Merge(keys1, keys2, u, 0, 0, 0, "")
  }

  /** One line of the merge. */
  lemma MergeOpens(keys1: seq<string>, keys2: seq<string>, u: Unpaired, i: nat, j: nat, matchEnd: nat, prev: string)
    requires i < |keys1| && j <= |keys2| && matchEnd <= |keys2|
    ensures var key := keys1[i];
            var start := if key != prev then LessEnd(keys2, matchEnd, key) else j;
            var end := EqualEnd(keys2, start, key);
            && Max(matchEnd, end) <= |keys2|
            && Merge(keys1, keys2, u, i, j, matchEnd, prev) ==
               Row(u, i, key != prev, matchEnd, start, end)
               + Merge(keys1, keys2, u, i + 1, start, Max(matchEnd, end), key)
  {
    hide Row, LessEnd, EqualEnd;
  }

  lemma MergeEnds(keys1: seq<string>, keys2: seq<string>, u: Unpaired, j: nat, matchEnd: nat, prev: string)
    requires j <= |keys2| && matchEnd <= |keys2|
    ensures Merge(keys1, keys2, u, |keys1|, j, matchEnd, prev) == if u.second then Rights(matchEnd, |keys2|) else []
  {
  }

  // ----- the loop ---------------------------------------------------------------------------------

  lemma {:induction false} TextConcat(x: seq<Event>, y: seq<Event>, render: Event -> string)
    ensures Text(x + y, render) == Text(x, render) + Text(y, render)
  {
    hide Text;
    if x == [] {
      TextNothing(render);
      assert x + y == y;
    } else {
      TextOpens(x, render);
      TextOpens(x + y, render);
      TailOfConcat(x, y);
      TextConcat(x[1..], y, render);
      Associates(render(x[0]) + "\n", Text(x[1..], render), Text(y, render));
    }
  }

  lemma TextOpens(events: seq<Event>, render: Event -> string)
    requires events != []
    ensures Text(events, render) == render(events[0]) + "\n" + Text(events[1..], render)
  {
  }

  lemma TextNothing(render: Event -> string)
    ensures Text([], render) == ""
  {
  }

  lemma TextOne(e: Event, render: Event -> string)
    ensures Text([e], render) == render(e) + "\n"
  {
    assert [e][1..] == [];
  }

  lemma RightsGrow(from: nat, end: nat)
    requires from <= end
    ensures Rights(from, from) == [] && Rights(from, end + 1) == Rights(from, end) + [Right(end)]
  {
  }

  lemma LessEndOpens(keys: seq<string>, j: nat, key: string)
    requires j <= |keys|
    ensures LessEnd(keys, j, key) == if j < |keys| && Less(keys[j], key) then LessEnd(keys, j + 1, key) else j
  {
    hide Less;
  }

  /** Prints the lines of the second file from `from` up to the first whose key is not below `key`. */
  method SkipLess(stdout: string, keys2: seq<string>, from: nat, key: string, show: bool, render: Event -> string)
    returns (out: string, j: nat)
    requires from <= |keys2|
    ensures j == LessEnd(keys2, from, key)
    ensures out == stdout + Text(if show then Rights(from, j) else [], render)
  {
    hide Text, Rights, LessEnd, Less;
    out, j := stdout, from;
    ghost var printed: seq<Event> := [];
    TextNothing(render);
    RightsGrow(from, from);
    while j < |keys2|
      invariant from <= j <= |keys2| && LessEnd(keys2, j, key) == LessEnd(keys2, from, key)
      invariant printed == if show then Rights(from, j) else []
      invariant out == stdout + Text(printed, render)
    {
      LessEndOpens(keys2, j, key);
      if !Less(keys2[j], key) {
        break;
      }
      if show {
        RightsGrow(from, j);
        Associates(stdout, Text(printed, render), render(Right(j)) + "\n");
        TextConcat(printed, [Right(j)], render);
        TextOne(Right(j), render);
        out := out + (render(Right(j)) + "\n");
        printed := printed + [Right(j)];
      }
      j := j + 1;
    }
  }

  /** Prints line `i` joined with every line of the run of its key. */
  method JoinRun(stdout: string, keys2: seq<string>, i: nat, start: nat, key: string, render: Event -> string)
    returns (out: string, k: nat, matched: bool)
    requires start <= |keys2|
    ensures k == EqualEnd(keys2, start, key) && matched == (start != k)
    ensures out == stdout + Text(Pairs(i, start, k), render)
  {
    hide Text;
    out, k, matched := stdout, start, false;
    TextNothing(render);
    assert Pairs(i, start, start) == [];
    while k < |keys2|
      invariant start <= k <= |keys2| && EqualEnd(keys2, k, key) == EqualEnd(keys2, start, key)
      invariant matched == (start != k)
      invariant out == stdout + Text(Pairs(i, start, k), render)
    {
      if keys2[k] != key {
        break;
      }
      assert Pairs(i, start, k + 1) == Pairs(i, start, k) + [Pair(i, k)];
      TextConcat(Pairs(i, start, k), [Pair(i, k)], render);
      TextOne(Pair(i, k), render);
      out := out + (render(Pair(i, k)) + "\n");
      matched := true;
      k := k + 1;
    }
  }

  /** Joins line `i`, whose key is `key`; `changed` says that the line before had another key. */
  method JoinLine(stdout: string, keys2: seq<string>, u: Unpaired, i: nat, key: string, changed: bool,
                  j: nat, matchEnd: nat, render: Event -> string)
    returns (out: string, start: nat, end: nat)
    requires j <= |keys2| && matchEnd <= |keys2|
    ensures start == if changed then LessEnd(keys2, matchEnd, key) else j
    ensures end == EqualEnd(keys2, start, key)
    ensures out == stdout + Text(Row(u, i, changed, matchEnd, start, end), render)
  {
    hide Text, LessEnd, EqualEnd, Rights, Pairs;
    out, start := stdout, j;
    ghost var skipped: seq<Event> := [];
    TextNothing(render);
    if changed {
      out, start := SkipLess(out, keys2, matchEnd, key, u.second, render);
      skipped := if u.second then Rights(matchEnd, start) else [];
    }
    TextConcat(skipped, Pairs(i, start, EqualEnd(keys2, start, key)), render);
    var matched;
    out, end, matched := JoinRun(out, keys2, i, start, key, render);
    ghost var row := skipped + Pairs(i, start, end);
    if !matched && u.first {
      TextOne(Left(i), render);
      TextConcat(row, [Left(i)], render);
      out := out + (render(Left(i)) + "\n");
    } else {
      assert row + [] == row;
    }
  }

  method JoinFiles(lines1: seq<Fields>, lines2: seq<Fields>, field1: nat, field2: nat, u: Unpaired,
                   render: Event -> string) returns (stdout: string)
    ensures stdout == Text(Joined(Keys(lines1, field1), Keys(lines2, field2), u), render)
  {
    hide Text, LessEnd, EqualEnd, Row, Keys, Merge, Max;
    var keys1, keys2 := Keys(lines1, field1), Keys(lines2, field2);
    ghost var goal := Text(Joined(keys1, keys2, u), render);
    stdout := "";
    var j: nat := 0;
    var matchEnd: nat := 0;
    var prevKey := "";
    for i := 0 to |lines1|
      invariant j <= |keys2| && matchEnd <= |keys2|
      invariant stdout + Text(Merge(keys1, keys2, u, i, j, matchEnd, prevKey), render) == goal
    {
      var key := keys1[i];
      var k;
      ghost var before, from := stdout, matchEnd;
      MergeOpens(keys1, keys2, u, i, j, matchEnd, prevKey);
      stdout, j, k := JoinLine(stdout, keys2, u, i, key, key != prevKey, j, matchEnd, render);
      matchEnd := Max(matchEnd, k);
      ghost var row, rest := Row(u, i, key != prevKey, from, j, k), Merge(keys1, keys2, u, i + 1, j, matchEnd, key);
      TextConcat(row, rest, render);
      Associates(before, Text(row, render), Text(rest, render));
      prevKey := key;
    }
    MergeEnds(keys1, keys2, u, j, matchEnd, prevKey);
    stdout := PrintRest(stdout, |keys2|, matchEnd, u.second, render);
  }

  /** The lines of the second file that are left. */
  method PrintRest(stdout: string, count: nat, from: nat, show: bool, render: Event -> string) returns (out: string)
    requires from <= count
    ensures out == stdout + Text(if show then Rights(from, count) else [], render)
  {
    hide Text;
    out := stdout;
    var j := from;
    TextNothing(render);
    assert Rights(from, from) == [];
    while j < count
      invariant from <= j <= count
      invariant out == stdout + Text(if show then Rights(from, j) else [], render)
    {
      if show {
        assert Rights(from, j + 1) == Rights(from, j) + [Right(j)];
        TextConcat(Rights(from, j), [Right(j)], render);
        TextOne(Right(j), render);
        out := out + (render(Right(j)) + "\n");
      }
      j := j + 1;
    }
  }
}
