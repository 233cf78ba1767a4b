/**
 Patching back under ignore flags. Lines that compare equal, and blank lines that are not compared, stay
 as the old file has them; so the patched file compares equal to the new one.
 */
module DiffIgnore {
  import opened Wrappers
  import opened Sequences
  import opened Diff
  import opened DiffPatch

  // ----- what is compared -------------------------------------------------------------------------

  predicate Dropped(line: string, ignore: Ignore) {
    ignore.active && ignore.blank(line)
  }

  /** All that the flags do not ignore: the lines that are not dropped, normalised. */
  function Comparable(lines: seq<string>, ignore: Ignore): seq<string> {
    if lines == [] then []
    else (if Dropped(lines[0], ignore) then [] else [NormalLine(lines[0], ignore)]) + Comparable(lines[1..], ignore)
  }

  /** The input was prepared: exactly the lines that are not dropped are compared. */
  ghost predicate Made(a: DiffInput, ignore: Ignore) {
    && a.Valid()
    && (forall k :: 0 <= k < |a.index| ==> a.proc[k] == NormalLine(a.orig[a.index[k]], ignore))
    && (forall n :: 0 <= n < |a.orig| ==> (n in a.index <==> !Dropped(a.orig[n], ignore)))
  }

  lemma {:induction false} ComparedExactly(orig: seq<string>, i: nat, ignore: Ignore, n: nat)
    requires i <= n < |orig|
    ensures n in Compared(orig, i, ignore) <==> !Dropped(orig[n], ignore)
    decreases |orig| - i
  {
    if i < n {
      ComparedExactly(orig, i + 1, ignore, n);
    }
  }

  lemma PreparedIsMade(content: string, ignore: Ignore)
    ensures Made(Prepared(content, ignore), ignore)
  {
    hide Compared, SplitInclusive, NormalLine, Dropped;
    var a := Prepared(content, ignore);
    forall n | 0 <= n < |a.orig|
      ensures n in a.index <==> !Dropped(a.orig[n], ignore)
    {
      ComparedExactly(a.orig, 0, ignore, n);
    }
  }

  /** The original lines before `n` are those of the compared lines before `k` and what is dropped between. */
  predicate Bound(a: DiffInput, k: nat, n: nat)
    requires a.Valid()
  {
    && k <= |a.index| && n <= |a.orig|
    && (k > 0 ==> a.index[k - 1] < n)
    && (k < |a.index| ==> n <= a.index[k])
  }

  lemma {:induction false} ComparableConcat(x: seq<string>, y: seq<string>, ignore: Ignore)
    ensures Comparable(x + y, ignore) == Comparable(x, ignore) + Comparable(y, ignore)
  {
    hide NormalLine, Dropped;
    if x == [] {
      assert x + y == y;
    } else {
      TailOfConcat(x, y);
      ComparableConcat(x[1..], y, ignore);
    }
  }

  lemma ComparableCons(line: string, rest: seq<string>, ignore: Ignore)
    ensures Comparable([line] + rest, ignore) ==
            (if Dropped(line, ignore) then [] else [NormalLine(line, ignore)]) + Comparable(rest, ignore)
    ensures Comparable([], ignore) == []
  {
    hide NormalLine, Dropped;
    Prepended(line, rest);
  }

  /** A bound goes one line on, with or without a compared line. */
  lemma BoundStep(a: DiffInput, k: nat, n: nat, m: nat, end: nat, ignore: Ignore)
    requires Made(a, ignore) && Bound(a, k, n) && Bound(a, m, end) && k <= m && n < end
    ensures if Dropped(a.orig[n], ignore) then Bound(a, k, n + 1)
            else k < m && a.index[k] == n && Bound(a, k + 1, n + 1)
  {
    hide Dropped, NormalLine;
    if Dropped(a.orig[n], ignore) {
      assert k < |a.index| ==> a.index[k] in a.index;
    } else {
      var t :| 0 <= t < |a.index| && a.index[t] == n;
      assert t == k;
    }
  }

  lemma BoundsMeet(a: DiffInput, k: nat, m: nat, n: nat)
    requires a.Valid() && Bound(a, k, n) && Bound(a, m, n) && k <= m
    ensures k == m
  {
  }

  /** Between two bounds the original lines compare as the compared lines do. */
  lemma {:induction false} ComparableBetween(a: DiffInput, k: nat, n: nat, m: nat, end: nat, ignore: Ignore)
    requires Made(a, ignore) && Bound(a, k, n) && Bound(a, m, end) && k <= m && n <= end
    ensures Comparable(a.orig[n..end], ignore) == a.proc[k..m]
    decreases end - n
  {
    hide Made, Bound, Comparable, Dropped, NormalLine;
    MadeIs(a, ignore);
    BoundIs(a, k, n);
    BoundIs(a, m, end);
    if n == end {
      BoundsMeet(a, k, m, n);
      assert a.orig[n..end] == [] && a.proc[k..m] == [];
      ComparableCons("", [], ignore);
    } else {
      BoundStep(a, k, n, m, end, ignore);
      assert a.orig[n..end] == [a.orig[n]] + a.orig[n + 1..end];
      ComparableCons(a.orig[n], a.orig[n + 1..end], ignore);
      if Dropped(a.orig[n], ignore) {
        ComparableBetween(a, k, n + 1, m, end, ignore);
      } else {
        ComparableBetween(a, k + 1, n + 1, m, end, ignore);
        assert a.proc[k..m] == [a.proc[k]] + a.proc[k + 1..m];
      }
    }
  }

  lemma MadeIs(a: DiffInput, ignore: Ignore)
    requires Made(a, ignore)
    ensures a.Valid() && forall k :: 0 <= k < |a.index| ==>
              a.proc[k] == NormalLine(a.orig[a.index[k]], ignore) && !Dropped(a.orig[a.index[k]], ignore)
  {
    hide NormalLine, Dropped;
    forall k | 0 <= k < |a.index|
      ensures !Dropped(a.orig[a.index[k]], ignore)
    {
      assert a.index[k] in a.index;
    }
  }

  lemma BoundIs(a: DiffInput, k: nat, n: nat)
    requires a.Valid() && Bound(a, k, n)
    ensures k <= |a.index| && n <= |a.orig|
  {
  }

  lemma {:induction false} ComparableShown(a: DiffInput, from: nat, to: nat, ignore: Ignore)
    requires Made(a, ignore) && from <= to <= |a.index|
    ensures Comparable(Shown(a, from, to), ignore) == a.proc[from..to]
    decreases (to - from)
  {
    hide Made, Comparable, Dropped, NormalLine, Shown;
    MadeIs(a, ignore);
    if from == to {
      ShownNothing(a, from);
      ComparableCons("", [], ignore);
    } else {
      ShownOpens(a, from, to);
      ComparableShown(a, from + 1, to, ignore);
      ComparableCons(a.orig[a.index[from]], Shown(a, from + 1, to), ignore);
      assert a.proc[from..to] == [a.proc[from]] + a.proc[from + 1..to];
    }
  }

  /** What a chain of operations leaves compares as the new lines it spans. */
  lemma {:induction false} ComparableInside(ops: Group, i: nat, j: nat, a: DiffInput, b: DiffInput, ignore: Ignore)
    requires Made(a, ignore) && Made(b, ignore) && Chain(ops, i, j, a.proc, b.proc) && j <= |b.proc|
    ensures InRange(ops, a, b) && j <= LastNew(ops, j) <= |b.proc|
    ensures Comparable(Inside(ops, a, b), ignore) == b.proc[j..LastNew(ops, j)]
    decreases |ops|
  {
    hide Chain, Made, Comparable, Inside, Body, CountOld, CountNew, Dropped, NormalLine, Shown;
    MadeIs(a, ignore);
    MadeIs(b, ignore);
    CountBody(ops, i, j, a, b);
    if ops == [] {
      NothingInside(a, b);
      ComparableCons("", [], ignore);
    } else {
      var op, rest := ops[0], ops[1..];
      ChainOpens(ops, i, j, a.proc, b.proc);
      BodyOpens(ops, a, b);
      ComparableInside(rest, op.OldEnd(), op.NewEnd(), a, b, ignore);
      ComparableConcat(OpLines(op, a, b), Inside(rest, a, b), ignore);
      if op.Equal? {
        ComparableShown(a, op.oldIndex, op.OldEnd(), ignore);
      } else {
        ComparableShown(b, op.newIndex, op.NewEnd(), ignore);
      }
      SplitSlice(b.proc, j, op.NewEnd(), LastNew(ops, j));
    }
  }

  lemma NothingInside(a: DiffInput, b: DiffInput)
    requires a.Valid() && b.Valid()
    ensures InRange([], a, b) && Inside([], a, b) == []
  {
  }

  // ----- the file the patcher makes -----------------------------------------------------------------

  /**
   The header places the group: it spans an old line, or stands behind all compared lines, of which there
   is at most one, the first line of the file.
   */
  predicate Placed(g: Group, a: DiffInput)
    requires a.Valid()
  {
    g != [] && (SpanOld(g).0 < SpanOld(g).1 || (SpanOld(g).0 == |a.index| && Bound(a, |a.index|, 1)))
  }

  predicate AllPlaced(groups: seq<Group>, a: DiffInput)
    requires a.Valid()
  {
    groups == [] || (Placed(groups[0], a) && AllPlaced(groups[1..], a))
  }

  function Place(g: Group, a: DiffInput): nat
    requires a.Valid() && g != []
  {
    if SpanOld(g).0 < SpanOld(g).1 <= |a.index| then a.index[SpanOld(g).0] else 1
  }

  function Behind(g: Group, a: DiffInput): nat
    requires a.Valid() && g != []
  {
    if SpanOld(g).0 < SpanOld(g).1 <= |a.index| then a.index[SpanOld(g).1 - 1] + 1 else 1
  }

  function Between(lines: seq<string>, from: nat, to: nat): seq<string> {
    if from <= to <= |lines| then lines[from..to] else []
  }

  /** The old lines from `n` on with what each group leaves in its place. */
  function Result(groups: seq<Group>, n: nat, a: DiffInput, b: DiffInput): seq<string>
    requires a.Valid() && b.Valid() && GroupsInRange(groups, a, b)
  {
    if groups == [] then Between(a.orig, n, |a.orig|)
    else
      var g := groups[0];
      Between(a.orig, n, Place(g, a)) + Inside(g, a, b) + Result(groups[1..], Behind(g, a), a, b)
  }

  /** No line is dropped inside a hunk. */
  predicate AllContiguous(groups: seq<Group>, a: DiffInput, b: DiffInput)
    requires a.Valid() && b.Valid() && GroupsInRange(groups, a, b)
  {
    groups == [] ||
    (&& Contiguous(a, SpanOld(groups[0]).0, SpanOld(groups[0]).1)
     && Contiguous(b, SpanNew(groups[0]).0, SpanNew(groups[0]).1)
     && AllContiguous(groups[1..], a, b))
  }

  /** Every line that a hunk shows ends in a newline: the old lines it spans and those it leaves. */
  predicate AllShownAreEnded(groups: seq<Group>, a: DiffInput, b: DiffInput)
    requires a.Valid() && b.Valid() && GroupsInRange(groups, a, b)
  {
    groups == [] ||
    (var (from, end) := SpanOld(groups[0]);
     && from <= end && AllEnded(Shown(a, from, end)) && AllEnded(Inside(groups[0], a, b))
     && AllShownAreEnded(groups[1..], a, b))
  }

  /** Where a placed group stands among the original lines. */
  lemma PlaceBounds(g: Group, k: nat, n: nat, a: DiffInput)
    requires a.Valid() && Placed(g, a) && k <= SpanOld(g).0 <= SpanOld(g).1 <= |a.index| && Bound(a, k, n)
    requires n <= 1 || (k > 0 && n == a.index[k - 1] + 1)
    ensures n <= Place(g, a) <= |a.orig| && Bound(a, SpanOld(g).0, Place(g, a))
    ensures Behind(g, a) <= |a.orig| && Bound(a, SpanOld(g).1, Behind(g, a))
    ensures Behind(g, a) <= 1 || (SpanOld(g).1 > 0 && Behind(g, a) == a.index[SpanOld(g).1 - 1] + 1)
  {
  }

  /** What the patcher makes of a first hunk that is placed. */
  lemma PatchPlaced(g: Group, n: nat, a: DiffInput, b: DiffInput, more: seq<Hunk>)
    requires a.Valid() && b.Valid() && Placed(g, a) && Chain(g, g[0].oldIndex, g[0].newIndex, a.proc, b.proc)
    requires g[0].oldIndex <= |a.index| && n <= Place(g, a) <= |a.orig| && Behind(g, a) <= |a.orig|
    ensures InRange(g, a, b) && SpanOld(g).0 <= SpanOld(g).1
    ensures var rest := Patch(more, a.orig, Behind(g, a));
            Patch([HunkOf(g, a, b)] + more, a.orig, n) ==
            if !Contiguous(a, SpanOld(g).0, SpanOld(g).1) || !Contiguous(b, SpanNew(g).0, SpanNew(g).1)
               || !AllEnded(Shown(a, SpanOld(g).0, SpanOld(g).1)) || rest.None? then None
            else Some(a.orig[n..Place(g, a)] + EndedAll(Inside(g, a, b)) + rest.value)
  {
    hide Chain, ApplyBody, Body, CountOld, CountNew, AllEnded, EndedAll, Shown, Inside, Contiguous;
    var (from, end) := SpanOld(g);
    CountBody(g, g[0].oldIndex, g[0].newIndex, a, b);
    HeaderCountsBody(g, a, b);
    Prepended(HunkOf(g, a, b), more);
    if Contiguous(a, from, end) {
      ApplyChain(g, from, g[0].newIndex, a, b, Place(g, a));
      if from < end {
        ContiguousAt(a, from, end - 1, end);
      }
    }
  }

  lemma JoinParts(kept: seq<string>, out: seq<string>, left: seq<string>, x: seq<string>, y: seq<string>)
    requires |out| == |left|
    ensures kept + out + x == kept + left + y <==> out == left && x == y
  {
    var s, t := kept + out + x, kept + left + y;
    assert s[|kept|..|kept| + |out|] == out && t[|kept|..|kept| + |left|] == left;
    assert s[|kept| + |out|..] == x && t[|kept| + |left|..] == y;
  }

  lemma {:induction false} PatchGives(groups: seq<Group>, k: nat, j: nat, n: nat, a: DiffInput, b: DiffInput)
    requires a.Valid() && b.Valid() && ValidGroups(groups, k, j, a.proc, b.proc) && AllPlaced(groups, a)
    requires Bound(a, k, n) && (n <= 1 || (k > 0 && n == a.index[k - 1] + 1))
    ensures GroupsInRange(groups, a, b)
    ensures Patch(Hunks(groups, a, b), a.orig, n) == Some(Result(groups, n, a, b)) <==>
            AllContiguous(groups, a, b) && AllShownAreEnded(groups, a, b)
    decreases |groups|
  {
    hide Chain, HunkOf, Patch, AllEnded, EndedAll, Contiguous, Shown, Inside, Bound, Placed, Place, Behind;
    GroupsStayInRange(groups, k, j, a, b);
    BoundIs(a, k, n);
    if groups == [] {
      PatchEnds(a.orig, n);
    } else {
      var g, others := groups[0], groups[1..];
      var (from, end) := SpanOld(g);
      GroupSpans(g, a, b);
      PlaceBounds(g, k, n, a);
      var more := Hunks(others, a, b);
      PatchPlaced(g, n, a, b, more);
      PatchGives(others, end, SpanNew(g).1, Behind(g, a), a, b);
      EndedIsSame(Inside(g, a, b));
      var rest := Patch(more, a.orig, Behind(g, a));
      if rest.Some? {
        JoinParts(a.orig[n..Place(g, a)], EndedAll(Inside(g, a, b)), Inside(g, a, b), rest.value,
                  Result(others, Behind(g, a), a, b));
      }
    }
  }

  lemma PatchEnds(lines: seq<string>, n: nat)
    requires n <= |lines|
    ensures Patch([], lines, n) == Some(lines[n..]) && lines[n..] == lines[n..|lines|]
  {
  }

  lemma {:induction false} ResultCompares(groups: seq<Group>, k: nat, j: nat, n: nat, a: DiffInput, b: DiffInput,
                                          ignore: Ignore)
    requires Made(a, ignore) && Made(b, ignore)
    requires ValidGroups(groups, k, j, a.proc, b.proc) && AllPlaced(groups, a)
    requires Bound(a, k, n) && (n <= 1 || (k > 0 && n == a.index[k - 1] + 1))
    ensures GroupsInRange(groups, a, b) && j <= |b.proc|
    ensures Comparable(Result(groups, n, a, b), ignore) == b.proc[j..]
    decreases |groups|
  {
    hide Chain, Made, Comparable, Inside, Bound, Place, Behind, InRange, GroupsInRange, Result, ValidGroups, AllPlaced;
    MadeIs(a, ignore);
    MadeIs(b, ignore);
    GroupsStayInRange(groups, k, j, a, b);
    if groups == [] {
      NoneLeft(groups, k, j, n, a, b);
      ComparableBetween(a, k, n, |a.index|, |a.orig|, ignore);
    } else {
      var g, others := groups[0], groups[1..];
      FirstGroup(groups, k, j, n, a, b);
      var (from, end) := SpanOld(g);
      var (newFrom, newEnd) := SpanNew(g);
      var kept, inside, rest := a.orig[n..Place(g, a)], Inside(g, a, b), Result(others, Behind(g, a), a, b);
      ComparableBetween(a, k, n, from, Place(g, a), ignore);
      ComparableInside(g, from, newFrom, a, b, ignore);
      ResultCompares(others, end, newEnd, Behind(g, a), a, b, ignore);
      ComparableParts(kept, inside, rest, b.proc, j, newFrom, newEnd, ignore);
    }
  }

  lemma NoneLeft(groups: seq<Group>, k: nat, j: nat, n: nat, a: DiffInput, b: DiffInput)
    requires groups == [] && a.Valid() && b.Valid() && ValidGroups(groups, k, j, a.proc, b.proc) && Bound(a, k, n)
    ensures GroupsInRange(groups, a, b) && n <= |a.orig| && Result(groups, n, a, b) == a.orig[n..|a.orig|]
    ensures Bound(a, |a.index|, |a.orig|) && k <= |a.proc| && j <= |b.proc| && a.proc[k..|a.proc|] == b.proc[j..]
  {
  }

  /** The first group, where it is placed, and what is left. */
  lemma FirstGroup(groups: seq<Group>, k: nat, j: nat, n: nat, a: DiffInput, b: DiffInput)
    requires a.Valid() && b.Valid() && groups != []
    requires ValidGroups(groups, k, j, a.proc, b.proc) && AllPlaced(groups, a)
    requires Bound(a, k, n) && (n <= 1 || (k > 0 && n == a.index[k - 1] + 1))
    ensures GroupsInRange(groups, a, b) && groups[0] != []
    ensures var g, others := groups[0], groups[1..];
            var ((from, end), (newFrom, newEnd)) := (SpanOld(g), SpanNew(g));
            && InRange(g, a, b) && GroupsInRange(others, a, b)
            && Chain(g, from, newFrom, a.proc, b.proc)
            && k <= from <= end <= |a.index| && j <= newFrom <= newEnd <= |b.proc| == |b.index|
            && a.proc[k..from] == b.proc[j..newFrom]
            && ValidGroups(others, end, newEnd, a.proc, b.proc) && AllPlaced(others, a)
            && n <= Place(g, a) <= |a.orig| && Bound(a, from, Place(g, a)) && Bound(a, end, Behind(g, a))
            && (Behind(g, a) <= 1 || (end > 0 && Behind(g, a) == a.index[end - 1] + 1))
            && Result(groups, n, a, b) ==
               a.orig[n..Place(g, a)] + Inside(g, a, b) + Result(others, Behind(g, a), a, b)
  {
    hide Chain, Inside, Bound, Placed, Place, Behind;
    GroupsStayInRange(groups, k, j, a, b);
    GroupSpans(groups[0], a, b);
    PlaceBounds(groups[0], k, n, a);
  }

  lemma ComparableParts(x: seq<string>, y: seq<string>, z: seq<string>, proc: seq<string>, j: nat, m: nat, n: nat,
                        ignore: Ignore)
    requires j <= m <= n <= |proc| && Comparable(x, ignore) == proc[j..m]
    requires Comparable(y, ignore) == proc[m..n] && Comparable(z, ignore) == proc[n..]
    ensures Comparable(x + y + z, ignore) == proc[j..]
  {
    hide Comparable;
    ComparableConcat(x + y, z, ignore);
    ComparableConcat(x, y, ignore);
    SplitSlice(proc, j, m, n);
    SplitAtEnd(proc, j, n);
  }

  lemma SplitAtEnd(s: seq<string>, i: nat, j: nat)
    requires i <= j <= |s|
    ensures s[i..] == s[i..j] + s[j..]
  {
  }

  lemma AllBound(a: DiffInput)
    requires a.Valid()
    ensures Bound(a, |a.index|, |a.orig|)
  {
  }

  // ----- the theorem --------------------------------------------------------------------------------

  /**
   With or without ignore flags: if the headers place all groups, the patcher puts into the old file what
   the hunks show, exactly if no blank line is dropped inside a hunk and every line shown ends in a newline;
   and that file compares equal to the new one.
   */
  lemma IgnoringPatchesAlike(oldContent: string, newContent: string, ignore: Ignore, groups: seq<Group>)
    requires var a, b := Prepared(oldContent, ignore), Prepared(newContent, ignore);
             ValidGroups(groups, 0, 0, a.proc, b.proc) && AllPlaced(groups, a)
    ensures var a, b := Prepared(oldContent, ignore), Prepared(newContent, ignore);
            && GroupsInRange(groups, a, b)
            && (Patch(Hunks(groups, a, b), a.orig, 0) == Some(Result(groups, 0, a, b)) <==>
                AllContiguous(groups, a, b) && AllShownAreEnded(groups, a, b))
            && Comparable(Result(groups, 0, a, b), ignore) == b.proc == Comparable(b.orig, ignore)
  {
    hide Prepared, Patch, Hunks, Result, ValidGroups, AllPlaced, AllContiguous, AllShownAreEnded, Made, Comparable;
    var a, b := Prepared(oldContent, ignore), Prepared(newContent, ignore);
    PreparedIsMade(oldContent, ignore);
    PreparedIsMade(newContent, ignore);
    PatchGives(groups, 0, 0, 0, a, b);
    ResultCompares(groups, 0, 0, 0, a, b, ignore);
    AllBound(b);
    MadeIs(b, ignore);
    ComparableBetween(b, 0, 0, |b.index|, |b.orig|, ignore);
    assert b.proc[0..] == b.proc == b.proc[0..|b.index|] && b.orig[0..|b.orig|] == b.orig;
  }

  // ----- line by line ---------------------------------------------------------------------------------

  predicate From(lines: seq<string>, a: DiffInput, b: DiffInput) {
    forall k :: 0 <= k < |lines| ==> lines[k] in a.orig || lines[k] in b.orig
  }

  lemma FromConcat(x: seq<string>, y: seq<string>, a: DiffInput, b: DiffInput)
    requires From(x, a, b) && From(y, a, b)
    ensures From(x + y, a, b)
  {
  }

  lemma {:induction false} InsideIsFrom(ops: Group, a: DiffInput, b: DiffInput)
    requires a.Valid() && b.Valid() && InRange(ops, a, b)
    ensures From(Inside(ops, a, b), a, b)
  {
    if ops != [] {
      InsideIsFrom(ops[1..], a, b);
      OpIsFrom(ops[0], a, b);
      hide From, OpLines;
      FromConcat(OpLines(ops[0], a, b), Inside(ops[1..], a, b), a, b);
    }
  }

  lemma OpIsFrom(op: Op, a: DiffInput, b: DiffInput)
    requires a.Valid() && b.Valid() && op.OldEnd() <= |a.index| && op.NewEnd() <= |b.index|
    ensures From(OpLines(op, a, b), a, b)
  {
  }

  lemma {:induction false} ResultIsFrom(groups: seq<Group>, n: nat, a: DiffInput, b: DiffInput)
    requires a.Valid() && b.Valid() && GroupsInRange(groups, a, b)
    ensures From(Result(groups, n, a, b), a, b)
    decreases |groups|
  {
    hide Place, Behind, Inside;
    if groups != [] {
      var g := groups[0];
      var kept, rest := Between(a.orig, n, Place(g, a)), Result(groups[1..], Behind(g, a), a, b);
      ResultIsFrom(groups[1..], Behind(g, a), a, b);
      InsideIsFrom(g, a, b);
      assert From(kept, a, b);
      hide From, Between;
      FromConcat(kept, Inside(g, a, b), a, b);
      FromConcat(kept + Inside(g, a, b), rest, a, b);
    }
  }

  lemma {:induction false} NothingDropped(lines: seq<string>, ignore: Ignore)
    requires forall k :: 0 <= k < |lines| ==> !Dropped(lines[k], ignore)
    ensures |Comparable(lines, ignore)| == |lines|
    ensures forall k :: 0 <= k < |lines| ==> Comparable(lines, ignore)[k] == NormalLine(lines[k], ignore)
  {
    hide NormalLine, Dropped;
    if lines != [] {
      NothingDropped(lines[1..], ignore);
    }
  }

  /** Where no line of either file is dropped, the result agrees with the new file line by line. */
  lemma LineByLine(oldContent: string, newContent: string, ignore: Ignore, groups: seq<Group>)
    requires var a, b := Prepared(oldContent, ignore), Prepared(newContent, ignore);
             && ValidGroups(groups, 0, 0, a.proc, b.proc) && AllPlaced(groups, a)
             && forall line :: line in a.orig || line in b.orig ==> !Dropped(line, ignore)
    ensures var a, b := Prepared(oldContent, ignore), Prepared(newContent, ignore);
            && GroupsInRange(groups, a, b)
            && var r := Result(groups, 0, a, b);
               && |r| == |b.orig|
               && forall k :: 0 <= k < |r| ==> NormalLine(r[k], ignore) == NormalLine(b.orig[k], ignore)
  {
    hide Prepared, Patch, Hunks, Result, ValidGroups, AllPlaced, AllContiguous, AllShownAreEnded, Comparable, Dropped,
      NormalLine;
    var a, b := Prepared(oldContent, ignore), Prepared(newContent, ignore);
    IgnoringPatchesAlike(oldContent, newContent, ignore, groups);
    ResultIsFrom(groups, 0, a, b);
    NothingDropped(Result(groups, 0, a, b), ignore);
    NothingDropped(b.orig, ignore);
  }
}
