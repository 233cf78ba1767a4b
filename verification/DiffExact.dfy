/**
 When a unified diff can be patched back, hunks whose headers name the wrong line included: exactly
 when those only repeat the line they are put behind.
 */
module DiffExact {
  import opened Wrappers
  import opened Sequences
  import opened Diff
  import opened DiffPatch

  // ----- hunks that name the wrong line ---------------------------------------------------------

  /** A body without old lines adds the same lines wherever it is applied. */
  lemma {:induction false} OnlyAdds(body: seq<BodyLine>, lines: seq<string>, pos: nat, at: nat)
    requires CountOld(body) == 0
    ensures var r, s := ApplyBody(body, lines, pos), ApplyBody(body, lines, at);
            r.Some? && s.Some? && r.value.0 == s.value.0 && r.value.1 == pos && s.value.1 == at
  {
    if body != [] {
      OnlyAdds(body[1..], lines, pos, at);
    }
  }

  /** Where the header of a group leads that is not positioned. */
  function Misplaced(g: Group, p: seq<string>): nat
    requires g != []
  {
    if g[0].oldIndex < |p| then g[0].oldIndex + 1 else 1
  }

  lemma MisplacedHeader(g: Group, p: seq<string>, q: seq<string>)
    requires g != [] && !Positioned(g, p) && Chain(g, g[0].oldIndex, g[0].newIndex, p, q) && g[0].oldIndex <= |p|
    ensures InRange(g, Plain(p), Plain(q)) && SpanOld(g).0 == SpanOld(g).1 && SpanNew(g).0 <= SpanNew(g).1
    ensures var h := HunkOf(g, Plain(p), Plain(q));
            && Position(h) == Misplaced(g, p)
            && h.oldCount == CountOld(h.body) == 0 && h.newCount == CountNew(h.body)
            && h.body == Body(g, Plain(p), Plain(q))
  {
    hide Chain, Body, CountOld, CountNew;
    CountBody(g, g[0].oldIndex, g[0].newIndex, Plain(p), Plain(q));
  }

  /** What the patcher makes of a first hunk that is misplaced. */
  lemma PatchMisplaced(g: Group, i: nat, p: seq<string>, q: seq<string>, more: seq<Hunk>)
    requires g != [] && !Positioned(g, p) && Chain(g, g[0].oldIndex, g[0].newIndex, p, q)
    requires i <= g[0].oldIndex <= |p| && g[0].newIndex <= |q|
    ensures InRange(g, Plain(p), Plain(q))
    ensures SpanOld(g).0 == SpanOld(g).1 && SpanNew(g).0 <= SpanNew(g).1 <= |q|
    ensures var at := Misplaced(g, p);
            Patch([HunkOf(g, Plain(p), Plain(q))] + more, p, i) ==
            if !(i <= at <= |p|) || Patch(more, p, at).None? then None
            else Some(p[i..at] + EndedAll(q[SpanNew(g).0..SpanNew(g).1]) + Patch(more, p, at).value)
  {
    hide ApplyBody, Body, CountOld, CountNew, AllEnded, EndedAll, Chain, HunkOf, Position;
    ApplyPlain(g, g[0].oldIndex, g[0].newIndex, p, q);
    MisplacedHeader(g, p, q);
    var h := HunkOf(g, Plain(p), Plain(q));
    var at := Misplaced(g, p);
    OnlyAdds(h.body, p, g[0].oldIndex, at);
    Prepended(h, more);
  }

  // ----- the exact condition ----------------------------------------------------------------------

  /** A line in front of some lines and behind them comes to the same. */
  predicate Repeats(lines: seq<string>, line: string) {
    forall k :: 0 <= k < |lines| ==> lines[k] == line
  }

  /**
   A misplaced hunk does no harm if it repeats the old line that it is put behind, or, at the end of the
   file, if its lines and all but the first commute. The patcher stands at `pos`.
   */
  ghost predicate Restores(groups: seq<Group>, pos: nat, p: seq<string>, q: seq<string>)
    decreases |groups|
  {
    groups == [] ||
    (var g, others := groups[0], groups[1..];
     && g != [] && SpanNew(g).0 <= SpanNew(g).1 <= |q|
     && var added := q[SpanNew(g).0..SpanNew(g).1];
        if Positioned(g, p) then Restores(others, SpanOld(g).1, p, q)
        else if g[0].oldIndex < |p| then
          Repeats(added, p[g[0].oldIndex]) && Restores(others, g[0].oldIndex + 1, p, q)
        else p != [] && pos <= 1 && added + p[1..] == p[1..] + added)
  }

  /** An unchanged line follows each group that spans no old line, unless it is the last. */
  predicate Apart(groups: seq<Group>, p: seq<string>) {
    |groups| <= 1 ||
    (&& groups[0] != [] && groups[1] != []
     && (Positioned(groups[0], p) || SpanOld(groups[0]).1 < groups[1][0].oldIndex)
     && Apart(groups[1..], p))
  }

  lemma {:induction false} EndedAt(lines: seq<string>, k: nat)
    requires k < |lines|
    ensures EndedAll(lines)[k] == Ended(lines[k])
    ensures AllEnded(lines) ==> EndsLine(lines[k])
  {
    if k > 0 {
      EndedAt(lines[1..], k - 1);
    }
  }

  lemma Shifted(lines: seq<string>, line: string, k: nat)
    requires [line] + EndedAll(lines) == lines + [line] && k < |lines|
    ensures lines[0] == line && Ended(lines[k]) == if k + 1 < |lines| then lines[k + 1] else line
  {
    hide EndedAll, Ended;
    EndedAt(lines, k);
    var x, y := [line] + EndedAll(lines), lines + [line];
    assert x[0] == line && y[0] == lines[0] && x[k + 1] == EndedAll(lines)[k];
  }

  lemma {:induction false} ShiftedRepeats(lines: seq<string>, line: string, k: nat)
    requires [line] + EndedAll(lines) == lines + [line] && k < |lines|
    ensures lines[k] == line && EndsLine(line)
  {
    hide EndedAll;
    Shifted(lines, line, |lines| - 1);
    if k > 0 {
      ShiftedRepeats(lines, line, k - 1);
      Shifted(lines, line, k - 1);
    }
  }

  lemma {:induction false} EndedIfRepeated(lines: seq<string>, line: string)
    requires Repeats(lines, line) && (lines == [] || EndsLine(line))
    ensures AllEnded(lines)
  {
    if lines != [] {
      EndedIfRepeated(lines[1..], line);
    }
  }

  lemma EndedRepeats(lines: seq<string>, line: string)
    ensures [line] + EndedAll(lines) == lines + [line] <==> AllEnded(lines) && Repeats(lines, line)
  {
    hide EndedAll, AllEnded;
    if [line] + EndedAll(lines) == lines + [line] {
      forall k | 0 <= k < |lines|
        ensures lines[k] == line && EndsLine(line)
      {
        ShiftedRepeats(lines, line, k);
      }
      if lines != [] {
        ShiftedRepeats(lines, line, 0);
      }
      EndedIfRepeated(lines, line);
    }
    if AllEnded(lines) && Repeats(lines, line) {
      EndedIsSame(lines);
      RepeatedCommutes(lines, line);
    }
  }

  lemma RepeatedCommutes(lines: seq<string>, line: string)
    requires Repeats(lines, line)
    ensures [line] + lines == lines + [line]
  {
    var x, y := [line] + lines, lines + [line];
    assert forall k :: 0 <= k < |x| ==> x[k] == line && y[k] == line;
  }

  function CountOpen(lines: seq<string>): nat {
    if lines == [] then 0 else (if EndsLine(lines[0]) then 0 else 1) + CountOpen(lines[1..])
  }

  lemma {:induction false} OpenConcat(x: seq<string>, y: seq<string>)
    ensures CountOpen(x + y) == CountOpen(x) + CountOpen(y)
  {
    if x == [] {
      assert x + y == y;
    } else {
      TailOfConcat(x, y);
      OpenConcat(x[1..], y);
    }
  }

  lemma {:induction false} OpenNone(lines: seq<string>)
    ensures CountOpen(lines) == 0 <==> AllEnded(lines)
    ensures CountOpen(EndedAll(lines)) == 0
  {
    if lines != [] {
      OpenNone(lines[1..]);
      EndedCons(lines[0], lines[1..]);
      Prepended(Ended(lines[0]), EndedAll(lines[1..]));
    }
  }

  /** Ending the lines makes no difference if they are to commute with others. */
  lemma EndedCommutes(lines: seq<string>, others: seq<string>)
    ensures EndedAll(lines) + others == others + lines <==> AllEnded(lines) && lines + others == others + lines
  {
    hide EndedAll, AllEnded, CountOpen;
    OpenConcat(EndedAll(lines), others);
    OpenConcat(others, lines);
    OpenNone(lines);
    EndedIsSame(lines);
  }

  // ----- the theorem ------------------------------------------------------------------------------

  /** Behind a line that both files go on with, the script is still valid. */
  lemma StepPast(groups: seq<Group>, i: nat, j: nat, p: seq<string>, q: seq<string>)
    requires ValidGroups(groups, i, j, p, q) && i < |p| && j <= |q|
    requires groups != [] ==> groups[0] != [] && i < groups[0][0].oldIndex
    ensures j < |q| && p[i] == q[j] && ValidGroups(groups, i + 1, j + 1, p, q)
  {
    if groups == [] {
      SameHead(p[i..], q[j..]);
      DropMore(p, i, 1);
      DropMore(q, j, 1);
    } else {
      var (from, newFrom) := (groups[0][0].oldIndex, groups[0][0].newIndex);
      SameHead(p[i..from], q[j..newFrom]);
      assert p[i + 1..from] == p[i..from][1..] && q[j + 1..newFrom] == q[j..newFrom][1..];
    }
  }

  lemma SameHead(x: seq<string>, y: seq<string>)
    requires x == y && x != []
    ensures y != [] && x[0] == y[0]
  {
  }

  /** As `JoinNew`, where a line that both files have is put in front of what is added. */
  lemma JoinLate(q: seq<string>, j: nat, from: nat, to: nat, kept: seq<string>, line: string, out: seq<string>,
                 rest: seq<string>)
    requires j <= from <= to < |q| && kept == q[j..from] && q[to] == line && |out| == to - from
    ensures kept + [line] + out + rest == q[j..] <==> [line] + out == q[from..to] + [line] && rest == q[to + 1..]
  {
    Associates(kept, [line], out);
    SliceSnoc(q, from, to);
    JoinNew(q, j, from, to + 1, kept, [line] + out, Some(rest));
  }

  /** A misplaced hunk inside the file. */
  lemma InsideExact(groups: seq<Group>, i: nat, j: nat, p: seq<string>, q: seq<string>)
    requires ValidGroups(groups, i, j, p, q) && Apart(groups, p) && i <= |p| && j <= |q|
    requires groups != [] && !Positioned(groups[0], p) && groups[0][0].oldIndex < |p|
    requires var others, s := groups[1..], groups[0][0].oldIndex + 1;
             && GroupsInRange(others, Plain(p), Plain(q)) && SpanNew(groups[0]).1 < |q|
             && (Patch(Hunks(others, Plain(p), Plain(q)), p, s) == Some(q[SpanNew(groups[0]).1 + 1..]) <==>
                 AllShownEnded(others, p, q) && Restores(others, s, p, q))
             && p[groups[0][0].oldIndex] == q[SpanNew(groups[0]).1]
    ensures GroupsInRange(groups, Plain(p), Plain(q))
    ensures Patch(Hunks(groups, Plain(p), Plain(q)), p, i) == Some(q[j..]) <==>
            AllShownEnded(groups, p, q) && Restores(groups, i, p, q)
  {
    hide Chain, AllEnded, EndedAll, HunkOf, Patch, Repeats, Restores, AllShownEnded, Positioned, InRange, Plain;
    PlainInRange(groups, i, j, p, q);
    var g, others := groups[0], groups[1..];
    var from := g[0].oldIndex;
    var (newFrom, newEnd) := SpanNew(g);
    var more := Hunks(others, Plain(p), Plain(q));
    PatchMisplaced(g, i, p, q, more);
    InsideOpens(groups, i, p, q);
    var added := q[newFrom..newEnd];
    EndedRepeats(added, p[from]);
    SliceSnoc(p, i, from);
    var rest := Patch(more, p, from + 1);
    if rest.Some? {
      JoinLate(q, j, newFrom, newEnd, p[i..from], p[from], EndedAll(added), rest.value);
    }
  }

  /** What is asked of a misplaced hunk inside the file, and of the rest. */
  lemma InsideOpens(groups: seq<Group>, i: nat, p: seq<string>, q: seq<string>)
    requires groups != [] && groups[0] != [] && !Positioned(groups[0], p) && groups[0][0].oldIndex < |p|
    requires SpanOld(groups[0]).0 == SpanOld(groups[0]).1
    requires SpanNew(groups[0]).0 <= SpanNew(groups[0]).1 <= |q|
    ensures var g, others := groups[0], groups[1..];
            var added := q[SpanNew(g).0..SpanNew(g).1];
            AllShownEnded(groups, p, q) && Restores(groups, i, p, q) <==>
            AllEnded(added) && Repeats(added, p[g[0].oldIndex]) && AllShownEnded(others, p, q)
            && Restores(others, g[0].oldIndex + 1, p, q)
  {
    hide AllEnded, Repeats;
    EndedNone();
    assert p[SpanOld(groups[0]).0..SpanOld(groups[0]).1] == [];
  }

  /** A misplaced hunk at the end of the file. */
  lemma EndExact(groups: seq<Group>, i: nat, j: nat, p: seq<string>, q: seq<string>)
    requires ValidGroups(groups, i, j, p, q) && i <= |p| && j <= |q|
    requires |groups| == 1 && !Positioned(groups[0], p) && groups[0][0].oldIndex == |p|
    ensures GroupsInRange(groups, Plain(p), Plain(q))
    ensures Patch(Hunks(groups, Plain(p), Plain(q)), p, i) == Some(q[j..]) <==>
            AllShownEnded(groups, p, q) && Restores(groups, i, p, q)
  {
    hide Chain, AllEnded, EndedAll, HunkOf, Patch;
    PlainInRange(groups, i, j, p, q);
    var g := groups[0];
    var none: seq<Group> := [];
    assert groups[1..] == none;
    var (newFrom, newEnd) := SpanNew(g);
    PatchMisplaced(g, i, p, q, []);
    var added := q[newFrom..newEnd];
    PatchNothing(p);
    EndedNone();
    assert p[SpanOld(g).0..SpanOld(g).1] == [];
    assert p[|p|..] == [] && q[newEnd..] == [];
    if i <= 1 <= |p| {
      EndedCommutes(added, p[1..]);
      EndJoin(q, j, newFrom, p, i, added, EndedAll(added));
    }
  }

  lemma EndJoin(q: seq<string>, j: nat, from: nat, p: seq<string>, i: nat, added: seq<string>, out: seq<string>)
    requires i <= 1 <= |p| && j <= from <= |q| && p[i..] == q[j..from] && q[from..] == added && |out| == |added|
    ensures p[i..1] + out + p[1..] == q[j..] <==> out + p[1..] == p[1..] + added
  {
    assert q[j..] == q[j..from] + q[from..];
    assert p[i..] == p[i..1] + p[1..];
    Associates(p[i..1], out, p[1..]);
    Associates(p[i..1], p[1..], added);
    SamePrefix(p[i..1], out + p[1..], p[1..] + added);
  }

  lemma SamePrefix(x: seq<string>, y: seq<string>, z: seq<string>)
    ensures x + y == x + z <==> y == z
  {
    assert (x + y)[|x|..] == y && (x + z)[|x|..] == z;
  }

  lemma PatchNothing(lines: seq<string>)
    ensures forall pos: nat :: pos <= |lines| ==> Patch([], lines, pos) == Some(lines[pos..])
  {
  }

  lemma {:induction false} PatchFrom(groups: seq<Group>, i: nat, j: nat, p: seq<string>, q: seq<string>)
    requires ValidGroups(groups, i, j, p, q) && Apart(groups, p) && i <= |p| && j <= |q|
    ensures GroupsInRange(groups, Plain(p), Plain(q))
    ensures Patch(Hunks(groups, Plain(p), Plain(q)), p, i) == Some(q[j..]) <==>
            AllShownEnded(groups, p, q) && Restores(groups, i, p, q)
    decreases |groups|
  {
    hide Chain, Patch, Restores, AllShownEnded, Hunks, GroupsInRange, InRange, ValidGroups, Apart, Positioned, Plain;
    if groups == [] {
      NoGroups(i, j, p, q);
    } else {
      var g, others := groups[0], groups[1..];
      ScriptOpens(groups, i, j, p, q);
      ChainEndsInside(g, p, q);
      if Positioned(g, p) {
        PatchFrom(others, SpanOld(g).1, SpanNew(g).1, p, q);
        PositionedExact(groups, i, j, p, q);
      } else if g[0].oldIndex < |p| {
        SpansNothing(g, p);
        StepPast(others, g[0].oldIndex, SpanNew(g).1, p, q);
        PatchFrom(others, g[0].oldIndex + 1, SpanNew(g).1 + 1, p, q);
        InsideExact(groups, i, j, p, q);
      } else {
        SpansNothing(g, p);
        NothingBehind(others, SpanOld(g).1, SpanNew(g).1, p, q);
        EndExact(groups, i, j, p, q);
      }
    }
  }

  lemma SpansNothing(g: Group, p: seq<string>)
    requires g != [] && !Positioned(g, p) && SpanOld(g).0 <= SpanOld(g).1
    ensures SpanOld(g).0 == SpanOld(g).1
  {
  }

  lemma NoGroups(i: nat, j: nat, p: seq<string>, q: seq<string>)
    requires ValidGroups([], i, j, p, q)
    ensures GroupsInRange([], Plain(p), Plain(q)) && Hunks([], Plain(p), Plain(q)) == []
    ensures i <= |p| && j <= |q| && Patch([], p, i) == Some(q[j..])
    ensures AllShownEnded([], p, q) && Restores([], i, p, q)
  {
  }

  lemma ScriptOpens(groups: seq<Group>, i: nat, j: nat, p: seq<string>, q: seq<string>)
    requires groups != [] && ValidGroups(groups, i, j, p, q) && Apart(groups, p)
    ensures var g, others := groups[0], groups[1..];
            && g != [] && i <= g[0].oldIndex <= |p| && j <= g[0].newIndex <= |q|
            && Chain(g, g[0].oldIndex, g[0].newIndex, p, q)
            && ValidGroups(others, SpanOld(g).1, SpanNew(g).1, p, q) && Apart(others, p)
            && (others != [] ==>
                  others[0] != [] && (Positioned(g, p) || SpanOld(g).1 < others[0][0].oldIndex))
  {
    hide Chain, Positioned;
  }

  lemma NothingBehind(groups: seq<Group>, i: nat, j: nat, p: seq<string>, q: seq<string>)
    requires ValidGroups(groups, i, j, p, q) && i == |p|
    requires groups != [] ==> groups[0] != [] && i < groups[0][0].oldIndex
    ensures groups == []
  {
    hide Chain;
  }

  lemma ChainEndsInside(g: Group, p: seq<string>, q: seq<string>)
    requires g != [] && Chain(g, g[0].oldIndex, g[0].newIndex, p, q)
    ensures InRange(g, Plain(p), Plain(q))
    ensures SpanOld(g).0 <= SpanOld(g).1 <= |p| && SpanNew(g).0 <= SpanNew(g).1 <= |q|
  {
    hide Chain;
    GroupSpans(g, Plain(p), Plain(q));
  }

  lemma PositionedExact(groups: seq<Group>, i: nat, j: nat, p: seq<string>, q: seq<string>)
    requires ValidGroups(groups, i, j, p, q) && i <= |p| && j <= |q|
    requires groups != [] && Positioned(groups[0], p) && SpanOld(groups[0]).1 <= |p| && SpanNew(groups[0]).1 <= |q|
    requires var others, end := groups[1..], SpanOld(groups[0]).1;
             && GroupsInRange(others, Plain(p), Plain(q))
             && (Patch(Hunks(others, Plain(p), Plain(q)), p, end) == Some(q[SpanNew(groups[0]).1..]) <==>
                 AllShownEnded(others, p, q) && Restores(others, end, p, q))
    ensures GroupsInRange(groups, Plain(p), Plain(q))
    ensures Patch(Hunks(groups, Plain(p), Plain(q)), p, i) == Some(q[j..]) <==>
            AllShownEnded(groups, p, q) && Restores(groups, i, p, q)
  {
    hide Chain, AllEnded, EndedAll, HunkOf, Patch;
    PlainInRange(groups, i, j, p, q);
    var g := groups[0];
    var (from, end) := SpanOld(g);
    var (newFrom, newEnd) := SpanNew(g);
    var more := Hunks(groups[1..], Plain(p), Plain(q));
    PatchHunk(g, i, p, q, more);
    EndedIsSame(q[newFrom..newEnd]);
    JoinNew(q, j, newFrom, newEnd, p[i..from], EndedAll(q[newFrom..newEnd]), Patch(more, p, end));
  }

  /**
   Patching back, for every valid edit script: applying the hunks at the positions their headers give to
   the old lines gives exactly the new lines if and only if every line shown in a hunk ends in a newline
   and the hunks that are misplaced do no harm.
   */
  lemma PatchBackIsExact(groups: seq<Group>, p: seq<string>, q: seq<string>)
    requires ValidGroups(groups, 0, 0, p, q) && Apart(groups, p)
    ensures GroupsInRange(groups, Plain(p), Plain(q))
    ensures Patch(Hunks(groups, Plain(p), Plain(q)), p, 0) == Some(q) <==>
            AllShownEnded(groups, p, q) && Restores(groups, 0, p, q)
  {
    PatchFrom(groups, 0, 0, p, q);
    assert q[0..] == q;
  }

  /** Positioned hunks, in particular all with context to an old file that is not empty, do no harm. */
  lemma {:induction false} PositionedRestores(groups: seq<Group>, i: nat, j: nat, p: seq<string>, q: seq<string>)
    requires ValidGroups(groups, i, j, p, q) && AllPositioned(groups, p)
    ensures Apart(groups, p) && Restores(groups, i, p, q)
    decreases |groups|
  {
    hide Chain, Positioned;
    if groups != [] {
      ChainEndsInside(groups[0], p, q);
      PositionedRestores(groups[1..], SpanOld(groups[0]).1, SpanNew(groups[0]).1, p, q);
    }
  }

  lemma PatchRestoresNew(groups: seq<Group>, p: seq<string>, q: seq<string>)
    requires ValidGroups(groups, 0, 0, p, q) && AllPositioned(groups, p)
    ensures GroupsInRange(groups, Plain(p), Plain(q))
    ensures Patch(Hunks(groups, Plain(p), Plain(q)), p, 0) == Some(q) <==> AllShownEnded(groups, p, q)
  {
    hide Restores, Apart, Hunks;
    PositionedRestores(groups, 0, 0, p, q);
    PatchBackIsExact(groups, p, q);
  }

  // ----- a single hunk ----------------------------------------------------------------------------

  /**
   A hunk that spans no old line, anywhere before the end of the file, is reported one line too far: the
   patcher adds its lines after the line that they should stand before. That comes to the same only if
   they repeat it.
   */
  lemma ZeroContextMisplaces(g: Group, p: seq<string>, q: seq<string>)
    requires g != [] && Chain(g, g[0].oldIndex, g[0].newIndex, p, q) && g[0].newIndex <= |q|
    requires SpanOld(g).0 == SpanOld(g).1 && g[0].oldIndex < |p|
    ensures InRange(g, Plain(p), Plain(q)) && SpanNew(g).0 <= SpanNew(g).1 <= |q|
    ensures var s, added := g[0].oldIndex, q[SpanNew(g).0..SpanNew(g).1];
            && Patch([HunkOf(g, Plain(p), Plain(q))], p, 0) == Some(p[..s + 1] + EndedAll(added) + p[s + 1..])
            && (p[..s + 1] + EndedAll(added) + p[s + 1..] == p[..s] + added + p[s..] <==>
                AllEnded(added) && Repeats(added, p[s]))
  {
    hide Chain, EndedAll, AllEnded, Repeats, HunkOf, Patch;
    var s := g[0].oldIndex;
    ChainEndsInside(g, p, q);
    var added := q[SpanNew(g).0..SpanNew(g).1];
    PatchSingle(g, p, q);
    EndedRepeats(added, p[s]);
    OneLineLate(p, s, added, EndedAll(added));
  }

  lemma PatchSingle(g: Group, p: seq<string>, q: seq<string>)
    requires g != [] && !Positioned(g, p) && Chain(g, g[0].oldIndex, g[0].newIndex, p, q)
    requires g[0].oldIndex <= |p| && g[0].newIndex <= |q|
    ensures InRange(g, Plain(p), Plain(q)) && SpanNew(g).0 <= SpanNew(g).1 <= |q|
    ensures var at := Misplaced(g, p);
            Patch([HunkOf(g, Plain(p), Plain(q))], p, 0) ==
            if at > |p| then None else Some(p[..at] + EndedAll(q[SpanNew(g).0..SpanNew(g).1]) + p[at..])
  {
    hide Chain, EndedAll, HunkOf, Patch, Positioned;
    PatchMisplaced(g, 0, p, q, []);
    PatchNothing(p);
    var h := HunkOf(g, Plain(p), Plain(q));
    assert [h] + [] == [h];
    if Misplaced(g, p) <= |p| {
      assert p[0..Misplaced(g, p)] == p[..Misplaced(g, p)];
    }
  }

  lemma OneLineLate(p: seq<string>, s: nat, added: seq<string>, out: seq<string>)
    requires s < |p| && |out| == |added|
    ensures p[..s + 1] + out + p[s + 1..] == p[..s] + added + p[s..] <==> [p[s]] + out == added + [p[s]]
  {
    assert p[..s + 1] == p[..s] + [p[s]] && p[s..] == [p[s]] + p[s + 1..];
    var x, y := p[..s + 1] + out + p[s + 1..], p[..s] + added + p[s..];
    assert x == p[..s] + (([p[s]] + out) + p[s + 1..]) && y == p[..s] + ((added + [p[s]]) + p[s + 1..]);
    SamePrefix(p[..s], ([p[s]] + out) + p[s + 1..], (added + [p[s]]) + p[s + 1..]);
    SameSuffix([p[s]] + out, added + [p[s]], p[s + 1..]);
  }

  lemma SameSuffix(x: seq<string>, y: seq<string>, z: seq<string>)
    requires |x| == |y|
    ensures x + z == y + z <==> x == y
  {
    assert (x + z)[..|x|] == x && (y + z)[..|y|] == y;
  }

  /** Against an empty old file the header says line 1, which does not exist: no diff can be patched back. */
  lemma EmptyOldFileFails(g: Group, q: seq<string>)
    requires g != [] && Chain(g, 0, 0, [], q)
    ensures InRange(g, Plain([]), Plain(q)) && !Positioned(g, [])
    ensures var h := HunkOf(g, Plain([]), Plain(q));
            Position(h) == 1 && Patch([h], [], 0) == None
  {
    hide Chain, HunkOf, Patch, EndedAll, Position;
    ChainOpens(g, 0, 0, [], q);
    ChainEndsInside(g, [], q);
    MisplacedHeader(g, [], q);
    PatchSingle(g, [], q);
  }
}
