/**
 A patcher for unified diffs, and what it makes of one hunk at the position that its header gives.
 */
module DiffPatch {
  import opened Wrappers
  import opened Sequences
  import opened Diff

  // ----- the patcher ----------------------------------------------------------------------------

  /** Applies body lines at `pos`; context and removed lines must be there. */
  function ApplyBody(body: seq<BodyLine>, lines: seq<string>, pos: nat): (r: Option<(seq<string>, nat)>)
    ensures r.Some? ==> pos <= r.value.1 && (pos <= |lines| ==> r.value.1 <= |lines|)
  {
    if body == [] then Some(([], pos))
    else
      var line := body[0];
      if line.tag.Added? then
        var rest := ApplyBody(body[1..], lines, pos);
        if rest.None? then None else Some(([line.text] + rest.value.0, rest.value.1))
      else if pos >= |lines| || lines[pos] != line.text then None
      else
        var rest := ApplyBody(body[1..], lines, pos + 1);
        if rest.None? || line.tag.Removed? then rest
        else Some(([line.text] + rest.value.0, rest.value.1))
  }

  function CountOld(body: seq<BodyLine>): nat {
    if body == [] then 0 else (if body[0].tag.Added? then 0 else 1) + CountOld(body[1..])
  }

  function CountNew(body: seq<BodyLine>): nat {
    if body == [] then 0 else (if body[0].tag.Removed? then 0 else 1) + CountNew(body[1..])
  }

  /** The old lines before a hunk; a hunk without old lines names the line it follows. */
  function Position(h: Hunk): int {
    if h.oldCount == 0 then h.oldStart else h.oldStart - 1
  }

  /** Applies hunks to the lines from `pos` on. */
  function Patch(hunks: seq<Hunk>, lines: seq<string>, pos: nat): Option<seq<string>>
    requires pos <= |lines|
    decreases |hunks|
  {
    if hunks == [] then Some(lines[pos..])
    else
      var h := hunks[0];
      var at := Position(h);
      if !(pos <= at <= |lines|) || CountOld(h.body) != h.oldCount || CountNew(h.body) != h.newCount then None
      else
        var out := ApplyBody(h.body, lines, at);
        if out.None? then None
        else
          var rest := Patch(hunks[1..], lines, out.value.1);
          if rest.None? then None else Some(lines[pos..at] + out.value.0 + rest.value)
  }

  // ----- bodies ---------------------------------------------------------------------------------

  lemma {:induction false} CountConcat(x: seq<BodyLine>, y: seq<BodyLine>)
    ensures CountOld(x + y) == CountOld(x) + CountOld(y)
    ensures CountNew(x + y) == CountNew(x) + CountNew(y)
  {
    if x == [] {
      assert x + y == y;
    } else {
      CountConcat(x[1..], y);
      assert (x + y)[1..] == x[1..] + y;
    }
  }

  lemma {:induction false} CountTagged(tag: Tag, a: DiffInput, from: nat, to: nat)
    requires a.Valid() && from <= to <= |a.index|
    ensures CountOld(TagLines(tag, a, from, to)) == if tag.Added? then 0 else to - from
    ensures CountNew(TagLines(tag, a, from, to)) == if tag.Removed? then 0 else to - from
    decreases (to - from)
  {
    if from < to {
      CountTagged(tag, a, from + 1, to);
      assert TagLines(tag, a, from, to)[1..] == TagLines(tag, a, from + 1, to);
    }
  }

  function LastOld(ops: Group, i: nat): nat {
    if ops == [] then i else ops[|ops| - 1].OldEnd()
  }

  function LastNew(ops: Group, j: nat): nat {
    if ops == [] then j else ops[|ops| - 1].NewEnd()
  }

  /** The body holds one line for each old and each new line its operations span. */
  lemma {:induction false} CountBody(ops: Group, i: nat, j: nat, a: DiffInput, b: DiffInput)
    requires a.Valid() && b.Valid() && Chain(ops, i, j, a.proc, b.proc)
    ensures InRange(ops, a, b) && i <= LastOld(ops, i) && j <= LastNew(ops, j)
    ensures CountOld(Body(ops, a, b)) == LastOld(ops, i) - i
    ensures CountNew(Body(ops, a, b)) == LastNew(ops, j) - j
  {
    if ops != [] {
      var op := ops[0];
      CountBody(ops[1..], op.OldEnd(), op.NewEnd(), a, b);
      forall k | 0 <= k < |ops|
        ensures ops[k].OldEnd() <= |a.index| && ops[k].NewEnd() <= |b.index|
      {
        if k > 0 {
          assert ops[k] == ops[1..][k - 1];
        }
      }
      CountOp(op, a, b);
      CountConcat(OpBody(op, a, b), Body(ops[1..], a, b));
    }
  }

  lemma CountOp(op: Op, a: DiffInput, b: DiffInput)
    requires a.Valid() && b.Valid() && op.OldEnd() <= |a.index| && op.NewEnd() <= |b.index|
    ensures CountOld(OpBody(op, a, b)) == op.OldSize()
    ensures CountNew(OpBody(op, a, b)) == op.NewSize()
  {
    CountTagged(Context, a, op.oldIndex, op.OldEnd());
    CountTagged(Removed, a, op.oldIndex, op.OldEnd());
    CountTagged(Added, b, op.newIndex, op.NewEnd());
    CountConcat(TagLines(Removed, a, op.oldIndex, op.OldEnd()), TagLines(Added, b, op.newIndex, op.NewEnd()));
  }

  /** No original line is skipped between the compared lines `from` to `to`. */
  predicate Contiguous(a: DiffInput, from: nat, to: nat)
    requires a.Valid() && to <= |a.index|
  {
    forall k :: from < k < to ==> a.index[k] == a.index[k - 1] + 1
  }

  lemma {:induction false} SpanOfIndices(a: DiffInput, from: nat, to: nat)
    requires a.Valid() && from < to <= |a.index|
    ensures a.index[to - 1] - a.index[from] >= to - 1 - from
    ensures a.index[to - 1] - a.index[from] == to - 1 - from <==> Contiguous(a, from, to)
    decreases (to - from)
  {
    if to - from > 1 {
      SpanOfIndices(a, from, to - 1);
    }
  }

  lemma HeaderCountExact(a: DiffInput, from: nat, to: nat)
    requires a.Valid() && from <= to <= |a.index|
    ensures HeaderCount(a, from, to) == to - from <==> Contiguous(a, from, to)
  {
    if from < to {
      SpanOfIndices(a, from, to);
    }
  }

  /**
   A hunk header counts exactly the lines of its body unless a blank line was left out of the
   comparison inside the hunk.
   */
  lemma HeaderCountsBody(g: Group, a: DiffInput, b: DiffInput)
    requires a.Valid() && b.Valid() && g != [] && Chain(g, g[0].oldIndex, g[0].newIndex, a.proc, b.proc)
    ensures InRange(g, a, b)
    ensures var h := HunkOf(g, a, b);
            && (h.oldCount == CountOld(h.body) <==> Contiguous(a, g[0].oldIndex, g[|g| - 1].OldEnd()))
            && (h.newCount == CountNew(h.body) <==> Contiguous(b, g[0].newIndex, g[|g| - 1].NewEnd()))
  {
    hide Body, Chain, CountOld, CountNew, HeaderCount, Contiguous;
    CountBody(g, g[0].oldIndex, g[0].newIndex, a, b);
    HeaderCountExact(a, g[0].oldIndex, g[|g| - 1].OldEnd());
    HeaderCountExact(b, g[0].newIndex, g[|g| - 1].NewEnd());
  }

  // ----- files compared as they are ----------------------------------------------------------------

  /** Every line is compared, as it is: no ignore flag is in force. */
  function Plain(lines: seq<string>): (a: DiffInput)
    ensures a.Valid()
  {
    DiffInput(lines, lines, seq(|lines|, (k: nat) => k))
  }

  lemma {:induction false} ComparedAll(orig: seq<string>, i: nat, ignore: Ignore)
    requires i <= |orig| && !ignore.active
    ensures Compared(orig, i, ignore) == seq(|orig| - i, k requires k >= 0 => i + k)
    decreases |orig| - i
  {
    if i < |orig| {
      ComparedAll(orig, i + 1, ignore);
    }
  }

  lemma NoFlagsIsPlain(content: string, ignore: Ignore)
    requires !ignore.active
    ensures Prepared(content, ignore) == Plain(SplitInclusive(content))
  {
    ComparedAll(SplitInclusive(content), 0, ignore);
    assert Prepared(content, ignore).index == Plain(SplitInclusive(content)).index;
  }

  predicate AllEnded(lines: seq<string>) {
    lines == [] || (EndsLine(lines[0]) && AllEnded(lines[1..]))
  }

  function EndedAll(lines: seq<string>): (r: seq<string>)
    ensures |r| == |lines|
  {
    if lines == [] then [] else [Ended(lines[0])] + EndedAll(lines[1..])
  }

  lemma {:induction false} EndedIsSame(lines: seq<string>)
    ensures EndedAll(lines) == lines <==> AllEnded(lines)
  {
    if lines != [] {
      EndedIsSame(lines[1..]);
      assert lines == [lines[0]] + lines[1..];
      assert EndedAll(lines)[1..] == EndedAll(lines[1..]);
    }
  }

  // ----- what is shown ------------------------------------------------------------------------------

  /** The original lines of the compared lines `from` to `to`. */
  function Shown(a: DiffInput, from: nat, to: nat): (lines: seq<string>)
    requires a.Valid() && from <= to <= |a.index|
    ensures |lines| == to - from
  {
    seq(to - from, k requires 0 <= k < to - from => a.orig[a.index[from + k]])
  }

  /** Lines that an operation keeps are shown as the old file has them. */
  function OpLines(op: Op, a: DiffInput, b: DiffInput): seq<string>
    requires a.Valid() && b.Valid() && op.OldEnd() <= |a.index| && op.NewEnd() <= |b.index|
  {
    if op.Equal? then Shown(a, op.oldIndex, op.OldEnd()) else Shown(b, op.newIndex, op.NewEnd())
  }

  /** What the operations leave. */
  function Inside(ops: Group, a: DiffInput, b: DiffInput): seq<string>
    requires a.Valid() && b.Valid() && InRange(ops, a, b)
  {
    if ops == [] then [] else OpLines(ops[0], a, b) + Inside(ops[1..], a, b)
  }

  lemma ShownOpens(a: DiffInput, from: nat, to: nat)
    requires a.Valid() && from < to <= |a.index|
    ensures Shown(a, from, to) == [a.orig[a.index[from]]] + Shown(a, from + 1, to)
    ensures forall tag :: TagLines(tag, a, from, to) ==
              [BodyLine(tag, Ended(a.orig[a.index[from]]))] + TagLines(tag, a, from + 1, to)
  {
  }

  lemma ShownNothing(a: DiffInput, from: nat)
    requires a.Valid() && from <= |a.index|
    ensures Shown(a, from, from) == [] && forall tag :: TagLines(tag, a, from, from) == []
  {
  }

  lemma ShownConcat(a: DiffInput, from: nat, mid: nat, to: nat)
    requires a.Valid() && from <= mid <= to <= |a.index|
    ensures Shown(a, from, to) == Shown(a, from, mid) + Shown(a, mid, to)
  {
  }

  lemma {:induction false} ContiguousAt(a: DiffInput, from: nat, k: nat, to: nat)
    requires a.Valid() && from <= k < to <= |a.index| && Contiguous(a, from, to)
    ensures a.index[k] == a.index[from] + (k - from)
    decreases k
  {
    if from < k {
      ContiguousAt(a, from, k - 1, to);
    }
  }

  lemma ContiguousParts(a: DiffInput, from: nat, mid: nat, to: nat)
    requires a.Valid() && from <= mid <= to <= |a.index| && Contiguous(a, from, to)
    ensures Contiguous(a, from, mid) && Contiguous(a, mid, to)
    ensures mid < to ==> a.index[mid] == a.index[from] + (mid - from)
  {
    if mid < to {
      ContiguousAt(a, from, mid, to);
    }
  }

  lemma ApplyCons(line: BodyLine, body: seq<BodyLine>, lines: seq<string>, pos: nat)
    ensures ApplyBody([line] + body, lines, pos) ==
            if line.tag.Added? then
              var rest := ApplyBody(body, lines, pos);
              if rest.None? then None else Some(([line.text] + rest.value.0, rest.value.1))
            else if pos >= |lines| || lines[pos] != line.text then None
            else
              var rest := ApplyBody(body, lines, pos + 1);
              if rest.None? || line.tag.Removed? then rest
              else Some(([line.text] + rest.value.0, rest.value.1))
  {
    Prepended(line, body);
  }

  lemma ChainOpens(ops: Group, i: nat, j: nat, p: seq<string>, q: seq<string>)
    requires ops != [] && Chain(ops, i, j, p, q)
    ensures var op := ops[0];
            && op.oldIndex == i && op.newIndex == j && op.OldEnd() <= |p| && op.NewEnd() <= |q|
            && (op.Equal? ==> p[i..op.OldEnd()] == q[j..op.NewEnd()])
            && Chain(ops[1..], op.OldEnd(), op.NewEnd(), p, q)
  {
  }

  /** Old lines that are all ended are found in place; otherwise the patcher stops. */
  lemma {:induction false} ApplyOld(tag: Tag, a: DiffInput, from: nat, to: nat, pos: nat)
    requires a.Valid() && from <= to <= |a.index| && !tag.Added? && Contiguous(a, from, to)
    requires from < to ==> pos == a.index[from]
    ensures ApplyBody(TagLines(tag, a, from, to), a.orig, pos) ==
            if AllEnded(Shown(a, from, to))
            then Some((if tag.Removed? then [] else Shown(a, from, to), pos + (to - from)))
            else None
    decreases (to - from)
  {
    if from == to {
      ShownNothing(a, from);
      EndedNone();
    } else {
      hide ApplyBody, Shown, TagLines, AllEnded, EndedAll, Ended, EndsLine;
      ContiguousParts(a, from, from + 1, to);
      hide Contiguous;
      ShownOpens(a, from, to);
      EndedIsIt(a.orig[a.index[from]]);
      ApplyOld(tag, a, from + 1, to, pos + 1);
      var line := a.orig[a.index[from]];
      ApplyCons(BodyLine(tag, Ended(line)), TagLines(tag, a, from + 1, to), a.orig, pos);
      EndedCons(line, Shown(a, from + 1, to));
    }
  }

  lemma EndedIsIt(line: string)
    ensures EndsLine(line) <==> Ended(line) == line
  {
  }

  lemma EndedCons(line: string, lines: seq<string>)
    ensures AllEnded([line] + lines) <==> EndsLine(line) && AllEnded(lines)
    ensures EndedAll([line] + lines) == [Ended(line)] + EndedAll(lines)
  {
    assert ([line] + lines)[1..] == lines;
  }

  lemma {:induction false} ApplyNew(lines: seq<string>, pos: nat, b: DiffInput, from: nat, to: nat)
    requires b.Valid() && from <= to <= |b.index|
    ensures ApplyBody(TagLines(Added, b, from, to), lines, pos) == Some((EndedAll(Shown(b, from, to)), pos))
    decreases (to - from)
  {
    if from == to {
      ShownNothing(b, from);
      EndedNone();
    } else {
      hide ApplyBody, Shown, TagLines, EndedAll;
      ShownOpens(b, from, to);
      ApplyNew(lines, pos, b, from + 1, to);
      var line := b.orig[b.index[from]];
      ApplyCons(BodyLine(Added, Ended(line)), TagLines(Added, b, from + 1, to), lines, pos);
      EndedCons(line, Shown(b, from + 1, to));
    }
  }

  /** Goes on from where a body was applied. */
  function Then(first: Option<(seq<string>, nat)>, y: seq<BodyLine>, lines: seq<string>)
    : Option<(seq<string>, nat)>
  {
    if first.None? then None
    else
      var rest := ApplyBody(y, lines, first.value.1);
      if rest.None? then None else Some((first.value.0 + rest.value.0, rest.value.1))
  }

  lemma {:induction false} ApplyConcat(x: seq<BodyLine>, y: seq<BodyLine>, lines: seq<string>, pos: nat)
    ensures ApplyBody(x + y, lines, pos) == Then(ApplyBody(x, lines, pos), y, lines)
  {
    if x == [] {
      assert x + y == y;
      var rest := ApplyBody(y, lines, pos);
      assert rest.Some? ==> [] + rest.value.0 == rest.value.0;
    } else {
      assert (x + y)[1..] == x[1..] + y;
      var next := if x[0].tag.Added? then pos else pos + 1;
      ApplyConcat(x[1..], y, lines, next);
      if ApplyBody(x[1..], lines, next).Some? {
        ThenPrepend(x[0].text, ApplyBody(x[1..], lines, next), y, lines);
      }
    }
  }

  lemma ThenPrepend(text: string, first: Option<(seq<string>, nat)>, y: seq<BodyLine>, lines: seq<string>)
    requires first.Some?
    ensures var more := Some(([text] + first.value.0, first.value.1));
            var whole := Then(first, y, lines);
            Then(more, y, lines) == if whole.None? then None else Some(([text] + whole.value.0, whole.value.1))
  {
    var rest := ApplyBody(y, lines, first.value.1);
    if rest.Some? {
      assert [text] + (first.value.0 + rest.value.0) == ([text] + first.value.0) + rest.value.0;
    }
  }

  lemma ApplyNothing(lines: seq<string>, pos: nat)
    ensures ApplyBody([], lines, pos) == Some(([], pos))
  {
  }

  lemma ApplyOp(op: Op, a: DiffInput, b: DiffInput, pos: nat)
    requires a.Valid() && b.Valid() && op.OldEnd() <= |a.index| && op.NewEnd() <= |b.index|
    requires Contiguous(a, op.oldIndex, op.OldEnd()) && (op.OldSize() > 0 ==> pos == a.index[op.oldIndex])
    ensures ApplyBody(OpBody(op, a, b), a.orig, pos) ==
            if AllEnded(Shown(a, op.oldIndex, op.OldEnd())) then Some((EndedAll(OpLines(op, a, b)), pos + op.OldSize()))
            else None
  {
    hide ApplyBody, TagLines, AllEnded, EndedAll, Shown, Contiguous;
    match op
    case Equal(_, _, _) =>
      ApplyOld(Context, a, op.oldIndex, op.OldEnd(), pos);
      EndedIsSame(Shown(a, op.oldIndex, op.OldEnd()));
    case Delete(_, _, _) =>
      ApplyOld(Removed, a, op.oldIndex, op.OldEnd(), pos);
      ShownNothing(b, op.newIndex);
      EndedNone();
    case Insert(_, _, _) =>
      ApplyNew(a.orig, pos, b, op.newIndex, op.NewEnd());
      ShownNothing(a, op.oldIndex);
      EndedNone();
    case Replace(_, _, _, _) =>
      ApplyOld(Removed, a, op.oldIndex, op.OldEnd(), pos);
      ApplyNew(a.orig, pos + op.oldLen, b, op.newIndex, op.NewEnd());
      ApplyConcat(TagLines(Removed, a, op.oldIndex, op.OldEnd()), TagLines(Added, b, op.newIndex, op.NewEnd()),
                  a.orig, pos);
      assert [] + EndedAll(OpLines(op, a, b)) == EndedAll(OpLines(op, a, b));
  }

  lemma {:induction false} EndedConcat(x: seq<string>, y: seq<string>)
    ensures AllEnded(x + y) <==> AllEnded(x) && AllEnded(y)
    ensures EndedAll(x + y) == EndedAll(x) + EndedAll(y)
  {
    hide AllEnded, EndedAll;
    if x == [] {
      EndedNone();
      assert x + y == y;
    } else {
      EndedConcat(x[1..], y);
      assert x == [x[0]] + x[1..] && x + y == [x[0]] + (x[1..] + y);
      EndedCons(x[0], x[1..]);
      EndedCons(x[0], x[1..] + y);
    }
  }

  lemma EndedNone()
    ensures AllEnded([]) && EndedAll([]) == []
  {
  }

  lemma LastOldOpens(ops: Group, i: nat)
    ensures LastOld(ops, i) == if ops == [] then i else LastOld(ops[1..], ops[0].OldEnd())
  {
  }

  lemma NoOperations(i: nat, a: DiffInput, b: DiffInput, pos: nat)
    requires a.Valid() && b.Valid() && i <= |a.index|
    ensures ApplyBody(Body([], a, b), a.orig, pos) == Some(([], pos)) && Inside([], a, b) == []
    ensures AllEnded(Shown(a, i, i)) && EndedAll([]) == []
  {
    hide ApplyBody, AllEnded, EndedAll;
    EndedNone();
    ShownNothing(a, i);
    ApplyNothing(a.orig, pos);
  }

  lemma BodyOpens(ops: Group, a: DiffInput, b: DiffInput)
    requires a.Valid() && b.Valid() && InRange(ops, a, b) && ops != []
    ensures InRange(ops[1..], a, b) && Body(ops, a, b) == OpBody(ops[0], a, b) + Body(ops[1..], a, b)
    ensures Inside(ops, a, b) == OpLines(ops[0], a, b) + Inside(ops[1..], a, b)
  {
    hide OpBody, OpLines;
  }

  /** A chain of operations takes the old lines it spans, if none between is left out, to those it leaves. */
  lemma {:induction false} ApplyChain(ops: Group, i: nat, j: nat, a: DiffInput, b: DiffInput, pos: nat)
    requires a.Valid() && b.Valid() && Chain(ops, i, j, a.proc, b.proc) && i <= |a.index|
    requires LastOld(ops, i) <= |a.index| && Contiguous(a, i, LastOld(ops, i))
    requires i < LastOld(ops, i) ==> pos == a.index[i]
    ensures InRange(ops, a, b) && i <= LastOld(ops, i)
    ensures ApplyBody(Body(ops, a, b), a.orig, pos) ==
            if AllEnded(Shown(a, i, LastOld(ops, i)))
            then Some((EndedAll(Inside(ops, a, b)), pos + (LastOld(ops, i) - i)))
            else None
  {
    hide Chain, ApplyBody, Body, OpBody, AllEnded, EndedAll, CountOld, CountNew, Shown, OpLines, Inside, Contiguous;
    hide LastOld, LastNew, DiffInput.Valid;
    CountBody(ops, i, j, a, b);
    LastOldOpens(ops, i);
    if ops == [] {
      NoOperations(i, a, b, pos);
    } else {
      var op, rest := ops[0], ops[1..];
      var end := LastOld(ops, i);
      ChainOpens(ops, i, j, a.proc, b.proc);
      CountBody(rest, op.OldEnd(), op.NewEnd(), a, b);
      ContiguousParts(a, i, op.OldEnd(), end);
      ApplyChain(rest, op.OldEnd(), op.NewEnd(), a, b, pos + op.OldSize());
      hide InRange;
      ApplyOp(op, a, b, pos);
      BodyOpens(ops, a, b);
      ApplyConcat(OpBody(op, a, b), Body(rest, a, b), a.orig, pos);
      ShownConcat(a, i, op.OldEnd(), end);
      EndedConcat(Shown(a, i, op.OldEnd()), Shown(a, op.OldEnd(), end));
      EndedConcat(OpLines(op, a, b), Inside(rest, a, b));
    }
  }

  // ----- files compared as they are: what is shown, and what is left ---------------------------------

  lemma PlainShown(p: seq<string>, from: nat, to: nat)
    requires from <= to <= |p|
    ensures Shown(Plain(p), from, to) == p[from..to] && Contiguous(Plain(p), from, to)
  {
  }

  lemma {:induction false} PlainInside(ops: Group, i: nat, j: nat, p: seq<string>, q: seq<string>)
    requires Chain(ops, i, j, p, q) && j <= |q|
    ensures InRange(ops, Plain(p), Plain(q)) && j <= LastNew(ops, j) <= |q|
    ensures Inside(ops, Plain(p), Plain(q)) == q[j..LastNew(ops, j)]
  {
    hide Body, OpBody, CountOld, CountNew, OpLines;
    CountBody(ops, i, j, Plain(p), Plain(q));
    if ops != [] {
      var op := ops[0];
      hide Inside;
      BodyOpens(ops, Plain(p), Plain(q));
      PlainInside(ops[1..], op.OldEnd(), op.NewEnd(), p, q);
      CountBody(ops[1..], op.OldEnd(), op.NewEnd(), Plain(p), Plain(q));
      PlainOp(op, p, q);
      SplitSlice(q, j, op.NewEnd(), LastNew(ops, j));
    }
  }

  lemma PlainOp(op: Op, p: seq<string>, q: seq<string>)
    requires op.OldEnd() <= |p| && op.NewEnd() <= |q|
    requires op.Equal? ==> p[op.oldIndex..op.OldEnd()] == q[op.newIndex..op.NewEnd()]
    ensures OpLines(op, Plain(p), Plain(q)) == q[op.newIndex..op.NewEnd()]
  {
    hide Shown;
    PlainShown(p, op.oldIndex, op.OldEnd());
    PlainShown(q, op.newIndex, op.NewEnd());
  }

  /** Without flags a chain takes the old lines it spans to the new lines it spans. */
  lemma ApplyPlain(ops: Group, i: nat, j: nat, p: seq<string>, q: seq<string>)
    requires Chain(ops, i, j, p, q) && i <= |p| && j <= |q|
    ensures InRange(ops, Plain(p), Plain(q))
    ensures i <= LastOld(ops, i) <= |p| && j <= LastNew(ops, j) <= |q|
    ensures ApplyBody(Body(ops, Plain(p), Plain(q)), p, i) ==
            if AllEnded(p[i..LastOld(ops, i)]) then Some((EndedAll(q[j..LastNew(ops, j)]), LastOld(ops, i))) else None
  {
    hide Chain, ApplyBody, Body, AllEnded, EndedAll, CountOld, CountNew, Shown, Inside, Contiguous;
    CountBody(ops, i, j, Plain(p), Plain(q));
    PlainInside(ops, i, j, p, q);
    EndsInside(ops, p, q);
    PlainShown(p, i, LastOld(ops, i));
    ApplyChain(ops, i, j, Plain(p), Plain(q), i);
  }

  lemma EndsInside(ops: Group, p: seq<string>, q: seq<string>)
    requires InRange(ops, Plain(p), Plain(q))
    ensures ops != [] ==> ops[|ops| - 1].OldEnd() <= |p| && ops[|ops| - 1].NewEnd() <= |q|
  {
  }

  // ----- positions and whole diffs -------------------------------------------------------------------

  function SpanOld(g: Group): (s: (nat, nat))
    requires g != []
  {
    (g[0].oldIndex, g[|g| - 1].OldEnd())
  }

  function SpanNew(g: Group): (s: (nat, nat))
    requires g != []
  {
    (g[0].newIndex, g[|g| - 1].NewEnd())
  }

  /** The group spans an old line, or appends to a file of one line. */
  predicate Positioned(g: Group, p: seq<string>) {
    g != [] && (SpanOld(g).0 < SpanOld(g).1 || (g[0].oldIndex == 1 && |p| == 1))
  }

  /** The header gives the position of the hunk exactly for positioned groups. */
  lemma HeaderGivesPosition(g: Group, p: seq<string>, q: seq<string>)
    requires g != [] && Chain(g, g[0].oldIndex, g[0].newIndex, p, q)
    ensures InRange(g, Plain(p), Plain(q))
    ensures Position(HunkOf(g, Plain(p), Plain(q))) == g[0].oldIndex <==> Positioned(g, p)
  {
    assert g[0].OldEnd() <= |p|;
    hide Chain, Body, CountOld, CountNew;
    CountBody(g, g[0].oldIndex, g[0].newIndex, Plain(p), Plain(q));
  }

  /** Every line a hunk shows ends in a newline. */
  ghost predicate ShownEnded(g: Group, p: seq<string>, q: seq<string>)
    requires g != [] && SpanOld(g).0 <= SpanOld(g).1 <= |p| && SpanNew(g).0 <= SpanNew(g).1 <= |q|
  {
    && AllEnded(p[SpanOld(g).0..SpanOld(g).1])
    && AllEnded(q[SpanNew(g).0..SpanNew(g).1])
  }

  ghost predicate AllShownEnded(groups: seq<Group>, p: seq<string>, q: seq<string>) {
    groups == [] ||
    (&& groups[0] != []
     && SpanOld(groups[0]).0 <= SpanOld(groups[0]).1 <= |p|
     && SpanNew(groups[0]).0 <= SpanNew(groups[0]).1 <= |q|
     && ShownEnded(groups[0], p, q)
     && AllShownEnded(groups[1..], p, q))
  }

  ghost predicate AllPositioned(groups: seq<Group>, p: seq<string>) {
    groups == [] || (Positioned(groups[0], p) && AllPositioned(groups[1..], p))
  }

  lemma {:induction false} GroupsStayInRange(groups: seq<Group>, i: nat, j: nat, a: DiffInput, b: DiffInput)
    requires a.Valid() && b.Valid() && ValidGroups(groups, i, j, a.proc, b.proc)
    ensures GroupsInRange(groups, a, b)
  {
    if groups != [] {
      hide Chain, Body, CountOld, CountNew;
      var g := groups[0];
      CountBody(g, g[0].oldIndex, g[0].newIndex, a, b);
      GroupsStayInRange(groups[1..], g[|g| - 1].OldEnd(), g[|g| - 1].NewEnd(), a, b);
    }
  }

  lemma PlainInRange(groups: seq<Group>, i: nat, j: nat, p: seq<string>, q: seq<string>)
    requires ValidGroups(groups, i, j, p, q)
    ensures GroupsInRange(groups, Plain(p), Plain(q))
  {
    hide ValidGroups, GroupsInRange;
    GroupsStayInRange(groups, i, j, Plain(p), Plain(q));
  }

  /** What a group spans lies within both inputs. */
  lemma GroupSpans(g: Group, a: DiffInput, b: DiffInput)
    requires a.Valid() && b.Valid() && g != [] && Chain(g, g[0].oldIndex, g[0].newIndex, a.proc, b.proc)
    ensures InRange(g, a, b)
    ensures SpanOld(g).0 <= SpanOld(g).1 <= |a.index| && SpanNew(g).0 <= SpanNew(g).1 <= |b.index|
  {
    hide Chain, Body, CountOld, CountNew;
    CountBody(g, g[0].oldIndex, g[0].newIndex, a, b);
  }

  /** What the patcher makes of the first hunk. */
  lemma PatchHunk(g: Group, i: nat, p: seq<string>, q: seq<string>, more: seq<Hunk>)
    requires Positioned(g, p) && i <= g[0].oldIndex <= |p| && g[0].newIndex <= |q|
    requires Chain(g, g[0].oldIndex, g[0].newIndex, p, q)
    ensures InRange(g, Plain(p), Plain(q))
    ensures SpanOld(g).0 <= SpanOld(g).1 <= |p| && SpanNew(g).0 <= SpanNew(g).1 <= |q|
    ensures var rest := Patch(more, p, SpanOld(g).1);
            Patch([HunkOf(g, Plain(p), Plain(q))] + more, p, i) ==
            if !AllEnded(p[SpanOld(g).0..SpanOld(g).1]) || rest.None? then None
            else Some(p[i..SpanOld(g).0] + EndedAll(q[SpanNew(g).0..SpanNew(g).1]) + rest.value)
  {
    hide ApplyBody, Body, CountOld, CountNew, AllEnded, EndedAll, Chain;
    ApplyPlain(g, g[0].oldIndex, g[0].newIndex, p, q);
    CountBody(g, g[0].oldIndex, g[0].newIndex, Plain(p), Plain(q));
    HeaderGivesPosition(g, p, q);
    var hunks := [HunkOf(g, Plain(p), Plain(q))] + more;
    assert hunks[1..] == more;
  }

  /** The patched lines are the new lines exactly when each of their three parts is. */
  lemma JoinNew(q: seq<string>, j: nat, from: nat, to: nat, kept: seq<string>, out: seq<string>,
                rest: Option<seq<string>>)
    requires j <= from <= to <= |q| && kept == q[j..from] && |out| == to - from
    ensures rest.Some? ==>
              (kept + out + rest.value == q[j..] <==> out == q[from..to] && rest.value == q[to..])
  {
    if rest.Some? {
      var all := kept + out + rest.value;
      assert q[j..] == q[j..from] + q[from..to] + q[to..];
      if all == q[j..] {
        assert all[|kept|..|kept| + |out|] == out && q[j..][from - j..to - j] == q[from..to];
        assert all[|kept| + |out|..] == rest.value && q[j..][to - j..] == q[to..];
      }
    }
  }

  // ----- which groups are positioned -------------------------------------------------------------------

  /**
   The group was made with at least one line of context: it takes no old line at its start, or at its
   end, only where the old file starts, or ends.
   */
  predicate WithContext(g: Group, p: seq<string>) {
    && g != []
    && (g[0].OldSize() == 0 ==> g[0].oldIndex == 0)
    && (g[|g| - 1].OldSize() == 0 ==> g[|g| - 1].OldEnd() == |p|)
  }

  predicate AllWithContext(groups: seq<Group>, p: seq<string>) {
    groups == [] || (WithContext(groups[0], p) && AllWithContext(groups[1..], p))
  }

  lemma {:induction false} ChainAdvances(ops: Group, i: nat, j: nat, p: seq<string>, q: seq<string>)
    requires ops != [] && Chain(ops, i, j, p, q)
    ensures ops[0].oldIndex == i && ops[0].OldEnd() <= ops[|ops| - 1].OldEnd() <= |p|
    ensures i <= ops[|ops| - 1].oldIndex
  {
    if |ops| > 1 {
      ChainAdvances(ops[1..], ops[0].OldEnd(), ops[0].NewEnd(), p, q);
    }
  }

  /** With context, and an old file that is not empty, every hunk is positioned. */
  lemma {:induction false} ContextPositions(groups: seq<Group>, i: nat, j: nat, p: seq<string>, q: seq<string>)
    requires ValidGroups(groups, i, j, p, q) && AllWithContext(groups, p) && p != []
    ensures AllPositioned(groups, p)
  {
    hide Chain;
    if groups != [] {
      var g := groups[0];
      ChainAdvances(g, g[0].oldIndex, g[0].newIndex, p, q);
      ContextPositions(groups[1..], g[|g| - 1].OldEnd(), g[|g| - 1].NewEnd(), p, q);
    }
  }
}
