/** The same diff read the other way takes the new lines back to the old ones. */
module DiffReverse {
  import opened Wrappers
  import opened Sequences
  import opened Diff
  import opened DiffPatch
  import opened DiffExact

  // ----- the two ways to turn a diff round ------------------------------------------------------

  function ReverseTag(tag: Tag): Tag {
    match tag
    case Context => Context
    case Removed => Added
    case Added => Removed
  }

  function ReverseBody(body: seq<BodyLine>): (r: seq<BodyLine>)
    ensures |r| == |body|
  {
    seq(|body|, k requires 0 <= k < |body| => BodyLine(ReverseTag(body[k].tag), body[k].text))
  }

  /** A hunk as `patch -R` reads it. */
  function Reverse(h: Hunk): Hunk {
    Hunk(h.newStart, h.newCount, h.oldStart, h.oldCount, ReverseBody(h.body))
  }

  function ReverseAll(hunks: seq<Hunk>): (r: seq<Hunk>)
    ensures |r| == |hunks|
  {
    if hunks == [] then [] else [Reverse(hunks[0])] + ReverseAll(hunks[1..])
  }

  /** The operation from the new lines to the old. */
  function MirrorOp(op: Op): (m: Op)
    ensures m.oldIndex == op.newIndex && m.newIndex == op.oldIndex
    ensures m.OldEnd() == op.NewEnd() && m.NewEnd() == op.OldEnd()
  {
    match op
    case Equal(i, j, len) => Equal(j, i, len)
    case Delete(i, len, j) => Insert(j, i, len)
    case Insert(i, j, len) => Delete(j, len, i)
    case Replace(i, len, j, newLen) => Replace(j, newLen, i, len)
  }

  function Mirror(ops: Group): (m: Group)
    ensures |m| == |ops| && forall k :: 0 <= k < |ops| ==> m[k] == MirrorOp(ops[k])
  {
    if ops == [] then [] else [MirrorOp(ops[0])] + Mirror(ops[1..])
  }

  function MirrorAll(groups: seq<Group>): (m: seq<Group>)
    ensures |m| == |groups| && forall k :: 0 <= k < |groups| ==> m[k] == Mirror(groups[k])
  {
    if groups == [] then [] else [Mirror(groups[0])] + MirrorAll(groups[1..])
  }

  // ----- they agree -------------------------------------------------------------------------------

  lemma ReverseConcat(x: seq<BodyLine>, y: seq<BodyLine>)
    ensures ReverseBody(x + y) == ReverseBody(x) + ReverseBody(y)
  {
  }

  lemma ReverseTagged(tag: Tag, a: DiffInput, from: nat, to: nat)
    requires a.Valid() && from <= to <= |a.index|
    ensures ReverseBody(TagLines(tag, a, from, to)) == TagLines(ReverseTag(tag), a, from, to)
  {
  }

  lemma {:induction false} ReverseCounts(body: seq<BodyLine>)
    ensures CountOld(ReverseBody(body)) == CountNew(body) && CountNew(ReverseBody(body)) == CountOld(body)
  {
    if body != [] {
      ReverseCounts(body[1..]);
      assert ReverseBody(body)[1..] == ReverseBody(body[1..]);
    }
  }

  /** Removing only moves on. */
  lemma {:induction false} OnlyRemoves(body: seq<BodyLine>, lines: seq<string>, pos: nat)
    requires CountNew(body) == 0
    ensures var r := ApplyBody(body, lines, pos); r.None? || r.value.0 == []
  {
    if body != [] {
      OnlyRemoves(body[1..], lines, pos + 1);
    }
  }

  /** Lines to add may come before or after the lines to remove. */
  lemma AddedOrRemovedFirst(x: seq<BodyLine>, y: seq<BodyLine>, lines: seq<string>, pos: nat)
    requires CountOld(x) == 0 && CountNew(y) == 0
    ensures ApplyBody(x + y, lines, pos) == ApplyBody(y + x, lines, pos)
  {
    hide ApplyBody;
    ApplyConcat(x, y, lines, pos);
    ApplyConcat(y, x, lines, pos);
    OnlyRemoves(y, lines, pos);
    var removed := ApplyBody(y, lines, pos);
    if removed.Some? {
      OnlyAdds(x, lines, pos, removed.value.1);
      var added := ApplyBody(x, lines, pos).value.0;
      assert added + [] == added == [] + added;
    } else {
      OnlyAdds(x, lines, pos, pos);
    }
  }

  lemma ReverseOp(op: Op, p: seq<string>, q: seq<string>, lines: seq<string>, pos: nat)
    requires op.OldEnd() <= |p| && op.NewEnd() <= |q|
    requires op.Equal? ==> p[op.oldIndex..op.OldEnd()] == q[op.newIndex..op.NewEnd()]
    ensures ApplyBody(ReverseBody(OpBody(op, Plain(p), Plain(q))), lines, pos) ==
            ApplyBody(OpBody(MirrorOp(op), Plain(q), Plain(p)), lines, pos)
  {
    hide ApplyBody, ReverseBody, TagLines;
    match op
    case Equal(i, j, len) =>
      ReverseTagged(Context, Plain(p), i, i + len);
      SameContext(p, i, q, j, len);
    case Delete(i, len, j) => ReverseTagged(Removed, Plain(p), i, i + len);
    case Insert(i, j, len) => ReverseTagged(Added, Plain(q), j, j + len);
    case Replace(i, len, j, newLen) =>
      var removed, added := TagLines(Removed, Plain(p), i, i + len), TagLines(Added, Plain(q), j, j + newLen);
      ReverseConcat(removed, added);
      ReverseTagged(Removed, Plain(p), i, i + len);
      ReverseTagged(Added, Plain(q), j, j + newLen);
      CountTagged(Added, Plain(p), i, i + len);
      CountTagged(Removed, Plain(q), j, j + newLen);
      AddedOrRemovedFirst(TagLines(Added, Plain(p), i, i + len), TagLines(Removed, Plain(q), j, j + newLen),
                          lines, pos);
  }

  lemma SameContext(p: seq<string>, i: nat, q: seq<string>, j: nat, len: nat)
    requires i + len <= |p| && j + len <= |q| && p[i..i + len] == q[j..j + len]
    ensures TagLines(Context, Plain(p), i, i + len) == TagLines(Context, Plain(q), j, j + len)
  {
    var x, y := TagLines(Context, Plain(p), i, i + len), TagLines(Context, Plain(q), j, j + len);
    forall k | 0 <= k < len
      ensures x[k] == y[k]
    {
      assert p[i..i + len][k] == q[j..j + len][k];
    }
  }

  lemma {:induction false} MirrorChain(ops: Group, i: nat, j: nat, p: seq<string>, q: seq<string>)
    requires Chain(ops, i, j, p, q)
    ensures Chain(Mirror(ops), j, i, q, p)
  {
    if ops != [] {
      MirrorChain(ops[1..], ops[0].OldEnd(), ops[0].NewEnd(), p, q);
      Prepended(MirrorOp(ops[0]), Mirror(ops[1..]));
    }
  }

  lemma ChainInRange(ops: Group, i: nat, j: nat, p: seq<string>, q: seq<string>)
    requires Chain(ops, i, j, p, q)
    ensures InRange(ops, Plain(p), Plain(q))
    ensures ops != [] ==> ops[0].OldEnd() <= |p| && ops[0].NewEnd() <= |q|
  {
    hide Body, CountOld, CountNew;
    CountBody(ops, i, j, Plain(p), Plain(q));
  }

  lemma {:induction false} ReverseChain(ops: Group, i: nat, j: nat, p: seq<string>, q: seq<string>,
                                        lines: seq<string>, pos: nat)
    requires Chain(ops, i, j, p, q)
    ensures InRange(ops, Plain(p), Plain(q)) && InRange(Mirror(ops), Plain(q), Plain(p))
    ensures ApplyBody(ReverseBody(Body(ops, Plain(p), Plain(q))), lines, pos) ==
            ApplyBody(Body(Mirror(ops), Plain(q), Plain(p)), lines, pos)
    decreases |ops|
  {
    hide ApplyBody, ReverseBody, OpBody, Body, Plain;
    ChainInRange(ops, i, j, p, q);
    MirrorChain(ops, i, j, p, q);
    ChainInRange(Mirror(ops), j, i, q, p);
    if ops == [] {
      NothingReversed(p, q);
    } else {
      var op, rest := ops[0], ops[1..];
      BodyOpens(ops, Plain(p), Plain(q));
      BodyOpens(Mirror(ops), Plain(q), Plain(p));
      Prepended(MirrorOp(op), Mirror(rest));
      ReverseConcat(OpBody(op, Plain(p), Plain(q)), Body(rest, Plain(p), Plain(q)));
      ApplyConcat(ReverseBody(OpBody(op, Plain(p), Plain(q))), ReverseBody(Body(rest, Plain(p), Plain(q))), lines, pos);
      ApplyConcat(OpBody(MirrorOp(op), Plain(q), Plain(p)), Body(Mirror(rest), Plain(q), Plain(p)), lines, pos);
      ReverseOp(op, p, q, lines, pos);
      var first := ApplyBody(OpBody(MirrorOp(op), Plain(q), Plain(p)), lines, pos);
      ReverseChain(rest, op.OldEnd(), op.NewEnd(), p, q, lines, if first.Some? then first.value.1 else pos);
    }
  }

  lemma NothingReversed(p: seq<string>, q: seq<string>)
    ensures InRange([], Plain(p), Plain(q)) && InRange(Mirror([]), Plain(q), Plain(p))
    ensures ReverseBody(Body([], Plain(p), Plain(q))) == Body(Mirror([]), Plain(q), Plain(p)) == []
  {
  }

  lemma BodyCounts(g: Group, p: seq<string>, q: seq<string>)
    requires g != [] && Chain(g, g[0].oldIndex, g[0].newIndex, p, q)
    ensures InRange(g, Plain(p), Plain(q))
    ensures CountOld(Body(g, Plain(p), Plain(q))) == SpanOld(g).1 - SpanOld(g).0
    ensures CountNew(Body(g, Plain(p), Plain(q))) == SpanNew(g).1 - SpanNew(g).0
  {
    hide Body, CountOld, CountNew, Chain;
    CountBody(g, g[0].oldIndex, g[0].newIndex, Plain(p), Plain(q));
  }

  /** A reversed hunk has the header of the mirrored one and does the same. */
  lemma ReverseHunk(g: Group, p: seq<string>, q: seq<string>, lines: seq<string>, pos: nat)
    requires g != [] && Chain(g, g[0].oldIndex, g[0].newIndex, p, q)
    ensures InRange(g, Plain(p), Plain(q)) && InRange(Mirror(g), Plain(q), Plain(p))
    ensures var h, m := Reverse(HunkOf(g, Plain(p), Plain(q))), HunkOf(Mirror(g), Plain(q), Plain(p));
            && Position(h) == Position(m) && h.oldCount == m.oldCount && h.newCount == m.newCount
            && CountOld(h.body) == CountOld(m.body) && CountNew(h.body) == CountNew(m.body)
            && ApplyBody(h.body, lines, pos) == ApplyBody(m.body, lines, pos)
  {
    hide ApplyBody, ReverseBody, Body, CountOld, CountNew, Plain, Chain;
    ReverseChain(g, g[0].oldIndex, g[0].newIndex, p, q, lines, pos);
    MirrorChain(g, g[0].oldIndex, g[0].newIndex, p, q);
    BodyCounts(g, p, q);
    BodyCounts(Mirror(g), q, p);
    ReverseCounts(Body(g, Plain(p), Plain(q)));
  }

  lemma {:induction false} MirrorScript(groups: seq<Group>, i: nat, j: nat, p: seq<string>, q: seq<string>)
    requires ValidGroups(groups, i, j, p, q)
    ensures ValidGroups(MirrorAll(groups), j, i, q, p)
    ensures AllShownEnded(MirrorAll(groups), q, p) <==> AllShownEnded(groups, p, q)
    decreases |groups|
  {
    hide Chain, AllEnded;
    if groups != [] {
      var g := groups[0];
      MirrorChain(g, g[0].oldIndex, g[0].newIndex, p, q);
      MirrorScript(groups[1..], g[|g| - 1].OldEnd(), g[|g| - 1].NewEnd(), p, q);
      Prepended(Mirror(g), MirrorAll(groups[1..]));
    }
  }

  /** The patcher makes the same of both. */
  lemma {:induction false} ReversePatch(groups: seq<Group>, i: nat, j: nat, p: seq<string>, q: seq<string>, pos: nat)
    requires ValidGroups(groups, i, j, p, q) && pos <= |q|
    ensures GroupsInRange(groups, Plain(p), Plain(q)) && GroupsInRange(MirrorAll(groups), Plain(q), Plain(p))
    ensures Patch(ReverseAll(Hunks(groups, Plain(p), Plain(q))), q, pos) ==
            Patch(Hunks(MirrorAll(groups), Plain(q), Plain(p)), q, pos)
    decreases |groups|
  {
    hide Chain, HunkOf, ApplyBody, CountOld, CountNew, Reverse, Position, Plain;
    PlainInRange(groups, i, j, p, q);
    MirrorScript(groups, i, j, p, q);
    PlainInRange(MirrorAll(groups), j, i, q, p);
    if groups != [] {
      var g, others := groups[0], groups[1..];
      var h, m := Reverse(HunkOf(g, Plain(p), Plain(q))), HunkOf(Mirror(g), Plain(q), Plain(p));
      var at := Position(m);
      Prepended(Mirror(g), MirrorAll(others));
      Prepended(HunkOf(g, Plain(p), Plain(q)), Hunks(others, Plain(p), Plain(q)));
      Prepended(h, ReverseAll(Hunks(others, Plain(p), Plain(q))));
      Prepended(m, Hunks(MirrorAll(others), Plain(q), Plain(p)));
      ReverseHunk(g, p, q, q, if at >= 0 then at else 0);
      if pos <= at <= |q| && ApplyBody(m.body, q, at).Some? {
        ReversePatch(others, g[|g| - 1].OldEnd(), g[|g| - 1].NewEnd(), p, q, ApplyBody(m.body, q, at).value.1);
      }
    }
  }

  /**
   Patching backwards: the reversed hunks take the new lines to the old ones if and only if every line
   shown ends in a newline and the hunks whose new header is misplaced do no harm.
   */
  lemma ReversePatchIsExact(groups: seq<Group>, p: seq<string>, q: seq<string>)
    requires ValidGroups(groups, 0, 0, p, q) && Apart(MirrorAll(groups), q)
    ensures GroupsInRange(groups, Plain(p), Plain(q))
    ensures Patch(ReverseAll(Hunks(groups, Plain(p), Plain(q))), q, 0) == Some(p) <==>
            AllShownEnded(groups, p, q) && Restores(MirrorAll(groups), 0, q, p)
  {
    hide Chain, Patch, Hunks, ReverseAll, Restores, AllShownEnded, Apart;
    ReversePatch(groups, 0, 0, p, q, 0);
    MirrorScript(groups, 0, 0, p, q);
    PatchBackIsExact(MirrorAll(groups), q, p);
  }
}
