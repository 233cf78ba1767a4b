/** The loops of the diff command: line preparation and the text of a unified diff. */
module DiffFormat {
  import opened Numerals
  import opened Sequences
  import opened Diff

  method PreprocessLines(content: string, ignore: Ignore) returns (a: DiffInput)
    ensures a == Prepared(content, ignore)
  {
    hide NormalLines, NormalLine, SplitInclusive, Compared;
    var orig := SplitInclusive(content);
    var procLines: seq<string> := [];
    var indexMap: seq<nat> := [];
    for i := 0 to |orig|
      invariant indexMap + Compared(orig, i, ignore) == Compared(orig, 0, ignore)
      invariant forall k :: 0 <= k < |indexMap| ==> indexMap[k] < |orig|
      invariant procLines == NormalLines(orig, indexMap, ignore)
    {
      ComparedOpens(orig, i, ignore);
      if !(ignore.active && ignore.blank(orig[i])) {
        NormalSnoc(orig, indexMap, i, ignore);
        Associates(indexMap, [i], Compared(orig, i + 1, ignore));
        procLines := procLines + [NormalLine(orig[i], ignore)];
        indexMap := indexMap + [i];
      }
    }
    NothingCompared(orig, ignore);
    assert indexMap == Compared(orig, 0, ignore);
    a := DiffInput(orig, procLines, indexMap);
  }

  lemma ComparedOpens(orig: seq<string>, i: nat, ignore: Ignore)
    requires i < |orig|
    ensures Compared(orig, i, ignore) ==
            (if ignore.active && ignore.blank(orig[i]) then [] else [i]) + Compared(orig, i + 1, ignore)
  {
  }

  lemma NothingCompared(orig: seq<string>, ignore: Ignore)
    ensures Compared(orig, |orig|, ignore) == []
  {
  }

  lemma NormalSnoc(orig: seq<string>, index: seq<nat>, i: nat, ignore: Ignore)
    requires i < |orig| && forall k :: 0 <= k < |index| ==> index[k] < |orig|
    ensures NormalLines(orig, index + [i], ignore) == NormalLines(orig, index, ignore) + [NormalLine(orig[i], ignore)]
  {
  }

  lemma BodyTextCons(line: BodyLine, body: seq<BodyLine>)
    ensures BodyText([line] + body) == TagText(line.tag) + line.text + BodyText(body)
  {
    assert ([line] + body)[1..] == body;
  }

  lemma {:induction false} BodyTextConcat(x: seq<BodyLine>, y: seq<BodyLine>)
    ensures BodyText(x + y) == BodyText(x) + BodyText(y)
  {
    hide BodyText;
    if x == [] {
      assert x + y == y;
      NoText();
    } else {
      BodyTextConcat(x[1..], y);
      assert x == [x[0]] + x[1..] && x + y == [x[0]] + (x[1..] + y);
      BodyTextCons(x[0], x[1..]);
      BodyTextCons(x[0], x[1..] + y);
    }
  }

  lemma NoText()
    ensures BodyText([]) == ""
  {
  }

  /** Appends the tagged lines of one range, ending the last line if the file does not. */
  method PushLines(before: string, tag: Tag, a: DiffInput, from: nat, count: nat) returns (output: string)
    requires a.Valid() && from + count <= |a.index|
    ensures output == before + BodyText(TagLines(tag, a, from, from + count))
  {
    hide BodyText;
    output := before;
    NoText();
    for i := 0 to count
      invariant output == before + BodyText(TagLines(tag, a, from, from + i))
    {
      var line := a.orig[a.index[from + i]];
      ghost var body := TagLines(tag, a, from, from + i);
      var text := TagText(tag) + line;
      if !EndsLine(line) {
        text := text + "\n";
      }
      assert TagLines(tag, a, from, from + i + 1) == body + [BodyLine(tag, Ended(line))];
      BodyTextConcat(body, [BodyLine(tag, Ended(line))]);
      BodyTextCons(BodyLine(tag, Ended(line)), []);
      assert [BodyLine(tag, Ended(line))] + [] == [BodyLine(tag, Ended(line))];
      output := output + text;
    }
  }

  method PushOp(before: string, op: Op, a: DiffInput, b: DiffInput) returns (output: string)
    requires a.Valid() && b.Valid() && op.OldEnd() <= |a.index| && op.NewEnd() <= |b.index|
    ensures output == before + BodyText(OpBody(op, a, b))
  {
    hide BodyText, TagLines;
    match op
    case Equal(oldIndex, _, len) => output := PushLines(before, Context, a, oldIndex, len);
    case Delete(oldIndex, oldLen, _) => output := PushLines(before, Removed, a, oldIndex, oldLen);
    case Insert(_, newIndex, newLen) => output := PushLines(before, Added, b, newIndex, newLen);
    case Replace(oldIndex, oldLen, newIndex, newLen) =>
      output := PushLines(before, Removed, a, oldIndex, oldLen);
      output := PushLines(output, Added, b, newIndex, newLen);
      BodyTextConcat(TagLines(Removed, a, oldIndex, op.OldEnd()), TagLines(Added, b, newIndex, op.NewEnd()));
  }

  lemma BodyStep(g: Group, k: nat, a: DiffInput, b: DiffInput)
    requires a.Valid() && b.Valid() && InRange(g, a, b) && k < |g|
    ensures InRange(g[k..], a, b) && InRange(g[k + 1..], a, b)
    ensures BodyText(Body(g[k..], a, b)) == BodyText(OpBody(g[k], a, b)) + BodyText(Body(g[k + 1..], a, b))
  {
    hide BodyText, OpBody;
    assert g[k..][1..] == g[k + 1..];
    BodyTextConcat(OpBody(g[k], a, b), Body(g[k + 1..], a, b));
  }

  method HunkHeader(g: Group, a: DiffInput, b: DiffInput) returns (header: string)
    requires a.Valid() && b.Valid() && g != [] && InRange(g, a, b)
    ensures header == HeaderText(HunkOf(g, a, b))
  {
    hide Body, Decimal;
    var oldFrom, oldEnd := g[0].oldIndex, g[|g| - 1].OldEnd();
    var newFrom, newEnd := g[0].newIndex, g[|g| - 1].NewEnd();
    var oldStart := if oldFrom < |a.index| then a.index[oldFrom] + 1 else 1;
    var oldCount := if oldEnd > oldFrom then a.index[oldEnd - 1] - a.index[oldFrom] + 1 else 0;
    var newStart := if newFrom < |b.index| then b.index[newFrom] + 1 else 1;
    var newCount := if newEnd > newFrom then b.index[newEnd - 1] - b.index[newFrom] + 1 else 0;
    header := "@@ -" + Decimal(oldStart) + "," + Decimal(oldCount) +
              " +" + Decimal(newStart) + "," + Decimal(newCount) + " @@\n";
  }

  lemma HunkIsHeaderAndBody(g: Group, a: DiffInput, b: DiffInput)
    requires a.Valid() && b.Valid() && g != [] && InRange(g, a, b)
    ensures HunkText(HunkOf(g, a, b)) == HeaderText(HunkOf(g, a, b)) + BodyText(Body(g, a, b))
  {
    hide HeaderText, BodyText, Body;
  }

  method PushHunk(before: string, g: Group, a: DiffInput, b: DiffInput) returns (output: string)
    requires a.Valid() && b.Valid() && g != [] && InRange(g, a, b)
    ensures output == before + HunkText(HunkOf(g, a, b))
  {
    hide BodyText, OpBody, Body, HeaderText, HunkText, HunkOf;
    var header := HunkHeader(g, a, b);
    output := before + header;
    HunkIsHeaderAndBody(g, a, b);
    Associates(before, header, BodyText(Body(g, a, b)));
    assert g[0..] == g;
    for k := 0 to |g|
      invariant InRange(g[k..], a, b)
      invariant output + BodyText(Body(g[k..], a, b)) == before + HunkText(HunkOf(g, a, b))
    {
      BodyStep(g, k, a, b);
      Associates(output, BodyText(OpBody(g[k], a, b)), BodyText(Body(g[k + 1..], a, b)));
      output := PushOp(output, g[k], a, b);
    }
    EmptyBody(a, b);
    assert g[|g|..] == [];
  }

  lemma EmptyBody(a: DiffInput, b: DiffInput)
    requires a.Valid() && b.Valid()
    ensures InRange([], a, b) && BodyText(Body([], a, b)) == ""
  {
  }

  lemma HunksStep(groups: seq<Group>, k: nat, a: DiffInput, b: DiffInput)
    requires a.Valid() && b.Valid() && k < |groups| && GroupsInRange(groups[k..], a, b)
    ensures groups[k] != [] && InRange(groups[k], a, b) && GroupsInRange(groups[k + 1..], a, b)
    ensures HunksText(Hunks(groups[k..], a, b)) ==
            HunkText(HunkOf(groups[k], a, b)) + HunksText(Hunks(groups[k + 1..], a, b))
  {
    hide HunkText, HunkOf, InRange;
    DropMore(groups, k, 1);
    Prepended(HunkOf(groups[k], a, b), Hunks(groups[k + 1..], a, b));
  }

  lemma NoHunks(a: DiffInput, b: DiffInput)
    requires a.Valid() && b.Valid()
    ensures GroupsInRange([], a, b) && HunksText(Hunks([], a, b)) == ""
  {
  }

  /** The unified diff of two prepared inputs, given the library's edit script. */
  method FormatUnifiedDiff(a: DiffInput, b: DiffInput, oldLabel: string, newLabel: string, groups: seq<Group>)
    returns (output: string)
    requires a.Valid() && b.Valid() && GroupsInRange(groups, a, b)
    ensures output == FileHeader(oldLabel, newLabel) + HunksText(Hunks(groups, a, b))
  {
    hide HunkText, HunkOf, HunksText, Hunks, GroupsInRange, InRange;
    output := "";
    output := output + ("--- " + oldLabel + "\n");
    output := output + ("+++ " + newLabel + "\n");
    assert output == FileHeader(oldLabel, newLabel);
    assert groups[0..] == groups;
    for k := 0 to |groups|
      invariant GroupsInRange(groups[k..], a, b)
      invariant output + HunksText(Hunks(groups[k..], a, b)) ==
                FileHeader(oldLabel, newLabel) + HunksText(Hunks(groups, a, b))
    {
      HunksStep(groups, k, a, b);
      Associates(output, HunkText(HunkOf(groups[k], a, b)), HunksText(Hunks(groups[k + 1..], a, b)));
      output := PushHunk(output, groups[k], a, b);
    }
    NoHunks(a, b);
    assert groups[|groups|..] == [];
  }
}
