/**
 The text of a unified diff says all there is to say: reading it back yields the hunks, so a
 patcher that sees only the text restores the new file.
 */
module DiffText {
  import opened Wrappers
  import opened Numerals
  import opened Sequences
  import opened Diff
  import opened DiffPatch
  import opened DiffExact

  // ----- reading --------------------------------------------------------------------------------

  function Expect(t: string, word: string): (rest: Option<string>)
    ensures rest.Some? ==> |rest.value| + |word| == |t|
  {
    if word <= t then Some(t[|word|..]) else None
  }

  function DigitsEnd(t: string, i: nat): (end: nat)
    requires i <= |t|
    ensures i <= end <= |t|
    decreases |t| - i
  {
    if i < |t| && '0' <= t[i] <= '9' then DigitsEnd(t, i + 1) else i
  }

  /** A number and the text after it. */
  function ReadNumber(t: string): (r: Option<(nat, string)>)
    ensures r.Some? ==> |r.value.1| < |t|
  {
    var end := DigitsEnd(t, 0);
    var n := DigitsValue(t[..end]);
    if end == 0 || n.None? then None else Some((n.value, t[end..]))
  }

  /** A number, then a separator. */
  function ReadField(t: string, separator: string): (r: Option<(nat, string)>)
    ensures r.Some? ==> |r.value.1| < |t|
  {
    var n := ReadNumber(t);
    if n.None? then None
    else
      var rest := Expect(n.value.1, separator);
      if rest.None? then None else Some((n.value.0, rest.value))
  }

  function LineEnd(t: string, i: nat): (end: Option<nat>)
    requires i <= |t|
    ensures end.Some? ==> i < end.value <= |t|
    decreases |t| - i
  {
    if i == |t| then None else if t[i] == '\n' then Some(i + 1) else LineEnd(t, i + 1)
  }

  function TagOf(c: char): Option<Tag> {
    match c
    case ' ' => Some(Context)
    case '-' => Some(Removed)
    case '+' => Some(Added)
    case _ => None
  }

  /** Reads body lines until both counts are used up. */
  function ReadBody(t: string, oldLeft: nat, newLeft: nat): (r: Option<(seq<BodyLine>, string)>)
    ensures r.Some? ==> |r.value.1| <= |t|
    decreases |t|
  {
    if oldLeft == 0 && newLeft == 0 then Some(([], t))
    else if t == "" then None
    else
      var tag := TagOf(t[0]);
      var end := LineEnd(t, 1);
      if tag.None? || end.None? then None
      else if (!tag.value.Added? && oldLeft == 0) || (!tag.value.Removed? && newLeft == 0) then None
      else
        var rest := ReadBody(t[end.value..],
                             if tag.value.Added? then oldLeft else oldLeft - 1,
                             if tag.value.Removed? then newLeft else newLeft - 1);
        if rest.None? then None
        else Some(([BodyLine(tag.value, t[1..end.value])] + rest.value.0, rest.value.1))
  }

  function ReadHunk(t: string): (r: Option<(Hunk, string)>)
    ensures r.Some? ==> |r.value.1| < |t|
  {
    var t0 := Expect(t, "@@ -");
    if t0.None? then None else
    var a := ReadField(t0.value, ",");
    if a.None? then None else
    var b := ReadField(a.value.1, " +");
    if b.None? then None else
    var c := ReadField(b.value.1, ",");
    if c.None? then None else
    var d := ReadField(c.value.1, " @@\n");
    if d.None? then None else
    var body := ReadBody(d.value.1, b.value.0, d.value.0);
    if body.None? then None
    else Some((Hunk(a.value.0, b.value.0, c.value.0, d.value.0, body.value.0), body.value.1))
  }

  function ReadHunks(t: string): Option<seq<Hunk>>
    decreases |t|
  {
    if t == "" then Some([])
    else
      var first := ReadHunk(t);
      if first.None? then None
      else
        var rest := ReadHunks(first.value.1);
        if rest.None? then None else Some([first.value.0] + rest.value)
  }

  /** Drops the two lines that name the files. */
  function ReadDiff(t: string): Option<seq<Hunk>> {
    var first := LineEnd(t, 0);
    if first.None? then None
    else
      var second := LineEnd(t, first.value);
      if second.None? then None else ReadHunks(t[second.value..])
  }

  /** A patcher that sees only the text of the diff and the old lines. */
  function PatchText(diff: string, lines: seq<string>): Option<seq<string>> {
    var hunks := ReadDiff(diff);
    if hunks.None? then None else Patch(hunks.value, lines, 0)
  }

  // ----- reading back what is written -------------------------------------------------------------

  /** One line: its only newline ends it. */
  predicate OneLine(line: string) {
    EndsLine(line) && forall i :: 0 <= i < |line| - 1 ==> line[i] != '\n'
  }

  lemma ExpectWord(word: string, rest: string)
    ensures Expect(word + rest, word) == Some(rest)
  {
  }

  lemma {:induction false} DigitsRun(t: string, i: nat, digits: string, rest: string)
    requires i <= |t| && t[i..] == digits + rest
    requires forall k :: 0 <= k < |digits| ==> '0' <= digits[k] <= '9'
    requires rest != "" && !('0' <= rest[0] <= '9')
    ensures DigitsEnd(t, i) == i + |digits|
    decreases |digits|
  {
    assert t[i] == t[i..][0];
    if digits != "" {
      assert t[i + 1..] == t[i..][1..] == digits[1..] + rest;
      DigitsRun(t, i + 1, digits[1..], rest);
    }
  }

  lemma ReadDecimal(n: nat, separator: string, rest: string)
    requires separator != "" && !('0' <= separator[0] <= '9')
    ensures ReadField(Decimal(n) + separator + rest, separator) == Some((n, rest))
  {
    hide Decimal;
    DecimalReads(n);
    var t := Decimal(n) + separator + rest;
    assert t == Decimal(n) + (separator + rest) && t[0..] == t;
    DigitsRun(t, 0, Decimal(n), separator + rest);
    assert t[..|Decimal(n)|] == Decimal(n) && t[|Decimal(n)|..] == separator + rest;
    ExpectWord(separator, rest);
  }

  lemma {:induction false} LineEndAt(t: string, i: nat, line: string, rest: string)
    requires i <= |t| && t[i..] == line + rest && OneLine(line)
    ensures LineEnd(t, i) == Some(i + |line|)
    decreases |line|
  {
    assert t[i] == t[i..][0] == line[0];
    if |line| > 1 {
      assert t[i + 1..] == t[i..][1..] == line[1..] + rest;
      LineEndAt(t, i + 1, line[1..], rest);
    }
  }

  predicate OneLines(body: seq<BodyLine>) {
    body == [] || (OneLine(body[0].text) && OneLines(body[1..]))
  }

  /** The parts of a body line followed by something. */
  lemma TaggedText(line: BodyLine, after: string)
    requires line.text != ""
    ensures var t := TagText(line.tag) + (line.text + after);
            && t != "" && TagOf(t[0]) == Some(line.tag) && t[1..] == line.text + after
            && t[1..1 + |line.text|] == line.text && t[1 + |line.text|..] == after
  {
    Prepended(TagText(line.tag)[0], line.text + after);
    assert TagText(line.tag) == [TagText(line.tag)[0]];
  }

  lemma ReadBodyOpens(t: string, oldLeft: nat, newLeft: nat, tag: Tag, end: nat)
    requires t != "" && TagOf(t[0]) == Some(tag) && LineEnd(t, 1) == Some(end)
    requires !tag.Added? ==> oldLeft > 0
    requires !tag.Removed? ==> newLeft > 0
    ensures var rest := ReadBody(t[end..], if tag.Added? then oldLeft else oldLeft - 1,
                                 if tag.Removed? then newLeft else newLeft - 1);
            ReadBody(t, oldLeft, newLeft) ==
            if rest.None? then None else Some(([BodyLine(tag, t[1..end])] + rest.value.0, rest.value.1))
  {
    hide LineEnd;
  }

  /** Reading one body line leaves the rest to be read with what remains of the counts. */
  lemma ReadLine(line: BodyLine, after: string, oldLeft: nat, newLeft: nat)
    requires OneLine(line.text)
    ensures var rest := ReadBody(after, oldLeft, newLeft);
            ReadBody(TagText(line.tag) + (line.text + after),
                     if line.tag.Added? then oldLeft else oldLeft + 1,
                     if line.tag.Removed? then newLeft else newLeft + 1) ==
            if rest.None? then None else Some(([line] + rest.value.0, rest.value.1))
  {
    hide ReadBody;
    var t := TagText(line.tag) + (line.text + after);
    TaggedText(line, after);
    LineEndAt(t, 1, line.text, after);
    var m := if line.tag.Added? then oldLeft else oldLeft + 1;
    var n := if line.tag.Removed? then newLeft else newLeft + 1;
    ReadBodyOpens(t, m, n, line.tag, 1 + |line.text|);
  }

  lemma BodyTextOpens(body: seq<BodyLine>)
    requires body != [] && OneLines(body)
    ensures OneLine(body[0].text) && OneLines(body[1..])
    ensures BodyText(body) == TagText(body[0].tag) + body[0].text + BodyText(body[1..])
    ensures CountOld(body) == (if body[0].tag.Added? then 0 else 1) + CountOld(body[1..])
    ensures CountNew(body) == (if body[0].tag.Removed? then 0 else 1) + CountNew(body[1..])
  {
    hide OneLine, TagText;
  }

  lemma EmptyBody(rest: string)
    ensures CountOld([]) == 0 && CountNew([]) == 0 && BodyText([]) + rest == rest
    ensures ReadBody(rest, 0, 0) == Some(([], rest))
  {
  }

  lemma {:induction false} ReadBodyText(body: seq<BodyLine>, rest: string)
    requires OneLines(body)
    ensures ReadBody(BodyText(body) + rest, CountOld(body), CountNew(body)) == Some((body, rest))
  {
    hide ReadBody, OneLine, OneLines, BodyText, CountOld, CountNew, TagText;
    if body == [] {
      EmptyBody(rest);
    } else {
      BodyTextOpens(body);
      var line, tail := body[0], BodyText(body[1..]);
      Associates(TagText(line.tag) + line.text, tail, rest);
      Associates(TagText(line.tag), line.text, tail + rest);
      ReadLine(line, tail + rest, CountOld(body[1..]), CountNew(body[1..]));
      ReadBodyText(body[1..], rest);
      HeadAndTail(body);
    }
  }

  predicate Consistent(h: Hunk) {
    h.oldCount == CountOld(h.body) && h.newCount == CountNew(h.body) && OneLines(h.body)
  }

  lemma ReadHunkText(h: Hunk, rest: string)
    requires Consistent(h)
    ensures ReadHunk(HunkText(h) + rest) == Some((h, rest))
  {
    hide ReadField, ReadBody, BodyText, Decimal;
    var t4 := BodyText(h.body) + rest;
    var t3 := Decimal(h.newCount) + " @@\n" + t4;
    var t2 := Decimal(h.newStart) + "," + t3;
    var t1 := Decimal(h.oldCount) + " +" + t2;
    var t0 := Decimal(h.oldStart) + "," + t1;
    HeaderSplit(h, t4, rest);
    ExpectWord("@@ -", t0);
    ReadDecimal(h.oldStart, ",", t1);
    ReadDecimal(h.oldCount, " +", t2);
    ReadDecimal(h.newStart, ",", t3);
    ReadDecimal(h.newCount, " @@\n", t4);
    ReadBodyText(h.body, rest);
  }

  lemma HeaderSplit(h: Hunk, t4: string, rest: string)
    requires t4 == BodyText(h.body) + rest
    ensures HunkText(h) + rest ==
            "@@ -" + (Decimal(h.oldStart) + "," + (Decimal(h.oldCount) + " +" +
              (Decimal(h.newStart) + "," + (Decimal(h.newCount) + " @@\n" + t4))))
  {
    hide Decimal, BodyText;
  }

  predicate AllConsistent(hunks: seq<Hunk>) {
    hunks == [] || (Consistent(hunks[0]) && AllConsistent(hunks[1..]))
  }

  /** Hunks can be read back from their text. */
  lemma {:induction false} ReadHunksText(hunks: seq<Hunk>)
    requires AllConsistent(hunks)
    ensures ReadHunks(HunksText(hunks)) == Some(hunks)
  {
    hide ReadHunk, HunkText;
    if hunks != [] {
      ReadHunkText(hunks[0], HunksText(hunks[1..]));
      ReadHunksText(hunks[1..]);
      assert hunks == [hunks[0]] + hunks[1..];
      assert HunksText(hunks) == HunkText(hunks[0]) + HunksText(hunks[1..]);
      HunkTextNonEmpty(hunks[0]);
    }
  }

  lemma HunkTextNonEmpty(h: Hunk)
    ensures HunkText(h) != ""
  {
    assert HunkText(h)[0] == '@';
  }

  // ----- whole diffs ------------------------------------------------------------------------------

  /** A line as it comes from a file: no newline before its end. */
  predicate FileLine(line: string) {
    line != "" && forall i :: 0 <= i < |line| - 1 ==> line[i] != '\n'
  }

  lemma {:induction false} SplitGivesFileLines(content: string)
    ensures forall k :: 0 <= k < |SplitInclusive(content)| ==> FileLine(SplitInclusive(content)[k])
    decreases |content|
  {
    if content != "" {
      SplitGivesFileLines(content[1..]);
      var rest := SplitInclusive(content[1..]);
      if content[0] != '\n' && rest != [] {
        assert FileLine([content[0]] + rest[0]);
      }
    }
  }

  lemma EndedIsOneLine(line: string)
    requires FileLine(line)
    ensures OneLine(Ended(line))
  {
  }

  ghost predicate FileLines(a: DiffInput) {
    forall k :: 0 <= k < |a.orig| ==> FileLine(a.orig[k])
  }

  lemma OneLinesOpen(body: seq<BodyLine>)
    ensures OneLines(body) <==> body == [] || (OneLine(body[0].text) && OneLines(body[1..]))
  {
    hide OneLine;
  }

  lemma {:induction false} TaggedOneLines(tag: Tag, a: DiffInput, from: nat, to: nat)
    requires a.Valid() && FileLines(a) && from <= to <= |a.index|
    ensures OneLines(TagLines(tag, a, from, to))
    decreases (to - from)
  {
    hide OneLine, OneLines, FileLine;
    OneLinesOpen(TagLines(tag, a, from, to));
    if from < to {
      EndedIsOneLine(a.orig[a.index[from]]);
      TaggedOneLines(tag, a, from + 1, to);
      assert TagLines(tag, a, from, to)[1..] == TagLines(tag, a, from + 1, to);
    }
  }

  lemma {:induction false} OneLinesConcat(x: seq<BodyLine>, y: seq<BodyLine>)
    requires OneLines(x) && OneLines(y)
    ensures OneLines(x + y)
  {
    if x == [] {
      assert x + y == y;
    } else {
      hide OneLine, OneLines;
      OneLinesOpen(x);
      OneLinesOpen(x + y);
      TailOfConcat(x, y);
      OneLinesConcat(x[1..], y);
    }
  }

  lemma {:induction false} BodyOneLines(ops: Group, a: DiffInput, b: DiffInput)
    requires a.Valid() && b.Valid() && InRange(ops, a, b) && FileLines(a) && FileLines(b)
    ensures OneLines(Body(ops, a, b))
  {
    if ops != [] {
      var op := ops[0];
      TaggedOneLines(Context, a, op.oldIndex, op.OldEnd());
      TaggedOneLines(Removed, a, op.oldIndex, op.OldEnd());
      TaggedOneLines(Added, b, op.newIndex, op.NewEnd());
      OneLinesConcat(TagLines(Removed, a, op.oldIndex, op.OldEnd()), TagLines(Added, b, op.newIndex, op.NewEnd()));
      BodyOneLines(ops[1..], a, b);
      OneLinesConcat(OpBody(op, a, b), Body(ops[1..], a, b));
    }
  }

  lemma HunkConsistent(g: Group, p: seq<string>, q: seq<string>)
    requires g != [] && Chain(g, g[0].oldIndex, g[0].newIndex, p, q)
    requires FileLines(Plain(p)) && FileLines(Plain(q))
    ensures InRange(g, Plain(p), Plain(q)) && Consistent(HunkOf(g, Plain(p), Plain(q)))
  {
    hide Chain, Body, CountOld, CountNew, OneLines;
    CountBody(g, g[0].oldIndex, g[0].newIndex, Plain(p), Plain(q));
    BodyOneLines(g, Plain(p), Plain(q));
  }

  lemma {:induction false} HunksConsistent(groups: seq<Group>, i: nat, j: nat, p: seq<string>, q: seq<string>)
    requires ValidGroups(groups, i, j, p, q) && FileLines(Plain(p)) && FileLines(Plain(q))
    ensures GroupsInRange(groups, Plain(p), Plain(q)) && AllConsistent(Hunks(groups, Plain(p), Plain(q)))
  {
    hide Chain, HunkOf, Consistent;
    PlainInRange(groups, i, j, p, q);
    if groups != [] {
      var g := groups[0];
      HunkConsistent(g, p, q);
      HunksConsistent(groups[1..], g[|g| - 1].OldEnd(), g[|g| - 1].NewEnd(), p, q);
      assert Hunks(groups, Plain(p), Plain(q))[1..] == Hunks(groups[1..], Plain(p), Plain(q));
    }
  }

  predicate LabelOk(name: string) {
    forall i :: 0 <= i < |name| ==> name[i] != '\n'
  }

  lemma ReadDiffText(hunks: seq<Hunk>, oldLabel: string, newLabel: string)
    requires AllConsistent(hunks) && LabelOk(oldLabel) && LabelOk(newLabel)
    ensures ReadDiff(FileHeader(oldLabel, newLabel) + HunksText(hunks)) == Some(hunks)
  {
    hide ReadHunks, HunksText;
    var one, two := "--- " + oldLabel + "\n", "+++ " + newLabel + "\n";
    var t := FileHeader(oldLabel, newLabel) + HunksText(hunks);
    assert t == one + (two + HunksText(hunks)) && t[0..] == t;
    LineEndAt(t, 0, one, two + HunksText(hunks));
    assert t[|one|..] == two + HunksText(hunks);
    LineEndAt(t, |one|, two, HunksText(hunks));
    assert t[|one| + |two|..] == HunksText(hunks);
    ReadHunksText(hunks);
  }

  // ----- the lines of a file ------------------------------------------------------------------------

  function Together(lines: seq<string>): string {
    if lines == [] then "" else lines[0] + Together(lines[1..])
  }

  /** Lines as a file has them: a newline ends each, except perhaps the last, and stands nowhere else. */
  ghost predicate LinesOfFile(lines: seq<string>) {
    && (forall k :: 0 <= k < |lines| ==> FileLine(lines[k]))
    && (forall k :: 0 <= k < |lines| - 1 ==> EndsLine(lines[k]))
  }

  lemma {:induction false} SplitFirstLine(line: string, rest: string)
    requires FileLine(line) && (EndsLine(line) || rest == "")
    ensures SplitInclusive(line + rest) == [line] + SplitInclusive(rest)
    decreases |line|
  {
    TailOfConcat(line, rest);
    if |line| == 1 {
      assert line == [line[0]] && line[1..] + rest == rest;
    } else {
      SplitFirstLine(line[1..], rest);
      HeadAndTail(line);
      Prepended(line[1..], SplitInclusive(rest));
      assert line[0] != '\n';
    }
  }

  lemma {:induction false} SplitTogether(lines: seq<string>)
    requires LinesOfFile(lines)
    ensures SplitInclusive(Together(lines)) == lines
  {
    if lines != [] {
      hide SplitInclusive;
      assert |lines| == 1 ==> lines[1..] == [];
      assert |lines| > 1 ==> EndsLine(lines[0]);
      SplitTogether(lines[1..]);
      SplitFirstLine(lines[0], Together(lines[1..]));
      HeadAndTail(lines);
    }
  }

  lemma {:induction false} SplitKeepsAll(content: string)
    ensures Together(SplitInclusive(content)) == content
    ensures forall k :: 0 <= k < |SplitInclusive(content)| - 1 ==> EndsLine(SplitInclusive(content)[k])
    decreases |content|
  {
    if content != "" {
      HeadAndTail(content);
      SplitKeepsAll(content[1..]);
      var rest := SplitInclusive(content[1..]);
      if content[0] == '\n' || rest == [] {
        Prepended([content[0]], rest);
      } else {
        Prepended([content[0]] + rest[0], rest[1..]);
        Associates([content[0]], rest[0], Together(rest[1..]));
      }
    }
  }

  /** A text is split in the one way that leaves all of it in lines of a file. */
  lemma SplitIsExact(content: string, lines: seq<string>)
    ensures lines == SplitInclusive(content) <==> LinesOfFile(lines) && Together(lines) == content
  {
    hide SplitInclusive, FileLine, EndsLine, Together;
    SplitKeepsAll(content);
    SplitGivesFileLines(content);
    if LinesOfFile(lines) && Together(lines) == content {
      SplitTogether(lines);
    }
  }

  // ----- the labels -----------------------------------------------------------------------------------

  /** What stands behind `mark` on the first line, and the lines after it. */
  function ReadLabel(t: string, mark: string): Option<(string, string)> {
    var end := LineEnd(t, 0);
    if end.None? || |mark| >= end.value || t[..|mark|] != mark then None
    else Some((t[|mark|..end.value - 1], t[end.value..]))
  }

  /** The old file is named on the first line, behind `---`, the new one on the second, behind `+++`. */
  function ReadLabels(t: string): Option<(string, string)> {
    var first := ReadLabel(t, "--- ");
    if first.None? then None
    else
      var second := ReadLabel(first.value.1, "+++ ");
      if second.None? then None else Some((first.value.0, second.value.0))
  }

  lemma LabelReadsBack(mark: string, name: string, rest: string)
    requires LabelOk(mark) && LabelOk(name)
    ensures ReadLabel(mark + name + "\n" + rest, mark) == Some((name, rest))
  {
    var line := mark + name + "\n";
    var t := line + rest;
    assert t[0..] == t;
    LineEndAt(t, 0, line, rest);
    assert t[..|mark|] == mark && t[|line|..] == rest;
    assert t[|mark|..|line| - 1] == name;
  }

  lemma LabelsReadBack(oldLabel: string, newLabel: string, hunks: seq<Hunk>)
    requires LabelOk(oldLabel) && LabelOk(newLabel)
    ensures ReadLabels(FileHeader(oldLabel, newLabel) + HunksText(hunks)) == Some((oldLabel, newLabel))
  {
    hide HunksText, ReadLabel;
    var two := "+++ " + newLabel + "\n" + HunksText(hunks);
    LabelReadsBack("+++ ", newLabel, HunksText(hunks));
    LabelReadsBack("--- ", oldLabel, two);
    assert FileHeader(oldLabel, newLabel) + HunksText(hunks) == "--- " + oldLabel + "\n" + two;
  }

  /**
   From the text alone, for two files compared without ignore flags and any valid edit script: patching
   the old lines with the printed diff gives exactly the new lines if and only if every line shown in a
   hunk ends in a newline and the hunks that are misplaced do no harm. Both labels are read back too.
   */
  lemma PrintedDiffPatchesBack(oldContent: string, newContent: string, ignore: Ignore, groups: seq<Group>,
                               oldLabel: string, newLabel: string)
    requires !ignore.active && LabelOk(oldLabel) && LabelOk(newLabel)
    requires var p, q := SplitInclusive(oldContent), SplitInclusive(newContent);
             ValidGroups(groups, 0, 0, p, q) && Apart(groups, p)
    ensures var p, q := SplitInclusive(oldContent), SplitInclusive(newContent);
            var a, b := Prepared(oldContent, ignore), Prepared(newContent, ignore);
            && GroupsInRange(groups, a, b)
            && ReadLabels(FileHeader(oldLabel, newLabel) + HunksText(Hunks(groups, a, b))) == Some((oldLabel, newLabel))
            && (PatchText(FileHeader(oldLabel, newLabel) + HunksText(Hunks(groups, a, b)), p) == Some(q)
                <==> AllShownEnded(groups, p, q) && Restores(groups, 0, p, q))
  {
    hide ReadDiff, ReadLabels, HunksText, Hunks, Patch, Restores, AllShownEnded;
    var p, q := SplitInclusive(oldContent), SplitInclusive(newContent);
    NoFlagsIsPlain(oldContent, ignore);
    NoFlagsIsPlain(newContent, ignore);
    SplitGivesFileLines(oldContent);
    SplitGivesFileLines(newContent);
    HunksConsistent(groups, 0, 0, p, q);
    ReadDiffText(Hunks(groups, Plain(p), Plain(q)), oldLabel, newLabel);
    LabelsReadBack(oldLabel, newLabel, Hunks(groups, Plain(p), Plain(q)));
    PatchBackIsExact(groups, p, q);
  }
}
