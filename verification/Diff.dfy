/**
 Unified diffs: from the edit script of the diff library to hunks and their text. The search for
 the script is the library's; what it promises is `ValidGroups`.
 */
module Diff {
  import opened Numerals

  // ----- input ---------------------------------------------------------------------------------

  /** Lines with their line ends. */
  function SplitInclusive(content: string): (lines: seq<string>)
    ensures forall i :: 0 <= i < |lines| ==> lines[i] != ""
    decreases |content|
  {
    if content == "" then []
    else if content[0] == '\n' then ["\n"] + SplitInclusive(content[1..])
    else
      var rest := SplitInclusive(content[1..]);
      if rest == [] then [[content[0]]] else [[content[0]] + rest[0]] + rest[1..]
  }

  /** Original lines, the lines compared, and for each compared line the index of its original. */
  datatype DiffInput = DiffInput(orig: seq<string>, proc: seq<string>, index: seq<nat>)
  {
    predicate Valid() {
      && |proc| == |index|
      && (forall k :: 0 <= k < |index| ==> index[k] < |orig|)
      && (forall k, l :: 0 <= k < l < |index| ==> index[k] < index[l])
    }
  }

  /** The ignore flags: how a line is normalised for comparison, and which lines are not compared. */
  datatype Ignore = Ignore(active: bool, normal: string -> string, blank: string -> bool)

  /** The lines from `i` on that are compared, with their indices. */
  function Compared(orig: seq<string>, i: nat, ignore: Ignore): (r: seq<nat>)
    requires i <= |orig|
    ensures forall k :: 0 <= k < |r| ==> i <= r[k] < |orig|
    ensures forall k, l :: 0 <= k < l < |r| ==> r[k] < r[l]
    decreases |orig| - i
  {
    if i == |orig| then []
    else if ignore.active && ignore.blank(orig[i]) then Compared(orig, i + 1, ignore)
    else [i] + Compared(orig, i + 1, ignore)
  }

  function NormalLine(line: string, ignore: Ignore): string {
    if ignore.active then ignore.normal(line) else line
  }

  function NormalLines(orig: seq<string>, index: seq<nat>, ignore: Ignore): (lines: seq<string>)
    requires forall k :: 0 <= k < |index| ==> index[k] < |orig|
    ensures |lines| == |index|
  {
    seq(|index|, k requires 0 <= k < |index| => NormalLine(orig[index[k]], ignore))
  }

  function Prepared(content: string, ignore: Ignore): (a: DiffInput)
    ensures a.Valid()
  {
    var orig := SplitInclusive(content);
    var index := Compared(orig, 0, ignore);
    DiffInput(orig, NormalLines(orig, index, ignore), index)
  }

  // ----- edit scripts --------------------------------------------------------------------------

  datatype Op =
    | Equal(oldIndex: nat, newIndex: nat, len: nat)
    | Delete(oldIndex: nat, oldLen: nat, newIndex: nat)
    | Insert(oldIndex: nat, newIndex: nat, newLen: nat)
    | Replace(oldIndex: nat, oldLen: nat, newIndex: nat, newLen: nat)
  {
    function OldSize(): nat {
      match this
      case Equal(_, _, len) => len
      case Delete(_, len, _) => len
      case Insert(_, _, _) => 0
      case Replace(_, len, _, _) => len
    }

    function NewSize(): nat {
      match this
      case Equal(_, _, len) => len
      case Delete(_, _, _) => 0
      case Insert(_, _, len) => len
      case Replace(_, _, _, len) => len
    }

    function OldEnd(): nat {
      oldIndex + OldSize()
    }

    function NewEnd(): nat {
      newIndex + NewSize()
    }
  }

  type Group = seq<Op>

  /** The operations of a group follow one another, from `i` in `p` and from `j` in `q`. */
  ghost predicate Chain(ops: Group, i: nat, j: nat, p: seq<string>, q: seq<string>) {
    if ops == [] then true
    else
      var op := ops[0];
      && op.oldIndex == i && op.newIndex == j
      && op.OldEnd() <= |p| && op.NewEnd() <= |q|
      && (op.Equal? ==> p[i..op.OldEnd()] == q[j..op.NewEnd()])
      && Chain(ops[1..], op.OldEnd(), op.NewEnd(), p, q)
  }

  /** The groups turn `p` from `i` on into `q` from `j` on; lines between groups are equal. */
  ghost predicate ValidGroups(groups: seq<Group>, i: nat, j: nat, p: seq<string>, q: seq<string>) {
    if groups == [] then i <= |p| && j <= |q| && p[i..] == q[j..]
    else
      var g := groups[0];
      && g != []
      && i <= g[0].oldIndex <= |p| && j <= g[0].newIndex <= |q|
      && p[i..g[0].oldIndex] == q[j..g[0].newIndex]
      && Chain(g, g[0].oldIndex, g[0].newIndex, p, q)
      && ValidGroups(groups[1..], g[|g| - 1].OldEnd(), g[|g| - 1].NewEnd(), p, q)
  }

  // ----- hunks ---------------------------------------------------------------------------------

  datatype Tag = Context | Removed | Added

  datatype BodyLine = BodyLine(tag: Tag, text: string)

  datatype Hunk = Hunk(oldStart: nat, oldCount: nat, newStart: nat, newCount: nat, body: seq<BodyLine>)

  predicate EndsLine(line: string) {
    line != "" && line[|line| - 1] == '\n'
  }

  function Ended(line: string): (s: string)
    ensures EndsLine(s)
  {
    if EndsLine(line) then line else line + "\n"
  }

  /** The compared lines from `from` to `to`, as body lines. */
  function TagLines(tag: Tag, a: DiffInput, from: nat, to: nat): (body: seq<BodyLine>)
    requires a.Valid() && from <= to <= |a.index|
    ensures |body| == to - from
  {
    seq(to - from, k requires 0 <= k < to - from => BodyLine(tag, Ended(a.orig[a.index[from + k]])))
  }

  function OpBody(op: Op, a: DiffInput, b: DiffInput): seq<BodyLine>
    requires a.Valid() && b.Valid() && op.OldEnd() <= |a.index| && op.NewEnd() <= |b.index|
  {
    match op
    case Equal(_, _, _) => TagLines(Context, a, op.oldIndex, op.OldEnd())
    case Delete(_, _, _) => TagLines(Removed, a, op.oldIndex, op.OldEnd())
    case Insert(_, _, _) => TagLines(Added, b, op.newIndex, op.NewEnd())
    case Replace(_, _, _, _) =>
      TagLines(Removed, a, op.oldIndex, op.OldEnd()) + TagLines(Added, b, op.newIndex, op.NewEnd())
  }

  /** Indices within both inputs. */
  predicate InRange(ops: Group, a: DiffInput, b: DiffInput) {
    forall k :: 0 <= k < |ops| ==> ops[k].OldEnd() <= |a.index| && ops[k].NewEnd() <= |b.index|
  }

  function Body(ops: Group, a: DiffInput, b: DiffInput): seq<BodyLine>
    requires a.Valid() && b.Valid() && InRange(ops, a, b)
  {
    if ops == [] then [] else OpBody(ops[0], a, b) + Body(ops[1..], a, b)
  }

  /** Header start: the original line number of the first compared line, or 1 past the end. */
  function HeaderStart(a: DiffInput, from: nat): nat {
    if from < |a.index| then a.index[from] + 1 else 1
  }

  /** Header count: the span of original lines from the first compared line to the last. */
  function HeaderCount(a: DiffInput, from: nat, to: nat): nat
    requires a.Valid() && to <= |a.index|
  {
    if to > from then a.index[to - 1] - a.index[from] + 1 else 0
  }

  function HunkOf(g: Group, a: DiffInput, b: DiffInput): Hunk
    requires a.Valid() && b.Valid() && g != [] && InRange(g, a, b)
  {
    var first, last := g[0], g[|g| - 1];
    Hunk(HeaderStart(a, first.oldIndex), HeaderCount(a, first.oldIndex, last.OldEnd()),
         HeaderStart(b, first.newIndex), HeaderCount(b, first.newIndex, last.NewEnd()),
         Body(g, a, b))
  }

  function TagText(tag: Tag): string {
    match tag
    case Context => " "
    case Removed => "-"
    case Added => "+"
  }

  function BodyText(body: seq<BodyLine>): string {
    if body == [] then "" else TagText(body[0].tag) + body[0].text + BodyText(body[1..])
  }

  function HeaderText(h: Hunk): string {
    "@@ -" + Decimal(h.oldStart) + "," + Decimal(h.oldCount) +
    " +" + Decimal(h.newStart) + "," + Decimal(h.newCount) + " @@\n"
  }

  function HunkText(h: Hunk): string {
    HeaderText(h) + BodyText(h.body)
  }

  function HunksText(hunks: seq<Hunk>): string {
    if hunks == [] then "" else HunkText(hunks[0]) + HunksText(hunks[1..])
  }

  predicate GroupsInRange(groups: seq<Group>, a: DiffInput, b: DiffInput) {
    groups == [] || (groups[0] != [] && InRange(groups[0], a, b) && GroupsInRange(groups[1..], a, b))
  }

  function Hunks(groups: seq<Group>, a: DiffInput, b: DiffInput): (hunks: seq<Hunk>)
    requires a.Valid() && b.Valid() && GroupsInRange(groups, a, b)
    ensures |hunks| == |groups|
  {
    if groups == [] then [] else [HunkOf(groups[0], a, b)] + Hunks(groups[1..], a, b)
  }

  function FileHeader(oldLabel: string, newLabel: string): string {
    "--- " + oldLabel + "\n" + "+++ " + newLabel + "\n"
  }
}
