/**
 fmt's paragraph filling: each word goes on the current line if it fits. No other way of breaking
 the words into lines that fit needs fewer lines.
 */
module Fmt {
  import opened Utf8Text
  import opened Sequences
  import opened TextParts

  type Words = seq<string>

  /** Width of a line: its words in bytes and the single spaces between them. */
  function LineLen(line: Words): nat {
    if line == [] then 0
    else if |line| == 1 then ByteLen(line[0])
    else LineLen(line[..|line| - 1]) + 1 + ByteLen(line[|line| - 1])
  }

  /** How many words the line takes that holds `words[..i]` so far, `lineLen` wide. */
  function Take(words: Words, i: nat, lineLen: nat, width: nat): (n: nat)
    requires i <= |words|
    ensures i <= n <= |words|
    decreases |words| - i
  {
    if i == |words| || lineLen + 1 + ByteLen(words[i]) > width then i
    else Take(words, i + 1, lineLen + 1 + ByteLen(words[i]), width)
  }

  /** Words on the first line. */
  function First(words: Words, width: nat): (n: nat)
    requires words != []
    ensures 1 <= n <= |words|
  {
    Take(words, 1, ByteLen(words[0]), width)
  }

  /** The lines that filling makes. */
  function Lines(words: Words, width: nat): seq<Words>
    decreases |words|
  {
    if words == [] then []
    else var n := First(words, width); [words[..n]] + Lines(words[n..], width)
  }

  function LineText(line: Words): string {
    if line == [] then ""
    else if |line| == 1 then line[0]
    else LineText(line[..|line| - 1]) + " " + line[|line| - 1]
  }

  function LinesText(lines: seq<Words>): string {
    if lines == [] then ""
    else if |lines| == 1 then LineText(lines[0])
    else LineText(lines[0]) + "\n" + LinesText(lines[1..])
  }

  // ----- the loop -------------------------------------------------------------------------------

  /** What remains to print when `words[..i]` are on the current line. */
  ghost function Rest(words: Words, i: nat, lineLen: nat, width: nat): string
    requires 1 <= i <= |words|
  {
    var n := Take(words, i, lineLen, width);
    Spaced(words[i..n]) + (if n == |words| then "" else "\n" + LinesText(Lines(words[n..], width)))
  }

  /** Words each with a space before it. */
  function Spaced(words: Words): string {
    if words == [] then "" else " " + words[0] + Spaced(words[1..])
  }

  lemma LineTextGrows(line: Words, word: string)
    requires line != []
    ensures LineText(line + [word]) == LineText(line) + (" " + word)
  {
    var longer := line + [word];
    assert longer[..|longer| - 1] == line;
    assert LineText(line) + " " + word == LineText(line) + (" " + word);
  }

  lemma {:induction false} SpacedAfter(line: Words, more: Words)
    requires line != []
    ensures LineText(line + more) == LineText(line) + Spaced(more)
    decreases |more|
  {
    hide LineText;
    if more == [] {
      assert line + more == line;
    } else {
      LineTextGrows(line, more[0]);
      SpacedAfter(line + [more[0]], more[1..]);
      assert line + [more[0]] + more[1..] == line + more;
    }
  }

  lemma TextOfFirst(words: Words, width: nat)
    requires words != []
    ensures LinesText(Lines(words, width)) == words[0] + Rest(words, 1, ByteLen(words[0]), width)
  {
    hide Take, Lines, LineText, Spaced, LinesText;
    var n := First(words, width);
    LinesOpen(words, width);
    TextOfOpenLine(words, n);
    TextOpens(Lines(words, width));
    if n < |words| {
      LinesOpen(words[n..], width);
      var text := LinesText(Lines(words[n..], width));
      assert words[0] + Spaced(words[1..n]) + ("\n" + text) == words[0] + (Spaced(words[1..n]) + ("\n" + text));
    } else {
      assert words[n..] == [];
      NoWords(width);
    }
  }

  lemma TextOpens(lines: seq<Words>)
    requires lines != []
    ensures LinesText(lines) ==
            LineText(lines[0]) + (if lines[1..] == [] then "" else "\n" + LinesText(lines[1..]))
  {
    hide LineText;
    if |lines| > 1 {
      Associates(LineText(lines[0]), "\n", LinesText(lines[1..]));
    }
  }

  lemma TextOfOpenLine(words: Words, n: nat)
    requires 1 <= n <= |words|
    ensures LineText(words[..n]) == words[0] + Spaced(words[1..n])
  {
    hide LineText, Spaced;
    OneWord(words[0]);
    SpacedAfter([words[0]], words[1..n]);
    assert [words[0]] + words[1..n] == words[..n];
  }

  lemma OneWord(word: string)
    ensures LineText([word]) == word
  {
  }

  lemma LinesOpen(words: Words, width: nat)
    requires words != []
    ensures var n := First(words, width);
            var lines := Lines(words, width);
            lines != [] && lines[0] == words[..n] && lines[1..] == Lines(words[n..], width)
  {
    hide Take;
  }

  method FillParagraph(words: Words, width: nat) returns (stdout: string)
    ensures stdout == LinesText(Lines(words, width)) + "\n"
  {
    hide LinesText, Lines, Rest, Take;
    stdout := "";
    var lineLen: nat := 0;
    ghost var start: nat := 0;
    NoWords(width);
    for i := 0 to |words|
      invariant i == 0 ==> stdout == ""
      invariant start < i || start == i == 0
      invariant i > 0 ==>
        stdout + Rest(words[start..], i - start, lineLen, width) == LinesText(Lines(words, width))
    {
      var word := words[i];
      if i == 0 {
        stdout := stdout + word;
        lineLen := ByteLen(word);
        TextOfFirst(words, width);
        assert words[0..] == words;
      } else if lineLen + 1 + ByteLen(word) > width {
        RestBreaks(words, start, i, lineLen, width);
        stdout := stdout + "\n";
        stdout := stdout + word;
        lineLen := ByteLen(word);
        start := i;
      } else {
        RestGoesOn(words, start, i, lineLen, width);
        stdout := stdout + " ";
        stdout := stdout + word;
        lineLen := lineLen + (1 + ByteLen(word));
      }
    }
    if |words| > 0 {
      RestEnds(words[start..], lineLen, width);
    }
    stdout := stdout + "\n";
  }

  lemma NoWords(width: nat)
    ensures Lines([], width) == [] && LinesText(Lines([], width)) == ""
  {
  }

  lemma RestEnds(words: Words, lineLen: nat, width: nat)
    requires words != []
    ensures Rest(words, |words|, lineLen, width) == ""
  {
    assert words[|words|..|words|] == [];
  }

  lemma RestBreaks(words: Words, start: nat, i: nat, lineLen: nat, width: nat)
    requires start < i < |words| && lineLen + 1 + ByteLen(words[i]) > width
    ensures Rest(words[start..], i - start, lineLen, width) ==
            "\n" + words[i] + Rest(words[i..], 1, ByteLen(words[i]), width)
  {
    hide LinesText;
    var line := words[start..];
    assert line[i - start] == words[i];
    assert line[i - start..i - start] == [];
    assert line[i - start..] == words[i..];
    TextOfFirst(words[i..], width);
  }

  lemma RestGoesOn(words: Words, start: nat, i: nat, lineLen: nat, width: nat)
    requires start < i < |words| && lineLen + 1 + ByteLen(words[i]) <= width
    ensures Rest(words[start..], i - start, lineLen, width) ==
            " " + words[i] + Rest(words[start..], i + 1 - start, lineLen + 1 + ByteLen(words[i]), width)
  {
    hide LinesText, Lines;
    var line := words[start..];
    var k := i - start;
    assert line[k] == words[i];
    var n := Take(line, k, lineLen, width);
    assert line[k..n] == [line[k]] + line[k + 1..n];
    assert line[k..n][1..] == line[k + 1..n];
  }

  // ----- what filling achieves -------------------------------------------------------------------

  /** A line may stand: it fits, or it is a single word. */
  predicate MayStand(line: Words, width: nat) {
    line != [] && (LineLen(line) <= width || |line| == 1)
  }

  function Flatten(lines: seq<Words>): Words {
    if lines == [] then [] else lines[0] + Flatten(lines[1..])
  }

  /** An in-order split of the words into lines that may stand. */
  ghost predicate IsSplit(lines: seq<Words>, words: Words, width: nat) {
    Flatten(lines) == words && forall k :: 0 <= k < |lines| ==> MayStand(lines[k], width)
  }

  lemma LineLenGrows(words: Words, i: nat)
    requires 1 <= i < |words|
    ensures LineLen(words[..i + 1]) == LineLen(words[..i]) + 1 + ByteLen(words[i])
  {
    assert words[..i + 1][..i] == words[..i];
  }

  lemma {:induction false} TakeMeets(words: Words, i: nat, lineLen: nat, width: nat)
    requires 1 <= i <= |words| && lineLen == LineLen(words[..i])
    ensures var n := Take(words, i, lineLen, width);
            && (n > i ==> LineLen(words[..n]) <= width)
            && (n < |words| ==> LineLen(words[..n + 1]) > width)
    decreases |words| - i
  {
    hide LineLen, ByteLen;
    if i < |words| {
      LineLenGrows(words, i);
      if lineLen + 1 + ByteLen(words[i]) <= width {
        TakeMeets(words, i + 1, lineLen + 1 + ByteLen(words[i]), width);
      }
    }
  }

  lemma {:induction false} LongerIsWider(words: Words, m: nat, n: nat)
    requires m <= n <= |words|
    ensures LineLen(words[..m]) <= LineLen(words[..n])
    decreases n - m
  {
    if m < n {
      LongerIsWider(words, m, n - 1);
      assert words[..n][..n - 1] == words[..n - 1];
    }
  }

  /** The first line takes at least as many words as any line that may stand. */
  lemma FirstIsLongest(words: Words, m: nat, width: nat)
    requires 1 <= m <= |words| && MayStand(words[..m], width)
    ensures m <= First(words, width)
  {
    var n := First(words, width);
    assert words[..1] == [words[0]];
    TakeMeets(words, 1, ByteLen(words[0]), width);
    if n < m {
      LongerIsWider(words, n + 1, m);
    }
  }

  lemma FirstMayStand(words: Words, width: nat)
    requires words != []
    ensures MayStand(words[..First(words, width)], width)
  {
    assert words[..1] == [words[0]];
    TakeMeets(words, 1, ByteLen(words[0]), width);
  }

  lemma {:induction false} DropFirstIsNarrower(line: Words)
    requires |line| >= 2
    ensures LineLen(line[1..]) <= LineLen(line)
  {
    if |line| > 2 {
      var front := line[..|line| - 1];
      DropFirstIsNarrower(front);
      assert line[1..][..|line| - 2] == front[1..];
    } else {
      assert line[..1] == [line[0]];
      assert line[1..] == [line[1]];
    }
  }

  /** Fewer words never need more lines. */
  lemma {:induction false} SuffixNeedsNoMore(words: Words, k: nat, width: nat)
    requires k <= |words|
    ensures |Lines(words[k..], width)| <= |Lines(words, width)|
    decreases |words|, k + 1
  {
    if k > 1 {
      SuffixNeedsNoMore(words, 1, width);
      SuffixNeedsNoMore(words[1..], k - 1, width);
      assert words[1..][k - 1..] == words[k..];
    } else if k == 1 {
      DropOneWord(words, width);
    } else {
      assert words[0..] == words;
    }
  }

  lemma {:induction false} DropOneWord(words: Words, width: nat)
    requires words != []
    ensures |Lines(words[1..], width)| <= |Lines(words, width)|
    decreases |words|, 1
  {
    var n := First(words, width);
    LinesOpen(words, width);
    FirstMayStand(words, width);
    if n > 1 {
      DropFirstIsNarrower(words[..n]);
      DropFromFirst(words, n, width);
    }
  }

  lemma DropFromFirst(words: Words, n: nat, width: nat)
    requires 1 < n <= |words| && MayStand(words[..n][1..], width)
    ensures |Lines(words[1..], width)| <= 1 + |Lines(words[n..], width)|
    decreases |words|, 0
  {
    hide Lines, Take, MayStand;
    var tail := words[1..];
    FrontOfTail(words, n);
    FirstIsLongest(tail, n - 1, width);
    LinesOpen(tail, width);
    var k := First(tail, width);
    TailOfTail(words, 1, k);
    TailOfTail(words, n, k + 1 - n);
    SuffixNeedsNoMore(words[n..], k + 1 - n, width);
  }

  lemma TailOfTail(words: Words, i: nat, k: nat)
    requires i + k <= |words|
    ensures words[i..][k..] == words[i + k..]
  {
  }

  lemma FrontOfTail(words: Words, n: nat)
    requires 1 <= n <= |words|
    ensures words[..n][1..] == words[1..][..n - 1]
  {
  }

  /** Greedy filling uses the fewest lines of all splits into lines that may stand. */
  lemma {:induction false} FillIsOptimal(words: Words, width: nat, split: seq<Words>)
    requires IsSplit(split, words, width)
    ensures |Lines(words, width)| <= |split|
    decreases |split|
  {
    if words != [] {
      var m := |split[0]|;
      assert words[..m] == split[0] && words[m..] == Flatten(split[1..]);
      FirstIsLongest(words, m, width);
      var n := First(words, width);
      assert words[m..][n - m..] == words[n..];
      SuffixNeedsNoMore(words[m..], n - m, width);
      FillIsOptimal(words[m..], width, split[1..]);
    }
  }

  /** Filling is itself such a split: no word lost or moved, and only single words may be too wide. */
  lemma {:induction false} FillIsSplit(words: Words, width: nat)
    ensures IsSplit(Lines(words, width), words, width)
    decreases |words|
  {
    if words != [] {
      var n := First(words, width);
      FirstMayStand(words, width);
      FillIsSplit(words[n..], width);
      var lines := Lines(words, width);
      assert lines[1..] == Lines(words[n..], width);
      assert words[..n] + words[n..] == words;
      forall k | 0 <= k < |lines|
        ensures MayStand(lines[k], width)
      {
        if k > 0 {
          assert lines[k] == lines[1..][k - 1];
        }
      }
    }
  }

  /** The width of a line is the number of bytes printed for it. */
  lemma {:induction false} LineLenIsPrinted(line: Words)
    ensures ByteLen(LineText(line)) == LineLen(line)
  {
    if |line| > 1 {
      var front := line[..|line| - 1];
      LineLenIsPrinted(front);
      ByteLenConcat(LineText(front) + " ", line[|line| - 1]);
      ByteLenConcat(LineText(front), " ");
      assert ByteLen(" ") == 1;
    }
  }

  // ----- what is printed ---------------------------------------------------------------------------

  /** Words as `split_whitespace` gives them. */
  ghost predicate Separable(words: Words) {
    forall k :: 0 <= k < |words| ==> words[k] != "" && ' ' !in words[k] && '\n' !in words[k]
  }

  lemma {:induction false} SpacedDivides(first: string, more: Words)
    requires ' ' !in first && '\n' !in first && Separable(more)
    ensures Divided(first + Spaced(more), ' ') == [first] + more && '\n' !in first + Spaced(more)
    decreases |more|
  {
    hide Divided;
    DividedFirst(first, "", ' ');
    if more == [] {
      assert first + Spaced(more) == first;
    } else {
      SpacedDivides(more[0], more[1..]);
      DividedFirst(first, more[0] + Spaced(more[1..]), ' ');
      Associates(" ", more[0], Spaced(more[1..]));
      HeadAndTail(more);
    }
  }

  lemma LineDivides(line: Words)
    requires line != [] && Separable(line)
    ensures Divided(LineText(line), ' ') == line && '\n' !in LineText(line)
  {
    hide Divided, LineText, Spaced;
    OneWord(line[0]);
    SpacedAfter([line[0]], line[1..]);
    HeadAndTail(line);
    SpacedDivides(line[0], line[1..]);
  }

  /** The lines can be read back from the text, and the words from the lines. */
  lemma {:induction false} PrintedReadsBack(lines: seq<Words>)
    requires lines != [] && forall k :: 0 <= k < |lines| ==> lines[k] != [] && Separable(lines[k])
    ensures var rows := Divided(LinesText(lines), '\n');
            |rows| == |lines| && forall k :: 0 <= k < |lines| ==> Divided(rows[k], ' ') == lines[k]
  {
    hide Divided, LineText, Separable;
    LineDivides(lines[0]);
    DividedFirst(LineText(lines[0]), "", '\n');
    if |lines| > 1 {
      PrintedReadsBack(lines[1..]);
      DividedFirst(LineText(lines[0]), LinesText(lines[1..]), '\n');
      Associates(LineText(lines[0]), "\n", LinesText(lines[1..]));
    }
  }

  lemma {:induction false} SplitIsSeparable(lines: seq<Words>, words: Words, width: nat)
    requires IsSplit(lines, words, width) && Separable(words)
    ensures forall k :: 0 <= k < |lines| ==> lines[k] != [] && Separable(lines[k])
  {
    hide Separable, LineLen;
    if lines != [] {
      SeparableParts(lines[0], Flatten(lines[1..]));
      assert IsSplit(lines[1..], Flatten(lines[1..]), width);
      SplitIsSeparable(lines[1..], Flatten(lines[1..]), width);
    }
  }

  lemma SeparableParts(a: Words, b: Words)
    requires Separable(a + b)
    ensures Separable(a) && Separable(b)
  {
    assert forall k :: 0 <= k < |a| ==> a[k] == (a + b)[k];
    assert forall k :: 0 <= k < |b| ==> b[k] == (a + b)[|a| + k];
  }

  /** A filled paragraph shows its lines, and they show their words, with one space between two. */
  lemma FilledReadsBack(words: Words, width: nat)
    requires words != [] && Separable(words)
    ensures var rows := Divided(LinesText(Lines(words, width)), '\n');
            && |rows| == |Lines(words, width)|
            && forall k :: 0 <= k < |rows| ==> Divided(rows[k], ' ') == Lines(words, width)[k]
  {
    hide Divided, LinesText, Lines, Separable;
    LinesOpen(words, width);
    FillIsSplit(words, width);
    SplitIsSeparable(Lines(words, width), words, width);
    PrintedReadsBack(Lines(words, width));
  }
}
