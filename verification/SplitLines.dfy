/** split by lines: which texts the pieces add up to again. */
module SplitLines {
  import opened Wrappers
  import opened Sequences
  import opened Split

  function LineEnd(s: string): (k: nat)
    ensures k <= |s| && (k < |s| ==> s[k] == '\n')
    ensures forall i :: 0 <= i < k ==> s[i] != '\n'
  {
    if s == "" || s[0] == '\n' then 0 else 1 + LineEnd(s[1..])
  }

  function WithoutReturn(line: string): string {
    if line != "" && line[|line| - 1] == '\r' then line[..|line| - 1] else line
  }

  /** `str::lines`: a line ends with a newline, before which one carriage return is dropped. */
  function Lines(s: string): seq<string>
    decreases |s|
  {
    if s == "" then []
    else
      var k := LineEnd(s);
      if k == |s| then [s] else [WithoutReturn(s[..k])] + Lines(s[k + 1..])
  }

  function Join(lines: seq<string>): string {
    if lines == [] then "" else if |lines| == 1 then lines[0] else lines[0] + "\n" + Join(lines[1..])
  }

  /** What is written for a group of lines. */
  function Piece(lines: seq<string>): string {
    var s := Join(lines);
    if s != "" then s + "\n" else s
  }

  function Pieces(groups: seq<seq<string>>): seq<string> {
    if groups == [] then [] else [Piece(groups[0])] + Pieces(groups[1..])
  }

  /** `None` for the refused count of 0. */
  method LinePieces(content: string, n: nat) returns (r: Option<seq<string>>)
    ensures r == if n == 0 then None else Some(Pieces(Chunks(Lines(content), n)))
  {
    hide Piece, Join;
    if n == 0 {
      return None;
    }
    var groups := Chunks(Lines(content), n);
    var pieces: seq<string> := [];
    assert groups[0..] == groups;
    for i := 0 to |groups|
      invariant pieces + Pieces(groups[i..]) == Pieces(groups)
    {
      assert groups[i..][0] == groups[i] && groups[i..][1..] == groups[i + 1..];
      PieceIs(groups[i]);
      var s := Join(groups[i]);
      if s != "" {
        s := s + "\n";
      }
      pieces := pieces + [s];
    }
    assert Pieces(groups[|groups|..]) == [];
    assert pieces == Pieces(groups);
    r := Some(pieces);
  }

  lemma PieceIs(lines: seq<string>)
    ensures Piece(lines) == if Join(lines) != "" then Join(lines) + "\n" else Join(lines)
  {
  }

  // ----- what is read -------------------------------------------------------------------------------

  predicate EndsLine(s: string) {
    s == "" || s[|s| - 1] == '\n'
  }

  /** The text that the lines came from, with a carriage return back where one was lost. */
  function Rebuilt(lines: seq<string>, lost: seq<bool>, ended: bool): string
    requires |lost| == |lines|
  {
    if lines == [] then ""
    else
      lines[0]
      + (if lost[0] then "\r" else "")
      + (if |lines| > 1 || ended then "\n" else "")
      + Rebuilt(lines[1..], lost[1..], ended)
  }

  predicate EndsInReturn(line: string) {
    line != "" && line[|line| - 1] == '\r'
  }

  /** What stands behind the first line end ends as the whole text does. */
  lemma RestEnds(s: string, k: nat)
    requires k < |s| && s[k] == '\n'
    ensures EndsLine(s[k + 1..]) <==> EndsLine(s)
    ensures s == s[..k] + "\n" + s[k + 1..]
  {
    if k + 1 < |s| {
      assert s[k + 1..][|s| - k - 2] == s[|s| - 1];
    }
  }

  lemma ReturnIsBack(line: string)
    ensures WithoutReturn(line) + (if EndsInReturn(line) then "\r" else "") == line
  {
  }

  lemma RebuiltOpens(line: string, rest: seq<string>, l: bool, lost: seq<bool>, ended: bool)
    requires |lost| == |rest| && (rest != [] || ended)
    ensures Rebuilt([line] + rest, [l] + lost, ended) ==
            line + (if l then "\r" else "") + "\n" + Rebuilt(rest, lost, ended)
  {
    Prepended(line, rest);
    Prepended(l, lost);
  }

  lemma RebuiltNothing(ended: bool)
    ensures Rebuilt([], [], ended) == "" && Lines("") == []
  {
  }

  lemma RebuiltLast(s: string)
    requires s != "" && LineEnd(s) == |s|
    ensures Lines(s) == [s] && Rebuilt([s], [false], false) == s && !EndsLine(s)
  {
    assert [s][1..] == [] && [false][1..] == [];
  }

  lemma NoNewlineLeft(s: string, line: string)
    requires line == WithoutReturn(s[..LineEnd(s)])
    ensures '\n' !in line
  {
  }

  /**
   Reading lines is exact: the lines hold no newline, and give the text back with its newlines and with
   the carriage returns that were lost, at most one before each newline. A line that lost none does not
   end in one, and an unended last line loses none.
   */
  lemma {:induction false} LinesRebuild(s: string) returns (lost: seq<bool>)
    ensures |lost| == |Lines(s)| && Rebuilt(Lines(s), lost, EndsLine(s)) == s
    ensures forall k :: 0 <= k < |lost| ==> '\n' !in Lines(s)[k]
    ensures forall k :: 0 <= k < |lost| && !lost[k] && EndsInReturn(Lines(s)[k]) ==> k == |lost| - 1 && !EndsLine(s)
    ensures !EndsLine(s) ==> lost != [] && !lost[|lost| - 1]
    decreases |s|
  {
    hide Lines, LineEnd, WithoutReturn, Rebuilt, EndsInReturn, EndsLine;
    if s == "" {
      lost := [];
      RebuiltNothing(true);
      EmptyEnds();
    } else {
      var k := LineEnd(s);
      LinesOpen(s);
      if k == |s| {
        lost := [false];
        RebuiltLast(s);
        NoNewlineAtAll(s);
      } else {
        var rest := s[k + 1..];
        RestEnds(s, k);
        var more := LinesRebuild(rest);
        var line := WithoutReturn(s[..k]);
        lost := [EndsInReturn(s[..k])] + more;
        NoNewlineLeft(s, line);
        ReturnIsBack(s[..k]);
        LostIfAny(s[..k]);
        UnendedHasLines(rest);
        RebuiltOpens(line, Lines(rest), lost[0], more, EndsLine(s));
        Associates(line, if lost[0] then "\r" else "", "\n");
      }
    }
  }

  lemma EmptyEnds()
    ensures EndsLine("")
  {
  }

  lemma NoNewlineAtAll(s: string)
    requires LineEnd(s) == |s|
    ensures '\n' !in s
  {
  }

  lemma LostIfAny(line: string)
    ensures !EndsInReturn(line) ==> WithoutReturn(line) == line
  {
  }

  lemma UnendedHasLines(s: string)
    ensures !EndsLine(s) ==> Lines(s) != []
  {
  }

  // ----- lengths ------------------------------------------------------------------------------------

  /** Every line with its newline. */
  function Ended(lines: seq<string>): string {
    if lines == [] then "" else lines[0] + "\n" + Ended(lines[1..])
  }

  /** Carriage returns that stand before a newline. */
  function Returns(s: string): nat {
    if |s| < 2 then 0 else (if s[0] == '\r' && s[1] == '\n' then 1 else 0) + Returns(s[1..])
  }

  /** Groups that are a single empty line: nothing at all is written for them. */
  function Lone(groups: seq<seq<string>>): nat {
    if groups == [] then 0 else (if groups[0] == [""] then 1 else 0) + Lone(groups[1..])
  }

  lemma {:induction false} JoinIsEnded(lines: seq<string>)
    requires lines != []
    ensures Ended(lines) == Join(lines) + "\n"
    ensures Join(lines) == "" <==> lines == [""]
  {
    if |lines| == 1 {
      assert lines[1..] == [];
      assert lines == [lines[0]];
    } else {
      JoinIsEnded(lines[1..]);
    }
  }

  lemma {:induction false} EndedConcat(a: seq<string>, b: seq<string>)
    ensures Ended(a + b) == Ended(a) + Ended(b)
  {
    if a == [] {
      assert a + b == b;
    } else {
      assert (a + b)[1..] == a[1..] + b;
      EndedConcat(a[1..], b);
    }
  }

  predicate NoneEmpty(groups: seq<seq<string>>) {
    groups == [] || (groups[0] != [] && NoneEmpty(groups[1..]))
  }

  /** Without lone empty lines the pieces are the lines, each ended; each lone one costs its newline. */
  lemma {:induction false} PiecesAreEnded(groups: seq<seq<string>>)
    requires NoneEmpty(groups)
    ensures |Flatten(Pieces(groups))| + Lone(groups) == |Ended(Flatten(groups))|
    ensures Lone(groups) == 0 ==> Flatten(Pieces(groups)) == Ended(Flatten(groups))
  {
    hide Join, Ended;
    if groups == [] {
      NothingEnded();
    } else {
      var rest := groups[1..];
      PiecesAreEnded(rest);
      JoinIsEnded(groups[0]);
      EndedConcat(groups[0], Flatten(rest));
      assert Pieces(groups)[1..] == Pieces(rest);
    }
  }

  lemma NothingEnded()
    ensures Ended([]) == "" && Lines("") == []
  {
  }

  lemma {:induction false} ChunksAreGroups(lines: seq<string>, n: nat)
    requires n >= 1
    ensures NoneEmpty(Chunks(lines, n)) && Flatten(Chunks(lines, n)) == lines
    decreases |lines|
  {
    ChunksFlatten(lines, n);
    if |lines| > n {
      ChunksAreGroups(lines[n..], n);
      assert Chunks(lines, n)[1..] == Chunks(lines[n..], n);
    } else if lines != [] {
      assert [lines][1..] == [];
    }
  }

  lemma {:induction false} ReturnsConcat(a: string, b: string)
    requires a != "" && a[|a| - 1] == '\n'
    ensures Returns(a + b) == Returns(a) + Returns(b)
  {
    assert (a + b)[1..] == a[1..] + b;
    if |a| == 1 {
      assert a + b == ['\n'] + b && (['\n'] + b)[1..] == b;
    } else {
      ReturnsConcat(a[1..], b);
    }
  }

  lemma {:induction false} ReturnsInLine(line: string)
    requires forall i :: 0 <= i < |line| ==> line[i] != '\n'
    ensures Returns(line + "\n") == if line != "" && line[|line| - 1] == '\r' then 1 else 0
  {
    if line != "" {
      assert (line + "\n")[1..] == line[1..] + "\n";
      ReturnsInLine(line[1..]);
    }
  }

  /** Reading lines and ending each again loses exactly the returns, if the text ends its last line. */
  lemma {:induction false} LinesAreEnded(s: string)
    requires EndsLine(s)
    ensures |Ended(Lines(s))| + Returns(s) == |s|
    ensures Returns(s) == 0 ==> Ended(Lines(s)) == s
    decreases |s|
  {
    hide Ended, Returns;
    if s == "" {
      NothingEnded();
      NoReturns();
    } else {
      var k := LineEnd(s);
      var line, rest := s[..k], s[k + 1..];
      assert k < |s|;
      assert s == line + "\n" + rest;
      assert EndsLine(rest);
      LinesAreEnded(rest);
      ReturnsConcat(line + "\n", rest);
      ReturnsInLine(line);
      EndedOpens(WithoutReturn(line), Lines(rest));
    }
  }

  lemma NoReturns()
    ensures Returns("") == 0
  {
  }

  lemma EndedOpens(line: string, rest: seq<string>)
    ensures Ended([line] + rest) == line + "\n" + Ended(rest)
  {
    assert ([line] + rest)[1..] == rest;
  }

  lemma LinesOpen(s: string)
    requires s != ""
    ensures Lines(s) ==
            if LineEnd(s) == |s| then [s] else [WithoutReturn(s[..LineEnd(s)])] + Lines(s[LineEnd(s) + 1..])
  {
    hide LineEnd, WithoutReturn;
  }

  /** What follows the first newline ends as the whole does. */
  lemma RestIsOpen(s: string, k: nat)
    requires !EndsLine(s) && k < |s| && s[k] == '\n'
    ensures !EndsLine(s[k + 1..])
  {
    if k + 1 < |s| {
      assert s[k + 1..][|s| - k - 2] == s[|s| - 1];
    }
  }

  /** The last of several lines ends in text if the content does. */
  lemma {:induction false} LastLineOpen(s: string)
    requires !EndsLine(s)
    ensures Lines(s) != [] && Lines(s)[|Lines(s)| - 1] != ""
    decreases |s|
  {
    hide Lines, LineEnd, WithoutReturn;
    assert s != "";
    LinesOpen(s);
    var k := LineEnd(s);
    if k < |s| {
      RestIsOpen(s, k);
      LastLineOpen(s[k + 1..]);
    }
  }

  lemma {:induction false} PiecesEndLine(groups: seq<seq<string>>)
    requires NoneEmpty(groups) && Flatten(groups) != []
    requires Flatten(groups)[|Flatten(groups)| - 1] != ""
    ensures EndsLine(Flatten(Pieces(groups))) && Flatten(Pieces(groups)) != ""
  {
    var rest := groups[1..];
    assert Pieces(groups)[1..] == Pieces(rest);
    JoinIsEnded(groups[0]);
    if Flatten(rest) == [] {
      OnlyGroup(rest);
      assert Flatten(groups) == groups[0];
      assert groups[0] != [""];
      assert Flatten(Pieces(groups)) == Piece(groups[0]);
    } else {
      assert Flatten(groups)[|Flatten(groups)| - 1] == Flatten(rest)[|Flatten(rest)| - 1];
      PiecesEndLine(rest);
    }
  }

  lemma OnlyGroup(rest: seq<seq<string>>)
    requires NoneEmpty(rest) && Flatten(rest) == []
    ensures rest == [] && Flatten(Pieces(rest)) == ""
  {
  }

  /**
   The pieces add up to the text exactly when it ends its last line, has no carriage return before a
   newline, and no group of lines is one empty line.
   */
  lemma LineSplitThenCat(content: string, n: nat)
    requires n >= 1
    ensures Flatten(Pieces(Chunks(Lines(content), n))) == content <==>
            EndsLine(content) && Returns(content) == 0 && Lone(Chunks(Lines(content), n)) == 0
  {
    hide Pieces, Chunks, Lines, Returns, Lone, Flatten, Ended;
    var groups := Chunks(Lines(content), n);
    ChunksAreGroups(Lines(content), n);
    PiecesAreEnded(groups);
    if EndsLine(content) {
      LinesAreEnded(content);
    } else {
      LastLineOpen(content);
      PiecesEndLine(groups);
    }
  }
}
