/** expand undoes unexpand, and `unexpand -a` is as short as anything that expand could undo. */
module TabsExact {
  import opened Wrappers
  import opened Arithmetic
  import opened Tabs

  predicate TabFree(line: string) {
    forall i :: 0 <= i < |line| ==> line[i] != '\t'
  }

  function Wide(line: string, col: nat, width: nat): string
    requires width >= 1
  {
    Expand(line, col, Uniform(width))
  }

  lemma NextColumn(c: nat, w: nat)
    requires w >= 1
    ensures (c + 1) % w == if c % w == w - 1 then 0 else c % w + 1
    ensures NextTabStop(c, Uniform(w)) == c - c % w + w > c
  {
    MultipleAbove(c, w);
    var q := c / w;
    assert c == q * w + c % w;
    if c % w == w - 1 {
      assert c + 1 == (q + 1) * w;
      MultipleHasNoRest(q + 1, w);
    } else {
      RestIs(c + 1, q, c % w + 1, w);
    }
  }

  lemma RestIs(a: nat, q: nat, r: nat, w: nat)
    requires a == q * w + r && r < w
    ensures a % w == r && a / w == q
  {
    var q' := a / w;
    assert a == q' * w + a % w;
    if q < q' {
      ProductsGrow(q + 1, q', w);
    } else if q' < q {
      ProductsGrow(q' + 1, q, w);
    }
  }

  lemma WideOpens(line: string, col: nat, w: nat)
    requires line != "" && w >= 1
    ensures Wide(line, col, w) ==
            if line[0] == '\t' then Spaces(w - col % w) + Wide(line[1..], col - col % w + w, w)
            else [line[0]] + Wide(line[1..], col + 1, w)
  {
    hide NextTabStop;
    NextColumn(col, w);
    NextIsLeast(col, Uniform(w));
  }

  lemma SpaceFirst(k: nat, rest: string)
    requires k > 0
    ensures var s := Spaces(k) + rest; s != "" && s[0] == ' ' && s[1..] == Spaces(k - 1) + rest
    ensures [' '] + (Spaces(k - 1) + rest) == Spaces(k) + rest
  {
  }

  lemma NoSpaces(rest: string)
    ensures Spaces(0) + rest == rest
  {
  }

  lemma {:induction false} WideSpaces(k: nat, rest: string, col: nat, w: nat)
    requires w >= 1
    ensures Wide(Spaces(k) + rest, col, w) == Spaces(k) + Wide(rest, col + k, w)
  {
    hide Wide, Spaces;
    if k == 0 {
      NoSpaces(rest);
      NoSpaces(Wide(rest, col, w));
    } else {
      SpaceFirst(k, rest);
      SpaceFirst(k, Wide(rest, col + k, w));
      WideOpens(Spaces(k) + rest, col, w);
      WideSpaces(k - 1, rest, col + 1, w);
    }
  }

  lemma {:induction false} WideHasNoTabs(line: string, col: nat, w: nat)
    requires w >= 1
    ensures TabFree(Wide(line, col, w))
    decreases |line|
  {
    hide Wide;
    if line == "" {
      WideOfNothing(col, w);
    } else {
      WideOpens(line, col, w);
      WideHasNoTabs(line[1..], if line[0] == '\t' then col - col % w + w else col + 1, w);
    }
  }

  lemma WideOfNothing(col: nat, w: nat)
    requires w >= 1
    ensures Wide("", col, w) == ""
  {
  }

  lemma {:induction false} WideKeepsTabFree(line: string, col: nat, w: nat)
    requires w >= 1 && TabFree(line)
    ensures Wide(line, col, w) == line
    decreases |line|
  {
    hide Wide;
    if line == "" {
      WideOfNothing(col, w);
    } else {
      WideOpens(line, col, w);
      WideKeepsTabFree(line[1..], col + 1, w);
      assert [line[0]] + line[1..] == line;
    }
  }

  // ----- leading spaces ---------------------------------------------------------------------------

  /** A column-preserving rewrite, whatever the line holds. */
  lemma {:induction false} LeadingKeepsWide(line: string, count: nat, col: nat, w: nat)
    requires count < w && col % w == 0
    ensures Wide(Leading(line, count, w), col, w) == Spaces(count) + Wide(line, col + count, w)
    decreases |line|
  {
    hide Wide, Leading, Spaces;
    LeadingOpens(line, count, w);
    if line != "" && line[0] == ' ' {
      WideOpens(line, col + count, w);
      var rest := Wide(line[1..], col + count + 1, w);
      SpacesJoin(count, rest);
      if count + 1 == w {
        var after := Leading(line[1..], 0, w);
        FullTab(col, w);
        TabWidens(Wide(after, col + w, w), col, after, w);
        LeadingKeepsWide(line[1..], 0, col + w, w);
        NoSpaces(rest);
      } else {
        LeadingKeepsWide(line[1..], count + 1, col, w);
      }
    } else {
      WideSpaces(count, line, col, w);
    }
  }

  lemma FullTab(col: nat, w: nat)
    requires w >= 1 && col % w == 0
    ensures col - col % w + w == col + w && (col + w) % w == 0
  {
    MultipleAbove(col, w);
  }

  lemma LeadingOpens(line: string, count: nat, w: nat)
    ensures Leading(line, count, w) ==
            if line != "" && line[0] == ' ' then
              if count + 1 == w then "\t" + Leading(line[1..], 0, w) else Leading(line[1..], count + 1, w)
            else Spaces(count) + line
  {
  }

  lemma {:induction false} LeadingIsNoLonger(line: string, count: nat, w: nat)
    requires count < w
    ensures |Leading(line, count, w)| <= count + |line|
    decreases |line|
  {
    if line != "" && line[0] == ' ' {
      LeadingIsNoLonger(line[1..], if count + 1 == w then 0 else count + 1, w);
    }
  }

  // ----- all spaces -------------------------------------------------------------------------------

  /** Pending spaces never reach across a tab stop. */
  predicate Pending(col: nat, start: Option<nat>, w: nat)
    requires w >= 1
  {
    start.Some? ==> start.value < col && col % w == start.value % w + (col - start.value)
  }

  function From(col: nat, start: Option<nat>): nat {
    if start.Some? then start.value else col
  }

  lemma StaysPending(col: nat, start: Option<nat>, w: nat)
    requires w >= 1 && Pending(col, start, w)
    ensures (col + 1) % w != 0 ==> Pending(col + 1, Some(From(col, start)), w)
    ensures (col + 1) % w == 0 ==> From(col, start) - From(col, start) % w + w == col + 1
  {
    NextColumn(col, w);
  }

  lemma {:induction false} AllWidens(line: string, col: nat, start: Option<nat>, w: nat)
    requires w >= 1 && Pending(col, start, w) && TabFree(line)
    ensures Wide(All(line, col, start, w), From(col, start), w) == Spaces(col - From(col, start)) + line
    decreases |line|
  {
    hide Wide, All, Spaces, Pending, TabFree;
    var from := From(col, start);
    PendingMeans(col, start, w);
    NonePending(col + 1, w);
    var k := col - from;
    if line == "" {
      AllEnds(col, start, w);
      WideOfNothing(col, w);
      WideSpaces(k, "", from, w);
      SpacesAndNothing(k);
    } else {
      StaysPending(col, start, w);
      assert line[0..] == line;
      AllOpens(line, 0, col, start, w);
      var rest := line[1..];
      NoSpaces(rest);
      HeadAndTail(line);
      TailTabFree(line);
      SpacesJoin(k, rest);
      if line[0] != ' ' {
        AllWidens(rest, col + 1, None, w);
        LiteralWidens(line, col, k, from, All(rest, col + 1, None, w), w);
        FlushedIsPending(col, start, w);
      } else if (col + 1) % w == 0 {
        AllWidens(rest, col + 1, None, w);
        TabWidens(rest, from, All(rest, col + 1, None, w), w);
      } else {
        AllWidens(rest, col + 1, Some(from), w);
      }
    }
  }

  lemma TailTabFree(line: string)
    requires line != "" && TabFree(line)
    ensures TabFree(line[1..]) && line[0] != '\t'
  {
  }

  lemma SpacesAndNothing(k: nat)
    ensures Spaces(k) + "" == Spaces(k) && (k == 0 ==> Spaces(k) == "")
  {
  }

  lemma SpacesJoin(k: nat, rest: string)
    ensures Spaces(k + 1) + rest == Spaces(k) + ([' '] + rest)
  {
  }

  lemma FlushedIsPending(col: nat, start: Option<nat>, w: nat)
    requires w >= 1 && Pending(col, start, w)
    ensures Spaces(col - From(col, start)) == if start.Some? && col % w > 0 then Spaces(col - start.value) else ""
  {
  }

  lemma LiteralWidens(line: string, col: nat, k: nat, from: nat, after: string, w: nat)
    requires w >= 1 && line != "" && line[0] != '\t' && from + k == col
    requires Wide(after, col + 1, w) == line[1..]
    ensures Wide(Spaces(k) + [line[0]] + after, from, w) == Spaces(k) + line
  {
    hide Wide, Spaces;
    var all := [line[0]] + after;
    assert all[1..] == after && [line[0]] + line[1..] == line;
    WideOpens(all, col, w);
    WideSpaces(k, all, from, w);
    assert Spaces(k) + [line[0]] + after == Spaces(k) + all;
  }

  lemma TabWidens(rest: string, from: nat, after: string, w: nat)
    requires w >= 1 && Wide(after, from - from % w + w, w) == rest
    ensures Wide("\t" + after, from, w) == Spaces(w - from % w) + rest
  {
    hide Wide, Spaces;
    var all := "\t" + after;
    assert all[1..] == after;
    WideOpens(all, from, w);
  }

  /** expand undoes unexpand exactly on the lines without tabs. */
  lemma ExpandUndoesUnexpand(line: string, w: nat, convertAll: bool)
    requires w >= 1
    ensures Expand(Unexpand(line, w, convertAll), 0, Uniform(w)) == line <==> TabFree(line)
  {
    hide Expand, All, Leading;
    WideHasNoTabs(Unexpand(line, w, convertAll), 0, w);
    if TabFree(line) {
      WideKeepsTabFree(line, 0, w);
      AllWidens(line, 0, None, w);
      RestIs(0, 0, 0, w);
      LeadingKeepsWide(line, 0, 0, w);
      assert Spaces(0) + line == line;
    }
  }

  /** Without `-a` the expanded text is the same for every line, tabs or not. */
  lemma UnexpandKeepsColumns(line: string, w: nat)
    requires w >= 1
    ensures Expand(Unexpand(line, w, false), 0, Uniform(w)) == Expand(line, 0, Uniform(w))
    ensures |Unexpand(line, w, false)| <= |line|
  {
    hide Expand, Leading;
    RestIs(0, 0, 0, w);
    LeadingKeepsWide(line, 0, 0, w);
    LeadingIsNoLonger(line, 0, w);
    assert Spaces(0) + Wide(line, 0, w) == Wide(line, 0, w);
  }

  // ----- nothing shorter expands to the same line ---------------------------------------------------

  /** Spaces that stop short of the next tab stop can only have been written as spaces. */
  lemma {:induction false} SpacesAreLiteral(s: string, col: nat, k: nat, rest: string, w: nat)
    requires w >= 1 && col % w + k < w && Wide(s, col, w) == Spaces(k) + rest
    requires rest == "" || rest[0] != ' '
    ensures |s| >= k && Wide(s[k..], col + k, w) == rest
    decreases k
  {
    hide Wide;
    if k == 0 {
      assert s[0..] == s && Spaces(0) + rest == rest;
    } else {
      WideOfNothing(col, w);
      assert |Spaces(k) + rest| > 0;
      WideOpens(s, col, w);
      NextColumn(col, w);
      if s[0] == '\t' {
        TooManySpaces(w - col % w, Wide(s[1..], col - col % w + w, w), k, rest);
      } else {
        assert ([s[0]] + Wide(s[1..], col + 1, w))[1..] == (Spaces(k) + rest)[1..] == Spaces(k - 1) + rest;
        SpacesAreLiteral(s[1..], col + 1, k - 1, rest, w);
        assert s[1..][k - 1..] == s[k..];
      }
    }
  }

  lemma TooManySpaces(m: nat, x: string, k: nat, rest: string)
    requires m > k && (rest == "" || rest[0] != ' ')
    ensures Spaces(m) + x != Spaces(k) + rest
  {
    var a, b := Spaces(m) + x, Spaces(k) + rest;
    assert a[k] == ' ';
    assert |b| > k ==> b[k] == rest[0];
  }

  /** Spaces that end at a tab stop took at least one character. */
  lemma {:induction false} StopIsReached(s: string, col: nat, k: nat, rest: string, w: nat) returns (n: nat)
    requires w >= 1 && k >= 1 && col % w + k == w && Wide(s, col, w) == Spaces(k) + rest
    ensures 1 <= n <= |s| && Wide(s[n..], col + k, w) == rest
    decreases k
  {
    hide Wide;
    WideOfNothing(col, w);
    assert |Spaces(k) + rest| > 0;
    WideOpens(s, col, w);
    NextColumn(col, w);
    if s[0] == '\t' {
      n := 1;
      assert (Spaces(k) + Wide(s[1..], col + k, w))[k..] == (Spaces(k) + rest)[k..];
      assert (Spaces(k) + rest)[k..] == rest;
      assert (Spaces(k) + Wide(s[1..], col + k, w))[k..] == Wide(s[1..], col + k, w);
    } else {
      assert ([s[0]] + Wide(s[1..], col + 1, w))[1..] == (Spaces(k) + rest)[1..] == Spaces(k - 1) + rest;
      if k == 1 {
        n := 1;
        assert Spaces(0) + rest == rest;
      } else {
        n := StopIsReached(s[1..], col + 1, k - 1, rest, w);
        assert s[1..][n..] == s[n + 1..];
        n := n + 1;
      }
    }
  }

  lemma LiteralIsItself(t: string, col: nat, line: string, w: nat)
    requires w >= 1 && line != "" && line[0] != ' ' && Wide(t, col, w) == line
    ensures t != "" && Wide(t[1..], col + 1, w) == line[1..]
  {
    hide Wide;
    WideOfNothing(col, w);
    WideOpens(t, col, w);
    NextColumn(col, w);
    var tabbed := Spaces(w - col % w) + Wide(t[1..], col - col % w + w, w);
    assert tabbed[0] == ' ';
    var kept := [t[0]] + Wide(t[1..], col + 1, w);
    assert kept[1..] == Wide(t[1..], col + 1, w);
  }

  lemma SpacesLength(k: nat)
    ensures |Spaces(k)| == k
  {
  }

  /** How long the rewriting is, by its first step. */
  lemma AllLength(line: string, col: nat, start: Option<nat>, w: nat)
    requires w >= 1 && Pending(col, start, w)
    ensures var k := col - From(col, start);
            |All(line, col, start, w)| ==
            if line == "" then k
            else if line[0] != ' ' then k + 1 + |All(line[1..], col + 1, None, w)|
            else if (col + 1) % w == 0 then 1 + |All(line[1..], col + 1, None, w)|
            else |All(line[1..], col + 1, Some(From(col, start)), w)|
  {
    hide All, Spaces;
    FlushedIsPending(col, start, w);
    SpacesLength(col - From(col, start));
    if line == "" {
      AllEnds(col, start, w);
    } else {
      assert line[0..] == line;
      AllOpens(line, 0, col, start, w);
    }
  }

  /** Of text for blanks and then something else: what remains for the rest of the line. */
  lemma LiteralRest(s: string, from: nat, k: nat, line: string, w: nat) returns (t: string)
    requires w >= 1 && from % w + k < w && line != "" && line[0] != ' '
    requires Wide(s, from, w) == Spaces(k) + line
    ensures |s| == k + 1 + |t| && Wide(t, from + k + 1, w) == line[1..]
  {
    hide Wide, Spaces;
    SpacesAreLiteral(s, from, k, line, w);
    LiteralIsItself(s[k..], from + k, line, w);
    t := s[k..][1..];
  }

  lemma {:induction false} AllIsShortest(line: string, col: nat, start: Option<nat>, w: nat, s: string)
    requires w >= 1 && Pending(col, start, w)
    requires Wide(s, From(col, start), w) == Spaces(col - From(col, start)) + line
    ensures |All(line, col, start, w)| <= |s|
    decreases |line|
  {
    hide Wide, All, Spaces, Pending;
    var from := From(col, start);
    PendingMeans(col, start, w);
    var k := col - from;
    StaysPending(col, start, w);
    AllLength(line, col, start, w);
    NonePending(col + 1, w);
    if line == "" {
      SpacesAreLiteral(s, from, k, "", w);
    } else {
      var rest := line[1..];
      NoSpaces(rest);
      if line[0] != ' ' {
        var t := LiteralRest(s, from, k, line, w);
        AllIsShortest(rest, col + 1, None, w, t);
      } else {
        HeadAndTail(line);
        SpacesJoin(k, rest);
        if (col + 1) % w == 0 {
          NextColumn(col, w);
          var n := StopIsReached(s, from, k + 1, rest, w);
          AllIsShortest(rest, col + 1, None, w, s[n..]);
        } else {
          AllIsShortest(rest, col + 1, Some(from), w, s);
        }
      }
    }
  }

  lemma HeadAndTail(line: string)
    requires line != ""
    ensures line == [line[0]] + line[1..]
  {
  }

  lemma PendingMeans(col: nat, start: Option<nat>, w: nat)
    requires w >= 1 && Pending(col, start, w)
    ensures From(col, start) <= col && From(col, start) % w + (col - From(col, start)) == col % w < w
  {
  }

  lemma NonePending(col: nat, w: nat)
    requires w >= 1
    ensures Pending(col, None, w)
  {
  }

  /** Of all texts that expand to the line, `unexpand -a` prints a shortest one. */
  lemma UnexpandIsShortest(line: string, w: nat, s: string)
    requires w >= 1 && Expand(s, 0, Uniform(w)) == line
    ensures Expand(Unexpand(line, w, true), 0, Uniform(w)) == line && |Unexpand(line, w, true)| <= |s|
  {
    hide Expand, All;
    WideHasNoTabs(s, 0, w);
    ExpandUndoesUnexpand(line, w, true);
    assert Spaces(0) + line == line;
    AllIsShortest(line, 0, None, w, s);
  }

  /** With `-a`, too, a line without tabs never grows. */
  lemma UnexpandIsNoLonger(line: string, w: nat)
    requires w >= 1 && TabFree(line)
    ensures |Unexpand(line, w, true)| <= |line|
  {
    hide Expand, All;
    WideKeepsTabFree(line, 0, w);
    UnexpandIsShortest(line, w, line);
  }

  // ----- all spaces, on lines with tabs ---------------------------------------------------------------

  function Stop(col: nat, w: nat): (next: nat)
    requires w >= 1
    ensures next > col
  {
    NextColumn(col, w);
    NextTabStop(col, Uniform(w))
  }

  function Waiting(k: nat, start: Option<nat>): nat {
    if start.Some? && start.value <= k then k - start.value else 0
  }

  /**
   The columns of the line and of what `-a` makes of it, followed side by side: the code counts a tab
   as one column (`k`), the line is at column `c`, its rewriting at `d` and then the waiting spaces.
   They must be level at every character that is not a blank, and at the end.
   */
  predicate Level(line: string, k: nat, start: Option<nat>, c: nat, d: nat, w: nat)
    requires w >= 1
    decreases |line|
  {
    if line == "" then c == d + Waiting(k, start)
    else if line[0] == ' ' then
      if (k + 1) % w == 0 then Level(line[1..], k + 1, None, c + 1, Stop(d, w), w)
      else Level(line[1..], k + 1, Some(From(k, start)), c + 1, d, w)
    else if line[0] == '\t' then Level(line[1..], k + 1, None, Stop(c, w), Stop(d + Waiting(k, start), w), w)
    else c == d + Waiting(k, start) && Level(line[1..], k + 1, None, c + 1, c + 1, w)
  }

  lemma SpacesAgain(m: nat, n: nat, x: string)
    ensures Spaces(m) + (Spaces(n) + x) == Spaces(m + n) + x
    ensures Spaces(m) + (" " + x) == Spaces(m + 1) + x
  {
  }

  lemma SameSpaces(m: nat, n: nat)
    ensures Spaces(m) + "" == Spaces(n) + "" <==> m == n
  {
    if Spaces(m) + "" == Spaces(n) + "" {
      assert |Spaces(m) + ""| == |Spaces(n) + ""|;
    }
  }

  lemma SameText(m: nat, n: nat, ch: char, x: string, y: string)
    requires ch != ' '
    ensures Spaces(m) + ([ch] + x) == Spaces(n) + ([ch] + y) <==> m == n && x == y
  {
    var a, b := Spaces(m) + ([ch] + x), Spaces(n) + ([ch] + y);
    assert a[m] == ch && b[n] == ch;
    assert forall i :: 0 <= i < m ==> a[i] == ' ';
    assert forall i :: 0 <= i < n ==> b[i] == ' ';
    if a == b && m == n {
      assert a[m + 1..] == x && b[n + 1..] == y;
    }
  }

  /** The line from column `c` on, after blanks since column `b`, by its first character. */
  lemma LineSide(line: string, b: nat, c: nat, w: nat)
    requires w >= 1 && b <= c && line != ""
    ensures Spaces(c - b) + Wide(line, c, w) ==
            if line[0] == ' ' then Spaces(c + 1 - b) + Wide(line[1..], c + 1, w)
            else if line[0] == '\t' then Spaces(Stop(c, w) - b) + Wide(line[1..], Stop(c, w), w)
            else Spaces(c - b) + ([line[0]] + Wide(line[1..], c + 1, w))
  {
    hide Wide, Spaces;
    WideOpens(line, c, w);
    NextColumn(c, w);
    if line[0] == ' ' {
      SpacesAgain(c - b, 1, Wide(line[1..], c + 1, w));
    } else if line[0] == '\t' {
      SpacesAgain(c - b, w - c % w, Wide(line[1..], Stop(c, w), w));
    }
  }

  /** The same of its rewriting, which is at column `d` with some blanks still waiting. */
  lemma RewrittenSide(line: string, k: nat, start: Option<nat>, b: nat, d: nat, w: nat)
    requires w >= 1 && b <= d && line != "" && Pending(k, start, w)
    ensures var e := d + Waiting(k, start);
            Spaces(d - b) + Wide(All(line, k, start, w), d, w) ==
            if line[0] == ' ' then
              if (k + 1) % w == 0 then Spaces(Stop(d, w) - b) + Wide(All(line[1..], k + 1, None, w), Stop(d, w), w)
              else Spaces(d - b) + Wide(All(line[1..], k + 1, Some(From(k, start)), w), d, w)
            else if line[0] == '\t' then Spaces(Stop(e, w) - b) + Wide(All(line[1..], k + 1, None, w), Stop(e, w), w)
            else Spaces(e - b) + ([line[0]] + Wide(All(line[1..], k + 1, None, w), e + 1, w))
  {
    hide Wide, All, Spaces;
    FlushedIsPending(k, start, w);
    assert line[0..] == line;
    AllOpens(line, 0, k, start, w);
    if line[0] != ' ' {
      FlushedLevel(line[0], All(line[1..], k + 1, None, w), Waiting(k, start), b, d, w);
    } else if (k + 1) % w == 0 {
      TabbedLevel(line[1..], k, b, d, w);
    }
  }

  lemma LevelAtEnd(k: nat, start: Option<nat>, b: nat, c: nat, d: nat, w: nat)
    requires w >= 1 && Pending(k, start, w) && b <= c && b <= d
    ensures Spaces(c - b) + Wide("", c, w) == Spaces(d - b) + Wide(All("", k, start, w), d, w) <==>
            c == d + Waiting(k, start)
  {
    hide Wide, All, Spaces;
    var wait := Waiting(k, start);
    AllEnds(k, start, w);
    WideOfNothing(c, w);
    WideOfNothing(d + wait, w);
    SpacesAndNothing(wait);
    WideSpaces(wait, "", d, w);
    SpacesAgain(d - b, wait, "");
    SameSpaces(c - b, d + wait - b);
  }

  lemma LevelOpens(line: string, k: nat, start: Option<nat>, c: nat, d: nat, w: nat)
    requires w >= 1
    ensures var e := d + Waiting(k, start);
            Level(line, k, start, c, d, w) ==
            if line == "" then c == e
            else if line[0] == ' ' then
              if (k + 1) % w == 0 then Level(line[1..], k + 1, None, c + 1, Stop(d, w), w)
              else Level(line[1..], k + 1, Some(From(k, start)), c + 1, d, w)
            else if line[0] == '\t' then Level(line[1..], k + 1, None, Stop(c, w), Stop(e, w), w)
            else c == e && Level(line[1..], k + 1, None, c + 1, c + 1, w)
  {
    hide Stop;
  }

  /** With the same blanks since column `b`, the rest of the line comes out alike exactly if it is level. */
  lemma {:induction false} AllIsLevel(line: string, k: nat, start: Option<nat>, b: nat, c: nat, d: nat, w: nat)
    requires w >= 1 && Pending(k, start, w) && b <= c && b <= d
    ensures Spaces(c - b) + Wide(line, c, w) == Spaces(d - b) + Wide(All(line, k, start, w), d, w) <==>
            Level(line, k, start, c, d, w)
    decreases |line|
  {
    hide Wide, All, Spaces, NextTabStop, Pending, Stop, Level;
    LevelOpens(line, k, start, c, d, w);
    if line == "" {
      LevelAtEnd(k, start, b, c, d, w);
    } else {
      var e := d + Waiting(k, start);
      var rest := line[1..];
      LineSide(line, b, c, w);
      RewrittenSide(line, k, start, b, d, w);
      StaysPending(k, start, w);
      NonePending(k + 1, w);
      if line[0] == ' ' && (k + 1) % w == 0 {
        AllIsLevel(rest, k + 1, None, b, c + 1, Stop(d, w), w);
      } else if line[0] == ' ' {
        AllIsLevel(rest, k + 1, Some(From(k, start)), b, c + 1, d, w);
      } else if line[0] == '\t' {
        AllIsLevel(rest, k + 1, None, b, Stop(c, w), Stop(e, w), w);
      } else {
        SameText(c - b, e - b, line[0], Wide(rest, c + 1, w), Wide(All(rest, k + 1, None, w), e + 1, w));
        AllIsLevel(rest, k + 1, None, c + 1, c + 1, c + 1, w);
        NoSpaces(Wide(rest, c + 1, w));
        NoSpaces(Wide(All(rest, k + 1, None, w), c + 1, w));
      }
    }
  }

  lemma TabbedLevel(rest: string, k: nat, b: nat, d: nat, w: nat)
    requires w >= 1 && b <= d
    ensures var after := All(rest, k + 1, None, w);
            Spaces(d - b) + Wide("\t" + after, d, w) == Spaces(Stop(d, w) - b) + Wide(after, Stop(d, w), w)
  {
    hide Wide, All, Spaces;
    var after := All(rest, k + 1, None, w);
    NextColumn(d, w);
    TabWidens(Wide(after, Stop(d, w), w), d, after, w);
    SpacesAgain(d - b, w - d % w, Wide(after, Stop(d, w), w));
  }

  lemma FlushedLevel(ch: char, after: string, wait: nat, b: nat, d: nat, w: nat)
    requires w >= 1 && b <= d && ch != ' '
    ensures var e := d + wait;
            Spaces(d - b) + Wide(Spaces(wait) + [ch] + after, d, w) ==
            if ch == '\t' then Spaces(Stop(e, w) - b) + Wide(after, Stop(e, w), w)
            else Spaces(e - b) + ([ch] + Wide(after, e + 1, w))
  {
    hide Wide, Spaces;
    var e := d + wait;
    var all := [ch] + after;
    assert Spaces(wait) + [ch] + after == Spaces(wait) + all && all[1..] == after;
    WideSpaces(wait, all, d, w);
    WideOpens(all, e, w);
    NextColumn(e, w);
    SpacesAgain(d - b, wait, Wide(all, e, w));
    SpacesAgain(e - b, w - e % w, Wide(after, Stop(e, w), w));
  }

  /** With `-a` the expanded text is the same exactly on the lines that stay level. */
  lemma AllKeepsColumns(line: string, w: nat)
    requires w >= 1
    ensures Expand(Unexpand(line, w, true), 0, Uniform(w)) == Expand(line, 0, Uniform(w)) <==>
            Level(line, 0, None, 0, 0, w)
  {
    hide Expand, All, Level;
    AllIsLevel(line, 0, None, 0, 0, 0, w);
    NoSpaces(Wide(line, 0, w));
    NoSpaces(Wide(All(line, 0, None, w), 0, w));
  }

  /** Tabs that end where the code's count has a tab stop do no harm. */
  lemma {:induction false} AlignedTabsStayLevel(line: string, k: nat, start: Option<nat>, c: nat, d: nat, w: nat)
    requires w >= 1 && Pending(k, start, w) && c == d + Waiting(k, start)
    requires c % w == k % w && d % w == From(k, start) % w
    requires forall i :: 0 <= i < |line| && line[i] == '\t' ==> (k + i + 1) % w == 0
    ensures Level(line, k, start, c, d, w)
    decreases |line|
  {
    if line != "" {
      NextColumn(k, w);
      NextColumn(c, w);
      NextColumn(d, w);
      StaysPending(k, start, w);
      var rest := line[1..];
      assert forall i :: 0 <= i < |rest| && rest[i] == '\t' ==> line[i + 1] == '\t';
      if line[0] == ' ' && (k + 1) % w != 0 {
        AlignedTabsStayLevel(rest, k + 1, Some(From(k, start)), c + 1, d, w);
      } else {
        AlignedTabsStayLevel(rest, k + 1, None, c + 1, c + 1, w);
      }
    }
  }

  /** A tab and a space at width 2 become two tabs: three columns become four. */
  lemma TabAndSpaceMove()
    ensures Unexpand("\t ", 2, true) == "\t\t"
    ensures |Expand("\t ", 0, Uniform(2))| == 3 && |Expand("\t\t", 0, Uniform(2))| == 4
  {
    var line := "\t ";
    assert line[1..] == " " && " "[1..] == "";
    assert All(" ", 1, None, 2) == "\t" + All("", 2, None, 2);
    assert All(line, 0, None, 2) == "" + "\t" + All(" ", 1, None, 2);
    WideOpens(line, 0, 2);
    WideOpens(" ", 2, 2);
    WideOfNothing(3, 2);
    var two := "\t\t";
    assert two[1..] == "\t" && "\t"[1..] == "";
    WideOpens(two, 0, 2);
    WideOpens("\t", 2, 2);
    WideOfNothing(4, 2);
  }
}
