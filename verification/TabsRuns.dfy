/**
 `unexpand -a` on lines with tabs, run of blanks by run of blanks: how far tabs for spaces move what
 follows, and when that comes to nothing.
 */
module TabsRuns {
  import opened Wrappers
  import opened Sequences
  import opened Arithmetic
  import opened Tabs
  import opened TabsExact

  // ----- stretches of spaces ----------------------------------------------------------------------

  function SpacesAhead(line: string): (n: nat)
    ensures n <= |line|
  {
    if line != "" && line[0] == ' ' then 1 + SpacesAhead(line[1..]) else 0
  }

  /** The column of the rewriting after `n` spaces, from column `e`; `d` is where the waiting spaces begin. */
  function After(k: nat, n: nat, d: nat, e: nat, w: nat): (col: nat)
    requires w >= 1
  {
    if k % w + n < w then e + n else Stop(d, w) + (k % w + n - w)
  }

  /** The line is level from its first character on that is not a space; `e` is the column of the rewriting. */
  predicate LevelThere(rest: string, k: nat, c: nat, e: nat, w: nat)
    requires w >= 1
  {
    if rest == "" then c == e
    else if rest[0] == '\t' then Level(rest[1..], k + 1, None, Stop(c, w), Stop(e, w), w)
    else c == e && Level(rest[1..], k + 1, None, c + 1, c + 1, w)
  }

  lemma StopOf(m: nat, r: nat, w: nat)
    requires r < w
    ensures (m * w + r) % w == r && (m * w + r) / w == m && Stop(m * w + r, w) == m * w + w
  {
    RestIs(m * w + r, m, r, w);
    NextColumn(m * w + r, w);
  }

  lemma StopIsMultiple(d: nat, w: nat)
    requires w >= 1
    ensures Stop(Stop(d, w), w) == Stop(d, w) + w
  {
    NextColumn(d, w);
    var m := d / w;
    assert d == m * w + d % w;
    StopOf(m, d % w, w);
    assert (m + 1) * w == m * w + w;
    StopOf(m + 1, 0, w);
  }

  /** One space of the stretch is taken. */
  lemma AfterStep(k: nat, n: nat, start: Option<nat>, d: nat, w: nat)
    requires w >= 1 && Pending(k, start, w)
    ensures var e := After(k, n + 1, d, d + Waiting(k, start), w);
            && ((k + 1) % w == 0 ==> e == After(k + 1, n, Stop(d, w), Stop(d, w), w))
            && ((k + 1) % w != 0 ==>
                  var next := Some(From(k, start)); e == After(k + 1, n, d, d + Waiting(k + 1, next), w))
  {
    hide Stop;
    NextColumn(k, w);
    StopIsMultiple(d, w);
  }

  lemma NoStretch(line: string, k: nat, start: Option<nat>, c: nat, d: nat, w: nat)
    requires w >= 1 && (line == "" || line[0] != ' ')
    ensures SpacesAhead(line) == 0 && line[0..] == line
    ensures Level(line, k, start, c, d, w) <==>
            LevelThere(line, k, c, After(k, 0, d, d + Waiting(k, start), w), w)
  {
    hide Stop, Level;
    LevelOpens(line, k, start, c, d, w);
    NextColumn(k, w);
  }

  /** A stretch of spaces, up to what ends it. */
  lemma {:induction false} StretchLevel(line: string, k: nat, start: Option<nat>, c: nat, d: nat, w: nat)
    requires w >= 1 && Pending(k, start, w)
    ensures var n := SpacesAhead(line);
            Level(line, k, start, c, d, w) <==>
            LevelThere(line[n..], k + n, c + n, After(k, n, d, d + Waiting(k, start), w), w)
    decreases |line|
  {
    hide Level, LevelThere, After, Stop, Pending;
    if line == "" || line[0] != ' ' {
      NoStretch(line, k, start, c, d, w);
    } else {
      var n, rest := SpacesAhead(line), line[1..];
      LevelOpens(line, k, start, c, d, w);
      DropMore(line, 1, n - 1);
      AfterStep(k, n - 1, start, d, w);
      StaysPending(k, start, w);
      if (k + 1) % w == 0 {
        NonePending(k + 1, w);
        StretchLevel(rest, k + 1, None, c + 1, Stop(d, w), w);
      } else {
        StretchLevel(rest, k + 1, Some(From(k, start)), c + 1, d, w);
      }
    }
  }

  // ----- runs of blanks -----------------------------------------------------------------------------

  /** Stops gained where `n` spaces from a stop on are followed by a tab. */
  function Gain(k: nat, n: nat, w: nat): nat
    requires w >= 1
  {
    if k % w + n % w >= w then 1 else 0
  }

  /** The same from any column `c`; the first stretch of a run can also lose a stop. */
  function FirstGain(k: nat, n: nat, c: nat, w: nat): int
    requires w >= 1
  {
    if k % w + n < w then 0 else (k % w + n) / w - (c % w + n) / w
  }

  /**
   Every run of blanks leaves what follows it in place. `k` characters stand before, up to column `c`. In
   the last stretch of a run no space becomes a tab, or the first that does stands before a real stop; and
   the stops that the stretches before it gain and lose add up to none.
   */
  predicate InStep(line: string, k: nat, c: nat, w: nat)
    requires w >= 1
    decreases |line|
  {
    var n := SpacesAhead(line);
    var rest := line[n..];
    if rest != "" && rest[0] == '\t'
    then CatchesUp(rest[1..], k + n + 1, FirstGain(k, n, c, w), Stop(c + n, w), w)
    else (k % w + n < w || k % w == c % w) && (rest == "" || InStep(rest[1..], k + n + 1, c + n + 1, w))
  }

  /** Further on in a run, at the stop `c`, with the rewriting some stops ahead. */
  predicate CatchesUp(line: string, k: nat, ahead: int, c: nat, w: nat)
    requires w >= 1
    decreases |line|
  {
    var n := SpacesAhead(line);
    var rest := line[n..];
    if rest != "" && rest[0] == '\t'
    then CatchesUp(rest[1..], k + n + 1, ahead + Gain(k, n, w), Stop(c + n, w), w)
    else ahead == 0 && (k % w + n < w || k % w == 0) && (rest == "" || InStep(rest[1..], k + n + 1, c + n + 1, w))
  }

  lemma StopFrom(m: nat, y: nat, w: nat)
    requires w >= 1
    ensures Stop(m * w + y, w) == m * w + y / w * w + w
  {
    hide Stop;
    StopIs(y, w);
    Spread(m, y / w, w);
    StopOf(m + y / w, y % w, w);
  }

  lemma FirstEnds(k: nat, n: nat, c: nat, w: nat)
    requires w >= 1
    ensures After(k, n, c, c, w) == c + n <==> k % w + n < w || k % w == c % w
  {
    NextColumn(c, w);
  }

  lemma Spread(a: int, b: int, w: nat)
    ensures (a - b) * w == a * w - b * w && (a + b) * w == a * w + b * w
  {
  }

  lemma FirstTab(k: nat, n: nat, c: nat, w: nat)
    requires w >= 1
    ensures Stop(After(k, n, c, c, w), w) == Stop(c + n, w) + FirstGain(k, n, c, w) * w
  {
    if k % w + n >= w {
      FirstMoves(k % w, n, c, w);
    }
  }

  lemma FirstMoves(x: nat, n: nat, c: nat, w: nat)
    requires w >= 1 && x + n >= w
    ensures Stop(Stop(c, w) + (x + n - w), w) == Stop(c + n, w) + ((x + n) / w - (c % w + n) / w) * w
  {
    hide Stop;
    StopIs(c, w);
    var m, r := c / w, c % w;
    StopFrom(m, r + n, w);
    StopFrom(m, x + n, w);
    Spread((x + n) / w, (r + n) / w, w);
    assert m * w + (r + n) == c + n;
    assert m * w + (x + n) == Stop(c, w) + (x + n - w);
  }

  lemma StopIs(c: nat, w: nat)
    requires w >= 1
    ensures c == c / w * w + c % w && Stop(c, w) == c / w * w + w
  {
    NextColumn(c, w);
  }

  lemma LaterEnds(k: nat, n: nat, ahead: int, c: nat, d: nat, w: nat)
    requires w >= 1 && d % w == 0 && d == c + ahead * w
    ensures After(k, n, d, d, w) == c + n <==> ahead == 0 && (k % w + n < w || k % w == 0)
  {
    NextColumn(d, w);
    if ahead >= 1 {
      ProductsGrow(1, ahead, w);
    } else if ahead < 0 {
      ProductsGrow(1, -ahead, w);
      assert ahead * w == -((-ahead) * w);
    }
  }

  lemma LaterTab(k: nat, n: nat, ahead: int, c: nat, d: nat, w: nat)
    requires w >= 1 && c % w == 0 && d % w == 0 && d == c + ahead * w
    ensures Stop(After(k, n, d, d, w), w) == Stop(c + n, w) + (ahead + Gain(k, n, w)) * w
  {
    hide Stop;
    NoRest(c, n, w);
    GainIs(k, n, w);
    Spread(ahead, Gain(k, n, w), w);
    if k % w + n < w {
      NoRest(d, n, w);
    } else {
      StopIs(d, w);
      NoRest(d, k % w + n, w);
    }
  }

  lemma NoRest(c: nat, y: nat, w: nat)
    requires w >= 1 && c % w == 0
    ensures Stop(c + y, w) == c + y / w * w + w
  {
    StopIs(c, w);
    StopFrom(c / w, y, w);
  }

  lemma SumOver(q: nat, r: nat, x: nat, w: nat)
    requires r < w && x < w
    ensures (x + (q * w + r)) / w == q + (if x + r >= w then 1 else 0)
  {
    if x + r >= w {
      Spread(q, 1, w);
      RestIs((q + 1) * w + (x + r - w), q + 1, x + r - w, w);
    } else {
      RestIs(q * w + (x + r), q, x + r, w);
    }
  }

  lemma GainOf(q: nat, r: nat, x: nat, w: nat)
    requires r < w && x < w
    ensures (x + (q * w + r)) / w * w == q * w + (if x + r >= w then w else 0)
  {
    SumOver(q, r, x, w);
    Spread(q, 1, w);
  }

  lemma GainIs(k: nat, n: nat, w: nat)
    requires w >= 1
    ensures (k % w + n) / w * w == n / w * w + Gain(k, n, w) * w
    ensures k % w + n < w ==> n / w * w == 0 && Gain(k, n, w) == 0
  {
    hide Stop;
    StopIs(n, w);
    ModBelow(k, w);
    ModBelow(n, w);
    GainOf(n / w, n % w, k % w, w);
    if k % w + n < w {
      RestIs(0 * w + n, 0, n, w);
    }
  }

  lemma ModBelow(k: nat, w: nat)
    requires w >= 1
    ensures 0 <= k % w < w
  {
  }

  lemma StopHasNoRest(c: nat, w: nat)
    requires w >= 1
    ensures Stop(c, w) % w == 0
  {
    StopIs(c, w);
    Spread(c / w, 1, w);
    RestIs((c / w + 1) * w + 0, c / w + 1, 0, w);
  }

  lemma InStepOpens(line: string, k: nat, c: nat, w: nat)
    requires w >= 1
    ensures var n := SpacesAhead(line);
            var rest := line[n..];
            InStep(line, k, c, w) ==
            if rest != "" && rest[0] == '\t'
            then CatchesUp(rest[1..], k + n + 1, FirstGain(k, n, c, w), Stop(c + n, w), w)
            else (k % w + n < w || k % w == c % w) && (rest == "" || InStep(rest[1..], k + n + 1, c + n + 1, w))
  {
    hide FirstGain, Stop;
  }

  lemma CatchesUpOpens(line: string, k: nat, ahead: int, c: nat, w: nat)
    requires w >= 1
    ensures var n := SpacesAhead(line);
            var rest := line[n..];
            CatchesUp(line, k, ahead, c, w) ==
            if rest != "" && rest[0] == '\t'
            then CatchesUp(rest[1..], k + n + 1, ahead + Gain(k, n, w), Stop(c + n, w), w)
            else
              ahead == 0 && (k % w + n < w || k % w == 0)
              && (rest == "" || InStep(rest[1..], k + n + 1, c + n + 1, w))
  {
    hide Gain, Stop;
  }

  lemma {:induction false} LevelIsInStep(line: string, k: nat, c: nat, w: nat)
    requires w >= 1
    ensures Level(line, k, None, c, c, w) <==> InStep(line, k, c, w)
    decreases |line|
  {
    hide Level, Stop, After, FirstGain, SpacesAhead, InStep, CatchesUp;
    var n := SpacesAhead(line);
    var rest := line[n..];
    NonePending(k, w);
    StretchLevel(line, k, None, c, c, w);
    InStepOpens(line, k, c, w);
    if rest != "" && rest[0] == '\t' {
      var e := After(k, n, c, c, w);
      FirstTab(k, n, c, w);
      StopHasNoRest(c + n, w);
      StopHasNoRest(e, w);
      LevelCatchesUp(rest[1..], k + n + 1, FirstGain(k, n, c, w), Stop(c + n, w), Stop(e, w), w);
    } else {
      FirstEnds(k, n, c, w);
      if rest != "" {
        LevelIsInStep(rest[1..], k + n + 1, c + n + 1, w);
      }
    }
  }

  lemma {:induction false} LevelCatchesUp(line: string, k: nat, ahead: int, c: nat, d: nat, w: nat)
    requires w >= 1 && c % w == 0 && d % w == 0 && d == c + ahead * w
    ensures Level(line, k, None, c, d, w) <==> CatchesUp(line, k, ahead, c, w)
    decreases |line|
  {
    hide Level, Stop, After, Gain, SpacesAhead, InStep, CatchesUp;
    var n := SpacesAhead(line);
    var rest := line[n..];
    NonePending(k, w);
    StretchLevel(line, k, None, c, d, w);
    CatchesUpOpens(line, k, ahead, c, w);
    if rest != "" && rest[0] == '\t' {
      var e := After(k, n, d, d, w);
      LaterTab(k, n, ahead, c, d, w);
      StopHasNoRest(c + n, w);
      StopHasNoRest(e, w);
      LevelCatchesUp(rest[1..], k + n + 1, ahead + Gain(k, n, w), Stop(c + n, w), Stop(e, w), w);
    } else {
      LaterEnds(k, n, ahead, c, d, w);
      if rest != "" {
        LevelIsInStep(rest[1..], k + n + 1, c + n + 1, w);
      }
    }
  }

  /** With `-a` the expanded text is the same exactly on the lines whose runs of blanks all stay in step. */
  lemma UnexpandAllKeepsColumns(line: string, w: nat)
    requires w >= 1
    ensures Expand(Unexpand(line, w, true), 0, Uniform(w)) == Expand(line, 0, Uniform(w)) <==> InStep(line, 0, 0, w)
  {
    hide Expand, Unexpand, Level, InStep;
    AllKeepsColumns(line, w);
    LevelIsInStep(line, 0, 0, w);
  }

  /** Tabs that all stand just before a multiple of the width, counting characters, keep a line in step. */
  lemma AlignedTabsKeepStep(line: string, w: nat)
    requires w >= 1 && forall i :: 0 <= i < |line| && line[i] == '\t' ==> (i + 1) % w == 0
    ensures InStep(line, 0, 0, w)
  {
    hide Level, InStep;
    NonePending(0, w);
    AlignedTabsStayLevel(line, 0, None, 0, 0, w);
    LevelIsInStep(line, 0, 0, w);
  }
}
