/** `n` and `N`: scripts that take two lines a cycle. */
module SedPairs {
  import opened Sequences
  import opened Wrappers
  import opened Utf8Text
  import opened Sed
  import opened SedIdioms
  import opened SedPasses
  import opened SedCommands

  /** What is printed for a line and the one after it, or for a last line alone. */
  type Pair = (string, Option<string>) -> seq<string>

  function PairsFrom(job: Job, pair: Pair, i: nat): string
    requires job.Valid() && i <= job.total
    decreases job.total - i
  {
    if i == job.total then ""
    else if i + 1 == job.total then Unlines(pair(job.lines[i], None))
    else Unlines(pair(job.lines[i], Some(job.lines[i + 1]))) + PairsFrom(job, pair, i + 2)
  }

  /** The first of two lines. */
  function Firsts(): Pair {
    (line: string, next: Option<string>) => [line]
  }

  /** The second of two lines. */
  function Seconds(): Pair {
    (line: string, next: Option<string>) => if next.None? then [] else [next.value]
  }

  /** Two lines as one, with its first match replaced; a last line alone as it is. */
  function PairReplaced(engine: Engine, re: Regex, repl: string): Pair {
    (line: string, next: Option<string>) =>
      if next.None? then [line] else [engine.replaceFirst(re, line + "\n" + next.value, repl)]
  }

  /** Within any limits that leave room the script prints exactly the pages of its pairs. */
  ghost predicate PrintsPairs(script: SedScript, job: Job, pair: Pair)
    requires job.Valid()
  {
    forall lim: Limits ::
      lim.maxCycles >= job.total && lim.maxOutput >= ByteLen(PairsFrom(job, pair, 0)) ==>
      Run(script, lim, job).out == Out(PairsFrom(job, pair, 0), None)
  }

  ghost predicate PairBefore(s: State, i: nat) {
    && s.core.at.lineIdx == s.core.at.lineNumber == i && s.core.cycles <= i
    && !s.core.quit && s.core.appendQueue == [] && s.out.limit.None?
  }

  /** A cycle that takes line `i` and the next, if there is one, and prints their page. */
  ghost predicate TakesPair(script: SedScript, lim: Limits, job: Job, pair: Pair, s: State, i: nat)
    requires job.Valid() && s.core.at.lineIdx == i < job.total
  {
    var page := pair(job.lines[i], if i + 1 < job.total then Some(job.lines[i + 1]) else None);
    ByteLen(s.out.text + Unlines(page)) <= lim.maxOutput ==>
      var e := Cycle(script, s, lim, job);
      && e.out == Out(s.out.text + Unlines(page), None) && !e.core.quit
      && (if i + 1 < job.total then PairBefore(NextCycle(e), i + 2) else e.core.at.lineIdx + 1 >= job.total)
  }

  ghost predicate TakesPairs(script: SedScript, lim: Limits, job: Job, pair: Pair)
    requires job.Valid()
  {
    forall s: State, i: nat {:trigger TakesPair(script, lim, job, pair, s, i)} ::
      i < job.total && PairBefore(s, i) ==> TakesPair(script, lim, job, pair, s, i)
  }

  lemma {:induction false} PairsRun(script: SedScript, lim: Limits, job: Job, pair: Pair, s: State, i: nat)
    requires job.Valid() && i <= job.total && PairBefore(s, i) && TakesPairs(script, lim, job, pair)
    requires ByteLen(s.out.text + PairsFrom(job, pair, i)) <= lim.maxOutput
    ensures Cycles(script, s, lim, job).out == Out(s.out.text + PairsFrom(job, pair, i), None)
    decreases job.total - i
  {
    hide Cycle, ByteLen, Unlines;
    if i == job.total {
      assert s.out.text + "" == s.out.text;
    } else {
      assert TakesPair(script, lim, job, pair, s, i);
      var page := pair(job.lines[i], if i + 1 < job.total then Some(job.lines[i + 1]) else None);
      var e := Cycle(script, s, lim, job);
      if i + 1 < job.total {
        Associates(s.out.text, Unlines(page), PairsFrom(job, pair, i + 2));
        PrefixBytes(s.out.text + Unlines(page), PairsFrom(job, pair, i + 2));
        PairsRun(script, lim, job, pair, NextCycle(e), i + 2);
      }
    }
  }

  lemma TakingPrints(script: SedScript, job: Job, pair: Pair)
    requires job.Valid()
    requires forall lim: Limits :: lim.maxCycles >= job.total ==> TakesPairs(script, lim, job, pair)
    ensures PrintsPairs(script, job, pair)
  {
    hide Cycles, ByteLen, TakesPairs;
    assert "" + PairsFrom(job, pair, 0) == PairsFrom(job, pair, 0);
    forall lim: Limits | lim.maxCycles >= job.total && lim.maxOutput >= ByteLen(PairsFrom(job, pair, 0))
      ensures Run(script, lim, job).out == Out(PairsFrom(job, pair, 0), None)
    {
      PairsRun(script, lim, job, pair, INITIAL, 0);
    }
  }

  // ----- the first command, `n` or `N` ----------------------------------------------------------------

  /** The line that was read took the place of line `i`, or joined it; or there was none, and the cycle is over. */
  ghost predicate HasRead(cmd: SedCmd, s: State, r: State, i: nat, job: Job)
    requires job.Valid() && i < job.total
  {
    && r.core.at.lineIdx == i + 1 && r.core.at.lineNumber == i + 2 && r.core.cycles == s.core.cycles + 1
    && !r.core.quit && r.core.appendQueue == [] && r.core.deleted == (i + 1 >= job.total)
    && (i + 1 < job.total ==>
          r.core.pattern == if cmd.Next? then job.lines[i + 1] else job.lines[i] + "\n" + job.lines[i + 1])
    && (!job.quiet && (cmd.Next? || i + 1 >= job.total) ==> r.out == Out(s.out.text + (job.lines[i] + "\n"), None))
    && (job.quiet || (cmd.NextAppend? && i + 1 < job.total) ==> r.out == s.out)
  }

  ghost function AfterRead(script: SedScript, s: State, lim: Limits, job: Job): State
    requires job.Valid() && script != []
  {
    One(script[0].cmd, Fetched(script, 0, s, job), lim, job).1
  }

  lemma ReadIs(script: SedScript, s: State, i: nat, lim: Limits, job: Job)
    requires job.Valid() && |script| == 2 && (script[0] == Always(Next) || script[0] == Always(NextAppend))
    requires i < job.total && s.core.at.lineIdx == i && s.core.at.lineNumber == i + 1
    requires !s.core.quit && !s.core.deleted && s.core.appendQueue == []
    requires s.core.pattern == job.lines[i] && s.out.limit.None?
    requires ByteLen(s.out.text + (job.lines[i] + "\n")) <= lim.maxOutput || job.quiet
             || (script[0].cmd.NextAppend? && i + 1 < job.total)
    ensures var (flow, r) := One(script[0].cmd, Fetched(script, 0, s, job), lim, job);
            HasRead(script[0].cmd, s, r, i, job) && flow == if i + 1 >= job.total then Break else Continue
  {
    hide SubstituteResult, Transliterated, BranchFlow, ByteLen, PushLine, Address, Commands;
    AddressOfAll(s.core, 0, job);
    if !job.quiet && (script[0].cmd.Next? || i + 1 >= job.total) {
      OneLine(job.lines[i]);
      PrintsLine(s.out, lim, Some(job.lines[i]));
    }
  }

  /** What reading a line leaves for the second command, or at the end of the input. */
  lemma ReadRuns(script: SedScript, s: State, i: nat, lim: Limits, job: Job)
    requires job.Valid() && |script| == 2 && (script[0] == Always(Next) || script[0] == Always(NextAppend))
    requires i < job.total && s.core.at.lineIdx == i && s.core.at.lineNumber == i + 1
    requires s.core.cycles < lim.maxCycles && !s.core.quit && !s.core.deleted && s.core.appendQueue == []
    requires s.core.pattern == job.lines[i] && s.out.limit.None?
    requires ByteLen(s.out.text + (job.lines[i] + "\n")) <= lim.maxOutput || job.quiet
             || (script[0].cmd.NextAppend? && i + 1 < job.total)
    ensures var r := AfterRead(script, s, lim, job);
            && HasRead(script[0].cmd, s, r, i, job)
            && Commands(script, 0, s, lim, job) == if r.core.deleted then r else Commands(script, 1, r, lim, job)
  {
    hide One, Address, Commands, AfterCommand, ByteLen;
    ReadIs(script, s, i, lim, job);
    AddressOfAll(s.core, 0, job);
    Execute(script, 0, s, lim, job);
    var (flow, r) := One(script[0].cmd, Fetched(script, 0, s, job), lim, job);
    if flow == Continue {
      AfterNext(script, 0, r, lim, job);
    } else {
      StopsHere(script, 0, flow, r, lim, job);
    }
  }

  lemma OneLine(line: string)
    ensures Unlines(LinesOf(Some(line))) == Unlines([line]) == line + "\n"
  {
    assert [line][1..] == [];
  }

  /** The second command, run to the end of the list. */
  lemma ThenRuns(script: SedScript, s: State, lim: Limits, job: Job)
    requires job.Valid() && |script| == 2 && script[1] == Always(script[1].cmd)
    requires StraightCmd(script[1].cmd) && !script[1].cmd.CommandGroup?
    requires s.core.cycles < lim.maxCycles && !s.core.quit && !s.core.deleted
    ensures var e := Simple(script[1].cmd, Fetched(script, 1, s, job).core, job);
            Commands(script, 1, s, lim, job) == State(e.core, Show(s.out, lim, e.line))
  {
    hide Simple;
    var f := Fetched(script, 1, s, job);
    var e := Simple(script[1].cmd, f.core, job);
    SimpleStays(script[1].cmd, f.core, job);
    Execute(script, 1, s, lim, job);
    assert One(script[1].cmd, f, lim, job) == (e.flow, State(e.core, Show(s.out, lim, e.line)));
    if e.flow == Continue {
      AfterNext(script, 1, State(e.core, Show(s.out, lim, e.line)), lim, job);
      assert Commands(script, 2, State(e.core, Show(s.out, lim, e.line)), lim, job) ==
        State(e.core, Show(s.out, lim, e.line));
    } else {
      StopsHere(script, 1, e.flow, State(e.core, Show(s.out, lim, e.line)), lim, job);
    }
  }

  /** `n;d` prints every other line, from the first. */
  lemma NextThenDelete(job: Job)
    requires job.Valid() && !job.quiet
    ensures PrintsPairs([Always(Next), Always(Delete)], job, Firsts())
  {
    hide ByteLen, Commands, PushLine, AfterRead;
    var script := [Always(Next), Always(Delete)];
    forall lim: Limits | lim.maxCycles >= job.total
      ensures TakesPairs(script, lim, job, Firsts())
    {
      forall s: State, i: nat | i < job.total && PairBefore(s, i)
        ensures TakesPair(script, lim, job, Firsts(), s, i)
      {
        OneLine(job.lines[i]);
        var b := State(BeginCycle(s.core, job), s.out);
        if ByteLen(s.out.text + (job.lines[i] + "\n")) <= lim.maxOutput {
          ReadRuns(script, b, i, lim, job);
          if i + 1 < job.total {
            ThenRuns(script, AfterRead(script, b, lim, job), lim, job);
          }
        }
      }
    }
    TakingPrints(script, job, Firsts());
  }

  /** `n;p` with `-n` prints every other line, from the second: `n` prints nothing then. */
  lemma NextThenPrint(job: Job)
    requires job.Valid() && job.quiet
    ensures PrintsPairs([Always(Next), Always(Print)], job, Seconds())
  {
    hide ByteLen, Commands, PushLine, AfterRead;
    var script := [Always(Next), Always(Print)];
    forall lim: Limits | lim.maxCycles >= job.total
      ensures TakesPairs(script, lim, job, Seconds())
    {
      forall s: State, i: nat | i < job.total && PairBefore(s, i)
        ensures TakesPair(script, lim, job, Seconds(), s, i)
      {
        var b := State(BeginCycle(s.core, job), s.out);
        ReadRuns(script, b, i, lim, job);
        if i + 1 < job.total {
          OneLine(job.lines[i + 1]);
          ThenRuns(script, AfterRead(script, b, lim, job), lim, job);
          if ByteLen(s.out.text + (job.lines[i + 1] + "\n")) <= lim.maxOutput {
            PrintsLine(s.out, lim, Some(job.lines[i + 1]));
          }
        } else {
          assert s.out.text + "" == s.out.text;
        }
      }
    }
    TakingPrints(script, job, Seconds());
  }

  /** `N;s/re/repl/` substitutes across the newline between two lines, and prints a last line as it is. */
  lemma NextAppendThenSubstitute(re: Regex, repl: string, job: Job)
    requires job.Valid() && !job.quiet
    ensures PrintsPairs([Always(NextAppend), Substituting(re, repl, false, false, None)], job,
                        PairReplaced(job.engine, re, repl))
  {
    hide ByteLen, Commands, PushLine, AfterRead;
    var script := [Always(NextAppend), Substituting(re, repl, false, false, None)];
    var pair := PairReplaced(job.engine, re, repl);
    forall lim: Limits | lim.maxCycles >= job.total
      ensures TakesPairs(script, lim, job, pair)
    {
      forall s: State, i: nat | i < job.total && PairBefore(s, i)
        ensures TakesPair(script, lim, job, pair, s, i)
      {
        OneLine(job.lines[i]);
        var b := State(BeginCycle(s.core, job), s.out);
        if i + 1 < job.total {
          ReadRuns(script, b, i, lim, job);
          ThenRuns(script, AfterRead(script, b, lim, job), lim, job);
          var text := job.engine.replaceFirst(re, job.lines[i] + "\n" + job.lines[i + 1], repl);
          OneLine(text);
          if ByteLen(s.out.text + (text + "\n")) <= lim.maxOutput {
            PrintsLine(s.out, lim, Some(text));
          }
        } else if ByteLen(s.out.text + (job.lines[i] + "\n")) <= lim.maxOutput {
          ReadRuns(script, b, i, lim, job);
        }
      }
    }
    TakingPrints(script, job, pair);
  }
}
