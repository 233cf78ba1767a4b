/**
 The guardrails of sed never change what a script means: a run that trips no limit is the run
 under any larger limits, and an output cap only cuts the output off.
 */
module SedLimits {
  import opened Wrappers
  import opened Utf8Text
  import opened Sed
  import opened SedRuns

  // ----- what is reported --------------------------------------------------------------------

  /** The limit that was tripped, and by how much; text that is over the cap stays as it is. */
  predicate Reports(o: Out, lim: Limits) {
    match o.limit
    case None => true
    case Some(MaxLoopIterations(max, reached)) => max == lim.maxCycles && reached == lim.maxCycles + 1
    case Some(MaxOutputSize(max, reached)) => max == lim.maxOutput && reached == ByteLen(o.text) > lim.maxOutput
  }

  /** From `o` to `p` a tripped limit stays, and reports stay right. */
  predicate Keeps(p: Out, o: Out, lim: Limits) {
    && (o.limit.Some? ==> p.limit == o.limit)
    && (Reports(o, lim) ==> Reports(p, lim))
    && (p.limit.None? ==> o.limit.None?)
  }

  /** A run without a report is within its cycles. */
  predicate Sound(s: State, lim: Limits) {
    Reports(s.out, lim) && (s.out.limit.None? ==> s.core.cycles <= lim.maxCycles)
  }

  predicate Follows(r: State, s: State, lim: Limits) {
    && (s.out.limit.Some? ==> r.out.limit == s.out.limit)
    && (Sound(s, lim) ==> Sound(r, lim))
  }

  lemma PushKeeps(o: Out, lim: Limits, text: string)
    ensures Keeps(Push(o, lim, text), o, lim)
  {
  }

  lemma PushLineKeeps(o: Out, lim: Limits, text: string)
    ensures Keeps(PushLine(o, lim, text), o, lim)
  {
    hide Push, Reports;
    PushKeeps(o, lim, text);
    PushKeeps(Push(o, lim, text), lim, "\n");
  }

  lemma {:induction false} PushLinesKeep(o: Out, lim: Limits, texts: seq<string>)
    ensures Keeps(PushLines(o, lim, texts), o, lim)
    decreases |texts|
  {
    hide PushLine, Reports;
    if texts != [] {
      PushLineKeeps(o, lim, texts[0]);
      PushLinesKeep(PushLine(o, lim, texts[0]), lim, texts[1..]);
    }
  }

  lemma {:induction false} CommandsFollow(script: SedScript, ip: nat, s: State, lim: Limits, job: Job)
    requires job.Valid()
    ensures Follows(Commands(script, ip, s, lim, job), s, lim)
    decreases Fuel(s, lim), 0
  {
    hide ByteLen, Reports, Address;
    if ip < |script| && s.core.cycles >= lim.maxCycles {
      ExhaustedFollows(s, lim);
    } else if ip < |script| && !s.core.quit && !s.core.deleted {
      AddressTicks(script[ip].range, s.core, ip, job);
      var (selected, core) := Address(script[ip].range, Tick(s.core), ip, job.engine);
      AfterFetchFollows(script, ip, selected, State(core, s.out), lim, job);
    }
  }

  lemma {:induction false} AfterFetchFollows(script: SedScript, ip: nat, selected: bool, s: State,
                                             lim: Limits, job: Job)
    requires job.Valid() && ip < |script|
    ensures Follows(AfterFetch(script, ip, selected, s, lim, job), s, lim)
    decreases Fuel(s, lim), 3
  {
    hide Reports, One;
    if selected == script[ip].negated {
      CommandsFollow(script, ip + 1, s, lim, job);
    } else {
      OneFollows(script[ip].cmd, s, lim, job);
      var (flow, s') := One(script[ip].cmd, s, lim, job);
      AfterCommandFollows(script, ip, flow, s', lim, job);
    }
  }

  lemma {:induction false} AfterCommandFollows(script: SedScript, ip: nat, flow: Flow, s: State, lim: Limits, job: Job)
    requires job.Valid()
    ensures Follows(AfterCommand(script, ip, flow, s, lim, job), s, lim)
    decreases Fuel(s, lim), 1
  {
    hide Reports;
    var next := Target(flow, ip, job.labels);
    if next.Some? {
      CommandsFollow(script, next.value, s, lim, job);
    }
  }

  lemma {:induction false} OneFollows(cmd: SedCmd, s: State, lim: Limits, job: Job)
    requires job.Valid()
    ensures Follows(One(cmd, s, lim, job).1, s, lim)
    decreases Fuel(s, lim), 2
  {
    hide Reports, Simple, PushLine;
    if cmd.CommandGroup? {
      CommandsFollow(cmd.body, 0, s, lim, job);
    } else {
      var line := Simple(cmd, s.core, job).line;
      if line.Some? {
        PushLineKeeps(s.out, lim, line.value);
      }
    }
  }

  lemma ExhaustedFollows(s: State, lim: Limits)
    requires s.core.cycles >= lim.maxCycles
    ensures Follows(Exhausted(s, lim), s, lim)
  {
    hide ByteLen;
  }

  lemma AddressTicks(range: Option<SedRange>, c: Core, ip: nat, job: Job)
    ensures Address(range, Tick(c), ip, job.engine).1.cycles == c.cycles + 1
  {
  }

  lemma CycleFollows(script: SedScript, s: State, lim: Limits, job: Job)
    requires job.Valid() && s.core.at.lineIdx < job.total
    ensures Follows(Cycle(script, s, lim, job), s, lim)
  {
    hide Reports, Commands, PushLine, PushLines;
    var b := State(BeginCycle(s.core, job), s.out);
    CommandsFollow(script, 0, b, lim, job);
    var c := Commands(script, 0, b, lim, job);
    PushLineKeeps(c.out, lim, c.core.pattern);
    PushLinesKeep(AutoPrint(c, lim, job), lim, c.core.appendQueue);
  }

  /** The first limit that a run trips is the one it reports. */
  lemma {:induction false} CyclesFollow(script: SedScript, s: State, lim: Limits, job: Job)
    requires job.Valid()
    ensures Follows(Cycles(script, s, lim, job), s, lim)
    decreases LinesLeft(s, job)
  {
    hide Reports, Cycle;
    if s.core.at.lineIdx < job.total {
      CycleFollows(script, s, lim, job);
      var e := Cycle(script, s, lim, job);
      if !e.core.quit {
        CyclesFollow(script, NextCycle(e), lim, job);
      }
    }
  }

  /** Every run reports its limit with what was allowed and what was reached, and reports every overrun. */
  lemma RunReports(script: SedScript, lim: Limits, job: Job)
    requires job.Valid()
    ensures Sound(Run(script, lim, job), lim)
  {
    CyclesFollow(script, INITIAL, lim, job);
  }

  // ----- when two limits cannot tell a run apart -------------------------------------------

  /**
   A state reached under `x` on which the limits `x` and `y` agree: within both cycle budgets, and
   under one output cap or with no limit tripped under the smaller.
   */
  ghost predicate Agree(r: State, x: Limits, y: Limits) {
    && r.core.cycles <= x.maxCycles
    && r.core.cycles <= y.maxCycles
    && (x.maxOutput == y.maxOutput || (x.maxOutput <= y.maxOutput && r.out.limit.None?))
  }

  lemma {:induction false} PushLinesSame(o: Out, x: Limits, y: Limits, texts: seq<string>)
    requires x.maxOutput == y.maxOutput || (x.maxOutput <= y.maxOutput && PushLines(o, x, texts).limit.None?)
    ensures PushLines(o, y, texts) == PushLines(o, x, texts)
    decreases |texts|
  {
    if texts != [] {
      PushLinesKeep(PushLine(o, x, texts[0]), x, texts[1..]);
      PushLinesSame(PushLine(o, x, texts[0]), x, y, texts[1..]);
    }
  }

  lemma {:induction false} CommandsSame(script: SedScript, ip: nat, s: State, x: Limits, y: Limits, job: Job)
    requires job.Valid() && Agree(Commands(script, ip, s, x, job), x, y)
    ensures Commands(script, ip, s, y, job) == Commands(script, ip, s, x, job)
    decreases Fuel(s, x), 0
  {
    if ip < |script| && s.core.cycles < x.maxCycles && !s.core.quit && !s.core.deleted {
      var (selected, core) := Address(script[ip].range, Tick(s.core), ip, job.engine);
      AfterFetchSame(script, ip, selected, State(core, s.out), x, y, job);
    }
  }

  lemma {:induction false} AfterFetchSame(script: SedScript, ip: nat, selected: bool, s: State,
                                          x: Limits, y: Limits, job: Job)
    requires job.Valid() && ip < |script| && Agree(AfterFetch(script, ip, selected, s, x, job), x, y)
    ensures AfterFetch(script, ip, selected, s, y, job) == AfterFetch(script, ip, selected, s, x, job)
    decreases Fuel(s, x), 3
  {
    if selected == script[ip].negated {
      CommandsSame(script, ip + 1, s, x, y, job);
    } else {
      var (flow, s') := One(script[ip].cmd, s, x, job);
      AfterCommandFollows(script, ip, flow, s', x, job);
      OneSame(script[ip].cmd, s, x, y, job);
      AfterCommandSame(script, ip, flow, s', x, y, job);
    }
  }

  lemma {:induction false} AfterCommandSame(script: SedScript, ip: nat, flow: Flow, s: State,
                                            x: Limits, y: Limits, job: Job)
    requires job.Valid() && Agree(AfterCommand(script, ip, flow, s, x, job), x, y)
    ensures AfterCommand(script, ip, flow, s, y, job) == AfterCommand(script, ip, flow, s, x, job)
    decreases Fuel(s, x), 1
  {
    var next := Target(flow, ip, job.labels);
    if next.Some? {
      CommandsSame(script, next.value, s, x, y, job);
    }
  }

  lemma {:induction false} OneSame(cmd: SedCmd, s: State, x: Limits, y: Limits, job: Job)
    requires job.Valid() && Agree(One(cmd, s, x, job).1, x, y)
    ensures One(cmd, s, y, job) == One(cmd, s, x, job)
    decreases Fuel(s, x), 2
  {
    hide Simple, Commands, ByteLen;
    if cmd.CommandGroup? {
      CommandsSame(cmd.body, 0, s, x, y, job);
    }
  }

  lemma CycleSame(script: SedScript, s: State, x: Limits, y: Limits, job: Job)
    requires job.Valid() && s.core.at.lineIdx < job.total && Agree(Cycle(script, s, x, job), x, y)
    ensures Cycle(script, s, y, job) == Cycle(script, s, x, job)
  {
    var b := State(BeginCycle(s.core, job), s.out);
    var c := Commands(script, 0, b, x, job);
    PushLinesKeep(AutoPrint(c, x, job), x, c.core.appendQueue);
    CommandsSame(script, 0, b, x, y, job);
    PushLinesSame(AutoPrint(c, x, job), x, y, c.core.appendQueue);
  }

  lemma {:induction false} CyclesNeverUncount(script: SedScript, s: State, lim: Limits, job: Job)
    requires job.Valid()
    ensures Cycles(script, s, lim, job).core.cycles >= s.core.cycles
    decreases LinesLeft(s, job)
  {
    if s.core.at.lineIdx < job.total {
      var e := Cycle(script, s, lim, job);
      if !e.core.quit {
        CyclesNeverUncount(script, NextCycle(e), lim, job);
      }
    }
  }

  lemma {:induction false} CyclesSame(script: SedScript, s: State, x: Limits, y: Limits, job: Job)
    requires job.Valid() && Agree(Cycles(script, s, x, job), x, y)
    ensures Cycles(script, s, y, job) == Cycles(script, s, x, job)
    decreases LinesLeft(s, job)
  {
    if s.core.at.lineIdx < job.total {
      var e := Cycle(script, s, x, job);
      if !e.core.quit {
        CyclesFollow(script, NextCycle(e), x, job);
        CyclesNeverUncount(script, NextCycle(e), x, job);
        CyclesSame(script, NextCycle(e), x, y, job);
      }
      CycleSame(script, s, x, y, job);
    }
  }

  /** A run that trips no limit is, state for state, the run under any larger limits. */
  lemma LimitsNeverChangeMeaning(script: SedScript, small: Limits, large: Limits, job: Job)
    requires job.Valid()
    requires small.maxCycles <= large.maxCycles && small.maxOutput <= large.maxOutput
    requires Run(script, small, job).out.limit.None?
    ensures Run(script, large, job) == Run(script, small, job)
  {
    RunStaysInBudget(script, small, job);
    CyclesSame(script, INITIAL, small, large, job);
  }

  /**
   The cycle guardrail stops exactly the runs that need more cycles than it allows; every other
   run is the run under the larger budget.
   */
  lemma CycleLimitIsExact(script: SedScript, small: Limits, large: Limits, job: Job)
    requires job.Valid()
    requires small.maxCycles <= large.maxCycles && small.maxOutput == large.maxOutput
    ensures var a, b := Run(script, small, job), Run(script, large, job);
            && (a.core.cycles > small.maxCycles <==> b.core.cycles > small.maxCycles)
            && (b.core.cycles <= small.maxCycles ==> a == b)
  {
    var a, b := Run(script, small, job), Run(script, large, job);
    if a.core.cycles <= small.maxCycles {
      CyclesSame(script, INITIAL, small, large, job);
    }
    if b.core.cycles <= small.maxCycles {
      CyclesSame(script, INITIAL, large, small, job);
    }
  }

  // ----- an output cap only cuts the output off ------------------------------------------------

  /** `a`, written under `cap`, equals `b` or is an already closed prefix of it. */
  ghost predicate Behind(a: Out, b: Out, cap: nat) {
    a.text == b.text || (ByteLen(a.text) > cap && a.text <= b.text)
  }

  /** Two states that differ in nothing but their output, the first one behind. */
  ghost predicate Shadows(a: State, b: State, cap: nat) {
    a.core == b.core && Behind(a.out, b.out, cap)
  }

  /** Same cycle budget, smaller or equal output cap. */
  ghost predicate TighterOutput(small: Limits, large: Limits) {
    small.maxCycles == large.maxCycles && small.maxOutput <= large.maxOutput
  }

  lemma PushBehind(a: Out, b: Out, small: Limits, large: Limits, text: string)
    requires TighterOutput(small, large) && Behind(a, b, small.maxOutput)
    ensures Behind(Push(a, small, text), Push(b, large, text), small.maxOutput)
  {
    assert b.text <= Push(b, large, text).text;
  }

  lemma ShowBehind(a: Out, b: Out, small: Limits, large: Limits, line: Option<string>)
    requires TighterOutput(small, large) && Behind(a, b, small.maxOutput)
    ensures Behind(Show(a, small, line), Show(b, large, line), small.maxOutput)
  {
    if line.Some? {
      PushBehind(a, b, small, large, line.value);
      PushBehind(Push(a, small, line.value), Push(b, large, line.value), small, large, "\n");
    }
  }

  lemma {:induction false} PushLinesBehind(a: Out, b: Out, small: Limits, large: Limits, texts: seq<string>)
    requires TighterOutput(small, large) && Behind(a, b, small.maxOutput)
    ensures Behind(PushLines(a, small, texts), PushLines(b, large, texts), small.maxOutput)
    decreases |texts|
  {
    if texts != [] {
      PushBehind(a, b, small, large, texts[0]);
      PushBehind(Push(a, small, texts[0]), Push(b, large, texts[0]), small, large, "\n");
      PushLinesBehind(PushLine(a, small, texts[0]), PushLine(b, large, texts[0]), small, large, texts[1..]);
    }
  }

  lemma {:induction false} CommandsShadow(script: SedScript, ip: nat, a: State, b: State,
                                          small: Limits, large: Limits, job: Job)
    requires job.Valid() && TighterOutput(small, large) && Shadows(a, b, small.maxOutput)
    ensures Shadows(Commands(script, ip, a, small, job), Commands(script, ip, b, large, job), small.maxOutput)
    decreases Fuel(a, small), 0
  {
    if ip < |script| && a.core.cycles < small.maxCycles && !a.core.quit && !a.core.deleted {
      var (selected, core) := Address(script[ip].range, Tick(a.core), ip, job.engine);
      AfterFetchShadow(script, ip, selected, State(core, a.out), State(core, b.out), small, large, job);
    }
  }

  lemma {:induction false} AfterFetchShadow(script: SedScript, ip: nat, selected: bool, a: State, b: State,
                                            small: Limits, large: Limits, job: Job)
    requires job.Valid() && ip < |script| && TighterOutput(small, large) && Shadows(a, b, small.maxOutput)
    ensures Shadows(AfterFetch(script, ip, selected, a, small, job),
                    AfterFetch(script, ip, selected, b, large, job), small.maxOutput)
    decreases Fuel(a, small), 3
  {
    if selected == script[ip].negated {
      CommandsShadow(script, ip + 1, a, b, small, large, job);
    } else {
      OneShadow(script[ip].cmd, a, b, small, large, job);
      var (flow, a') := One(script[ip].cmd, a, small, job);
      AfterCommandShadow(script, ip, flow, a', One(script[ip].cmd, b, large, job).1, small, large, job);
    }
  }

  lemma {:induction false} AfterCommandShadow(script: SedScript, ip: nat, flow: Flow, a: State, b: State,
                                              small: Limits, large: Limits, job: Job)
    requires job.Valid() && TighterOutput(small, large) && Shadows(a, b, small.maxOutput)
    ensures Shadows(AfterCommand(script, ip, flow, a, small, job),
                    AfterCommand(script, ip, flow, b, large, job), small.maxOutput)
    decreases Fuel(a, small), 1
  {
    var next := Target(flow, ip, job.labels);
    if next.Some? {
      CommandsShadow(script, next.value, a, b, small, large, job);
    }
  }

  lemma {:induction false} OneShadow(cmd: SedCmd, a: State, b: State, small: Limits, large: Limits, job: Job)
    requires job.Valid() && TighterOutput(small, large) && Shadows(a, b, small.maxOutput)
    ensures One(cmd, a, small, job).0 == One(cmd, b, large, job).0
    ensures Shadows(One(cmd, a, small, job).1, One(cmd, b, large, job).1, small.maxOutput)
    decreases Fuel(a, small), 2
  {
    if cmd.CommandGroup? {
      CommandsShadow(cmd.body, 0, a, b, small, large, job);
    } else {
      ShowBehind(a.out, b.out, small, large, Simple(cmd, a.core, job).line);
    }
  }

  lemma CycleShadow(script: SedScript, a: State, b: State, small: Limits, large: Limits, job: Job)
    requires job.Valid() && a.core.at.lineIdx < job.total
    requires TighterOutput(small, large) && Shadows(a, b, small.maxOutput)
    ensures Shadows(Cycle(script, a, small, job), Cycle(script, b, large, job), small.maxOutput)
  {
    var a1, b1 := State(BeginCycle(a.core, job), a.out), State(BeginCycle(b.core, job), b.out);
    CommandsShadow(script, 0, a1, b1, small, large, job);
    var a2, b2 := Commands(script, 0, a1, small, job), Commands(script, 0, b1, large, job);
    PushBehind(a2.out, b2.out, small, large, a2.core.pattern);
    PushBehind(Push(a2.out, small, a2.core.pattern), Push(b2.out, large, a2.core.pattern), small, large, "\n");
    PushLinesBehind(AutoPrint(a2, small, job), AutoPrint(b2, large, job), small, large, a2.core.appendQueue);
  }

  lemma {:induction false} CyclesShadow(script: SedScript, a: State, b: State, small: Limits, large: Limits, job: Job)
    requires job.Valid() && TighterOutput(small, large) && Shadows(a, b, small.maxOutput)
    ensures Shadows(Cycles(script, a, small, job), Cycles(script, b, large, job), small.maxOutput)
    decreases LinesLeft(a, job)
  {
    if a.core.at.lineIdx < job.total {
      CycleShadow(script, a, b, small, large, job);
      var a1, b1 := Cycle(script, a, small, job), Cycle(script, b, large, job);
      if !a1.core.quit {
        CyclesShadow(script, NextCycle(a1), NextCycle(b1), small, large, job);
      }
    }
  }

  /**
   At one cycle budget, a smaller output cap gives a prefix of the output and otherwise the very
   same run: spaces, latches, queue, lines, instructions fetched, quit. If output is missing, the
   kept part already exceeds the cap.
   */
  lemma SmallerCapOnlyCutsOutput(script: SedScript, small: Limits, large: Limits, job: Job)
    requires job.Valid() && TighterOutput(small, large)
    ensures var a, b := Run(script, small, job), Run(script, large, job);
            && a.core == b.core
            && a.out.text <= b.out.text
            && (a.out.text != b.out.text ==> ByteLen(a.out.text) > small.maxOutput)
  {
    CyclesShadow(script, INITIAL, INITIAL, small, large, job);
  }
}
