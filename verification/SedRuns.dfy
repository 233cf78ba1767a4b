/**
 What every sed run keeps: the cycle budget, the order in which input lines are read, the line
 number, and the meaning of two-address ranges as a property of the whole run.
 */
module SedRuns {
  import opened Wrappers
  import opened Sed

  // ----- ranges ------------------------------------------------------------------------------

  /** Fetch `i` evaluates the range latch `ip`. */
  ghost predicate Evaluates(t: seq<Fetch>, i: nat, ip: nat)
    requires i < |t|
  {
    t[i].ranged && t[i].ip == ip
  }

  /** The end address did not match at any evaluation of `ip` from fetch `from` to before `to`. */
  ghost predicate NoEnd(t: seq<Fetch>, from: nat, to: nat, ip: nat)
    requires to <= |t|
  {
    forall u: nat :: from <= u < to && Evaluates(t, u, ip) ==> !t[u].endHit
  }

  ghost predicate StartedAt(t: seq<Fetch>, s: nat, ip: nat)
    requires s < |t|
  {
    Evaluates(t, s, ip) && t[s].startHit
  }

  /** Some earlier evaluation matched the start address and none since matched the end address. */
  ghost predicate Open(t: seq<Fetch>, to: nat, ip: nat)
    requires to <= |t|
  {
    exists s: nat :: s < to && StartedAt(t, s, ip) && NoEnd(t, s, to, ip)
  }

  /** Closed form of a range: open before `i`, or starting at `i`. */
  ghost predicate InRange(t: seq<Fetch>, i: nat)
    requires i < |t|
  {
    exists s: nat :: s <= i && StartedAt(t, s, t[i].ip) && NoEnd(t, s, i, t[i].ip)
  }

  ghost predicate LatchesAgree(s: Core) {
    forall ip :: Latched(s.latches, ip) <==> Open(s.trace, |s.trace|, ip)
  }

  ghost predicate RangesAgree(t: seq<Fetch>) {
    forall i: nat :: i < |t| && t[i].ranged ==> (t[i].selected <==> InRange(t, i))
  }

  lemma NoEndPrefix(t: seq<Fetch>, f: Fetch, from: nat, to: nat, ip: nat)
    requires to <= |t|
    ensures NoEnd(t + [f], from, to, ip) <==> NoEnd(t, from, to, ip)
  {
    var t' := t + [f];
    forall u: nat | u < |t|
      ensures Evaluates(t', u, ip) == Evaluates(t, u, ip) && t'[u] == t[u]
    {
    }
  }

  lemma OpenPrefix(t: seq<Fetch>, f: Fetch, to: nat, ip: nat)
    requires to <= |t|
    ensures Open(t + [f], to, ip) <==> Open(t, to, ip)
  {
    var t' := t + [f];
    forall s: nat | s < to
      ensures StartedAt(t', s, ip) == StartedAt(t, s, ip) && NoEnd(t', s, to, ip) == NoEnd(t, s, to, ip)
    {
      NoEndPrefix(t, f, s, to, ip);
    }
  }

  lemma InRangePrefix(t: seq<Fetch>, f: Fetch, i: nat)
    requires i < |t|
    ensures InRange(t + [f], i) <==> InRange(t, i)
  {
    var t' := t + [f];
    assert t'[i] == t[i];
    forall s: nat | s <= i
      ensures StartedAt(t', s, t[i].ip) == StartedAt(t, s, t[i].ip)
      ensures NoEnd(t', s, i, t[i].ip) == NoEnd(t, s, i, t[i].ip)
    {
      NoEndPrefix(t, f, s, i, t[i].ip);
    }
  }

  /** One more fetch opens, keeps or closes the latch it evaluates and no other. */
  lemma OpenAfter(t: seq<Fetch>, f: Fetch, ip: nat)
    ensures Open(t + [f], |t| + 1, ip) <==>
            if f.ranged && f.ip == ip then (Open(t, |t|, ip) || f.startHit) && !f.endHit
            else Open(t, |t|, ip)
  {
    var t' := t + [f];
    var n := |t|;
    assert Evaluates(t', n, ip) <==> f.ranged && f.ip == ip;
    forall s: nat | s <= n
      ensures NoEnd(t', s, n + 1, ip) <==> NoEnd(t', s, n, ip) && !(Evaluates(t', n, ip) && f.endHit)
    {
    }
    OpenPrefix(t, f, n, ip);
    if Open(t, n, ip) && !(f.ranged && f.ip == ip && f.endHit) {
      var s: nat :| s < n && StartedAt(t', s, ip) && NoEnd(t', s, n, ip);
      assert NoEnd(t', s, n + 1, ip);
    }
    if f.ranged && f.ip == ip && f.startHit && !f.endHit {
      assert StartedAt(t', n, ip) && NoEnd(t', n, n + 1, ip);
    }
    if Open(t', n + 1, ip) {
      var s: nat :| s < n + 1 && StartedAt(t', s, ip) && NoEnd(t', s, n + 1, ip);
      assert NoEnd(t', s, n, ip);
    }
  }

  /** The last fetch is in range exactly when its latch was open or its start address matched. */
  lemma InRangeLast(t: seq<Fetch>, f: Fetch)
    requires f.ranged
    ensures InRange(t + [f], |t|) <==> Open(t, |t|, f.ip) || f.startHit
  {
    var t' := t + [f];
    var n := |t|;
    assert t'[n] == f;
    OpenPrefix(t, f, n, f.ip);
    if Open(t, n, f.ip) {
      var s: nat :| s < n && StartedAt(t', s, f.ip) && NoEnd(t', s, n, f.ip);
    }
    if f.startHit {
      assert StartedAt(t', n, f.ip) && NoEnd(t', n, n, f.ip);
    }
    if InRange(t', n) {
      var s: nat :| s <= n && StartedAt(t', s, f.ip) && NoEnd(t', s, n, f.ip);
      assert s < n ==> Open(t', n, f.ip);
    }
  }

  lemma AddressKeepsLatches(range: Option<SedRange>, s: Core, ip: nat, engine: Engine)
    requires LatchesAgree(s) && RangesAgree(s.trace)
    ensures var r := Address(range, s, ip, engine).1;
            LatchesAgree(r) && RangesAgree(r.trace)
  {
    var (selected, r) := Address(range, s, ip, engine);
    var f := Record(range, s, ip, engine, selected);
    assert r.trace == s.trace + [f];
    forall k
      ensures Latched(r.latches, k) <==> Open(r.trace, |r.trace|, k)
    {
      OpenAfter(s.trace, f, k);
    }
    forall i: nat | i < |r.trace| && r.trace[i].ranged
      ensures r.trace[i].selected <==> InRange(r.trace, i)
    {
      if i < |s.trace| {
        InRangePrefix(s.trace, f, i);
      } else {
        InRangeLast(s.trace, f);
      }
    }
  }

  // ----- lines and cycles --------------------------------------------------------------------

  /** The lines 0, 1, 2, ... in order, `n` of them. */
  ghost predicate FirstLines(loaded: seq<nat>, n: nat) {
    |loaded| == n && forall i :: 0 <= i < n ==> loaded[i] == i
  }

  /** Inside a cycle. */
  ghost predicate CursorOk(at: Cursor, job: Job) {
    && at.lineNumber == at.lineIdx + 1
    && at.lineIdx <= job.total
    && (at.lastLine <==> at.lineIdx + 1 >= job.total)
    && FirstLines(at.loaded, if at.lineIdx < job.total then at.lineIdx + 1 else job.total)
  }

  /** Every instruction was fetched on a loaded line, with that line's number. */
  ghost predicate FetchOk(f: Fetch, job: Job) {
    && f.lineIdx < job.total
    && f.lineNumber == f.lineIdx + 1
    && (f.lastLine <==> f.lineIdx + 1 == job.total)
  }

  ghost predicate TraceOk(t: seq<Fetch>, lineIdx: nat, job: Job) {
    && (forall i :: 0 <= i < |t| ==> FetchOk(t[i], job) && t[i].lineIdx <= lineIdx)
    && (forall i, j :: 0 <= i < j < |t| ==> t[i].lineIdx <= t[j].lineIdx)
  }

  /** The budget: one fetch per cycle, and the cycle that breaks the budget stops the run. */
  ghost predicate BudgetOk(s: Core, lim: Limits) {
    && s.cycles <= lim.maxCycles + 1
    && |s.trace| == (if s.cycles <= lim.maxCycles then s.cycles else lim.maxCycles)
    && (s.cycles > lim.maxCycles ==> s.quit)
  }

  ghost predicate History(s: Core, lim: Limits, job: Job) {
    && BudgetOk(s, lim)
    && TraceOk(s.trace, s.at.lineIdx, job)
    && LatchesAgree(s)
    && RangesAgree(s.trace)
  }

  ghost predicate Inside(s: Core, lim: Limits, job: Job) {
    && CursorOk(s.at, job)
    && (s.deleted || s.at.lineIdx < job.total)
    && History(s, lim, job)
  }

  /** Going beyond the cycle budget is reported. */
  ghost predicate Reported(s: State, lim: Limits) {
    s.core.cycles > lim.maxCycles ==> s.out.limit.Some?
  }

  ghost predicate Live(s: Core) {
    !s.quit && !s.deleted
  }

  lemma AddressKeeps(range: Option<SedRange>, s: Core, ip: nat, lim: Limits, job: Job)
    requires Inside(s, lim, job) && Live(s) && s.cycles < lim.maxCycles
    ensures var r := Address(range, Tick(s), ip, job.engine).1;
            Inside(r, lim, job) && Live(r)
  {
    AddressKeepsLatches(range, Tick(s), ip, job.engine);
  }

  /** What a simple command leaves alone. */
  lemma SimpleFrame(cmd: SedCmd, s: Core, job: Job)
    requires job.Valid() && !cmd.CommandGroup?
    ensures var r := Simple(cmd, s, job).core;
            && r.trace == s.trace && r.latches == s.latches && r.cycles == s.cycles
            && (r.at == s.at || r.at == Advance(s.at, job))
  {
    hide SubstituteResult, Transliterated, BranchFlow, Advance;
  }

  /** Commands that quit, delete or run out of input always stop the list they are in. */
  lemma SimpleFlow(cmd: SedCmd, s: Core, job: Job)
    requires job.Valid() && !cmd.CommandGroup?
    requires Live(s) && s.at.lineIdx < job.total
    ensures var e := Simple(cmd, s, job);
            && (e.flow != Break ==> Live(e.core))
            && (e.core.deleted || e.core.at.lineIdx < job.total)
  {
  }

  lemma SimpleKeeps(cmd: SedCmd, s: Core, lim: Limits, job: Job)
    requires job.Valid() && !cmd.CommandGroup?
    requires Inside(s, lim, job) && Live(s)
    ensures var e := Simple(cmd, s, job);
            Inside(e.core, lim, job) && (e.flow != Break ==> Live(e.core))
  {
    SimpleFrame(cmd, s, job);
    SimpleFlow(cmd, s, job);
  }

  /**
   A command list entered live keeps the invariant. In particular the check for `quit` or
   `deleted` at the head of the loop never fires.
   */
  lemma {:induction false} CommandsKeep(script: SedScript, ip: nat, s: State, lim: Limits, job: Job)
    requires job.Valid() && Inside(s.core, lim, job) && Live(s.core)
    ensures var r := Commands(script, ip, s, lim, job);
            Inside(r.core, lim, job) && Reported(r, lim)
    decreases Fuel(s, lim), 0
  {
    if ip < |script| && s.core.cycles < lim.maxCycles {
      AddressKeeps(script[ip].range, s.core, ip, lim, job);
      var (selected, core) := Address(script[ip].range, Tick(s.core), ip, job.engine);
      AfterFetchKeeps(script, ip, selected, State(core, s.out), lim, job);
    }
  }

  lemma {:induction false} AfterFetchKeeps(script: SedScript, ip: nat, selected: bool, s: State, lim: Limits, job: Job)
    requires job.Valid() && ip < |script| && Inside(s.core, lim, job) && Live(s.core)
    ensures var r := AfterFetch(script, ip, selected, s, lim, job);
            Inside(r.core, lim, job) && Reported(r, lim)
    decreases Fuel(s, lim), 3
  {
    if selected == script[ip].negated {
      CommandsKeep(script, ip + 1, s, lim, job);
    } else {
      OneKeeps(script[ip].cmd, s, lim, job);
      var (flow, s') := One(script[ip].cmd, s, lim, job);
      var next := Target(flow, ip, job.labels);
      if next.Some? {
        CommandsKeep(script, next.value, s', lim, job);
      }
    }
  }

  lemma {:induction false} OneKeeps(cmd: SedCmd, s: State, lim: Limits, job: Job)
    requires job.Valid() && Inside(s.core, lim, job) && Live(s.core)
    ensures var (flow, r) := One(cmd, s, lim, job);
            Inside(r.core, lim, job) && Reported(r, lim) && (flow != Break ==> Live(r.core))
    decreases Fuel(s, lim), 2
  {
    if cmd.CommandGroup? {
      CommandsKeep(cmd.body, 0, s, lim, job);
    } else {
      SimpleKeeps(cmd, s.core, lim, job);
    }
  }

  /** Between two cycles. */
  ghost predicate Between(s: Core, lim: Limits, job: Job) {
    && s.at.lineNumber == s.at.lineIdx
    && s.at.lineIdx <= job.total + 1
    && FirstLines(s.at.loaded, if s.at.lineIdx < job.total then s.at.lineIdx else job.total)
    && History(s, lim, job)
  }

  lemma BeginKeeps(s: Core, lim: Limits, job: Job)
    requires job.Valid() && Between(s, lim, job) && s.at.lineIdx < job.total
    ensures Inside(BeginCycle(s, job), lim, job)
  {
  }

  lemma {:induction false} PushLinesLimit(o: Out, lim: Limits, texts: seq<string>)
    ensures o.limit.Some? ==> PushLines(o, lim, texts).limit.Some?
    decreases |texts|
  {
    if texts != [] {
      PushLinesLimit(PushLine(o, lim, texts[0]), lim, texts[1..]);
    }
  }

  lemma EndKeeps(s: State, lim: Limits, job: Job)
    requires job.Valid() && Inside(s.core, lim, job) && Reported(s, lim)
    ensures var e := EndCycle(s, lim, job);
            && e.core.at == s.core.at && History(e.core, lim, job)
            && Between(NextCycle(e).core, lim, job)
            && Reported(e, lim)
  {
    PushLinesLimit(AutoPrint(s, lim, job), lim, s.core.appendQueue);
  }

  /** Where a run may end. */
  ghost predicate Finished(r: State, lim: Limits, job: Job) {
    && History(r.core, lim, job)
    && Reported(r, lim)
    && |r.core.at.loaded| <= job.total
    && FirstLines(r.core.at.loaded, |r.core.at.loaded|)
    && (!r.core.quit ==> |r.core.at.loaded| == job.total)
  }

  lemma {:induction false} CyclesKeep(script: SedScript, s: State, lim: Limits, job: Job)
    requires job.Valid() && Between(s.core, lim, job) && !s.core.quit
    ensures Finished(Cycles(script, s, lim, job), lim, job)
    decreases LinesLeft(s, job)
  {
    if s.core.at.lineIdx < job.total {
      BeginKeeps(s.core, lim, job);
      var b := State(BeginCycle(s.core, job), s.out);
      CommandsKeep(script, 0, b, lim, job);
      var c := Commands(script, 0, b, lim, job);
      EndKeeps(c, lim, job);
      var e := Cycle(script, s, lim, job);
      if !e.core.quit {
        CyclesKeep(script, NextCycle(e), lim, job);
      }
    }
  }

  lemma RunFinishes(script: SedScript, lim: Limits, job: Job)
    requires job.Valid()
    ensures Finished(Run(script, lim, job), lim, job)
  {
    CyclesKeep(script, INITIAL, lim, job);
  }

  /**
   Every run, with any nesting and any backward branches, ends within its budget: one instruction
   fetch per cycle, at most one cycle beyond the budget, and going beyond it is reported.
   */
  lemma RunStaysInBudget(script: SedScript, lim: Limits, job: Job)
    requires job.Valid()
    ensures var r := Run(script, lim, job);
            && r.core.cycles <= lim.maxCycles + 1
            && |r.core.trace| == (if r.core.cycles <= lim.maxCycles then r.core.cycles else lim.maxCycles)
            && (r.core.cycles > lim.maxCycles ==> r.core.quit && r.out.limit.Some?)
  {
    RunFinishes(script, lim, job);
  }

  /** Input lines are read in order, each at most once, and all of them unless the run quits. */
  lemma RunReadsLinesInOrder(script: SedScript, lim: Limits, job: Job)
    requires job.Valid()
    ensures var r := Run(script, lim, job);
            && |r.core.at.loaded| <= job.total
            && (forall i :: 0 <= i < |r.core.at.loaded| ==> r.core.at.loaded[i] == i)
            && (!r.core.quit ==> |r.core.at.loaded| == job.total)
  {
    RunFinishes(script, lim, job);
  }

  /**
   At every instruction of a run the line number is that of the current line and `$` holds
   exactly on the final line; lines never go back.
   */
  lemma RunNumbersLines(script: SedScript, lim: Limits, job: Job)
    requires job.Valid()
    ensures var t := Run(script, lim, job).core.trace;
            && (forall i :: 0 <= i < |t| ==> FetchOk(t[i], job))
            && (forall i, j :: 0 <= i < j < |t| ==> t[i].lineIdx <= t[j].lineIdx)
  {
    RunFinishes(script, lim, job);
  }

  /**
   Closed form of two-address ranges over a whole run: an evaluation selects its instruction
   exactly when some evaluation of the same latch, up to this one, matched the start address and
   none from it to before this one matched the end address. Latches are named by instruction
   index, so in a script without groups a latch is an instruction.
   */
  lemma RunSelectsRanges(script: SedScript, lim: Limits, job: Job)
    requires job.Valid()
    ensures var t := Run(script, lim, job).core.trace;
            forall i: nat :: i < |t| && t[i].ranged ==> (t[i].selected <==> InRange(t, i))
  {
    RunFinishes(script, lim, job);
  }
}
