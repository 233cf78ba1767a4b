/**
 The sed machine as it runs: `SedState` and its methods update the machine in place and are
 proved to compute exactly what the functions of module `Sed` say.
 */
module SedMachine {
  import opened Wrappers
  import opened Utf8Text
  import opened Numerals
  import opened Sed

  class SedState {
    var patternSpace: string
    var holdSpace: string
    var lineNumber: nat
    var lastLine: bool
    var lastSubSuccess: bool
    var output: string
    var quit: bool
    var deleted: bool
    var rangeActive: map<nat, bool>
    var appendQueue: seq<string>
    var cycleCount: nat
    const maxCycles: nat
    const maxOutputSize: nat
    var limit: Option<Limit>
    // history
    ghost var loaded: seq<nat>
    ghost var trace: seq<Fetch>

    constructor (maxCycles: nat, maxOutputSize: nat)
      ensures this.maxCycles == maxCycles && this.maxOutputSize == maxOutputSize
      ensures View(0) == INITIAL
    {
      patternSpace, holdSpace, output := "", "", "";
      lineNumber, cycleCount := 0, 0;
      lastLine, lastSubSuccess, quit, deleted := false, false, false, false;
      rangeActive, appendQueue, limit := map[], [], None;
      this.maxCycles, this.maxOutputSize := maxCycles, maxOutputSize;
      loaded, trace := [], [];
    }

    ghost function Lim(): Limits {
      Limits(maxCycles, maxOutputSize)
    }

    /** The machine without its output; the line index is the caller's variable. */
    ghost function Inner(lineIdx: nat): Core
      reads this`patternSpace, this`holdSpace, this`lastSubSuccess, this`quit, this`deleted, this`rangeActive
      reads this`appendQueue, this`cycleCount, this`lineNumber, this`lastLine, this`loaded, this`trace
    {
      Core(patternSpace, holdSpace, lastSubSuccess, quit, deleted, rangeActive, appendQueue, cycleCount,
           Cursor(lineIdx, lineNumber, lastLine, loaded), trace)
    }

    ghost function View(lineIdx: nat): State
      reads this
    {
      State(Inner(lineIdx), Written())
    }

    ghost function Written(): Out
      reads this`output, this`limit
    {
      Out(output, limit)
    }

    ghost function Remaining(): nat
      reads this
    {
      if cycleCount <= maxCycles then maxCycles + 1 - cycleCount else 0
    }

    method PushOutput(s: string)
      modifies this`output, this`limit
      ensures Written() == Push(old(Written()), Lim(), s)
    {
      if ByteLen(output) > maxOutputSize {
        if limit.None? {
          limit := Some(MaxOutputSize(maxOutputSize, ByteLen(output)));
        }
        return;
      }
      output := output + s;
    }

    method PushOutputChar(c: char)
      modifies this`output, this`limit
      ensures Written() == Push(old(Written()), Lim(), [c])
    {
      if ByteLen(output) > maxOutputSize {
        if limit.None? {
          limit := Some(MaxOutputSize(maxOutputSize, ByteLen(output)));
        }
        return;
      }
      output := output + [c];
    }

    /** The pair of calls that prints a text and its newline. */
    method PrintLine(s: string)
      modifies this`output, this`limit
      ensures Written() == PushLine(old(Written()), Lim(), s)
    {
      PushOutput(s);
      PushOutputChar('\n');
    }

    method FlushAppends()
      modifies this`output, this`limit, this`appendQueue
      ensures Written() == PushLines(old(Written()), Lim(), old(appendQueue))
      ensures appendQueue == []
    {
      var queued := appendQueue;
      appendQueue := [];
      for i := 0 to |queued|
        invariant PushLines(Written(), Lim(), queued[i..]) == PushLines(old(Written()), Lim(), queued)
        invariant appendQueue == []
      {
        PrintLine(queued[i]);
      }
    }

    method AddrMatchesNow(addr: SedAddress, engine: Engine, ghost lineIdx: nat) returns (b: bool)
      ensures b == AddrMatches(addr, Inner(lineIdx), engine)
    {
      match addr
      case LineNumber(n) => b := lineNumber == n;
      case Last => b := lastLine;
      case Pattern(re) => b := engine.isMatch(re, patternSpace);
      case Step(first, step) =>
        if step == 0 {
          b := lineNumber == first;
        } else {
          b := lineNumber >= first && (lineNumber - first) % step == 0;
        }
    }

    method AddressMatches(range: Option<SedRange>, ip: nat, engine: Engine, ghost lineIdx: nat) returns (selected: bool)
      modifies this`rangeActive, this`trace
      ensures (selected, Inner(lineIdx)) == Address(range, old(Inner(lineIdx)), ip, engine)
    {
      hide AddrMatches;
      ghost var before := Inner(lineIdx);
      match range {
        case None => selected := true;
        case Some(Single(addr)) => selected := AddrMatchesNow(addr, engine, lineIdx);
        case Some(Range(start, end)) =>
          var active := ip in rangeActive && rangeActive[ip];
          if active {
            var endMatch := AddrMatchesNow(end, engine, lineIdx);
            if endMatch {
              rangeActive := rangeActive[ip := false];
            }
            selected := true;
          } else {
            var startMatch := AddrMatchesNow(start, engine, lineIdx);
            if startMatch {
              var endMatch := AddrMatchesNow(end, engine, lineIdx);
              if !endMatch {
                rangeActive := rangeActive[ip := true];
              }
              selected := true;
            } else {
              selected := false;
            }
          }
      }
      trace := trace + [Record(range, before, ip, engine, selected)];
    }

    /** Walks the matches up to the nth and replaces it alone. */
    method ReplaceNth(re: Regex, replacement: string, nth: nat, engine: Engine) returns (found: bool)
      modifies this`patternSpace
      ensures (patternSpace, found) ==
              SubstituteResult(re, replacement, SubstituteFlags(false, false, Some(nth)), old(patternSpace), engine)
    {
      hide ByteLen;
      var matches := engine.findIter(re, patternSpace);
      var count := 0;
      while count < |matches|
        invariant 0 <= count <= |matches|
        invariant count < nth || nth == 0
        invariant patternSpace == old(patternSpace)
      {
        var m := matches[count];
        count := count + 1;
        if count == nth {
          patternSpace := m.before + engine.replaceFirst(re, m.text, replacement) + m.after;
          return true;
        }
      }
      return false;
    }

    method Substitute(re: Regex, replacement: string, flags: SubstituteFlags, job: Job, ghost lineIdx: nat)
      requires job.Valid()
      modifies this`patternSpace, this`lastSubSuccess, this`output, this`limit
      ensures var e := Simple(SedCmd.Substitute(re, replacement, flags), old(Inner(lineIdx)), job);
              e.flow == Continue && Inner(lineIdx) == e.core && Written() == Show(old(Written()), Lim(), e.line)
    {
      hide NextLine, AppendNextLine, Transliterated, BranchFlow, PushLine;
      var before := patternSpace;
      if flags.global {
        patternSpace := job.engine.replaceAll(re, before, replacement);
        lastSubSuccess := patternSpace != before;
      } else if flags.nth.Some? {
        lastSubSuccess := ReplaceNth(re, replacement, flags.nth.value, job.engine);
      } else {
        patternSpace := job.engine.replaceFirst(re, before, replacement);
        lastSubSuccess := patternSpace != before;
      }
      if lastSubSuccess && flags.show {
        PrintLine(patternSpace);
      }
    }

    method TransliterateSpace(src: seq<char>, dst: seq<char>, job: Job, ghost lineIdx: nat)
      requires job.Valid()
      modifies this`patternSpace
      ensures Effect(Continue, Inner(lineIdx), None) == Simple(Transliterate(src, dst), old(Inner(lineIdx)), job)
    {
      hide SubstituteResult, NextLine, AppendNextLine, BranchFlow;
      var rewritten := "";
      for i := 0 to |patternSpace|
        invariant rewritten == Transliterated(patternSpace[..i], src, dst)
      {
        var c := TransliterateChar(patternSpace[i], src, dst);
        rewritten := rewritten + [c];
      }
      patternSpace := rewritten;
      assert old(patternSpace)[..|old(patternSpace)|] == old(patternSpace);
    }

    /** Moves to the next input line, if there is one. */
    method AdvanceLine(job: Job, lineIdx: nat) returns (lineIdx': nat)
      modifies this`lineNumber, this`lastLine, this`loaded
      ensures Inner(lineIdx') == old(Inner(lineIdx)).(at := Advance(old(Inner(lineIdx).at), job))
      ensures lineIdx' == lineIdx + 1
    {
      lineIdx' := lineIdx + 1;
      lineNumber := lineNumber + 1;
      if lineIdx' < job.total {
        lastLine := lineIdx' + 1 >= job.total;
        loaded := loaded + [lineIdx'];
      }
    }

    method ReadNext(job: Job, lineIdx: nat) returns (flow: Flow, lineIdx': nat)
      requires job.Valid()
      modifies this`output, this`limit, this`lineNumber, this`lastLine, this`deleted, this`patternSpace, this`loaded
      ensures var e := Simple(Next, old(Inner(lineIdx)), job);
              flow == e.flow && Inner(lineIdx') == e.core && Written() == Show(old(Written()), Lim(), e.line)
    {
      hide SubstituteResult, AppendNextLine, Transliterated, BranchFlow, Advance, PushLine;
      if !job.quiet {
        PrintLine(patternSpace);
      }
      lineIdx' := AdvanceLine(job, lineIdx);
      if lineIdx' >= job.total {
        deleted := true;
        flow := Break;
      } else {
        patternSpace := job.lines[lineIdx'];
        flow := Continue;
      }
    }

    method ReadAppend(job: Job, lineIdx: nat) returns (flow: Flow, lineIdx': nat)
      requires job.Valid()
      modifies this`output, this`limit, this`lineNumber, this`lastLine, this`deleted, this`patternSpace, this`loaded
      ensures var e := Simple(NextAppend, old(Inner(lineIdx)), job);
              flow == e.flow && Inner(lineIdx') == e.core && Written() == Show(old(Written()), Lim(), e.line)
    {
      hide SubstituteResult, NextLine, Transliterated, BranchFlow, Advance, PushLine;
      lineIdx' := AdvanceLine(job, lineIdx);
      if lineIdx' >= job.total {
        if !job.quiet {
          PrintLine(patternSpace);
        }
        deleted := true;
        flow := Break;
      } else {
        patternSpace := patternSpace + "\n" + job.lines[lineIdx'];
        flow := Continue;
      }
    }

    /** `b`, `t` and `T`. */
    method ExecuteBranch(cmd: SedCmd, job: Job, ghost lineIdx: nat) returns (flow: Flow)
      requires job.Valid() && (cmd.Branch? || cmd.BranchIfSubstituted? || cmd.BranchIfNotSubstituted?)
      modifies this`lastSubSuccess
      ensures Effect(flow, Inner(lineIdx), None) == Simple(cmd, old(Inner(lineIdx)), job)
    {
      hide SubstituteResult, NextLine, AppendNextLine, Transliterated;
      flow := Continue;
      match cmd
      case Branch(target) => flow := BranchFlow(target);
      case BranchIfSubstituted(target) =>
        if lastSubSuccess {
          lastSubSuccess := false;
          flow := BranchFlow(target);
        }
      case BranchIfNotSubstituted(target) =>
        if !lastSubSuccess {
          flow := BranchFlow(target);
        } else {
          lastSubSuccess := false;
        }
    }

    /** `h`, `H`, `g`, `G` and `x`. */
    method MoveSpaces(cmd: SedCmd, job: Job, ghost lineIdx: nat)
      requires job.Valid()
      requires cmd.HoldGet? || cmd.HoldAppend? || cmd.PatternGet? || cmd.PatternAppend? || cmd.Exchange?
      modifies this`patternSpace, this`holdSpace
      ensures Effect(Continue, Inner(lineIdx), None) == Simple(cmd, old(Inner(lineIdx)), job)
    {
      hide SubstituteResult, NextLine, AppendNextLine, Transliterated, BranchFlow;
      match cmd
      case HoldGet => holdSpace := patternSpace;
      case HoldAppend => holdSpace := holdSpace + "\n" + patternSpace;
      case PatternGet => patternSpace := holdSpace;
      case PatternAppend => patternSpace := patternSpace + "\n" + holdSpace;
      case Exchange => patternSpace, holdSpace := holdSpace, patternSpace;
    }

    /** `p`, `i`, `c` and `=`. */
    method PrintText(cmd: SedCmd, job: Job, ghost lineIdx: nat) returns (flow: Flow)
      requires job.Valid() && (cmd.Print? || cmd.Insert? || cmd.Change? || cmd.PrintLineNumber?)
      modifies this`output, this`limit, this`patternSpace, this`deleted
      ensures var e := Simple(cmd, old(Inner(lineIdx)), job);
              flow == e.flow && Inner(lineIdx) == e.core && Written() == Show(old(Written()), Lim(), e.line)
    {
      hide SubstituteResult, NextLine, AppendNextLine, Transliterated, BranchFlow, PushLine;
      flow := Continue;
      match cmd
      case Print => PrintLine(patternSpace);
      case Insert(text) => PrintLine(text);
      case Change(text) =>
        patternSpace := text;
        PrintLine(text);
        deleted := true;
        flow := Break;
      case PrintLineNumber => PrintLine(Decimal(lineNumber));
    }

    /** `d`, `q`, `a` and the commands that do nothing. */
    method MarkState(cmd: SedCmd, job: Job, ghost lineIdx: nat) returns (flow: Flow)
      requires job.Valid() && (cmd.Noop? || cmd.Label? || cmd.Delete? || cmd.Quit? || cmd.Append?)
      modifies this`deleted, this`quit, this`appendQueue
      ensures Effect(flow, Inner(lineIdx), None) == Simple(cmd, old(Inner(lineIdx)), job)
    {
      hide SubstituteResult, NextLine, AppendNextLine, Transliterated, BranchFlow;
      flow := Continue;
      match cmd
      case Noop =>
      case Label(_) =>
      case Delete => deleted := true; flow := Break;
      case Quit => quit := true; flow := Break;
      case Append(text) => appendQueue := appendQueue + [text];
    }

    /** Every command but a group. */
    method ExecuteSimple(cmd: SedCmd, job: Job, lineIdx: nat) returns (flow: Flow, lineIdx': nat)
      requires job.Valid() && !cmd.CommandGroup?
      modifies this
      ensures var e := Simple(cmd, old(Inner(lineIdx)), job);
              flow == e.flow && Inner(lineIdx') == e.core && Written() == Show(old(Written()), Lim(), e.line)
    {
      hide Simple, PushLine;
      lineIdx' := lineIdx;
      flow := Continue;
      if cmd.Branch? || cmd.BranchIfSubstituted? || cmd.BranchIfNotSubstituted? {
        flow := ExecuteBranch(cmd, job, lineIdx);
      } else if cmd.HoldGet? || cmd.HoldAppend? || cmd.PatternGet? || cmd.PatternAppend? || cmd.Exchange? {
        MoveSpaces(cmd, job, lineIdx);
      } else if cmd.Print? || cmd.Insert? || cmd.Change? || cmd.PrintLineNumber? {
        flow := PrintText(cmd, job, lineIdx);
      } else if cmd.Noop? || cmd.Label? || cmd.Delete? || cmd.Quit? || cmd.Append? {
        flow := MarkState(cmd, job, lineIdx);
      } else {
        match cmd
        case Substitute(re, replacement, flags) => Substitute(re, replacement, flags, job, lineIdx);
        case Next => flow, lineIdx' := ReadNext(job, lineIdx);
        case NextAppend => flow, lineIdx' := ReadAppend(job, lineIdx);
        case Transliterate(src, dst) => TransliterateSpace(src, dst, job, lineIdx);
      }
    }

    method ExecuteOne(cmd: SedCmd, job: Job, lineIdx: nat) returns (flow: Flow, lineIdx': nat)
      requires job.Valid()
      modifies this
      ensures (flow, View(lineIdx')) == One(cmd, old(View(lineIdx)), Lim(), job)
      decreases Remaining(), 1
    {
      hide Simple, Show, Commands;
      if cmd.CommandGroup? {
        lineIdx' := ExecuteCommands(cmd.body, job, lineIdx);
        flow := if quit || deleted then Break else Continue;
      } else {
        flow, lineIdx' := ExecuteSimple(cmd, job, lineIdx);
      }
    }

    /** Counts one cycle; going beyond the budget trips the limit and quits. */
    method CountCycle(ghost lineIdx: nat) returns (exhausted: bool)
      modifies this`cycleCount, this`limit, this`quit
      ensures cycleCount == old(cycleCount) + 1 && exhausted == (cycleCount > maxCycles)
      ensures !exhausted ==> View(lineIdx) == State(Tick(old(Inner(lineIdx))), old(Written()))
      ensures exhausted ==> View(lineIdx) == Exhausted(old(View(lineIdx)), Lim())
    {
      cycleCount := cycleCount + 1;
      exhausted := cycleCount > maxCycles;
      if exhausted {
        if limit.None? {
          limit := Some(MaxLoopIterations(maxCycles, cycleCount));
        }
        quit := true;
      }
    }

    method ExecuteCommands(script: SedScript, job: Job, lineIdx: nat) returns (lineIdx': nat)
      requires job.Valid()
      modifies this
      ensures View(lineIdx') == Commands(script, 0, old(View(lineIdx)), Lim(), job)
      decreases Remaining(), 0
    {
      hide Simple, One, Show, Address, Target;
      var ip: nat := 0;
      lineIdx' := lineIdx;
      ghost var goal := Commands(script, 0, View(lineIdx), Lim(), job);
      while ip < |script|
        invariant Commands(script, ip, View(lineIdx'), Lim(), job) == goal
        invariant cycleCount >= old(cycleCount)
        decreases Remaining()
      {
        var exhausted := CountCycle(lineIdx');
        if exhausted {
          return;
        }
        if quit || deleted {
          return;
        }
        var entry := script[ip];
        var matches := AddressMatches(entry.range, ip, job.engine, lineIdx');
        var shouldRun := if entry.negated then !matches else matches;
        assert goal == AfterFetch(script, ip, matches, View(lineIdx'), Lim(), job);
        if shouldRun {
          var flow;
          flow, lineIdx' := ExecuteOne(entry.cmd, job, lineIdx');
          assert goal == AfterCommand(script, ip, flow, View(lineIdx'), Lim(), job);
          var next := Target(flow, ip, job.labels);
          if next.None? {
            return;
          }
          ip := next.value;
        } else {
          ip := ip + 1;
        }
      }
    }

    /** The head of a cycle. */
    method LoadLine(job: Job, lineIdx: nat)
      requires job.Valid() && lineIdx < job.total
      modifies this`lineNumber, this`lastLine, this`patternSpace, this`deleted, this`lastSubSuccess, this`loaded
      ensures Inner(lineIdx) == BeginCycle(old(Inner(lineIdx)), job)
    {
      lineNumber := lineNumber + 1;
      lastLine := lineIdx + 1 >= job.total;
      patternSpace := job.lines[lineIdx];
      deleted := false;
      lastSubSuccess := false;
      loaded := loaded + [lineIdx];
    }

    /** The tail of a cycle. */
    method FinishCycle(job: Job, ghost lineIdx: nat)
      modifies this
      ensures View(lineIdx) == EndCycle(old(View(lineIdx)), Lim(), job)
    {
      if !deleted && !job.quiet {
        PrintLine(patternSpace);
      }
      FlushAppends();
    }
  }

  method CollectLabels(script: SedScript) returns (labels: map<string, nat>)
    ensures labels == Labels(script)
  {
    labels := map[];
    for idx := 0 to |script|
      invariant labels == Labels(script[..idx])
    {
      assert script[..idx + 1][..idx] == script[..idx];
      if script[idx].cmd.Label? {
        labels := labels[script[idx].cmd.name := idx];
      }
    }
    assert script[..|script|] == script;
  }

  lemma CyclesOpen(script: SedScript, s: State, lim: Limits, job: Job)
    requires job.Valid() && s.core.at.lineIdx < job.total
    ensures var body := Commands(script, 0, State(BeginCycle(s.core, job), s.out), lim, job);
            var e := EndCycle(body, lim, job);
            && e.core.quit == body.core.quit
            && Cycles(script, s, lim, job) == if e.core.quit then e else Cycles(script, NextCycle(e), lim, job)
  {
    hide Commands, BeginCycle, AutoPrint, PushLines;
  }

  lemma CyclesEnd(script: SedScript, s: State, lim: Limits, job: Job)
    requires job.Valid()
    ensures s.core.at.lineIdx >= job.total ==> Cycles(script, s, lim, job) == s
  {
    hide Cycle;
  }

  lemma RunStarts(script: SedScript, lim: Limits, job: Job)
    requires job.Valid()
    ensures Run(script, lim, job) == Cycles(script, INITIAL, lim, job)
    ensures job.total == 0 ==> Run(script, lim, job) == INITIAL
  {
    hide Cycle;
  }

  /** `execute_sed`: the text written, the (always empty) error text and the first limit tripped. */
  method ExecuteSed(script: SedScript, engine: Engine, labels: map<string, nat>, input: string, quiet: bool,
                    maxCycles: nat, maxOutputSize: nat)
    returns (output: string, stderr: string, limit: Option<Limit>)
    ensures var r := Run(script, Limits(maxCycles, maxOutputSize), MakeJob(engine, labels, quiet, input));
            output == r.out.text && limit == r.out.limit && stderr == ""
  {
    hide Run, Cycles, Commands, BeginCycle, EndCycle, MakeJob;
    var job := MakeJob(engine, labels, quiet, input);
    var state := new SedState(maxCycles, maxOutputSize);
    var lineIdx := 0;
    ghost var goal := Run(script, state.Lim(), job);
    RunStarts(script, state.Lim(), job);
    while lineIdx < job.total
      invariant Cycles(script, state.View(lineIdx), state.Lim(), job) == goal
      invariant lineIdx >= job.total ==> state.View(lineIdx) == goal
      invariant fresh(state)
      invariant state.maxCycles == maxCycles && state.maxOutputSize == maxOutputSize
      decreases if lineIdx <= job.total then job.total - lineIdx else 0
    {
      CyclesOpen(script, state.View(lineIdx), state.Lim(), job);
      state.LoadLine(job, lineIdx);
      lineIdx := state.ExecuteCommands(script, job, lineIdx);
      if state.quit {
        state.FinishCycle(job, lineIdx);
        break;
      }
      state.FinishCycle(job, lineIdx);
      lineIdx := lineIdx + 1;
      CyclesEnd(script, state.View(lineIdx), state.Lim(), job);
    }
    return state.output, "", state.limit;
  }
}
