/**
 Scripts that take one line a cycle: what such a script prints is the pages of its lines, one after
 another, if the limits leave room.
 */
module SedPasses {
  import opened Sequences
  import opened Wrappers
  import opened Utf8Text
  import opened Sed
  import opened SedIdioms

  /** What is printed for a line, by its number and its text: lines, each ended by a newline. */
  type Page = (nat, string) -> seq<string>

  function PrintedFrom(job: Job, page: Page, i: nat): string
    requires job.Valid() && i <= job.total
    decreases job.total - i
  {
    if i == job.total then "" else Unlines(page(i + 1, job.lines[i])) + PrintedFrom(job, page, i + 1)
  }

  /** The pages of all lines. */
  function Printed(job: Job, page: Page): string
    requires job.Valid()
  {
    PrintedFrom(job, page, 0)
  }

  /** The commands of a script, those in groups included. */
  function Weight(script: SedScript): nat {
    if script == [] then 0
    else ItemWeight(script[0]) + Weight(script[1..])
  }

  function ItemWeight(item: AddressedCmd): (n: nat)
    ensures n >= 1
  {
    1 + CmdWeight(item.cmd)
  }

  function CmdWeight(cmd: SedCmd): nat {
    if cmd.CommandGroup? then Weight(cmd.body) else 0
  }

  /** Limits that a run of the script which prints `text` does not reach. */
  ghost predicate Room(script: SedScript, lim: Limits, job: Job, text: string) {
    lim.maxCycles >= Weight(script) * job.total && lim.maxOutput >= ByteLen(text)
  }

  // ----- one pass ---------------------------------------------------------------------------------

  /** No reading of further lines, and branches to the end only. */
  ghost predicate Straight(script: SedScript) {
    forall i :: 0 <= i < |script| ==> StraightItem(script[i])
  }

  ghost predicate StraightItem(item: AddressedCmd) {
    StraightCmd(item.cmd)
  }

  ghost predicate StraightCmd(cmd: SedCmd) {
    && !cmd.Next? && !cmd.NextAppend?
    && (cmd.Branch? || cmd.BranchIfSubstituted? || cmd.BranchIfNotSubstituted? ==> cmd.target.None?)
    && (cmd.CommandGroup? ==> Straight(cmd.body))
  }

  function LinesOf(line: Option<string>): seq<string> {
    if line.None? then [] else [line.value]
  }

  lemma {:induction false} WeightOf(script: SedScript, i: nat)
    requires i < |script|
    ensures Weight(script) >= ItemWeight(script[i])
  {
    if i > 0 {
      WeightOf(script[1..], i - 1);
    }
  }

  /** The commands from `ip` on, without limits: the core they leave and the lines they print. */
  function Pass(script: SedScript, ip: nat, c: Core, job: Job): (Core, seq<string>)
    requires job.Valid() && Straight(script)
    decreases Weight(script), |script| - ip
  {
    if ip >= |script| then (c, [])
    else
      var (selected, c) := Address(script[ip].range, Tick(c), ip, job.engine);
      if selected == script[ip].negated then Pass(script, ip + 1, c, job)
      else
        assert StraightItem(script[ip]);
        WeightOf(script, ip);
        var (goes, d, lines) := PassOne(script[ip].cmd, c, job);
        if goes then
          var (d, more) := Pass(script, ip + 1, d, job);
          (d, lines + more)
        else (d, lines)
  }

  /** One command, and whether the list goes on after it. */
  function PassOne(cmd: SedCmd, c: Core, job: Job): (bool, Core, seq<string>)
    requires job.Valid() && StraightCmd(cmd)
    decreases CmdWeight(cmd), if cmd.CommandGroup? then |cmd.body| + 1 else 0
  {
    if cmd.CommandGroup? then
      var (d, lines) := Pass(cmd.body, 0, c, job);
      (!d.quit && !d.deleted, d, lines)
    else
      var e := Simple(cmd, c, job);
      (e.flow == Continue, e.core, LinesOf(e.line))
  }

  lemma PrintsLine(o: Out, lim: Limits, line: Option<string>)
    requires o.limit.None? && ByteLen(o.text + Unlines(LinesOf(line))) <= lim.maxOutput
    ensures Show(o, lim, line) == Out(o.text + Unlines(LinesOf(line)), None)
  {
    if line.Some? {
      assert [line.value][1..] == [];
      assert Unlines([line.value]) == line.value + "\n";
      assert o.text + (line.value + "\n") == (o.text + line.value) + "\n";
      PrefixBytes(o.text + line.value, "\n");
      PushLineFits(o, lim, line.value);
    } else {
      assert o.text + "" == o.text;
    }
  }

  lemma {:induction false} PrintsLines(o: Out, lim: Limits, lines: seq<string>)
    requires o.limit.None? && ByteLen(o.text + Unlines(lines)) <= lim.maxOutput
    ensures PushLines(o, lim, lines) == Out(o.text + Unlines(lines), None)
    decreases |lines|
  {
    hide ByteLen, PushLine;
    if lines == [] {
      assert o.text + "" == o.text;
    } else {
      Associates(o.text, lines[0] + "\n", Unlines(lines[1..]));
      Associates(o.text, lines[0], "\n");
      PrefixBytes(o.text + lines[0] + "\n", Unlines(lines[1..]));
      PrefixBytes(o.text + lines[0], "\n");
      PushLineFits(o, lim, lines[0]);
      PrintsLines(PushLine(o, lim, lines[0]), lim, lines[1..]);
    }
  }

  /** A command that lets the list go on neither quits nor deletes, and stays on its line. */
  lemma SimpleStays(cmd: SedCmd, c: Core, job: Job)
    requires job.Valid() && StraightCmd(cmd) && !cmd.CommandGroup?
    ensures var e := Simple(cmd, c, job);
            && e.core.at == c.at && e.core.cycles == c.cycles
            && (e.flow == Continue ==> e.core.quit == c.quit && e.core.deleted == c.deleted)
            && !e.flow.BranchTo?
  {
    hide SubstituteResult, Transliterated;
  }

  lemma WeightOpens(script: SedScript, ip: nat)
    requires ip < |script|
    ensures Weight(script[ip..]) == 1 + CmdWeight(script[ip].cmd) + Weight(script[ip + 1..])
  {
    assert script[ip..][0] == script[ip] && script[ip..][1..] == script[ip + 1..];
  }

  lemma NoWeight(script: SedScript)
    ensures Weight(script[|script|..]) == 0
  {
  }

  lemma {:induction false} PassRuns(script: SedScript, ip: nat, c: Core, o: Out, lim: Limits, job: Job)
    requires job.Valid() && Straight(script) && ip <= |script| && !c.quit && !c.deleted && o.limit.None?
    requires c.cycles + Weight(script[ip..]) <= lim.maxCycles
    requires ByteLen(o.text + Unlines(Pass(script, ip, c, job).1)) <= lim.maxOutput
    ensures var (d, lines) := Pass(script, ip, c, job);
            && Commands(script, ip, State(c, o), lim, job) == State(d, Out(o.text + Unlines(lines), None))
            && d.at == c.at && d.cycles <= c.cycles + Weight(script[ip..])
    decreases Weight(script), |script| - ip
  {
    hide Simple, ByteLen, Show, Unlines, Weight, PassOne, One;
    if ip == |script| {
      NothingPrinted(o);
      NoWeight(script);
    } else {
      assert StraightItem(script[ip]);
      WeightOpens(script, ip);
      var (selected, c1) := Address(script[ip].range, Tick(c), ip, job.engine);
      if selected == script[ip].negated {
        Skip(script, ip, State(c, o), lim, job);
        PassRuns(script, ip + 1, c1, o, lim, job);
      } else {
        var (goes, d, lines) := PassOne(script[ip].cmd, c1, job);
        var more := if goes then Pass(script, ip + 1, d, job).1 else [];
        UnlinesConcat(lines, more);
        Associates(o.text, Unlines(lines), Unlines(more));
        PrefixBytes(o.text + Unlines(lines), Unlines(more));
        WeightOf(script, ip);
        PassOneRuns(script[ip].cmd, c1, o, lim, job);
        Execute(script, ip, State(c, o), lim, job);
        var o1 := Out(o.text + Unlines(lines), None);
        var flow := One(script[ip].cmd, State(c1, o), lim, job).0;
        if goes {
          PassRuns(script, ip + 1, d, o1, lim, job);
        } else {
          StopsHere(script, ip, flow, State(d, o1), lim, job);
          NothingPrinted(o1);
        }
      }
    }
  }

  lemma StopsHere(script: SedScript, ip: nat, flow: Flow, s: State, lim: Limits, job: Job)
    requires job.Valid() && (flow == Break || flow == BranchEnd)
    ensures AfterCommand(script, ip, flow, s, lim, job) == s
  {
    hide Commands;
  }

  lemma {:induction false} PassOneRuns(cmd: SedCmd, c: Core, o: Out, lim: Limits, job: Job)
    requires job.Valid() && StraightCmd(cmd) && !c.quit && !c.deleted && o.limit.None?
    requires c.cycles + CmdWeight(cmd) <= lim.maxCycles
    requires ByteLen(o.text + Unlines(PassOne(cmd, c, job).2)) <= lim.maxOutput
    ensures var (goes, d, lines) := PassOne(cmd, c, job);
            var (flow, s) := One(cmd, State(c, o), lim, job);
            && s == State(d, Out(o.text + Unlines(lines), None))
            && (goes <==> flow == Continue) && (!goes ==> flow == Break || flow == BranchEnd)
            && (goes ==> !d.quit && !d.deleted) && d.at == c.at && d.cycles <= c.cycles + CmdWeight(cmd)
    decreases CmdWeight(cmd), if cmd.CommandGroup? then |cmd.body| + 1 else 0
  {
    hide Simple, ByteLen, Show, Unlines, Weight;
    if cmd.CommandGroup? {
      assert cmd.body[0..] == cmd.body;
      PassRuns(cmd.body, 0, c, o, lim, job);
    } else {
      SimpleStays(cmd, c, job);
      PrintsLine(o, lim, Simple(cmd, c, job).line);
    }
  }

  lemma NothingPrinted(o: Out)
    ensures o.text + Unlines([]) == o.text
  {
  }

  // ----- a whole run --------------------------------------------------------------------------------

  /** A cycle: the pass over the commands, the automatic print and the queued lines. */
  function CyclePass(script: SedScript, c: Core, job: Job): (Core, seq<string>)
    requires job.Valid() && Straight(script) && c.at.lineIdx < job.total
  {
    var (d, lines) := Pass(script, 0, BeginCycle(c, job), job);
    (d.(appendQueue := []), lines + (if d.deleted || job.quiet then [] else [d.pattern]) + d.appendQueue)
  }

  /** Before line `i`. */
  predicate Before(script: SedScript, c: Core, i: nat) {
    c.at.lineIdx == c.at.lineNumber == i && !c.quit && c.appendQueue == [] && c.cycles <= Weight(script) * i
  }

  function NextCore(c: Core): Core {
    c.(at := c.at.(lineIdx := c.at.lineIdx + 1))
  }

  lemma CyclePassRuns(script: SedScript, c: Core, o: Out, i: nat, lim: Limits, job: Job)
    requires job.Valid() && Straight(script) && i < job.total && Before(script, c, i) && o.limit.None?
    requires lim.maxCycles >= Weight(script) * job.total
    requires ByteLen(o.text + Unlines(CyclePass(script, c, job).1)) <= lim.maxOutput
    ensures var (e, lines) := CyclePass(script, c, job);
            && Cycle(script, State(c, o), lim, job) == State(e, Out(o.text + Unlines(lines), None))
            && e.at.lineIdx == i && e.at.lineNumber == i + 1 && e.appendQueue == []
            && e.cycles <= Weight(script) * (i + 1)
  {
    hide Pass, Commands, ByteLen, Unlines, Push, Weight;
    assert script[0..] == script;
    var b := BeginCycle(c, job);
    var (d, lines) := Pass(script, 0, b, job);
    var auto := if d.deleted || job.quiet then None else Some(d.pattern);
    EnoughCycles(Weight(script), i, job.total);
    UnlinesConcat(lines + LinesOf(auto), d.appendQueue);
    UnlinesConcat(lines, LinesOf(auto));
    Associates(o.text, Unlines(lines), Unlines(LinesOf(auto)));
    Associates(o.text, Unlines(lines + LinesOf(auto)), Unlines(d.appendQueue));
    var o1, o2 := Out(o.text + Unlines(lines), None), Out(o.text + Unlines(lines + LinesOf(auto)), None);
    PrefixBytes(o2.text, Unlines(d.appendQueue));
    PrefixBytes(o1.text, Unlines(LinesOf(auto)));
    PassRuns(script, 0, b, o, lim, job);
    PrintsLine(o1, lim, auto);
    PrintsLines(o2, lim, d.appendQueue);
  }

  lemma EnoughCycles(n: nat, i: nat, total: nat)
    requires i < total
    ensures n * i + n == n * (i + 1) <= n * total
  {
  }

  /** Line `i` prints its page, and then either the next one is due or nothing is. */
  ghost predicate TurnsPage(script: SedScript, job: Job, page: Page, ok: (Core, nat) -> bool, c: Core, i: nat)
    requires job.Valid() && Straight(script) && c.at.lineIdx < job.total && i < job.total
  {
    var (e, lines) := CyclePass(script, c, job);
    && lines == page(i + 1, job.lines[i])
    && (if e.quit then forall k :: i < k < job.total ==> page(k + 1, job.lines[k]) == []
        else ok(NextCore(e), i + 1))
  }

  ghost predicate TurnsPages(script: SedScript, job: Job, page: Page, ok: (Core, nat) -> bool)
    requires job.Valid() && Straight(script)
  {
    forall c: Core, i: nat {:trigger TurnsPage(script, job, page, ok, c, i)} ::
      i < job.total && Before(script, c, i) && ok(c, i) ==> TurnsPage(script, job, page, ok, c, i)
  }

  lemma {:induction false} PagesFrom(script: SedScript, lim: Limits, job: Job, page: Page, ok: (Core, nat) -> bool,
                                     c: Core, o: Out, i: nat)
    requires job.Valid() && Straight(script) && TurnsPages(script, job, page, ok)
    requires i <= job.total && Before(script, c, i) && ok(c, i) && o.limit.None?
    requires lim.maxCycles >= Weight(script) * job.total && ByteLen(o.text + PrintedFrom(job, page, i)) <= lim.maxOutput
    ensures Cycles(script, State(c, o), lim, job).out == Out(o.text + PrintedFrom(job, page, i), None)
    decreases job.total - i
  {
    hide CyclePass, ByteLen, Unlines, Straight, Cycle, Weight;
    if i == job.total {
      assert o.text + "" == o.text;
    } else {
      assert TurnsPage(script, job, page, ok, c, i);
      var (e, lines) := CyclePass(script, c, job);
      Associates(o.text, Unlines(lines), PrintedFrom(job, page, i + 1));
      PrefixBytes(o.text + Unlines(lines), PrintedFrom(job, page, i + 1));
      CyclePassRuns(script, c, o, i, lim, job);
      var o1 := Out(o.text + Unlines(lines), None);
      if e.quit {
        NothingFrom(job, page, i + 1);
        assert o1.text + "" == o1.text;
      } else {
        PagesFrom(script, lim, job, page, ok, NextCore(e), o1, i + 1);
      }
    }
  }

  lemma {:induction false} NothingFrom(job: Job, page: Page, i: nat)
    requires job.Valid() && i <= job.total
    requires forall k :: i <= k < job.total ==> page(k + 1, job.lines[k]) == []
    ensures PrintedFrom(job, page, i) == ""
    decreases job.total - i
  {
    if i < job.total {
      NothingFrom(job, page, i + 1);
    }
  }

  /** Within any limits that leave room the script prints exactly the pages of the lines. */
  ghost predicate Prints(script: SedScript, job: Job, page: Page)
    requires job.Valid()
  {
    forall lim: Limits :: Room(script, lim, job, Printed(job, page)) ==>
      Run(script, lim, job).out == Out(Printed(job, page), None)
  }

  /** So does a script that turns the pages, from a start that it can go on from. */
  lemma TurningPrints(script: SedScript, job: Job, page: Page, ok: (Core, nat) -> bool)
    requires job.Valid() && Straight(script) && TurnsPages(script, job, page, ok) && ok(INITIAL.core, 0)
    ensures Prints(script, job, page)
  {
    hide Cycles, ByteLen, TurnsPages, Straight;
    assert "" + Printed(job, page) == Printed(job, page);
    forall lim: Limits | Room(script, lim, job, Printed(job, page))
      ensures Run(script, lim, job).out == Out(Printed(job, page), None)
    {
      PagesFrom(script, lim, job, page, ok, INITIAL.core, INITIAL.out, 0);
    }
  }
}
