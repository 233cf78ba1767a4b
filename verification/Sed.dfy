/**
 The sed virtual machine: pattern and hold space, range latches, branches, nested groups, the
 append queue and the two guardrail limits.

 `State` and the functions over it say what one run does; `SedState` (SedMachine.dfy) is the
 machine that does it in place.
 */
module Sed {
  import opened Wrappers
  import opened Utf8Text
  import opened Numerals
  import opened TextParts

  /** A compiled regular expression, named by its pattern text. */
  type Regex = string

  /** One match of a regex in a text: what precedes it, the match, what follows it. */
  datatype Match = Match(before: string, text: string, after: string)

  /** The regex library: deterministic, otherwise unknown. */
  datatype Engine = Engine(
    isMatch: (Regex, string) -> bool,
    replaceAll: (Regex, string, string) -> string,
    replaceFirst: (Regex, string, string) -> string,
    findIter: (Regex, string) -> seq<Match>)

  datatype SedAddress =
    | LineNumber(n: nat)
    | Last
    | Pattern(re: Regex)
    | Step(first: nat, step: nat)

  datatype SedRange = Single(addr: SedAddress) | Range(start: SedAddress, end: SedAddress)

  datatype SubstituteFlags = SubstituteFlags(global: bool, show: bool, nth: Option<nat>)

  datatype AddressedCmd = AddressedCmd(range: Option<SedRange>, negated: bool, cmd: SedCmd)

  type SedScript = seq<AddressedCmd>

  datatype SedCmd =
    | Substitute(re: Regex, replacement: string, flags: SubstituteFlags)
    | Delete
    | Print
    | Quit
    | Append(text: string)
    | Insert(text: string)
    | Change(text: string)
    | Label(name: string)
    | Branch(target: Option<string>)
    | BranchIfSubstituted(target: Option<string>)
    | BranchIfNotSubstituted(target: Option<string>)
    | HoldGet
    | HoldAppend
    | PatternGet
    | PatternAppend
    | Exchange
    | PrintLineNumber
    | Next
    | NextAppend
    | Transliterate(src: seq<char>, dst: seq<char>)
    | CommandGroup(body: seq<AddressedCmd>)
    | Noop

  datatype Flow = Continue | Break | BranchTo(name: string) | BranchEnd

  datatype Limit = MaxOutputSize(max: nat, reached: nat) | MaxLoopIterations(max: nat, reached: nat)

  datatype Limits = Limits(maxCycles: nat, maxOutput: nat)

  /** What a run is given and never changes. `total` lines of `lines` are input. */
  datatype Job = Job(
    engine: Engine,
    labels: map<string, nat>,
    quiet: bool,
    lines: seq<string>,
    total: nat)
  {
    ghost predicate Valid() {
      total <= |lines|
    }
  }

  /**
   History of one fetched instruction: where it stood, on which line, and for a two-address
   instruction what its addresses said and whether the range selected it.
   */
  datatype Fetch = Fetch(
    ip: nat,
    lineNumber: nat, lineIdx: nat, lastLine: bool,
    ranged: bool, startHit: bool, endHit: bool, selected: bool)

  /** Where the machine stands in its input. `loaded` is history: the lines read so far, in order. */
  datatype Cursor = Cursor(lineIdx: nat, lineNumber: nat, lastLine: bool, loaded: seq<nat>)

  /** What has been written, and the first limit tripped. */
  datatype Out = Out(text: string, limit: Option<Limit>)

  /**
   The machine without its output. `trace` is history: the instructions fetched so far. No step
   reads a history field.
   */
  datatype Core = Core(
    pattern: string,
    hold: string,
    subOk: bool,
    quit: bool,
    deleted: bool,
    latches: map<nat, bool>,
    appendQueue: seq<string>,
    cycles: nat,
    at: Cursor,
    trace: seq<Fetch>)

  datatype State = State(core: Core, out: Out)

  const INITIAL :=
    State(Core("", "", false, false, false, map[], [], 0, Cursor(0, 0, false, []), []), Out("", None))

  // ----- output ---------------------------------------------------------------------------

  function Trip(o: Out, l: Limit): Out {
    if o.limit.None? then o.(limit := Some(l)) else o
  }

  /** `push_output`: the size is checked before the text is added. */
  function Push(o: Out, lim: Limits, text: string): Out {
    if ByteLen(o.text) > lim.maxOutput
    then Trip(o, MaxOutputSize(lim.maxOutput, ByteLen(o.text)))
    else o.(text := o.text + text)
  }

  function PushLine(o: Out, lim: Limits, text: string): Out {
    Push(Push(o, lim, text), lim, "\n")
  }

  function PushLines(o: Out, lim: Limits, texts: seq<string>): Out
    decreases |texts|
  {
    if texts == [] then o else PushLines(PushLine(o, lim, texts[0]), lim, texts[1..])
  }

  // ----- addresses ------------------------------------------------------------------------

  function AddrMatches(addr: SedAddress, s: Core, engine: Engine): bool {
    match addr
    case LineNumber(n) => s.at.lineNumber == n
    case Last => s.at.lastLine
    case Pattern(re) => engine.isMatch(re, s.pattern)
    case Step(first, step) =>
      if step == 0 then s.at.lineNumber == first
      else s.at.lineNumber >= first && (s.at.lineNumber - first) % step == 0
  }

  function Latched(latches: map<nat, bool>, ip: nat): bool {
    ip in latches && latches[ip]
  }

  /** `address_matches`: the verdict and the latches it leaves. */
  function RangeVerdict(range: Option<SedRange>, s: Core, ip: nat, engine: Engine): (bool, map<nat, bool>) {
    match range
    case None => (true, s.latches)
    case Some(Single(addr)) => (AddrMatches(addr, s, engine), s.latches)
    case Some(Range(start, end)) =>
      if Latched(s.latches, ip) then
        (true, if AddrMatches(end, s, engine) then s.latches[ip := false] else s.latches)
      else if AddrMatches(start, s, engine) then
        (true, if AddrMatches(end, s, engine) then s.latches else s.latches[ip := true])
      else
        (false, s.latches)
  }

  function Record(range: Option<SedRange>, s: Core, ip: nat, engine: Engine, selected: bool): Fetch {
    match range
    case Some(Range(start, end)) =>
      Fetch(ip, s.at.lineNumber, s.at.lineIdx, s.at.lastLine,
            true, AddrMatches(start, s, engine), AddrMatches(end, s, engine), selected)
    case _ =>
      Fetch(ip, s.at.lineNumber, s.at.lineIdx, s.at.lastLine, false, false, false, selected)
  }

  /** The instruction fetch: evaluates the address and logs the fetch. */
  function Address(range: Option<SedRange>, s: Core, ip: nat, engine: Engine): (bool, Core) {
    var (selected, latches) := RangeVerdict(range, s, ip, engine);
    (selected, s.(latches := latches, trace := s.trace + [Record(range, s, ip, engine, selected)]))
  }

  // ----- single commands ------------------------------------------------------------------

  function SubstituteResult(re: Regex, replacement: string, flags: SubstituteFlags, before: string, engine: Engine)
    : (result: (string, bool))
  {
    if flags.global then
      var text := engine.replaceAll(re, before, replacement);
      (text, text != before)
    else if flags.nth.Some? then
      var found := engine.findIter(re, before);
      var nth := flags.nth.value;
      if 1 <= nth <= |found| then
        var m := found[nth - 1];
        (m.before + engine.replaceFirst(re, m.text, replacement) + m.after, true)
      else
        (before, false)
    else
      var text := engine.replaceFirst(re, before, replacement);
      (text, text != before)
  }

  function Transliterated(text: string, src: seq<char>, dst: seq<char>): string {
    seq(|text|, i requires 0 <= i < |text| => TransliterateChar(text[i], src, dst))
  }

  /** The first position of `c` in `src` decides. */
  function TransliterateChar(c: char, src: seq<char>, dst: seq<char>): char {
    if src == [] || dst == [] then c
    else if src[0] == c then dst[0]
    else TransliterateChar(c, src[1..], dst[1..])
  }

  function BranchFlow(target: Option<string>): Flow {
    if target.Some? then BranchTo(target.value) else BranchEnd
  }

  /** Moves to the next input line, if there is one. */
  function Advance(at: Cursor, job: Job): Cursor {
    var idx := at.lineIdx + 1;
    if idx >= job.total then at.(lineIdx := idx, lineNumber := at.lineNumber + 1)
    else Cursor(idx, at.lineNumber + 1, idx + 1 >= job.total, at.loaded + [idx])
  }

  /** What a simple command does: its flow, the new core and the line it prints, if any. */
  datatype Effect = Effect(flow: Flow, core: Core, line: Option<string>)

  /** `n`: prints, then replaces the pattern space by the next line. */
  function NextLine(s: Core, job: Job): Effect
    requires job.Valid()
  {
    var at := Advance(s.at, job);
    var line := if job.quiet then None else Some(s.pattern);
    if at.lineIdx >= job.total then Effect(Break, s.(at := at, deleted := true), line)
    else Effect(Continue, s.(at := at, pattern := job.lines[at.lineIdx]), line)
  }

  /** `N`: appends the next line; at the end of input prints and ends the cycle. */
  function AppendNextLine(s: Core, job: Job): Effect
    requires job.Valid()
  {
    var at := Advance(s.at, job);
    if at.lineIdx >= job.total then
      Effect(Break, s.(at := at, deleted := true), if job.quiet then None else Some(s.pattern))
    else
      Effect(Continue, s.(at := at, pattern := s.pattern + "\n" + job.lines[at.lineIdx]), None)
  }

  /** Every command but a group. */
  function Simple(cmd: SedCmd, s: Core, job: Job): (r: Effect)
    requires job.Valid() && !cmd.CommandGroup?
    ensures r.core.cycles == s.cycles && r.core.at.lineIdx >= s.at.lineIdx
  {
    match cmd
    case Noop => Effect(Continue, s, None)
    case Label(_) => Effect(Continue, s, None)
    case Substitute(re, replacement, flags) =>
      var (text, ok) := SubstituteResult(re, replacement, flags, s.pattern, job.engine);
      Effect(Continue, s.(pattern := text, subOk := ok), if ok && flags.show then Some(text) else None)
    case Delete => Effect(Break, s.(deleted := true), None)
    case Print => Effect(Continue, s, Some(s.pattern))
    case Quit => Effect(Break, s.(quit := true), None)
    case Append(text) => Effect(Continue, s.(appendQueue := s.appendQueue + [text]), None)
    case Insert(text) => Effect(Continue, s, Some(text))
    case Change(text) => Effect(Break, s.(pattern := text, deleted := true), Some(text))
    case Branch(target) => Effect(BranchFlow(target), s, None)
    case BranchIfSubstituted(target) =>
      if s.subOk then Effect(BranchFlow(target), s.(subOk := false), None) else Effect(Continue, s, None)
    case BranchIfNotSubstituted(target) =>
      if !s.subOk then Effect(BranchFlow(target), s, None) else Effect(Continue, s.(subOk := false), None)
    case HoldGet => Effect(Continue, s.(hold := s.pattern), None)
    case HoldAppend => Effect(Continue, s.(hold := s.hold + "\n" + s.pattern), None)
    case PatternGet => Effect(Continue, s.(pattern := s.hold), None)
    case PatternAppend => Effect(Continue, s.(pattern := s.pattern + "\n" + s.hold), None)
    case Exchange => Effect(Continue, s.(pattern := s.hold, hold := s.pattern), None)
    case PrintLineNumber => Effect(Continue, s, Some(Decimal(s.at.lineNumber)))
    case Next => NextLine(s, job)
    case NextAppend => AppendNextLine(s, job)
    case Transliterate(src, dst) => Effect(Continue, s.(pattern := Transliterated(s.pattern, src, dst)), None)
  }

  function Show(o: Out, lim: Limits, line: Option<string>): Out {
    if line.None? then o else PushLine(o, lim, line.value)
  }

  // ----- the machine ----------------------------------------------------------------------

  /** Fuel left in the cycle guardrail. */
  function Fuel(s: State, lim: Limits): nat {
    if s.core.cycles <= lim.maxCycles then lim.maxCycles + 1 - s.core.cycles else 0
  }

  function Tick(s: Core): Core {
    s.(cycles := s.cycles + 1)
  }

  /** The cycle that breaks the budget: trips the limit and quits. */
  function Exhausted(s: State, lim: Limits): State {
    State(Tick(s.core).(quit := true), Trip(s.out, MaxLoopIterations(lim.maxCycles, s.core.cycles + 1)))
  }

  /** `execute_commands` from instruction `ip` on. */
  function Commands(script: SedScript, ip: nat, s: State, lim: Limits, job: Job): (r: State)
    requires job.Valid()
    ensures r.core.cycles >= s.core.cycles && r.core.at.lineIdx >= s.core.at.lineIdx
    decreases Fuel(s, lim), 0
  {
    if ip >= |script| then s
    else if s.core.cycles >= lim.maxCycles then Exhausted(s, lim)
    else if s.core.quit || s.core.deleted then State(Tick(s.core), s.out)
    else
      var (selected, core) := Address(script[ip].range, Tick(s.core), ip, job.engine);
      AfterFetch(script, ip, selected, State(core, s.out), lim, job)
  }

  /** The rest of the list once the address of instruction `ip` is decided. */
  function AfterFetch(script: SedScript, ip: nat, selected: bool, s: State, lim: Limits, job: Job): (r: State)
    requires job.Valid() && ip < |script|
    ensures r.core.cycles >= s.core.cycles && r.core.at.lineIdx >= s.core.at.lineIdx
    decreases Fuel(s, lim), 3
  {
    if selected == script[ip].negated then Commands(script, ip + 1, s, lim, job)
    else
      var (flow, s) := One(script[ip].cmd, s, lim, job);
      AfterCommand(script, ip, flow, s, lim, job)
  }

  /** Where a flow continues; an unknown label is a branch to the end. */
  function Target(flow: Flow, ip: nat, labels: map<string, nat>): Option<nat> {
    match flow
    case Continue => Some(ip + 1)
    case BranchTo(name) => if name in labels then Some(labels[name]) else None
    case _ => None
  }

  /** The rest of the list once the command at `ip` has run. */
  function AfterCommand(script: SedScript, ip: nat, flow: Flow, s: State, lim: Limits, job: Job): (r: State)
    requires job.Valid()
    ensures r.core.cycles >= s.core.cycles && r.core.at.lineIdx >= s.core.at.lineIdx
    decreases Fuel(s, lim), 1
  {
    var next := Target(flow, ip, job.labels);
    if next.Some? then Commands(script, next.value, s, lim, job) else s
  }

  /** `execute_one`. */
  function One(cmd: SedCmd, s: State, lim: Limits, job: Job): (r: (Flow, State))
    requires job.Valid()
    ensures r.1.core.cycles >= s.core.cycles && r.1.core.at.lineIdx >= s.core.at.lineIdx
    decreases Fuel(s, lim), 2
  {
    if cmd.CommandGroup? then
      var s := Commands(cmd.body, 0, s, lim, job);
      (if s.core.quit || s.core.deleted then Break else Continue, s)
    else
      var e := Simple(cmd, s.core, job);
      (e.flow, State(e.core, Show(s.out, lim, e.line)))
  }

  /** The automatic print. */
  function AutoPrint(s: State, lim: Limits, job: Job): Out {
    if s.core.deleted || job.quiet then s.out else PushLine(s.out, lim, s.core.pattern)
  }

  /** End of a cycle: automatic print, then the append queue. */
  function EndCycle(s: State, lim: Limits, job: Job): State {
    State(s.core.(appendQueue := []), PushLines(AutoPrint(s, lim, job), lim, s.core.appendQueue))
  }

  function BeginCycle(s: Core, job: Job): Core
    requires job.Valid() && s.at.lineIdx < job.total
  {
    var i := s.at.lineIdx;
    s.(at := Cursor(i, s.at.lineNumber + 1, i + 1 >= job.total, s.at.loaded + [i]),
       pattern := job.lines[i],
       deleted := false,
       subOk := false)
  }

  function NextCycle(s: State): State {
    s.(core := s.core.(at := s.core.at.(lineIdx := s.core.at.lineIdx + 1)))
  }

  /** One pass of the outer loop, before the line index advances. */
  function Cycle(script: SedScript, s: State, lim: Limits, job: Job): (r: State)
    requires job.Valid() && s.core.at.lineIdx < job.total
    ensures r.core.at.lineIdx >= s.core.at.lineIdx && r.core.cycles >= s.core.cycles
  {
    EndCycle(Commands(script, 0, State(BeginCycle(s.core, job), s.out), lim, job), lim, job)
  }

  /** Lines left to the outer loop. */
  function LinesLeft(s: State, job: Job): nat {
    if s.core.at.lineIdx <= job.total then job.total - s.core.at.lineIdx else 0
  }

  /** The outer loop of `execute_sed`. */
  function Cycles(script: SedScript, s: State, lim: Limits, job: Job): State
    requires job.Valid()
    decreases LinesLeft(s, job)
  {
    if s.core.at.lineIdx >= job.total then s
    else
      var s := Cycle(script, s, lim, job);
      if s.core.quit then s else Cycles(script, NextCycle(s), lim, job)
  }

  /** Labels of the top level; a later label of the same name wins. */
  function Labels(script: SedScript): map<string, nat> {
    if script == [] then map[]
    else
      var n := |script| - 1;
      if script[n].cmd.Label? then Labels(script[..n])[script[n].cmd.name := n] else Labels(script[..n])
  }

  function Total(lines: seq<string>): (n: nat)
    ensures n <= |lines|
  {
    if lines != [] && lines[|lines| - 1] == "" then |lines| - 1 else |lines|
  }

  function MakeJob(engine: Engine, labels: map<string, nat>, quiet: bool, input: string): (job: Job)
    ensures job.Valid()
  {
    var lines := Divided(input, '\n');
    Job(engine, labels, quiet, lines, Total(lines))
  }

  /** `execute_sed`. */
  function Run(script: SedScript, lim: Limits, job: Job): State
    requires job.Valid()
  {
    Cycles(script, INITIAL, lim, job)
  }
}
