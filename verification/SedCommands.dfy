/** Command by command: what one-line scripts print for every input, by the line. */
module SedCommands {
  import opened Wrappers
  import opened Numerals
  import opened Arithmetic
  import opened Sed
  import opened SedIdioms
  import opened SedPasses

  function Always(cmd: SedCmd): AddressedCmd {
    AddressedCmd(None, false, cmd)
  }

  function On(addr: SedAddress, cmd: SedCmd): AddressedCmd {
    AddressedCmd(Some(Single(addr)), false, cmd)
  }

  function NotOn(addr: SedAddress, cmd: SedCmd): AddressedCmd {
    AddressedCmd(Some(Single(addr)), true, cmd)
  }

  /** Nothing is asked of the machine between lines. */
  function Anything(): (Core, nat) -> bool {
    (c: Core, i: nat) => true
  }

  /** A pass of a single command. */
  lemma PassOfOne(ac: AddressedCmd, c: Core, job: Job)
    requires job.Valid() && StraightCmd(ac.cmd) && !ac.cmd.CommandGroup?
    ensures Straight([ac])
    ensures var (selected, d) := Address(ac.range, Tick(c), 0, job.engine);
            Pass([ac], 0, c, job) ==
            if selected == ac.negated then (d, [])
            else var e := Simple(ac.cmd, d, job); (e.core, LinesOf(e.line))
  {
    hide Simple, Address;
    assert [ac][0] == ac;
    var (selected, d) := Address(ac.range, Tick(c), 0, job.engine);
    assert forall s: Core :: Pass([ac], 1, s, job) == (s, []);
    SimpleStays(ac.cmd, d, job);
    if selected != ac.negated {
      var e := Simple(ac.cmd, d, job);
      assert LinesOf(e.line) + [] == LinesOf(e.line);
    }
  }

  // ----- s ----------------------------------------------------------------------------------------------

  function Substituting(re: Regex, repl: string, global: bool, show: bool, nth: Option<nat>): AddressedCmd {
    Always(Substitute(re, repl, SubstituteFlags(global, show, nth)))
  }

  function FirstReplaced(engine: Engine, re: Regex, repl: string): Page {
    (n: nat, line: string) => [engine.replaceFirst(re, line, repl)]
  }

  /** `s/re/repl/` replaces the first match in every line. */
  lemma SubstituteReplacesFirst(re: Regex, repl: string, job: Job)
    requires job.Valid() && !job.quiet
    ensures Prints([Substituting(re, repl, false, false, None)], job, FirstReplaced(job.engine, re, repl))
  {
    var ac, page, ok := Substituting(re, repl, false, false, None), FirstReplaced(job.engine, re, repl), Anything();
    PassOfOne(ac, INITIAL.core, job);
    hide Pass, NextLine, AppendNextLine, BranchFlow, Record;
    forall c: Core, i: nat | i < job.total && Before([ac], c, i)
      ensures TurnsPage([ac], job, page, ok, c, i)
    {
      PassOfOne(ac, BeginCycle(c, job), job);
    }
    TurningPrints([ac], job, page, ok);
  }

  function AllReplaced(engine: Engine, re: Regex, repl: string): Page {
    (n: nat, line: string) => [engine.replaceAll(re, line, repl)]
  }

  /** `s/re/repl/g` replaces all of them, and a number changes nothing in that. */
  lemma SubstituteReplacesAll(re: Regex, repl: string, nth: Option<nat>, job: Job)
    requires job.Valid() && !job.quiet
    ensures Prints([Substituting(re, repl, true, false, nth)], job, AllReplaced(job.engine, re, repl))
  {
    var ac, page, ok := Substituting(re, repl, true, false, nth), AllReplaced(job.engine, re, repl), Anything();
    PassOfOne(ac, INITIAL.core, job);
    hide Pass, NextLine, AppendNextLine, BranchFlow, Record;
    forall c: Core, i: nat | i < job.total && Before([ac], c, i)
      ensures TurnsPage([ac], job, page, ok, c, i)
    {
      PassOfOne(ac, BeginCycle(c, job), job);
    }
    TurningPrints([ac], job, page, ok);
  }

  /** Match `k` alone, counted from 1, is replaced; a line with fewer matches stays as it is. */
  function NthReplaced(engine: Engine, re: Regex, repl: string, k: nat): Page {
    (n: nat, line: string) => [NthText(engine, re, repl, k, line)]
  }

  function NthText(engine: Engine, re: Regex, repl: string, k: nat, line: string): string {
    var found := engine.findIter(re, line);
    if k == 0 || k > |found| then line
    else found[k - 1].before + engine.replaceFirst(re, found[k - 1].text, repl) + found[k - 1].after
  }

  /** `s/re/repl/k` */
  lemma SubstituteReplacesNth(re: Regex, repl: string, k: nat, job: Job)
    requires job.Valid() && !job.quiet
    ensures Prints([Substituting(re, repl, false, false, Some(k))], job, NthReplaced(job.engine, re, repl, k))
  {
    var ac, page, ok := Substituting(re, repl, false, false, Some(k)), NthReplaced(job.engine, re, repl, k), Anything();
    PassOfOne(ac, INITIAL.core, job);
    hide Pass, NextLine, AppendNextLine, BranchFlow, Record;
    forall c: Core, i: nat | i < job.total && Before([ac], c, i)
      ensures TurnsPage([ac], job, page, ok, c, i)
    {
      PassOfOne(ac, BeginCycle(c, job), job);
    }
    TurningPrints([ac], job, page, ok);
  }

  /** Only lines that the substitution changes. */
  function FirstChanged(engine: Engine, re: Regex, repl: string): Page {
    (n: nat, line: string) =>
      if engine.replaceFirst(re, line, repl) != line then [engine.replaceFirst(re, line, repl)] else []
  }

  /** `s/re/repl/p` with `-n` prints exactly the changed lines. */
  lemma SubstitutePrintsChanged(re: Regex, repl: string, job: Job)
    requires job.Valid() && job.quiet
    ensures Prints([Substituting(re, repl, false, true, None)], job, FirstChanged(job.engine, re, repl))
  {
    var ac, page, ok := Substituting(re, repl, false, true, None), FirstChanged(job.engine, re, repl), Anything();
    PassOfOne(ac, INITIAL.core, job);
    hide Pass, NextLine, AppendNextLine, BranchFlow, Record;
    forall c: Core, i: nat | i < job.total && Before([ac], c, i)
      ensures TurnsPage([ac], job, page, ok, c, i)
    {
      PassOfOne(ac, BeginCycle(c, job), job);
    }
    TurningPrints([ac], job, page, ok);
  }

  function AllChanged(engine: Engine, re: Regex, repl: string): Page {
    (n: nat, line: string) =>
      if engine.replaceAll(re, line, repl) != line then [engine.replaceAll(re, line, repl)] else []
  }

  /** `s/re/repl/gp` with `-n` */
  lemma SubstituteAllPrintsChanged(re: Regex, repl: string, nth: Option<nat>, job: Job)
    requires job.Valid() && job.quiet
    ensures Prints([Substituting(re, repl, true, true, nth)], job, AllChanged(job.engine, re, repl))
  {
    var ac, page, ok := Substituting(re, repl, true, true, nth), AllChanged(job.engine, re, repl), Anything();
    PassOfOne(ac, INITIAL.core, job);
    hide Pass, NextLine, AppendNextLine, BranchFlow, Record;
    forall c: Core, i: nat | i < job.total && Before([ac], c, i)
      ensures TurnsPage([ac], job, page, ok, c, i)
    {
      PassOfOne(ac, BeginCycle(c, job), job);
    }
    TurningPrints([ac], job, page, ok);
  }

  function NthChanged(engine: Engine, re: Regex, repl: string, k: nat): Page {
    (n: nat, line: string) =>
      if 1 <= k <= |engine.findIter(re, line)| then [NthText(engine, re, repl, k, line)] else []
  }

  /** `s/re/repl/kp` with `-n` prints the lines that have a match `k`. */
  lemma SubstituteNthPrintsFound(re: Regex, repl: string, k: nat, job: Job)
    requires job.Valid() && job.quiet
    ensures Prints([Substituting(re, repl, false, true, Some(k))], job, NthChanged(job.engine, re, repl, k))
  {
    var ac, page, ok := Substituting(re, repl, false, true, Some(k)), NthChanged(job.engine, re, repl, k), Anything();
    PassOfOne(ac, INITIAL.core, job);
    hide Pass, NextLine, AppendNextLine, BranchFlow, Record;
    forall c: Core, i: nat | i < job.total && Before([ac], c, i)
      ensures TurnsPage([ac], job, page, ok, c, i)
    {
      PassOfOne(ac, BeginCycle(c, job), job);
    }
    TurningPrints([ac], job, page, ok);
  }

  // ----- addresses --------------------------------------------------------------------------------------

  function Matching(engine: Engine, re: Regex): Page {
    (n: nat, line: string) => if engine.isMatch(re, line) then [line] else []
  }

  /** `/re/p` with `-n` */
  lemma PatternSelects(re: Regex, job: Job)
    requires job.Valid() && job.quiet
    ensures Prints([On(Pattern(re), Print)], job, Matching(job.engine, re))
  {
    var ac, page, ok := On(Pattern(re), Print), Matching(job.engine, re), Anything();
    PassOfOne(ac, INITIAL.core, job);
    hide Pass, NextLine, AppendNextLine, BranchFlow, Record;
    forall c: Core, i: nat | i < job.total && Before([ac], c, i)
      ensures TurnsPage([ac], job, page, ok, c, i)
    {
      PassOfOne(ac, BeginCycle(c, job), job);
    }
    TurningPrints([ac], job, page, ok);
  }

  /** `/re/!d` */
  lemma PatternKeeps(re: Regex, job: Job)
    requires job.Valid() && !job.quiet
    ensures Prints([NotOn(Pattern(re), Delete)], job, Matching(job.engine, re))
  {
    var ac, page, ok := NotOn(Pattern(re), Delete), Matching(job.engine, re), Anything();
    PassOfOne(ac, INITIAL.core, job);
    hide Pass, NextLine, AppendNextLine, BranchFlow, Record;
    forall c: Core, i: nat | i < job.total && Before([ac], c, i)
      ensures TurnsPage([ac], job, page, ok, c, i)
    {
      PassOfOne(ac, BeginCycle(c, job), job);
    }
    TurningPrints([ac], job, page, ok);
  }

  function NotMatching(engine: Engine, re: Regex): Page {
    (n: nat, line: string) => if engine.isMatch(re, line) then [] else [line]
  }

  /** `/re/d` */
  lemma PatternDeletes(re: Regex, job: Job)
    requires job.Valid() && !job.quiet
    ensures Prints([On(Pattern(re), Delete)], job, NotMatching(job.engine, re))
  {
    var ac, page, ok := On(Pattern(re), Delete), NotMatching(job.engine, re), Anything();
    PassOfOne(ac, INITIAL.core, job);
    hide Pass, NextLine, AppendNextLine, BranchFlow, Record;
    forall c: Core, i: nat | i < job.total && Before([ac], c, i)
      ensures TurnsPage([ac], job, page, ok, c, i)
    {
      PassOfOne(ac, BeginCycle(c, job), job);
    }
    TurningPrints([ac], job, page, ok);
  }

  function LineOnly(k: nat): Page {
    (n: nat, line: string) => if n == k then [line] else []
  }

  /** `kp` with `-n` */
  lemma NumberSelects(k: nat, job: Job)
    requires job.Valid() && job.quiet
    ensures Prints([On(LineNumber(k), Print)], job, LineOnly(k))
  {
    var ac, page, ok := On(LineNumber(k), Print), LineOnly(k), Anything();
    PassOfOne(ac, INITIAL.core, job);
    hide Pass, NextLine, AppendNextLine, BranchFlow, Record;
    forall c: Core, i: nat | i < job.total && Before([ac], c, i)
      ensures TurnsPage([ac], job, page, ok, c, i)
    {
      PassOfOne(ac, BeginCycle(c, job), job);
    }
    TurningPrints([ac], job, page, ok);
  }

  /** `$p` with `-n` */
  lemma LastSelects(job: Job)
    requires job.Valid() && job.quiet
    ensures Prints([On(Last, Print)], job, LineOnly(job.total))
  {
    var ac, page, ok := On(Last, Print), LineOnly(job.total), Anything();
    PassOfOne(ac, INITIAL.core, job);
    hide Pass, NextLine, AppendNextLine, BranchFlow, Record;
    forall c: Core, i: nat | i < job.total && Before([ac], c, i)
      ensures TurnsPage([ac], job, page, ok, c, i)
    {
      PassOfOne(ac, BeginCycle(c, job), job);
    }
    TurningPrints([ac], job, page, ok);
  }

  /** The line is `k` steps after the first. */
  predicate StepsTo(first: nat, step: nat, k: nat, n: nat) {
    n == first + k * step
  }

  /** Line `first` and every `step` lines after it. */
  ghost function Stepped(first: nat, step: nat): Page {
    (n: nat, line: string) => if exists k: nat :: StepsTo(first, step, k, n) then [line] else []
  }

  /** `first~step p` with `-n` */
  lemma StepSelects(first: nat, step: nat, job: Job)
    requires job.Valid() && job.quiet
    ensures Prints([On(Step(first, step), Print)], job, Stepped(first, step))
  {
    var ac, page, ok := On(Step(first, step), Print), Stepped(first, step), Anything();
    PassOfOne(ac, INITIAL.core, job);
    hide Pass, NextLine, AppendNextLine, BranchFlow, Address, StepsTo, Weight;
    forall c: Core, i: nat | i < job.total && Before([ac], c, i)
      ensures TurnsPage([ac], job, page, ok, c, i)
    {
      PassOfOne(ac, BeginCycle(c, job), job);
      AddressOfStep(first, step, BeginCycle(c, job), 0, job);
    }
    TurningPrints([ac], job, page, ok);
  }

  lemma AddressOfStep(first: nat, step: nat, c: Core, ip: nat, job: Job)
    ensures var (selected, d) := Address(Some(Single(Step(first, step))), Tick(c), ip, job.engine);
            && selected == (exists k: nat :: StepsTo(first, step, k, c.at.lineNumber))
            && d == c.(cycles := c.cycles + 1, trace := d.trace)
  {
    hide Record;
    StepIsModulo(first, step, c.at.lineNumber);
  }

  lemma StepIsModulo(first: nat, step: nat, n: nat)
    ensures (exists k: nat :: StepsTo(first, step, k, n)) <==>
            if step == 0 then n == first else n >= first && (n - first) % step == 0
  {
    if step == 0 {
      if n == first {
        assert StepsTo(first, step, 0, n);
      }
    } else {
      if n >= first && (n - first) % step == 0 {
        assert n - first == (n - first) / step * step;
        assert StepsTo(first, step, (n - first) / step, n);
      }
      if k: nat :| StepsTo(first, step, k, n) {
        MultipleHasNoRest(k, step);
      }
    }
  }

  // ----- print, delete, insert --------------------------------------------------------------------------

  function Nothing(): Page {
    (n: nat, line: string) => []
  }

  /** `d` */
  lemma DeletePrintsNothing(job: Job)
    requires job.Valid()
    ensures Prints([Always(Delete)], job, Nothing())
  {
    var ac, page, ok := Always(Delete), Nothing(), Anything();
    PassOfOne(ac, INITIAL.core, job);
    hide Pass, NextLine, AppendNextLine, BranchFlow, Record;
    forall c: Core, i: nat | i < job.total && Before([ac], c, i)
      ensures TurnsPage([ac], job, page, ok, c, i)
    {
      PassOfOne(ac, BeginCycle(c, job), job);
    }
    TurningPrints([ac], job, page, ok);
  }

  function Twice(): Page {
    (n: nat, line: string) => [line, line]
  }

  /** `p` */
  lemma PrintDoubles(job: Job)
    requires job.Valid() && !job.quiet
    ensures Prints([Always(Print)], job, Twice())
  {
    var ac, page, ok := Always(Print), Twice(), Anything();
    PassOfOne(ac, INITIAL.core, job);
    hide Pass, NextLine, AppendNextLine, BranchFlow, Record;
    forall c: Core, i: nat | i < job.total && Before([ac], c, i)
      ensures TurnsPage([ac], job, page, ok, c, i)
    {
      PassOfOne(ac, BeginCycle(c, job), job);
    }
    TurningPrints([ac], job, page, ok);
  }

  function Headed(text: string): Page {
    (n: nat, line: string) => [text, line]
  }

  /** `i` */
  lemma InsertPrecedes(text: string, job: Job)
    requires job.Valid() && !job.quiet
    ensures Prints([Always(Insert(text))], job, Headed(text))
  {
    var ac, page, ok := Always(Insert(text)), Headed(text), Anything();
    PassOfOne(ac, INITIAL.core, job);
    hide Pass, NextLine, AppendNextLine, BranchFlow, Record;
    forall c: Core, i: nat | i < job.total && Before([ac], c, i)
      ensures TurnsPage([ac], job, page, ok, c, i)
    {
      PassOfOne(ac, BeginCycle(c, job), job);
    }
    TurningPrints([ac], job, page, ok);
  }

  function Followed(text: string): Page {
    (n: nat, line: string) => [line, text]
  }

  /** `a` */
  lemma AppendFollows(text: string, job: Job)
    requires job.Valid() && !job.quiet
    ensures Prints([Always(Append(text))], job, Followed(text))
  {
    var ac, page, ok := Always(Append(text)), Followed(text), Anything();
    PassOfOne(ac, INITIAL.core, job);
    hide Pass, NextLine, AppendNextLine, BranchFlow, Record;
    forall c: Core, i: nat | i < job.total && Before([ac], c, i)
      ensures TurnsPage([ac], job, page, ok, c, i)
    {
      PassOfOne(ac, BeginCycle(c, job), job);
    }
    TurningPrints([ac], job, page, ok);
  }

  function Instead(text: string): Page {
    (n: nat, line: string) => [text]
  }

  /** `c` */
  lemma ChangeReplaces(text: string, job: Job)
    requires job.Valid()
    ensures Prints([Always(Change(text))], job, Instead(text))
  {
    var ac, page, ok := Always(Change(text)), Instead(text), Anything();
    PassOfOne(ac, INITIAL.core, job);
    hide Pass, NextLine, AppendNextLine, BranchFlow, Record;
    forall c: Core, i: nat | i < job.total && Before([ac], c, i)
      ensures TurnsPage([ac], job, page, ok, c, i)
    {
      PassOfOne(ac, BeginCycle(c, job), job);
    }
    TurningPrints([ac], job, page, ok);
  }

  function Numbered(): Page {
    (n: nat, line: string) => [Decimal(n), line]
  }

  /** `=` */
  lemma NumberPrecedes(job: Job)
    requires job.Valid() && !job.quiet
    ensures Prints([Always(PrintLineNumber)], job, Numbered())
  {
    var ac, page, ok := Always(PrintLineNumber), Numbered(), Anything();
    PassOfOne(ac, INITIAL.core, job);
    hide Pass, NextLine, AppendNextLine, BranchFlow, Record;
    forall c: Core, i: nat | i < job.total && Before([ac], c, i)
      ensures TurnsPage([ac], job, page, ok, c, i)
    {
      PassOfOne(ac, BeginCycle(c, job), job);
    }
    TurningPrints([ac], job, page, ok);
  }

  function UpTo(k: nat): Page {
    (n: nat, line: string) => if n <= k then [line] else []
  }

  /** `kq` prints the first lines and reads no more. */
  lemma QuitStops(k: nat, job: Job)
    requires job.Valid() && !job.quiet && k >= 1
    ensures Prints([On(LineNumber(k), Quit)], job, UpTo(k))
  {
    var ac, page, ok := On(LineNumber(k), Quit), UpTo(k), NotPast(k);
    PassOfOne(ac, INITIAL.core, job);
    hide Pass, NextLine, AppendNextLine, BranchFlow, Record;
    forall c: Core, i: nat | i < job.total && Before([ac], c, i) && ok(c, i)
      ensures TurnsPage([ac], job, page, ok, c, i)
    {
      PassOfOne(ac, BeginCycle(c, job), job);
    }
    TurningPrints([ac], job, page, ok);
  }

  function NotPast(k: nat): (Core, nat) -> bool {
    (c: Core, i: nat) => i < k
  }

  // ----- y --------------------------------------------------------------------------------------------

  /** The first place of the character. */
  function FirstAt(chars: seq<char>, c: char): (k: nat)
    requires c in chars
    ensures k < |chars| && chars[k] == c && c !in chars[..k]
  {
    if chars[0] == c then 0 else 1 + FirstAt(chars[1..], c)
  }

  function Mapped(line: string, src: seq<char>, dst: seq<char>): (t: string)
    requires |src| == |dst|
    ensures |t| == |line|
  {
    seq(|line|, i requires 0 <= i < |line| => if line[i] in src then dst[FirstAt(src, line[i])] else line[i])
  }

  function Translated(src: seq<char>, dst: seq<char>): Page
    requires |src| == |dst|
  {
    (n: nat, line: string) => [Mapped(line, src, dst)]
  }

  lemma {:induction false} FirstPlaceDecides(c: char, src: seq<char>, dst: seq<char>)
    requires |src| == |dst|
    ensures TransliterateChar(c, src, dst) == if c in src then dst[FirstAt(src, c)] else c
  {
    if src != [] && src[0] != c {
      FirstPlaceDecides(c, src[1..], dst[1..]);
    }
  }

  lemma TransliteratedIsMapped(line: string, src: seq<char>, dst: seq<char>)
    requires |src| == |dst|
    ensures Transliterated(line, src, dst) == Mapped(line, src, dst)
  {
    forall i | 0 <= i < |line|
      ensures Transliterated(line, src, dst)[i] == Mapped(line, src, dst)[i]
    {
      FirstPlaceDecides(line[i], src, dst);
    }
  }

  /** `y/src/dst/` */
  lemma TransliterateMaps(src: seq<char>, dst: seq<char>, job: Job)
    requires job.Valid() && !job.quiet && |src| == |dst|
    ensures Prints([Always(Transliterate(src, dst))], job, Translated(src, dst))
  {
    hide Mapped, Transliterated;
    var ac, page, ok := Always(Transliterate(src, dst)), Translated(src, dst), Anything();
    PassOfOne(ac, INITIAL.core, job);
    hide Pass, NextLine, AppendNextLine, BranchFlow, Record;
    forall c: Core, i: nat | i < job.total && Before([ac], c, i)
      ensures TurnsPage([ac], job, page, ok, c, i)
    {
      PassOfOne(ac, BeginCycle(c, job), job);
      TransliteratedIsMapped(job.lines[i], src, dst);
    }
    TurningPrints([ac], job, page, ok);
  }

  // ----- the hold space -----------------------------------------------------------------------------

  function Previous(lines: seq<string>, i: nat): string
    requires i <= |lines|
  {
    if i == 0 then "" else lines[i - 1]
  }

  function HoldsPrevious(lines: seq<string>): (Core, nat) -> bool {
    (c: Core, i: nat) => i <= |lines| && c.hold == Previous(lines, i)
  }

  /** Each line gives way to the one before. */
  function Shifted(lines: seq<string>): Page {
    (n: nat, line: string) => if 1 <= n <= |lines| then [Previous(lines, n - 1)] else []
  }

  /** A pass that leaves the cycle as it is, but for the two spaces. */
  ghost predicate OnlyMoves(script: SedScript, c: Core, job: Job, pattern: string, hold: string)
    requires job.Valid() && Straight(script)
  {
    var (d, lines) := Pass(script, 0, c, job);
    && lines == [] && d.pattern == pattern && d.hold == hold
    && d.deleted == c.deleted && d.quit == c.quit && d.appendQueue == c.appendQueue && d.at == c.at
  }

  lemma ExchangePass(c: Core, job: Job)
    requires job.Valid()
    ensures Straight([Always(Exchange)]) && OnlyMoves([Always(Exchange)], c, job, c.hold, c.pattern)
  {
    hide SubstituteResult, Transliterated, NextLine, AppendNextLine, BranchFlow, Record;
    PassOfOne(Always(Exchange), c, job);
  }

  /** `x` */
  lemma ExchangeShifts(job: Job)
    requires job.Valid() && !job.quiet
    ensures Prints([Always(Exchange)], job, Shifted(job.lines))
  {
    hide Pass;
    var script, page, ok := [Always(Exchange)], Shifted(job.lines), HoldsPrevious(job.lines);
    ExchangePass(INITIAL.core, job);
    forall c: Core, i: nat | i < job.total && Before(script, c, i) && ok(c, i)
      ensures TurnsPage(script, job, page, ok, c, i)
    {
      ExchangePass(BeginCycle(c, job), job);
    }
    TurningPrints(script, job, page, ok);
  }

  function HoldsNothing(): (Core, nat) -> bool {
    (c: Core, i: nat) => c.hold == ""
  }

  /** A line and an empty one. */
  function Spaced(): Page {
    (n: nat, line: string) => [line, ""]
  }

  function Emptied(): Page {
    (n: nat, line: string) => [""]
  }

  /** `g` */
  lemma GetEmpties(job: Job)
    requires job.Valid() && !job.quiet
    ensures Prints([Always(PatternGet)], job, Emptied())
  {
    var ac, page, ok := Always(PatternGet), Emptied(), HoldsNothing();
    PassOfOne(ac, INITIAL.core, job);
    hide Pass, NextLine, AppendNextLine, BranchFlow, Record;
    forall c: Core, i: nat | i < job.total && Before([ac], c, i) && ok(c, i)
      ensures TurnsPage([ac], job, page, ok, c, i)
    {
      PassOfOne(ac, BeginCycle(c, job), job);
    }
    TurningPrints([ac], job, page, ok);
  }

  lemma StraightOf(script: SedScript)
    requires forall i :: 0 <= i < |script| ==> StraightCmd(script[i].cmd)
    ensures Straight(script)
  {
  }

  // ----- several commands ---------------------------------------------------------------------------

  lemma PassOpens(script: SedScript, ip: nat, c: Core, job: Job)
    requires job.Valid() && Straight(script) && ip < |script| && !script[ip].cmd.CommandGroup?
    ensures StraightCmd(script[ip].cmd)
    ensures var (selected, d) := Address(script[ip].range, Tick(c), ip, job.engine);
            Pass(script, ip, c, job) ==
            if selected == script[ip].negated then Pass(script, ip + 1, d, job)
            else
              var e := Simple(script[ip].cmd, d, job);
              if e.flow == Continue then
                (Pass(script, ip + 1, e.core, job).0, LinesOf(e.line) + Pass(script, ip + 1, e.core, job).1)
              else (e.core, LinesOf(e.line))
  {
    hide Simple, Address;
    assert StraightItem(script[ip]);
    var (selected, d) := Address(script[ip].range, Tick(c), ip, job.engine);
    assert LinesOf(Simple(script[ip].cmd, d, job).line) + [] == LinesOf(Simple(script[ip].cmd, d, job).line);
  }

  lemma PassEnds(script: SedScript, c: Core, job: Job)
    requires job.Valid() && Straight(script)
    ensures Pass(script, |script|, c, job) == (c, [])
  {
  }

  /** The line, and the line again. */
  function Doubled(): Page {
    (n: nat, line: string) => [line + "\n" + line]
  }

  /** `h;G` */
  lemma HoldThenAppendDoubles(job: Job)
    requires job.Valid() && !job.quiet
    ensures Prints([Always(HoldGet), Always(PatternAppend)], job, Doubled())
  {
    hide Pass;
    var script, page, ok := [Always(HoldGet), Always(PatternAppend)], Doubled(), Anything();
    HoldThenAppendPass(INITIAL.core, job);
    forall c: Core, i: nat | i < job.total && Before(script, c, i)
      ensures TurnsPage(script, job, page, ok, c, i)
    {
      HoldThenAppendPass(BeginCycle(c, job), job);
    }
    TurningPrints(script, job, page, ok);
  }

  lemma HoldThenAppendPass(c: Core, job: Job)
    requires job.Valid()
    ensures Straight([Always(HoldGet), Always(PatternAppend)])
    ensures OnlyMoves([Always(HoldGet), Always(PatternAppend)], c, job, c.pattern + "\n" + c.pattern, c.pattern)
  {
    hide SubstituteResult, Transliterated, NextLine, AppendNextLine, BranchFlow, Record;
    TwoPass([Always(HoldGet), Always(PatternAppend)], c, job);
  }

  /** A pass of two commands without addresses, the first of which goes on. */
  lemma TwoPass(script: SedScript, c: Core, job: Job)
    requires job.Valid() && Straight(script) && |script| == 2
    requires script[0] == Always(script[0].cmd) && script[1] == Always(script[1].cmd)
    requires !script[0].cmd.CommandGroup? && !script[1].cmd.CommandGroup?
    ensures StraightCmd(script[0].cmd) && StraightCmd(script[1].cmd)
    ensures var d := Address(None, Tick(c), 0, job.engine).1;
            var e := Simple(script[0].cmd, d, job);
            var d2 := Address(None, Tick(e.core), 1, job.engine).1;
            var e2 := Simple(script[1].cmd, d2, job);
            Pass(script, 0, c, job) ==
            if e.flow == Continue then (e2.core, LinesOf(e.line) + LinesOf(e2.line)) else (e.core, LinesOf(e.line))
  {
    PassOpens(script, 0, c, job);
    hide Simple;
    var d := Address(None, Tick(c), 0, job.engine).1;
    var e := Simple(script[0].cmd, d, job);
    PassOpens(script, 1, e.core, job);
    var e2 := Simple(script[1].cmd, Address(None, Tick(e.core), 1, job.engine).1, job);
    PassEnds(script, e2.core, job);
    assert LinesOf(e2.line) + [] == LinesOf(e2.line);
  }

  /** `G` alone: the hold space is empty. */
  function Ended(): Page {
    (n: nat, line: string) => [line + "\n"]
  }

  lemma AppendHoldSpaces(job: Job)
    requires job.Valid() && !job.quiet
    ensures Prints([Always(PatternAppend)], job, Ended())
  {
    var ac, page, ok := Always(PatternAppend), Ended(), HoldsNothing();
    PassOfOne(ac, INITIAL.core, job);
    hide Pass, NextLine, AppendNextLine, BranchFlow, Record;
    forall c: Core, i: nat | i < job.total && Before([ac], c, i) && ok(c, i)
      ensures TurnsPage([ac], job, page, ok, c, i)
    {
      PassOfOne(ac, BeginCycle(c, job), job);
      assert job.lines[i] + "\n" + "" == job.lines[i] + "\n";
    }
    TurningPrints([ac], job, page, ok);
  }

  function FollowedByBoth(first: string, second: string): Page {
    (n: nat, line: string) => [line, first, second]
  }

  /** `a first` and `a second`: queued texts come out in order. */
  lemma AppendsKeepOrder(first: string, second: string, job: Job)
    requires job.Valid() && !job.quiet
    ensures Prints([Always(Append(first)), Always(Append(second))], job, FollowedByBoth(first, second))
  {
    var script, page, ok := [Always(Append(first)), Always(Append(second))], FollowedByBoth(first, second), Anything();
    StraightOf(script);
    forall c: Core, i: nat | i < job.total && Before(script, c, i)
      ensures TurnsPage(script, job, page, ok, c, i)
    {
      TwoPass(script, BeginCycle(c, job), job);
    }
    TurningPrints(script, job, page, ok);
  }

  /** `/re/b` and `d`: a branch without a label goes to the end. */
  lemma BranchSkipsTheRest(re: Regex, job: Job)
    requires job.Valid() && !job.quiet
    ensures Prints([On(Pattern(re), Branch(None)), Always(Delete)], job, Matching(job.engine, re))
  {
    var script, page, ok := [On(Pattern(re), Branch(None)), Always(Delete)], Matching(job.engine, re), Anything();
    StraightOf(script);
    forall c: Core, i: nat | i < job.total && Before(script, c, i)
      ensures TurnsPage(script, job, page, ok, c, i)
    {
      var b := BeginCycle(c, job);
      PassOpens(script, 0, b, job);
      var (selected, d) := Address(script[0].range, Tick(b), 0, job.engine);
      if !selected {
        PassOpens(script, 1, d, job);
      }
    }
    TurningPrints(script, job, page, ok);
  }

  /** The second substitution only where the first changed nothing. */
  function Otherwise(engine: Engine, re: Regex, repl: string, re2: Regex, repl2: string): Page {
    (n: nat, line: string) =>
      var first := engine.replaceFirst(re, line, repl);
      if first != line then [first] else [engine.replaceFirst(re2, line, repl2)]
  }

  /** The second substitution only where the first changed something. */
  function Besides(engine: Engine, re: Regex, repl: string, re2: Regex, repl2: string): Page {
    (n: nat, line: string) =>
      var first := engine.replaceFirst(re, line, repl);
      if first == line then [line] else [engine.replaceFirst(re2, first, repl2)]
  }

  function Trying(re: Regex, repl: string, test: SedCmd, re2: Regex, repl2: string): SedScript {
    [Substituting(re, repl, false, false, None), Always(test), Substituting(re2, repl2, false, false, None)]
  }

  /** The pass of such a script, up to the test and beyond. */
  lemma TryingPass(re: Regex, repl: string, test: SedCmd, re2: Regex, repl2: string, c: Core, job: Job)
    requires job.Valid() && (test == BranchIfSubstituted(None) || test == BranchIfNotSubstituted(None))
    ensures Straight(Trying(re, repl, test, re2, repl2))
    ensures var (d, lines) := Pass(Trying(re, repl, test, re2, repl2), 0, c, job);
            var first := job.engine.replaceFirst(re, c.pattern, repl);
            && lines == [] && d.deleted == c.deleted && d.quit == c.quit && d.appendQueue == c.appendQueue
            && d.at == c.at
            && d.pattern == (if (first != c.pattern) == test.BranchIfSubstituted? then first
                             else job.engine.replaceFirst(re2, first, repl2))
  {
    hide Transliterated, NextLine, AppendNextLine, Record;
    var script := Trying(re, repl, test, re2, repl2);
    StraightOf(script);
    PassOpens(script, 0, c, job);
    var e := Simple(script[0].cmd, Address(None, Tick(c), 0, job.engine).1, job);
    PassOpens(script, 1, e.core, job);
    var e2 := Simple(test, Address(None, Tick(e.core), 1, job.engine).1, job);
    if e2.flow == Continue {
      PassOpens(script, 2, e2.core, job);
      PassEnds(script, Simple(script[2].cmd, Address(None, Tick(e2.core), 2, job.engine).1, job).core, job);
    }
  }

  /** `s/re/repl/;t;s/re2/repl2/` */
  lemma TestBranchesIfChanged(re: Regex, repl: string, re2: Regex, repl2: string, job: Job)
    requires job.Valid() && !job.quiet
    ensures Prints(Trying(re, repl, BranchIfSubstituted(None), re2, repl2), job,
                   Otherwise(job.engine, re, repl, re2, repl2))
  {
    var script := Trying(re, repl, BranchIfSubstituted(None), re2, repl2);
    var page, ok := Otherwise(job.engine, re, repl, re2, repl2), Anything();
    hide Pass;
    TryingPass(re, repl, BranchIfSubstituted(None), re2, repl2, INITIAL.core, job);
    forall c: Core, i: nat | i < job.total && Before(script, c, i)
      ensures TurnsPage(script, job, page, ok, c, i)
    {
      TryingPass(re, repl, BranchIfSubstituted(None), re2, repl2, BeginCycle(c, job), job);
    }
    TurningPrints(script, job, page, ok);
  }

  /** `s/re/repl/;T;s/re2/repl2/` */
  lemma TestBranchesIfUnchanged(re: Regex, repl: string, re2: Regex, repl2: string, job: Job)
    requires job.Valid() && !job.quiet
    ensures Prints(Trying(re, repl, BranchIfNotSubstituted(None), re2, repl2), job,
                   Besides(job.engine, re, repl, re2, repl2))
  {
    var script := Trying(re, repl, BranchIfNotSubstituted(None), re2, repl2);
    var page, ok := Besides(job.engine, re, repl, re2, repl2), Anything();
    hide Pass;
    TryingPass(re, repl, BranchIfNotSubstituted(None), re2, repl2, INITIAL.core, job);
    forall c: Core, i: nat | i < job.total && Before(script, c, i)
      ensures TurnsPage(script, job, page, ok, c, i)
    {
      TryingPass(re, repl, BranchIfNotSubstituted(None), re2, repl2, BeginCycle(c, job), job);
    }
    TurningPrints(script, job, page, ok);
  }

  lemma TestFirstPass(re: Regex, repl: string, c: Core, job: Job)
    requires job.Valid() && !c.subOk
    ensures Straight([Always(BranchIfSubstituted(None)), Substituting(re, repl, false, false, None)])
    ensures OnlyMoves([Always(BranchIfSubstituted(None)), Substituting(re, repl, false, false, None)], c, job,
                      job.engine.replaceFirst(re, c.pattern, repl), c.hold)
  {
    hide Transliterated, NextLine, AppendNextLine, Record;
    StraightOf([Always(BranchIfSubstituted(None)), Substituting(re, repl, false, false, None)]);
    TwoPass([Always(BranchIfSubstituted(None)), Substituting(re, repl, false, false, None)], c, job);
  }

  /** `t;s/re/repl/`: what was changed on an earlier line does not count. */
  lemma TestForgetsEarlierLines(re: Regex, repl: string, job: Job)
    requires job.Valid() && !job.quiet
    ensures Prints([Always(BranchIfSubstituted(None)), Substituting(re, repl, false, false, None)], job,
                   FirstReplaced(job.engine, re, repl))
  {
    hide Pass;
    var script := [Always(BranchIfSubstituted(None)), Substituting(re, repl, false, false, None)];
    var page, ok := FirstReplaced(job.engine, re, repl), Anything();
    TestFirstPass(re, repl, INITIAL.core, job);
    forall c: Core, i: nat | i < job.total && Before(script, c, i)
      ensures TurnsPage(script, job, page, ok, c, i)
    {
      TestFirstPass(re, repl, BeginCycle(c, job), job);
    }
    TurningPrints(script, job, page, ok);
  }

  // ----- the hold space ---------------------------------------------------------------------------------

  function FirstLine(lines: seq<string>): Page {
    (n: nat, line: string) => if lines == [] then [] else [lines[0]]
  }

  function HoldsFirst(lines: seq<string>): (Core, nat) -> bool {
    (c: Core, i: nat) => i > 0 && lines != [] ==> c.hold == lines[0]
  }

  const KEEP_FIRST: SedScript := [On(LineNumber(1), HoldGet), Always(PatternGet)]

  lemma AddressOfLine(n: nat, c: Core, ip: nat, job: Job)
    ensures var (selected, d) := Address(Some(Single(LineNumber(n))), Tick(c), ip, job.engine);
            selected == (c.at.lineNumber == n) && d == c.(cycles := c.cycles + 1, trace := d.trace)
  {
  }

  lemma AddressOfAll(c: Core, ip: nat, job: Job)
    ensures var (selected, d) := Address(None, Tick(c), ip, job.engine);
            selected && d == c.(cycles := c.cycles + 1, trace := d.trace)
  {
  }

  lemma KeepFirstPass(c: Core, job: Job)
    requires job.Valid()
    ensures Straight(KEEP_FIRST)
    ensures var kept := if c.at.lineNumber == 1 then c.pattern else c.hold;
            OnlyMoves(KEEP_FIRST, c, job, kept, kept)
  {
    hide SubstituteResult, Transliterated, NextLine, AppendNextLine, BranchFlow, Address, Pass;
    StraightOf(KEEP_FIRST);
    AddressOfLine(1, c, 0, job);
    PassOpens(KEEP_FIRST, 0, c, job);
    var (selected, d) := Address(KEEP_FIRST[0].range, Tick(c), 0, job.engine);
    var e := if selected then Simple(HoldGet, d, job).core else d;
    AddressOfAll(e, 1, job);
    PassOpens(KEEP_FIRST, 1, e, job);
    PassEnds(KEEP_FIRST, Simple(PatternGet, Address(None, Tick(e), 1, job.engine).1, job).core, job);
  }

  /** `1h;g` prints the first line in place of every line. */
  lemma HoldIsKept(job: Job)
    requires job.Valid() && !job.quiet
    ensures Prints(KEEP_FIRST, job, FirstLine(job.lines))
  {
    hide Pass;
    var page, ok := FirstLine(job.lines), HoldsFirst(job.lines);
    KeepFirstPass(INITIAL.core, job);
    forall c: Core, i: nat | i < job.total && Before(KEEP_FIRST, c, i) && ok(c, i)
      ensures TurnsPage(KEEP_FIRST, job, page, ok, c, i)
    {
      KeepFirstPass(BeginCycle(c, job), job);
    }
    TurningPrints(KEEP_FIRST, job, page, ok);
  }

  /** What a command has no business with it leaves alone, in every state. */
  lemma CommandsTouchOnly(cmd: SedCmd, c: Core, job: Job)
    requires job.Valid() && !cmd.CommandGroup?
    ensures var d := Simple(cmd, c, job).core;
            && d.latches == c.latches && d.trace == c.trace && d.cycles == c.cycles
            && (d.hold != c.hold ==> cmd.HoldGet? || cmd.HoldAppend? || cmd.Exchange?)
            && (d.pattern != c.pattern ==>
                  || cmd.Substitute? || cmd.Transliterate? || cmd.Change? || cmd.PatternGet? || cmd.PatternAppend?
                  || cmd.Exchange? || cmd.Next? || cmd.NextAppend?)
            && (d.subOk != c.subOk ==> cmd.Substitute? || cmd.BranchIfSubstituted? || cmd.BranchIfNotSubstituted?)
            && (d.appendQueue != c.appendQueue ==> cmd.Append?)
  {
    hide SubstituteResult, Transliterated, BranchFlow, Advance;
  }

  lemma CommandsStopOnly(cmd: SedCmd, c: Core, job: Job)
    requires job.Valid() && !cmd.CommandGroup?
    ensures var e := Simple(cmd, c, job);
            && (e.core.at != c.at ==> cmd.Next? || cmd.NextAppend?)
            && (e.core.deleted != c.deleted ==> cmd.Delete? || cmd.Change? || cmd.Next? || cmd.NextAppend?)
            && (e.core.quit != c.quit ==> cmd.Quit?)
            && (e.line.Some? ==>
                  || cmd.Substitute? || cmd.Print? || cmd.Insert? || cmd.Change? || cmd.PrintLineNumber?
                  || cmd.Next? || cmd.NextAppend?)
  {
    hide SubstituteResult, Transliterated, BranchFlow, Advance;
  }

  // ----- ranges ---------------------------------------------------------------------------------------

  /** Lines `first` to `last`; a range that ends before it starts never ends. */
  function FromTo(first: nat, last: nat): Page {
    (n: nat, line: string) => if first <= n && (n <= last || last < first) then [line] else []
  }

  function LatchIs(first: nat, last: nat): (Core, nat) -> bool {
    (c: Core, i: nat) => Latched(c.latches, 0) <==> first <= i && (i < last || last < first)
  }

  /** `first,last p` with `-n` */
  lemma RangeSelects(first: nat, last: nat, job: Job)
    requires job.Valid() && job.quiet && first >= 1
    ensures Prints([AddressedCmd(Some(Range(LineNumber(first), LineNumber(last))), false, Print)], job,
                   FromTo(first, last))
  {
    var ac := AddressedCmd(Some(Range(LineNumber(first), LineNumber(last))), false, Print);
    var page, ok := FromTo(first, last), LatchIs(first, last);
    PassOfOne(ac, INITIAL.core, job);
    hide Pass, NextLine, AppendNextLine, BranchFlow, Record;
    forall c: Core, i: nat | i < job.total && Before([ac], c, i) && ok(c, i)
      ensures TurnsPage([ac], job, page, ok, c, i)
    {
      PassOfOne(ac, BeginCycle(c, job), job);
    }
    TurningPrints([ac], job, page, ok);
  }

  // ----- gathering in the hold space ------------------------------------------------------------------

  /** All lines at the end, each after a newline. */
  function Gathered(lines: seq<string>): Page {
    (n: nat, line: string) => if n == |lines| && n > 0 then ["\n" + Joined(lines)] else []
  }

  function HoldsAll(lines: seq<string>): (Core, nat) -> bool {
    (c: Core, i: nat) => i < |lines| ==> c.hold == if i == 0 then "" else "\n" + Joined(lines[..i])
  }

  const GATHER: SedScript := [Always(HoldAppend), NotOn(Last, Delete), Always(Exchange)]

  lemma GatherPass(c: Core, job: Job)
    requires job.Valid()
    ensures Straight(GATHER)
    ensures var (d, lines) := Pass(GATHER, 0, c, job);
            && lines == [] && d.quit == c.quit && d.appendQueue == c.appendQueue && d.at == c.at
            && (if c.at.lastLine
                then d.deleted == c.deleted && d.pattern == c.hold + "\n" + c.pattern
                else d.deleted && d.hold == c.hold + "\n" + c.pattern)
  {
    hide SubstituteResult, Transliterated, NextLine, AppendNextLine, BranchFlow, Record;
    StraightOf(GATHER);
    PassOpens(GATHER, 0, c, job);
    var e := Simple(HoldAppend, Address(None, Tick(c), 0, job.engine).1, job).core;
    PassOpens(GATHER, 1, e, job);
    DeleteButLast(e, job);
  }

  /** The rest of it, from the second command on. */
  lemma DeleteButLast(c: Core, job: Job)
    requires job.Valid()
    ensures Straight(GATHER)
    ensures var (d, lines) := Pass(GATHER, 1, c, job);
            && lines == [] && d.quit == c.quit && d.appendQueue == c.appendQueue && d.at == c.at
            && (if c.at.lastLine then d.deleted == c.deleted && d.pattern == c.hold else d.deleted && d.hold == c.hold)
  {
    hide SubstituteResult, Transliterated, NextLine, AppendNextLine, BranchFlow, Record;
    StraightOf(GATHER);
    PassOpens(GATHER, 1, c, job);
    var (last, d) := Address(GATHER[1].range, Tick(c), 1, job.engine);
    if last {
      PassOpens(GATHER, 2, d, job);
      PassEnds(GATHER, Simple(Exchange, Address(None, Tick(d), 2, job.engine).1, job).core, job);
    }
  }

  /** `H;$!d;x` */
  lemma HoldGathersAll(job: Job)
    requires job.Valid() && !job.quiet
    ensures Prints(GATHER, job, Gathered(job.lines[..job.total]))
  {
    var all := job.lines[..job.total];
    GatherPass(INITIAL.core, job);
    forall c: Core, i: nat | i < job.total && Before(GATHER, c, i) && HoldsAll(all)(c, i)
      ensures TurnsPage(GATHER, job, Gathered(all), HoldsAll(all), c, i)
    {
      GatherTurns(c, i, job);
    }
    TurningPrints(GATHER, job, Gathered(all), HoldsAll(all));
  }

  lemma GatherTurns(c: Core, i: nat, job: Job)
    requires job.Valid() && !job.quiet && i < job.total
    requires Before(GATHER, c, i) && HoldsAll(job.lines[..job.total])(c, i)
    ensures Straight(GATHER)
    ensures TurnsPage(GATHER, job, Gathered(job.lines[..job.total]), HoldsAll(job.lines[..job.total]), c, i)
  {
    hide Pass, Straight, Joined, Weight, Labels;
    var all := job.lines[..job.total];
    GatherPass(BeginCycle(c, job), job);
    GatheredGrows(all, i);
    if i + 1 == job.total {
      assert all[..i + 1] == all;
    }
  }

  lemma GatheredGrows(lines: seq<string>, i: nat)
    requires i < |lines|
    ensures (if i == 0 then "" else "\n" + Joined(lines[..i])) + "\n" + lines[i] == "\n" + Joined(lines[..i + 1])
  {
    assert lines[..i + 1][..i] == lines[..i];
  }

  // ----- groups -----------------------------------------------------------------------------------------

  /** The lines that match, each after its number. */
  function MatchingNumbered(engine: Engine, re: Regex): Page {
    (n: nat, line: string) => if engine.isMatch(re, line) then [Decimal(n), line] else []
  }

  const NUMBER_AND_PRINT: SedScript := [Always(PrintLineNumber), Always(Print)]

  /** `/re/{=;p}` with `-n`: the commands of a group run on the lines that the group selects. */
  lemma GroupRunsItsCommands(re: Regex, job: Job)
    requires job.Valid() && job.quiet
    ensures Prints([On(Pattern(re), CommandGroup(NUMBER_AND_PRINT))], job, MatchingNumbered(job.engine, re))
  {
    hide Pass;
    var script, page := [On(Pattern(re), CommandGroup(NUMBER_AND_PRINT))], MatchingNumbered(job.engine, re);
    GroupPass(re, INITIAL.core, job);
    forall c: Core, i: nat | i < job.total && Before(script, c, i)
      ensures TurnsPage(script, job, page, Anything(), c, i)
    {
      GroupPass(re, BeginCycle(c, job), job);
    }
    TurningPrints(script, job, page, Anything());
  }

  lemma GroupPass(re: Regex, c: Core, job: Job)
    requires job.Valid() && !c.quit && !c.deleted
    ensures Straight([On(Pattern(re), CommandGroup(NUMBER_AND_PRINT))])
    ensures var (d, lines) := Pass([On(Pattern(re), CommandGroup(NUMBER_AND_PRINT))], 0, c, job);
            && lines == (if job.engine.isMatch(re, c.pattern) then [Decimal(c.at.lineNumber), c.pattern] else [])
            && !d.deleted && !d.quit && d.appendQueue == c.appendQueue && d.at == c.at
  {
    hide SubstituteResult, Transliterated, NextLine, AppendNextLine, BranchFlow, Record, Decimal;
    StraightOf(NUMBER_AND_PRINT);
    var script := [On(Pattern(re), CommandGroup(NUMBER_AND_PRINT))];
    StraightOf(script);
    var d := Address(script[0].range, Tick(c), 0, job.engine).1;
    TwoPass(NUMBER_AND_PRINT, d, job);
    hide Simple;
    var (e, lines) := Pass(NUMBER_AND_PRINT, 0, d, job);
    assert lines == [Decimal(c.at.lineNumber), c.pattern];
    assert forall s: Core :: Pass(script, 1, s, job) == (s, []);
    assert lines + [] == lines;
  }
}
