/**
 Whole programs on the sed machine: two classic scripts do what they are known for, on every
 input, and the empty script copies its input.
 */
module SedIdioms {
  import opened Sequences
  import opened Wrappers
  import opened Utf8Text
  import opened TextParts
  import opened Sed

  // ----- single steps -------------------------------------------------------------------------

  ghost predicate Ready(script: SedScript, ip: nat, s: State, lim: Limits) {
    ip < |script| && s.core.cycles < lim.maxCycles && !s.core.quit && !s.core.deleted
  }

  /** The state right after instruction `ip` is fetched. */
  ghost function Fetched(script: SedScript, ip: nat, s: State, job: Job): State
    requires ip < |script|
  {
    State(Address(script[ip].range, Tick(s.core), ip, job.engine).1, s.out)
  }

  ghost predicate Selects(script: SedScript, ip: nat, s: State, job: Job)
    requires ip < |script|
  {
    Address(script[ip].range, Tick(s.core), ip, job.engine).0 != script[ip].negated
  }

  lemma Skip(script: SedScript, ip: nat, s: State, lim: Limits, job: Job)
    requires job.Valid() && Ready(script, ip, s, lim) && !Selects(script, ip, s, job)
    ensures Commands(script, ip, s, lim, job) == Commands(script, ip + 1, Fetched(script, ip, s, job), lim, job)
  {
  }

  lemma Execute(script: SedScript, ip: nat, s: State, lim: Limits, job: Job)
    requires job.Valid() && Ready(script, ip, s, lim) && Selects(script, ip, s, job)
    ensures var (flow, r) := One(script[ip].cmd, Fetched(script, ip, s, job), lim, job);
            Commands(script, ip, s, lim, job) == AfterCommand(script, ip, flow, r, lim, job)
  {
  }

  lemma PushLineFits(o: Out, lim: Limits, text: string)
    requires o.limit.None? && ByteLen(o.text + text) <= lim.maxOutput
    ensures PushLine(o, lim, text) == Out(o.text + text + "\n", None)
  {
    ByteLenConcat(o.text, text);
  }

  // ----- tac and join ---------------------------------------------------------------------------

  /** `1!G;h;$p` */
  const TAC: SedScript := [
    AddressedCmd(Some(Single(LineNumber(1))), true, PatternAppend),
    AddressedCmd(None, false, HoldGet),
    AddressedCmd(Some(Single(Last)), false, Print)]

  /** The lines last to first, separated by newlines. */
  function Reversed(lines: seq<string>): string
    requires lines != []
  {
    if |lines| == 1 then lines[0] else lines[|lines| - 1] + "\n" + Reversed(lines[..|lines| - 1])
  }

  /** Enough room for a run that prints `text` and a newline. */
  ghost predicate Roomy(lim: Limits, job: Job, text: string) {
    lim.maxCycles >= 3 * job.total && lim.maxOutput >= ByteLen(text)
  }

  /** Before line `i`. */
  ghost predicate TacBefore(s: State, i: nat, job: Job)
    requires job.Valid()
  {
    && i <= job.total
    && s.core.at.lineIdx == s.core.at.lineNumber == i
    && s.core.cycles == 3 * i
    && !s.core.quit
    && s.core.appendQueue == []
    && (i > 0 ==> s.core.hold == Reversed(job.lines[..i]))
    && s.out.limit.None?
    && s.out.text == (if i < job.total || i == 0 then "" else Reversed(job.lines[..i]) + "\n")
  }

  lemma TacStep(s: State, i: nat, lim: Limits, job: Job)
    requires job.Valid() && job.quiet && i < job.total && TacBefore(s, i, job)
    requires Roomy(lim, job, Reversed(job.lines[..job.total]))
    ensures var e := Cycle(TAC, s, lim, job);
            !e.core.quit && TacBefore(NextCycle(e), i + 1, job)
  {
    var b := State(BeginCycle(s.core, job), s.out);
    var s1 := TacGather(b, i, lim, job);
    Execute(TAC, 1, s1, lim, job);
    TacShow(One(HoldGet, Fetched(TAC, 1, s1, job), lim, job).1, i, lim, job);
  }

  lemma TacShow(s: State, i: nat, lim: Limits, job: Job)
    requires job.Valid() && i < job.total && s.core.cycles + 1 <= lim.maxCycles
    requires s.core.at.lastLine == (i + 1 >= job.total) && !s.core.quit && !s.core.deleted
    requires s.out == Out("", None) && (i + 1 == job.total ==> ByteLen(s.core.pattern) <= lim.maxOutput)
    ensures var r := Commands(TAC, 2, s, lim, job);
            && r.core == s.core.(cycles := s.core.cycles + 1, trace := r.core.trace)
            && r.out == if i + 1 < job.total then s.out else Out(s.core.pattern + "\n", None)
  {
    var f := Fetched(TAC, 2, s, job);
    if i + 1 < job.total {
      Skip(TAC, 2, s, lim, job);
      assert Commands(TAC, 3, f, lim, job) == f;
    } else {
      assert s.out.text + s.core.pattern == s.core.pattern;
      PushLineFits(s.out, lim, s.core.pattern);
      Execute(TAC, 2, s, lim, job);
      var r := State(f.core, PushLine(s.out, lim, s.core.pattern));
      assert One(Print, f, lim, job) == (Continue, r);
      assert Commands(TAC, 3, r, lim, job) == r;
    }
  }

  lemma TacGather(b: State, i: nat, lim: Limits, job: Job) returns (s1: State)
    requires job.Valid() && i < job.total && lim.maxCycles >= 3 * job.total
    requires b.core.at.lineIdx == i && b.core.at.lineNumber == i + 1
    requires !b.core.quit && !b.core.deleted && b.core.cycles == 3 * i
    requires b.core.pattern == job.lines[i]
    requires i > 0 ==> b.core.hold == Reversed(job.lines[..i])
    ensures Commands(TAC, 0, b, lim, job) == Commands(TAC, 1, s1, lim, job)
    ensures s1.out == b.out && s1.core.pattern == Reversed(job.lines[..i + 1])
    ensures s1.core ==
            b.core.(cycles := 3 * i + 1, pattern := s1.core.pattern, trace := s1.core.trace, latches := s1.core.latches)
  {
    if i == 0 {
      s1 := Fetched(TAC, 0, b, job);
      Skip(TAC, 0, b, lim, job);
    } else {
      s1 := One(PatternAppend, Fetched(TAC, 0, b, job), lim, job).1;
      Execute(TAC, 0, b, lim, job);
    }
    assert job.lines[..i + 1][..i] == job.lines[..i];
  }

  lemma {:induction false} TacFrom(s: State, i: nat, lim: Limits, job: Job)
    requires job.Valid() && job.quiet && TacBefore(s, i, job)
    requires job.total > 0 && Roomy(lim, job, Reversed(job.lines[..job.total]))
    ensures Cycles(TAC, s, lim, job).out == Out(Reversed(job.lines[..job.total]) + "\n", None)
    decreases job.total - i
  {
    if i < job.total {
      TacStep(s, i, lim, job);
      TacFrom(NextCycle(Cycle(TAC, s, lim, job)), i + 1, lim, job);
    }
  }

  /** `sed -n '1!G;h;$p'` prints every non-empty input last line first. */
  lemma TacReversesInput(lim: Limits, job: Job)
    requires job.Valid() && job.quiet && job.total > 0
    requires Roomy(lim, job, Reversed(job.lines[..job.total]))
    ensures Run(TAC, lim, job).out == Out(Reversed(job.lines[..job.total]) + "\n", None)
  {
    TacFrom(INITIAL, 0, lim, job);
  }

  /** `:a;N;$!ba;s/re/repl/g` */
  function JoinLines(re: Regex, repl: string): SedScript {
    [AddressedCmd(None, false, Label("a")),
     AddressedCmd(None, false, NextAppend),
     AddressedCmd(Some(Single(Last)), true, Branch(Some("a"))),
     AddressedCmd(None, false, Substitute(re, repl, SubstituteFlags(true, false, None)))]
  }

  function Joined(lines: seq<string>): string
    requires lines != []
  {
    if |lines| == 1 then lines[0] else Joined(lines[..|lines| - 1]) + "\n" + lines[|lines| - 1]
  }

  /** At the head of the loop with lines 0 to `i` in the pattern space. */
  ghost predicate Gathering(s: State, i: nat, job: Job)
    requires job.Valid()
  {
    && i < job.total
    && s.core.at.lineIdx == i
    && s.core.cycles == 3 * i
    && !s.core.quit && !s.core.deleted
    && s.core.appendQueue == []
    && s.core.pattern == Joined(job.lines[..i + 1])
    && s.out == Out("", None)
  }

  lemma GatherLine(re: Regex, repl: string, s: State, i: nat, lim: Limits, job: Job) returns (s2: State)
    requires job.Valid() && Gathering(s, i, job) && i + 1 < job.total
    requires lim.maxCycles >= 3 * job.total
    ensures Commands(JoinLines(re, repl), 0, s, lim, job) == Commands(JoinLines(re, repl), 2, s2, lim, job)
    ensures s2.core.at.lineIdx == i + 1 && s2.core.at.lastLine == (i + 2 >= job.total)
    ensures s2.core.pattern == Joined(job.lines[..i + 2])
    ensures s2.core.cycles == s.core.cycles + 2 && s2.out == s.out
    ensures !s2.core.quit && !s2.core.deleted && s2.core.appendQueue == []
  {
    var script := JoinLines(re, repl);
    var s1 := PassLabel(script, s, lim, job);
    hide Commands;
    Execute(script, 1, s1, lim, job);
    s2 := One(NextAppend, Fetched(script, 1, s1, job), lim, job).1;
    AfterNext(script, 1, s2, lim, job);
    assert job.lines[..i + 2][..i + 1] == job.lines[..i + 1];
  }

  lemma AfterNext(script: SedScript, ip: nat, s: State, lim: Limits, job: Job)
    requires job.Valid()
    ensures AfterCommand(script, ip, Continue, s, lim, job) == Commands(script, ip + 1, s, lim, job)
  {
    hide Commands;
  }

  lemma PassLabel(script: SedScript, s: State, lim: Limits, job: Job) returns (s1: State)
    requires job.Valid() && Ready(script, 0, s, lim)
    requires script[0].range.None? && !script[0].negated && script[0].cmd.Label?
    ensures Commands(script, 0, s, lim, job) == Commands(script, 1, s1, lim, job)
    ensures s1 == Fetched(script, 0, s, job)
  {
    s1 := Fetched(script, 0, s, job);
    Execute(script, 0, s, lim, job);
    hide Commands;
    AfterNext(script, 0, s1, lim, job);
  }

  lemma GatherStep(re: Regex, repl: string, s: State, i: nat, lim: Limits, job: Job) returns (s': State)
    requires job.Valid() && Gathering(s, i, job) && i + 1 < job.total
    requires "a" in job.labels && job.labels["a"] == 0
    requires lim.maxCycles >= 3 * job.total
    ensures Gathering(s', i + 1, job)
    ensures Commands(JoinLines(re, repl), 0, s, lim, job) ==
            Commands(JoinLines(re, repl), if i + 2 < job.total then 0 else 3, s', lim, job)
  {
    var script := JoinLines(re, repl);
    var s2 := GatherLine(re, repl, s, i, lim, job);
    s' := Fetched(script, 2, s2, job);
    if i + 2 < job.total {
      Execute(script, 2, s2, lim, job);
    } else {
      Skip(script, 2, s2, lim, job);
    }
  }

  lemma {:induction false} GatherAll(re: Regex, repl: string, s: State, i: nat, lim: Limits, job: Job)
    requires job.Valid() && Gathering(s, i, job) && i + 1 < job.total
    requires "a" in job.labels && job.labels["a"] == 0
    requires lim.maxCycles >= 3 * job.total
    ensures var r := Commands(JoinLines(re, repl), 0, s, lim, job);
            && r.core.pattern == job.engine.replaceAll(re, Joined(job.lines[..job.total]), repl)
            && r.core.at.lineIdx + 1 == job.total
            && !r.core.quit && !r.core.deleted
            && r.core.appendQueue == []
            && r.out == Out("", None)
    decreases job.total - i
  {
    var s' := GatherStep(re, repl, s, i, lim, job);
    if i + 2 < job.total {
      GatherAll(re, repl, s', i + 1, lim, job);
    } else {
      Execute(JoinLines(re, repl), 3, s', lim, job);
    }
  }

  /** The script's one label is its first instruction. */
  lemma OneLabel(re: Regex, repl: string)
    ensures Labels(JoinLines(re, repl)) == map["a" := 0]
  {
    var script := JoinLines(re, repl);
    assert script[..3][..2] == script[..2] && script[..2][..1] == script[..1] && script[..1][..0] == [];
    assert Labels(script[..1]) == map["a" := 0];
    assert Labels(script[..2]) == map["a" := 0];
    assert Labels(script[..3]) == map["a" := 0];
  }

  /**
   `sed ':a;N;$!ba;s/re/repl/g'` gathers all lines with a backward branch and substitutes in the
   joined text, for every input of at least two lines.
   */
  lemma JoinLinesGathersInput(re: Regex, repl: string, lim: Limits, job: Job)
    requires job.Valid() && !job.quiet && job.total >= 2 && job.labels == Labels(JoinLines(re, repl))
    requires Roomy(lim, job, job.engine.replaceAll(re, Joined(job.lines[..job.total]), repl))
    ensures Run(JoinLines(re, repl), lim, job).out ==
            Out(job.engine.replaceAll(re, Joined(job.lines[..job.total]), repl) + "\n", None)
  {
    OneLabel(re, repl);
    var b := State(BeginCycle(INITIAL.core, job), INITIAL.out);
    assert job.lines[..1][0] == job.lines[0];
    GatherAll(re, repl, b, 0, lim, job);
    var text := job.engine.replaceAll(re, Joined(job.lines[..job.total]), repl);
    assert INITIAL.out.text + text == text;
    PushLineFits(INITIAL.out, lim, text);
    var e := Cycle(JoinLines(re, repl), INITIAL, lim, job);
    assert e.out == Out(text + "\n", None);
    assert Cycles(JoinLines(re, repl), NextCycle(e), lim, job) == NextCycle(e);
  }

  // ----- the empty script --------------------------------------------------------------------

  /** The lines, each ended by a newline. */
  function Unlines(lines: seq<string>): string {
    if lines == [] then "" else lines[0] + "\n" + Unlines(lines[1..])
  }

  lemma {:induction false} UnlinesRejoins(lines: seq<string>)
    requires lines != []
    ensures Unlines(lines) == Rejoined(lines, '\n') + "\n"
  {
    if |lines| == 1 {
      assert lines[1..] == [];
    } else {
      UnlinesRejoins(lines[1..]);
      Associates(lines[0], "\n", Rejoined(lines[1..], '\n') + "\n");
    }
  }

  lemma UnlinesOfSplit(input: string)
    ensures Unlines(Divided(input, '\n')) == input + "\n"
  {
    hide Unlines, Divided, Rejoined;
    UnlinesRejoins(Divided(input, '\n'));
    DividedRejoins(input, '\n');
  }

  lemma UnlinesOpens(lines: seq<string>)
    requires lines != []
    ensures Unlines(lines) == lines[0] + "\n" + Unlines(lines[1..])
  {
  }

  lemma {:induction false} UnlinesConcat(a: seq<string>, b: seq<string>)
    ensures Unlines(a + b) == Unlines(a) + Unlines(b)
  {
    if a == [] {
      assert a + b == b;
    } else {
      UnlinesOpens(a);
      UnlinesOpens(a + b);
      TailOfConcat(a, b);
      UnlinesConcat(a[1..], b);
      Associates(a[0] + "\n", Unlines(a[1..]), Unlines(b));
    }
  }

  lemma {:induction false} LastLineEmpty(input: string)
    ensures var lines := Divided(input, '\n');
            lines[|lines| - 1] == "" <==> Ended(input)
  {
    if input != "" {
      LastLineEmpty(input[1..]);
    }
  }

  lemma {:induction false} CopyFrom(s: State, lim: Limits, job: Job)
    requires job.Valid() && !job.quiet && s.core.at.lineIdx <= job.total
    requires !s.core.quit && s.core.appendQueue == [] && s.out.limit.None?
    requires s.out.text == Unlines(job.lines[..s.core.at.lineIdx])
    requires lim.maxOutput >= ByteLen(Unlines(job.lines[..job.total]))
    ensures Cycles([], s, lim, job).out == Out(Unlines(job.lines[..job.total]), None)
    decreases job.total - s.core.at.lineIdx
  {
    var i := s.core.at.lineIdx;
    if i < job.total {
      var input := job.lines[..job.total];
      assert input[..i] == job.lines[..i] && input[..i + 1] == job.lines[..i + 1];
      OneMoreLine(input, i);
      OneMoreFits(input, i + 1, Unlines(input[..i]) + input[i]);
      PushLineFits(s.out, lim, job.lines[i]);
      var e := Cycle([], s, lim, job);
      assert e == State(BeginCycle(s.core, job), PushLine(s.out, lim, job.lines[i]));
      CopyFrom(NextCycle(e), lim, job);
    }
  }

  lemma UnlinesSnoc(lines: seq<string>, line: string)
    ensures Unlines(lines + [line]) == Unlines(lines) + line + "\n"
  {
    UnlinesConcat(lines, [line]);
    assert [line][1..] == [];
    assert Unlines([line]) == line + "\n";
  }

  lemma PrefixBytes(s: string, t: string)
    ensures ByteLen(s) <= ByteLen(s + t)
  {
    ByteLenConcat(s, t);
  }

  lemma UnlinesSplit(lines: seq<string>, i: nat)
    requires i <= |lines|
    ensures Unlines(lines) == Unlines(lines[..i]) + Unlines(lines[i..])
  {
    hide Unlines;
    UnlinesConcat(lines[..i], lines[i..]);
    SplitAt(lines, i);
  }

  lemma OneMoreLine(lines: seq<string>, i: nat)
    requires i < |lines|
    ensures Unlines(lines[..i + 1]) == Unlines(lines[..i]) + lines[i] + "\n"
  {
    hide Unlines;
    assert lines[..i + 1] == lines[..i] + [lines[i]];
    UnlinesSnoc(lines[..i], lines[i]);
  }

  lemma OneMoreFits(lines: seq<string>, i: nat, text: string)
    requires i <= |lines| && Unlines(lines[..i]) == text + "\n"
    ensures ByteLen(text) <= ByteLen(Unlines(lines))
  {
    hide Unlines, ByteLen;
    PrefixBytes(text, "\n");
    UnlinesSplit(lines, i);
    PrefixBytes(Unlines(lines[..i]), Unlines(lines[i..]));
  }

  lemma CancelNewline(s: string, t: string)
    requires s + "\n" == t + "\n"
    ensures s == t
  {
    assert |s + "\n"| == |s| + 1 && |t + "\n"| == |t| + 1;
    assert s == (s + "\n")[..|s|] && t == (t + "\n")[..|t|];
  }

  ghost predicate Ended(input: string) {
    input == "" || input[|input| - 1] == '\n'
  }

  /** What counts as input: all of it, with the last line ended. */
  lemma LinesOfInput(lines: seq<string>, input: string)
    requires lines != [] && Unlines(lines) == input + "\n"
    requires lines[|lines| - 1] == "" <==> Ended(input)
    ensures Unlines(lines[..Total(lines)]) == if Ended(input) then input else input + "\n"
  {
    if Ended(input) {
      FrontOfSplit(lines, input);
    } else {
      assert lines[..|lines|] == lines;
    }
  }

  lemma FrontOfSplit(lines: seq<string>, input: string)
    requires lines != [] && lines[|lines| - 1] == "" && Unlines(lines) == input + "\n"
    ensures Unlines(lines[..|lines| - 1]) == input
  {
    var front := lines[..|lines| - 1];
    assert lines == front + [""];
    UnlinesSnoc(front, "");
    assert Unlines(front) + "" == Unlines(front);
    CancelNewline(Unlines(front), input);
  }

  /**
   The empty script gives its input back exactly when the input is empty or ends in a newline;
   otherwise it adds the missing newline.
   */
  lemma EmptyScriptCopies(engine: Engine, labels: map<string, nat>, input: string, lim: Limits)
    requires lim.maxOutput >= ByteLen(input + "\n")
    ensures var out := Run([], lim, MakeJob(engine, labels, false, input)).out;
            && out.limit.None?
            && (out.text == input <==> Ended(input))
            && (out.text != input ==> out.text == input + "\n")
  {
    var job := MakeJob(engine, labels, false, input);
    UnlinesOfSplit(input);
    LastLineEmpty(input);
    LinesOfInput(job.lines, input);
    PrefixBytes(input, "\n");
    CopyFrom(INITIAL, lim, job);
  }
}
