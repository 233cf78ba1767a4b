/** Where sed's branches land: at the last label of their name, or at the end if there is none. */
module SedLabels {
  import opened Wrappers
  import opened Sed
  import opened SedIdioms

  /** Instruction `k` is the last one on the top level that is the label. */
  ghost predicate LastLabel(script: SedScript, name: string, k: nat) {
    && k < |script| && script[k].cmd == Label(name)
    && forall j :: k < j < |script| ==> script[j].cmd != Label(name)
  }

  ghost predicate NoLabel(script: SedScript, name: string) {
    forall j :: 0 <= j < |script| ==> script[j].cmd != Label(name)
  }

  lemma {:induction false} LabelsAreLast(script: SedScript, name: string)
    ensures name in Labels(script) ==> LastLabel(script, name, Labels(script)[name])
    ensures name !in Labels(script) ==> NoLabel(script, name)
  {
    if script != [] {
      var n := |script| - 1;
      LabelsAreLast(script[..n], name);
      assert forall j :: 0 <= j < n ==> script[j] == script[..n][j];
    }
  }

  /** The branch takes its target: always, after a substitution that changed something, or after none. */
  predicate Taken(cmd: SedCmd, changed: bool) {
    match cmd
    case Branch(_) => true
    case BranchIfSubstituted(_) => changed
    case BranchIfNotSubstituted(_) => !changed
    case _ => false
  }

  /** `b`, `t` or `T` with a label. */
  predicate BranchesTo(cmd: SedCmd, name: string) {
    cmd == Branch(Some(name)) || cmd == BranchIfSubstituted(Some(name)) || cmd == BranchIfNotSubstituted(Some(name))
  }

  /** A test for changes starts anew after it. */
  function AfterTest(cmd: SedCmd, s: State): State {
    if cmd.Branch? then s else s.(core := s.core.(subOk := false))
  }

  lemma LandsAt(script: SedScript, ip: nat, name: string, s: State, r: State, lim: Limits, job: Job)
    requires job.Valid() && job.labels == Labels(script)
    requires AfterCommand(script, ip, BranchTo(name), s, lim, job) == r
    ensures forall k: nat :: LastLabel(script, name, k) ==> r == Commands(script, k, s, lim, job)
    ensures NoLabel(script, name) ==> r == s
  {
    hide Commands, Labels;
    LabelsAreLast(script, name);
    if name in Labels(script) {
      var at := Labels(script)[name];
      forall k: nat | LastLabel(script, name, k)
        ensures k == at
      {
        assert !(at < k) && !(k < at);
      }
    }
  }

  /**
   One branch of any script in any state: taken, the run goes on at the last label of that name, or
   the list ends if there is none; not taken, it goes on at the next instruction.
   */
  lemma BranchLands(script: SedScript, ip: nat, name: string, s: State, lim: Limits, job: Job)
    requires job.Valid() && job.labels == Labels(script) && Ready(script, ip, s, lim)
    requires script[ip].range == None && !script[ip].negated && BranchesTo(script[ip].cmd, name)
    ensures var cmd := script[ip].cmd;
            var after := AfterTest(cmd, Fetched(script, ip, s, job));
            var r := Commands(script, ip, s, lim, job);
            if !Taken(cmd, s.core.subOk) then r == Commands(script, ip + 1, after, lim, job)
            else
              && (forall k: nat :: LastLabel(script, name, k) ==> r == Commands(script, k, after, lim, job))
              && (NoLabel(script, name) ==> r == after)
  {
    hide Commands, Labels, NextLine, AppendNextLine, SubstituteResult, Transliterated, Record;
    var cmd := script[ip].cmd;
    var after := AfterTest(cmd, Fetched(script, ip, s, job));
    ExecuteBranch(script, ip, s, lim, job);
    if Taken(cmd, s.core.subOk) {
      LandsAt(script, ip, name, after, Commands(script, ip, s, lim, job), lim, job);
    }
  }

  lemma ExecuteBranch(script: SedScript, ip: nat, s: State, lim: Limits, job: Job)
    requires job.Valid() && Ready(script, ip, s, lim) && script[ip].range == None && !script[ip].negated
    ensures var (flow, r) := One(script[ip].cmd, Fetched(script, ip, s, job), lim, job);
            Commands(script, ip, s, lim, job) == AfterCommand(script, ip, flow, r, lim, job)
  {
    hide Commands, One, Record;
    Execute(script, ip, s, lim, job);
  }
}
