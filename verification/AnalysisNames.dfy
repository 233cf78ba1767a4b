/** Which names the analysis reports, letter by letter. */
module AnalysisNames {
  import opened Wrappers
  import opened Analysis
  import opened AnalysisExact

  /** ASCII letters, digits and seven marks; nothing that expansion could change. */
  predicate Literal(word: string) {
    && word != ""
    && forall i :: 0 <= i < |word| ==>
         || 'A' <= word[i] <= 'Z'
         || 'a' <= word[i] <= 'z'
         || word[i] in ['0', '1', '2', '3', '4', '5', '6', '7', '8', '9']
         || word[i] in ['_', '-', '.', ':', '%', '@', '+']
  }

  lemma LiteralIsPlain(word: string)
    ensures Literal(word) <==> Plain(word)
  {
    forall i | 0 <= i < |word|
      ensures NameChar(word[i]) <==>
              || 'A' <= word[i] <= 'Z'
              || 'a' <= word[i] <= 'z'
              || word[i] in ['0', '1', '2', '3', '4', '5', '6', '7', '8', '9']
              || word[i] in ['_', '-', '.', ':', '%', '@', '+']
    {
    }
  }

  // ----- where a mention stands ----------------------------------------------------------------------

  /** The mention stands somewhere in the list; only targets of redirections are not looked at. */
  ghost predicate InList(m: Mention, list: CompoundList)
    decreases list
  {
    exists i :: 0 <= i < |list| && InAndOr(m, list[i])
  }

  ghost predicate InAndOr(m: Mention, item: AndOrList)
    decreases item
  {
    InPipeline(m, item.first) || InChain(m, item.additional)
  }

  ghost predicate InChain(m: Mention, additional: seq<AndOr>)
    decreases additional
  {
    exists i :: 0 <= i < |additional| && InPipeline(m, additional[i].pipeline)
  }

  ghost predicate InPipeline(m: Mention, pipeline: Pipeline)
    decreases pipeline
  {
    exists i :: 0 <= i < |pipeline| && InCommand(m, pipeline[i])
  }

  ghost predicate InCommand(m: Mention, command: Command)
    decreases command
  {
    match command
    case Simple(prefix, word, suffix) =>
      (m.Runs? && word == Some(m.word)) || InItems(m, prefix) || InItems(m, suffix)
    case Compound(compound) => InCompound(m, compound)
    case Function(fname, body) => m == Defines(fname) || InCompound(m, body)
    case ExtendedTest => false
  }

  ghost predicate InItems(m: Mention, items: seq<Item>)
    decreases items
  {
    exists i :: 0 <= i < |items| && items[i].ProcessSubstitution? && InList(m, items[i].list)
  }

  ghost predicate InCompound(m: Mention, compound: CompoundCommand)
    decreases compound
  {
    match compound
    case If(condition, thenPart, elses) => InList(m, condition) || InList(m, thenPart) || InElses(m, elses)
    case For(body) => InList(m, body)
    case ArithmeticFor(body) => InList(m, body)
    case While(condition, body) => InList(m, condition) || InList(m, body)
    case Until(condition, body) => InList(m, condition) || InList(m, body)
    case BraceGroup(list) => InList(m, list)
    case Subshell(list) => InList(m, list)
    case Case(cases) => InCases(m, cases)
    case Arithmetic => false
    case Coprocess(command) => InCommand(m, command)
  }

  ghost predicate InElses(m: Mention, elses: seq<ElseClause>)
    decreases elses
  {
    exists i :: 0 <= i < |elses| && InElse(m, elses[i])
  }

  ghost predicate InElse(m: Mention, clause: ElseClause)
    decreases clause
  {
    (clause.Elif? && InList(m, clause.condition)) || InList(m, clause.body)
  }

  ghost predicate InCases(m: Mention, cases: seq<CaseItem>)
    decreases cases
  {
    exists i :: 0 <= i < |cases| && cases[i].CaseItem? && InList(m, cases[i].cmd)
  }

  ghost predicate InProgram(m: Mention, program: Program) {
    exists i :: 0 <= i < |program.completeCommands| && InList(m, program.completeCommands[i])
  }

  // ----- the walk finds it ------------------------------------------------------------------------------

  lemma MoreMentions(a: seq<Mention>, b: seq<Mention>, m: Mention)
    ensures m in a + b <==> m in a || m in b
  {
  }

  lemma InListOpens(m: Mention, list: CompoundList)
    requires list != []
    ensures InList(m, list) <==> InAndOr(m, list[0]) || InList(m, list[1..])
  {
    hide InAndOr;
    if InList(m, list) {
      var i :| 0 <= i < |list| && InAndOr(m, list[i]);
      assert i > 0 ==> list[1..][i - 1] == list[i];
    }
    if InList(m, list[1..]) {
      var i :| 0 <= i < |list[1..]| && InAndOr(m, list[1..][i]);
      assert list[i + 1] == list[1..][i];
    }
  }

  lemma InChainOpens(m: Mention, additional: seq<AndOr>)
    requires additional != []
    ensures InChain(m, additional) <==> InPipeline(m, additional[0].pipeline) || InChain(m, additional[1..])
  {
    hide InPipeline;
    if InChain(m, additional) {
      var i :| 0 <= i < |additional| && InPipeline(m, additional[i].pipeline);
      assert i > 0 ==> additional[1..][i - 1] == additional[i];
    }
    if InChain(m, additional[1..]) {
      var i :| 0 <= i < |additional[1..]| && InPipeline(m, additional[1..][i].pipeline);
      assert additional[i + 1] == additional[1..][i];
    }
  }

  lemma InPipelineOpens(m: Mention, pipeline: Pipeline)
    requires pipeline != []
    ensures InPipeline(m, pipeline) <==> InCommand(m, pipeline[0]) || InPipeline(m, pipeline[1..])
  {
    hide InCommand;
    if InPipeline(m, pipeline) {
      var i :| 0 <= i < |pipeline| && InCommand(m, pipeline[i]);
      assert i > 0 ==> pipeline[1..][i - 1] == pipeline[i];
    }
    if InPipeline(m, pipeline[1..]) {
      var i :| 0 <= i < |pipeline[1..]| && InCommand(m, pipeline[1..][i]);
      assert pipeline[i + 1] == pipeline[1..][i];
    }
  }

  lemma InItemsOpens(m: Mention, items: seq<Item>)
    requires items != []
    ensures InItems(m, items) <==>
            (items[0].ProcessSubstitution? && InList(m, items[0].list)) || InItems(m, items[1..])
  {
    hide InList;
    if InItems(m, items) {
      var i :| 0 <= i < |items| && items[i].ProcessSubstitution? && InList(m, items[i].list);
      assert i > 0 ==> items[1..][i - 1] == items[i];
    }
    if InItems(m, items[1..]) {
      var i :| 0 <= i < |items[1..]| && items[1..][i].ProcessSubstitution? && InList(m, items[1..][i].list);
      assert items[i + 1] == items[1..][i];
    }
  }

  lemma InElsesOpens(m: Mention, elses: seq<ElseClause>)
    requires elses != []
    ensures InElses(m, elses) <==> InElse(m, elses[0]) || InElses(m, elses[1..])
  {
    hide InElse;
    if InElses(m, elses) {
      var i :| 0 <= i < |elses| && InElse(m, elses[i]);
      assert i > 0 ==> elses[1..][i - 1] == elses[i];
    }
    if InElses(m, elses[1..]) {
      var i :| 0 <= i < |elses[1..]| && InElse(m, elses[1..][i]);
      assert elses[i + 1] == elses[1..][i];
    }
  }

  lemma InCasesOpens(m: Mention, cases: seq<CaseItem>)
    requires cases != []
    ensures InCases(m, cases) <==> (cases[0].CaseItem? && InList(m, cases[0].cmd)) || InCases(m, cases[1..])
  {
    hide InList;
    if InCases(m, cases) {
      var i :| 0 <= i < |cases| && cases[i].CaseItem? && InList(m, cases[i].cmd);
      assert i > 0 ==> cases[1..][i - 1] == cases[i];
    }
    if InCases(m, cases[1..]) {
      var i :| 0 <= i < |cases[1..]| && cases[1..][i].CaseItem? && InList(m, cases[1..][i].cmd);
      assert cases[i + 1] == cases[1..][i];
    }
  }

  lemma {:induction false} ListIsWalked(m: Mention, list: CompoundList)
    ensures m in ListMentions(list, COLLECTED) <==> InList(m, list)
    decreases list
  {
    hide PipelineMentions, ChainMentions, InPipeline, InChain;
    if list != [] {
      PipelineIsWalked(m, list[0].first);
      ChainIsWalked(m, list[0].additional);
      ListIsWalked(m, list[1..]);
      InListOpens(m, list);
      MoreMentions(PipelineMentions(list[0].first, COLLECTED), ChainMentions(list[0].additional, COLLECTED), m);
      MoreMentions(PipelineMentions(list[0].first, COLLECTED) + ChainMentions(list[0].additional, COLLECTED),
                   ListMentions(list[1..], COLLECTED), m);
    }
  }

  lemma {:induction false} ChainIsWalked(m: Mention, additional: seq<AndOr>)
    ensures m in ChainMentions(additional, COLLECTED) <==> InChain(m, additional)
    decreases additional
  {
    hide PipelineMentions, InPipeline;
    if additional != [] {
      PipelineIsWalked(m, additional[0].pipeline);
      ChainIsWalked(m, additional[1..]);
      InChainOpens(m, additional);
      MoreMentions(PipelineMentions(additional[0].pipeline, COLLECTED), ChainMentions(additional[1..], COLLECTED), m);
    }
  }

  lemma {:induction false} PipelineIsWalked(m: Mention, pipeline: Pipeline)
    ensures m in PipelineMentions(pipeline, COLLECTED) <==> InPipeline(m, pipeline)
    decreases pipeline
  {
    hide CommandMentions, InCommand;
    if pipeline != [] {
      CommandIsWalked(m, pipeline[0]);
      PipelineIsWalked(m, pipeline[1..]);
      InPipelineOpens(m, pipeline);
      MoreMentions(CommandMentions(pipeline[0], COLLECTED), PipelineMentions(pipeline[1..], COLLECTED), m);
    }
  }

  lemma {:induction false} CommandIsWalked(m: Mention, command: Command)
    ensures m in CommandMentions(command, COLLECTED) <==> InCommand(m, command)
    decreases command
  {
    hide CompoundMentions, InCompound, ItemMentions, InItems;
    match command
    case Simple(prefix, word, suffix) =>
      ItemsAreWalked(m, prefix, word.Some?);
      ItemsAreWalked(m, suffix, word.Some?);
      var own := if word.Some? then [Runs(word.value)] else [];
      MoreMentions(own, ItemMentions(prefix, word.Some?, COLLECTED), m);
      MoreMentions(own + ItemMentions(prefix, word.Some?, COLLECTED), ItemMentions(suffix, word.Some?, COLLECTED), m);
    case Compound(compound) => CompoundIsWalked(m, compound);
    case Function(fname, body) =>
      CompoundIsWalked(m, body);
      MoreMentions([Defines(fname)], CompoundMentions(body, COLLECTED), m);
    case ExtendedTest =>
  }

  lemma {:induction false} ItemsAreWalked(m: Mention, items: seq<Item>, named: bool)
    ensures m in ItemMentions(items, named, COLLECTED) <==> InItems(m, items)
    decreases items
  {
    hide ListMentions, InList;
    if items != [] {
      var own := if items[0].ProcessSubstitution? then ListMentions(items[0].list, COLLECTED) else [];
      if items[0].ProcessSubstitution? {
        ListIsWalked(m, items[0].list);
      }
      ItemsAreWalked(m, items[1..], named);
      InItemsOpens(m, items);
      MoreMentions(own, ItemMentions(items[1..], named, COLLECTED), m);
    }
  }

  lemma {:induction false} CompoundIsWalked(m: Mention, compound: CompoundCommand)
    ensures m in CompoundMentions(compound, COLLECTED) <==> InCompound(m, compound)
    decreases compound
  {
    hide ListMentions, InList, ElseMentions, InElses, CaseMentions, InCases, CommandMentions, InCommand;
    match compound
    case If(condition, thenPart, elses) =>
      ListIsWalked(m, condition);
      ListIsWalked(m, thenPart);
      ElsesAreWalked(m, elses);
      MoreMentions(ListMentions(condition, COLLECTED), ListMentions(thenPart, COLLECTED), m);
      MoreMentions(ListMentions(condition, COLLECTED) + ListMentions(thenPart, COLLECTED),
                   ElseMentions(elses, COLLECTED), m);
    case For(body) => ListIsWalked(m, body);
    case ArithmeticFor(body) => ListIsWalked(m, body);
    case While(condition, body) =>
      ListIsWalked(m, condition);
      ListIsWalked(m, body);
      MoreMentions(ListMentions(condition, COLLECTED), ListMentions(body, COLLECTED), m);
    case Until(condition, body) =>
      ListIsWalked(m, condition);
      ListIsWalked(m, body);
      MoreMentions(ListMentions(condition, COLLECTED), ListMentions(body, COLLECTED), m);
    case BraceGroup(list) => ListIsWalked(m, list);
    case Subshell(list) => ListIsWalked(m, list);
    case Case(cases) => CasesAreWalked(m, cases);
    case Arithmetic =>
    case Coprocess(command) => CommandIsWalked(m, command);
  }

  lemma {:induction false} ElsesAreWalked(m: Mention, elses: seq<ElseClause>)
    ensures m in ElseMentions(elses, COLLECTED) <==> InElses(m, elses)
    decreases elses
  {
    hide ListMentions, InList;
    if elses != [] {
      ElsesAreWalked(m, elses[1..]);
      InElsesOpens(m, elses);
      ListIsWalked(m, elses[0].body);
      var rest := ElseMentions(elses[1..], COLLECTED);
      var condition := if elses[0].Elif? then ListMentions(elses[0].condition, COLLECTED) else [];
      if elses[0].Elif? {
        ListIsWalked(m, elses[0].condition);
      }
      MoreMentions(condition, ListMentions(elses[0].body, COLLECTED), m);
      MoreMentions(condition + ListMentions(elses[0].body, COLLECTED), rest, m);
    }
  }

  lemma {:induction false} CasesAreWalked(m: Mention, cases: seq<CaseItem>)
    ensures m in CaseMentions(cases, COLLECTED) <==> InCases(m, cases)
    decreases cases
  {
    hide ListMentions, InList;
    if cases != [] {
      CasesAreWalked(m, cases[1..]);
      InCasesOpens(m, cases);
      var own := if cases[0].CaseItem? then ListMentions(cases[0].cmd, COLLECTED) else [];
      if cases[0].CaseItem? {
        ListIsWalked(m, cases[0].cmd);
      }
      MoreMentions(own, CaseMentions(cases[1..], COLLECTED), m);
    }
  }

  lemma {:induction false} ListsAreWalked(m: Mention, lists: seq<CompoundList>)
    ensures m in ProgramMentions(lists, COLLECTED) <==> exists i :: 0 <= i < |lists| && InList(m, lists[i])
  {
    hide ListMentions, InList;
    if lists != [] {
      ListIsWalked(m, lists[0]);
      ListsAreWalked(m, lists[1..]);
      MoreMentions(ListMentions(lists[0], COLLECTED), ProgramMentions(lists[1..], COLLECTED), m);
      if exists i :: 0 <= i < |lists| && InList(m, lists[i]) {
        var i :| 0 <= i < |lists| && InList(m, lists[i]);
        assert i > 0 ==> lists[1..][i - 1] == lists[i];
      }
      if exists i :: 0 <= i < |lists[1..]| && InList(m, lists[1..][i]) {
        var i :| 0 <= i < |lists[1..]| && InList(m, lists[1..][i]);
        assert lists[i + 1] == lists[1..][i];
      }
    }
  }

  // ----- what is reported ---------------------------------------------------------------------------------

  /**
   The reported commands are the literal words that stand as command names anywhere in the script, dead
   code and bodies of functions included, and nothing else.
   */
  lemma LiteralNamesAreReported(program: Program, word: string)
    ensures word in Collected(program).commands <==> Literal(word) && InProgram(Runs(word), program)
    ensures word in Collected(program).definedFunctions <==>
            Literal(word) && InProgram(Defines(word), program)
  {
    hide Plain, Literal, Collected, InList;
    LiteralIsPlain(word);
    ListsAreWalked(Runs(word), program.completeCommands);
    ListsAreWalked(Defines(word), program.completeCommands);
    CommandsAre(program, word);
  }

  /** Those of them are unresolved that the instance does not know and the script does not define. */
  lemma UnknownNamesAreUnresolved(program: Program, resolves: string -> bool, word: string)
    ensures word in Unresolved(Collected(program), resolves) <==>
            && Literal(word) && InProgram(Runs(word), program)
            && !resolves(word) && !InProgram(Defines(word), program)
  {
    hide Literal, Collected, InProgram;
    LiteralNamesAreReported(program, word);
  }
}
