/**
 Static command analysis: one walk over a parsed script collects the command names it spells out
 and the functions it defines.
 */
module Analysis {
  import opened Wrappers

  // ----- the syntax tree ------------------------------------------------------------------------

  type CompoundList = seq<AndOrList>
  type Pipeline = seq<Command>

  datatype Program = Program(completeCommands: seq<CompoundList>)
  datatype AndOrList = AndOrList(first: Pipeline, additional: seq<AndOr>)
  datatype AndOr = And(pipeline: Pipeline) | Or(pipeline: Pipeline)
  datatype Command =
    | Simple(prefix: seq<Item>, word: Option<string>, suffix: seq<Item>)
    | Compound(compound: CompoundCommand)
    | Function(fname: string, body: CompoundCommand)
    | ExtendedTest
  datatype Kind = Read | Write
  /** What may stand before or after a command name; a redirection target can be a substitution. */
  datatype Item =
    | ProcessSubstitution(kind: Kind, list: CompoundList)
    | RedirectSubstitution(kind: Kind, list: CompoundList)
    | OtherItem
  datatype CompoundCommand =
    | If(condition: CompoundList, thenPart: CompoundList, elses: seq<ElseClause>)
    | For(body: CompoundList)
    | ArithmeticFor(body: CompoundList)
    | While(condition: CompoundList, body: CompoundList)
    | Until(condition: CompoundList, body: CompoundList)
    | BraceGroup(list: CompoundList)
    | Subshell(list: CompoundList)
    | Case(cases: seq<CaseItem>)
    | Arithmetic
    | Coprocess(command: Command)
  datatype ElseClause = Elif(condition: CompoundList, body: CompoundList) | Else(body: CompoundList)
  datatype PostAction = ExitCase | FallThrough | KeepMatching
  datatype CaseItem = CaseItem(cmd: CompoundList, postAction: PostAction) | EmptyItem(postAction: PostAction)

  predicate NameChar(c: char) {
    'a' <= c <= 'z' || 'A' <= c <= 'Z' || '0' <= c <= '9' || c in "_-.:%@+"
  }

  predicate Plain(word: string) {
    word != "" && forall i :: 0 <= i < |word| ==> NameChar(word[i])
  }

  function LiteralCommandName(word: string): Option<string> {
    if Plain(word) then Some(word) else None
  }

  // ----- what a script mentions, in the order it is written --------------------------------------

  /** Whether a walk enters substitutions that are redirection targets, bodies of functions, and dead code. */
  datatype Walk = Walk(redirects: bool, bodies: bool, dead: bool)

  /** The collecting walk. */
  const COLLECTED := Walk(false, true, true)
  /** Everything that is not dead. */
  const WHOLE := Walk(true, true, false)
  /** What runs without calling a function. */
  const OWN := Walk(true, false, false)

  datatype Mention = Runs(word: string) | Defines(fname: string)

  function ListMentions(list: CompoundList, walk: Walk): seq<Mention>
    decreases list
  {
    if list == [] then []
    else
      PipelineMentions(list[0].first, walk) + ChainMentions(list[0].additional, walk)
      + ListMentions(list[1..], walk)
  }

  function ChainMentions(additional: seq<AndOr>, walk: Walk): seq<Mention>
    decreases additional
  {
    if additional == [] then []
    else PipelineMentions(additional[0].pipeline, walk) + ChainMentions(additional[1..], walk)
  }

  function PipelineMentions(pipeline: Pipeline, walk: Walk): seq<Mention>
    decreases pipeline
  {
    if pipeline == [] then []
    else CommandMentions(pipeline[0], walk) + PipelineMentions(pipeline[1..], walk)
  }

  function CommandMentions(command: Command, walk: Walk): seq<Mention>
    decreases command
  {
    match command
    case Simple(prefix, word, suffix) =>
      (match word case Some(w) => [Runs(w)] case None => [])
      + ItemMentions(prefix, word.Some?, walk) + ItemMentions(suffix, word.Some?, walk)
    case Compound(compound) => CompoundMentions(compound, walk)
    case Function(fname, body) => [Defines(fname)] + (if walk.bodies then CompoundMentions(body, walk) else [])
    case ExtendedTest => []
  }

  /** A substitution to write to is dead without a command name; redirections are then not opened either. */
  function ItemMentions(items: seq<Item>, named: bool, walk: Walk): seq<Mention>
    decreases items
  {
    if items == [] then []
    else
      (match items[0]
       case ProcessSubstitution(kind, list) =>
         if named || walk.dead || kind.Read? then ListMentions(list, walk) else []
       case RedirectSubstitution(_, list) => if walk.redirects && named then ListMentions(list, walk) else []
       case OtherItem => [])
      + ItemMentions(items[1..], named, walk)
  }

  function CompoundMentions(compound: CompoundCommand, walk: Walk): seq<Mention>
    decreases compound
  {
    match compound
    case If(condition, thenPart, elses) =>
      ListMentions(condition, walk) + ListMentions(thenPart, walk) + ElseMentions(elses, walk)
    case For(body) => ListMentions(body, walk)
    case ArithmeticFor(body) => ListMentions(body, walk)
    case While(condition, body) => ListMentions(condition, walk) + ListMentions(body, walk)
    case Until(condition, body) => ListMentions(condition, walk) + ListMentions(body, walk)
    case BraceGroup(list) => ListMentions(list, walk)
    case Subshell(list) => ListMentions(list, walk)
    case Case(cases) => CaseMentions(cases, walk)
    case Arithmetic => []
    case Coprocess(command) => if walk.dead then CommandMentions(command, walk) else []
  }

  /** Clauses after an else are dead. */
  function ElseMentions(elses: seq<ElseClause>, walk: Walk): seq<Mention>
    decreases elses
  {
    if elses == [] then []
    else
      (match elses[0]
       case Elif(condition, _) => ListMentions(condition, walk)
       case Else(_) => [])
      + ListMentions(elses[0].body, walk)
      + (if elses[0].Elif? || walk.dead then ElseMentions(elses[1..], walk) else [])
  }

  function CaseMentions(cases: seq<CaseItem>, walk: Walk): seq<Mention>
    decreases cases
  {
    if cases == [] then []
    else
      (match cases[0] case CaseItem(list, _) => ListMentions(list, walk) case EmptyItem(_) => [])
      + CaseMentions(cases[1..], walk)
  }

  function ProgramMentions(lists: seq<CompoundList>, walk: Walk): seq<Mention> {
    if lists == [] then [] else ListMentions(lists[0], walk) + ProgramMentions(lists[1..], walk)
  }

  // ----- collecting ---------------------------------------------------------------------------

  function Unique(list: seq<string>, name: string): seq<string> {
    if name in list then list else list + [name]
  }

  datatype Names = Names(commands: seq<string>, definedFunctions: seq<string>)

  function Add(names: Names, mention: Mention): Names {
    match mention
    case Runs(word) =>
      if Plain(word) then names.(commands := Unique(names.commands, word)) else names
    case Defines(fname) =>
      if Plain(fname) then names.(definedFunctions := Unique(names.definedFunctions, fname)) else names
  }

  function AddAll(names: Names, mentions: seq<Mention>): Names
    decreases mentions
  {
    if mentions == [] then names else AddAll(Add(names, mentions[0]), mentions[1..])
  }

  function Collected(program: Program): Names {
    AddAll(Names([], []), ProgramMentions(program.completeCommands, COLLECTED))
  }

  lemma {:induction false} AddAllConcat(names: Names, a: seq<Mention>, b: seq<Mention>)
    ensures AddAll(names, a + b) == AddAll(AddAll(names, a), b)
    decreases |a|
  {
    if a == [] {
      assert a + b == b;
    } else {
      assert (a + b)[1..] == a[1..] + b;
      AddAllConcat(Add(names, a[0]), a[1..], b);
    }
  }

  lemma AddAllThree(names: Names, a: seq<Mention>, b: seq<Mention>, c: seq<Mention>)
    ensures AddAll(names, a + b + c) == AddAll(AddAll(AddAll(names, a), b), c)
  {
    AddAllConcat(names, a + b, c);
    AddAllConcat(names, a, b);
  }

  lemma AddOne(names: Names, mention: Mention)
    ensures AddAll(names, [mention]) == Add(names, mention)
  {
  }

  class CollectedCommands {
    var commands: seq<string>
    var definedFunctions: seq<string>

    constructor ()
      ensures Value() == Names([], [])
    {
      commands, definedFunctions := [], [];
    }

    ghost function Value(): Names
      reads this
    {
      Names(commands, definedFunctions)
    }

    method CollectList(list: CompoundList)
      modifies this
      ensures Value() == AddAll(old(Value()), ListMentions(list, COLLECTED))
      decreases list, 0
    {
      hide AddAll, Add, PipelineMentions;
      for i := 0 to |list|
        invariant AddAll(Value(), ListMentions(list[i..], COLLECTED)) ==
                  AddAll(old(Value()), ListMentions(list, COLLECTED))
      {
        ghost var before := Value();
        var item := list[i];
        assert list[i..][0] == item && list[i..][1..] == list[i + 1..];
        AddAllThree(before, PipelineMentions(item.first, COLLECTED), ChainMentions(item.additional, COLLECTED),
                    ListMentions(list[i + 1..], COLLECTED));
        CollectPipeline(item.first);
        CollectAdditional(item.additional);
      }
      AddNone(Value());
    }

    /** The inner loop over what follows the first pipeline. */
    method CollectAdditional(additional: seq<AndOr>)
      modifies this
      ensures Value() == AddAll(old(Value()), ChainMentions(additional, COLLECTED))
      decreases additional, 0
    {
      hide AddAll, Add, PipelineMentions;
      for i := 0 to |additional|
        invariant AddAll(Value(), ChainMentions(additional[i..], COLLECTED)) ==
                  AddAll(old(Value()), ChainMentions(additional, COLLECTED))
      {
        ghost var before := Value();
        var pipeline := additional[i].pipeline;
        assert additional[i..][0] == additional[i] && additional[i..][1..] == additional[i + 1..];
        AddAllConcat(before, PipelineMentions(pipeline, COLLECTED), ChainMentions(additional[i + 1..], COLLECTED));
        CollectPipeline(pipeline);
      }
      AddNone(Value());
    }

    method CollectPipeline(pipeline: Pipeline)
      modifies this
      ensures Value() == AddAll(old(Value()), PipelineMentions(pipeline, COLLECTED))
      decreases pipeline, 0
    {
      hide AddAll, Add, CommandMentions;
      for i := 0 to |pipeline|
        invariant AddAll(Value(), PipelineMentions(pipeline[i..], COLLECTED)) ==
                  AddAll(old(Value()), PipelineMentions(pipeline, COLLECTED))
      {
        ghost var before := Value();
        assert pipeline[i..][0] == pipeline[i] && pipeline[i..][1..] == pipeline[i + 1..];
        AddAllConcat(before, CommandMentions(pipeline[i], COLLECTED), PipelineMentions(pipeline[i + 1..], COLLECTED));
        CollectCommand(pipeline[i]);
      }
      AddNone(Value());
    }

    method CollectCommand(command: Command)
      modifies this
      ensures Value() == AddAll(old(Value()), CommandMentions(command, COLLECTED))
      decreases command, 1
    {
      match command
      case Simple(_, _, _) => CollectSimpleCommand(command);
      case Compound(compound) => CollectCompoundCommand(compound);
      case Function(fname, body) =>
        AddAllConcat(Value(), [Defines(fname)], CompoundMentions(body, COLLECTED));
        AddOne(Value(), Defines(fname));
        var name := LiteralCommandName(fname);
        if name.Some? {
          definedFunctions := PushUnique(definedFunctions, name.value);
        }
        CollectCompoundCommand(body);
      case ExtendedTest =>
    }

    method PushUnique(list: seq<string>, name: string) returns (longer: seq<string>)
      ensures longer == Unique(list, name)
    {
      longer := list;
      if name !in list {
        longer := longer + [name];
      }
    }

    method CollectSimpleCommand(command: Command)
      requires command.Simple?
      modifies this
      ensures Value() == AddAll(old(Value()), CommandMentions(command, COLLECTED))
      decreases command, 0
    {
      hide AddAll, ListMentions, ItemMentions, CommandMentions, Plain;
      ghost var named := command.word.Some?;
      AddNone(Value());
      if command.word.Some? {
        var name := LiteralCommandName(command.word.value);
        AddOne(Value(), Runs(command.word.value));
        if name.Some? {
          commands := PushUnique(commands, name.value);
        }
      }
      assert Value() == AddAll(old(Value()), if named then [Runs(command.word.value)] else []);
      hide Add;
      var items := command.prefix + command.suffix;
      ghost var start := Value();
      SimpleInParts(old(Value()), command);
      for i := 0 to |items|
        invariant AddAll(Value(), ItemMentions(items[i..], named, COLLECTED)) ==
                  AddAll(start, ItemMentions(items, named, COLLECTED))
      {
        var item := items[i];
        assert item == if i < |command.prefix| then command.prefix[i] else command.suffix[i - |command.prefix|];
        ItemInParts(Value(), items, named, i);
        if item.ProcessSubstitution? {
          CollectList(item.list);
        }
      }
      NoItems(Value(), named);
      assert items[|items|..] == [];
    }

    method CollectCompoundCommand(compound: CompoundCommand)
      modifies this
      ensures Value() == AddAll(old(Value()), CompoundMentions(compound, COLLECTED))
      decreases compound, 0
    {
      hide AddAll, Add, ListMentions;
      match compound
      case If(condition, thenPart, elses) =>
        AddAllThree(Value(), ListMentions(condition, COLLECTED), ListMentions(thenPart, COLLECTED),
                    ElseMentions(elses, COLLECTED));
        CollectList(condition);
        CollectList(thenPart);
        ghost var start := Value();
        for i := 0 to |elses|
          invariant AddAll(Value(), ElseMentions(elses[i..], COLLECTED)) ==
                    AddAll(start, ElseMentions(elses, COLLECTED))
        {
          var clause := elses[i];
          ElseInParts(Value(), elses[i..]);
          assert elses[i..][1..] == elses[i + 1..];
          if clause.Elif? {
            CollectList(clause.condition);
          }
          CollectList(clause.body);
        }
        AddNone(Value());
      case For(body) => CollectList(body);
      case ArithmeticFor(body) => CollectList(body);
      case While(condition, body) =>
        AddAllConcat(Value(), ListMentions(condition, COLLECTED), ListMentions(body, COLLECTED));
        CollectList(condition);
        CollectList(body);
      case Until(condition, body) =>
        AddAllConcat(Value(), ListMentions(condition, COLLECTED), ListMentions(body, COLLECTED));
        CollectList(condition);
        CollectList(body);
      case BraceGroup(list) => CollectList(list);
      case Subshell(list) => CollectList(list);
      case Case(cases) =>
        ghost var start := Value();
        for i := 0 to |cases|
          invariant AddAll(Value(), CaseMentions(cases[i..], COLLECTED)) ==
                    AddAll(start, CaseMentions(cases, COLLECTED))
        {
          assert cases[i..][0] == cases[i] && cases[i..][1..] == cases[i + 1..];
          var rest := CaseMentions(cases[i + 1..], COLLECTED);
          if cases[i].CaseItem? {
            AddAllConcat(Value(), ListMentions(cases[i].cmd, COLLECTED), rest);
            CollectList(cases[i].cmd);
          } else {
            assert [] + rest == rest;
          }
        }
        AddNone(Value());
      case Arithmetic =>
        AddNone(Value());
      case Coprocess(command) =>
        CollectCommand(command);
    }
  }

  lemma AddNone(names: Names)
    ensures AddAll(names, []) == names
  {
  }

  lemma NoItems(names: Names, named: bool)
    ensures AddAll(names, ItemMentions([], named, COLLECTED)) == names
  {
  }

  lemma {:induction false} ItemsConcat(a: seq<Item>, b: seq<Item>, named: bool, walk: Walk)
    ensures ItemMentions(a + b, named, walk) == ItemMentions(a, named, walk) + ItemMentions(b, named, walk)
    decreases |a|
  {
    hide ListMentions;
    if a == [] {
      assert a + b == b;
    } else {
      assert (a + b)[1..] == a[1..] + b;
      ItemsConcat(a[1..], b, named, walk);
    }
  }

  lemma ItemInParts(names: Names, items: seq<Item>, named: bool, i: nat)
    requires i < |items|
    ensures var entered :=
              if items[i].ProcessSubstitution? then AddAll(names, ListMentions(items[i].list, COLLECTED)) else names;
            AddAll(names, ItemMentions(items[i..], named, COLLECTED)) ==
            AddAll(entered, ItemMentions(items[i + 1..], named, COLLECTED))
  {
    hide AddAll, Add, ListMentions;
    var rest := ItemMentions(items[i + 1..], named, COLLECTED);
    assert items[i..][0] == items[i] && items[i..][1..] == items[i + 1..];
    if items[i].ProcessSubstitution? {
      AddAllConcat(names, ListMentions(items[i].list, COLLECTED), rest);
    } else {
      assert [] + rest == rest;
    }
  }

  lemma SimpleInParts(names: Names, command: Command)
    requires command.Simple?
    ensures var named := command.word.Some?;
            AddAll(names, CommandMentions(command, COLLECTED)) ==
            AddAll(AddAll(names, if named then [Runs(command.word.value)] else []),
                   ItemMentions(command.prefix + command.suffix, named, COLLECTED))
  {
    hide AddAll, Add, ItemMentions;
    var named := command.word.Some?;
    var own: seq<Mention> := if named then [Runs(command.word.value)] else [];
    var items := ItemMentions(command.prefix + command.suffix, named, COLLECTED);
    ItemsConcat(command.prefix, command.suffix, named, COLLECTED);
    assert CommandMentions(command, COLLECTED) == own + items;
    AddAllConcat(names, own, items);
  }

  lemma ElseInParts(names: Names, elses: seq<ElseClause>)
    requires elses != []
    ensures var tested :=
              if elses[0].Elif? then AddAll(names, ListMentions(elses[0].condition, COLLECTED)) else names;
            AddAll(names, ElseMentions(elses, COLLECTED)) ==
            AddAll(AddAll(tested, ListMentions(elses[0].body, COLLECTED)), ElseMentions(elses[1..], COLLECTED))
  {
    hide AddAll, Add, ListMentions;
    var first: seq<Mention> := if elses[0].Elif? then ListMentions(elses[0].condition, COLLECTED) else [];
    assert ElseMentions(elses, COLLECTED) ==
      first + ListMentions(elses[0].body, COLLECTED) + ElseMentions(elses[1..], COLLECTED);
    AddAllThree(names, first, ListMentions(elses[0].body, COLLECTED), ElseMentions(elses[1..], COLLECTED));
    AddNone(names);
  }

  method CollectCommands(program: Program) returns (out: CollectedCommands)
    ensures fresh(out) && out.Value() == Collected(program)
  {
    hide AddAll, Add, ListMentions;
    out := new CollectedCommands();
    var lists := program.completeCommands;
    for i := 0 to |lists|
      invariant AddAll(out.Value(), ProgramMentions(lists[i..], COLLECTED)) == Collected(program)
      invariant fresh(out)
    {
      assert lists[i..][0] == lists[i] && lists[i..][1..] == lists[i + 1..];
      AddAllConcat(out.Value(), ListMentions(lists[i], COLLECTED), ProgramMentions(lists[i + 1..], COLLECTED));
      out.CollectList(lists[i]);
    }
    AddNone(out.Value());
  }

  // ----- the analysis ---------------------------------------------------------------------------

  datatype CommandAnalysis = CommandAnalysis(commands: seq<string>, unresolved: seq<string>)

  function Filter(names: seq<string>, keep: string -> bool): (r: seq<string>)
    ensures forall n :: n in r <==> n in names && keep(n)
  {
    if names == [] then []
    else (if keep(names[0]) then [names[0]] else []) + Filter(names[1..], keep)
  }

  function Unresolved(names: Names, resolves: string -> bool): seq<string> {
    Filter(names.commands, name => !resolves(name) && name !in names.definedFunctions)
  }

  /** The instance's own commands, builtins and functions are the parameter `resolves`. */
  method AnalyzeCommands(program: Program, resolves: string -> bool) returns (r: CommandAnalysis)
    ensures r == CommandAnalysis(Collected(program).commands, Unresolved(Collected(program), resolves))
  {
    var collected := CollectCommands(program);
    var names := Names(collected.commands, collected.definedFunctions);
    r := CommandAnalysis(names.commands, Unresolved(names, resolves));
  }
}
