/**
 Runs of a script, and what the static analysis knows about all of them. A run is a machine that
 unfolds pending work; exit statuses, pattern matches, loop counts and errors are left open, so
 every real run is one of these.
 */
module AnalysisRuns {
  import opened Sequences
  import opened Analysis

  // ----- the machine ----------------------------------------------------------------------------

  datatype Work =
    | Perform(list: CompoundList)
    | Chain(additional: seq<AndOr>)
    | Stages(pipeline: Pipeline)
    | Do(command: Command)
    | Body(compound: CompoundCommand)
    | Branch(thenPart: CompoundList, elses: seq<ElseClause>)
    | Clauses(elses: seq<ElseClause>)
    | Repeat(list: CompoundList)
    | Loop(condition: CompoundList, body: CompoundList)
    | Decide(condition: CompoundList, body: CompoundList)
    | Try(cases: seq<CaseItem>)
    | Fall(cases: seq<CaseItem>)
    | Define(fname: string, compound: CompoundCommand)
    | Dispatch(word: string)

  datatype Config = Config(todo: seq<Work>, functions: map<string, CompoundCommand>,
                           dispatched: seq<string>, missed: seq<string>, entered: seq<CompoundCommand>)

  /** The substitutions among `items` of one kind, in order. */
  function Substitutions(items: seq<Item>, kind: Kind, redirects: bool): seq<Work> {
    if items == [] then [] else SubstitutionIn(items[0], kind, redirects) + Substitutions(items[1..], kind, redirects)
  }

  function SubstitutionIn(item: Item, kind: Kind, redirects: bool): seq<Work> {
    match item
    case ProcessSubstitution(k, list) => if k == kind && !redirects then [Perform(list)] else []
    case RedirectSubstitution(k, list) => if k == kind && redirects then [Perform(list)] else []
    case OtherItem => []
  }

  /** Arguments, then redirections, then the command, then what reads its output. */
  function Around(items: seq<Item>, word: string): seq<Work> {
    Substitutions(items, Read, false) + Substitutions(items, Read, true) + [Dispatch(word)]
    + Substitutions(items, Write, true) + Substitutions(items, Write, false)
  }

  function Chosen(item: CaseItem, rest: seq<CaseItem>): seq<Work> {
    (if item.CaseItem? then [Perform(item.cmd)] else [])
    + (match item.postAction
       case ExitCase => []
       case FallThrough => [Fall(rest)]
       case KeepMatching => [Try(rest)])
  }

  /** The ways a piece of work can go on. */
  function Options(w: Work): seq<seq<Work>> {
    match w
    case Perform(list) =>
      if list == [] then [[]]
      else [[Stages(list[0].first), Chain(list[0].additional), Perform(list[1..])]]
    case Chain(additional) =>
      if additional == [] then [[]]
      else [[Stages(additional[0].pipeline), Chain(additional[1..])], [Chain(additional[1..])]]
    case Stages(pipeline) =>
      if pipeline == [] then [[]] else [[Do(pipeline[0]), Stages(pipeline[1..])]]
    case Do(command) => (
      match command
      case Simple(prefix, word, suffix) => (
        match word
        case None => [Substitutions(prefix + suffix, Read, false)]
        case Some(word) =>
          [Around(prefix + suffix, word)]
          + (if Plain(word) then [] else [Substitutions(prefix + suffix, Read, false)]))
      case Compound(compound) => [[Body(compound)]]
      case Function(fname, body) => [[Define(fname, body)]]
      case ExtendedTest => [[]])
    case Body(compound) => (
      match compound
      case If(condition, thenPart, elses) => [[Perform(condition), Branch(thenPart, elses)]]
      case For(body) => [[Repeat(body)]]
      case ArithmeticFor(body) => [[Repeat(body)]]
      case While(condition, body) => [[Loop(condition, body)]]
      case Until(condition, body) => [[Loop(condition, body)]]
      case BraceGroup(list) => [[Perform(list)]]
      case Subshell(list) => [[Perform(list)]]
      case Case(cases) => [[Try(cases)]]
      case Arithmetic => [[]]
      case Coprocess(_) => [[]])
    case Branch(thenPart, elses) => [[Perform(thenPart)], [Clauses(elses)], []]
    case Clauses(elses) => (
      if elses == [] then [[]]
      else match elses[0]
      case Elif(condition, body) => [[Perform(condition), Branch(body, elses[1..])]]
      case Else(body) => [[Perform(body)]])
    case Repeat(list) => [[], [Perform(list), Repeat(list)]]
    case Loop(condition, body) => [[Perform(condition), Decide(condition, body)]]
    case Decide(condition, body) => [[], [Perform(body), Loop(condition, body)]]
    case Try(cases) =>
      if cases == [] then [[]] else [Chosen(cases[0], cases[1..]), [Try(cases[1..])]]
    case Fall(cases) =>
      if cases == [] then [[]] else [Chosen(cases[0], cases[1..])]
    case Define(_, _) => []
    case Dispatch(_) => []
  }

  predicate Unfolds(c: Config, d: Config) {
    c.todo != [] &&
    exists k :: 0 <= k < |Options(c.todo[0])| && d == c.(todo := Options(c.todo[0])[k] + c.todo[1..])
  }

  predicate Defined(c: Config, d: Config) {
    c.todo != [] && c.todo[0].Define? &&
    d == c.(todo := c.todo[1..], functions := c.functions[c.todo[0].fname := c.todo[0].compound])
  }

  predicate Calls(c: Config, d: Config, f: string)
    requires c.todo != [] && f in c.functions
  {
    d.todo == [Body(c.functions[f])] + c.todo[1..] && d.entered == c.entered + [c.functions[f]]
  }

  /** A name that is spelled out runs under that name; any other may run as any function or none. */
  predicate Dispatched(resolves: string -> bool, c: Config, d: Config) {
    c.todo != [] && c.todo[0].Dispatch? &&
    var word := c.todo[0].word;
    && (if Plain(word) then
          && d.dispatched == c.dispatched + [word]
          && d.missed == c.missed + (if resolves(word) || word in c.functions then [] else [word])
        else
          d.dispatched == c.dispatched && d.missed == c.missed)
    && d.functions == c.functions
    && ((d.todo == c.todo[1..] && d.entered == c.entered)
        || (exists f :: f in c.functions && (Plain(word) ==> f == word) && Calls(c, d, f)))
  }

  /** `exit`, `return`, `break`, an error or a limit drops pending work. */
  predicate Drops(c: Config, d: Config) {
    |d.todo| <= |c.todo| && d == c.(todo := c.todo[|c.todo| - |d.todo|..])
  }

  /** Steps other than dropping work. */
  predicate Proceeds(resolves: string -> bool, c: Config, d: Config) {
    Unfolds(c, d) || Defined(c, d) || Dispatched(resolves, c, d)
  }

  predicate Step(resolves: string -> bool, c: Config, d: Config, drops: bool) {
    Proceeds(resolves, c, d) || (drops && Drops(c, d))
  }

  function Lists(lists: seq<CompoundList>): seq<Work> {
    if lists == [] then [] else [Perform(lists[0])] + Lists(lists[1..])
  }

  function Start(program: Program): Config {
    Config(Lists(program.completeCommands), map[], [], [], [])
  }

  predicate IsRun(resolves: string -> bool, run: seq<Config>, drops: bool) {
    |run| > 0 && forall i :: 0 <= i < |run| - 1 ==> Step(resolves, run[i], run[i + 1], drops)
  }

  function Last(run: seq<Config>): Config
    requires run != []
  {
    run[|run| - 1]
  }

  /** Some run dispatches the name. */
  ghost predicate CanDispatch(program: Program, resolves: string -> bool, name: string, drops: bool) {
    exists run :: IsRun(resolves, run, drops) && run[0] == Start(program) && name in Last(run).dispatched
  }

  /** Some run calls a function with this body. */
  ghost predicate CanEnter(program: Program, resolves: string -> bool, body: CompoundCommand, drops: bool) {
    exists run :: IsRun(resolves, run, drops) && run[0] == Start(program) && body in Last(run).entered
  }

  /** Some run dispatches the name when neither the instance nor a defined function answers to it. */
  ghost predicate CanMiss(program: Program, resolves: string -> bool, name: string, drops: bool) {
    exists run :: IsRun(resolves, run, drops) && run[0] == Start(program) && name in Last(run).missed
  }

  // ----- every run dispatches only what the script mentions ---------------------------------------

  /** Dead code is not mentioned. With `bodies`, what a function's body mentions counts where it is defined. */
  function Mentions(w: Work, bodies: bool): seq<Mention> {
    var walk := Walk(true, bodies, false);
    match w
    case Perform(list) => ListMentions(list, walk)
    case Chain(additional) => ChainMentions(additional, walk)
    case Stages(pipeline) => PipelineMentions(pipeline, walk)
    case Do(command) => CommandMentions(command, walk)
    case Body(compound) => CompoundMentions(compound, walk)
    case Branch(thenPart, elses) => ListMentions(thenPart, walk) + ElseMentions(elses, walk)
    case Clauses(elses) => ElseMentions(elses, walk)
    case Repeat(list) => ListMentions(list, walk)
    case Loop(condition, body) => ListMentions(condition, walk) + ListMentions(body, walk)
    case Decide(condition, body) => ListMentions(condition, walk) + ListMentions(body, walk)
    case Try(cases) => CaseMentions(cases, walk)
    case Fall(cases) => CaseMentions(cases, walk)
    case Define(fname, compound) => [Defines(fname)] + (if bodies then CompoundMentions(compound, walk) else [])
    case Dispatch(word) => [Runs(word)]
  }

  predicate Within(ms: seq<Mention>, all: seq<Mention>) {
    forall m :: m in ms ==> m in all
  }

  predicate AllWithin(todo: seq<Work>, all: seq<Mention>, bodies: bool) {
    forall i :: 0 <= i < |todo| ==> Within(Mentions(todo[i], bodies), all)
  }

  /** What the script and the bodies that a run entered mention, outside the functions they define. */
  function Source(lists: seq<CompoundList>, entered: seq<CompoundCommand>): seq<Mention> {
    if entered == [] then ProgramMentions(lists, OWN)
    else Source(lists, entered[..|entered| - 1]) + CompoundMentions(entered[|entered| - 1], OWN)
  }

  ghost predicate Inv(resolves: string -> bool, c: Config, lists: seq<CompoundList>) {
    var all, source := ProgramMentions(lists, WHOLE), Source(lists, c.entered);
    && AllWithin(c.todo, all, true) && AllWithin(c.todo, source, false)
    && (forall f :: f in c.functions ==> Defines(f) in all && Within(CompoundMentions(c.functions[f], WHOLE), all))
    && (forall n :: n in c.dispatched ==> Plain(n) && Runs(n) in all && Runs(n) in source)
    && (forall n :: n in c.missed ==> n in c.dispatched && !resolves(n))
    && (forall b :: b in c.entered ==> Within(CompoundMentions(b, WHOLE), all))
  }

  lemma {:induction false} SubstitutionsWithin(items: seq<Item>, kind: Kind, redirects: bool, named: bool,
                                               all: seq<Mention>, bodies: bool)
    requires Within(ItemMentions(items, named, Walk(true, bodies, false)), all) && (named || (kind.Read? && !redirects))
    ensures AllWithin(Substitutions(items, kind, redirects), all, bodies)
  {
    hide ListMentions;
    if items != [] {
      SubstitutionsWithin(items[1..], kind, redirects, named, all, bodies);
    }
  }

  lemma AroundStaysWithin(items: seq<Item>, word: string, all: seq<Mention>, bodies: bool)
    requires Within(ItemMentions(items, true, Walk(true, bodies, false)), all) && Runs(word) in all
    ensures AllWithin(Around(items, word), all, bodies)
  {
    SubstitutionsWithin(items, Read, false, true, all, bodies);
    SubstitutionsWithin(items, Write, false, true, all, bodies);
    SubstitutionsWithin(items, Read, true, true, all, bodies);
    SubstitutionsWithin(items, Write, true, true, all, bodies);
    hide ListMentions, ItemMentions, Substitutions;
    var first := Substitutions(items, Read, false) + Substitutions(items, Read, true);
    BothWithin(Substitutions(items, Read, false), Substitutions(items, Read, true), all, bodies);
    BothWithin(first, [Dispatch(word)], all, bodies);
    BothWithin(first + [Dispatch(word)], Substitutions(items, Write, true), all, bodies);
    BothWithin(first + [Dispatch(word)] + Substitutions(items, Write, true), Substitutions(items, Write, false),
               all, bodies);
  }

  lemma BothWithin(a: seq<Work>, b: seq<Work>, all: seq<Mention>, bodies: bool)
    requires AllWithin(a, all, bodies) && AllWithin(b, all, bodies)
    ensures AllWithin(a + b, all, bodies)
  {
    hide Mentions, Within;
  }

  lemma CommandStaysWithin(command: Command, k: nat, all: seq<Mention>, bodies: bool)
    requires Within(CommandMentions(command, Walk(true, bodies, false)), all) && k < |Options(Do(command))|
    ensures AllWithin(Options(Do(command))[k], all, bodies)
  {
    hide ListMentions, ItemMentions, Substitutions, CompoundMentions, Plain, Around;
    if command.Simple? {
      var items := command.prefix + command.suffix;
      var named := command.word.Some?;
      ItemsConcat(command.prefix, command.suffix, named, Walk(true, bodies, false));
      SubstitutionsWithin(items, Read, false, named, all, bodies);
      if named {
        assert CommandMentions(command, Walk(true, bodies, false))[0] == Runs(command.word.value);
        AroundStaysWithin(items, command.word.value, all, bodies);
      }
    }
  }

  lemma ListsStayWithin(w: Work, k: nat, all: seq<Mention>, bodies: bool)
    requires w.Perform? || w.Chain? || w.Stages?
    requires Within(Mentions(w, bodies), all) && k < |Options(w)|
    ensures AllWithin(Options(w)[k], all, bodies)
  {
    hide CommandMentions;
  }

  lemma BodyStaysWithin(w: Work, k: nat, all: seq<Mention>, bodies: bool)
    requires w.Body? && Within(Mentions(w, bodies), all) && k < |Options(w)|
    ensures AllWithin(Options(w)[k], all, bodies)
  {
    hide CommandMentions, ListMentions, ElseMentions, CaseMentions;
  }

  lemma CasesStayWithin(w: Work, k: nat, all: seq<Mention>, bodies: bool)
    requires w.Try? || w.Fall?
    requires Within(Mentions(w, bodies), all) && k < |Options(w)|
    ensures AllWithin(Options(w)[k], all, bodies)
  {
    hide ListMentions, CaseMentions, Chosen;
    if w.cases != [] {
      ChosenWithin(w.cases, all, bodies);
    }
  }

  lemma ChosenWithin(cases: seq<CaseItem>, all: seq<Mention>, bodies: bool)
    requires cases != [] && Within(CaseMentions(cases, Walk(true, bodies, false)), all)
    ensures Within(CaseMentions(cases[1..], Walk(true, bodies, false)), all)
    ensures AllWithin(Chosen(cases[0], cases[1..]), all, bodies)
  {
    hide ListMentions, CaseMentions, Mentions, Within, AllWithin;
    var rest := cases[1..];
    CasesOpen(cases, all, bodies);
    WorkMentions(rest, if cases[0].CaseItem? then cases[0].cmd else [], bodies);
    NothingWithin(all, bodies);
    OneWithin(Fall(rest), all, bodies);
    OneWithin(Try(rest), all, bodies);
    var after := match cases[0].postAction
      case ExitCase => []
      case FallThrough => [Fall(rest)]
      case KeepMatching => [Try(rest)];
    if cases[0].CaseItem? {
      OneWithin(Perform(cases[0].cmd), all, bodies);
      BothWithin([Perform(cases[0].cmd)], after, all, bodies);
    } else {
      BothWithin([], after, all, bodies);
    }
  }

  lemma NothingWithin(all: seq<Mention>, bodies: bool)
    ensures AllWithin([], all, bodies)
  {
  }

  lemma WorkMentions(cases: seq<CaseItem>, list: CompoundList, bodies: bool)
    ensures Mentions(Fall(cases), bodies) == Mentions(Try(cases), bodies)
    ensures Mentions(Try(cases), bodies) == CaseMentions(cases, Walk(true, bodies, false))
    ensures Mentions(Perform(list), bodies) == ListMentions(list, Walk(true, bodies, false))
  {
    hide CaseMentions, ListMentions;
  }

  lemma CasesOpen(cases: seq<CaseItem>, all: seq<Mention>, bodies: bool)
    requires cases != [] && Within(CaseMentions(cases, Walk(true, bodies, false)), all)
    ensures Within(CaseMentions(cases[1..], Walk(true, bodies, false)), all)
    ensures cases[0].CaseItem? ==> Within(ListMentions(cases[0].cmd, Walk(true, bodies, false)), all)
  {
    hide ListMentions;
  }

  lemma BranchesStayWithin(w: Work, k: nat, all: seq<Mention>, bodies: bool)
    requires w.Branch? || w.Clauses?
    requires Within(Mentions(w, bodies), all) && k < |Options(w)|
    ensures AllWithin(Options(w)[k], all, bodies)
  {
    hide ListMentions;
  }

  lemma LoopsStayWithin(w: Work, k: nat, all: seq<Mention>, bodies: bool)
    requires w.Repeat? || w.Loop? || w.Decide?
    requires Within(Mentions(w, bodies), all) && k < |Options(w)|
    ensures AllWithin(Options(w)[k], all, bodies)
  {
    hide ListMentions;
  }

  lemma OptionsStayWithin(w: Work, k: nat, all: seq<Mention>, bodies: bool)
    requires Within(Mentions(w, bodies), all) && k < |Options(w)|
    ensures AllWithin(Options(w)[k], all, bodies)
  {
    hide Within, AllWithin, CommandMentions, PipelineMentions, ListMentions, CompoundMentions, Around, Chosen;
    if w.Do? {
      CommandStaysWithin(w.command, k, all, bodies);
    } else if w.Perform? || w.Chain? || w.Stages? {
      ListsStayWithin(w, k, all, bodies);
    } else if w.Body? {
      BodyStaysWithin(w, k, all, bodies);
    } else if w.Try? || w.Fall? {
      CasesStayWithin(w, k, all, bodies);
    } else if w.Branch? || w.Clauses? {
      BranchesStayWithin(w, k, all, bodies);
    } else if w.Repeat? || w.Loop? || w.Decide? {
      LoopsStayWithin(w, k, all, bodies);
    }
  }

  lemma DefinitionWithin(w: Work, all: seq<Mention>)
    requires w.Define? && Within(Mentions(w, true), all)
    ensures Defines(w.fname) in all && Within(CompoundMentions(w.compound, WHOLE), all)
  {
    hide CompoundMentions;
    assert Mentions(w, true)[0] == Defines(w.fname);
  }

  lemma DispatchWithin(w: Work, all: seq<Mention>, bodies: bool)
    requires w.Dispatch? && Within(Mentions(w, bodies), all)
    ensures Runs(w.word) in all
  {
    assert Mentions(w, bodies)[0] == Runs(w.word);
  }

  lemma BodyMentions(compound: CompoundCommand, bodies: bool)
    ensures Mentions(Body(compound), bodies) == CompoundMentions(compound, Walk(true, bodies, false))
  {
    hide CompoundMentions;
  }

  /** Entering a body adds what it mentions to the source. */
  lemma SourceGrows(lists: seq<CompoundList>, entered: seq<CompoundCommand>, body: CompoundCommand)
    ensures Within(Source(lists, entered), Source(lists, entered + [body]))
    ensures Within(CompoundMentions(body, OWN), Source(lists, entered + [body]))
  {
    hide CompoundMentions, ProgramMentions;
    var longer := entered + [body];
    assert longer[..|longer| - 1] == entered;
    assert Source(lists, longer) == Source(lists, entered) + CompoundMentions(body, OWN);
  }

  lemma WithinMore(todo: seq<Work>, all: seq<Mention>, more: seq<Mention>, bodies: bool)
    requires AllWithin(todo, all, bodies) && Within(all, more)
    ensures AllWithin(todo, more, bodies)
  {
    hide Mentions;
  }

  lemma TailWithin(todo: seq<Work>, k: nat, all: seq<Mention>, bodies: bool)
    requires AllWithin(todo, all, bodies) && k <= |todo|
    ensures AllWithin(todo[k..], all, bodies)
  {
    hide Mentions, Within;
  }

  lemma UnfoldKeepsInv(resolves: string -> bool, c: Config, d: Config, lists: seq<CompoundList>)
    requires Inv(resolves, c, lists) && Unfolds(c, d)
    ensures Inv(resolves, d, lists)
  {
    hide Mentions, Options, CompoundMentions, Within, AllWithin, Source, Plain;
    var k :| 0 <= k < |Options(c.todo[0])| && d == c.(todo := Options(c.todo[0])[k] + c.todo[1..]);
    var all, source := ProgramMentions(lists, WHOLE), Source(lists, c.entered);
    FirstWithin(c.todo, all, true);
    FirstWithin(c.todo, source, false);
    OptionsStayWithin(c.todo[0], k, all, true);
    OptionsStayWithin(c.todo[0], k, source, false);
    TailWithin(c.todo, 1, all, true);
    TailWithin(c.todo, 1, source, false);
    BothWithin(Options(c.todo[0])[k], c.todo[1..], all, true);
    BothWithin(Options(c.todo[0])[k], c.todo[1..], source, false);
  }

  lemma FirstWithin(todo: seq<Work>, all: seq<Mention>, bodies: bool)
    requires AllWithin(todo, all, bodies) && todo != []
    ensures Within(Mentions(todo[0], bodies), all)
  {
    hide Mentions, Within;
  }

  lemma DispatchKeepsInv(resolves: string -> bool, c: Config, d: Config, lists: seq<CompoundList>)
    requires Inv(resolves, c, lists) && Dispatched(resolves, c, d)
    ensures Inv(resolves, d, lists)
  {
    hide Mentions, CompoundMentions, Within, AllWithin, Source, ProgramMentions, Plain;
    var all, source := ProgramMentions(lists, WHOLE), Source(lists, c.entered);
    FirstWithin(c.todo, all, true);
    FirstWithin(c.todo, source, false);
    DispatchWithin(c.todo[0], all, true);
    DispatchWithin(c.todo[0], source, false);
    TailWithin(c.todo, 1, all, true);
    TailWithin(c.todo, 1, source, false);
    if !(d.todo == c.todo[1..] && d.entered == c.entered) {
      var f :| f in c.functions && (Plain(c.todo[0].word) ==> f == c.todo[0].word) && Calls(c, d, f);
      CallKeepsInv(c, d, f, lists);
      SourceKeeps(lists, c.entered, c.functions[f]);
    }
  }

  lemma SourceKeeps(lists: seq<CompoundList>, entered: seq<CompoundCommand>, body: CompoundCommand)
    ensures forall m :: m in Source(lists, entered) ==> m in Source(lists, entered + [body])
  {
    hide Source;
    SourceGrows(lists, entered, body);
  }

  lemma CallKeepsInv(c: Config, d: Config, f: string, lists: seq<CompoundList>)
    requires c.todo != [] && f in c.functions && Calls(c, d, f)
    requires Within(CompoundMentions(c.functions[f], WHOLE), ProgramMentions(lists, WHOLE))
    requires AllWithin(c.todo[1..], ProgramMentions(lists, WHOLE), true)
    requires AllWithin(c.todo[1..], Source(lists, c.entered), false)
    ensures AllWithin(d.todo, ProgramMentions(lists, WHOLE), true)
    ensures AllWithin(d.todo, Source(lists, d.entered), false)
  {
    hide Mentions, CompoundMentions, Within, AllWithin, Source, ProgramMentions;
    var body := c.functions[f];
    SourceGrows(lists, c.entered, body);
    WithinMore(c.todo[1..], Source(lists, c.entered), Source(lists, d.entered), false);
    BodyMentions(body, true);
    BodyMentions(body, false);
    OneWithin(Body(body), ProgramMentions(lists, WHOLE), true);
    OneWithin(Body(body), Source(lists, d.entered), false);
    BothWithin([Body(body)], c.todo[1..], ProgramMentions(lists, WHOLE), true);
    BothWithin([Body(body)], c.todo[1..], Source(lists, d.entered), false);
  }

  lemma OneWithin(w: Work, all: seq<Mention>, bodies: bool)
    requires Within(Mentions(w, bodies), all)
    ensures AllWithin([w], all, bodies)
  {
    hide Mentions, Within;
  }

  lemma StepKeepsInv(resolves: string -> bool, c: Config, d: Config, lists: seq<CompoundList>)
    requires Inv(resolves, c, lists) && Step(resolves, c, d, true)
    ensures Inv(resolves, d, lists)
  {
    hide Mentions, Options, CompoundMentions, Within, AllWithin, Source, ProgramMentions, Plain, Unfolds, Dispatched;
    var all, source := ProgramMentions(lists, WHOLE), Source(lists, c.entered);
    if Unfolds(c, d) {
      UnfoldKeepsInv(resolves, c, d, lists);
    } else if Dispatched(resolves, c, d) {
      DispatchKeepsInv(resolves, c, d, lists);
    } else if Defined(c, d) {
      FirstWithin(c.todo, all, true);
      DefinitionWithin(c.todo[0], all);
      TailWithin(c.todo, 1, all, true);
      TailWithin(c.todo, 1, source, false);
    } else {
      TailWithin(c.todo, |c.todo| - |d.todo|, all, true);
      TailWithin(c.todo, |c.todo| - |d.todo|, source, false);
    }
  }

  lemma {:induction false} StartWithin(lists: seq<CompoundList>, all: seq<Mention>, bodies: bool)
    requires Within(ProgramMentions(lists, Walk(true, bodies, false)), all)
    ensures AllWithin(Lists(lists), all, bodies)
  {
    hide ListMentions;
    if lists != [] {
      StartWithin(lists[1..], all, bodies);
    }
  }

  lemma {:induction false} RunKeepsInv(resolves: string -> bool, run: seq<Config>, lists: seq<CompoundList>)
    requires IsRun(resolves, run, true) && Inv(resolves, run[0], lists)
    ensures Inv(resolves, Last(run), lists)
    decreases |run|
  {
    hide Step, Inv;
    if |run| > 1 {
      StepKeepsInv(resolves, run[0], run[1], lists);
      RunKeepsInv(resolves, run[1..], lists);
    }
  }

  // ----- what is collected ------------------------------------------------------------------------

  /** Where a mention first occurs. */
  function First(ms: seq<Mention>, m: Mention): (k: nat)
    ensures k <= |ms| && (k < |ms| <==> m in ms)
  {
    if ms == [] then 0 else if ms[0] == m then 0 else 1 + First(ms[1..], m)
  }

  lemma {:induction false} FirstGrows(ms: seq<Mention>, x: Mention, m: Mention)
    ensures First(ms + [x], m) == if m in ms || m == x then First(ms, m) else |ms| + 1
  {
    if ms != [] {
      assert (ms + [x])[1..] == ms[1..] + [x];
      FirstGrows(ms[1..], x, m);
    }
  }

  /** Each plain name once, in the order of the first mentions. */
  ghost predicate InFirstOrder(names: seq<string>, ms: seq<Mention>, mention: string -> Mention) {
    && (forall n :: n in names <==> Plain(n) && mention(n) in ms)
    && (forall i, j :: 0 <= i < j < |names| ==> First(ms, mention(names[i])) < First(ms, mention(names[j])))
  }

  lemma OldNamesKeepOrder(names: seq<string>, ms: seq<Mention>, x: Mention, mention: string -> Mention)
    requires InFirstOrder(names, ms, mention)
    ensures forall i :: 0 <= i < |names| ==>
              First(ms + [x], mention(names[i])) == First(ms, mention(names[i])) < |ms|
  {
    hide First, Plain;
    forall i | 0 <= i < |names|
      ensures First(ms + [x], mention(names[i])) == First(ms, mention(names[i])) < |ms|
    {
      FirstGrows(ms, x, mention(names[i]));
      assert names[i] in names;
    }
  }

  lemma OtherKeepsOrder(names: seq<string>, ms: seq<Mention>, x: Mention, mention: string -> Mention)
    requires InFirstOrder(names, ms, mention)
    requires forall n :: mention(n) == x ==> !Plain(n) || n in names
    ensures InFirstOrder(names, ms + [x], mention)
  {
    hide First, Plain;
    OldNamesKeepOrder(names, ms, x, mention);
  }

  lemma UniqueKeepsOrder(names: seq<string>, ms: seq<Mention>, word: string, mention: string -> Mention)
    requires InFirstOrder(names, ms, mention) && Plain(word)
    requires forall n :: mention(n) == mention(word) ==> n == word
    ensures InFirstOrder(Unique(names, word), ms + [mention(word)], mention)
  {
    hide First, Plain, InFirstOrder;
    if word in names {
      OtherKeepsOrder(names, ms, mention(word), mention);
    } else {
      NewKeepsOrder(names, ms, word, mention);
    }
  }

  lemma NewKeepsOrder(names: seq<string>, ms: seq<Mention>, word: string, mention: string -> Mention)
    requires InFirstOrder(names, ms, mention) && Plain(word) && word !in names
    requires forall n :: mention(n) == mention(word) ==> n == word
    ensures InFirstOrder(names + [word], ms + [mention(word)], mention)
  {
    hide First, Plain;
    OldNamesKeepOrder(names, ms, mention(word), mention);
    FirstGrows(ms, mention(word), mention(word));
    forall n
      ensures n in names + [word] <==> Plain(n) && mention(n) in ms + [mention(word)]
    {
      MembersGrow(names, word, n);
      MembersGrow(ms, mention(word), mention(n));
    }
  }

  /** The collected names: each once, in the order in which the script first mentions them. */
  lemma {:induction false} CollectsInFirstOrder(ms: seq<Mention>)
    ensures InFirstOrder(AddAll(Names([], []), ms).commands, ms, n => Runs(n))
    ensures InFirstOrder(AddAll(Names([], []), ms).definedFunctions, ms, n => Defines(n))
    decreases |ms|
  {
    if ms != [] {
      var before, x := ms[..|ms| - 1], ms[|ms| - 1];
      assert ms == before + [x];
      CollectsInFirstOrder(before);
      var names := AddAll(Names([], []), before);
      AddAllConcat(Names([], []), before, [x]);
      AddOne(names, x);
      hide AddAll, Plain, InFirstOrder, Unique;
      if x.Runs? && Plain(x.word) {
        UniqueKeepsOrder(names.commands, before, x.word, n => Runs(n));
      } else {
        OtherKeepsOrder(names.commands, before, x, n => Runs(n));
      }
      if x.Defines? && Plain(x.fname) {
        UniqueKeepsOrder(names.definedFunctions, before, x.fname, n => Defines(n));
      } else {
        OtherKeepsOrder(names.definedFunctions, before, x, n => Defines(n));
      }
    }
  }
}
