/**
 Scripts that define functions only on lines of their own, in any order: there the names that runs
 dispatch are read off the text, by following calls from each line through the functions that are
 defined by then.
 */
module AnalysisCalls {
  import opened Sequences
  import opened Analysis
  import opened AnalysisRuns
  import opened AnalysisExact

  datatype Line = FunctionLine(fname: string, body: CompoundCommand) | CommandLine(list: CompoundList)

  function ListOf(line: Line): CompoundList {
    if line.FunctionLine? then [AndOrList([Function(line.fname, line.body)], [])] else line.list
  }

  function ListsOf(lines: seq<Line>): (lists: seq<CompoundList>)
    ensures |lists| == |lines| && forall i :: 0 <= i < |lines| ==> lists[i] == ListOf(lines[i])
  {
    seq(|lines|, i requires 0 <= i < |lines| => ListOf(lines[i]))
  }

  function Script(lines: seq<Line>): Program {
    Program(ListsOf(lines))
  }

  /** The functions defined after these lines; a later definition of the same name wins. */
  function Table(lines: seq<Line>): map<string, CompoundCommand> {
    if lines == [] then map[]
    else
      var last := lines[|lines| - 1];
      var before := Table(lines[..|lines| - 1]);
      if last.FunctionLine? then before[last.fname := last.body] else before
  }

  /** Neither the bodies nor the other lines define functions. */
  ghost predicate Quiet(lines: seq<Line>) {
    forall i :: 0 <= i < |lines| ==> QuietLine(lines[i])
  }

  ghost predicate QuietLine(line: Line) {
    if line.FunctionLine? then OnlyNames(CompoundMentions(line.body, OWN)) else OnlyNames(ListMentions(line.list, OWN))
  }

  predicate DefinedOnce(lines: seq<Line>) {
    forall i, j :: 0 <= i < j < |lines| && lines[i].FunctionLine? && lines[j].FunctionLine? ==>
      lines[i].fname != lines[j].fname
  }

  // ----- calls ----------------------------------------------------------------------------------

  /** Of a word that is not spelled out any function may be meant. */
  ghost predicate MayCall(ms: seq<Mention>, f: string) {
    exists w :: Runs(w) in ms && (Plain(w) ==> w == f)
  }

  function BodyOf(table: map<string, CompoundCommand>, f: string): seq<Mention> {
    if f in table then CompoundMentions(table[f], OWN) else []
  }

  /** Each function on the path is called from the one before, the first from the main part. */
  ghost predicate CallPath(table: map<string, CompoundCommand>, main: seq<Mention>, path: seq<string>) {
    && path != []
    && (forall i :: 0 <= i < |path| ==> path[i] in table)
    && MayCall(main, path[0])
    && forall i :: 0 <= i < |path| - 1 ==> MayCall(BodyOf(table, path[i]), path[i + 1])
  }

  ghost predicate Called(table: map<string, CompoundCommand>, main: seq<Mention>, f: string) {
    exists path :: CallPath(table, main, path) && path[|path| - 1] == f
  }

  /** The mention stands in the main part or in the body of a function that is called. */
  ghost predicate Met(table: map<string, CompoundCommand>, main: seq<Mention>, m: Mention) {
    m in main || exists f :: Called(table, main, f) && m in BodyOf(table, f)
  }

  lemma CalledFurther(table: map<string, CompoundCommand>, main: seq<Mention>, w: string, f: string)
    requires Met(table, main, Runs(w)) && f in table && (Plain(w) ==> w == f)
    ensures Called(table, main, f)
  {
    hide Plain, BodyOf;
    if Runs(w) in main {
      var path := [f];
      assert CallPath(table, main, path);
    } else {
      var g :| Called(table, main, g) && Runs(w) in BodyOf(table, g);
      var path :| CallPath(table, main, path) && path[|path| - 1] == g;
      LongerPath(table, main, path, f);
    }
  }

  lemma LongerPath(table: map<string, CompoundCommand>, main: seq<Mention>, path: seq<string>, f: string)
    requires CallPath(table, main, path) && f in table && MayCall(BodyOf(table, path[|path| - 1]), f)
    ensures Called(table, main, f)
  {
    hide MayCall, BodyOf;
    var longer := path + [f];
    forall i | 0 <= i < |longer| - 1
      ensures MayCall(BodyOf(table, longer[i]), longer[i + 1])
    {
      assert longer[i] == path[i];
    }
    assert CallPath(table, main, longer);
  }

  /** Line `k` leads to the name, through the functions defined before it. */
  ghost predicate ReachedAt(lines: seq<Line>, k: nat, name: string) {
    && k < |lines| && lines[k].CommandLine? && Plain(name)
    && Met(Table(lines[..k]), ListMentions(lines[k].list, OWN), Runs(name))
  }

  ghost predicate ReachedByCalls(lines: seq<Line>, name: string) {
    exists k: nat :: ReachedAt(lines, k, name)
  }

  /** Line `k` leads to the name, which then is neither resolved nor defined. */
  ghost predicate MissedAt(lines: seq<Line>, resolves: string -> bool, k: nat, name: string) {
    ReachedAt(lines, k, name) && !resolves(name) && name !in Table(lines[..k])
  }

  lemma TableGrows(lines: seq<Line>, k: nat)
    requires k < |lines|
    ensures Table(lines[..k + 1]) ==
            if lines[k].FunctionLine? then Table(lines[..k])[lines[k].fname := lines[k].body] else Table(lines[..k])
  {
    assert lines[..k + 1][..k] == lines[..k] && lines[..k + 1][k] == lines[k];
  }

  /** The bodies in the table hold only names. */
  ghost predicate QuietBodies(table: map<string, CompoundCommand>) {
    forall f :: f in table ==> OnlyNames(CompoundMentions(table[f], OWN))
  }

  lemma {:induction false} TableIsQuiet(lines: seq<Line>, k: nat)
    requires Quiet(lines) && k <= |lines|
    ensures QuietBodies(Table(lines[..k]))
  {
    hide CompoundMentions, ListMentions;
    if k > 0 {
      TableIsQuiet(lines, k - 1);
      TableGrows(lines, k - 1);
      assert QuietLine(lines[k - 1]);
    }
  }

  lemma {:induction false} TableDefines(lines: seq<Line>, k: nat, f: string)
    requires k <= |lines| && f in Table(lines[..k])
    ensures exists i :: 0 <= i < k && lines[i].FunctionLine? && lines[i].fname == f
    decreases k
  {
    if k > 0 {
      TableGrows(lines, k - 1);
      if f in Table(lines[..k - 1]) {
        TableDefines(lines, k - 1, f);
      }
    }
  }

  // ----- no run goes beyond the calls -------------------------------------------------------------

  /** Work that only defines the function of the line. */
  predicate Defining(w: Work, line: Line)
    requires line.FunctionLine?
  {
    match w
    case Perform(list) => list == [] || list == ListOf(line)
    case Chain(additional) => additional == []
    case Stages(pipeline) => pipeline == [] || pipeline == [Function(line.fname, line.body)]
    case Do(command) => command == Function(line.fname, line.body)
    case Define(f, body) => f == line.fname && body == line.body
    case _ => false
  }

  predicate Pends(w: Work) {
    match w
    case Perform(list) => list != []
    case Stages(pipeline) => pipeline != []
    case Do(_) => true
    case Define(_, _) => true
    case _ => false
  }

  predicate Pending(ws: seq<Work>) {
    exists i :: 0 <= i < |ws| && Pends(ws[i])
  }

  ghost predicate AllDefining(ws: seq<Work>, line: Line)
    requires line.FunctionLine?
  {
    forall i :: 0 <= i < |ws| ==> Defining(ws[i], line)
  }

  /** All that the work mentions is a name that the text allows. */
  ghost predicate Following(w: Work, table: map<string, CompoundCommand>, main: seq<Mention>) {
    forall m :: m in Mentions(w, false) ==> m.Runs? && Met(table, main, m)
  }

  ghost predicate AllFollowing(ws: seq<Work>, table: map<string, CompoundCommand>, main: seq<Mention>) {
    forall i :: 0 <= i < |ws| ==> Following(ws[i], table, main)
  }

  /** The functions that are defined, up to what `ws` still defines; with drops, some of them. */
  ghost predicate Holds(functions: map<string, CompoundCommand>, ws: seq<Work>, line: Line,
                        table: map<string, CompoundCommand>, drops: bool)
  {
    if drops then forall f :: f in functions ==> f in table && functions[f] == table[f]
    else if line.FunctionLine? && Pending(ws) then functions[line.fname := line.body] == table
    else functions == table
  }

  ghost predicate HistoryOk(lines: seq<Line>, resolves: string -> bool, drops: bool, c: Config) {
    && (forall n :: n in c.dispatched ==> ReachedByCalls(lines, n))
    && (!drops ==> forall n :: n in c.missed ==> exists k: nat :: MissedAt(lines, resolves, k, n))
  }

  /** `ws` is what is left of line `k`, and the lines after it wait. */
  ghost predicate AtLine(lines: seq<Line>, drops: bool, k: nat, ws: seq<Work>, c: Config) {
    && k < |lines| && c.todo == ws + Lists(ListsOf(lines[k + 1..]))
    && (if lines[k].FunctionLine? then AllDefining(ws, lines[k])
        else AllFollowing(ws, Table(lines[..k]), ListMentions(lines[k].list, OWN)))
    && Holds(c.functions, ws, lines[k], Table(lines[..k + 1]), drops)
  }

  lemma FollowingOptions(w: Work, k: nat, table: map<string, CompoundCommand>, main: seq<Mention>)
    requires Following(w, table, main) && k < |Options(w)|
    ensures AllFollowing(Options(w)[k], table, main)
  {
    hide Options, Mentions, Met;
    OptionsStayWithin(w, k, Mentions(w, false), false);
  }

  lemma DefiningOptions(w: Work, k: nat, line: Line)
    requires line.FunctionLine? && Defining(w, line) && k < |Options(w)|
    ensures AllDefining(Options(w)[k], line) && (Pending(Options(w)[k]) <==> Pends(w))
  {
    hide Substitutions, Around, Chosen;
    var ws := Options(w)[k];
    if Pends(w) {
      assert Pends(ws[0]);
    }
  }

  lemma PendingConcat(a: seq<Work>, b: seq<Work>)
    ensures Pending(a + b) <==> Pending(a) || Pending(b)
  {
    hide Pends;
    if i :| 0 <= i < |a| && Pends(a[i]) {
      assert Pends((a + b)[i]);
    }
    if i :| 0 <= i < |b| && Pends(b[i]) {
      assert Pends((a + b)[|a| + i]);
    }
  }

  lemma OwnMention(w: Work)
    ensures w.Define? ==> Defines(w.fname) in Mentions(w, false)
    ensures w.Dispatch? ==> Runs(w.word) in Mentions(w, false)
  {
    if w.Define? || w.Dispatch? {
      assert Mentions(w, false)[0] in Mentions(w, false);
    }
  }

  lemma NeverDefines(w: Work, table: map<string, CompoundCommand>, main: seq<Mention>)
    requires Following(w, table, main)
    ensures !w.Define? && (w.Dispatch? ==> Met(table, main, Runs(w.word)))
  {
    hide Met, Mentions;
    OwnMention(w);
  }

  lemma CalledFollows(table: map<string, CompoundCommand>, main: seq<Mention>, f: string)
    requires QuietBodies(table) && f in table && Called(table, main, f)
    ensures Following(Body(table[f]), table, main)
  {
    hide CompoundMentions, Called;
    BodyMentions(table[f], false);
    forall m | m in CompoundMentions(table[f], OWN)
      ensures m.Runs? && Met(table, main, m)
    {
      assert m in BodyOf(table, f);
    }
  }

  /** Between two lines: the lines from `k` on wait. */
  ghost predicate Between(lines: seq<Line>, drops: bool, k: nat, c: Config) {
    && k <= |lines| && c.todo == Lists(ListsOf(lines[k..]))
    && Agrees(c.functions, Table(lines[..k]), drops)
  }

  ghost predicate Agrees(functions: map<string, CompoundCommand>, table: map<string, CompoundCommand>, drops: bool) {
    if drops then forall f :: f in functions ==> f in table && functions[f] == table[f] else functions == table
  }

  ghost predicate OnTheWay(lines: seq<Line>, drops: bool, c: Config) {
    (exists k: nat :: Between(lines, drops, k, c)) || (exists k: nat, ws :: AtLine(lines, drops, k, ws, c))
  }

  lemma ListsOpen(lines: seq<Line>, k: nat)
    requires k < |lines|
    ensures Lists(ListsOf(lines[k..])) == [Perform(ListOf(lines[k]))] + Lists(ListsOf(lines[k + 1..]))
  {
    hide ListOf;
    assert ListsOf(lines[k..]) == [ListOf(lines[k])] + ListsOf(lines[k + 1..]);
    Prepended(ListOf(lines[k]), ListsOf(lines[k + 1..]));
  }

  lemma {:induction false} ListsDrop(lines: seq<Line>, k: nat, m: nat)
    requires k <= |lines| && m <= |Lists(ListsOf(lines[k..]))|
    ensures k + m <= |lines| && Lists(ListsOf(lines[k..]))[m..] == Lists(ListsOf(lines[k + m..]))
    decreases m
  {
    hide ListOf;
    if k == |lines| {
      assert lines[k..] == [];
    } else {
      ListsOpen(lines, k);
      if m > 0 {
        ListsDrop(lines, k + 1, m - 1);
        var rest := Lists(ListsOf(lines[k + 1..]));
        assert ([Perform(ListOf(lines[k]))] + rest)[m..] == rest[m - 1..];
      }
    }
  }

  lemma FirstFollows(line: Line, table: map<string, CompoundCommand>)
    requires line.CommandLine? && QuietLine(line)
    ensures Following(Perform(line.list), table, ListMentions(line.list, OWN))
  {
    hide ListMentions, Called;
  }

  lemma FirstDefines(line: Line)
    requires line.FunctionLine?
    ensures Defining(Perform(ListOf(line)), line) && Pending([Perform(ListOf(line))])
  {
    assert Pends([Perform(ListOf(line))][0]);
  }

  /** The next line is begun. */
  lemma NextLine(lines: seq<Line>, drops: bool, k: nat, c: Config)
    requires Quiet(lines) && (drops ==> DefinedOnce(lines)) && k < |lines| && Between(lines, drops, k, c)
    ensures AtLine(lines, drops, k, [Perform(ListOf(lines[k]))], c)
  {
    hide Following, Defining, Lists, ListOf, ListsOf, Table, QuietLine, Pending;
    var line := lines[k];
    ListsOpen(lines, k);
    TableGrows(lines, k);
    assert QuietLine(line);
    if line.FunctionLine? {
      FirstDefines(line);
      if drops {
        AgreesFurther(lines, k, k + 1, c.functions);
      }
    } else {
      FirstFollows(line, Table(lines[..k]));
      assert ListOf(line) == line.list by {
        ListOfCommands(line);
      }
    }
  }

  lemma ListOfCommands(line: Line)
    requires line.CommandLine?
    ensures ListOf(line) == line.list
  {
  }

  /** Where each function is defined once, later definitions change none. */
  lemma {:induction false} AgreesFurther(lines: seq<Line>, i: nat, k: nat, functions: map<string, CompoundCommand>)
    requires DefinedOnce(lines) && i <= k <= |lines| && Agrees(functions, Table(lines[..i]), true)
    ensures Agrees(functions, Table(lines[..k]), true)
    decreases k
  {
    hide Table;
    if i < k {
      AgreesFurther(lines, i, k - 1, functions);
      TableGrows(lines, k - 1);
      if lines[k - 1].FunctionLine? && lines[k - 1].fname in Table(lines[..k - 1]) {
        TableDefines(lines, k - 1, lines[k - 1].fname);
        assert false;
      }
    }
  }

  lemma DefinitionStep(lines: seq<Line>, resolves: string -> bool, drops: bool, k: nat, ws: seq<Work>, c: Config,
                       d: Config) returns (next: seq<Work>)
    requires AtLine(lines, drops, k, ws, c) && lines[k].FunctionLine? && ws != [] && Proceeds(resolves, c, d)
    ensures AtLine(lines, drops, k, next, d) && d.dispatched == c.dispatched && d.missed == c.missed
  {
    hide Options, Defining, Lists, ListsOf, Table, Pending, Plain, ListMentions;
    var line, rest := lines[k], Lists(ListsOf(lines[k + 1..]));
    TailOfConcat(ws, rest);
    TableGrows(lines, k);
    HeadAndTail(ws);
    PendingConcat([ws[0]], ws[1..]);
    PendingOne(ws[0]);
    OnlyDefines(ws[0], line);
    if Unfolds(c, d) {
      var n :| 0 <= n < |Options(ws[0])| && d == c.(todo := Options(ws[0])[n] + c.todo[1..]);
      next := Options(ws[0])[n] + ws[1..];
      DefiningOptions(ws[0], n, line);
      PendingConcat(Options(ws[0])[n], ws[1..]);
      Associates(Options(ws[0])[n], ws[1..], rest);
    } else {
      next := ws[1..];
    }
  }

  lemma PendingOne(w: Work)
    ensures Pending([w]) <==> Pends(w)
  {
    hide Pends;
    assert [w][0] == w;
  }

  lemma OnlyDefines(w: Work, line: Line)
    requires line.FunctionLine? && Defining(w, line)
    ensures !w.Dispatch? && (w.Define? ==> w.fname == line.fname && w.compound == line.body && Pends(w))
  {
  }

  lemma CommandStep(lines: seq<Line>, resolves: string -> bool, drops: bool, k: nat, ws: seq<Work>, c: Config,
                    d: Config) returns (next: seq<Work>)
    requires Quiet(lines) && AtLine(lines, drops, k, ws, c) && lines[k].CommandLine? && ws != []
    requires Proceeds(resolves, c, d) && HistoryOk(lines, resolves, drops, c)
    ensures AtLine(lines, drops, k, next, d) && HistoryOk(lines, resolves, drops, d)
  {
    hide Options, Following, Lists, ListsOf, Table, Plain, ListMentions, Met, MissedAt, ReachedAt, Dispatched;
    var rest := Lists(ListsOf(lines[k + 1..]));
    TailOfConcat(ws, rest);
    TableGrows(lines, k);
    NeverDefines(ws[0], Table(lines[..k]), ListMentions(lines[k].list, OWN));
    if Unfolds(c, d) {
      var n :| 0 <= n < |Options(ws[0])| && d == c.(todo := Options(ws[0])[n] + c.todo[1..]);
      next := Options(ws[0])[n] + ws[1..];
      FollowingOptions(ws[0], n, Table(lines[..k]), ListMentions(lines[k].list, OWN));
      Associates(Options(ws[0])[n], ws[1..], rest);
    } else {
      assert Dispatched(resolves, c, d);
      next := DispatchStepOn(lines, resolves, drops, k, ws, c, d);
    }
  }

  lemma DispatchStepOn(lines: seq<Line>, resolves: string -> bool, drops: bool, k: nat, ws: seq<Work>, c: Config,
                       d: Config) returns (next: seq<Work>)
    requires Quiet(lines) && AtLine(lines, drops, k, ws, c) && lines[k].CommandLine? && ws != []
    requires Dispatched(resolves, c, d) && HistoryOk(lines, resolves, drops, c)
    ensures AtLine(lines, drops, k, next, d) && HistoryOk(lines, resolves, drops, d)
  {
    hide Following, Lists, ListsOf, Table, Plain, ListMentions, Met, Called, QuietBodies, Quiet;
    var table, main, rest := Table(lines[..k]), ListMentions(lines[k].list, OWN), Lists(ListsOf(lines[k + 1..]));
    var word := c.todo[0].word;
    TailOfConcat(ws, rest);
    TableGrows(lines, k);
    TableIsQuiet(lines, k);
    NeverDefines(ws[0], table, main);
    if Plain(word) {
      assert ReachedAt(lines, k, word);
      if !resolves(word) && word !in c.functions && !drops {
        assert MissedAt(lines, resolves, k, word);
      }
    }
    if d.todo == c.todo[1..] && d.entered == c.entered {
      next := ws[1..];
    } else {
      var f :| f in c.functions && (Plain(word) ==> f == word) && Calls(c, d, f);
      CalledFurther(table, main, word, f);
      CalledFollows(table, main, f);
      next := [Body(c.functions[f])] + ws[1..];
      Associates([Body(c.functions[f])], ws[1..], rest);
    }
  }

  lemma DropStep(lines: seq<Line>, c: Config, d: Config)
    requires DefinedOnce(lines) && OnTheWay(lines, true, c) && Drops(c, d)
    ensures OnTheWay(lines, true, d)
  {
    hide Between, AtLine, DefinedOnce, Drops;
    if k: nat :| Between(lines, true, k, c) {
      DropBetween(lines, k, c, d);
    } else {
      var k: nat, ws :| AtLine(lines, true, k, ws, c);
      DropAtLine(lines, k, ws, c, d);
    }
  }

  lemma DropBetween(lines: seq<Line>, k: nat, c: Config, d: Config)
    requires DefinedOnce(lines) && Between(lines, true, k, c) && Drops(c, d)
    ensures OnTheWay(lines, true, d)
  {
    hide AtLine, Lists, ListsOf, Table, DefinedOnce, Agrees;
    var m := |c.todo| - |d.todo|;
    ListsDrop(lines, k, m);
    AgreesFurther(lines, k, k + m, c.functions);
    assert Between(lines, true, k + m, d);
  }

  lemma DropAtLine(lines: seq<Line>, k: nat, ws: seq<Work>, c: Config, d: Config)
    requires DefinedOnce(lines) && AtLine(lines, true, k, ws, c) && Drops(c, d)
    ensures OnTheWay(lines, true, d)
  {
    hide Following, Defining, Lists, ListsOf, Table, DefinedOnce, Agrees;
    var m := |c.todo| - |d.todo|;
    TailOfDrop(ws, Lists(ListsOf(lines[k + 1..])), m);
    if m <= |ws| {
      assert AtLine(lines, true, k, ws[m..], d);
    } else {
      HoldsAgrees(lines, k, ws, c);
      ListsDrop(lines, k + 1, m - |ws|);
      AgreesFurther(lines, k + 1, k + 1 + (m - |ws|), c.functions);
      assert Between(lines, true, k + 1 + (m - |ws|), d);
    }
  }

  lemma HoldsAgrees(lines: seq<Line>, k: nat, ws: seq<Work>, c: Config)
    requires AtLine(lines, true, k, ws, c)
    ensures Agrees(c.functions, Table(lines[..k + 1]), true)
  {
    hide Following, Defining, Lists, ListsOf, Table;
  }

  lemma TailOfDrop(a: seq<Work>, b: seq<Work>, m: nat)
    requires m <= |a| + |b|
    ensures (a + b)[m..] == if m <= |a| then a[m..] + b else b[m - |a|..]
  {
  }

  lemma LineEnds(lines: seq<Line>, drops: bool, k: nat, c: Config)
    requires AtLine(lines, drops, k, [], c)
    ensures Between(lines, drops, k + 1, c)
  {
    hide Following, Defining, Lists, ListsOf, Table;
    assert [] + Lists(ListsOf(lines[k + 1..])) == Lists(ListsOf(lines[k + 1..]));
  }

  lemma ProceedStep(lines: seq<Line>, resolves: string -> bool, drops: bool, k: nat, ws: seq<Work>, c: Config,
                    d: Config)
    requires Quiet(lines) && AtLine(lines, drops, k, ws, c) && ws != []
    requires Proceeds(resolves, c, d) && HistoryOk(lines, resolves, drops, c)
    ensures OnTheWay(lines, drops, d) && HistoryOk(lines, resolves, drops, d)
  {
    hide Proceeds, AtLine, Quiet, MissedAt, ReachedByCalls;
    assert k < |lines| by {
      LineInRange(lines, drops, k, ws, c);
    }
    if lines[k].FunctionLine? {
      var next := DefinitionStep(lines, resolves, drops, k, ws, c, d);
    } else {
      var next := CommandStep(lines, resolves, drops, k, ws, c, d);
    }
  }

  lemma LineInRange(lines: seq<Line>, drops: bool, k: nat, ws: seq<Work>, c: Config)
    requires AtLine(lines, drops, k, ws, c)
    ensures k < |lines|
  {
  }

  lemma StepStays(lines: seq<Line>, resolves: string -> bool, drops: bool, c: Config, d: Config)
    requires Quiet(lines) && (drops ==> DefinedOnce(lines)) && Step(resolves, c, d, drops)
    requires OnTheWay(lines, drops, c) && HistoryOk(lines, resolves, drops, c)
    ensures OnTheWay(lines, drops, d) && HistoryOk(lines, resolves, drops, d)
  {
    hide Proceeds, AtLine, Quiet, DefinedOnce, Between;
    if !Proceeds(resolves, c, d) {
      DropStep(lines, c, d);
    } else {
      var k, ws := BeginLine(lines, resolves, drops, c, d);
      ProceedStep(lines, resolves, drops, k, ws, c, d);
    }
  }

  /** Where something is left to do, a line is begun. */
  lemma BeginLine(lines: seq<Line>, resolves: string -> bool, drops: bool, c: Config, d: Config)
    returns (k: nat, ws: seq<Work>)
    requires Quiet(lines) && (drops ==> DefinedOnce(lines)) && Proceeds(resolves, c, d) && OnTheWay(lines, drops, c)
    ensures AtLine(lines, drops, k, ws, c) && ws != []
  {
    hide AtLine, Quiet, DefinedOnce, Between, Options, Dispatched;
    assert c.todo != [] by {
      SomethingToDo(resolves, c, d);
    }
    var n: nat := 0;
    if m: nat, us :| AtLine(lines, drops, m, us, c) {
      if us != [] {
        return m, us;
      }
      LineEnds(lines, drops, m, c);
      n := m + 1;
    } else {
      n :| Between(lines, drops, n, c);
    }
    NotAtEnd(lines, drops, n, c);
    NextLine(lines, drops, n, c);
    k, ws := n, [Perform(ListOf(lines[n]))];
  }

  lemma SomethingToDo(resolves: string -> bool, c: Config, d: Config)
    requires Proceeds(resolves, c, d)
    ensures c.todo != []
  {
    hide Options, Plain;
  }

  lemma NotAtEnd(lines: seq<Line>, drops: bool, k: nat, c: Config)
    requires Between(lines, drops, k, c) && c.todo != []
    ensures k < |lines|
  {
    hide Table;
    NoneLeft(lines);
  }

  lemma NoneLeft(lines: seq<Line>)
    ensures Lists(ListsOf(lines[|lines|..])) == []
  {
    assert lines[|lines|..] == [];
  }

  lemma {:induction false} RunStays(lines: seq<Line>, resolves: string -> bool, drops: bool, run: seq<Config>)
    requires Quiet(lines) && (drops ==> DefinedOnce(lines)) && IsRun(resolves, run, drops)
    requires OnTheWay(lines, drops, run[0]) && HistoryOk(lines, resolves, drops, run[0])
    ensures HistoryOk(lines, resolves, drops, Last(run))
    decreases |run|
  {
    hide Step, OnTheWay, HistoryOk, Quiet, DefinedOnce;
    if |run| > 1 {
      StepStays(lines, resolves, drops, run[0], run[1]);
      RunStays(lines, resolves, drops, run[1..]);
    }
  }

  lemma StartsBetween(lines: seq<Line>, resolves: string -> bool, drops: bool)
    ensures OnTheWay(lines, drops, Start(Script(lines))) && HistoryOk(lines, resolves, drops, Start(Script(lines)))
  {
    hide Lists, ListsOf, AtLine;
    assert lines[0..] == lines && lines[..0] == [];
    assert Between(lines, drops, 0, Start(Script(lines)));
  }

  // ----- every call can be made ---------------------------------------------------------------------

  /** The head of the work is replaced by its only option. */
  lemma Onward(resolves: string -> bool, from: Config, w: Work, c: Config, next: seq<Work>)
    requires Reaches(resolves, from, With([w], c)) && Options(w) == [next]
    ensures Reaches(resolves, from, With(next, c))
  {
    hide Reaches, Options;
    StepsTo(resolves, w, 0, c);
    ReachOn(resolves, from, With([w], c), With(next, c));
  }

  lemma Regroup(a: seq<Work>, b: seq<Work>, c: Config)
    ensures With(a + b, c) == With(a, With(b, c))
  {
    Associates(a, b, c.todo);
  }

  lemma OptionsOfLine(line: Line)
    requires line.FunctionLine?
    ensures var f := Function(line.fname, line.body);
            && Options(Perform(ListOf(line))) == [[Stages([f]), Chain([]), Perform([])]]
            && Options(Stages([f])) == [[Do(f), Stages([])]]
            && Options(Do(f)) == [[Define(line.fname, line.body)]]
    ensures Options(Stages([])) == [[]] && Options(Chain([])) == [[]] && Options(Perform([])) == [[]]
  {
    hide Substitutions, Around, Plain, Chosen;
    assert ListOf(line)[1..] == [] && [Function(line.fname, line.body)][1..] == [];
  }

  /** Work that defines a function, up to where it does. */
  lemma LineOpens(resolves: string -> bool, line: Line, c: Config)
    requires line.FunctionLine?
    ensures Reaches(resolves, With([Perform(ListOf(line))], c),
                    With([Define(line.fname, line.body)], With([Stages([]), Chain([]), Perform([])], c)))
  {
    hide Reaches, Options, ListOf;
    OptionsOfLine(line);
    var f := Function(line.fname, line.body);
    var start, rest := With([Perform(ListOf(line))], c), With([Chain([]), Perform([])], c);
    ReachSelf(resolves, start);
    Onward(resolves, start, Perform(ListOf(line)), c, [Stages([f]), Chain([]), Perform([])]);
    assert [Stages([f])] + [Chain([]), Perform([])] == [Stages([f]), Chain([]), Perform([])];
    Regroup([Stages([f])], [Chain([]), Perform([])], c);
    Onward(resolves, start, Stages([f]), rest, [Do(f), Stages([])]);
    assert [Do(f)] + [Stages([])] == [Do(f), Stages([])];
    Regroup([Do(f)], [Stages([])], rest);
    Onward(resolves, start, Do(f), With([Stages([])], rest), [Define(line.fname, line.body)]);
    assert [Stages([])] + [Chain([]), Perform([])] == [Stages([]), Chain([]), Perform([])];
    Regroup([Stages([])], [Chain([]), Perform([])], c);
  }

  /** Nothing is left of a line after its definition. */
  lemma LineCloses(resolves: string -> bool, line: Line, c: Config)
    requires line.FunctionLine?
    ensures Reaches(resolves, With([Stages([]), Chain([]), Perform([])], c), c)
  {
    hide Reaches, Options, ListOf;
    OptionsOfLine(line);
    var start := With([Stages([]), Chain([]), Perform([])], c);
    assert [Stages([])] + [Chain([]), Perform([])] == [Stages([]), Chain([]), Perform([])];
    assert [Chain([])] + [Perform([])] == [Chain([]), Perform([])];
    Regroup([Stages([])], [Chain([]), Perform([])], c);
    Regroup([Chain([])], [Perform([])], c);
    WithNothing(With([Chain([]), Perform([])], c));
    WithNothing(With([Perform([])], c));
    WithNothing(c);
    ReachSelf(resolves, start);
    Onward(resolves, start, Stages([]), With([Chain([]), Perform([])], c), []);
    Onward(resolves, start, Chain([]), With([Perform([])], c), []);
    Onward(resolves, start, Perform([]), c, []);
  }

  lemma WithNothing(c: Config)
    ensures With([], c) == c
  {
  }

  /** One definition is carried out. */
  lemma DefinitionRuns(resolves: string -> bool, line: Line, c: Config)
    requires line.FunctionLine?
    ensures Reaches(resolves, With([Perform(ListOf(line))], c), c.(functions := c.functions[line.fname := line.body]))
  {
    hide Reaches, ListOf;
    var start, e := With([Perform(ListOf(line))], c), c.(functions := c.functions[line.fname := line.body]);
    var rest := [Stages([]), Chain([]), Perform([])];
    LineOpens(resolves, line, c);
    var from := With([Define(line.fname, line.body)], With(rest, c));
    assert from.todo[1..] == rest + c.todo;
    assert Defined(from, With(rest, e));
    ReachStep(resolves, from, With(rest, e));
    ReachOn(resolves, start, from, With(rest, e));
    LineCloses(resolves, line, e);
    ReachOn(resolves, start, With(rest, e), e);
  }

  /** Only the functions of the table. */
  function Exactly(table: map<string, CompoundCommand>): Allowed {
    (functions: map<string, CompoundCommand>) => functions == table
  }

  lemma OnlyNamesKnown(ok: Allowed, ms: seq<Mention>)
    requires OnlyNames(ms)
    ensures Knows(ok, ms)
  {
  }

  /** A run comes to where line `k` is next. */
  lemma {:induction false} ComesToLine(lines: seq<Line>, resolves: string -> bool, k: nat) returns (c: Config)
    requires Quiet(lines) && k <= |lines|
    ensures Reaches(resolves, Start(Script(lines)), c)
    ensures c.todo == Lists(ListsOf(lines[k..])) && c.functions == Table(lines[..k])
  {
    hide Reaches, Table, Lists, ListOf, ListsOf, QuietLine, Quiet;
    if k == 0 {
      c := Start(Script(lines));
      ReachSelf(resolves, c);
      assert lines[0..] == lines && lines[..0] == [];
      NoTable();
    } else {
      var b := ComesToLine(lines, resolves, k - 1);
      ListsOpen(lines, k - 1);
      var rest := b.(todo := Lists(ListsOf(lines[k..])));
      assert b == With([Perform(ListOf(lines[k - 1]))], rest);
      TableGrows(lines, k - 1);
      if lines[k - 1].FunctionLine? {
        DefinitionRuns(resolves, lines[k - 1], rest);
        c := rest.(functions := rest.functions[lines[k - 1].fname := lines[k - 1].body]);
      } else {
        c := LinePasses(lines, resolves, k - 1, rest);
      }
      ReachOn(resolves, Start(Script(lines)), b, c);
    }
  }

  lemma NoTable()
    ensures Table([]) == map[]
  {
  }

  lemma LinePerforms(lines: seq<Line>, resolves: string -> bool, k: nat, table: map<string, CompoundCommand>)
    requires Quiet(lines) && k < |lines| && lines[k].CommandLine?
    ensures Performs(resolves, Exactly(table), [Perform(ListOf(lines[k]))], ListMentions(lines[k].list, OWN))
  {
    hide Performs, ListMentions;
    assert QuietLine(lines[k]);
    OnlyNamesKnown(Exactly(table), ListMentions(lines[k].list, OWN));
    ListPerforms(resolves, Exactly(table), lines[k].list);
  }

  lemma LinePasses(lines: seq<Line>, resolves: string -> bool, k: nat, c: Config) returns (d: Config)
    requires Quiet(lines) && k < |lines| && lines[k].CommandLine?
    ensures Reaches(resolves, With([Perform(ListOf(lines[k]))], c), d)
    ensures d.todo == c.todo && d.functions == c.functions
  {
    hide Reaches, ListOf, Meets, Quiet;
    var ws := [Perform(ListOf(lines[k]))];
    LinePerforms(lines, resolves, k, c.functions);
    assert Past(resolves, Exactly(c.functions), ws, c);
    d :| Reaches(resolves, With(ws, c), d) && d.todo == c.todo && Exactly(c.functions)(d.functions);
  }

  /** At the words of line `k`, with the functions defined before it. */
  ghost predicate Ready(lines: seq<Line>, resolves: string -> bool, k: nat, c: Config) {
    && k <= |lines| && Reaches(resolves, Start(Script(lines)), c) && c.functions == Table(lines[..k])
  }

  /** From work that performs its mentions a run comes to each of them. */
  lemma ComesTo(lines: seq<Line>, resolves: string -> bool, k: nat, ws: seq<Work>, ms: seq<Mention>, c: Config,
                word: string)
    returns (d: Config)
    requires Ready(lines, resolves, k, With(ws, c))
    requires Performs(resolves, Exactly(Table(lines[..k])), ws, ms) && Runs(word) in ms
    ensures Ready(lines, resolves, k, d) && Dispatches(d, word)
  {
    hide Reaches, Table, Past;
    var ok := Exactly(Table(lines[..k]));
    assert ok(c.functions);
    assert Meets(resolves, ok, ws, c, word);
    d :| Reaches(resolves, With(ws, c), d) && Dispatches(d, word) && ok(d.functions);
    ReachOn(resolves, Start(Script(lines)), With(ws, c), d);
  }

  /** A run comes to each name in line `k`. */
  lemma LineComesTo(lines: seq<Line>, resolves: string -> bool, k: nat, word: string) returns (d: Config)
    requires Quiet(lines) && k < |lines| && lines[k].CommandLine? && Runs(word) in ListMentions(lines[k].list, OWN)
    ensures Ready(lines, resolves, k, d) && Dispatches(d, word)
  {
    hide Reaches, Performs, Table, ListMentions, Lists, ListsOf, ListOf, Quiet;
    var c := ComesToLine(lines, resolves, k);
    ListsOpen(lines, k);
    var rest := c.(todo := Lists(ListsOf(lines[k + 1..])));
    assert c == With([Perform(ListOf(lines[k]))], rest);
    LinePerforms(lines, resolves, k, Table(lines[..k]));
    d := ComesTo(lines, resolves, k, [Perform(ListOf(lines[k]))], ListMentions(lines[k].list, OWN), rest, word);
  }

  /** A run calls `f` from line `k`. */
  ghost predicate Enters(lines: seq<Line>, resolves: string -> bool, k: nat, f: string, c: Config) {
    && Ready(lines, resolves, k, c)
    && f in Table(lines[..k]) && c.todo != [] && c.todo[0] == Body(Table(lines[..k])[f])
  }

  lemma CallsFrom(lines: seq<Line>, resolves: string -> bool, k: nat, word: string, f: string, c: Config)
    returns (d: Config)
    requires Ready(lines, resolves, k, c) && Dispatches(c, word)
    requires f in Table(lines[..k]) && (Plain(word) ==> word == f)
    ensures Enters(lines, resolves, k, f, d)
  {
    hide Reaches, Plain, Table;
    var body := Table(lines[..k])[f];
    var missed := if resolves(word) || word in c.functions then [] else [word];
    d := Config([Body(body)] + c.todo[1..], c.functions,
                if Plain(word) then c.dispatched + [word] else c.dispatched,
                if Plain(word) then c.missed + missed else c.missed,
                c.entered + [body]);
    assert Calls(c, d, f);
    assert Dispatched(resolves, c, d);
    ReachStep(resolves, c, d);
    ReachOn(resolves, Start(Script(lines)), c, d);
  }

  /** From where `f` is entered a run comes to each name in its body. */
  lemma BodyComesTo(lines: seq<Line>, resolves: string -> bool, k: nat, f: string, c: Config, word: string)
    returns (d: Config)
    requires Quiet(lines) && Enters(lines, resolves, k, f, c) && Runs(word) in BodyOf(Table(lines[..k]), f)
    ensures Ready(lines, resolves, k, d) && Dispatches(d, word)
  {
    hide Reaches, Performs, Table, CompoundMentions, Quiet;
    var body := Table(lines[..k])[f];
    TableIsQuiet(lines, k);
    OnlyNamesKnown(Exactly(Table(lines[..k])), CompoundMentions(body, OWN));
    CompoundPerforms(resolves, Exactly(Table(lines[..k])), body);
    var before := c.(todo := c.todo[1..]);
    assert With([Body(body)], before) == c;
    d := ComesTo(lines, resolves, k, [Body(body)], CompoundMentions(body, OWN), before, word);
  }

  lemma {:induction false} PathIsRun(lines: seq<Line>, resolves: string -> bool, k: nat, path: seq<string>)
    returns (c: Config)
    requires Quiet(lines) && k < |lines| && lines[k].CommandLine?
    requires CallPath(Table(lines[..k]), ListMentions(lines[k].list, OWN), path)
    ensures Enters(lines, resolves, k, path[|path| - 1], c)
    decreases |path|
  {
    hide Enters, Ready, Table, ListMentions, BodyOf, Plain, Quiet;
    var n := |path| - 1;
    if n == 0 {
      var w :| Runs(w) in ListMentions(lines[k].list, OWN) && (Plain(w) ==> w == path[0]);
      c := LineComesTo(lines, resolves, k, w);
      c := CallsFrom(lines, resolves, k, w, path[0], c);
    } else {
      c := PathIsRun(lines, resolves, k, path[..n]);
      assert MayCall(BodyOf(Table(lines[..k]), path[n - 1]), path[n - 1 + 1]);
      var w :| Runs(w) in BodyOf(Table(lines[..k]), path[n - 1]) && (Plain(w) ==> w == path[n]);
      c := BodyComesTo(lines, resolves, k, path[n - 1], c, w);
      c := CallsFrom(lines, resolves, k, w, path[n], c);
    }
  }

  /** Whatever a line leads to by calls, a run comes to. */
  lemma MetIsRun(lines: seq<Line>, resolves: string -> bool, k: nat, word: string) returns (d: Config)
    requires Quiet(lines) && k < |lines| && lines[k].CommandLine?
    requires Met(Table(lines[..k]), ListMentions(lines[k].list, OWN), Runs(word))
    ensures Ready(lines, resolves, k, d) && Dispatches(d, word)
  {
    hide Enters, Ready, Table, ListMentions, BodyOf, Quiet, MayCall;
    var table, main := Table(lines[..k]), ListMentions(lines[k].list, OWN);
    if Runs(word) in main {
      d := LineComesTo(lines, resolves, k, word);
    } else {
      var f :| Called(table, main, f) && Runs(word) in BodyOf(table, f);
      var path :| CallPath(table, main, path) && path[|path| - 1] == f;
      var c := PathIsRun(lines, resolves, k, path);
      d := BodyComesTo(lines, resolves, k, f, c, word);
    }
  }

  // ----- the theorems -----------------------------------------------------------------------------------

  lemma RunsStayInCalls(lines: seq<Line>, resolves: string -> bool, name: string, drops: bool)
    requires Quiet(lines) && (drops ==> DefinedOnce(lines))
    ensures CanDispatch(Script(lines), resolves, name, drops) ==> ReachedByCalls(lines, name)
    ensures !drops && CanMiss(Script(lines), resolves, name, drops) ==>
              exists k: nat :: MissedAt(lines, resolves, k, name)
  {
    hide Step, Quiet, DefinedOnce, Start, Script, OnTheWay, MissedAt, ReachedByCalls;
    StartsBetween(lines, resolves, drops);
    if CanDispatch(Script(lines), resolves, name, drops) {
      var run :| IsRun(resolves, run, drops) && run[0] == Start(Script(lines)) && name in Last(run).dispatched;
      RunStays(lines, resolves, drops, run);
    }
    if !drops && CanMiss(Script(lines), resolves, name, drops) {
      var run :| IsRun(resolves, run, drops) && run[0] == Start(Script(lines)) && name in Last(run).missed;
      RunStays(lines, resolves, drops, run);
    }
  }

  lemma CallsCanRun(lines: seq<Line>, resolves: string -> bool, k: nat, name: string)
    requires Quiet(lines) && ReachedAt(lines, k, name)
    ensures CanDispatch(Script(lines), resolves, name, false)
    ensures MissedAt(lines, resolves, k, name) ==> CanMiss(Script(lines), resolves, name, false)
  {
    hide Step, Met, Plain, Table, ListMentions, Quiet, Start, Script;
    var c := MetIsRun(lines, resolves, k, name);
    var d := RunName(resolves, c, name);
    ReachOn(resolves, Start(Script(lines)), c, d);
    var run :| IsRun(resolves, run, false) && run[0] == Start(Script(lines)) && Last(run) == d;
  }

  /**
   Runs dispatch exactly the names that some line leads to, through the functions defined before it; with
   dropped work too, if no function is defined twice.
   */
  lemma DispatchFollowsCalls(lines: seq<Line>, resolves: string -> bool, name: string, drops: bool)
    requires Quiet(lines) && (drops ==> DefinedOnce(lines))
    ensures CanDispatch(Script(lines), resolves, name, drops) <==> ReachedByCalls(lines, name)
  {
    hide CanDispatch, CanMiss, ReachedAt, MissedAt, Script, Quiet, DefinedOnce;
    RunsStayInCalls(lines, resolves, name, drops);
    FewerDrops(Script(lines), resolves, name);
    if k: nat :| ReachedAt(lines, k, name) {
      CallsCanRun(lines, resolves, k, name);
    }
  }

  /** And they miss exactly the names that a line leads to before they are defined, if they do not resolve. */
  lemma MissesFollowCalls(lines: seq<Line>, resolves: string -> bool, name: string)
    requires Quiet(lines)
    ensures CanMiss(Script(lines), resolves, name, false) <==> exists k: nat :: MissedAt(lines, resolves, k, name)
  {
    hide CanDispatch, CanMiss, ReachedAt, Script, Quiet, Table;
    RunsStayInCalls(lines, resolves, name, false);
    if k: nat :| MissedAt(lines, resolves, k, name) {
      CallsCanRun(lines, resolves, k, name);
    }
  }

  /**
   There the reported commands cover all runs exactly if every name that calls lead to is collected, and
   the reported unresolved ones all misses exactly if each missed name is collected and nowhere defined.
   */
  lemma ReportFollowsCalls(lines: seq<Line>, resolves: string -> bool)
    requires Quiet(lines)
    ensures var program := Script(lines);
            && ((forall n :: CanDispatch(program, resolves, n, false) ==> n in Collected(program).commands) <==>
                (forall n :: ReachedByCalls(lines, n) ==> Runs(n) in CollectedMentions(program)))
            && ((forall n :: CanMiss(program, resolves, n, false) ==>
                   n in Unresolved(Collected(program), resolves)) <==>
                (forall n, k: nat :: MissedAt(lines, resolves, k, n) ==>
                   Runs(n) in CollectedMentions(program) && Defines(n) !in CollectedMentions(program)))
  {
    hide CanDispatch, CanMiss, Met, Plain, Table, Script, Collected, ProgramMentions, Quiet;
    var program := Script(lines);
    forall n
      ensures CanDispatch(program, resolves, n, false) <==> ReachedByCalls(lines, n)
      ensures CanMiss(program, resolves, n, false) <==> exists k: nat :: MissedAt(lines, resolves, k, n)
      ensures n in Collected(program).commands <==> Plain(n) && Runs(n) in CollectedMentions(program)
      ensures n in Unresolved(Collected(program), resolves) <==>
              n in Collected(program).commands && !resolves(n) && n !in Collected(program).definedFunctions
      ensures n in Collected(program).definedFunctions <==> Plain(n) && Defines(n) in CollectedMentions(program)
    {
      DispatchFollowsCalls(lines, resolves, n, false);
      MissesFollowCalls(lines, resolves, n);
      CommandsAre(program, n);
    }
  }
}
