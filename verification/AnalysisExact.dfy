/** How exact the static analysis is: what it reports of every run, and when it misses nothing. */
module AnalysisExact {
  import opened Wrappers
  import opened Analysis
  import opened AnalysisRuns

  // ----- reaching -------------------------------------------------------------------------------

  /** A run without dropped work leads from `c` to `d`. */
  ghost predicate Reaches(resolves: string -> bool, c: Config, d: Config) {
    exists run :: IsRun(resolves, run, false) && run[0] == c && Last(run) == d
  }

  lemma ReachSelf(resolves: string -> bool, c: Config)
    ensures Reaches(resolves, c, c)
  {
    var run := [c];
    assert IsRun(resolves, run, false) && run[0] == c && Last(run) == c;
  }

  lemma ReachStep(resolves: string -> bool, c: Config, d: Config)
    requires Proceeds(resolves, c, d)
    ensures Reaches(resolves, c, d)
  {
    hide Proceeds;
    var run := [c, d];
    assert IsRun(resolves, run, false) && run[0] == c && Last(run) == d;
  }

  lemma ReachOn(resolves: string -> bool, c: Config, d: Config, e: Config)
    requires Reaches(resolves, c, d) && Reaches(resolves, d, e)
    ensures Reaches(resolves, c, e)
  {
    hide Step;
    var first :| IsRun(resolves, first, false) && first[0] == c && Last(first) == d;
    var second :| IsRun(resolves, second, false) && second[0] == d && Last(second) == e;
    var run := first + second[1..];
    forall i | 0 <= i < |run| - 1
      ensures Step(resolves, run[i], run[i + 1], false)
    {
      if i < |first| - 1 {
        assert run[i] == first[i] && run[i + 1] == first[i + 1];
      } else {
        var k := i + 1 - |first|;
        assert run[i] == second[k] && run[i + 1] == second[k + 1];
      }
    }
    assert IsRun(resolves, run, false) && run[0] == c && Last(run) == e;
  }

  /** Which functions may be defined. */
  type Allowed = map<string, CompoundCommand> -> bool

  // ----- work that can be carried out ---------------------------------------------------------------

  function With(ws: seq<Work>, c: Config): Config {
    c.(todo := ws + c.todo)
  }

  /** From `c`, with only allowed functions, the run gets past `ws`. */
  ghost predicate Past(resolves: string -> bool, ok: Allowed, ws: seq<Work>, c: Config) {
    exists d :: Reaches(resolves, With(ws, c), d) && d.todo == c.todo && ok(d.functions)
  }

  /** On the way the run comes to where it dispatches the word. */
  ghost predicate Meets(resolves: string -> bool, ok: Allowed, ws: seq<Work>, c: Config, word: string) {
    exists d :: Reaches(resolves, With(ws, c), d) && Dispatches(d, word) && ok(d.functions)
  }

  predicate Dispatches(c: Config, word: string) {
    c.todo != [] && c.todo[0] == Dispatch(word)
  }

  /** The work can always be finished, and each command name among `ms` can be come to on the way. */
  ghost predicate Performs(resolves: string -> bool, ok: Allowed, ws: seq<Work>, ms: seq<Mention>) {
    && (forall c: Config {:trigger Past(resolves, ok, ws, c)} ::
          ok(c.functions) ==> Past(resolves, ok, ws, c))
    && (forall c: Config, word {:trigger Meets(resolves, ok, ws, c, word)} ::
          ok(c.functions) && Runs(word) in ms ==> Meets(resolves, ok, ws, c, word))
  }

  lemma PerformsNothing(resolves: string -> bool, ok: Allowed)
    ensures Performs(resolves, ok, [], [])
  {
    hide Past, Meets;
    forall c: Config | ok(c.functions)
      ensures Past(resolves, ok, [], c)
    {
      PastNothing(resolves, ok, c);
    }
  }

  lemma PastNothing(resolves: string -> bool, ok: Allowed, c: Config)
    requires ok(c.functions)
    ensures Past(resolves, ok, [], c)
  {
    hide Reaches;
    assert With([], c) == c;
    ReachSelf(resolves, c);
  }

  lemma PerformsBoth(resolves: string -> bool, ok: Allowed, a: seq<Work>, b: seq<Work>, ma: seq<Mention>,
                     mb: seq<Mention>)
    requires Performs(resolves, ok, a, ma) && Performs(resolves, ok, b, mb)
    ensures Performs(resolves, ok, a + b, ma + mb)
  {
    hide Past, Meets;
    forall c: Config {:trigger Past(resolves, ok, a + b, c)} | ok(c.functions)
      ensures Past(resolves, ok, a + b, c)
    {
      PastBoth(resolves, ok, a, b, ma, mb, c);
    }
    forall c: Config, word {:trigger Meets(resolves, ok, a + b, c, word)}
      | ok(c.functions) && Runs(word) in ma + mb
      ensures Meets(resolves, ok, a + b, c, word)
    {
      MeetsEither(resolves, ok, a, b, ma, mb, c, word);
    }
  }

  lemma PastBoth(resolves: string -> bool, ok: Allowed, a: seq<Work>, b: seq<Work>, ma: seq<Mention>,
                 mb: seq<Mention>, c: Config)
    requires Performs(resolves, ok, a, ma) && Performs(resolves, ok, b, mb) && ok(c.functions)
    ensures Past(resolves, ok, a + b, c)
  {
    hide Reaches;
    var next := PastFirst(resolves, ok, a, b, ma, c);
    assert Past(resolves, ok, b, next);
    var d :| Reaches(resolves, With(b, next), d) && d.todo == next.todo && ok(d.functions);
    ReachOn(resolves, With(a + b, c), With(b, next), d);
  }

  lemma MeetsEither(resolves: string -> bool, ok: Allowed, a: seq<Work>, b: seq<Work>, ma: seq<Mention>,
                    mb: seq<Mention>, c: Config, word: string)
    requires Performs(resolves, ok, a, ma) && Performs(resolves, ok, b, mb) && ok(c.functions)
    requires Runs(word) in ma + mb
    ensures Meets(resolves, ok, a + b, c, word)
  {
    hide Reaches, Dispatches;
    assert With(a, With(b, c)) == With(a + b, c);
    if Runs(word) in ma {
      assert Meets(resolves, ok, a, With(b, c), word);
    } else {
      var next := PastFirst(resolves, ok, a, b, ma, c);
      assert Meets(resolves, ok, b, next, word);
      var d :| Reaches(resolves, With(b, next), d) && Dispatches(d, word) && ok(d.functions);
      ReachOn(resolves, With(a + b, c), With(b, next), d);
    }
  }

  lemma PastFirst(resolves: string -> bool, ok: Allowed, a: seq<Work>, b: seq<Work>, ma: seq<Mention>, c: Config)
    returns (next: Config)
    requires Performs(resolves, ok, a, ma) && ok(c.functions)
    ensures ok(next.functions) && next.todo == c.todo
    ensures Reaches(resolves, With(a + b, c), With(b, next))
  {
    hide Reaches;
    assert With(a, With(b, c)) == With(a + b, c);
    assert Past(resolves, ok, a, With(b, c));
    var d :| Reaches(resolves, With(a, With(b, c)), d) && d.todo == With(b, c).todo && ok(d.functions);
    next := d.(todo := c.todo);
    assert With(b, next) == d;
  }

  lemma PerformsFewer(resolves: string -> bool, ok: Allowed, ws: seq<Work>, ms: seq<Mention>,
                      fewer: seq<Mention>)
    requires Performs(resolves, ok, ws, ms) && Within(fewer, ms)
    ensures Performs(resolves, ok, ws, fewer)
  {
    hide Past, Meets;
  }

  lemma PerformsEither(resolves: string -> bool, ok: Allowed, ws: seq<Work>, ma: seq<Mention>, mb: seq<Mention>)
    requires Performs(resolves, ok, ws, ma) && Performs(resolves, ok, ws, mb)
    ensures Performs(resolves, ok, ws, ma + mb)
  {
    hide Past, Meets;
  }

  /** Work can do what one of its options can. */
  lemma PerformsOption(resolves: string -> bool, ok: Allowed, w: Work, k: nat, ms: seq<Mention>)
    requires k < |Options(w)| && Performs(resolves, ok, Options(w)[k], ms)
    ensures Performs(resolves, ok, [w], ms)
  {
    hide Past, Meets, Options;
    forall c: Config {:trigger Past(resolves, ok, [w], c)} | ok(c.functions)
      ensures Past(resolves, ok, [w], c)
    {
      OptionPast(resolves, ok, w, k, c);
    }
    forall c: Config, word {:trigger Meets(resolves, ok, [w], c, word)}
      | ok(c.functions) && Runs(word) in ms
      ensures Meets(resolves, ok, [w], c, word)
    {
      OptionMeets(resolves, ok, w, k, c, word);
    }
  }

  lemma OptionPast(resolves: string -> bool, ok: Allowed, w: Work, k: nat, c: Config)
    requires k < |Options(w)| && Past(resolves, ok, Options(w)[k], c)
    ensures Past(resolves, ok, [w], c)
  {
    hide Reaches, Options;
    StepsTo(resolves, w, k, c);
    var d :| Reaches(resolves, With(Options(w)[k], c), d) && d.todo == c.todo && ok(d.functions);
    ReachOn(resolves, With([w], c), With(Options(w)[k], c), d);
  }

  lemma OptionMeets(resolves: string -> bool, ok: Allowed, w: Work, k: nat, c: Config, word: string)
    requires k < |Options(w)| && Meets(resolves, ok, Options(w)[k], c, word)
    ensures Meets(resolves, ok, [w], c, word)
  {
    hide Reaches, Options, Dispatches;
    StepsTo(resolves, w, k, c);
    var d :| Reaches(resolves, With(Options(w)[k], c), d) && Dispatches(d, word) && ok(d.functions);
    ReachOn(resolves, With([w], c), With(Options(w)[k], c), d);
  }

  lemma StepsTo(resolves: string -> bool, w: Work, k: nat, c: Config)
    requires k < |Options(w)|
    ensures Reaches(resolves, With([w], c), With(Options(w)[k], c))
  {
    hide Reaches, Options;
    var from := With([w], c);
    assert from.todo[0] == w && from.todo[1..] == c.todo;
    assert Unfolds(from, With(Options(w)[k], c));
    ReachStep(resolves, from, With(Options(w)[k], c));
  }

  lemma PerformsDispatch(resolves: string -> bool, ok: Allowed, word: string)
    ensures Performs(resolves, ok, [Dispatch(word)], [Runs(word)])
  {
    hide Past, Meets;
    forall c: Config {:trigger Past(resolves, ok, [Dispatch(word)], c)}
      {:trigger Meets(resolves, ok, [Dispatch(word)], c, word)}
      | ok(c.functions)
      ensures Past(resolves, ok, [Dispatch(word)], c)
      ensures Meets(resolves, ok, [Dispatch(word)], c, word)
    {
      DispatchStep(resolves, ok, word, c);
    }
  }

  lemma DispatchStep(resolves: string -> bool, ok: Allowed, word: string, c: Config)
    requires ok(c.functions)
    ensures Past(resolves, ok, [Dispatch(word)], c)
    ensures Meets(resolves, ok, [Dispatch(word)], c, word)
  {
    hide Reaches;
    var from := With([Dispatch(word)], c);
    assert from.todo[1..] == c.todo;
    ReachSelf(resolves, from);
    assert Dispatches(from, word);
    var d := RunName(resolves, from, word);
  }

  /** One step past a dispatch, without calling a function. */
  lemma RunName(resolves: string -> bool, c: Config, word: string) returns (d: Config)
    requires Dispatches(c, word)
    ensures Reaches(resolves, c, d) && d.todo == c.todo[1..] && d.functions == c.functions
    ensures Plain(word) ==>
              word in d.dispatched && (!resolves(word) && word !in c.functions ==> word in d.missed)
  {
    hide Reaches, Plain;
    d := c.(todo := c.todo[1..]);
    if Plain(word) {
      var missed := if resolves(word) || word in c.functions then [] else [word];
      d := d.(dispatched := c.dispatched + [word], missed := c.missed + missed);
    }
    assert Dispatched(resolves, c, d);
    ReachStep(resolves, c, d);
  }

  // ----- every mention outside the bodies of functions can run ---------------------------------------------

  /** Defining what is defined here keeps the functions allowed. */
  function Redefined(functions: map<string, CompoundCommand>, fname: string, body: CompoundCommand)
    : map<string, CompoundCommand>
  {
    functions[fname := body]
  }

  ghost predicate Keeps(ok: Allowed, fname: string) {
    forall functions, body :: ok(functions) ==> ok(Redefined(functions, fname, body))
  }

  ghost predicate Knows(ok: Allowed, ms: seq<Mention>) {
    forall m :: m in ms && m.Defines? ==> Keeps(ok, m.fname)
  }

  lemma {:induction false} ListPerforms(resolves: string -> bool, ok: Allowed, list: CompoundList)
    requires Knows(ok, ListMentions(list, OWN))
    ensures Performs(resolves, ok, [Perform(list)], ListMentions(list, OWN))
    decreases list
  {
    hide Performs, PipelineMentions, ChainMentions;
    PerformsNothing(resolves, ok);
    if list == [] {
      PerformsOption(resolves, ok, Perform(list), 0, []);
    } else {
      PipelinePerforms(resolves, ok, list[0].first);
      ChainPerforms(resolves, ok, list[0].additional);
      ListPerforms(resolves, ok, list[1..]);
      PerformsThree(resolves, ok, Stages(list[0].first), Chain(list[0].additional), Perform(list[1..]),
                    PipelineMentions(list[0].first, OWN), ChainMentions(list[0].additional, OWN),
                    ListMentions(list[1..], OWN));
      PerformsOption(resolves, ok, Perform(list), 0, ListMentions(list, OWN));
    }
  }

  lemma PerformsTwo(resolves: string -> bool, ok: Allowed, v: Work, w: Work, mv: seq<Mention>, mw: seq<Mention>)
    requires Performs(resolves, ok, [v], mv) && Performs(resolves, ok, [w], mw)
    ensures Performs(resolves, ok, [v, w], mv + mw)
  {
    hide Performs;
    PerformsBoth(resolves, ok, [v], [w], mv, mw);
    assert [v] + [w] == [v, w];
  }

  lemma PerformsThree(resolves: string -> bool, ok: Allowed, u: Work, v: Work, w: Work,
                      mu: seq<Mention>, mv: seq<Mention>, mw: seq<Mention>)
    requires Performs(resolves, ok, [u], mu) && Performs(resolves, ok, [v], mv) &&
             Performs(resolves, ok, [w], mw)
    ensures Performs(resolves, ok, [u, v, w], mu + mv + mw)
  {
    hide Performs;
    PerformsTwo(resolves, ok, u, v, mu, mv);
    PerformsBoth(resolves, ok, [u, v], [w], mu + mv, mw);
    assert [u, v] + [w] == [u, v, w];
  }

  lemma {:induction false} ChainPerforms(resolves: string -> bool, ok: Allowed, additional: seq<AndOr>)
    requires Knows(ok, ChainMentions(additional, OWN))
    ensures Performs(resolves, ok, [Chain(additional)], ChainMentions(additional, OWN))
    decreases additional
  {
    hide Performs, PipelineMentions;
    PerformsNothing(resolves, ok);
    if additional == [] {
      PerformsOption(resolves, ok, Chain(additional), 0, []);
    } else {
      PipelinePerforms(resolves, ok, additional[0].pipeline);
      ChainPerforms(resolves, ok, additional[1..]);
      PerformsTwo(resolves, ok, Stages(additional[0].pipeline), Chain(additional[1..]),
                  PipelineMentions(additional[0].pipeline, OWN), ChainMentions(additional[1..], OWN));
      PerformsOption(resolves, ok, Chain(additional), 0, ChainMentions(additional, OWN));
    }
  }

  lemma {:induction false} PipelinePerforms(resolves: string -> bool, ok: Allowed, pipeline: Pipeline)
    requires Knows(ok, PipelineMentions(pipeline, OWN))
    ensures Performs(resolves, ok, [Stages(pipeline)], PipelineMentions(pipeline, OWN))
    decreases pipeline
  {
    hide Performs, CommandMentions;
    PerformsNothing(resolves, ok);
    if pipeline == [] {
      PerformsOption(resolves, ok, Stages(pipeline), 0, []);
    } else {
      CommandPerforms(resolves, ok, pipeline[0]);
      PipelinePerforms(resolves, ok, pipeline[1..]);
      PerformsTwo(resolves, ok, Do(pipeline[0]), Stages(pipeline[1..]),
                  CommandMentions(pipeline[0], OWN), PipelineMentions(pipeline[1..], OWN));
      PerformsOption(resolves, ok, Stages(pipeline), 0, PipelineMentions(pipeline, OWN));
    }
  }

  lemma {:induction false} CommandPerforms(resolves: string -> bool, ok: Allowed, command: Command)
    requires Knows(ok, CommandMentions(command, OWN))
    ensures Performs(resolves, ok, [Do(command)], CommandMentions(command, OWN))
    decreases command
  {
    hide Performs, ItemMentions, CompoundMentions, Substitutions, Around, Plain;
    PerformsNothing(resolves, ok);
    if command.Simple? {
      var items, named := command.prefix + command.suffix, command.word.Some?;
      ItemsConcat(command.prefix, command.suffix, named, OWN);
      forall kind: Kind, redirects | named || (kind.Read? && !redirects)
        ensures Performs(resolves, ok, Substitutions(items, kind, redirects), MentionsOf(items, kind, redirects))
      {
        ItemsPerform(resolves, ok, command.prefix, kind, redirects, named);
        ItemsPerform(resolves, ok, command.suffix, kind, redirects, named);
        PerformsBoth(resolves, ok, Substitutions(command.prefix, kind, redirects),
                     Substitutions(command.suffix, kind, redirects),
                     MentionsOf(command.prefix, kind, redirects), MentionsOf(command.suffix, kind, redirects));
        SubstitutionsConcat(command.prefix, command.suffix, kind, redirects);
        MentionsOfConcat(command.prefix, command.suffix, kind, redirects);
      }
      SimplePerforms(resolves, ok, command);
    } else if command.Compound? {
      CompoundPerforms(resolves, ok, command.compound);
      PerformsOption(resolves, ok, Do(command), 0, CommandMentions(command, OWN));
    } else if command.Function? {
      DefinePerforms(resolves, ok, command.fname, command.body);
      PerformsOption(resolves, ok, Do(command), 0, [Defines(command.fname)]);
    } else {
      PerformsOption(resolves, ok, Do(command), 0, []);
    }
  }

  /** What the substitutions of one kind mention. */
  function MentionsOf(items: seq<Item>, kind: Kind, redirects: bool): seq<Mention> {
    if items == [] then []
    else
      (match items[0]
       case ProcessSubstitution(k, list) => if k == kind && !redirects then ListMentions(list, OWN) else []
       case RedirectSubstitution(k, list) => if k == kind && redirects then ListMentions(list, OWN) else []
       case OtherItem => [])
      + MentionsOf(items[1..], kind, redirects)
  }

  lemma {:induction false} SubstitutionsConcat(a: seq<Item>, b: seq<Item>, kind: Kind, redirects: bool)
    ensures Substitutions(a + b, kind, redirects) ==
            Substitutions(a, kind, redirects) + Substitutions(b, kind, redirects)
    decreases |a|
  {
    hide SubstitutionIn;
    if a == [] {
      assert a + b == b;
    } else {
      assert (a + b)[1..] == a[1..] + b;
      SubstitutionsConcat(a[1..], b, kind, redirects);
    }
  }

  lemma {:induction false} MentionsOfConcat(a: seq<Item>, b: seq<Item>, kind: Kind, redirects: bool)
    ensures MentionsOf(a + b, kind, redirects) == MentionsOf(a, kind, redirects) + MentionsOf(b, kind, redirects)
    decreases |a|
  {
    hide ListMentions;
    if a == [] {
      assert a + b == b;
    } else {
      assert (a + b)[1..] == a[1..] + b;
      MentionsOfConcat(a[1..], b, kind, redirects);
    }
  }

  lemma {:induction false} ItemsPerform(resolves: string -> bool, ok: Allowed, items: seq<Item>, kind: Kind,
                                        redirects: bool, named: bool)
    requires Knows(ok, ItemMentions(items, named, OWN)) && (named || (kind.Read? && !redirects))
    ensures Performs(resolves, ok, Substitutions(items, kind, redirects), MentionsOf(items, kind, redirects))
    decreases items
  {
    hide Performs, ListMentions;
    PerformsNothing(resolves, ok);
    if items != [] {
      var ws := Substitutions(items[1..], kind, redirects);
      var ms := MentionsOf(items[1..], kind, redirects);
      ItemsPerform(resolves, ok, items[1..], kind, redirects, named);
      if (if redirects then items[0].RedirectSubstitution? else items[0].ProcessSubstitution?)
         && items[0].kind == kind {
        ListPerforms(resolves, ok, items[0].list);
        PerformsBoth(resolves, ok, [Perform(items[0].list)], ws, ListMentions(items[0].list, OWN), ms);
      } else {
        assert [] + ws == ws && [] + ms == ms;
      }
    }
  }

  lemma {:induction false} AllItemsCovered(items: seq<Item>, m: Mention, named: bool)
    requires m in ItemMentions(items, named, OWN)
    ensures m in MentionsOf(items, Read, false) ||
            (named && (m in MentionsOf(items, Write, false) || m in MentionsOf(items, Read, true)
                       || m in MentionsOf(items, Write, true)))
  {
    hide ListMentions;
    if items != [] && m in ItemMentions(items[1..], named, OWN) {
      AllItemsCovered(items[1..], m, named);
    }
  }

  lemma SimplePerforms(resolves: string -> bool, ok: Allowed, command: Command)
    requires command.Simple? && Knows(ok, CommandMentions(command, OWN))
    requires forall kind: Kind, redirects :: command.word.Some? || (kind.Read? && !redirects) ==>
               Performs(resolves, ok, Substitutions(command.prefix + command.suffix, kind, redirects),
                        MentionsOf(command.prefix + command.suffix, kind, redirects))
    ensures Performs(resolves, ok, [Do(command)], CommandMentions(command, OWN))
  {
    hide Performs, ItemMentions, Substitutions, MentionsOf, Plain;
    var items, named := command.prefix + command.suffix, command.word.Some?;
    ItemsConcat(command.prefix, command.suffix, named, OWN);
    forall m | m in ItemMentions(items, named, OWN)
      ensures m in MentionsOf(items, Read, false) ||
              (named && (m in MentionsOf(items, Write, false) || m in MentionsOf(items, Read, true)
                         || m in MentionsOf(items, Write, true)))
    {
      AllItemsCovered(items, m, named);
    }
    if named {
      AroundPerforms(resolves, ok, items, command.word.value);
      PerformsOption(resolves, ok, Do(command), 0, AroundMentions(items, command.word.value));
      PerformsFewer(resolves, ok, [Do(command)], AroundMentions(items, command.word.value),
                    CommandMentions(command, OWN));
    } else {
      PerformsOption(resolves, ok, Do(command), 0, MentionsOf(items, Read, false));
      PerformsFewer(resolves, ok, [Do(command)], MentionsOf(items, Read, false), CommandMentions(command, OWN));
    }
  }

  function AroundMentions(items: seq<Item>, word: string): seq<Mention> {
    MentionsOf(items, Read, false) + MentionsOf(items, Read, true) + [Runs(word)]
    + MentionsOf(items, Write, true) + MentionsOf(items, Write, false)
  }

  lemma AroundPerforms(resolves: string -> bool, ok: Allowed, items: seq<Item>, word: string)
    requires forall kind, redirects ::
               Performs(resolves, ok, Substitutions(items, kind, redirects), MentionsOf(items, kind, redirects))
    ensures Performs(resolves, ok, Around(items, word), AroundMentions(items, word))
  {
    hide Performs, Substitutions, MentionsOf;
    var w1, m1 := Substitutions(items, Read, false), MentionsOf(items, Read, false);
    var w2, m2 := Substitutions(items, Read, true), MentionsOf(items, Read, true);
    var w4, m4 := Substitutions(items, Write, true), MentionsOf(items, Write, true);
    var w5, m5 := Substitutions(items, Write, false), MentionsOf(items, Write, false);
    PerformsBoth(resolves, ok, w1, w2, m1, m2);
    PerformsDispatch(resolves, ok, word);
    PerformsBoth(resolves, ok, w1 + w2, [Dispatch(word)], m1 + m2, [Runs(word)]);
    PerformsBoth(resolves, ok, w1 + w2 + [Dispatch(word)], w4, m1 + m2 + [Runs(word)], m4);
    PerformsBoth(resolves, ok, w1 + w2 + [Dispatch(word)] + w4, w5, m1 + m2 + [Runs(word)] + m4, m5);
  }

  lemma {:induction false} CompoundPerforms(resolves: string -> bool, ok: Allowed, compound: CompoundCommand)
    requires Knows(ok, CompoundMentions(compound, OWN))
    ensures Performs(resolves, ok, [Body(compound)], CompoundMentions(compound, OWN))
    decreases compound
  {
    hide Performs, ListMentions, ElseMentions, CaseMentions, CommandMentions;
    PerformsNothing(resolves, ok);
    if compound.If? {
      ListPerforms(resolves, ok, compound.condition);
      ListPerforms(resolves, ok, compound.thenPart);
      ElsesPerform(resolves, ok, compound.elses);
      BranchPerforms(resolves, ok, compound.thenPart, compound.elses);
      PerformsTwo(resolves, ok, Perform(compound.condition), Branch(compound.thenPart, compound.elses),
                  ListMentions(compound.condition, OWN),
                  ListMentions(compound.thenPart, OWN) + ElseMentions(compound.elses, OWN));
      PerformsOption(resolves, ok, Body(compound), 0,
                     ListMentions(compound.condition, OWN)
                     + (ListMentions(compound.thenPart, OWN) + ElseMentions(compound.elses, OWN)));
      assert CompoundMentions(compound, OWN) ==
        ListMentions(compound.condition, OWN)
        + (ListMentions(compound.thenPart, OWN) + ElseMentions(compound.elses, OWN));
    } else if compound.For? || compound.ArithmeticFor? {
      ListPerforms(resolves, ok, compound.body);
      RepeatPerforms(resolves, ok, compound.body);
      PerformsOption(resolves, ok, Body(compound), 0, ListMentions(compound.body, OWN));
    } else if compound.While? || compound.Until? {
      ListPerforms(resolves, ok, compound.condition);
      ListPerforms(resolves, ok, compound.body);
      LoopPerforms(resolves, ok, compound.condition, compound.body);
      PerformsOption(resolves, ok, Body(compound), 0, CompoundMentions(compound, OWN));
    } else if compound.BraceGroup? || compound.Subshell? {
      ListPerforms(resolves, ok, compound.list);
      PerformsOption(resolves, ok, Body(compound), 0, ListMentions(compound.list, OWN));
    } else if compound.Case? {
      CasesPerform(resolves, ok, compound.cases);
      PerformsOption(resolves, ok, Body(compound), 0, CaseMentions(compound.cases, OWN));
    } else if compound.Arithmetic? {
      PerformsOption(resolves, ok, Body(compound), 0, []);
    } else {
      PerformsOption(resolves, ok, Body(compound), 0, []);
    }
  }

  lemma BranchPerforms(resolves: string -> bool, ok: Allowed, thenPart: CompoundList, elses: seq<ElseClause>)
    requires Performs(resolves, ok, [Perform(thenPart)], ListMentions(thenPart, OWN))
    requires Performs(resolves, ok, [Clauses(elses)], ElseMentions(elses, OWN))
    ensures Performs(resolves, ok, [Branch(thenPart, elses)], ListMentions(thenPart, OWN) + ElseMentions(elses, OWN))
  {
    hide Performs, ListMentions, ElseMentions;
    PerformsOption(resolves, ok, Branch(thenPart, elses), 0, ListMentions(thenPart, OWN));
    PerformsOption(resolves, ok, Branch(thenPart, elses), 1, ElseMentions(elses, OWN));
    PerformsEither(resolves, ok, [Branch(thenPart, elses)], ListMentions(thenPart, OWN), ElseMentions(elses, OWN));
  }

  lemma {:induction false} ElsesPerform(resolves: string -> bool, ok: Allowed, elses: seq<ElseClause>)
    requires Knows(ok, ElseMentions(elses, OWN))
    ensures Performs(resolves, ok, [Clauses(elses)], ElseMentions(elses, OWN))
    decreases elses
  {
    hide Performs, ListMentions;
    PerformsNothing(resolves, ok);
    if elses == [] {
      PerformsOption(resolves, ok, Clauses(elses), 0, []);
    } else if elses[0].Elif? {
      var test, body, rest := elses[0].condition, elses[0].body, elses[1..];
      ListPerforms(resolves, ok, test);
      ListPerforms(resolves, ok, body);
      ElsesPerform(resolves, ok, rest);
      BranchPerforms(resolves, ok, body, rest);
      var ms := ListMentions(test, OWN) + (ListMentions(body, OWN) + ElseMentions(rest, OWN));
      PerformsTwo(resolves, ok, Perform(test), Branch(body, rest),
                  ListMentions(test, OWN), ListMentions(body, OWN) + ElseMentions(rest, OWN));
      PerformsOption(resolves, ok, Clauses(elses), 0, ms);
      assert ElseMentions(elses, OWN) == ms;
    } else {
      ListPerforms(resolves, ok, elses[0].body);
      PerformsOption(resolves, ok, Clauses(elses), 0, ListMentions(elses[0].body, OWN));
      assert ElseMentions(elses, OWN) == ListMentions(elses[0].body, OWN);
    }
  }

  lemma DefinePerforms(resolves: string -> bool, ok: Allowed, fname: string, body: CompoundCommand)
    requires Knows(ok, CommandMentions(Function(fname, body), OWN))
    ensures Performs(resolves, ok, [Define(fname, body)], [Defines(fname)])
    ensures CommandMentions(Function(fname, body), OWN) == [Defines(fname)]
  {
    hide CompoundMentions, Past, Meets;
    var ms := CommandMentions(Function(fname, body), OWN);
    assert ms == [Defines(fname)] && ms[0] in ms;
    forall c: Config {:trigger Past(resolves, ok, [Define(fname, body)], c)} | ok(c.functions)
      ensures Past(resolves, ok, [Define(fname, body)], c)
    {
      DefineStep(resolves, ok, fname, body, c);
    }
  }

  lemma DefineStep(resolves: string -> bool, ok: Allowed, fname: string, body: CompoundCommand, c: Config)
    requires ok(c.functions) && Keeps(ok, fname)
    ensures Past(resolves, ok, [Define(fname, body)], c)
  {
    hide Reaches;
    var from := With([Define(fname, body)], c);
    assert from.todo[1..] == c.todo;
    var d := c.(functions := Redefined(c.functions, fname, body));
    assert Defined(from, d);
    ReachStep(resolves, from, d);
  }

  lemma RepeatPerforms(resolves: string -> bool, ok: Allowed, list: CompoundList)
    requires Performs(resolves, ok, [Perform(list)], ListMentions(list, OWN))
    ensures Performs(resolves, ok, [Repeat(list)], ListMentions(list, OWN))
  {
    hide Performs, ListMentions;
    PerformsNothing(resolves, ok);
    PerformsOption(resolves, ok, Repeat(list), 0, []);
    PerformsTwo(resolves, ok, Perform(list), Repeat(list), ListMentions(list, OWN), []);
    PerformsOption(resolves, ok, Repeat(list), 1, ListMentions(list, OWN) + []);
    PerformsFewer(resolves, ok, [Repeat(list)], ListMentions(list, OWN) + [], ListMentions(list, OWN));
  }

  lemma LoopPerforms(resolves: string -> bool, ok: Allowed, condition: CompoundList, body: CompoundList)
    requires Performs(resolves, ok, [Perform(condition)], ListMentions(condition, OWN))
    requires Performs(resolves, ok, [Perform(body)], ListMentions(body, OWN))
    ensures Performs(resolves, ok, [Loop(condition, body)], ListMentions(condition, OWN) + ListMentions(body, OWN))
  {
    hide Performs, ListMentions;
    var mc, mb := ListMentions(condition, OWN), ListMentions(body, OWN);
    PerformsNothing(resolves, ok);
    PerformsOption(resolves, ok, Decide(condition, body), 0, []);
    PerformsTwo(resolves, ok, Perform(condition), Decide(condition, body), mc, []);
    PerformsOption(resolves, ok, Loop(condition, body), 0, mc + []);
    PerformsTwo(resolves, ok, Perform(body), Loop(condition, body), mb, mc + []);
    PerformsOption(resolves, ok, Decide(condition, body), 1, mb + (mc + []));
    PerformsTwo(resolves, ok, Perform(condition), Decide(condition, body), mc, mb + (mc + []));
    PerformsOption(resolves, ok, Loop(condition, body), 0, mc + (mb + (mc + [])));
    PerformsFewer(resolves, ok, [Loop(condition, body)], mc + (mb + (mc + [])), mc + mb);
  }

  lemma {:induction false} CasesPerform(resolves: string -> bool, ok: Allowed, cases: seq<CaseItem>)
    requires Knows(ok, CaseMentions(cases, OWN))
    ensures Performs(resolves, ok, [Try(cases)], CaseMentions(cases, OWN))
    ensures Performs(resolves, ok, [Fall(cases)], [])
    decreases cases
  {
    hide Performs, ListMentions;
    PerformsNothing(resolves, ok);
    if cases == [] {
      PerformsOption(resolves, ok, Try(cases), 0, []);
      PerformsOption(resolves, ok, Fall(cases), 0, []);
    } else {
      var rest := cases[1..];
      CasesPerform(resolves, ok, rest);
      if cases[0].CaseItem? {
        ListPerforms(resolves, ok, cases[0].cmd);
      }
      var ms := if cases[0].CaseItem? then ListMentions(cases[0].cmd, OWN) else [];
      ChosenPerforms(resolves, ok, cases[0], rest);
      PerformsOption(resolves, ok, Try(cases), 0, ms);
      PerformsOption(resolves, ok, Try(cases), 1, CaseMentions(rest, OWN));
      PerformsEither(resolves, ok, [Try(cases)], ms, CaseMentions(rest, OWN));
      PerformsOption(resolves, ok, Fall(cases), 0, ms);
      PerformsFewer(resolves, ok, [Fall(cases)], ms, []);
    }
  }

  lemma ChosenPerforms(resolves: string -> bool, ok: Allowed, item: CaseItem, rest: seq<CaseItem>)
    requires item.CaseItem? ==> Performs(resolves, ok, [Perform(item.cmd)], ListMentions(item.cmd, OWN))
    requires Performs(resolves, ok, [Try(rest)], CaseMentions(rest, OWN)) &&
             Performs(resolves, ok, [Fall(rest)], [])
    ensures Performs(resolves, ok, Chosen(item, rest), if item.CaseItem? then ListMentions(item.cmd, OWN) else [])
  {
    hide Performs, ListMentions, CaseMentions;
    PerformsNothing(resolves, ok);
    PerformsFewer(resolves, ok, [Try(rest)], CaseMentions(rest, OWN), []);
    var ms := if item.CaseItem? then ListMentions(item.cmd, OWN) else [];
    var ws := if item.CaseItem? then [Perform(item.cmd)] else [];
    var after :=
      if item.postAction.ExitCase? then [] else if item.postAction.FallThrough? then [Fall(rest)] else [Try(rest)];
    PerformsBoth(resolves, ok, ws, after, ms, []);
    assert ms + [] == ms;
  }

  lemma {:induction false} ListsPerform(resolves: string -> bool, ok: Allowed, lists: seq<CompoundList>)
    requires Knows(ok, ProgramMentions(lists, OWN))
    ensures Performs(resolves, ok, Lists(lists), ProgramMentions(lists, OWN))
  {
    hide Performs, ListMentions;
    PerformsNothing(resolves, ok);
    if lists != [] {
      ListPerforms(resolves, ok, lists[0]);
      ListsPerform(resolves, ok, lists[1..]);
      PerformsBoth(resolves, ok, [Perform(lists[0])], Lists(lists[1..]),
                   ListMentions(lists[0], OWN), ProgramMentions(lists[1..], OWN));
    }
  }

  // ----- a walk that enters less sees less --------------------------------------------------------------

  predicate Smaller(less: Walk, more: Walk) {
    (less.redirects ==> more.redirects) && (less.bodies ==> more.bodies) && less.dead == more.dead
  }

  /** Where no function is defined, entering bodies makes no difference. */
  predicate Same(less: Walk, more: Walk, fewer: seq<Mention>, all: seq<Mention>) {
    less.redirects == more.redirects && (forall m :: m in all ==> !m.Defines?) ==> fewer == all
  }

  lemma {:induction false} ListSmaller(list: CompoundList, less: Walk, more: Walk)
    requires Smaller(less, more)
    ensures Within(ListMentions(list, less), ListMentions(list, more))
    ensures Same(less, more, ListMentions(list, less), ListMentions(list, more))
    decreases list
  {
    hide PipelineMentions, ChainMentions;
    if list != [] {
      PipelineSmaller(list[0].first, less, more);
      ChainSmaller(list[0].additional, less, more);
      ListSmaller(list[1..], less, more);
    }
  }

  lemma {:induction false} ChainSmaller(additional: seq<AndOr>, less: Walk, more: Walk)
    requires Smaller(less, more)
    ensures Within(ChainMentions(additional, less), ChainMentions(additional, more))
    ensures Same(less, more, ChainMentions(additional, less), ChainMentions(additional, more))
    decreases additional
  {
    hide PipelineMentions;
    if additional != [] {
      PipelineSmaller(additional[0].pipeline, less, more);
      ChainSmaller(additional[1..], less, more);
    }
  }

  lemma {:induction false} PipelineSmaller(pipeline: Pipeline, less: Walk, more: Walk)
    requires Smaller(less, more)
    ensures Within(PipelineMentions(pipeline, less), PipelineMentions(pipeline, more))
    ensures Same(less, more, PipelineMentions(pipeline, less), PipelineMentions(pipeline, more))
    decreases pipeline
  {
    hide CommandMentions;
    if pipeline != [] {
      CommandSmaller(pipeline[0], less, more);
      PipelineSmaller(pipeline[1..], less, more);
    }
  }

  lemma {:induction false} CommandSmaller(command: Command, less: Walk, more: Walk)
    requires Smaller(less, more)
    ensures Within(CommandMentions(command, less), CommandMentions(command, more))
    ensures Same(less, more, CommandMentions(command, less), CommandMentions(command, more))
    decreases command
  {
    hide CompoundMentions, ItemMentions;
    if command.Simple? {
      ItemsSmaller(command.prefix, command.word.Some?, less, more);
      ItemsSmaller(command.suffix, command.word.Some?, less, more);
    } else if command.Compound? {
      CompoundSmaller(command.compound, less, more);
    } else if command.Function? {
      CompoundSmaller(command.body, less, more);
      assert CommandMentions(command, more)[0] == Defines(command.fname);
    }
  }

  lemma {:induction false} ItemsSmaller(items: seq<Item>, named: bool, less: Walk, more: Walk)
    requires Smaller(less, more)
    ensures Within(ItemMentions(items, named, less), ItemMentions(items, named, more))
    ensures Same(less, more, ItemMentions(items, named, less), ItemMentions(items, named, more))
    decreases items
  {
    hide ListMentions;
    if items != [] {
      ItemsSmaller(items[1..], named, less, more);
      if !items[0].OtherItem? {
        ListSmaller(items[0].list, less, more);
      }
    }
  }

  lemma {:induction false} CompoundSmaller(compound: CompoundCommand, less: Walk, more: Walk)
    requires Smaller(less, more)
    ensures Within(CompoundMentions(compound, less), CompoundMentions(compound, more))
    ensures Same(less, more, CompoundMentions(compound, less), CompoundMentions(compound, more))
    decreases compound
  {
    hide ListMentions, CaseMentions, ElseMentions, CommandMentions;
    if compound.If? {
      ListSmaller(compound.condition, less, more);
      ListSmaller(compound.thenPart, less, more);
      ElsesSmaller(compound.elses, less, more);
    } else if compound.For? || compound.ArithmeticFor? {
      ListSmaller(compound.body, less, more);
    } else if compound.While? || compound.Until? {
      ListSmaller(compound.condition, less, more);
      ListSmaller(compound.body, less, more);
    } else if compound.BraceGroup? || compound.Subshell? {
      ListSmaller(compound.list, less, more);
    } else if compound.Case? {
      CasesSmaller(compound.cases, less, more);
    } else if compound.Coprocess? {
      CommandSmaller(compound.command, less, more);
    }
  }

  lemma {:induction false} ElsesSmaller(elses: seq<ElseClause>, less: Walk, more: Walk)
    requires Smaller(less, more)
    ensures Within(ElseMentions(elses, less), ElseMentions(elses, more))
    ensures Same(less, more, ElseMentions(elses, less), ElseMentions(elses, more))
    decreases elses
  {
    hide ListMentions;
    if elses != [] {
      ElsesSmaller(elses[1..], less, more);
      ListSmaller(elses[0].body, less, more);
      if elses[0].Elif? {
        ListSmaller(elses[0].condition, less, more);
      }
    }
  }

  lemma {:induction false} CasesSmaller(cases: seq<CaseItem>, less: Walk, more: Walk)
    requires Smaller(less, more)
    ensures Within(CaseMentions(cases, less), CaseMentions(cases, more))
    ensures Same(less, more, CaseMentions(cases, less), CaseMentions(cases, more))
    decreases cases
  {
    hide ListMentions;
    if cases != [] {
      CasesSmaller(cases[1..], less, more);
      if cases[0].CaseItem? {
        ListSmaller(cases[0].cmd, less, more);
      }
    }
  }

  lemma {:induction false} ProgramSmaller(lists: seq<CompoundList>, less: Walk, more: Walk)
    requires Smaller(less, more)
    ensures Within(ProgramMentions(lists, less), ProgramMentions(lists, more))
    ensures Same(less, more, ProgramMentions(lists, less), ProgramMentions(lists, more))
  {
    hide ListMentions;
    if lists != [] {
      ListSmaller(lists[0], less, more);
      ProgramSmaller(lists[1..], less, more);
    }
  }

  // ----- runs that drop work -----------------------------------------------------------------------------

  lemma MayDrop(resolves: string -> bool, run: seq<Config>, drops: bool)
    requires IsRun(resolves, run, drops)
    ensures IsRun(resolves, run, true)
  {
    hide Proceeds, Drops;
  }

  lemma RunOn(resolves: string -> bool, run: seq<Config>, d: Config, drops: bool) returns (longer: seq<Config>)
    requires IsRun(resolves, run, drops) && Reaches(resolves, Last(run), d)
    ensures IsRun(resolves, longer, drops) && longer[0] == run[0] && Last(longer) == d
  {
    hide Proceeds, Drops;
    var more :| IsRun(resolves, more, false) && more[0] == Last(run) && Last(more) == d;
    longer := run + more[1..];
    forall i | 0 <= i < |longer| - 1
      ensures Step(resolves, longer[i], longer[i + 1], drops)
    {
      if i < |run| - 1 {
        assert longer[i] == run[i] && longer[i + 1] == run[i + 1];
      } else {
        var k := i + 1 - |run|;
        assert longer[i] == more[k] && longer[i + 1] == more[k + 1];
      }
    }
  }

  /** Only a call enters a body, and the body is then at the head of the work. */
  lemma StepEnters(resolves: string -> bool, c: Config, d: Config, drops: bool, body: CompoundCommand)
    requires Step(resolves, c, d, drops) && body in d.entered && body !in c.entered
    ensures d.todo != [] && d.todo[0] == Body(body)
  {
    hide Options, Plain;
  }

  lemma {:induction false} Entering(resolves: string -> bool, run: seq<Config>, drops: bool, body: CompoundCommand)
    returns (k: nat)
    requires IsRun(resolves, run, drops) && body in Last(run).entered && body !in run[0].entered
    ensures k < |run| && run[k].todo != [] && run[k].todo[0] == Body(body) && body in run[k].entered
    decreases |run|
  {
    hide Step;
    var n := |run| - 1;
    if body in run[n - 1].entered {
      k := Entering(resolves, run[..n], drops, body);
    } else {
      StepEnters(resolves, run[n - 1], run[n], drops, body);
      k := n;
    }
  }

  // ----- the main results -----------------------------------------------------------------------------

  function All(program: Program): seq<Mention> {
    ProgramMentions(program.completeCommands, WHOLE)
  }

  function CollectedMentions(program: Program): seq<Mention> {
    ProgramMentions(program.completeCommands, COLLECTED)
  }

  /** No name is spelled out only inside redirection targets. */
  ghost predicate NothingHidden(program: Program) {
    forall n :: Plain(n) && Runs(n) in All(program) ==> Runs(n) in CollectedMentions(program)
  }

  lemma CommandsAre(program: Program, name: string)
    ensures name in Collected(program).commands <==> Plain(name) && Runs(name) in CollectedMentions(program)
    ensures name in Collected(program).definedFunctions <==> Plain(name) && Defines(name) in CollectedMentions(program)
  {
    hide First;
    CollectsInFirstOrder(ProgramMentions(program.completeCommands, COLLECTED));
  }

  lemma RunHolds(program: Program, resolves: string -> bool, run: seq<Config>)
    requires IsRun(resolves, run, true) && run[0] == Start(program)
    ensures Inv(resolves, Last(run), program.completeCommands)
  {
    var lists := program.completeCommands;
    StartWithin(lists, ProgramMentions(lists, WHOLE), true);
    StartWithin(lists, ProgramMentions(lists, OWN), false);
    hide IsRun, Plain, CompoundMentions, ProgramMentions, AllWithin;
    RunKeepsInv(resolves, run, lists);
  }

  lemma RunsOnlyMention(program: Program, resolves: string -> bool, run: seq<Config>)
    requires IsRun(resolves, run, true) && run[0] == Start(program)
    ensures forall n :: n in Last(run).dispatched ==> Plain(n) && Runs(n) in All(program)
    ensures forall n :: n in Last(run).missed ==> n in Last(run).dispatched && !resolves(n)
  {
    hide IsRun, Plain, CompoundMentions, ProgramMentions, AllWithin, Source;
    RunHolds(program, resolves, run);
  }

  /** Every plain name that any run dispatches is reported; every miss is unresolved or defined by the script. */
  lemma AnalysisCoversRuns(program: Program, resolves: string -> bool, name: string)
    requires NothingHidden(program)
    ensures CanDispatch(program, resolves, name, true) ==> name in Collected(program).commands
    ensures CanMiss(program, resolves, name, true) ==>
              name in Unresolved(Collected(program), resolves) || name in Collected(program).definedFunctions
  {
    CommandsAre(program, name);
    hide Step, Plain, Collected, ProgramMentions;
    if CanDispatch(program, resolves, name, true) {
      var run :| IsRun(resolves, run, true) && run[0] == Start(program) && name in Last(run).dispatched;
      RunsOnlyMention(program, resolves, run);
    }
    if CanMiss(program, resolves, name, true) {
      var run :| IsRun(resolves, run, true) && run[0] == Start(program) && name in Last(run).missed;
      RunsOnlyMention(program, resolves, run);
    }
  }

  /**
   The name stands, outside the bodies of the functions defined there, in the script or in a body that
   some run enters by a call.
   */
  ghost predicate Reachable(program: Program, resolves: string -> bool, name: string, drops: bool) {
    && Plain(name)
    && (Runs(name) in ProgramMentions(program.completeCommands, OWN)
        || exists b :: CanEnter(program, resolves, b, drops) && Runs(name) in CompoundMentions(b, OWN))
  }

  lemma {:induction false} SourceSplits(lists: seq<CompoundList>, entered: seq<CompoundCommand>, m: Mention)
    requires m in Source(lists, entered)
    ensures m in ProgramMentions(lists, OWN) || exists b :: b in entered && m in CompoundMentions(b, OWN)
    decreases |entered|
  {
    hide ProgramMentions, CompoundMentions;
    if entered != [] {
      var last := entered[|entered| - 1];
      if m in CompoundMentions(last, OWN) {
        assert last in entered;
      } else {
        SourceSplits(lists, entered[..|entered| - 1], m);
      }
    }
  }

  lemma DispatchedIsReachable(program: Program, resolves: string -> bool, name: string, drops: bool)
    requires CanDispatch(program, resolves, name, drops)
    ensures Reachable(program, resolves, name, drops)
  {
    hide Step, Plain, CompoundMentions, ProgramMentions, AllWithin, Source;
    var run :| IsRun(resolves, run, drops) && run[0] == Start(program) && name in Last(run).dispatched;
    MayDrop(resolves, run, drops);
    RunHolds(program, resolves, run);
    SourceSplits(program.completeCommands, Last(run).entered, Runs(name));
    if Runs(name) !in ProgramMentions(program.completeCommands, OWN) {
      var b :| b in Last(run).entered && Runs(name) in CompoundMentions(b, OWN);
      assert CanEnter(program, resolves, b, drops);
    }
  }

  function Known(program: Program): set<string> {
    set m | m in All(program) && m.Defines? :: m.fname
  }

  function OnlyKnown(program: Program): Allowed {
    (functions: map<string, CompoundCommand>) => functions.Keys <= Known(program)
  }

  lemma KnowsAll(program: Program, ms: seq<Mention>)
    requires Within(ms, All(program))
    ensures Knows(OnlyKnown(program), ms)
  {
    hide ProgramMentions;
  }

  lemma OwnCanRun(program: Program, resolves: string -> bool, name: string)
    requires Plain(name) && Runs(name) in ProgramMentions(program.completeCommands, OWN)
    ensures CanDispatch(program, resolves, name, false)
    ensures !resolves(name) && name !in Known(program) ==> CanMiss(program, resolves, name, false)
  {
    var lists := program.completeCommands;
    ProgramSmaller(lists, OWN, WHOLE);
    KnowsAll(program, ProgramMentions(lists, OWN));
    ListsPerform(resolves, OnlyKnown(program), lists);
    hide IsRun, Plain, ProgramMentions, Lists, Known;
    var none := Config([], map[], [], [], []);
    assert With(Lists(lists), none) == Start(program);
    assert Meets(resolves, OnlyKnown(program), Lists(lists), none, name);
    var e :| Reaches(resolves, Start(program), e) && Dispatches(e, name) && e.functions.Keys <= Known(program);
    var d := RunName(resolves, e, name);
    ReachOn(resolves, Start(program), e, d);
    var run :| IsRun(resolves, run, false) && run[0] == Start(program) && Last(run) == d;
  }

  /** From where a run enters a body, a run can go on to any name that the body mentions. */
  lemma EnteredCanRun(program: Program, resolves: string -> bool, body: CompoundCommand, name: string, drops: bool)
    requires Plain(name) && Runs(name) in CompoundMentions(body, OWN)
    requires CanEnter(program, resolves, body, drops)
    ensures CanDispatch(program, resolves, name, drops)
    ensures !resolves(name) && name !in Known(program) ==> CanMiss(program, resolves, name, drops)
  {
    hide Step, Plain, CompoundMentions, ProgramMentions, AllWithin, Source, Known, Knows;
    var run :| IsRun(resolves, run, drops) && run[0] == Start(program) && body in Last(run).entered;
    var k := Entering(resolves, run, drops, body);
    var to := run[..k + 1];
    var c := Last(to);
    MayDrop(resolves, to, drops);
    RunHolds(program, resolves, to);
    CompoundSmaller(body, OWN, WHOLE);
    KnowsAll(program, CompoundMentions(body, OWN));
    CompoundPerforms(resolves, OnlyKnown(program), body);
    KnownFunctions(program, c, resolves);
    var before := c.(todo := c.todo[1..]);
    assert With([Body(body)], before) == c;
    assert Meets(resolves, OnlyKnown(program), [Body(body)], before, name);
    var e :| Reaches(resolves, c, e) && Dispatches(e, name) && e.functions.Keys <= Known(program);
    var d := RunName(resolves, e, name);
    ReachOn(resolves, c, e, d);
    var longer := RunOn(resolves, to, d, drops);
  }

  lemma KnownFunctions(program: Program, c: Config, resolves: string -> bool)
    requires Inv(resolves, c, program.completeCommands)
    ensures c.functions.Keys <= Known(program)
  {
    hide ProgramMentions, CompoundMentions, AllWithin, Source, Within;
    forall f | f in c.functions
      ensures f in Known(program)
    {
      assert Defines(f) in All(program) && Defines(f).fname == f;
    }
  }

  /** Exactly the reachable names can be dispatched, with dropped work or without. */
  lemma DispatchIsExact(program: Program, resolves: string -> bool, name: string, drops: bool)
    ensures CanDispatch(program, resolves, name, drops) <==> Reachable(program, resolves, name, drops)
    ensures Reachable(program, resolves, name, drops) && !resolves(name) && Defines(name) !in All(program) ==>
              CanMiss(program, resolves, name, drops)
  {
    hide CanDispatch, CanMiss, CanEnter, ProgramMentions, CompoundMentions, Plain;
    if CanDispatch(program, resolves, name, drops) {
      DispatchedIsReachable(program, resolves, name, drops);
    }
    if Reachable(program, resolves, name, drops) {
      if Runs(name) in ProgramMentions(program.completeCommands, OWN) {
        OwnCanRun(program, resolves, name);
        FewerDrops(program, resolves, name);
      } else {
        var b :| CanEnter(program, resolves, b, drops) && Runs(name) in CompoundMentions(b, OWN);
        EnteredCanRun(program, resolves, b, name, drops);
      }
    }
  }

  lemma FewerDrops(program: Program, resolves: string -> bool, name: string)
    ensures CanDispatch(program, resolves, name, false) ==> CanDispatch(program, resolves, name, true)
    ensures CanMiss(program, resolves, name, false) ==> CanMiss(program, resolves, name, true)
  {
    hide Step;
    if CanDispatch(program, resolves, name, false) {
      var run :| IsRun(resolves, run, false) && run[0] == Start(program) && name in Last(run).dispatched;
      MayDrop(resolves, run, false);
    }
    if CanMiss(program, resolves, name, false) {
      var run :| IsRun(resolves, run, false) && run[0] == Start(program) && name in Last(run).missed;
      MayDrop(resolves, run, false);
    }
  }

  /**
   The report holds for all runs exactly when every reachable name is mentioned where the collector
   looks; and a reported name that is reachable is dispatched, or missed, by some run.
   */
  lemma AnalysisIsExact(program: Program, resolves: string -> bool)
    ensures (forall n :: CanDispatch(program, resolves, n, true) ==> n in Collected(program).commands) <==>
            (forall n :: Reachable(program, resolves, n, true) ==> Runs(n) in CollectedMentions(program))
    ensures forall n ::
              (n in Unresolved(Collected(program), resolves) && Defines(n) !in All(program)
               && Reachable(program, resolves, n, false)) ==> CanMiss(program, resolves, n, false)
  {
    hide CanDispatch, CanMiss, Plain, Collected, ProgramMentions, CompoundMentions, CanEnter;
    forall n
      ensures CanDispatch(program, resolves, n, true) <==> Reachable(program, resolves, n, true)
      ensures n in Collected(program).commands <==> Plain(n) && Runs(n) in CollectedMentions(program)
      ensures (n in Unresolved(Collected(program), resolves) && Defines(n) !in All(program)
               && Reachable(program, resolves, n, false)) ==> CanMiss(program, resolves, n, false)
    {
      DispatchIsExact(program, resolves, n, true);
      DispatchIsExact(program, resolves, n, false);
      CommandsAre(program, n);
    }
  }

  /** Names are all that is mentioned: no function is defined. */
  predicate OnlyNames(ms: seq<Mention>) {
    forall m :: m in ms ==> m.Runs?
  }

  /** Without functions every reported name is dispatched by some run, unless it stands in dead code only. */
  lemma WithoutFunctions(program: Program, resolves: string -> bool)
    requires OnlyNames(All(program))
    ensures (forall n :: CanDispatch(program, resolves, n, true) ==> n in Collected(program).commands) <==>
            NothingHidden(program)
    ensures forall n :: n in Collected(program).commands ==>
              (CanDispatch(program, resolves, n, false) <==> Runs(n) in All(program))
    ensures forall n :: n in Unresolved(Collected(program), resolves) ==>
              (CanMiss(program, resolves, n, false) <==> Runs(n) in All(program))
  {
    hide CanDispatch, CanMiss, Plain, Collected, ProgramMentions, CompoundMentions, CanEnter;
    var lists := program.completeCommands;
    ProgramSmaller(lists, OWN, WHOLE);
    NoDefinitions(program);
    forall n
      ensures Plain(n) && Runs(n) in All(program) ==> CanDispatch(program, resolves, n, true)
      ensures n in Collected(program).commands ==>
                (CanDispatch(program, resolves, n, false) <==> Runs(n) in All(program))
      ensures n in Unresolved(Collected(program), resolves) ==>
                (CanMiss(program, resolves, n, false) <==> Runs(n) in All(program))
      ensures n in Collected(program).commands <==> Plain(n) && Runs(n) in CollectedMentions(program)
      ensures NothingHidden(program) ==> CanDispatch(program, resolves, n, true) ==> n in Collected(program).commands
    {
      CommandsAre(program, n);
      FewerDrops(program, resolves, n);
      OnlyLiveNamesRun(program, resolves, n);
      if Plain(n) && Runs(n) in All(program) {
        OwnCanRun(program, resolves, n);
        NothingKnown(program);
      }
      if NothingHidden(program) {
        AnalysisCoversRuns(program, resolves, n);
      }
    }
  }

  lemma OnlyLiveNamesRun(program: Program, resolves: string -> bool, name: string)
    ensures CanDispatch(program, resolves, name, false) || CanMiss(program, resolves, name, false) ==>
              Plain(name) && Runs(name) in All(program)
  {
    hide Step, Plain, ProgramMentions, Start;
    if CanDispatch(program, resolves, name, false) {
      var run :| IsRun(resolves, run, false) && run[0] == Start(program) && name in Last(run).dispatched;
      MayDrop(resolves, run, false);
      RunsOnlyMention(program, resolves, run);
    }
    if CanMiss(program, resolves, name, false) {
      var run :| IsRun(resolves, run, false) && run[0] == Start(program) && name in Last(run).missed;
      MayDrop(resolves, run, false);
      RunsOnlyMention(program, resolves, run);
    }
  }

  lemma NoDefinitions(program: Program)
    requires OnlyNames(All(program))
    ensures forall m :: m in All(program) ==> !m.Defines?
  {
    hide ProgramMentions;
  }

  lemma NothingKnown(program: Program)
    requires OnlyNames(All(program))
    ensures Known(program) == {}
  {
    hide ProgramMentions;
  }

  function OneCommand(word: string, items: seq<Item>): CompoundList {
    [AndOrList([Simple([], Some(word), items)], [])]
  }

  /** `outer < <(inner)` runs `inner`, which is not reported. */
  lemma RedirectTargetsAreHidden(outer: string, inner: string, resolves: string -> bool) returns (program: Program)
    requires Plain(outer) && Plain(inner) && inner != outer && !resolves(inner)
    ensures CanMiss(program, resolves, inner, false)
    ensures inner !in Collected(program).commands && inner !in Unresolved(Collected(program), resolves)
  {
    var target := [RedirectSubstitution(Read, OneCommand(inner, []))];
    program := Program([OneCommand(outer, target)]);
    OneCommandMentions(inner, [], WHOLE);
    OneCommandMentions(outer, target, WHOLE);
    OneCommandMentions(outer, target, COLLECTED);
    TargetMentions(inner);
    OneListMentions(OneCommand(outer, target), WHOLE);
    OneListMentions(OneCommand(outer, target), COLLECTED);
    hide ListMentions, ItemMentions, ProgramMentions, OneCommand, Plain;
    assert All(program) == [Runs(outer), Runs(inner)];
    assert Runs(inner) == All(program)[1];
    CommandsAre(program, inner);
    ProgramSmaller(program.completeCommands, OWN, WHOLE);
    NoDefinitions(program);
    NothingKnown(program);
    OwnCanRun(program, resolves, inner);
  }

  lemma TargetMentions(inner: string)
    ensures ItemMentions([], true, WHOLE) == []
    ensures ItemMentions([RedirectSubstitution(Read, OneCommand(inner, []))], true, WHOLE) ==
            ListMentions(OneCommand(inner, []), WHOLE)
    ensures ItemMentions([RedirectSubstitution(Read, OneCommand(inner, []))], true, COLLECTED) == []
  {
    hide ListMentions;
  }

  lemma OneListMentions(list: CompoundList, walk: Walk)
    ensures ProgramMentions([list], walk) == ListMentions(list, walk)
  {
    hide ListMentions;
  }

  lemma OneCommandMentions(word: string, items: seq<Item>, walk: Walk)
    ensures ListMentions(OneCommand(word, items), walk) == [Runs(word)] + ItemMentions(items, true, walk)
  {
    var command := Simple([], Some(word), items);
    assert CommandMentions(command, walk) == [Runs(word)] + ItemMentions(items, true, walk);
    hide ItemMentions, CommandMentions;
    var pipeline := [command];
    assert pipeline[1..] == [];
    assert PipelineMentions(pipeline, walk) == CommandMentions(command, walk);
    var list := OneCommand(word, items);
    assert list[1..] == [] && list[0].first == pipeline && list[0].additional == [];
    assert ChainMentions([], walk) == [] && ListMentions([], walk) == [];
  }
}
