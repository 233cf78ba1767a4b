/**
 What find reports of a command line that it refuses. A broken expression is one that was written well
 up to a place where nothing that may stand there does; that place decides the error.
 */
module FindErrors {
  import opened Wrappers
  import opened Sequences
  import opened Numerals
  import opened Find
  import opened FindPrinter

  // ----- broken expressions ---------------------------------------------------------------------------

  datatype Broken =
    | Nothing
    | NoSuch(word: string)
    | Lacking(option: string)
    | Endless(parts: seq<string>)
    | Unclosed(inside: Form)
    | UnderNot(inner: Broken)
    | Within(inner: Broken)
    | AfterAnd(left: Form, spelled: seq<string>, inner: Broken)
    | AfterOr(left: Form, inner: Broken)

  function Reason(b: Broken): FindError {
    match b
    case Nothing => ExpectedExpression
    case NoSuch(word) => UnknownPredicate(word)
    case Lacking(option) => MissingArgument(option)
    case Endless(_) => MissingArgument("-exec")
    case Unclosed(_) => MissingClose
    case UnderNot(inner) => Reason(inner)
    case Within(inner) => Reason(inner)
    case AfterAnd(_, _, inner) => Reason(inner)
    case AfterOr(_, inner) => Reason(inner)
  }

  /** The words that an expression can start with. */
  predicate Starts(word: string) {
    word in ["!", "-not", "(", "-name", "-type", "-empty", "-newer", "-print", "-print0", "-exec"]
  }

  predicate TakesArgument(word: string) {
    word in ["-name", "-type", "-newer"]
  }

  ghost predicate Written(f: Form, level: nat, args: seq<string>, pos: nat) {
    WellFormed(f, level) && Printable(Meaning(f)) && At(args, pos, Text(f))
  }

  /** From `pos` on stands a broken expression of the level: 0 with `-o`, 1 with `-a`, 2 with neither. */
  ghost predicate Breaks(b: Broken, level: nat, args: seq<string>, pos: nat) {
    match b
    case Nothing => pos == |args|
    case NoSuch(word) => pos < |args| && args[pos] == word && !Starts(word)
    case Lacking(option) => pos + 1 == |args| && args[pos] == option && TakesArgument(option)
    case Endless(parts) => pos < |args| && args[pos..] == ["-exec"] + parts && NoTerminator(parts)
    case Unclosed(inside) =>
      pos < |args| && args[pos] == "(" && Written(inside, 0, args, pos + 1) && pos + 1 + |Text(inside)| == |args|
    case UnderNot(inner) => pos < |args| && args[pos] in ["!", "-not"] && Breaks(inner, 2, args, pos + 1)
    case Within(inner) => pos < |args| && args[pos] == "(" && Breaks(inner, 0, args, pos + 1)
    case AfterAnd(left, spelled, inner) =>
      var mid := pos + |Text(left)|;
      && level <= 1 && Written(left, 1, args, pos) && mid < |args|
      && spelled == (if args[mid] in ["-a", "-and"] then [args[mid]] else [])
      && args[mid] !in ["-o", "-or", ")"]
      && Breaks(inner, 2, args, mid + |spelled|)
    case AfterOr(left, inner) =>
      var mid := pos + |Text(left)|;
      && level == 0 && Written(left, 0, args, pos) && mid < |args| && args[mid] in ["-o", "-or"]
      && Breaks(inner, 1, args, mid + 1)
  }

  // ----- a broken expression is reported ---------------------------------------------------------------

  lemma {:induction false} NoEnd(args: seq<string>, pos: nat, done: seq<string>, todo: seq<string>)
    requires pos <= |args| && args[pos..] == todo && NoTerminator(done + todo)
    ensures ExecParts(args, pos, done) == Err(MissingArgument("-exec"))
    decreases |todo|
  {
    if todo == [] {
      assert |args[pos..]| == 0;
    } else {
      assert (done + todo)[|done|] == todo[0] == args[pos];
      assert done + [todo[0]] + todo[1..] == done + todo;
      assert args[pos + 1..] == args[pos..][1..];
      NoEnd(args, pos + 1, done + [todo[0]], todo[1..]);
    }
  }

  lemma UnaryFails(args: seq<string>, pos: nat, e: FindError)
    requires ParseUnary(args, pos) == Err(e)
    ensures ParseAnd(args, pos) == Err(e) && ParseOr(args, pos) == Err(e)
  {
    hide ParseUnary;
  }

  lemma AndFails(args: seq<string>, pos: nat, e: FindError)
    requires ParseAnd(args, pos) == Err(e)
    ensures ParseOr(args, pos) == Err(e)
  {
    hide ParseAnd;
  }

  /** A word by itself that breaks the expression. */
  lemma WordFails(b: Broken, args: seq<string>, pos: nat)
    requires (b.Nothing? || b.NoSuch? || b.Lacking? || b.Endless?) && Breaks(b, 2, args, pos)
    ensures ParseUnary(args, pos) == Err(Reason(b))
  {
    hide ParseOr;
    if b.Endless? {
      assert args[pos] == args[pos..][0] && args[pos + 1..] == args[pos..][1..] == b.parts;
      assert [] + b.parts == b.parts;
      NoEnd(args, pos + 1, [], b.parts);
    }
  }

  lemma NotFails(args: seq<string>, pos: nat, e: FindError)
    requires pos < |args| && IsNot(args[pos]) && ParseUnary(args, pos + 1) == Err(e)
    ensures ParseUnary(args, pos) == Err(e)
  {
    hide ParseOr, ParsePrimary;
  }

  lemma WithinFails(args: seq<string>, pos: nat, e: FindError)
    requires pos < |args| && args[pos] == "(" && ParseOr(args, pos + 1) == Err(e)
    ensures ParseUnary(args, pos) == Err(e)
  {
    hide ParseOr, ParsePrimary;
  }

  lemma UnclosedFails(args: seq<string>, pos: nat, inner: FindExpr, end: nat)
    requires pos < |args| && args[pos] == "(" && ParseOr(args, pos + 1) == Ok((inner, end)) && end == |args|
    ensures ParseUnary(args, pos) == Err(MissingClose)
  {
    hide ParseOr, ParsePrimary;
  }

  lemma OpenParenthesis(f: Form, args: seq<string>, pos: nat)
    requires pos < |args| && args[pos] == "(" && Written(f, 0, args, pos + 1) && pos + 1 + |Text(f)| == |args|
    ensures ParseUnary(args, pos) == Err(MissingClose)
  {
    hide ParseOr, MoreOr, ParseUnary, At, Text, WellFormed, Meaning, Printable;
    ReadOr(args, pos + 1, f);
    StopOr(args, |args|, Meaning(f));
    UnclosedFails(args, pos, Meaning(f), |args|);
  }

  lemma MoreAndFails(args: seq<string>, pos: nat, left: FindExpr, e: FindError)
    requires pos < |args| && !AndEnds(args, pos)
    requires ParseUnary(args, if IsAnd(args[pos]) then pos + 1 else pos) == Err(e)
    ensures MoreAnd(args, pos, left) == Err(e)
  {
    hide ParseUnary;
  }

  lemma MoreOrFails(args: seq<string>, pos: nat, left: FindExpr, e: FindError)
    requires pos < |args| && IsOr(args[pos]) && ParseAnd(args, pos + 1) == Err(e)
    ensures MoreOr(args, pos, left) == Err(e)
  {
    hide ParseAnd;
  }

  /** The reason of a broken expression is what the parser reports of it. */
  lemma {:induction false} BrokenIsReported(b: Broken, level: nat, args: seq<string>, pos: nat)
    requires Breaks(b, level, args, pos)
    ensures ParseOr(args, pos) == Err(Reason(b))
    ensures level >= 1 ==> ParseAnd(args, pos) == Err(Reason(b))
    ensures level >= 2 ==> ParseUnary(args, pos) == Err(Reason(b))
  {
    hide ParseOr, ParseAnd, ParseUnary, MoreAnd, MoreOr, At, Text, WellFormed, Meaning, Printable;
    match b
    case UnderNot(inner) =>
      BrokenIsReported(inner, 2, args, pos + 1);
      NotFails(args, pos, Reason(b));
      UnaryFails(args, pos, Reason(b));
    case Within(inner) =>
      BrokenIsReported(inner, 0, args, pos + 1);
      WithinFails(args, pos, Reason(b));
      UnaryFails(args, pos, Reason(b));
    case Unclosed(inside) =>
      OpenParenthesis(inside, args, pos);
      UnaryFails(args, pos, Reason(b));
    case AfterAnd(left, spelled, inner) =>
      var mid := pos + |Text(left)|;
      BrokenIsReported(inner, 2, args, mid + |spelled|);
      ReadAnd(args, pos, left);
      MoreAndFails(args, mid, Meaning(left), Reason(b));
      AndFails(args, pos, Reason(b));
    case AfterOr(left, inner) =>
      var mid := pos + |Text(left)|;
      BrokenIsReported(inner, 1, args, mid + 1);
      ReadOr(args, pos, left);
      MoreOrFails(args, mid, Meaning(left), Reason(b));
    case _ =>
      WordFails(b, args, pos);
      UnaryFails(args, pos, Reason(b));
  }

  // ----- whatever is reported stands there ---------------------------------------------------------------

  ghost predicate Explains(b: Broken, level: nat, args: seq<string>, pos: nat, r: Parsed) {
    r.Err? ==> Breaks(b, level, args, pos) && Reason(b) == r.error
  }

  lemma Tighter(b: Broken, level: nat, args: seq<string>, pos: nat)
    requires Breaks(b, level, args, pos) && level >= 1
    ensures Breaks(b, level - 1, args, pos)
  {
  }

  lemma {:induction false} EndlessParts(args: seq<string>, from: nat, pos: nat, parts: seq<string>)
    requires from <= pos <= |args| && parts == args[from..pos] && NoTerminator(parts)
    requires ExecParts(args, pos, parts).Err?
    ensures NoTerminator(args[from..]) && ExecParts(args, pos, parts).error == MissingArgument("-exec")
    decreases |args| - pos
  {
    if pos < |args| {
      assert args[from..pos + 1] == args[from..pos] + [args[pos]];
      EndlessParts(args, from, pos + 1, parts + [args[pos]]);
    } else {
      assert args[from..] == args[from..pos];
    }
  }

  lemma PrimaryExplained(args: seq<string>, pos: nat) returns (b: Broken)
    requires pos <= |args| && (pos < |args| ==> !IsNot(args[pos]) && args[pos] != "(")
    ensures Explains(b, 2, args, pos, ParsePrimary(args, pos))
  {
    hide ExecParts, NoTerminator;
    b := Nothing;
    if pos < |args| && ParsePrimary(args, pos).Err? {
      if args[pos] == "-exec" {
        NoParts();
        EndlessParts(args, pos + 1, pos + 1, []);
        HeadAndTail(args[pos..]);
        DropMore(args, pos, 1);
        b := Endless(args[pos + 1..]);
      } else if TakesArgument(args[pos]) {
        b := Lacking(args[pos]);
      } else {
        b := NoSuch(args[pos]);
      }
    }
  }

  lemma NoParts()
    ensures NoTerminator([])
  {
  }

  lemma UnaryOpens(args: seq<string>, pos: nat)
    ensures ParseUnary(args, pos) ==
            if pos >= |args| then Err(ExpectedExpression)
            else if IsNot(args[pos]) then
              (var inner := ParseUnary(args, pos + 1);
               if inner.Err? then inner else Ok((Not(inner.value.0), inner.value.1)))
            else if args[pos] == "(" then Close(args, ParseOr(args, pos + 1))
            else ParsePrimary(args, pos)
  {
    hide ParseOr, ParsePrimary;
  }

  lemma WrittenIs(f: Form, level: nat, args: seq<string>, pos: nat, end: nat)
    requires pos <= end <= |args| && WellFormed(f, level) && Printable(Meaning(f)) && Text(f) == args[pos..end]
    ensures Written(f, level, args, pos) && pos + |Text(f)| == end
  {
    hide WellFormed, Meaning, Printable, Text;
  }

  lemma {:induction false} UnaryExplained(args: seq<string>, pos: nat) returns (b: Broken)
    requires NoDepths(args) && pos <= |args|
    ensures Explains(b, 2, args, pos, ParseUnary(args, pos))
    decreases |args| - pos, 1
  {
    hide ParseUnary, ParseOr, ParsePrimary, Written, WellFormed, Meaning, Printable, Text, NoDepths;
    UnaryOpens(args, pos);
    b := Nothing;
    if pos < |args| && ParseUnary(args, pos).Err? {
      if IsNot(args[pos]) {
        var inner := UnaryExplained(args, pos + 1);
        b := UnderNot(inner);
      } else if args[pos] == "(" {
        var inner := ParseOr(args, pos + 1);
        if inner.Ok? {
          var f := OrSpelled(args, pos + 1);
          OrStops(args, pos + 1);
          WrittenIs(f, 0, args, pos + 1, inner.value.1);
          b := Unclosed(f);
        } else {
          var broken := OrExplained(args, pos + 1);
          b := Within(broken);
        }
      } else {
        b := PrimaryExplained(args, pos);
      }
    }
  }

  lemma {:induction false} OrExplained(args: seq<string>, pos: nat) returns (b: Broken)
    requires NoDepths(args) && pos <= |args|
    ensures Explains(b, 0, args, pos, ParseOr(args, pos))
    decreases |args| - pos, 5
  {
    hide ParseAnd, MoreOr, WellFormed, Meaning, Printable, Text, NoDepths, Breaks;
    b := Nothing;
    var left := ParseAnd(args, pos);
    if left.Ok? {
      var f := AndSpelled(args, pos);
      Looser(f, 1, 0);
      b := MoreOrExplained(args, pos, left.value.1, f);
    } else {
      b := AndExplained(args, pos);
      Tighter(b, 1, args, pos);
    }
  }

  lemma {:induction false} MoreOrExplained(args: seq<string>, from: nat, pos: nat, left: Form) returns (b: Broken)
    requires NoDepths(args) && from < pos <= |args| && Text(left) == args[from..pos]
    requires WellFormed(left, 0) && Printable(Meaning(left))
    ensures Explains(b, 0, args, from, MoreOr(args, pos, Meaning(left)))
    decreases |args| - pos, 4
  {
    hide ParseAnd, MoreOr, Text, WellFormed, Meaning, Printable, NoDepths;
    b := Nothing;
    if pos < |args| && IsOr(args[pos]) {
      var right := ParseAnd(args, pos + 1);
      MoreOrOpens(args, pos, Meaning(left));
      if right.Ok? {
        var g := AndSpelled(args, pos + 1);
        var end := right.value.1;
        EitherIs(left, args[pos], g);
        assert args[from..end] == args[from..pos] + ([args[pos]] + args[pos + 1..end]);
        b := MoreOrExplained(args, from, end, Either(left, args[pos], g));
      } else {
        var inner := AndExplained(args, pos + 1);
        WrittenIs(left, 0, args, from, pos);
        b := AfterOr(left, inner);
      }
    } else {
      StopOr(args, pos, Meaning(left));
    }
  }

  lemma {:induction false} AndExplained(args: seq<string>, pos: nat) returns (b: Broken)
    requires NoDepths(args) && pos <= |args|
    ensures Explains(b, 1, args, pos, ParseAnd(args, pos))
    decreases |args| - pos, 3
  {
    hide ParseUnary, MoreAnd, WellFormed, Meaning, Printable, Text, NoDepths, Breaks;
    b := Nothing;
    var left := ParseUnary(args, pos);
    if left.Ok? {
      var f := UnarySpelled(args, pos);
      Looser(f, 2, 1);
      b := MoreAndExplained(args, pos, left.value.1, f);
    } else {
      b := UnaryExplained(args, pos);
      Tighter(b, 2, args, pos);
    }
  }

  lemma {:induction false} MoreAndExplained(args: seq<string>, from: nat, pos: nat, left: Form) returns (b: Broken)
    requires NoDepths(args) && from < pos <= |args| && Text(left) == args[from..pos]
    requires WellFormed(left, 1) && Printable(Meaning(left))
    ensures Explains(b, 1, args, from, MoreAnd(args, pos, Meaning(left)))
    decreases |args| - pos, 2
  {
    hide ParseUnary, MoreAnd, Text, WellFormed, Meaning, Printable, NoDepths;
    b := Nothing;
    if AndEnds(args, pos) {
      StopAnd(args, pos, Meaning(left));
    } else {
      var spelled := if IsAnd(args[pos]) then [args[pos]] else [];
      var start := pos + |spelled|;
      MoreAndOpens(args, pos, start, Meaning(left));
      var right := ParseUnary(args, start);
      if right.Ok? {
        var g := UnarySpelled(args, start);
        var end := right.value.1;
        BothIs(left, spelled, g);
        assert args[from..end] == args[from..pos] + (spelled + args[start..end]);
        b := MoreAndExplained(args, from, end, Both(left, spelled, g));
      } else {
        var inner := UnaryExplained(args, start);
        WrittenIs(left, 1, args, from, pos);
        b := AfterAnd(left, spelled, inner);
      }
    }
  }

  // ----- where an expression stops -----------------------------------------------------------------------

  /** The parser stops only at the end or at a closing parenthesis. */
  lemma OrStops(args: seq<string>, pos: nat)
    ensures var r := ParseOr(args, pos);
            r.Ok? && r.value.1 < |args| ==> args[r.value.1] == ")"
  {
    hide ParseAnd, MoreOr;
    var left := ParseAnd(args, pos);
    if left.Ok? {
      AndStops(args, pos);
      MoreOrStops(args, left.value.1, left.value.0);
    }
  }

  lemma {:induction false} MoreOrStops(args: seq<string>, pos: nat, left: FindExpr)
    requires pos <= |args| && AndEnds(args, pos)
    ensures var r := MoreOr(args, pos, left);
            r.Ok? && r.value.1 < |args| ==> args[r.value.1] == ")"
    decreases |args| - pos
  {
    hide ParseAnd;
    if pos < |args| && IsOr(args[pos]) {
      var right := ParseAnd(args, pos + 1);
      if right.Ok? {
        AndStops(args, pos + 1);
        MoreOrStops(args, right.value.1, Or(left, right.value.0));
      }
    }
  }

  lemma AndStops(args: seq<string>, pos: nat)
    ensures ParseAnd(args, pos).Ok? ==> AndEnds(args, ParseAnd(args, pos).value.1)
  {
    hide ParseUnary, MoreAnd;
    var left := ParseUnary(args, pos);
    if left.Ok? {
      MoreAndStops(args, left.value.1, left.value.0);
    }
  }

  lemma {:induction false} MoreAndStops(args: seq<string>, pos: nat, left: FindExpr)
    requires pos <= |args|
    ensures MoreAnd(args, pos, left).Ok? ==> AndEnds(args, MoreAnd(args, pos, left).value.1)
    decreases |args| - pos
  {
    hide ParseUnary;
    if !AndEnds(args, pos) {
      var start := if IsAnd(args[pos]) then pos + 1 else pos;
      MoreAndOpens(args, pos, start, left);
      var right := ParseUnary(args, start);
      if right.Ok? {
        MoreAndStops(args, right.value.1, And(left, right.value.0));
      }
    }
  }

  // ----- whole command lines ------------------------------------------------------------------------------

  /** The expression is broken, or a closing parenthesis follows it that nothing opened. */
  ghost predicate Refuses(kept: seq<string>, e: FindError) {
    || (kept != [] && exists b :: Breaks(b, 0, kept, 0) && Reason(b) == e)
    || (e == UnexpectedArgument(")")
        && exists f :: Written(f, 0, kept, 0) && |Text(f)| < |kept| && kept[|Text(f)|] == ")")
  }

  lemma KeptRefused(opts: FindOpts, kept: seq<string>, e: FindError)
    requires NoDepths(kept)
    ensures ParseKept(opts, kept) == Err(e) <==> Refuses(kept, e)
  {
    hide ParseOr, MoreOr, Written, Breaks, WellFormed, Meaning, Printable, Text, NoDepths;
    if ParseKept(opts, kept) == Err(e) {
      var parsed := ParseOr(kept, 0);
      if parsed.Err? {
        var b := OrExplained(kept, 0);
      } else {
        var f := OrSpelled(kept, 0);
        OrStops(kept, 0);
        WrittenIs(f, 0, kept, 0, parsed.value.1);
      }
    }
    if kept != [] && exists b :: Breaks(b, 0, kept, 0) && Reason(b) == e {
      var b :| Breaks(b, 0, kept, 0) && Reason(b) == e;
      BrokenIsReported(b, 0, kept, 0);
    } else if Refuses(kept, e) {
      var f :| Written(f, 0, kept, 0) && |Text(f)| < |kept| && kept[|Text(f)|] == ")";
      StrayParenthesis(kept, f);
    }
  }

  lemma StrayParenthesis(kept: seq<string>, f: Form)
    requires Written(f, 0, kept, 0) && |Text(f)| < |kept| && kept[|Text(f)|] == ")"
    ensures ParseOr(kept, 0) == Ok((Meaning(f), |Text(f)|))
  {
    hide ParseOr, MoreOr, At, Text, WellFormed, Meaning, Printable;
    ReadOr(kept, 0, f);
    StopOr(kept, |Text(f)|, Meaning(f));
  }

  /** A well-formed beginning of the line, before a depth option that has no number or a bad one. */
  ghost predicate DepthFails(args: seq<string>, line: seq<Arg>, option: string, e: FindError) {
    && ValidLine(line) && NoDepths(Kept(line)) && DepthOption(option) && |Line(line)| < |args|
    && args[..|Line(line)|] == Line(line) && args[|Line(line)|] == option
    && (if |Line(line)| + 1 == |args| then e == MissingArgument(option)
        else
          var value := args[|Line(line)| + 1];
          ParseUsize(value).None? && e == InvalidDepth(option, value))
  }

  /** What makes the first pass fail, or else the second. */
  ghost predicate Refused(args: seq<string>, e: FindError) {
    || (exists line, option :: DepthFails(args, line, option, e))
    || (exists line :: ValidLine(line) && NoDepths(Kept(line)) && Line(line) == args && Refuses(Kept(line), e))
  }

  /** The line begins at `i`. */
  predicate LineAt(args: seq<string>, i: nat, line: seq<Arg>) {
    At(args, i, Line(line))
  }

  function OwnWordsOf(arg: Arg): seq<string> {
    if arg.Word? then [arg.word] else [arg.option, arg.number]
  }

  lemma LineOpens(args: seq<string>, i: nat, line: seq<Arg>)
    requires line != [] && LineAt(args, i, line)
    ensures var n := |OwnWordsOf(line[0])|;
            && i + n <= |args| && LineAt(args, i + n, line[1..]) && |Line(line)| == n + |Line(line[1..])|
            && args[i] == OwnWordsOf(line[0])[0] && args[i + n - 1] == OwnWordsOf(line[0])[n - 1]
  {
    var own := OwnWordsOf(line[0]);
    AtConcat(args, i, own, Line(line[1..]));
    AtWord(args, i, own, 0);
    AtWord(args, i, own, |own| - 1);
  }

  lemma KeptOpens(line: seq<Arg>)
    requires line != [] && ValidLine(line) && NoDepths(Kept(line))
    ensures ValidLine(line[1..]) && NoDepths(Kept(line[1..]))
    ensures Kept(line) == (if line[0].Word? then [line[0].word] else []) + Kept(line[1..])
    ensures line[0].Word? ==> !DepthOption(line[0].word)
    ensures line[0].Depth? ==> DepthOption(line[0].option) && ParseUsize(line[0].number).Some?
  {
    hide ParseUsize, DepthOption, NoDepths;
    var own := if line[0].Word? then [line[0].word] else [];
    NoDepthsConcat(own, Kept(line[1..]));
    if line[0].Word? {
      OneWord(line[0].word);
    }
  }

  lemma {:induction false} ExtractStops(args: seq<string>, i: nat, line: seq<Arg>, opts: FindOpts, kept: seq<string>)
    requires ValidLine(line) && NoDepths(Kept(line)) && LineAt(args, i, line)
    ensures i + |Line(line)| <= |args|
    ensures Extract(args, i, opts, kept) ==
            Extract(args, i + |Line(line)|, Depths(line, opts), kept + Kept(line))
    decreases |line|
  {
    hide ParseUsize, IsDepth, DepthOption, NoDepths, ValidLine, LineAt;
    if line == [] {
      NothingExtracted(args, i);
      assert kept + [] == kept;
    } else {
      var first, rest := line[0], line[1..];
      hide Line, Kept;
      LineOpens(args, i, line);
      KeptOpens(line);
      if first.Word? {
        TwoKinds(first.word);
        Associates(kept, [first.word], Kept(rest));
        ExtractStops(args, i + 1, rest, opts, kept + [first.word]);
      } else {
        TwoKinds(first.option);
        assert [] + Kept(rest) == Kept(rest);
        ExtractStops(args, i + 2, rest, SetDepth(first.option, ParseUsize(first.number), opts), kept);
      }
    }
  }

  lemma NothingExtracted(args: seq<string>, i: nat)
    requires LineAt(args, i, [])
    ensures i <= |args|
  {
  }

  lemma {:induction false} ExtractFails(args: seq<string>, i: nat, opts: FindOpts, kept: seq<string>)
    returns (line: seq<Arg>, option: string)
    requires i <= |args| && Extract(args, i, opts, kept).Err?
    ensures DepthFails(args[i..], line, option, Extract(args, i, opts, kept).error)
    decreases |args| - i
  {
    hide ParseUsize, IsDepth, DepthOption, NoDepths;
    NoWords();
    TwoKinds(args[i]);
    line, option := [], args[i];
    if !IsDepth(args[i]) {
      line, option := ExtractFails(args, i + 1, opts, kept + [args[i]]);
      OneWord(args[i]);
      NoDepthsConcat([args[i]], Kept(line));
      HeadAndTail(args[i..]);
      DropMore(args, i, 1);
      line := LaterDepth(args[i..], Word(args[i]), line, option, Extract(args, i, opts, kept).error);
    } else if i + 1 < |args| && ParseUsize(args[i + 1]).Some? {
      line, option := ExtractFails(args, i + 2, SetDepth(args[i], ParseUsize(args[i + 1]), opts), kept);
      DropMore(args, i, 2);
      line := LaterDepth(args[i..], Depth(args[i], args[i + 1]), line, option, Extract(args, i, opts, kept).error);
    }
  }

  lemma LaterDepth(args: seq<string>, first: Arg, rest: seq<Arg>, option: string, e: FindError)
    returns (line: seq<Arg>)
    requires if first.Word? then |args| >= 1 && args[0] == first.word && NoDepths([first.word])
             else
               && |args| >= 2 && args[0] == first.option && args[1] == first.number
               && DepthOption(first.option) && ParseUsize(first.number).Some?
    requires DepthFails(args[if first.Word? then 1 else 2..], rest, option, e)
    ensures line == [first] + rest && DepthFails(args, line, option, e)
  {
    hide ParseUsize, DepthOption, NoDepths;
    line := [first] + rest;
    Prepended(first, rest);
    var n: nat := if first.Word? then 1 else 2;
    var own := if first.Word? then [first.word] else [first.option, first.number];
    assert Line(line) == own + Line(rest);
    assert args[..n] == own;
    assert args[..|Line(line)|] == args[..n] + args[n..][..|Line(rest)|];
    NoDepthsConcat(if first.Word? then [first.word] else [], Kept(rest));
    assert Kept(line) == (if first.Word? then [first.word] else []) + Kept(rest);
    NoWords();
  }

  /** A line is refused with an error exactly when something in it is the reason for that error. */
  lemma RefusalIsExact(args: seq<string>, e: FindError)
    ensures ParseFind(args) == Err(e) <==> Refused(args, e)
  {
    hide Extract, ParseKept, DepthFails, Refuses, ValidLine, NoDepths, Line, Kept, Depths;
    var none := FindOpts(None, None, None);
    var first := Extract(args, 0, none, []);
    assert args[0..] == args;
    if first.Err? {
      var line, option := ExtractFails(args, 0, none, []);
      assert DepthFails(args, line, option, first.error);
    } else {
      var line := ExtractIsLine(args, 0, none, []);
      assert [] + Kept(line) == Kept(line);
      KeptRefused(first.value.0, Kept(line), e);
    }
    if exists line, option :: DepthFails(args, line, option, e) {
      var line, option :| DepthFails(args, line, option, e);
      DepthStops(args, line, option, e);
    } else if Refused(args, e) {
      var line :| ValidLine(line) && NoDepths(Kept(line)) && Line(line) == args && Refuses(Kept(line), e);
      ExtractReads(args, 0, line, none, []);
      assert [] + Kept(line) == Kept(line);
      KeptRefused(Depths(line, none), Kept(line), e);
    }
  }

  lemma DepthStops(args: seq<string>, line: seq<Arg>, option: string, e: FindError)
    requires DepthFails(args, line, option, e)
    ensures Extract(args, 0, FindOpts(None, None, None), []) == Err(e)
  {
    hide Depths, ValidLine, NoDepths, Line, Kept, ParseUsize;
    assert LineAt(args, 0, line);
    assert args[0..|Line(line)|] == args[..|Line(line)|];
    ExtractStops(args, 0, line, FindOpts(None, None, None), []);
    TwoKinds(option);
  }
}
