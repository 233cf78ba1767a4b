/**
 find's parser against its grammar. A command line is written by spelling each operator in any way,
 with the parentheses that are needed or more, and with depth options anywhere among the words. It
 parses back to what was written exactly when its `-exec` words hold no terminator and none of its
 words is a depth option; and every line that is accepted is written like that.
 */
module FindPrinter {
  import opened Wrappers
  import opened Numerals
  import opened Find

  // ----- writing --------------------------------------------------------------------------------

  /** An expression as written: spellings, parentheses, and the argument of `-type`. */
  datatype Form =
    | Leaf(e: FindExpr)
    | TypeAs(word: string)
    | Negated(word: string, inner: Form)
    | Both(left: Form, spelled: seq<string>, right: Form)
    | Either(left: Form, word: string, right: Form)
    | Parens(inner: Form)

  function Meaning(f: Form): FindExpr {
    match f
    case Leaf(e) => e
    case TypeAs(word) => Type(if word == "" then 'f' else word[0])
    case Negated(_, inner) => Not(Meaning(inner))
    case Both(left, _, right) => And(Meaning(left), Meaning(right))
    case Either(left, _, right) => Or(Meaning(left), Meaning(right))
    case Parens(inner) => Meaning(inner)
  }

  function LeafWords(e: FindExpr): seq<string> {
    match e
    case Name(pattern) => ["-name", pattern]
    case Empty => ["-empty"]
    case Newer(file) => ["-newer", file]
    case Print => ["-print"]
    case Print0 => ["-print0"]
    case ExecEach(parts) => ["-exec"] + (parts + [";"])
    case ExecBatch(parts) => ["-exec"] + (parts + ["+"])
    case _ => []
  }

  function Text(f: Form): seq<string> {
    match f
    case Leaf(e) => LeafWords(e)
    case TypeAs(word) => ["-type", word]
    case Negated(word, inner) => [word] + Text(inner)
    case Both(left, spelled, right) => Text(left) + (spelled + Text(right))
    case Either(left, word, right) => Text(left) + ([word] + Text(right))
    case Parens(inner) => ["("] + (Text(inner) + [")"])
  }

  predicate DepthOption(word: string) {
    word in ["-maxdepth", "-mindepth"]
  }

  /** Level 0 takes any expression, level 1 no bare `-o`, level 2 neither `-o` nor `-a`. */
  predicate WellFormed(f: Form, level: nat) {
    match f
    case Leaf(e) => !e.Type? && !e.Not? && !e.And? && !e.Or?
    case TypeAs(word) => !DepthOption(word)
    case Negated(word, inner) => word in ["!", "-not"] && WellFormed(inner, 2)
    case Both(left, spelled, right) =>
      && level <= 1 && spelled in [[], ["-a"], ["-and"]]
      && WellFormed(left, 1) && WellFormed(right, 2)
    case Either(left, word, right) =>
      level == 0 && word in ["-o", "-or"] && WellFormed(left, 0) && WellFormed(right, 1)
    case Parens(inner) => WellFormed(inner, 0)
  }

  /** `;` ends the words of `-exec`, and so does a `+` that is not the first. */
  predicate NoTerminator(parts: seq<string>) {
    forall i :: 0 <= i < |parts| ==> parts[i] != ";" && (i > 0 ==> parts[i] != "+")
  }

  predicate Printable(e: FindExpr) {
    match e
    case ExecEach(parts) => NoTerminator(parts)
    case ExecBatch(parts) => parts != [] && NoTerminator(parts)
    case Not(inner) => Printable(inner)
    case And(left, right) => Printable(left) && Printable(right)
    case Or(left, right) => Printable(left) && Printable(right)
    case _ => true
  }

  // ----- reading what is written ------------------------------------------------------------------

  predicate At(args: seq<string>, pos: nat, words: seq<string>) {
    pos + |words| <= |args| && args[pos..pos + |words|] == words
  }

  lemma AtConcat(args: seq<string>, pos: nat, a: seq<string>, b: seq<string>)
    requires At(args, pos, a + b)
    ensures At(args, pos, a) && At(args, pos + |a|, b)
  {
    var ab := a + b;
    assert ab[..|a|] == a && ab[|a|..] == b;
    assert args[pos..pos + |ab|][..|a|] == args[pos..pos + |a|];
    assert args[pos..pos + |ab|][|a|..] == args[pos + |a|..pos + |a| + |b|];
  }

  lemma AtWord(args: seq<string>, pos: nat, words: seq<string>, i: nat)
    requires At(args, pos, words) && i < |words|
    ensures args[pos + i] == words[i]
  {
    assert args[pos..pos + |words|][i] == args[pos + i];
  }

  /** No expression starts with an operator word or a closing parenthesis. */
  lemma {:induction false} FirstWord(f: Form, level: nat)
    requires WellFormed(f, level)
    ensures var words := Text(f);
            words != [] && !IsOr(words[0]) && !IsAnd(words[0]) && words[0] != ")"
  {
    if f.Both? {
      FirstWord(f.left, 1);
    } else if f.Either? {
      FirstWord(f.left, 0);
    }
  }

  lemma {:induction false} ReadParts(args: seq<string>, pos: nat, done: seq<string>, todo: seq<string>, batch: bool)
    requires At(args, pos, todo + [if batch then "+" else ";"])
    requires NoTerminator(done + todo) && (batch ==> done + todo != [])
    ensures ExecParts(args, pos, done) ==
            Ok((if batch then ExecBatch(done + todo) else ExecEach(done + todo), pos + |todo| + 1))
    decreases |todo|
  {
    var last := [if batch then "+" else ";"];
    AtWord(args, pos, todo + last, 0);
    if todo == [] {
      assert done + todo == done;
    } else {
      assert (done + todo)[|done|] == todo[0];
      assert todo + last == [todo[0]] + (todo[1..] + last);
      AtConcat(args, pos, [todo[0]], todo[1..] + last);
      assert (done + [todo[0]]) + todo[1..] == done + todo;
      ReadParts(args, pos + 1, done + [todo[0]], todo[1..], batch);
    }
  }

  /** A word that starts a primary is read by the routine for primaries. */
  lemma UnaryIsPrimary(args: seq<string>, pos: nat)
    requires pos < |args| && !IsNot(args[pos]) && args[pos] != "("
    ensures ParseUnary(args, pos) == ParsePrimary(args, pos)
  {
    hide ParseOr, ParsePrimary;
  }

  lemma ReadExec(args: seq<string>, pos: nat, parts: seq<string>, batch: bool)
    requires NoTerminator(parts) && (batch ==> parts != [])
    requires At(args, pos, ["-exec"] + (parts + [if batch then "+" else ";"]))
    ensures ParsePrimary(args, pos) == Ok((if batch then ExecBatch(parts) else ExecEach(parts), pos + |parts| + 2))
  {
    hide ExecParts;
    var tail := parts + [if batch then "+" else ";"];
    AtConcat(args, pos, ["-exec"], tail);
    AtWord(args, pos, ["-exec"] + tail, 0);
    assert [] + parts == parts;
    ReadParts(args, pos + 1, [], parts, batch);
  }

  /** A word with its argument, or alone. */
  lemma ReadWord(args: seq<string>, pos: nat, e: FindExpr)
    requires (e.Name? || e.Newer? || e.Empty? || e.Print? || e.Print0?) && At(args, pos, LeafWords(e))
    ensures ParsePrimary(args, pos) == Ok((e, pos + |LeafWords(e)|))
  {
    hide ExecParts;
    AtWord(args, pos, LeafWords(e), 0);
    if e.Name? || e.Newer? {
      AtWord(args, pos, LeafWords(e), 1);
    }
  }

  lemma ReadLeaf(args: seq<string>, pos: nat, e: FindExpr)
    requires Printable(e) && !e.Type? && !e.Not? && !e.And? && !e.Or? && At(args, pos, LeafWords(e))
    ensures ParseUnary(args, pos) == Ok((e, pos + |LeafWords(e)|))
  {
    hide ParseUnary, ParsePrimary, NoTerminator;
    LeafStarts(e);
    AtWord(args, pos, LeafWords(e), 0);
    UnaryIsPrimary(args, pos);
    if e.ExecEach? {
      ReadExec(args, pos, e.parts, false);
    } else if e.ExecBatch? {
      ReadExec(args, pos, e.parts, true);
    } else {
      ReadWord(args, pos, e);
    }
  }

  lemma LeafStarts(e: FindExpr)
    requires !e.Type? && !e.Not? && !e.And? && !e.Or?
    ensures LeafWords(e) != [] && !IsNot(LeafWords(e)[0]) && LeafWords(e)[0] != "("
  {
  }

  lemma ReadType(args: seq<string>, pos: nat, word: string)
    requires At(args, pos, ["-type", word])
    ensures ParseUnary(args, pos) == Ok((Meaning(TypeAs(word)), pos + 2))
  {
    hide ParseUnary, ExecParts;
    AtWord(args, pos, ["-type", word], 0);
    AtWord(args, pos, ["-type", word], 1);
    UnaryIsPrimary(args, pos);
  }

  /** Juxtaposition ends here. */
  predicate AndEnds(args: seq<string>, pos: nat) {
    pos < |args| ==> IsOr(args[pos]) || args[pos] == ")"
  }

  lemma StepAnd(args: seq<string>, pos: nat, start: nat, left: FindExpr, right: FindExpr, end: nat)
    requires pos < |args| && !IsOr(args[pos]) && args[pos] != ")"
    requires start == (if IsAnd(args[pos]) then pos + 1 else pos)
    requires ParseUnary(args, start) == Ok((right, end))
    ensures MoreAnd(args, pos, left) == MoreAnd(args, end, And(left, right))
  {
    hide ParseUnary;
  }

  lemma StopAnd(args: seq<string>, pos: nat, left: FindExpr)
    requires pos <= |args| && AndEnds(args, pos)
    ensures MoreAnd(args, pos, left) == Ok((left, pos))
  {
  }

  lemma StopOr(args: seq<string>, pos: nat, left: FindExpr)
    requires pos <= |args| && (pos < |args| ==> !IsOr(args[pos]))
    ensures MoreOr(args, pos, left) == Ok((left, pos))
  {
  }

  lemma StepOr(args: seq<string>, pos: nat, left: FindExpr, right: FindExpr, end: nat)
    requires pos < |args| && IsOr(args[pos]) && ParseAnd(args, pos + 1) == Ok((right, end))
    ensures MoreOr(args, pos, left) == MoreOr(args, end, Or(left, right))
  {
    hide ParseAnd;
  }

  lemma StartAnd(args: seq<string>, pos: nat, e: FindExpr, end: nat)
    requires ParseUnary(args, pos) == Ok((e, end))
    ensures ParseAnd(args, pos) == MoreAnd(args, end, e)
  {
    hide ParseUnary, MoreAnd;
  }

  lemma StartOr(args: seq<string>, pos: nat, e: FindExpr, end: nat)
    requires ParseAnd(args, pos) == Ok((e, end))
    ensures ParseOr(args, pos) == MoreOr(args, end, e)
  {
    hide ParseAnd, MoreOr;
  }

  lemma StepNot(args: seq<string>, pos: nat, e: FindExpr, end: nat)
    requires pos < |args| && IsNot(args[pos]) && ParseUnary(args, pos + 1) == Ok((e, end))
    ensures ParseUnary(args, pos) == Ok((Not(e), end))
  {
    hide ParseOr, ParsePrimary;
  }

  lemma StepParens(args: seq<string>, pos: nat, e: FindExpr, end: nat)
    requires pos < |args| && args[pos] == "(" && ParseOr(args, pos + 1) == Ok((e, end))
    requires end < |args| && args[end] == ")"
    ensures ParseUnary(args, pos) == Ok((e, end + 1))
  {
    hide ParseOr, ParsePrimary;
  }

  /** What a form is made of, and what it says, one level down. */
  lemma PartsOf(f: Form, level: nat)
    requires WellFormed(f, level) && Printable(Meaning(f))
    ensures f.Negated? ==>
              && IsNot(f.word) && WellFormed(f.inner, 2) && Printable(Meaning(f.inner))
              && Meaning(f) == Not(Meaning(f.inner)) && Text(f) == [f.word] + Text(f.inner)
    ensures f.Parens? ==>
              && WellFormed(f.inner, 0) && Printable(Meaning(f.inner))
              && Meaning(f) == Meaning(f.inner) && Text(f) == ["("] + (Text(f.inner) + [")"])
    ensures f.Both? ==>
              && level <= 1 && (f.spelled == [] || (|f.spelled| == 1 && IsAnd(f.spelled[0])))
              && WellFormed(f.left, 1) && WellFormed(f.right, 2)
              && Printable(Meaning(f.left)) && Printable(Meaning(f.right))
              && Meaning(f) == And(Meaning(f.left), Meaning(f.right))
              && Text(f) == Text(f.left) + (f.spelled + Text(f.right))
    ensures f.Either? ==>
              && level == 0 && IsOr(f.word) && WellFormed(f.left, 0) && WellFormed(f.right, 1)
              && Printable(Meaning(f.left)) && Printable(Meaning(f.right))
              && Meaning(f) == Or(Meaning(f.left), Meaning(f.right))
              && Text(f) == Text(f.left) + ([f.word] + Text(f.right))
    ensures !f.Either? ==> WellFormed(f, if f.Both? then 1 else 2)
  {
  }

  lemma ReadSingle(args: seq<string>, pos: nat, f: Form)
    requires (f.Leaf? || f.TypeAs?) && WellFormed(f, 2) && Printable(Meaning(f)) && At(args, pos, Text(f))
    ensures ParseUnary(args, pos) == Ok((Meaning(f), pos + |Text(f)|))
  {
    hide ParseUnary, At;
    if f.TypeAs? {
      ReadType(args, pos, f.word);
    } else {
      ReadLeaf(args, pos, f.e);
    }
  }

  lemma {:induction false} ReadUnary(args: seq<string>, pos: nat, f: Form)
    requires WellFormed(f, 2) && Printable(Meaning(f)) && At(args, pos, Text(f))
    ensures ParseUnary(args, pos) == Ok((Meaning(f), pos + |Text(f)|))
    decreases f, 0
  {
    hide ParseUnary, ParseOr, MoreOr, At, Text, WellFormed, Meaning, Printable;
    PartsOf(f, 2);
    if f.Negated? {
      AtWord(args, pos, Text(f), 0);
      AtConcat(args, pos, [f.word], Text(f.inner));
      AtBound(args, pos, Text(f));
      ReadUnary(args, pos + 1, f.inner);
      StepNot(args, pos, Meaning(f.inner), pos + |Text(f)|);
    } else if f.Parens? {
      var words := Text(f.inner);
      var end := pos + 1 + |words|;
      AtWord(args, pos, Text(f), 0);
      AtBound(args, pos, Text(f));
      AtConcat(args, pos, ["("], words + [")"]);
      AtConcat(args, pos + 1, words, [")"]);
      AtWord(args, end, [")"], 0);
      ReadOr(args, pos + 1, f.inner);
      StopOr(args, end, Meaning(f.inner));
      StepParens(args, pos, Meaning(f.inner), end);
    } else {
      ReadSingle(args, pos, f);
    }
  }

  lemma AtBound(args: seq<string>, pos: nat, words: seq<string>)
    requires At(args, pos, words)
    ensures pos + |words| <= |args|
  {
  }

  /** An expression without a bare `-o`: the and-loop reaches its end with it in hand. */
  lemma {:induction false} ReadAnd(args: seq<string>, pos: nat, f: Form)
    requires WellFormed(f, 1) && Printable(Meaning(f)) && At(args, pos, Text(f))
    ensures ParseAnd(args, pos) == MoreAnd(args, pos + |Text(f)|, Meaning(f))
    decreases f, 1
  {
    hide ParseAnd, ParseUnary, MoreAnd, At, Text, WellFormed, Meaning, Printable;
    PartsOf(f, 1);
    AtBound(args, pos, Text(f));
    if f.Both? {
      var l, r := Text(f.left), Text(f.right);
      var mid := pos + |l|;
      AtConcat(args, pos, l, f.spelled + r);
      AtConcat(args, mid, f.spelled, r);
      ReadAnd(args, pos, f.left);
      FirstWord(f.right, 2);
      AtWord(args, mid, f.spelled + r, 0);
      ReadUnary(args, mid + |f.spelled|, f.right);
      StepAnd(args, mid, mid + |f.spelled|, Meaning(f.left), Meaning(f.right), mid + |f.spelled| + |r|);
    } else {
      ReadUnary(args, pos, f);
      StartAnd(args, pos, Meaning(f), pos + |Text(f)|);
    }
  }

  /** Any expression: the or-loop reaches its end with it in hand. */
  lemma {:induction false} ReadOr(args: seq<string>, pos: nat, f: Form)
    requires WellFormed(f, 0) && Printable(Meaning(f)) && At(args, pos, Text(f))
    requires AndEnds(args, pos + |Text(f)|)
    ensures ParseOr(args, pos) == MoreOr(args, pos + |Text(f)|, Meaning(f))
    decreases f, 2
  {
    hide ParseOr, ParseAnd, MoreOr, MoreAnd, At, Text, WellFormed, Meaning, Printable;
    PartsOf(f, 0);
    AtBound(args, pos, Text(f));
    var end := pos + |Text(f)|;
    if f.Either? {
      var l, r := Text(f.left), Text(f.right);
      var mid := pos + |l|;
      AtConcat(args, pos, l, [f.word] + r);
      AtConcat(args, mid, [f.word], r);
      AtWord(args, mid, [f.word], 0);
      AtBound(args, mid, [f.word]);
      ReadOr(args, pos, f.left);
      ReadAnd(args, mid + 1, f.right);
      StopAnd(args, end, Meaning(f.right));
      StepOr(args, mid, Meaning(f.left), Meaning(f.right), end);
    } else {
      Looser(f, if f.Both? then 1 else 2, 1);
      ReadAnd(args, pos, f);
      StopAnd(args, end, Meaning(f));
      StartOr(args, pos, Meaning(f), end);
    }
  }

  // ----- everything that is read is written ---------------------------------------------------------

  /** The words from `pos` to where the parse ends spell its result. */
  predicate Spells(f: Form, level: nat, args: seq<string>, pos: nat, r: Parsed)
    requires Advances(args, pos, r)
  {
    r.Ok? ==>
      && WellFormed(f, level) && Meaning(f) == r.value.0 && Printable(r.value.0)
      && Text(f) == args[pos..r.value.1]
  }

  predicate NoDepths(args: seq<string>) {
    forall i :: 0 <= i < |args| ==> !DepthOption(args[i])
  }

  lemma {:induction false} PartsSpelled(args: seq<string>, from: nat, pos: nat, parts: seq<string>)
    requires from <= pos <= |args| && parts == args[from..pos] && NoTerminator(parts)
    ensures var r := ExecParts(args, pos, parts);
            r.Ok? ==>
              && from < r.value.1 && Printable(r.value.0)
              && ((r.value.0.ExecEach? && args[from..r.value.1] == r.value.0.parts + [";"])
                  || (r.value.0.ExecBatch? && args[from..r.value.1] == r.value.0.parts + ["+"]))
    decreases |args| - pos
  {
    if pos < |args| {
      assert args[from..pos + 1] == args[from..pos] + [args[pos]];
      if args[pos] != ";" && !(args[pos] == "+" && parts != []) {
        PartsSpelled(args, from, pos + 1, parts + [args[pos]]);
      }
    }
  }

  lemma PrimarySpelled(args: seq<string>, pos: nat) returns (f: Form)
    requires NoDepths(args)
    ensures Spells(f, 2, args, pos, ParsePrimary(args, pos))
  {
    hide ExecParts;
    var r := ParsePrimary(args, pos);
    f := Leaf(Empty);
    if r.Ok? {
      var end := r.value.1;
      assert args[pos..end] == [args[pos]] + args[pos + 1..end];
      if args[pos] == "-type" {
        f := TypeAs(args[pos + 1]);
      } else if args[pos] == "-exec" {
        PartsSpelled(args, pos + 1, pos + 1, []);
        f := Leaf(r.value.0);
      } else {
        f := Leaf(r.value.0);
      }
    }
  }

  lemma {:induction false} OrSpelled(args: seq<string>, pos: nat) returns (f: Form)
    requires NoDepths(args)
    ensures Spells(f, 0, args, pos, ParseOr(args, pos))
    decreases |args| - pos, 5
  {
    hide ParseAnd, MoreOr;
    f := AndSpelled(args, pos);
    var left := ParseAnd(args, pos);
    if left.Ok? {
      Looser(f, 1, 0);
      f := MoreOrSpelled(args, pos, left.value.1, f);
    }
  }

  lemma {:induction false} MoreOrSpelled(args: seq<string>, from: nat, pos: nat, left: Form) returns (f: Form)
    requires NoDepths(args) && from < pos <= |args| && Text(left) == args[from..pos]
    requires WellFormed(left, 0) && Printable(Meaning(left))
    ensures Spells(f, 0, args, from, MoreOr(args, pos, Meaning(left)))
    decreases |args| - pos, 4
  {
    hide ParseAnd, MoreOr, Text, WellFormed, Meaning, Printable;
    f := left;
    if pos < |args| && IsOr(args[pos]) {
      var right := ParseAnd(args, pos + 1);
      MoreOrOpens(args, pos, Meaning(left));
      if right.Ok? {
        var g := AndSpelled(args, pos + 1);
        var end := right.value.1;
        EitherIs(left, args[pos], g);
        assert args[from..end] == args[from..pos] + ([args[pos]] + args[pos + 1..end]);
        f := MoreOrSpelled(args, from, end, Either(left, args[pos], g));
      }
    } else {
      StopOr(args, pos, Meaning(left));
    }
  }

  lemma MoreOrOpens(args: seq<string>, pos: nat, left: FindExpr)
    requires pos < |args| && IsOr(args[pos])
    ensures var right := ParseAnd(args, pos + 1);
            MoreOr(args, pos, left) ==
            if right.Err? then right else MoreOr(args, right.value.1, Or(left, right.value.0))
  {
    hide ParseAnd;
  }

  lemma EitherIs(left: Form, word: string, right: Form)
    requires IsOr(word) && WellFormed(left, 0) && WellFormed(right, 1)
    ensures var f := Either(left, word, right);
            && WellFormed(f, 0) && Meaning(f) == Or(Meaning(left), Meaning(right))
            && (Printable(Meaning(f)) <==> Printable(Meaning(left)) && Printable(Meaning(right)))
            && Text(f) == Text(left) + ([word] + Text(right))
  {
  }

  lemma BothIs(left: Form, spelled: seq<string>, right: Form)
    requires spelled == [] || (|spelled| == 1 && IsAnd(spelled[0]))
    requires WellFormed(left, 1) && WellFormed(right, 2)
    ensures var f := Both(left, spelled, right);
            && WellFormed(f, 1) && Meaning(f) == And(Meaning(left), Meaning(right))
            && (Printable(Meaning(f)) <==> Printable(Meaning(left)) && Printable(Meaning(right)))
            && Text(f) == Text(left) + (spelled + Text(right))
  {
    if spelled != [] {
      assert spelled == [spelled[0]];
      assert [spelled[0]] == ["-a"] || [spelled[0]] == ["-and"];
    }
  }

  lemma Looser(f: Form, level: nat, looser: nat)
    requires WellFormed(f, level) && looser <= level
    ensures WellFormed(f, looser)
  {
  }

  lemma {:induction false} AndSpelled(args: seq<string>, pos: nat) returns (f: Form)
    requires NoDepths(args)
    ensures Spells(f, 1, args, pos, ParseAnd(args, pos))
    decreases |args| - pos, 3
  {
    hide ParseUnary, MoreAnd;
    f := UnarySpelled(args, pos);
    var left := ParseUnary(args, pos);
    if left.Ok? {
      Looser(f, 2, 1);
      f := MoreAndSpelled(args, pos, left.value.1, f);
    }
  }

  lemma {:induction false} MoreAndSpelled(args: seq<string>, from: nat, pos: nat, left: Form) returns (f: Form)
    requires NoDepths(args) && from < pos <= |args| && Text(left) == args[from..pos]
    requires WellFormed(left, 1) && Printable(Meaning(left))
    ensures Spells(f, 1, args, from, MoreAnd(args, pos, Meaning(left)))
    decreases |args| - pos, 2
  {
    hide ParseUnary, MoreAnd, Text, WellFormed, Meaning, Printable;
    f := left;
    if AndEnds(args, pos) {
      StopAnd(args, pos, Meaning(left));
    } else {
      var spelled := if IsAnd(args[pos]) then [args[pos]] else [];
      var start := pos + |spelled|;
      MoreAndOpens(args, pos, start, Meaning(left));
      var right := ParseUnary(args, start);
      if right.Ok? {
        var g := UnarySpelled(args, start);
        var end := right.value.1;
        BothIs(left, spelled, g);
        assert args[from..end] == args[from..pos] + (spelled + args[start..end]);
        f := MoreAndSpelled(args, from, end, Both(left, spelled, g));
      }
    }
  }

  lemma MoreAndOpens(args: seq<string>, pos: nat, start: nat, left: FindExpr)
    requires pos < |args| && !AndEnds(args, pos) && start == (if IsAnd(args[pos]) then pos + 1 else pos)
    ensures var right := ParseUnary(args, start);
            MoreAnd(args, pos, left) ==
            if right.Err? then right else MoreAnd(args, right.value.1, And(left, right.value.0))
  {
    hide ParseUnary;
  }

  lemma {:induction false} UnarySpelled(args: seq<string>, pos: nat) returns (f: Form)
    requires NoDepths(args)
    ensures Spells(f, 2, args, pos, ParseUnary(args, pos))
    decreases |args| - pos, 1
  {
    hide ParseOr, ParsePrimary;
    f := Leaf(Empty);
    var r := ParseUnary(args, pos);
    if r.Ok? {
      if IsNot(args[pos]) {
        var inner := UnarySpelled(args, pos + 1);
        f := Negated(args[pos], inner);
        assert args[pos..r.value.1] == [args[pos]] + args[pos + 1..r.value.1];
      } else if args[pos] == "(" {
        var inner := OrSpelled(args, pos + 1);
        var end := r.value.1 - 1;
        f := Parens(inner);
        assert args[pos..end + 1] == ["("] + (args[pos + 1..end] + [")"]);
      } else {
        f := PrimarySpelled(args, pos);
      }
    }
  }

  // ----- whole command lines ------------------------------------------------------------------------

  /** A word of the expression, or a depth option with its number. */
  datatype Arg = Word(word: string) | Depth(option: string, number: string)

  predicate ValidLine(line: seq<Arg>) {
    forall i :: 0 <= i < |line| && line[i].Depth? ==> DepthOption(line[i].option) && ParseUsize(line[i].number).Some?
  }

  function Line(line: seq<Arg>): seq<string> {
    if line == [] then []
    else (if line[0].Word? then [line[0].word] else [line[0].option, line[0].number]) + Line(line[1..])
  }

  /** The words of the expression. */
  function Kept(line: seq<Arg>): seq<string> {
    if line == [] then [] else (if line[0].Word? then [line[0].word] else []) + Kept(line[1..])
  }

  /** The depths; the last option of a kind wins. */
  function Depths(line: seq<Arg>, opts: FindOpts): FindOpts {
    if line == [] then opts
    else if line[0].Word? then Depths(line[1..], opts)
    else Depths(line[1..], SetDepth(line[0].option, ParseUsize(line[0].number), opts))
  }

  function SetDepth(option: string, depth: Option<nat>, opts: FindOpts): FindOpts {
    if option == "-maxdepth" then opts.(maxDepth := depth) else opts.(minDepth := depth)
  }

  /** The line gives these options: depths anywhere, and the expression in some form. */
  ghost predicate Writes(line: seq<Arg>, opts: FindOpts) {
    && ValidLine(line) && Depths(line, FindOpts(None, None, None)) == opts.(expr := None)
    && (if opts.expr.None? then Kept(line) == []
        else exists f :: WellFormed(f, 0) && Meaning(f) == opts.expr.value && Text(f) == Kept(line))
  }

  /** Every word the expression holds satisfies `ok`. */
  ghost predicate Words(e: FindExpr, ok: string -> bool) {
    match e
    case Name(pattern) => ok(pattern)
    case Newer(file) => ok(file)
    case ExecEach(parts) => forall i :: 0 <= i < |parts| ==> ok(parts[i])
    case ExecBatch(parts) => forall i :: 0 <= i < |parts| ==> ok(parts[i])
    case Not(inner) => Words(inner, ok)
    case And(left, right) => Words(left, ok) && Words(right, ok)
    case Or(left, right) => Words(left, ok) && Words(right, ok)
    case _ => true
  }

  predicate NotDepth(word: string) {
    !DepthOption(word)
  }

  lemma NoDepthsConcat(a: seq<string>, b: seq<string>)
    ensures NoDepths(a + b) <==> NoDepths(a) && NoDepths(b)
  {
    if NoDepths(a + b) {
      assert forall i :: 0 <= i < |a| ==> a[i] == (a + b)[i];
      assert forall i :: 0 <= i < |b| ==> b[i] == (a + b)[|a| + i];
    }
  }

  /** The words of a form are find's own and those that its expression holds. */
  lemma {:induction false} FormWords(f: Form, level: nat)
    requires WellFormed(f, level)
    ensures NoDepths(Text(f)) <==> Words(Meaning(f), NotDepth)
  {
    hide DepthOption, NoDepths;
    OwnWords();
    if f.Negated? {
      FormWords(f.inner, 2);
      OneWord(f.word);
      OperatorWords(f.word);
      NoDepthsConcat([f.word], Text(f.inner));
    } else if f.Both? {
      FormWords(f.left, 1);
      FormWords(f.right, 2);
      if f.spelled != [] {
        OneWord(f.spelled[0]);
        OperatorWords(f.spelled[0]);
        assert f.spelled == [f.spelled[0]];
      } else {
        NoWords();
      }
      NoDepthsConcat(f.spelled, Text(f.right));
      NoDepthsConcat(Text(f.left), f.spelled + Text(f.right));
    } else if f.Either? {
      FormWords(f.left, 0);
      FormWords(f.right, 1);
      OneWord(f.word);
      OperatorWords(f.word);
      NoDepthsConcat([f.word], Text(f.right));
      NoDepthsConcat(Text(f.left), [f.word] + Text(f.right));
    } else if f.Parens? {
      FormWords(f.inner, 0);
      NoDepthsConcat(Text(f.inner), [")"]);
      NoDepthsConcat(["("], Text(f.inner) + [")"]);
    } else if f.TypeAs? {
      OneWord(f.word);
      assert ["-type", f.word] == ["-type"] + [f.word];
      NoDepthsConcat(["-type"], [f.word]);
    } else {
      LeafWordsDepths(f.e);
    }
  }

  lemma NoWords()
    ensures NoDepths([])
  {
  }

  lemma OneWord(word: string)
    ensures NoDepths([word]) <==> !DepthOption(word)
  {
    assert [word][0] == word;
  }

  lemma OwnWords()
    ensures NoDepths(["("]) && NoDepths([")"]) && NoDepths(["-exec"]) && NoDepths([";"]) && NoDepths(["+"])
    ensures NoDepths(["-type"]) && NoDepths(["-name"]) && NoDepths(["-newer"])
    ensures NoDepths(["-empty"]) && NoDepths(["-print"]) && NoDepths(["-print0"])
  {
  }

  lemma OperatorWords(word: string)
    ensures IsNot(word) || IsOr(word) || IsAnd(word) ==> !DepthOption(word)
  {
  }

  lemma LeafWordsDepths(e: FindExpr)
    requires !e.Type? && !e.Not? && !e.And? && !e.Or?
    ensures NoDepths(LeafWords(e)) <==> Words(e, NotDepth)
  {
    hide DepthOption;
    OwnWords();
    if e.Name? {
      OneWord(e.pattern);
      assert LeafWords(e) == ["-name"] + [e.pattern];
      NoDepthsConcat(["-name"], [e.pattern]);
    } else if e.Newer? {
      OneWord(e.file);
      assert LeafWords(e) == ["-newer"] + [e.file];
      NoDepthsConcat(["-newer"], [e.file]);
    } else if e.ExecEach? {
      NoDepthsConcat(e.parts, [";"]);
      NoDepthsConcat(["-exec"], e.parts + [";"]);
    } else if e.ExecBatch? {
      NoDepthsConcat(e.parts, ["+"]);
      NoDepthsConcat(["-exec"], e.parts + ["+"]);
    }
  }

  /** The first pass takes the depth options out, wherever they stand. */
  lemma {:induction false} ExtractReads(args: seq<string>, i: nat, line: seq<Arg>, opts: FindOpts, kept: seq<string>)
    requires i <= |args| && args[i..] == Line(line) && ValidLine(line) && NoDepths(Kept(line))
    ensures Extract(args, i, opts, kept) == Ok((Depths(line, opts), kept + Kept(line)))
    decreases |line|
  {
    hide ParseUsize, IsDepth, DepthOption;
    if line == [] {
      assert |args[i..]| == 0;
      assert kept + [] == kept;
    } else {
      var first, rest := line[0], line[1..];
      LineTail(args, i, line);
      if first.Word? {
        NoDepthsConcat([first.word], Kept(rest));
        OneWord(first.word);
        TwoKinds(first.word);
        ExtractReads(args, i + 1, rest, opts, kept + [first.word]);
        assert kept + [first.word] + Kept(rest) == kept + Kept(line);
      } else {
        assert [] + Kept(rest) == Kept(rest);
        ExtractReads(args, i + 2, rest, SetDepth(first.option, ParseUsize(first.number), opts), kept);
        TwoKinds(first.option);
      }
    }
  }

  lemma TwoKinds(option: string)
    ensures DepthOption(option) <==> IsDepth(option)
    ensures DepthOption(option) <==> option == "-maxdepth" || option == "-mindepth"
  {
  }

  lemma LineTail(args: seq<string>, i: nat, line: seq<Arg>)
    requires i <= |args| && args[i..] == Line(line) && line != []
    ensures line[0].Word? ==> i < |args| && args[i] == line[0].word && args[i + 1..] == Line(line[1..])
    ensures line[0].Depth? ==>
              && i + 1 < |args| && args[i] == line[0].option && args[i + 1] == line[0].number
              && args[i + 2..] == Line(line[1..])
  {
    var own := if line[0].Word? then [line[0].word] else [line[0].option, line[0].number];
    assert args[i..] == own + Line(line[1..]);
    assert args[i..][0] == own[0];
    assert args[i..][|own|..] == Line(line[1..]) && args[i..][|own|..] == args[i + |own|..];
    if line[0].Depth? {
      assert args[i..][1] == own[1];
    }
  }

  /** What the first pass takes out is a line. */
  lemma {:induction false} ExtractIsLine(args: seq<string>, i: nat, opts: FindOpts,
                                         kept: seq<string>) returns (line: seq<Arg>)
    requires i <= |args|
    ensures var r := Extract(args, i, opts, kept);
            r.Ok? ==>
              && ValidLine(line) && Line(line) == args[i..] && NoDepths(Kept(line))
              && r.value == (Depths(line, opts), kept + Kept(line))
    decreases |args| - i
  {
    hide ParseUsize, IsDepth, DepthOption;
    line := [];
    NoWords();
    if i < |args| {
      TwoKinds(args[i]);
      if !IsDepth(args[i]) {
        var rest := ExtractIsLine(args, i + 1, opts, kept + [args[i]]);
        line := [Word(args[i])] + rest;
        assert line[1..] == rest && args[i..] == [args[i]] + args[i + 1..];
        assert kept + [args[i]] + Kept(rest) == kept + ([args[i]] + Kept(rest));
        OneWord(args[i]);
        NoDepthsConcat([args[i]], Kept(rest));
      } else if i + 1 < |args| && ParseUsize(args[i + 1]).Some? {
        var rest := ExtractIsLine(args, i + 2, SetDepth(args[i], ParseUsize(args[i + 1]), opts), kept);
        line := [Depth(args[i], args[i + 1])] + rest;
        assert line[1..] == rest && args[i..] == [args[i], args[i + 1]] + args[i + 2..];
        assert [] + Kept(rest) == Kept(rest);
      }
    } else {
      assert args[i..] == [] && kept + [] == kept;
    }
  }

  lemma ParseKeptForm(opts: FindOpts, f: Form)
    requires WellFormed(f, 0) && Printable(Meaning(f))
    ensures ParseKept(opts, Text(f)) == Ok(opts.(expr := Some(Meaning(f))))
  {
    hide Text, ParseOr, MoreOr;
    var words := Text(f);
    assert words[0..|words|] == words;
    FirstWord(f, 0);
    ReadOr(words, 0, f);
    StopOr(words, |words|, Meaning(f));
  }

  lemma {:induction false} DepthsKeepExpr(line: seq<Arg>, opts: FindOpts)
    ensures Depths(line, opts).expr == opts.expr
  {
    if line != [] && line[0].Depth? {
      DepthsKeepExpr(line[1..], SetDepth(line[0].option, ParseUsize(line[0].number), opts));
    } else if line != [] {
      DepthsKeepExpr(line[1..], opts);
    }
  }

  /** Nothing stands in the way of reading the expression: no terminator, no depth option among its words. */
  ghost predicate Readable(opts: FindOpts) {
    opts.expr.Some? ==> Printable(opts.expr.value) && Words(opts.expr.value, NotDepth)
  }

  /** Whatever is accepted is a line that gives just these options, with readable words. */
  lemma AcceptedIsWritten(args: seq<string>) returns (line: seq<Arg>)
    ensures ParseFind(args).Ok? ==>
              Line(line) == args && Writes(line, ParseFind(args).value) && Readable(ParseFind(args).value)
  {
    hide Extract, ParseOr, Text, WellFormed, Meaning, Printable, Words, ValidLine, Line, Kept, Depths, NoDepths;
    var none := FindOpts(None, None, None);
    line := ExtractIsLine(args, 0, none, []);
    assert args[0..] == args && [] + Kept(line) == Kept(line);
    var r := ParseFind(args);
    if r.Ok? {
      DepthsKeepExpr(line, none);
      var kept := Kept(line);
      if kept != [] {
        var f := OrSpelled(kept, 0);
        assert kept[0..|kept|] == kept;
        FormWords(f, 0);
        assert WellFormed(f, 0) && Meaning(f) == r.value.expr.value && Text(f) == kept;
      }
    }
  }

  /**
   A written command line parses back to what it gives exactly when the `-exec` words hold no
   terminator and no word of the expression is a depth option.
   */
  lemma ParserUndoesWriting(line: seq<Arg>, opts: FindOpts)
    requires Writes(line, opts)
    ensures ParseFind(Line(line)) == Ok(opts) <==> Readable(opts)
  {
    hide Extract, ParseKept, Text, WellFormed, Meaning, Printable, Words, ValidLine, Line, Kept, Depths, NoDepths;
    if Readable(opts) {
      var none := FindOpts(None, None, None);
      assert Line(line)[0..] == Line(line) && [] + Kept(line) == Kept(line);
      if opts.expr.Some? {
        var f :| WellFormed(f, 0) && Meaning(f) == opts.expr.value && Text(f) == Kept(line);
        FormWords(f, 0);
        ExtractReads(Line(line), 0, line, none, []);
        ParseKeptForm(Depths(line, none), f);
      } else {
        NoWords();
        ExtractReads(Line(line), 0, line, none, []);
        NothingKept(Depths(line, none));
      }
    }
    if ParseFind(Line(line)) == Ok(opts) {
      var again := AcceptedIsWritten(Line(line));
    }
  }

  lemma NothingKept(opts: FindOpts)
    ensures ParseKept(opts, []) == Ok(opts)
  {
  }

  /** Writing down again what was parsed, in any way, and parsing that changes nothing. */
  lemma RewritingIsStable(args: seq<string>, line: seq<Arg>)
    requires ParseFind(args).Ok? && Writes(line, ParseFind(args).value)
    ensures ParseFind(Line(line)) == ParseFind(args)
  {
    hide ParseFind, Writes, Readable;
    var again := AcceptedIsWritten(args);
    ParserUndoesWriting(line, ParseFind(args).value);
  }

  // ----- the printer --------------------------------------------------------------------------------

  function InParens(f: Form, needed: bool): Form {
    if needed then Parens(f) else f
  }

  /** With the parentheses that are needed and no more. */
  function Shown(e: FindExpr, level: nat): Form {
    match e
    case Type(kind) => TypeAs([kind])
    case Not(inner) => Negated("!", Shown(inner, 2))
    case And(left, right) => InParens(Both(Shown(left, 1), [], Shown(right, 2)), level > 1)
    case Or(left, right) => InParens(Either(Shown(left, 0), "-o", Shown(right, 1)), level > 0)
    case _ => Leaf(e)
  }

  lemma {:induction false} ShownMeans(e: FindExpr, level: nat)
    ensures WellFormed(Shown(e, level), level) && Meaning(Shown(e, level)) == e
  {
    if e.Type? {
      assert |[e.kind]| == 1;
    } else if e.Not? {
      ShownMeans(e.inner, 2);
    } else if e.And? {
      ShownMeans(e.left, 1);
      ShownMeans(e.right, 2);
    } else if e.Or? {
      ShownMeans(e.left, 0);
      ShownMeans(e.right, 1);
    }
  }

  function WordArgs(words: seq<string>): seq<Arg> {
    if words == [] then [] else [Word(words[0])] + WordArgs(words[1..])
  }

  predicate Depth64(depth: Option<nat>) {
    depth.Some? ==> depth.value < 0x1_0000_0000_0000_0000
  }

  function DepthArgs(option: string, depth: Option<nat>): seq<Arg> {
    if depth.None? then [] else [Depth(option, Decimal(depth.value))]
  }

  function ShownLine(opts: FindOpts): seq<Arg> {
    DepthArgs("-maxdepth", opts.maxDepth) + DepthArgs("-mindepth", opts.minDepth)
    + (if opts.expr.None? then [] else WordArgs(Text(Shown(opts.expr.value, 0))))
  }

  lemma {:induction false} WordsOnly(words: seq<string>, opts: FindOpts)
    ensures ValidLine(WordArgs(words)) && Kept(WordArgs(words)) == words && Depths(WordArgs(words), opts) == opts
  {
    if words != [] {
      WordsOnly(words[1..], opts);
      assert WordArgs(words)[1..] == WordArgs(words[1..]);
      assert [words[0]] + words[1..] == words;
    }
  }

  lemma DepthFirst(option: string, depth: Option<nat>, line: seq<Arg>, opts: FindOpts)
    requires DepthOption(option) && Depth64(depth) && ValidLine(line)
    ensures ValidLine(DepthArgs(option, depth) + line) && Kept(DepthArgs(option, depth) + line) == Kept(line)
    ensures Depths(DepthArgs(option, depth) + line, opts) ==
            Depths(line, if depth.None? then opts else SetDepth(option, depth, opts))
  {
    if depth.None? {
      assert [] + line == line;
    } else {
      DecimalReads(depth.value);
      var whole := DepthArgs(option, depth) + line;
      assert whole[1..] == line;
      assert [] + Kept(line) == Kept(line);
    }
  }

  /** Any options can be written, with minimal parentheses. */
  lemma PrinterWrites(opts: FindOpts)
    requires Depth64(opts.maxDepth) && Depth64(opts.minDepth)
    ensures Writes(ShownLine(opts), opts)
  {
    hide Text, ValidLine, Kept, Depths, Decimal, WordArgs, WellFormed, Meaning;
    var words := if opts.expr.None? then [] else Text(Shown(opts.expr.value, 0));
    var none := FindOpts(None, None, None);
    var tail := WordArgs(words);
    NoArgs();
    WordsOnly(words, opts.(expr := None));
    var low := DepthArgs("-mindepth", opts.minDepth);
    DepthFirst("-mindepth", opts.minDepth, tail, none.(maxDepth := opts.maxDepth));
    DepthFirst("-maxdepth", opts.maxDepth, low + tail, none);
    assert ShownLine(opts) == DepthArgs("-maxdepth", opts.maxDepth) + (low + tail);
    if opts.expr.Some? {
      var f := Shown(opts.expr.value, 0);
      ShownMeans(opts.expr.value, 0);
      assert WellFormed(f, 0) && Meaning(f) == opts.expr.value && Text(f) == Kept(ShownLine(opts));
    }
  }

  lemma NoArgs()
    ensures WordArgs([]) == []
  {
  }

  /** The printer's own case: minimal parentheses, depth options first. */
  lemma ParserUndoesPrinter(opts: FindOpts)
    requires Depth64(opts.maxDepth) && Depth64(opts.minDepth)
    ensures ParseFind(Line(ShownLine(opts))) == Ok(opts) <==> Readable(opts)
  {
    hide Writes, ParseFind, Readable, ShownLine;
    PrinterWrites(opts);
    ParserUndoesWriting(ShownLine(opts), opts);
  }
}
