/** The converse of the grammar: whatever the evaluator accepts to the end is a written expression. */
module BcAccepted {
  import opened Wrappers
  import opened Bc
  import opened BcGrammar

  lemma {:induction false} PastAll(input: string, pos: nat, inClass: char -> bool)
    requires pos <= |input|
    ensures var end := Past(input, pos, inClass);
            && (forall i :: pos <= i < end ==> inClass(input[i]))
            && (end < |input| ==> !inClass(input[end]))
    decreases |input| - pos
  {
    if pos < |input| && inClass(input[pos]) {
      PastAll(input, pos + 1, inClass);
    }
  }

  lemma SkippedSpaces(input: string, pos: nat)
    requires pos <= |input|
    ensures Spaces(input[pos..SkipSpace(input, pos)])
    ensures SkipSpace(input, SkipSpace(input, pos)) == SkipSpace(input, pos)
  {
    PastAll(input, pos, IsSpace);
    SkipTwice(input, pos);
  }

  /** The form is what stands from `pos` to `end`, and has the value. */
  predicate Covers<V(==)>(f: Form, level: nat, input: string, pos: nat, end: nat, value: V, env: Env<V>)
    requires pos <= end <= |input|
  {
    WellFormed(f, level) && Text(f) == input[pos..end] && Eval(Meaning(f), env) == Ok(value)
  }

  /** Up to spaces at the end. */
  predicate CoversLoosely<V(==)>(f: Form, level: nat, input: string, pos: nat, end: nat, to: nat, value: V,
                                 env: Env<V>)
  {
    pos <= end <= to <= |input| && Spaces(input[end..to]) && Covers(f, level, input, pos, end, value, env)
  }

  lemma Slices(input: string, a: nat, b: nat, c: nat)
    requires a <= b <= c <= |input|
    ensures input[a..c] == input[a..b] + input[b..c]
  {
  }

  lemma RunIsWord(input: string, from: nat, to: nat, inClass: char -> bool)
    requires from < to <= |input| && forall i :: from <= i < to ==> inClass(input[i])
    ensures Word(input[from..to], inClass) && input[from..to][0] == input[from]
  {
  }

  lemma LeafCovers<V>(input: string, pos: nat, start: nat, end: nat, leaf: Tree, value: V, env: Env<V>)
    requires pos <= start <= end <= |input| && Spaces(input[pos..start])
    requires LeafOk(leaf) && LeafText(leaf) == input[start..end] && Eval(leaf, env) == Ok(value)
    ensures Covers(Leaf(input[pos..start], leaf), UNARY, input, pos, end, value, env)
  {
    hide Spaces, LeafOk;
    Slices(input, pos, start, end);
  }

  lemma WordWritten<V>(input: string, pos: nat, start: nat, env: Env<V>) returns (f: Form)
    requires pos <= |input| && start == SkipSpace(input, pos)
    ensures var r := ParseWord(input, start, env);
            r.result.Ok? ==> Covers(f, UNARY, input, pos, r.pos, r.result.value, env)
  {
    hide Past, IsNumberChar, IsNameChar, Word, Covers, SkipSpace, Spaces;
    PastAll(input, start, IsNumberChar);
    PastAll(input, start, IsNameChar);
    SkippedSpaces(input, pos);
    var numberEnd, nameEnd := Past(input, start, IsNumberChar), Past(input, start, IsNameChar);
    var r := ParseWord(input, start, env);
    f := Leaf("", Var(""));
    if numberEnd > start {
      RunIsWord(input, start, numberEnd, IsNumberChar);
      f := Leaf(input[pos..start], Num(input[start..numberEnd]));
      if r.result.Ok? {
        LeafCovers(input, pos, start, numberEnd, Num(input[start..numberEnd]), r.result.value, env);
      }
    } else if nameEnd > start {
      RunIsWord(input, start, nameEnd, IsNameChar);
      f := Leaf(input[pos..start], Var(input[start..nameEnd]));
      LeafCovers(input, pos, start, nameEnd, Var(input[start..nameEnd]), r.result.value, env);
    }
  }

  /** The steps of `ParseUnary`, at the first character that is not a space. */
  lemma UnaryOpens<V>(input: string, pos: nat, env: Env<V>)
    requires pos <= |input|
    ensures var start := SkipSpace(input, pos);
            ParseUnary(input, pos, env) ==
            if start < |input| && input[start] == '-' then Negated(ParseUnary(input, start + 1, env), env)
            else if start < |input| && input[start] == '+' then ParseUnary(input, start + 1, env)
            else if start < |input| && input[start] == '(' then CloseParens(input, ParseExpr(input, start + 1, 0, env))
            else ParseWord(input, start, env)
  {
    hide ParseExpr, ParseOperators;
    SkipTwice(input, pos);
  }

  lemma SignedIs<V>(input: string, pos: nat, start: nat, end: nat, minus: bool, f: Form, value: V, env: Env<V>)
    requires pos <= start < end <= |input| && start == SkipSpace(input, pos)
    requires input[start] == (if minus then '-' else '+') && Covers(f, UNARY, input, start + 1, end, value, env)
    ensures Covers(Prefix(input[pos..start], minus, f), UNARY, input, pos, end,
                   if minus then env.negate(value) else value, env)
  {
    hide WellFormed, Text, Eval, SkipSpace;
    SkippedSpaces(input, pos);
    var space := input[pos..start];
    PrefixIs(space, minus, f, env);
    Slices(input, start, start + 1, end);
    Slices(input, pos, start, end);
    assert input[start..start + 1] == Sign(minus);
  }

  lemma PrefixIs<V>(space: string, minus: bool, arg: Form, env: Env<V>)
    requires Spaces(space) && WellFormed(arg, UNARY)
    ensures var f := Prefix(space, minus, arg);
            && WellFormed(f, UNARY) && Text(f) == space + (Sign(minus) + Text(arg))
            && (Eval(Meaning(arg), env).Ok? ==>
                  var value := Eval(Meaning(arg), env).value;
                  Eval(Meaning(f), env) == Ok(if minus then env.negate(value) else value))
  {
  }

  lemma ParensIs<V>(space: string, body: Form, space2: string, env: Env<V>)
    requires Spaces(space) && Spaces(space2) && WellFormed(body, 0)
    ensures var f := Parens(space, body, space2);
            && WellFormed(f, UNARY) && Text(f) == space + ("(" + (Text(body) + (space2 + ")")))
            && Eval(Meaning(f), env) == Eval(Meaning(body), env)
  {
  }

  lemma ParensText(input: string, pos: nat, start: nat, end: nat, close: nat)
    requires pos <= start < end <= close < |input| && input[start] == '(' && input[close] == ')'
    ensures input[pos..close + 1] ==
            input[pos..start] + ("(" + (input[start + 1..end] + (input[end..close] + ")")))
  {
    Slices(input, end, close, close + 1);
    Slices(input, start + 1, end, close + 1);
    Slices(input, start, start + 1, close + 1);
    Slices(input, pos, start, close + 1);
    assert input[start..start + 1] == "(" && input[close..close + 1] == ")";
  }

  lemma SpacesJoin(input: string, a: nat, b: nat, c: nat)
    requires a <= b <= c <= |input| && Spaces(input[a..b]) && Spaces(input[b..c])
    ensures Spaces(input[a..c])
  {
    Slices(input, a, b, c);
  }

  lemma ParensWritten<V>(input: string, pos: nat, start: nat, body: Form, end: nat, to: nat, value: V, env: Env<V>)
    returns (f: Form)
    requires pos <= start < |input| && start == SkipSpace(input, pos) && input[start] == '('
    requires start + 1 <= to <= |input| && CoversLoosely(body, 0, input, start + 1, end, to, value, env)
    ensures var r := CloseParens(input, Parsed(Ok(value), to));
            r.result.Ok? ==> Covers(f, UNARY, input, pos, r.pos, r.result.value, env)
  {
    hide WellFormed, Text, Eval, SkipSpace, Spaces;
    var close := SkipSpace(input, to);
    f := body;
    if close < |input| && input[close] == ')' {
      SkippedSpaces(input, pos);
      SkippedSpaces(input, to);
      SpacesJoin(input, end, to, close);
      f := Parens(input[pos..start], body, input[end..close]);
      ParensIs(input[pos..start], body, input[end..close], env);
      ParensText(input, pos, start, end, close);
    }
  }

  lemma {:induction false} UnaryWritten<V>(input: string, pos: nat, env: Env<V>) returns (f: Form)
    requires pos <= |input|
    ensures var r := ParseUnary(input, pos, env);
            r.result.Ok? ==> Covers(f, UNARY, input, pos, r.pos, r.result.value, env)
    decreases |input| - pos, 1
  {
    hide ParseUnary, ParseExpr, ParseWord, ParseOperators, SkipSpace, Covers;
    UnaryOpens(input, pos, env);
    var start := SkipSpace(input, pos);
    if start < |input| && (input[start] == '-' || input[start] == '+') {
      var inner := ParseUnary(input, start + 1, env);
      var arg := UnaryWritten(input, start + 1, env);
      f := Prefix(input[pos..start], input[start] == '-', arg);
      if inner.result.Ok? {
        SignedIs(input, pos, start, inner.pos, input[start] == '-', arg, inner.result.value, env);
      }
    } else if start < |input| && input[start] == '(' {
      var inner := ParseExpr(input, start + 1, 0, env);
      var body, end := ExprWritten(input, start + 1, 0, env);
      f := body;
      if inner.result.Ok? {
        f := ParensWritten(input, pos, start, body, end, inner.pos, inner.result.value, env);
      }
    } else {
      f := WordWritten(input, pos, start, env);
    }
  }

  /** Where the loop stops: no operator that it would take follows. */
  predicate Stopped(input: string, pos: nat, minPrec: nat)
    requires pos <= |input|
  {
    SkipSpace(input, pos) == pos && (OpAt(input, pos).Some? ==> Prec(OpAt(input, pos).value) < minPrec)
  }

  lemma {:induction false} ExprWritten<V>(input: string, pos: nat, minPrec: nat, env: Env<V>) returns (f: Form,
                                          end: nat)
    requires pos <= |input| && minPrec <= UNARY
    ensures var r := ParseExpr(input, pos, minPrec, env);
            r.result.Ok? ==>
              && CoversLoosely(f, minPrec, input, pos, end, r.pos, r.result.value, env)
              && Stopped(input, r.pos, minPrec)
    decreases |input| - pos, 3
  {
    hide ParseExpr, ParseOperators, ParseUnary, ParsePrimary, Covers, SkipSpace;
    var left := ParseUnary(input, pos, env);
    f := UnaryWritten(input, pos, env);
    end := left.pos;
    StepExpr(input, pos, minPrec, env);
    if left.result.Ok? {
      f, end := OperatorsWritten(input, pos, left.pos, f, UNARY, left.result.value, minPrec, env);
    }
  }

  lemma Operators<V>(input: string, pos: nat, left: V, minPrec: nat, env: Env<V>)
    requires pos <= |input|
    ensures var start := SkipSpace(input, pos);
            var op := OpAt(input, start);
            var r := ParseOperators(input, pos, left, minPrec, env);
            && (Cuts(input, start) ==> r.result.Err?)
            && (!Cuts(input, start) && (op.None? || Prec(op.value) < minPrec) ==> r == Parsed(Ok(left), start))
  {
    hide ParseExpr, ParseUnary, ParsePrimary;
  }

  lemma OpHere(input: string, pos: nat, op: Op)
    requires pos <= |input| && OpAt(input, pos) == Some(op)
    ensures pos + |OpText(op)| <= |input| && input[pos..pos + |OpText(op)|] == OpText(op)
  {
  }

  lemma InfixIs<V>(left: Form, space: string, op: Op, right: Form, l: V, r: V, env: Env<V>)
    requires WellFormed(left, LeftLevel(op)) && WellFormed(right, RightLevel(op)) && Spaces(space)
    requires Eval(Meaning(left), env) == Ok(l) && Eval(Meaning(right), env) == Ok(r)
    ensures var f := Infix(left, space, op, right);
            && WellFormed(f, Prec(op)) && Text(f) == Text(left) + (space + (OpText(op) + Text(right)))
            && Eval(Meaning(f), env) == Apply(op, l, r, env)
  {
  }

  /** A form that may stand at a level may stand at a lower one. */
  lemma Lower(f: Form, level: nat, lower: nat)
    requires WellFormed(f, level) && lower <= level
    ensures WellFormed(f, lower)
  {
  }

  /** After an operation and its right operand, the next operator may take the operation as its left one. */
  lemma NextOperator(op: Op, next: Op)
    requires Prec(next) < RightLevel(op)
    ensures LeftLevel(next) <= Prec(op)
  {
  }

  lemma {:induction false} OperatorsWritten<V>(input: string, from: nat, pos: nat, left: Form, level: nat, value: V,
                                               minPrec: nat, env: Env<V>) returns (f: Form, end: nat)
    requires from <= pos <= |input| && Covers(left, level, input, from, pos, value, env) && minPrec <= level
    requires var op := OpAt(input, SkipSpace(input, pos)); op.Some? ==> LeftLevel(op.value) <= level
    ensures var r := ParseOperators(input, pos, value, minPrec, env);
            r.result.Ok? ==>
              && CoversLoosely(f, minPrec, input, from, end, r.pos, r.result.value, env)
              && Stopped(input, r.pos, minPrec)
    decreases |input| - pos, 2
  {
    hide ParseExpr, ParseOperators, ParseUnary, ParsePrimary, WellFormed, Text, Eval, OpText, OpAt, SkipSpace;
    hide Cuts, Apply, LeftLevel;
    f, end := left, pos;
    var start := SkipSpace(input, pos);
    var op := OpAt(input, start);
    SkippedSpaces(input, pos);
    Operators(input, pos, value, minPrec, env);
    if op.None? || Prec(op.value) < minPrec {
      Lower(left, level, minPrec);
    } else if !Cuts(input, start) {
      StepOperator(input, pos, value, minPrec, op.value, env);
      OpHere(input, start, op.value);
      OperatorStart(op.value);
      var opEnd := start + |OpText(op.value)|;
      var right := ParseExpr(input, opEnd, RightLevel(op.value), env);
      var g, gEnd := ExprWritten(input, opEnd, RightLevel(op.value), env);
      if right.result.Ok? {
        var whole := Infix(left, input[pos..start], op.value, g);
        Lower(left, level, LeftLevel(op.value));
        InfixIs(left, input[pos..start], op.value, g, value, right.result.value, env);
        WholeText(input, from, pos, start, opEnd, gEnd);
        var applied := Apply(op.value, value, right.result.value, env);
        if applied.Ok? {
          SpacesAreSkipped(input, gEnd, right.pos);
          OperatorsAfterSpace(input, gEnd, applied.value, minPrec, env);
          if OpAt(input, right.pos).Some? {
            NextOperator(op.value, OpAt(input, right.pos).value);
          }
          f, end := OperatorsWritten(input, from, gEnd, whole, Prec(op.value), applied.value, minPrec, env);
        }
      }
    }
  }

  lemma WholeText(input: string, from: nat, pos: nat, start: nat, opEnd: nat, end: nat)
    requires from <= pos <= start <= opEnd <= end <= |input|
    ensures input[from..end] == input[from..pos] + (input[pos..start] + (input[start..opEnd] + input[opEnd..end]))
  {
  }

  /** Spaces up to a place that is not one are what is skipped. */
  lemma SpacesAreSkipped(input: string, end: nat, to: nat)
    requires end <= to <= |input| && Spaces(input[end..to]) && SkipSpace(input, to) == to
    ensures SkipSpace(input, end) == to
  {
    PastRun(input, end, input[end..to], IsSpace);
  }

  /**
   An input that evaluates to its end is a written expression, possibly followed by spaces, and the
   result is its value.
   */
  lemma AcceptedIsWritten<V>(input: string, env: Env<V>) returns (f: Form, trailing: string)
    requires var r := ParseExpr(input, 0, 0, env); r.result.Ok? && r.pos == |input|
    ensures WellFormed(f, 0) && Spaces(trailing) && input == Text(f) + trailing
    ensures ParseExpr(input, 0, 0, env).result == Eval(Meaning(f), env)
  {
    hide ParseExpr, WellFormed, Text, Eval;
    var end: nat;
    f, end := ExprWritten(input, 0, 0, env);
    trailing := input[end..];
    assert input[0..end] + input[end..|input|] == input;
    assert input[end..|input|] == trailing;
  }
}
