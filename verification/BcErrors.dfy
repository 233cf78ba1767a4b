/** What bc reports of an input that it does not evaluate is found at the place where it stops. */
module BcErrors {
  import opened Wrappers
  import opened Utf8Text
  import opened Bc
  import opened BcGrammar
  import opened BcAccepted
  import opened BcSpelled

  /** At `pos` stands no space and nothing that an operand begins with. */
  predicate NoOperand(input: string, pos: nat) {
    pos < |input| ==>
      var c := input[pos];
      c !in " \t\n\r\U{0C}" && !Figure(c) && !Letter(c) && c !in ".+-("
  }

  /** A character of three or four bytes, or one of two or more after one of one: two bytes from `pos` cut it. */
  predicate CutsCharacter(input: string, pos: nat) {
    pos < |input| &&
    (input[pos] as int >= 0x800 ||
     (input[pos] as int < 0x80 && pos + 1 < |input| && input[pos + 1] as int >= 0x80))
  }

  /** The error says what is wrong where the parser stopped. */
  predicate IsThere<V>(input: string, r: Parsed<V>, env: Env<V>)
    requires r.pos <= |input|
  {
    r.result.Err? ==>
      match r.result.error
      case ParseError(n) => n == ByteLen(input[..r.pos]) && NoOperand(input, r.pos)
      case ExpectedClose => r.pos < |input| ==> input[r.pos] != ')' && input[r.pos] !in " \t\n\r\U{0C}"
      case InvalidNumber(text) =>
        text != "" && |text| <= r.pos && input[r.pos - |text|..r.pos] == text && env.number(text).None?
      case Panics => CutsCharacter(input, r.pos)
      case DivideByZero => true
  }

  lemma SpaceIsSpelled(c: char)
    ensures IsSpace(c) <==> c in " \t\n\r\U{0C}"
  {
  }

  lemma WordIsThere<V>(input: string, pos: nat, env: Env<V>)
    requires pos <= |input| && SkipSpace(input, pos) == pos && (pos < |input| ==> input[pos] !in "+-(")
    ensures IsThere(input, ParseWord(input, pos, env), env)
  {
    PastAll(input, pos, IsSpace);
    PastAll(input, pos, IsNumberChar);
    PastAll(input, pos, IsNameChar);
    if pos < |input| {
      SpaceIsSpelled(input[pos]);
      FigureIsDigit(input[pos]);
    }
  }

  lemma CloseIsThere<V>(input: string, inner: Parsed<V>, env: Env<V>)
    requires inner.pos <= |input| && IsThere(input, inner, env)
    ensures IsThere(input, CloseParens(input, inner), env)
  {
    var close := SkipSpace(input, inner.pos);
    PastAll(input, inner.pos, IsSpace);
    if close < |input| {
      SpaceIsSpelled(input[close]);
    }
  }

  lemma {:induction false} UnaryIsThere<V>(input: string, pos: nat, env: Env<V>)
    requires pos <= |input|
    ensures IsThere(input, ParseUnary(input, pos, env), env)
    decreases |input| - pos, 1
  {
    hide ParseUnary, ParseExpr, ParseWord, SkipSpace, IsThere, CloseParens;
    UnaryOpens(input, pos, env);
    SkipTwice(input, pos);
    var start := SkipSpace(input, pos);
    if start < |input| && (input[start] == '-' || input[start] == '+') {
      UnaryIsThere(input, start + 1, env);
      NegatedIsThere(input, ParseUnary(input, start + 1, env), env);
    } else if start < |input| && input[start] == '(' {
      ExprIsThere(input, start + 1, 0, env);
      CloseIsThere(input, ParseExpr(input, start + 1, 0, env), env);
    } else {
      WordIsThere(input, start, env);
    }
  }

  lemma NegatedIsThere<V>(input: string, inner: Parsed<V>, env: Env<V>)
    requires inner.pos <= |input| && IsThere(input, inner, env)
    ensures IsThere(input, Negated(inner, env), env)
  {
  }

  /** Whatever the environment: an error of the evaluator is there where it stopped. */
  lemma {:induction false} ExprIsThere<V>(input: string, pos: nat, minPrec: nat, env: Env<V>)
    requires pos <= |input|
    ensures IsThere(input, ParseExpr(input, pos, minPrec, env), env)
    decreases |input| - pos, 3
  {
    hide ParseUnary, ParseOperators, IsThere;
    UnaryIsThere(input, pos, env);
    var left := ParseUnary(input, pos, env);
    StepExpr(input, pos, minPrec, env);
    if left.result.Ok? {
      OperatorsAreThere(input, left.pos, left.result.value, minPrec, env);
    }
  }

  lemma {:induction false} OperatorsAreThere<V>(input: string, pos: nat, left: V, minPrec: nat, env: Env<V>)
    requires pos <= |input|
    ensures IsThere(input, ParseOperators(input, pos, left, minPrec, env), env)
    decreases |input| - pos, 2
  {
    hide ParseExpr, ParseUnary, ParseOperators, IsThere, SkipSpace, OpText, OpAt, Cuts, Prec;
    var start := SkipSpace(input, pos);
    var op := OpAt(input, start);
    OperatorsOpen(input, pos, left, minPrec, env);
    if Cuts(input, start) {
      CutIsThere(input, start, env);
    } else if op.None? || Prec(op.value) < minPrec {
      FineIsThere(input, start, left, env);
    } else {
      var right := ParseExpr(input, start + |OpText(op.value)|, RightLevel(op.value), env);
      ExprIsThere(input, start + |OpText(op.value)|, RightLevel(op.value), env);
      var r := Combine(op.value, left, right, env);
      CombineIsThere(input, op.value, left, right, env);
      if r.result.Ok? {
        OperatorsAreThere(input, r.pos, r.result.value, minPrec, env);
      }
    }
  }

  lemma OperatorsOpen<V>(input: string, pos: nat, left: V, minPrec: nat, env: Env<V>)
    requires pos <= |input|
    ensures var start := SkipSpace(input, pos);
            var op := OpAt(input, start);
            && (op.Some? ==> 1 <= |OpText(op.value)| && start + |OpText(op.value)| <= |input|)
            && ParseOperators(input, pos, left, minPrec, env) ==
               if Cuts(input, start) then Parsed(Err(Panics), start)
               else if op.None? || Prec(op.value) < minPrec then Parsed(Ok(left), start)
               else
                 var right := ParseExpr(input, start + |OpText(op.value)|, RightLevel(op.value), env);
                 var r := Combine(op.value, left, right, env);
                 if r.result.Err? then r else ParseOperators(input, r.pos, r.result.value, minPrec, env)
  {
    hide ParseExpr, ParseUnary, Combine, OpAt, OpText, Cuts, Prec, RightLevel, SkipSpace;
  }

  lemma CutIsThere<V>(input: string, pos: nat, env: Env<V>)
    requires pos <= |input| && Cuts(input, pos)
    ensures IsThere(input, Parsed(Err(Panics), pos), env)
  {
  }

  lemma FineIsThere<V>(input: string, pos: nat, value: V, env: Env<V>)
    requires pos <= |input|
    ensures IsThere(input, Parsed(Ok(value), pos), env)
  {
  }

  lemma CombineIsThere<V>(input: string, op: Op, left: V, right: Parsed<V>, env: Env<V>)
    requires right.pos <= |input| && IsThere(input, right, env)
    ensures IsThere(input, Combine(op, left, right, env), env)
  {
  }
}
