/**
 bc's expression language as its manual has it: a grammar with the operators spelled out, which knows
 nothing of the parser's tables. The evaluator accepts exactly this language and gives it this meaning.
 */
module BcSpelled {
  import opened Wrappers
  import opened Bc
  import opened BcGrammar
  import opened BcAccepted

  datatype Phrase =
    | Number(space: string, digits: string)
    | Name(space: string, name: string)
    | Signed(space: string, sign: string, arg: Phrase)
    | Bracketed(space: string, body: Phrase, space2: string)
    | Binary(left: Phrase, space: string, sign: string, right: Phrase)

  // ----- the grammar ----------------------------------------------------------------------------

  predicate Equality(p: Phrase)
    decreases p, 5
  {
    if p.Binary? && p.sign in ["==", "!="] then Blank(p.space) && Equality(p.left) && Comparison(p.right)
    else Comparison(p)
  }

  predicate Comparison(p: Phrase)
    decreases p, 4
  {
    if p.Binary? && p.sign in ["<", ">", "<=", ">="] then Blank(p.space) && Comparison(p.left) && Sum(p.right)
    else Sum(p)
  }

  predicate Sum(p: Phrase)
    decreases p, 3
  {
    if p.Binary? && p.sign in ["+", "-"] then Blank(p.space) && Sum(p.left) && Product(p.right)
    else Product(p)
  }

  predicate Product(p: Phrase)
    decreases p, 2
  {
    if p.Binary? && p.sign in ["*", "/", "%"] then Blank(p.space) && Product(p.left) && Power(p.right)
    else Power(p)
  }

  predicate Power(p: Phrase)
    decreases p, 1
  {
    if p.Binary? && p.sign == "^" then Blank(p.space) && Unary(p.left) && Power(p.right)
    else Unary(p)
  }

  predicate Unary(p: Phrase)
    decreases p, 0
  {
    match p
    case Signed(space, sign, arg) => Blank(space) && sign in ["-", "+"] && Unary(arg)
    case Bracketed(space, body, space2) => Blank(space) && Blank(space2) && Equality(body)
    case Number(space, digits) =>
      Blank(space) && digits != "" && forall i :: 0 <= i < |digits| ==> Figure(digits[i]) || digits[i] == '.'
    case Name(space, name) =>
      && Blank(space) && name != "" && !Figure(name[0])
      && forall i :: 0 <= i < |name| ==> Letter(name[i]) || Figure(name[i])
    case Binary(_, _, _, _) => false
  }

  predicate Blank(space: string) {
    forall i :: 0 <= i < |space| ==> space[i] in " \t\n\r\U{0C}"
  }

  predicate Figure(c: char) {
    c in "0123456789"
  }

  predicate Letter(c: char) {
    'A' <= c <= 'Z' || c == '_' || 'a' <= c <= 'z'
  }

  function Words(p: Phrase): string {
    match p
    case Number(space, digits) => space + digits
    case Name(space, name) => space + name
    case Signed(space, sign, arg) => space + (sign + Words(arg))
    case Bracketed(space, body, space2) => space + ("(" + (Words(body) + (space2 + ")")))
    case Binary(left, space, sign, right) => Words(left) + (space + (sign + Words(right)))
  }

  // ----- the meaning ----------------------------------------------------------------------------

  function Operation(sign: string): Op {
    match sign
    case "==" => Eq
    case "!=" => Ne
    case "<=" => Le
    case ">=" => Ge
    case "<" => Lt
    case ">" => Gt
    case "+" => Add
    case "-" => Sub
    case "*" => Mul
    case "/" => Div
    case "%" => Mod
    case _ => Pow
  }

  /** The value, or the first error from the left; division and remainder by zero are errors. */
  function Value<V>(p: Phrase, env: Env<V>): Result<V, BcError> {
    match p
    case Number(_, digits) =>
      if env.number(digits).Some? then Ok(env.number(digits).value) else Err(InvalidNumber(digits))
    case Name(_, name) => Ok(env.variable(name))
    case Signed(_, sign, arg) =>
      var v := Value(arg, env);
      if v.Ok? && sign == "-" then Ok(env.negate(v.value)) else v
    case Bracketed(_, body, _) => Value(body, env)
    case Binary(left, _, sign, right) =>
      var l, r := Value(left, env), Value(right, env);
      if l.Err? then l
      else if r.Err? then r
      else if (sign == "/" || sign == "%") && env.isZero(r.value) then Err(DivideByZero)
      else Ok(env.apply(Operation(sign), l.value, r.value))
  }

  // ----- it is the parser's language --------------------------------------------------------------

  /** The nonterminals from the loosest to the tightest. */
  predicate Derives(p: Phrase, level: nat) {
    match level
    case 0 => Equality(p)
    case 1 => Equality(p)
    case 2 => Comparison(p)
    case 3 => Sum(p)
    case 4 => Product(p)
    case 5 => Power(p)
    case _ => Unary(p)
  }

  predicate IsSign(sign: string) {
    sign in ["==", "!=", "<", ">", "<=", ">=", "+", "-", "*", "/", "%", "^"]
  }

  predicate Signs(p: Phrase) {
    match p
    case Signed(_, sign, arg) => sign in ["-", "+"] && Signs(arg)
    case Bracketed(_, body, _) => Signs(body)
    case Binary(left, _, sign, right) => IsSign(sign) && Signs(left) && Signs(right)
    case _ => true
  }

  function FormOf(p: Phrase): Form {
    match p
    case Number(space, digits) => Leaf(space, Num(digits))
    case Name(space, name) => Leaf(space, Var(name))
    case Signed(space, sign, arg) => Prefix(space, sign == "-", FormOf(arg))
    case Bracketed(space, body, space2) => Parens(space, FormOf(body), space2)
    case Binary(left, space, sign, right) => Infix(FormOf(left), space, Operation(sign), FormOf(right))
  }

  lemma OperationIs(sign: string)
    requires IsSign(sign)
    ensures var op := Operation(sign);
            && OpText(op) == sign
            && (op.Div? || op.Mod? <==> sign == "/" || sign == "%")
            && 1 <= Prec(op) == Class(sign) <= 5
            && LeftLevel(op) == (if Class(sign) == 5 then 6 else Class(sign))
            && RightLevel(op) == (if Class(sign) == 5 then 5 else Class(sign) + 1)
  {
  }

  lemma BlankIsSpaces(space: string)
    ensures Blank(space) <==> Spaces(space)
  {
    forall i | 0 <= i < |space|
      ensures space[i] in " \t\n\r\U{0C}" <==> IsSpace(space[i])
    {
    }
  }

  lemma FigureIsDigit(c: char)
    ensures Figure(c) <==> IsDigit(c)
  {
  }

  lemma WordsAre(p: Phrase)
    requires p.Number? || p.Name?
    ensures Unary(p) <==> WellFormed(FormOf(p), UNARY)
  {
    hide Spaces, Blank, Figure;
    BlankIsSpaces(p.space);
    var word := if p.Number? then p.digits else p.name;
    forall c
      ensures Figure(c) <==> IsDigit(c)
    {
      FigureIsDigit(c);
    }
  }

  /** The class of a sign: how tightly it binds. */
  function Class(sign: string): nat {
    if sign in ["==", "!="] then 1
    else if sign in ["<", ">", "<=", ">="] then 2
    else if sign in ["+", "-"] then 3
    else if sign in ["*", "/", "%"] then 4
    else 5
  }

  lemma ClassOf(p: Phrase)
    requires p.Binary? && IsSign(p.sign)
    ensures var fits :=
              match Class(p.sign)
              case 1 => Equality(p.left) && Comparison(p.right)
              case 2 => Comparison(p.left) && Sum(p.right)
              case 3 => Sum(p.left) && Product(p.right)
              case 4 => Product(p.left) && Power(p.right)
              case _ => Unary(p.left) && Power(p.right);
            var found := Blank(p.space) && fits;
            && Equality(p) == found
            && Comparison(p) == (Class(p.sign) >= 2 && found)
            && Sum(p) == (Class(p.sign) >= 3 && found)
            && Product(p) == (Class(p.sign) >= 4 && found)
            && Power(p) == (Class(p.sign) >= 5 && found)
            && !Unary(p)
  {
    LooseIs(p);
    TightIs(p);
    hide Blank, Equality, Comparison, Sum, Product, Power;
  }

  lemma LooseIs(p: Phrase)
    ensures Equality(p) ==
            if p.Binary? && p.sign in ["==", "!="] then Blank(p.space) && Equality(p.left) && Comparison(p.right)
            else Comparison(p)
    ensures Comparison(p) ==
            if p.Binary? && p.sign in ["<", ">", "<=", ">="] then Blank(p.space) && Comparison(p.left) && Sum(p.right)
            else Sum(p)
  {
    hide Blank, Sum;
  }

  lemma TightIs(p: Phrase)
    ensures Sum(p) ==
            if p.Binary? && p.sign in ["+", "-"] then Blank(p.space) && Sum(p.left) && Product(p.right)
            else Product(p)
    ensures Product(p) ==
            if p.Binary? && p.sign in ["*", "/", "%"] then Blank(p.space) && Product(p.left) && Power(p.right)
            else Power(p)
    ensures Power(p) ==
            if p.Binary? && p.sign == "^" then Blank(p.space) && Unary(p.left) && Power(p.right)
            else Unary(p)
  {
    hide Blank, Unary;
  }

  /** The level of an operation and of its operands. */
  lemma BinaryDerives(p: Phrase, level: nat)
    requires p.Binary? && IsSign(p.sign) && level <= UNARY
    ensures var op := Operation(p.sign);
            Derives(p, level) <==>
            level <= Prec(op) && Blank(p.space) && Derives(p.left, LeftLevel(op)) && Derives(p.right, RightLevel(op))
  {
    OperationIs(p.sign);
    ClassOf(p);
    DerivesIs(p);
    DerivesIs(p.left);
    DerivesIs(p.right);
    hide Derives, Blank, Equality, Comparison, Sum, Product, Power, Unary, IsSign, Operation;
    hide Prec, LeftLevel, RightLevel;
    hide OpText, Class;
  }

  lemma DerivesIs(p: Phrase)
    ensures Derives(p, 0) == Equality(p) && Derives(p, 1) == Equality(p) && Derives(p, 2) == Comparison(p)
    ensures Derives(p, 3) == Sum(p) && Derives(p, 4) == Product(p) && Derives(p, 5) == Power(p)
    ensures Derives(p, 6) == Unary(p)
  {
    hide Equality, Comparison, Sum, Product, Power, Unary;
  }

  lemma OtherDerives(p: Phrase, level: nat)
    requires !p.Binary?
    ensures Derives(p, level) <==> Unary(p)
  {
    LooseIs(p);
    TightIs(p);
    hide Equality, Comparison, Sum, Product, Power, Unary;
  }

  lemma {:induction false} DerivedSigns(p: Phrase, level: nat)
    requires Derives(p, level) && level <= UNARY
    ensures Signs(p)
    decreases p
  {
    if p.Binary? {
      hide Blank;
      SignIsKnown(p, level);
      BinaryDerives(p, level);
      OperationIs(p.sign);
      DerivedSigns(p.left, LeftLevel(Operation(p.sign)));
      DerivedSigns(p.right, RightLevel(Operation(p.sign)));
    } else {
      OtherDerives(p, level);
      if p.Signed? {
        DerivedSigns(p.arg, UNARY);
      } else if p.Bracketed? {
        DerivedSigns(p.body, 0);
      }
    }
  }

  lemma SignIsKnown(p: Phrase, level: nat)
    requires p.Binary? && Derives(p, level)
    ensures IsSign(p.sign)
  {
    LooseIs(p);
    TightIs(p);
    hide Equality, Comparison, Sum, Product, Power, Blank;
  }

  /** The grammar with spelled operators and the one with levels derive the same. */
  lemma {:induction false} SpelledIsForm(p: Phrase, level: nat)
    requires Signs(p) && level <= UNARY
    ensures Derives(p, level) <==> WellFormed(FormOf(p), level)
    decreases p
  {
    hide Derives, Spaces, Blank;
    if p.Binary? {
      var op := Operation(p.sign);
      BlankIsSpaces(p.space);
      BinaryDerives(p, level);
      OperationIs(p.sign);
      SpelledIsForm(p.left, LeftLevel(op));
      SpelledIsForm(p.right, RightLevel(op));
    } else {
      OtherDerives(p, level);
      BlankIsSpaces(p.space);
      if p.Signed? {
        DerivesIs(p.arg);
        SpelledIsForm(p.arg, UNARY);
      } else if p.Bracketed? {
        BlankIsSpaces(p.space2);
        DerivesIs(p.body);
        SpelledIsForm(p.body, 0);
      } else {
        WordsAre(p);
      }
    }
  }

  lemma {:induction false} SpelledText(p: Phrase)
    requires Signs(p)
    ensures Words(p) == Text(FormOf(p))
  {
    hide OpText;
    match p
    case Signed(_, sign, arg) => SpelledText(arg);
    case Bracketed(_, body, _) => SpelledText(body);
    case Binary(left, _, sign, right) =>
      OperationIs(sign);
      SpelledText(left);
      SpelledText(right);
    case _ =>
  }

  lemma BinaryValue<V>(p: Phrase, env: Env<V>)
    requires p.Binary? && IsSign(p.sign)
    requires Value(p.left, env) == Eval(Meaning(FormOf(p.left)), env)
    requires Value(p.right, env) == Eval(Meaning(FormOf(p.right)), env)
    ensures Value(p, env) == Eval(Meaning(FormOf(p)), env)
  {
    OperationIs(p.sign);
    hide IsSign, Operation, OpText, Prec, LeftLevel, RightLevel, Class;
    var l, r := Meaning(FormOf(p.left)), Meaning(FormOf(p.right));
    assert Meaning(FormOf(p)) == Bin(Operation(p.sign), l, r);
    hide Meaning, FormOf;
  }

  lemma {:induction false} SpelledValue<V>(p: Phrase, env: Env<V>)
    requires Signs(p)
    ensures Value(p, env) == Eval(Meaning(FormOf(p)), env)
  {
    hide IsSign, Apply;
    match p
    case Signed(_, sign, arg) => SpelledValue(arg, env);
    case Bracketed(_, body, _) => SpelledValue(body, env);
    case Binary(left, _, _, right) =>
      SpelledValue(left, env);
      SpelledValue(right, env);
      hide Value, Eval, Meaning, FormOf;
      BinaryValue(p, env);
    case _ =>
  }

  /** Every text of the grammar, with spaces after it, is read to its end and has the value of its phrase. */
  lemma SpelledIsEvaluated<V>(p: Phrase, trailing: string, env: Env<V>)
    requires Equality(p) && Blank(trailing)
    ensures var input := Words(p) + trailing;
            var r := ParseExpr(input, 0, 0, env);
            r.result == Value(p, env) && (r.result.Ok? ==> r.pos == |input|)
  {
    hide Equality, WellFormed, ParseExpr, Words, Text, Value, Eval, FormOf;
    DerivesIs(p);
    DerivedSigns(p, 0);
    SpelledIsForm(p, 0);
    SpelledText(p);
    SpelledValue(p, env);
    BlankIsSpaces(trailing);
    ParsesWhatIsWritten(FormOf(p), trailing, env);
  }

  // ----- and nothing else is --------------------------------------------------------------------------

  function PhraseOf(f: Form): Phrase {
    match f
    case Leaf(space, leaf) =>
      (match leaf
       case Num(text) => Number(space, text)
       case Var(name) => Name(space, name)
       case _ => Name(space, ""))
    case Prefix(space, minus, arg) => Signed(space, if minus then "-" else "+", PhraseOf(arg))
    case Infix(left, space, op, right) => Binary(PhraseOf(left), space, OpText(op), PhraseOf(right))
    case Parens(space, body, space2) => Bracketed(space, PhraseOf(body), space2)
  }

  lemma SignOfOp(op: Op)
    ensures IsSign(OpText(op)) && Operation(OpText(op)) == op
  {
  }

  lemma {:induction false} PhraseIsForm(f: Form, level: nat)
    requires WellFormed(f, level)
    ensures Signs(PhraseOf(f)) && FormOf(PhraseOf(f)) == f
    decreases f
  {
    hide IsSign, OpText, Operation, Spaces;
    match f
    case Leaf(_, _) =>
    case Prefix(_, _, arg) => PhraseIsForm(arg, UNARY);
    case Infix(left, _, op, right) =>
      SignOfOp(op);
      PhraseIsForm(left, LeftLevel(op));
      PhraseIsForm(right, RightLevel(op));
    case Parens(_, body, _) => PhraseIsForm(body, 0);
  }

  /** Every text that the evaluator accepts to its end is a text of the grammar, and has its value. */
  lemma AcceptedIsSpelled<V>(input: string, env: Env<V>) returns (p: Phrase, trailing: string)
    requires var r := ParseExpr(input, 0, 0, env); r.result.Ok? && r.pos == |input|
    ensures Equality(p) && Blank(trailing) && input == Words(p) + trailing
    ensures ParseExpr(input, 0, 0, env).result == Value(p, env)
  {
    hide Equality, WellFormed, ParseExpr, Words, Text, Value, Eval, FormOf, PhraseOf;
    var f;
    f, trailing := AcceptedIsWritten(input, env);
    p := PhraseOf(f);
    PhraseIsForm(f, 0);
    SpelledIsForm(p, 0);
    DerivesIs(p);
    SpelledText(p);
    SpelledValue(p, env);
    BlankIsSpaces(trailing);
  }
}
