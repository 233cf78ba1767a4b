/**
 Precedence climbing is right: every text of bc's expression grammar, with any spacing and any
 parentheses that precedence and associativity leave room for, is read to its end and evaluates
 to the value of its tree, or to the tree's first error.
 */
module BcGrammar {
  import opened Wrappers
  import opened Utf8Text
  import opened Bc

  /** Expression trees. */
  datatype Tree =
    | Num(text: string)
    | Var(name: string)
    | Neg(arg: Tree)
    | Plus(arg: Tree)
    | Bin(op: Op, left: Tree, right: Tree)

  /** Evaluation of a tree, left operand first. */
  function Eval<V>(e: Tree, env: Env<V>): Result<V, BcError> {
    match e
    case Num(text) =>
      var value := env.number(text);
      if value.Some? then Ok(value.value) else Err(InvalidNumber(text))
    case Var(name) => Ok(env.variable(name))
    case Neg(arg) =>
      var value := Eval(arg, env);
      if value.Err? then value else Ok(env.negate(value.value))
    case Plus(arg) => Eval(arg, env)
    case Bin(op, left, right) =>
      var l := Eval(left, env);
      if l.Err? then l
      else
        var r := Eval(right, env);
        if r.Err? then r else Apply(op, l.value, r.value, env)
  }

  /** Written expressions: a tree with its spacing and its parentheses. */
  datatype Form =
    | Leaf(space: string, leaf: Tree)
    | Prefix(space: string, minus: bool, arg: Form)
    | Infix(left: Form, space: string, op: Op, right: Form)
    | Parens(space: string, body: Form, space2: string)

  function LeafText(leaf: Tree): string {
    match leaf
    case Num(text) => text
    case Var(name) => name
    case _ => ""
  }

  function Sign(minus: bool): string {
    if minus then "-" else "+"
  }

  function Text(f: Form): string {
    match f
    case Leaf(space, leaf) => space + LeafText(leaf)
    case Prefix(space, minus, arg) => space + (Sign(minus) + Text(arg))
    case Infix(left, space, op, right) => Text(left) + (space + (OpText(op) + Text(right)))
    case Parens(space, body, space2) => space + ("(" + (Text(body) + (space2 + ")")))
  }

  function Meaning(f: Form): Tree {
    match f
    case Leaf(_, leaf) => leaf
    case Prefix(_, minus, arg) => if minus then Neg(Meaning(arg)) else Plus(Meaning(arg))
    case Infix(left, _, op, right) => Bin(op, Meaning(left), Meaning(right))
    case Parens(_, body, _) => Meaning(body)
  }

  /** The level a left operand must have: `a^b^c` is `a^(b^c)`, so `^` needs an operand above it. */
  function LeftLevel(op: Op): nat {
    if op.Pow? then Prec(op) + 1 else Prec(op)
  }

  const UNARY := 6

  predicate Spaces(s: string) {
    forall i :: 0 <= i < |s| ==> IsSpace(s[i])
  }

  predicate Word(s: string, inClass: char -> bool) {
    s != [] && forall i :: 0 <= i < |s| ==> inClass(s[i])
  }

  predicate LeafOk(leaf: Tree) {
    match leaf
    case Num(text) => Word(text, IsNumberChar)
    case Var(name) => Word(name, IsNameChar) && !IsNumberChar(name[0])
    case _ => false
  }

  /** `f` may stand where level `level` is expected, without further parentheses. */
  predicate WellFormed(f: Form, level: nat) {
    match f
    case Leaf(space, leaf) => Spaces(space) && LeafOk(leaf)
    case Prefix(space, _, arg) => Spaces(space) && WellFormed(arg, UNARY)
    case Infix(left, space, op, right) =>
      Prec(op) >= level && Spaces(space) && WellFormed(left, LeftLevel(op)) && WellFormed(right, RightLevel(op))
    case Parens(space, body, space2) => Spaces(space) && Spaces(space2) && WellFormed(body, 0)
  }

  // ----- text at a position ---------------------------------------------------------------------

  predicate At(input: string, pos: nat, t: string) {
    pos + |t| <= |input| && input[pos..pos + |t|] == t
  }

  lemma AtConcat(input: string, pos: nat, a: string, b: string)
    requires At(input, pos, a + b)
    ensures At(input, pos, a) && At(input, pos + |a|, b)
  {
    assert (a + b)[..|a|] == a && (a + b)[|a|..] == b;
    assert input[pos..pos + |a + b|][..|a|] == input[pos..pos + |a|];
    assert input[pos..pos + |a + b|][|a|..] == input[pos + |a|..pos + |a| + |b|];
  }

  lemma AtChar(input: string, pos: nat, t: string, i: nat)
    requires At(input, pos, t) && i < |t|
    ensures input[pos + i] == t[i]
  {
    assert input[pos..pos + |t|][i] == input[pos + i];
  }

  /** A run of class characters that the next character ends is exactly what `Past` passes. */
  lemma {:induction false} PastRun(input: string, pos: nat, t: string, inClass: char -> bool)
    requires At(input, pos, t)
    requires forall i :: 0 <= i < |t| ==> inClass(t[i])
    ensures Past(input, pos, inClass) == Past(input, pos + |t|, inClass)
    decreases |t|
  {
    if t != [] {
      AtChar(input, pos, t, 0);
      assert At(input, pos + 1, t[1..]) by {
        assert [t[0]] + t[1..] == t;
        AtConcat(input, pos, [t[0]], t[1..]);
      }
      PastRun(input, pos + 1, t[1..], inClass);
    }
  }

  // ----- what may follow an expression ------------------------------------------------------------

  /** At `pos` the input ends or goes on in ASCII, and no number or name runs on across it. */
  predicate Clean(input: string, pos: nat)
    requires pos <= |input|
  {
    pos == |input| || (CharLen(input[pos]) == 1 && !IsNumberChar(input[pos]) && !IsNameChar(input[pos]))
  }

  /** After `pos` an expression of level `level` ends: no operator follows that would take it in. */
  predicate Stops(input: string, pos: nat, level: nat)
    requires pos <= |input|
  {
    && Clean(input, pos)
    && !Cuts(input, SkipSpace(input, pos))
    && var op := OpAt(input, SkipSpace(input, pos));
       op.Some? ==> LeftLevel(op.value) <= level
  }

  lemma StopsAbove(input: string, pos: nat, level: nat, higher: nat)
    requires pos <= |input| && Stops(input, pos, level) && level <= higher
    ensures Stops(input, pos, higher)
  {
  }

  lemma OpAtText(input: string, pos: nat, op: Op, next: string)
    requires At(input, pos, OpText(op) + next) && next != []
    requires next[0] != '=' && CharLen(next[0]) == 1
    ensures OpAt(input, pos) == Some(op) && !Cuts(input, pos)
  {
    var t := OpText(op) + next;
    AtChar(input, pos, t, 0);
    AtChar(input, pos, t, 1);
    var two := input[pos..pos + 2];
    assert two == [t[0], t[1]];
  }

  /** Every written expression is non-empty and does not start with `=`. */
  lemma {:induction false} TextStart(f: Form, level: nat)
    requires WellFormed(f, level)
    ensures Text(f) != [] && Text(f)[0] != '=' && CharLen(Text(f)[0]) == 1
  {
    match f
    case Infix(left, _, op, _) => TextStart(left, LeftLevel(op));
    case Leaf(space, leaf) =>
      if space == "" {
        assert "" + LeafText(leaf) == LeafText(leaf);
      }
    case _ =>
  }

  // ----- the parser reads what is written ----------------------------------------------------------

  /** `f` is written in `input` from `pos` to `End(pos, f)`. */
  function End(pos: nat, f: Form): nat {
    pos + |Text(f)|
  }

  lemma SkipSpaces(input: string, pos: nat, space: string, next: string)
    requires At(input, pos, space + next) && Spaces(space)
    requires next != [] && !IsSpace(next[0])
    ensures SkipSpace(input, pos) == pos + |space|
    ensures At(input, pos + |space|, next) && input[pos + |space|] == next[0]
  {
    AtConcat(input, pos, space, next);
    PastRun(input, pos, space, IsSpace);
    AtChar(input, pos + |space|, next, 0);
  }

  lemma StepUnary<V>(input: string, pos: nat, start: nat, env: Env<V>)
    requires pos <= |input| && start == SkipSpace(input, pos) && start < |input|
    ensures ParseUnary(input, pos, env) ==
            match input[start]
            case '-' => Negated(ParseUnary(input, start + 1, env), env)
            case '+' => ParseUnary(input, start + 1, env)
            case '(' => CloseParens(input, ParseExpr(input, start + 1, 0, env))
            case _ => ParseWord(input, start, env)
  {
    hide ParseExpr, ParseOperators;
    SkipTwice(input, pos);
  }

  lemma StepOperator<V>(input: string, pos: nat, left: V, minPrec: nat, op: Op, env: Env<V>)
    requires pos <= |input| && OpAt(input, SkipSpace(input, pos)) == Some(op) && Prec(op) >= minPrec
    requires !Cuts(input, SkipSpace(input, pos))
    ensures var start := SkipSpace(input, pos) + |OpText(op)|;
            var r := Combine(op, left, ParseExpr(input, start, RightLevel(op), env), env);
            ParseOperators(input, pos, left, minPrec, env) ==
            if r.result.Err? then r else ParseOperators(input, r.pos, r.result.value, minPrec, env)
  {
    hide ParseExpr, ParseUnary, ParsePrimary, OpAt, OpText, Cuts, SkipSpace, Combine, Prec, RightLevel;
  }

  lemma StepExpr<V>(input: string, pos: nat, minPrec: nat, env: Env<V>)
    requires pos <= |input|
    ensures var left := ParseUnary(input, pos, env);
            ParseExpr(input, pos, minPrec, env) ==
            if left.result.Err? then left
            else ParseOperators(input, left.pos, left.result.value, minPrec, env)
  {
    hide ParseOperators, ParseUnary, ParsePrimary;
  }

  lemma StopOperators<V>(input: string, pos: nat, left: V, minPrec: nat, env: Env<V>)
    requires pos <= |input|
    requires var op := OpAt(input, SkipSpace(input, pos)); op.None? || Prec(op.value) < minPrec
    requires !Cuts(input, SkipSpace(input, pos))
    ensures ParseOperators(input, pos, left, minPrec, env) == Parsed(Ok(left), SkipSpace(input, pos))
  {
    hide ParseExpr, ParseUnary, ParsePrimary, OpAt, OpText, Cuts, SkipSpace, Combine, Prec, RightLevel;
  }

  lemma WordRead<V>(input: string, start: nat, leaf: Tree, env: Env<V>)
    requires LeafOk(leaf) && At(input, start, LeafText(leaf)) && Clean(input, start + |LeafText(leaf)|)
    ensures ParseWord(input, start, env) == Parsed(Eval(leaf, env), start + |LeafText(leaf)|)
  {
    var word := LeafText(leaf);
    var end := start + |word|;
    assert input[start..end] == word;
    AtChar(input, start, word, 0);
    if leaf.Num? {
      PastRun(input, start, word, IsNumberChar);
      assert Past(input, end, IsNumberChar) == end;
    } else {
      PastRun(input, start, word, IsNameChar);
      assert Past(input, end, IsNameChar) == end;
      assert Past(input, start, IsNumberChar) == start;
    }
  }

  lemma ReadLeaf<V>(input: string, pos: nat, space: string, leaf: Tree, env: Env<V>)
    requires Spaces(space) && LeafOk(leaf) && At(input, pos, space + LeafText(leaf))
    requires Clean(input, pos + |space| + |LeafText(leaf)|)
    ensures ParseUnary(input, pos, env) == Parsed(Eval(leaf, env), pos + |space| + |LeafText(leaf)|)
  {
    hide ParseExpr, ParseOperators, ParseUnary, ParsePrimary, ParseWord, At, SkipSpace, Past;
    SkipSpaces(input, pos, space, LeafText(leaf));
    StepUnary(input, pos, pos + |space|, env);
    WordRead(input, pos + |space|, leaf, env);
  }

  lemma ReadSign<V>(input: string, pos: nat, space: string, minus: bool, arg: string, env: Env<V>)
    requires Spaces(space) && At(input, pos, space + (Sign(minus) + arg))
    ensures At(input, pos + |space| + 1, arg)
    ensures var inner := ParseUnary(input, pos + |space| + 1, env);
            ParseUnary(input, pos, env) == if minus then Negated(inner, env) else inner
  {
    hide ParseExpr, ParseOperators, ParseUnary, ParsePrimary, ParseWord, At, SkipSpace;
    SkipSpaces(input, pos, space, Sign(minus) + arg);
    AtConcat(input, pos + |space|, Sign(minus), arg);
    StepUnary(input, pos, pos + |space|, env);
  }

  lemma ReadOpen<V>(input: string, pos: nat, space: string, rest: string, env: Env<V>)
    requires Spaces(space) && At(input, pos, space + ("(" + rest))
    ensures At(input, pos + |space| + 1, rest)
    ensures ParseUnary(input, pos, env) == CloseParens(input, ParseExpr(input, pos + |space| + 1, 0, env))
  {
    hide ParseExpr, ParseOperators, ParseUnary, ParsePrimary, ParseWord, At, SkipSpace;
    SkipSpaces(input, pos, space, "(" + rest);
    AtConcat(input, pos + |space|, "(", rest);
    StepUnary(input, pos, pos + |space|, env);
  }

  /** The operators after a parenthesised body: none, and the parenthesis closes. */
  lemma ReadClose<V>(input: string, end: nat, space: string, value: V, env: Env<V>)
    requires Spaces(space) && At(input, end, space + ")") && Clean(input, end + |space| + 1)
    ensures Stops(input, end, 0)
    ensures CloseParens(input, ParseOperators(input, end, value, 0, env)) == Parsed(Ok(value), end + |space| + 1)
  {
    hide ParseExpr, ParseOperators, ParseUnary, ParsePrimary, At, OpAt, Cuts, Clean, Stops, Past;
    CloseStops(input, end, space);
    SkipSpaces(input, end, space, ")");
    StopOperators(input, end, value, 0, env);
    SkipTwice(input, end);
  }

  lemma {:induction false} ReadParens<V>(input: string, pos: nat, space: string, body: Form, space2: string,
                                         env: Env<V>)
    requires Spaces(space) && Spaces(space2) && WellFormed(body, 0)
    requires At(input, pos, space + ("(" + (Text(body) + (space2 + ")"))))
    requires Clean(input, pos + |space| + 1 + |Text(body)| + |space2| + 1)
    ensures var r := ParseUnary(input, pos, env);
            && r.result == Eval(Meaning(body), env)
            && (r.result.Ok? ==> r.pos == pos + |space| + 1 + |Text(body)| + |space2| + 1)
    decreases Parens(space, body, space2), 0
  {
    hide ParseExpr, ParseOperators, ParseUnary, ParsePrimary, At, SkipSpace, OpAt, Cuts, Stops, Clean, WellFormed, Text;
    ReadOpen(input, pos, space, Text(body) + (space2 + ")"), env);
    var start := pos + |space| + 1;
    AtConcat(input, start, Text(body), space2 + ")");
    CloseStops(input, End(start, body), space2);
    ReadExpr(input, start, body, 0, 0, env);
    if Eval(Meaning(body), env).Ok? {
      ReadClose(input, End(start, body), space2, Eval(Meaning(body), env).value, env);
    }
  }

  lemma CloseStops(input: string, pos: nat, space: string)
    requires At(input, pos, space + ")") && Spaces(space) && Clean(input, pos + |space| + 1)
    ensures Stops(input, pos, 0)
    ensures OpAt(input, pos + |space|) == None && !Cuts(input, pos + |space|)
  {
    hide OpAt;
    SkipSpaces(input, pos, space, ")");
    AtChar(input, pos, space + ")", 0);
    NoOperatorCloses(input, pos + |space|);
  }

  lemma NoOperatorCloses(input: string, pos: nat)
    requires pos < |input| && input[pos] == ')'
    ensures OpAt(input, pos) == None
  {
    if pos + 1 < |input| {
      assert input[pos..pos + 2][0] == ')';
    }
  }

  /** A unary operand is read whole. */
  lemma {:induction false} ReadUnary<V>(input: string, pos: nat, f: Form, env: Env<V>)
    requires WellFormed(f, UNARY) && At(input, pos, Text(f)) && Clean(input, End(pos, f))
    ensures var r := ParseUnary(input, pos, env);
            r.result == Eval(Meaning(f), env) && (r.result.Ok? ==> r.pos == End(pos, f))
    decreases f, 1
  {
    hide ParseExpr, ParseOperators, ParseUnary, ParsePrimary, At, Clean;
    match f
    case Leaf(space, leaf) => ReadLeaf(input, pos, space, leaf, env);
    case Prefix(space, minus, arg) =>
      ReadSign(input, pos, space, minus, Text(arg), env);
      ReadUnary(input, pos + |space| + 1, arg, env);
    case Parens(space, body, space2) => ReadParens(input, pos, space, body, space2, env);
    case Infix(_, _, _, _) => assert false;
  }

  /**
   An expression written at `level` and read at any lower level: the parser reaches its end with
   its value in hand and goes on with the operators that follow, or stops at its first error.
   */
  lemma {:induction false} ReadExpr<V>(input: string, pos: nat, f: Form, level: nat, minPrec: nat, env: Env<V>)
    requires WellFormed(f, level) && minPrec <= level
    requires At(input, pos, Text(f)) && Stops(input, End(pos, f), level)
    ensures var value := Eval(Meaning(f), env);
            var r := ParseExpr(input, pos, minPrec, env);
            if value.Err? then r.result == value
            else r == ParseOperators(input, End(pos, f), value.value, minPrec, env)
    decreases f, 2
  {
    hide ParseExpr, ParseOperators, ParseUnary, ParsePrimary, At, OpAt, Cuts, SkipSpace, Clean;
    if f.Infix? {
      ReadInfix(input, pos, f.left, f.space, f.op, f.right, level, minPrec, env);
    } else {
      StepExpr(input, pos, minPrec, env);
      ReadUnary(input, pos, f, env);
    }
  }

  lemma OperatorStart(op: Op)
    ensures OpText(op) != "" && CharLen(OpText(op)[0]) == 1
    ensures !IsNumberChar(OpText(op)[0]) && !IsNameChar(OpText(op)[0])
  {
  }

  lemma OperatorClean(input: string, mid: nat, space: string, op: Op, right: string)
    requires Spaces(space) && At(input, mid, space + (OpText(op) + right))
    ensures Clean(input, mid)
  {
    OperatorStart(op);
    hide OpText;
    var t := space + (OpText(op) + right);
    AtChar(input, mid, t, 0);
    assert space == "" ==> t[0] == OpText(op)[0];
  }

  /** Where an infix expression is written, its operator stops the left operand. */
  lemma OperatorAt(input: string, mid: nat, space: string, op: Op, right: string)
    requires Spaces(space) && At(input, mid, space + (OpText(op) + right))
    requires right != "" && right[0] != '=' && CharLen(right[0]) == 1
    ensures Stops(input, mid, LeftLevel(op))
    ensures SkipSpace(input, mid) == mid + |space| && OpAt(input, mid + |space|) == Some(op)
    ensures !Cuts(input, mid + |space|)
    ensures At(input, mid + |space| + |OpText(op)|, right)
  {
    hide OpText, OpAt, At, SkipSpace;
    SkipSpaces(input, mid, space, OpText(op) + right);
    OpAtText(input, mid + |space|, op, right);
    AtConcat(input, mid + |space|, OpText(op), right);
    OperatorClean(input, mid, space, op, right);
  }

  lemma {:induction false} ReadInfix<V>(input: string, pos: nat, left: Form, space: string, op: Op, right: Form,
                                        level: nat, minPrec: nat, env: Env<V>)
    requires Prec(op) >= level >= minPrec
    requires Spaces(space) && WellFormed(left, LeftLevel(op)) && WellFormed(right, RightLevel(op))
    requires At(input, pos, Text(left) + (space + (OpText(op) + Text(right))))
    requires Stops(input, pos + |Text(left)| + |space| + |OpText(op)| + |Text(right)|, level)
    ensures var end := pos + |Text(left)| + |space| + |OpText(op)| + |Text(right)|;
            var value := Eval(Bin(op, Meaning(left), Meaning(right)), env);
            var r := ParseExpr(input, pos, minPrec, env);
            if value.Err? then r.result == value
            else r == ParseOperators(input, end, value.value, minPrec, env)
    decreases Infix(left, space, op, right), 0
  {
    hide ParseExpr, ParseOperators, ParseUnary, ParsePrimary, Text, OpText, OpAt, WellFormed, At, SkipSpace, Stops;
    TextStart(right, RightLevel(op));
    AtConcat(input, pos, Text(left), space + (OpText(op) + Text(right)));
    var mid := End(pos, left);
    OperatorAt(input, mid, space, op, Text(right));
    ReadExpr(input, pos, left, LeftLevel(op), minPrec, env);
    var l, r := Eval(Meaning(left), env), Eval(Meaning(right), env);
    if l.Ok? {
      StepOperator(input, mid, l.value, minPrec, op, env);
      var start := mid + |space| + |OpText(op)|;
      StopsAbove(input, End(start, right), level, RightLevel(op));
      ReadExpr(input, start, right, RightLevel(op), RightLevel(op), env);
      if r.Ok? {
        ReadRight(input, End(start, right), r.value, op, level, env);
        var value := Apply(op, l.value, r.value, env);
        if value.Ok? {
          OperatorsAfterSpace(input, End(start, right), value.value, minPrec, env);
        }
      }
    }
  }

  /** Nothing after an operand of `op` is strong enough to be taken into it. */
  lemma ReadRight<V>(input: string, end: nat, right: V, op: Op, level: nat, env: Env<V>)
    requires end <= |input| && Stops(input, end, level) && level <= Prec(op)
    ensures ParseOperators(input, end, right, RightLevel(op), env) == Parsed(Ok(right), SkipSpace(input, end))
  {
    hide ParseExpr, ParseOperators, ParseUnary, ParsePrimary;
    StopOperators(input, end, right, RightLevel(op), env);
  }

  lemma OperatorsAfterSpace<V>(input: string, pos: nat, left: V, minPrec: nat, env: Env<V>)
    requires pos <= |input|
    ensures ParseOperators(input, SkipSpace(input, pos), left, minPrec, env) ==
            ParseOperators(input, pos, left, minPrec, env)
  {
    hide ParseExpr, ParseUnary, ParsePrimary, OperatorsAt;
    SkipTwice(input, pos);
  }

  /** Every written expression evaluates to its tree's value and is read to the end. */
  lemma ParsesWhatIsWritten<V>(f: Form, trailing: string, env: Env<V>)
    requires WellFormed(f, 0) && Spaces(trailing)
    ensures var input := Text(f) + trailing;
            var r := ParseExpr(input, 0, 0, env);
            r.result == Eval(Meaning(f), env) && (r.result.Ok? ==> r.pos == |input|)
  {
    hide ParseExpr, ParseOperators, ParseUnary, ParsePrimary, WellFormed, Text;
    var input := Text(f) + trailing;
    var end := |Text(f)|;
    assert input[0..end] == Text(f);
    EndStops(input, end, trailing);
    ReadExpr(input, 0, f, 0, 0, env);
    if Eval(Meaning(f), env).Ok? {
      StopOperators(input, end, Eval(Meaning(f), env).value, 0, env);
    }
  }

  lemma EndStops(input: string, end: nat, trailing: string)
    requires end <= |input| && input[end..] == trailing && Spaces(trailing)
    ensures SkipSpace(input, end) == |input|
    ensures Stops(input, end, 0)
    ensures OpAt(input, |input|) == None && !Cuts(input, |input|)
  {
    assert At(input, end, trailing);
    PastRun(input, end, trailing, IsSpace);
    assert trailing != "" ==> input[end] == trailing[0];
  }

  // ----- the printer with the fewest parentheses -----------------------------------------------------

  predicate Writable(e: Tree) {
    match e
    case Neg(arg) => Writable(arg)
    case Plus(arg) => Writable(arg)
    case Bin(_, left, right) => Writable(left) && Writable(right)
    case _ => LeafOk(e)
  }

  /** Parentheses only around an operation weaker than its place requires. */
  function Print(e: Tree, level: nat): (f: Form)
    requires Writable(e)
    ensures WellFormed(f, level) && Meaning(f) == e
  {
    match e
    case Neg(arg) => Prefix("", true, Print(arg, UNARY))
    case Plus(arg) => Prefix("", false, Print(arg, UNARY))
    case Bin(op, left, right) =>
      var f := Infix(Print(left, LeftLevel(op)), "", op, Print(right, RightLevel(op)));
      if Prec(op) < level then Parens("", f, "") else f
    case _ => Leaf("", e)
  }

  /** Printing a tree with the parentheses it needs and no spaces, then evaluating the text. */
  lemma PrintedTreesEvaluate<V>(e: Tree, env: Env<V>)
    requires Writable(e)
    ensures var input := Text(Print(e, 0));
            var r := ParseExpr(input, 0, 0, env);
            r.result == Eval(e, env) && (r.result.Ok? ==> r.pos == |input|)
  {
    ParsesWhatIsWritten(Print(e, 0), "", env);
    assert Text(Print(e, 0)) + "" == Text(Print(e, 0));
  }
}
