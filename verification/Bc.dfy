/**
 bc's expression evaluator: precedence climbing that parses and evaluates in one pass.
 The functions say what each parsing routine returns and where it stops; the class `BcParser`
 (BcMachine.dfy) is the routine itself, moving its position through the input.
 */
module Bc {
  import opened Wrappers
  import opened Utf8Text

  datatype Op = Eq | Ne | Le | Ge | Lt | Gt | Add | Sub | Mul | Div | Mod | Pow

  /** `Panics` stands for slicing the input inside a character; positions in messages count bytes. */
  datatype BcError = DivideByZero | ExpectedClose | InvalidNumber(text: string) | ParseError(pos: nat) | Panics

  /** Floating-point arithmetic and the variables in force, left uninterpreted. */
  datatype Env<!V> = Env(
    apply: (Op, V, V) -> V,
    negate: V -> V,
    isZero: V -> bool,
    number: string -> Option<V>,
    variable: string -> V)

  function Prec(op: Op): (p: nat)
    ensures 1 <= p <= 5
  {
    match op
    case Eq => 1
    case Ne => 1
    case Le => 2
    case Ge => 2
    case Lt => 2
    case Gt => 2
    case Add => 3
    case Sub => 3
    case Mul => 4
    case Div => 4
    case Mod => 4
    case Pow => 5
  }

  /** The level at which the right operand is parsed: `^` groups to the right. */
  function RightLevel(op: Op): nat {
    if op.Pow? then Prec(op) else Prec(op) + 1
  }

  function OpText(op: Op): (s: string)
    ensures 1 <= |s| <= 2
    ensures !IsSpace(s[0]) && !IsNumberChar(s[0]) && !IsNameChar(s[0])
  {
    match op
    case Eq => "=="
    case Ne => "!="
    case Le => "<="
    case Ge => ">="
    case Lt => "<"
    case Gt => ">"
    case Add => "+"
    case Sub => "-"
    case Mul => "*"
    case Div => "/"
    case Mod => "%"
    case Pow => "^"
  }

  predicate IsSpace(c: char) {
    c == ' ' || c == '\t' || c == '\n' || c == '\r' || c as int == 0x0C
  }

  predicate IsDigit(c: char) {
    '0' <= c <= '9'
  }

  predicate IsNumberChar(c: char) {
    IsDigit(c) || c == '.'
  }

  predicate IsNameChar(c: char) {
    IsDigit(c) || 'a' <= c <= 'z' || 'A' <= c <= 'Z' || c == '_'
  }

  /** The first position from `pos` on whose character is not in the class. */
  function Past(input: string, pos: nat, inClass: char -> bool): (end: nat)
    requires pos <= |input|
    ensures pos <= end <= |input|
    decreases |input| - pos
  {
    if pos < |input| && inClass(input[pos]) then Past(input, pos + 1, inClass) else pos
  }

  function SkipSpace(input: string, pos: nat): (end: nat)
    requires pos <= |input|
    ensures pos <= end <= |input|
  {
    Past(input, pos, IsSpace)
  }

  lemma {:induction false} SkipTwice(input: string, pos: nat)
    requires pos <= |input|
    ensures SkipSpace(input, SkipSpace(input, pos)) == SkipSpace(input, pos)
    decreases |input| - pos
  {
    if pos < |input| && IsSpace(input[pos]) {
      SkipTwice(input, pos + 1);
    }
  }

  /** The two bytes looked at from `pos` end inside a character. */
  predicate Cuts(input: string, pos: nat) {
    && pos < |input|
    && (CharLen(input[pos]) > 2 || (CharLen(input[pos]) == 1 && pos + 1 < |input| && CharLen(input[pos + 1]) > 1))
  }

  /** The operator that starts at `pos`; two-character operators are tried first. */
  function OpAt(input: string, pos: nat): (op: Option<Op>)
    requires pos <= |input|
    ensures op.Some? ==> pos + |OpText(op.value)| <= |input|
  {
    var two := if pos + 1 < |input| then input[pos..pos + 2] else "";
    if two == "==" then Some(Eq)
    else if two == "!=" then Some(Ne)
    else if two == "<=" then Some(Le)
    else if two == ">=" then Some(Ge)
    else if pos >= |input| then None
    else
      match input[pos]
      case '<' => Some(Lt)
      case '>' => Some(Gt)
      case '+' => Some(Add)
      case '-' => Some(Sub)
      case '*' => Some(Mul)
      case '/' => Some(Div)
      case '%' => Some(Mod)
      case '^' => Some(Pow)
      case _ => None
  }

  function Apply<V>(op: Op, left: V, right: V, env: Env<V>): Result<V, BcError> {
    if (op.Div? || op.Mod?) && env.isZero(right) then Err(DivideByZero) else Ok(env.apply(op, left, right))
  }

  /** What a routine returns, and where it leaves the position. */
  datatype Parsed<V> = Parsed(result: Result<V, BcError>, pos: nat)

  function ParseExpr<V>(input: string, pos: nat, minPrec: nat, env: Env<V>): (r: Parsed<V>)
    requires pos <= |input|
    ensures pos <= r.pos <= |input|
    ensures r.result.Ok? ==> pos < r.pos
    decreases |input| - pos, 3
  {
    var left := ParseUnary(input, pos, env);
    if left.result.Err? then left
    else ParseOperators(input, left.pos, left.result.value, minPrec, env)
  }

  /** The loop of `bc_parse_expr` with `left` parsed. */
  function ParseOperators<V>(input: string, pos: nat, left: V, minPrec: nat, env: Env<V>): (r: Parsed<V>)
    requires pos <= |input|
    ensures pos <= r.pos <= |input|
    decreases |input| - pos, 2
  {
    OperatorsAt(input, SkipSpace(input, pos), left, minPrec, env)
  }

  /** The same, at a character that is not a space. */
  function OperatorsAt<V>(input: string, pos: nat, left: V, minPrec: nat, env: Env<V>): (r: Parsed<V>)
    requires pos <= |input|
    ensures pos <= r.pos <= |input|
    decreases |input| - pos, 1
  {
    var op := OpAt(input, pos);
    if Cuts(input, pos) then Parsed(Err(Panics), pos)
    else if op.None? || Prec(op.value) < minPrec then Parsed(Ok(left), pos)
    else
      var r := Combine(op.value, left, ParseExpr(input, pos + |OpText(op.value)|, RightLevel(op.value), env), env);
      if r.result.Err? then r else ParseOperators(input, r.pos, r.result.value, minPrec, env)
  }

  /** Applies `op` once its right operand is parsed. */
  function Combine<V>(op: Op, left: V, right: Parsed<V>, env: Env<V>): (r: Parsed<V>)
    ensures r.pos == right.pos
  {
    if right.result.Err? then right else Parsed(Apply(op, left, right.result.value, env), right.pos)
  }

  function ParseUnary<V>(input: string, pos: nat, env: Env<V>): (r: Parsed<V>)
    requires pos <= |input|
    ensures pos <= r.pos <= |input|
    ensures r.result.Ok? ==> pos < r.pos
    decreases |input| - pos, 1
  {
    var pos := SkipSpace(input, pos);
    if pos < |input| && input[pos] == '-' then
      Negated(ParseUnary(input, pos + 1, env), env)
    else if pos < |input| && input[pos] == '+' then
      ParseUnary(input, pos + 1, env)
    else
      ParsePrimary(input, pos, env)
  }

  function Negated<V>(inner: Parsed<V>, env: Env<V>): (r: Parsed<V>)
    ensures r.pos == inner.pos && r.result.Ok? == inner.result.Ok?
  {
    if inner.result.Err? then inner else Parsed(Ok(env.negate(inner.result.value)), inner.pos)
  }

  function ParsePrimary<V>(input: string, pos: nat, env: Env<V>): (r: Parsed<V>)
    requires pos <= |input|
    ensures pos <= r.pos <= |input|
    ensures r.result.Ok? ==> pos < r.pos
    decreases |input| - pos, 0
  {
    var pos := SkipSpace(input, pos);
    if pos < |input| && input[pos] == '(' then CloseParens(input, ParseExpr(input, pos + 1, 0, env))
    else ParseWord(input, pos, env)
  }

  /** After a parenthesised expression. */
  function CloseParens<V>(input: string, inner: Parsed<V>): (r: Parsed<V>)
    requires inner.pos <= |input|
    ensures inner.pos <= r.pos <= |input|
    ensures r.result.Ok? ==> inner.pos < r.pos
  {
    if inner.result.Err? then inner
    else
      var close := SkipSpace(input, inner.pos);
      if close < |input| && input[close] == ')' then Parsed(inner.result, close + 1)
      else Parsed(Err(ExpectedClose), close)
  }

  /** A number or a variable. */
  function ParseWord<V>(input: string, pos: nat, env: Env<V>): (r: Parsed<V>)
    requires pos <= |input|
    ensures pos <= r.pos <= |input|
    ensures r.result.Ok? ==> pos < r.pos
  {
    var numberEnd := Past(input, pos, IsNumberChar);
    var nameEnd := Past(input, pos, IsNameChar);
    if numberEnd > pos then
      var value := env.number(input[pos..numberEnd]);
      Parsed(if value.Some? then Ok(value.value) else Err(InvalidNumber(input[pos..numberEnd])), numberEnd)
    else if nameEnd > pos then
      Parsed(Ok(env.variable(input[pos..nameEnd])), nameEnd)
    else
      Parsed(Err(ParseError(ByteLen(input[..pos]))), pos)
  }
}
