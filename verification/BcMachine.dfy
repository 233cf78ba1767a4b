/** The bc parser as it runs: a position moved through the input by mutually recursive routines. */
module BcMachine {
  import opened Wrappers
  import opened Utf8Text
  import opened Bc

  class BcParser {
    const input: string
    var pos: nat

    constructor (input: string)
      ensures this.input == input && pos == 0
    {
      this.input := input;
      pos := 0;
    }

    predicate Valid()
      reads this`pos
    {
      pos <= |input|
    }

    method SkipWs()
      requires Valid()
      modifies this
      ensures Valid() && pos == SkipSpace(input, old(pos))
    {
      while pos < |input| && IsSpace(input[pos])
        invariant Valid() && SkipSpace(input, pos) == SkipSpace(input, old(pos))
      {
        pos := pos + 1;
      }
    }

    method Peek() returns (c: Option<char>)
      requires Valid()
      modifies this
      ensures Valid() && pos == SkipSpace(input, old(pos))
      ensures c == if pos < |input| then Some(input[pos]) else None
    {
      SkipWs();
      c := if pos < |input| then Some(input[pos]) else None;
    }

    /** The next two bytes, if there are two; `None` if they end inside a character, where the slice panics. */
    method PeekTwo() returns (two: Option<string>)
      requires Valid()
      modifies this
      ensures Valid() && pos == SkipSpace(input, old(pos))
      ensures two.None? <==> Cuts(input, pos)
      ensures two.Some? ==>
                two.value == if pos == |input| then ""
                             else if CharLen(input[pos]) == 2 then [input[pos]]
                             else if pos + 1 < |input| then input[pos..pos + 2] else ""
    {
      SkipWs();
      if pos == |input| || (pos + 1 == |input| && CharLen(input[pos]) == 1) {
        return Some("");
      }
      if CharLen(input[pos]) == 2 {
        return Some([input[pos]]);
      }
      if CharLen(input[pos]) > 2 || CharLen(input[pos + 1]) > 1 {
        return None;
      }
      two := Some(input[pos..pos + 2]);
    }

    method Advance()
      requires Valid()
      modifies this
      ensures Valid() && pos == if old(pos) < |input| then old(pos) + 1 else old(pos)
    {
      if pos < |input| {
        pos := pos + 1;
      }
    }

    method AdvanceOver(n: nat)
      requires pos + n <= |input|
      modifies this
      ensures pos == old(pos) + n
    {
      for i := 0 to n
        invariant pos == old(pos) + i
      {
        Advance();
      }
    }

    method AtEnd() returns (b: bool)
      requires Valid()
      modifies this
      ensures Valid() && pos == SkipSpace(input, old(pos)) && b == (pos == |input|)
    {
      SkipWs();
      b := pos >= |input|;
    }

    /** The operator at the next character that is not a space, if the look at two bytes does not panic. */
    method PeekOp() returns (r: Result<Option<Op>, BcError>)
      requires Valid()
      modifies this
      ensures Valid() && pos == SkipSpace(input, old(pos))
      ensures r == if Cuts(input, pos) then Err(Panics) else Ok(OpAt(input, pos))
    {
      SkipTwice(input, pos);
      var end := AtEnd();
      if end {
        return Ok(None);
      }
      var peeked := PeekTwo();
      if peeked.None? {
        return Err(Panics);
      }
      var two := peeked.value;
      WideStart(pos);
      if two == "==" { return Ok(Some(Eq)); }
      if two == "!=" { return Ok(Some(Ne)); }
      if two == "<=" { return Ok(Some(Le)); }
      if two == ">=" { return Ok(Some(Ge)); }
      var c := Peek();
      var op: Option<Op>;
      match c.value {
      case '<' => op := Some(Lt);
      case '>' => op := Some(Gt);
      case '+' => op := Some(Add);
      case '-' => op := Some(Sub);
      case '*' => op := Some(Mul);
      case '/' => op := Some(Div);
      case '%' => op := Some(Mod);
      case '^' => op := Some(Pow);
      case _ => op := None;
      }
      r := Ok(op);
    }

    /** A character of two bytes starts no operator. */
    lemma WideStart(at: nat)
      requires at < |input|
      ensures CharLen(input[at]) == 2 ==> OpAt(input, at) == None
    {
      if at + 1 < |input| {
        assert input[at..at + 2][0] == input[at];
      }
    }

    /** `bc_parse_expr`. */
    method Expr<V>(env: Env<V>, minPrec: nat) returns (r: Result<V, BcError>)
      requires Valid()
      modifies this
      ensures Valid() && Parsed(r, pos) == ParseExpr(input, old(pos), minPrec, env)
      decreases |input| - pos, 3
    {
      hide ParseUnary, ParsePrimary, OpText, OpAt, SkipSpace, Cuts;
      ghost var goal := ParseExpr(input, pos, minPrec, env);
      r := Unary(env);
      if r.Err? {
        return;
      }
      var left := r.value;
      while true
        invariant Valid() && old(pos) < pos
        invariant ParseOperators(input, pos, left, minPrec, env) == goal
        decreases |input| - pos
      {
        var peeked := PeekOp();
        if peeked.Err? {
          return Err(Panics);
        }
        var op := peeked.value;
        if op.None? || Prec(op.value) < minPrec {
          return Ok(left);
        }
        AdvanceOver(|OpText(op.value)|);
        r := Expr(env, RightLevel(op.value));
        if r.Err? {
          return;
        }
        r := Apply(op.value, left, r.value, env);
        if r.Err? {
          return;
        }
        left := r.value;
      }
    }

    /** `bc_parse_unary`. */
    method Unary<V>(env: Env<V>) returns (r: Result<V, BcError>)
      requires Valid()
      modifies this
      ensures Valid() && Parsed(r, pos) == ParseUnary(input, old(pos), env)
      decreases |input| - pos, 1
    {
      var c := Peek();
      if c == Some('-') {
        Advance();
        r := Unary(env);
        if r.Ok? {
          r := Ok(env.negate(r.value));
        }
      } else if c == Some('+') {
        Advance();
        r := Unary(env);
      } else {
        r := Primary(env);
      }
    }

    /** `bc_parse_primary`. */
    method Primary<V>(env: Env<V>) returns (r: Result<V, BcError>)
      requires Valid()
      modifies this
      ensures Valid() && Parsed(r, pos) == ParsePrimary(input, old(pos), env)
      decreases |input| - pos, 0
    {
      SkipTwice(input, pos);
      SkipWs();
      var c := Peek();
      if c == Some('(') {
        Advance();
        r := Expr(env, 0);
        if r.Err? {
          return;
        }
        var close := Peek();
        if close != Some(')') {
          return Err(ExpectedClose);
        }
        Advance();
        return;
      }
      r := WordAtPos(env);
    }

    /** The number or the name at the position. */
    method WordAtPos<V>(env: Env<V>) returns (r: Result<V, BcError>)
      requires Valid()
      modifies this
      ensures Valid() && Parsed(r, pos) == ParseWord(input, old(pos), env)
    {
      var start := pos;
      while pos < |input| && IsNumberChar(input[pos])
        invariant Valid() && start <= pos && Past(input, pos, IsNumberChar) == Past(input, start, IsNumberChar)
      {
        pos := pos + 1;
      }
      if pos > start {
        var value := env.number(input[start..pos]);
        return if value.Some? then Ok(value.value) else Err(InvalidNumber(input[start..pos]));
      }
      while pos < |input| && IsNameChar(input[pos])
        invariant Valid() && start <= pos && Past(input, pos, IsNameChar) == Past(input, start, IsNameChar)
      {
        pos := pos + 1;
      }
      if pos > start {
        return Ok(env.variable(input[start..pos]));
      }
      r := Err(ParseError(ByteLen(input[..pos])));
    }
  }
}
