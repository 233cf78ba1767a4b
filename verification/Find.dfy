/**
 find's expression parser: `-o` below `-a` and juxtaposition, below `!`, with parentheses.
 The functions say what each parsing routine returns; the methods are the routines, with the
 loops of the source.
 */
module Find {
  import opened Wrappers
  import opened Numerals

  datatype FindExpr =
    | Name(pattern: string)
    | Type(kind: char)
    | Empty
    | Newer(file: string)
    | Print
    | Print0
    | ExecEach(parts: seq<string>)
    | ExecBatch(parts: seq<string>)
    | Not(inner: FindExpr)
    | And(left: FindExpr, right: FindExpr)
    | Or(left: FindExpr, right: FindExpr)

  datatype FindError =
    | ExpectedExpression
    | MissingClose
    | MissingArgument(option: string)
    | UnknownPredicate(word: string)
    | UnexpectedArgument(word: string)
    | InvalidDepth(option: string, value: string)

  /** A parsed expression and the position after it. */
  type Parsed = Result<(FindExpr, nat), FindError>

  predicate IsOr(word: string) {
    word == "-o" || word == "-or"
  }

  predicate IsAnd(word: string) {
    word == "-a" || word == "-and"
  }

  predicate IsNot(word: string) {
    word == "-not" || word == "!"
  }

  /** Every successful parse moves on. */
  predicate Advances(args: seq<string>, pos: nat, r: Parsed) {
    r.Ok? ==> pos < r.value.1 <= |args|
  }

  function ParseOr(args: seq<string>, pos: nat): (r: Parsed)
    ensures Advances(args, pos, r)
    decreases |args| - pos, 5
  {
    var left := ParseAnd(args, pos);
    if left.Err? then left else MoreOr(args, left.value.1, left.value.0)
  }

  /** The loop of `parse_or_expr`. */
  function MoreOr(args: seq<string>, pos: nat, left: FindExpr): (r: Parsed)
    requires pos <= |args|
    ensures r.Ok? ==> pos <= r.value.1 <= |args|
    decreases |args| - pos, 4
  {
    if pos < |args| && IsOr(args[pos]) then
      var right := ParseAnd(args, pos + 1);
      if right.Err? then right else MoreOr(args, right.value.1, Or(left, right.value.0))
    else Ok((left, pos))
  }

  function ParseAnd(args: seq<string>, pos: nat): (r: Parsed)
    ensures Advances(args, pos, r)
    decreases |args| - pos, 3
  {
    var left := ParseUnary(args, pos);
    if left.Err? then left else MoreAnd(args, left.value.1, left.value.0)
  }

  /** The loop of `parse_and_expr`: `-a`, or anything that is neither `-o` nor a closing parenthesis. */
  function MoreAnd(args: seq<string>, pos: nat, left: FindExpr): (r: Parsed)
    requires pos <= |args|
    ensures r.Ok? ==> pos <= r.value.1 <= |args|
    decreases |args| - pos, 2
  {
    if pos < |args| && IsAnd(args[pos]) then
      var right := ParseUnary(args, pos + 1);
      if right.Err? then right else MoreAnd(args, right.value.1, And(left, right.value.0))
    else if pos < |args| && !IsOr(args[pos]) && args[pos] != ")" then
      var right := ParseUnary(args, pos);
      if right.Err? then right else MoreAnd(args, right.value.1, And(left, right.value.0))
    else Ok((left, pos))
  }

  function ParseUnary(args: seq<string>, pos: nat): (r: Parsed)
    ensures Advances(args, pos, r)
    decreases |args| - pos, 1
  {
    if pos >= |args| then Err(ExpectedExpression)
    else if IsNot(args[pos]) then
      var inner := ParseUnary(args, pos + 1);
      if inner.Err? then inner else Ok((Not(inner.value.0), inner.value.1))
    else if args[pos] == "(" then
      Close(args, ParseOr(args, pos + 1))
    else ParsePrimary(args, pos)
  }

  function Close(args: seq<string>, inner: Parsed): (r: Parsed)
    ensures r.Ok? ==> inner.Ok? && r.value.1 == inner.value.1 + 1 <= |args|
  {
    if inner.Err? then inner
    else if inner.value.1 >= |args| || args[inner.value.1] != ")" then Err(MissingClose)
    else Ok((inner.value.0, inner.value.1 + 1))
  }

  /** The words of `-exec` up to `;`, or up to a `+` that is not the first. */
  function ExecParts(args: seq<string>, pos: nat, parts: seq<string>): (r: Parsed)
    ensures Advances(args, pos, r)
    decreases |args| - pos
  {
    if pos >= |args| then Err(MissingArgument("-exec"))
    else if args[pos] == ";" then Ok((ExecEach(parts), pos + 1))
    else if args[pos] == "+" && parts != [] then Ok((ExecBatch(parts), pos + 1))
    else ExecParts(args, pos + 1, parts + [args[pos]])
  }

  function ParsePrimary(args: seq<string>, pos: nat): (r: Parsed)
    ensures Advances(args, pos, r)
  {
    if pos >= |args| then Err(ExpectedExpression)
    else
      var word := args[pos];
      if word == "-name" then
        if pos + 1 >= |args| then Err(MissingArgument(word)) else Ok((Name(args[pos + 1]), pos + 2))
      else if word == "-type" then
        if pos + 1 >= |args| then Err(MissingArgument(word))
        else Ok((Type(if args[pos + 1] == "" then 'f' else args[pos + 1][0]), pos + 2))
      else if word == "-empty" then Ok((Empty, pos + 1))
      else if word == "-newer" then
        if pos + 1 >= |args| then Err(MissingArgument(word)) else Ok((Newer(args[pos + 1]), pos + 2))
      else if word == "-print" then Ok((Print, pos + 1))
      else if word == "-print0" then Ok((Print0, pos + 1))
      else if word == "-exec" then ExecParts(args, pos + 1, [])
      else Err(UnknownPredicate(word))
  }

  // ----- the routines ------------------------------------------------------------------------------

  method ParseOrExpr(args: seq<string>, pos: nat) returns (r: Parsed)
    ensures r == ParseOr(args, pos)
    decreases |args| - pos, 5
  {
    r := ParseAndExpr(args, pos);
    if r.Err? {
      return;
    }
    var (left, at) := r.value;
    while at < |args| && IsOr(args[at])
      invariant pos < at <= |args| && MoreOr(args, at, left) == ParseOr(args, pos)
      decreases |args| - at
    {
      r := ParseAndExpr(args, at + 1);
      if r.Err? {
        return;
      }
      left, at := Or(left, r.value.0), r.value.1;
    }
    r := Ok((left, at));
  }

  method ParseAndExpr(args: seq<string>, pos: nat) returns (r: Parsed)
    ensures r == ParseAnd(args, pos)
    decreases |args| - pos, 3
  {
    r := ParseUnaryExpr(args, pos);
    if r.Err? {
      return;
    }
    var (left, at) := r.value;
    while true
      invariant pos < at <= |args| && MoreAnd(args, at, left) == ParseAnd(args, pos)
      decreases |args| - at
    {
      if at >= |args| {
        break;
      }
      if IsAnd(args[at]) {
        r := ParseUnaryExpr(args, at + 1);
        if r.Err? {
          return;
        }
        left, at := And(left, r.value.0), r.value.1;
        continue;
      }
      if !IsOr(args[at]) && args[at] != ")" {
        r := ParseUnaryExpr(args, at);
        if r.Err? {
          return;
        }
        left, at := And(left, r.value.0), r.value.1;
        continue;
      }
      break;
    }
    r := Ok((left, at));
  }

  method ParseUnaryExpr(args: seq<string>, pos: nat) returns (r: Parsed)
    ensures r == ParseUnary(args, pos)
    decreases |args| - pos, 1
  {
    if pos >= |args| {
      return Err(ExpectedExpression);
    }
    if IsNot(args[pos]) {
      r := ParseUnaryExpr(args, pos + 1);
      if r.Ok? {
        r := Ok((Not(r.value.0), r.value.1));
      }
      return;
    }
    if args[pos] == "(" {
      r := ParseOrExpr(args, pos + 1);
      if r.Err? {
        return;
      }
      var (expr, at) := r.value;
      if at >= |args| || args[at] != ")" {
        return Err(MissingClose);
      }
      return Ok((expr, at + 1));
    }
    r := ParsePrimaryExpr(args, pos);
  }

  method ParsePrimaryExpr(args: seq<string>, pos: nat) returns (r: Parsed)
    ensures r == ParsePrimary(args, pos)
  {
    if pos < |args| && args[pos] == "-exec" {
      var parts: seq<string> := [];
      var j := pos + 1;
      while true
        invariant pos < j && ExecParts(args, j, parts) == ExecParts(args, pos + 1, [])
        decreases |args| - j
      {
        if j >= |args| {
          return Err(MissingArgument("-exec"));
        }
        if args[j] == ";" {
          return Ok((ExecEach(parts), j + 1));
        }
        if args[j] == "+" && parts != [] {
          return Ok((ExecBatch(parts), j + 1));
        }
        parts := parts + [args[j]];
        j := j + 1;
      }
    }
    r := ParsePrimary(args, pos);
  }

  // ----- global options ---------------------------------------------------------------------------

  datatype FindOpts = FindOpts(expr: Option<FindExpr>, maxDepth: Option<nat>, minDepth: Option<nat>)

  predicate IsDepth(word: string) {
    word == "-maxdepth" || word == "-mindepth"
  }

  /** The first pass: takes the depth options out of the arguments, wherever they stand. */
  function Extract(args: seq<string>, i: nat, opts: FindOpts, kept: seq<string>)
    : Result<(FindOpts, seq<string>), FindError>
    requires i <= |args|
    decreases |args| - i
  {
    if i >= |args| then Ok((opts, kept))
    else if IsDepth(args[i]) then
      if i + 1 >= |args| then Err(MissingArgument(args[i]))
      else
        var depth := ParseUsize(args[i + 1]);
        if depth.None? then Err(InvalidDepth(args[i], args[i + 1]))
        else if args[i] == "-maxdepth" then Extract(args, i + 2, opts.(maxDepth := depth), kept)
        else Extract(args, i + 2, opts.(minDepth := depth), kept)
    else Extract(args, i + 1, opts, kept + [args[i]])
  }

  /** The second pass, on the arguments that remain. */
  function ParseKept(opts: FindOpts, kept: seq<string>): Result<FindOpts, FindError> {
    if kept == [] then Ok(opts)
    else
      var parsed := ParseOr(kept, 0);
      if parsed.Err? then Err(parsed.error)
      else if parsed.value.1 < |kept| then Err(UnexpectedArgument(kept[parsed.value.1]))
      else Ok(opts.(expr := Some(parsed.value.0)))
  }

  function ParseFind(args: seq<string>): Result<FindOpts, FindError> {
    var first := Extract(args, 0, FindOpts(None, None, None), []);
    if first.Err? then Err(first.error) else ParseKept(first.value.0, first.value.1)
  }

  method ParseFindExpr(args: seq<string>) returns (r: Result<FindOpts, FindError>)
    ensures r == ParseFind(args)
  {
    var opts := FindOpts(None, None, None);
    var kept: seq<string> := [];
    var i := 0;
    while i < |args|
      invariant 0 <= i <= |args|
      invariant Extract(args, i, opts, kept) == Extract(args, 0, FindOpts(None, None, None), [])
    {
      if IsDepth(args[i]) {
        if i + 1 >= |args| {
          return Err(MissingArgument(args[i]));
        }
        var depth := ParseUsize(args[i + 1]);
        if depth.None? {
          return Err(InvalidDepth(args[i], args[i + 1]));
        }
        if args[i] == "-maxdepth" {
          opts := opts.(maxDepth := depth);
        } else {
          opts := opts.(minDepth := depth);
        }
        i := i + 2;
      } else {
        kept := kept + [args[i]];
        i := i + 1;
      }
    }
    if kept == [] {
      return Ok(opts);
    }
    var parsed := ParseOrExpr(kept, 0);
    if parsed.Err? {
      return Err(parsed.error);
    }
    var (expr, pos) := parsed.value;
    if pos < |kept| {
      return Err(UnexpectedArgument(kept[pos]));
    }
    return Ok(opts.(expr := Some(expr)));
  }
}
