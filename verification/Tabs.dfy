/** expand and unexpand: tab stops, tabs to spaces, and spaces back to tabs. */
module Tabs {
  import opened Wrappers
  import opened Sequences
  import opened Numerals
  import opened Arithmetic
  import opened TextParts

  datatype TabStops = Uniform(n: nat) | List(list: seq<nat>)

  // ----- tab stops ------------------------------------------------------------------------------

  predicate Ascending(list: seq<nat>) {
    forall i, j :: 0 <= i < j < |list| ==> list[i] < list[j]
  }

  /** What a specification can stand for: a width, or at least two stops in ascending order. */
  predicate Valid(stops: TabStops) {
    match stops
    case Uniform(n) => n >= 1
    case List(list) => |list| >= 2 && list[0] >= 1 && Ascending(list)
  }

  function FirstBeyond(list: seq<nat>, col: nat): Option<nat> {
    if list == [] then None
    else if list[0] > col then Some(list[0])
    else FirstBeyond(list[1..], col)
  }

  /** Past the listed stops, the last interval repeats. */
  function Interval(list: seq<nat>): nat
    requires |list| >= 2 && Ascending(list)
  {
    list[|list| - 1] - list[|list| - 2]
  }

  lemma {:induction false} BeyondAll(list: seq<nat>, col: nat)
    requires Ascending(list)
    ensures FirstBeyond(list, col).None? ==> forall i :: 0 <= i < |list| ==> list[i] <= col
    ensures FirstBeyond(list, col).Some? ==>
              && FirstBeyond(list, col).value in list && FirstBeyond(list, col).value > col
              && forall i :: 0 <= i < |list| && list[i] > col ==> FirstBeyond(list, col).value <= list[i]
  {
    if list != [] && list[0] <= col {
      BeyondAll(list[1..], col);
      assert forall i :: 0 < i < |list| ==> list[i] == list[1..][i - 1];
    }
  }

  function NextMultiple(a: nat, n: nat): nat
    requires n >= 1
  {
    (a / n + 1) * n
  }

  predicate IsMultiple(p: nat, n: nat)
    requires n >= 1
  {
    p % n == 0
  }

  function NextTabStop(col: nat, stops: TabStops): nat
    requires Valid(stops)
  {
    match stops
    case Uniform(n) => NextMultiple(col, n)
    case List(list) =>
      var beyond := FirstBeyond(list, col);
      if beyond.Some? then beyond.value
      else
        BeyondAll(list, col);
        var last := list[|list| - 1];
        var interval := Interval(list);
        last + NextMultiple(col - last, interval)
  }

  /** The stops: multiples of the width, or the listed ones and then every further interval. */
  ghost predicate IsStop(p: nat, stops: TabStops)
    requires Valid(stops)
  {
    match stops
    case Uniform(n) => p > 0 && p % n == 0
    case List(list) =>
      var n := |list|;
      p in list || (p > list[n - 1] && (p - list[n - 1]) % (list[n - 1] - list[n - 2]) == 0)
  }

  lemma MultipleAbove(a: nat, n: nat)
    requires n >= 1
    ensures (a / n + 1) * n == a - a % n + n
    ensures (a - a % n + n) % n == 0 && a - a % n + n > a
    ensures forall p: nat :: p > a && p % n == 0 ==> p >= a - a % n + n
  {
    assert a == (a / n) * n + a % n;
    assert (a / n + 1) * n == (a / n) * n + n;
    var q := a / n + 1;
    assert q * n == a - a % n + n;
    MultipleHasNoRest(q, n);
    forall p: nat | p > a && p % n == 0
      ensures p >= a - a % n + n
    {
      assert p == (p / n) * n;
      if p / n <= a / n {
        ProductsGrow(p / n, a / n, n);
      } else {
        ProductsGrow(a / n + 1, p / n, n);
      }
    }
  }

  lemma NextMultipleIsLeast(a: nat, n: nat)
    requires n >= 1
    ensures NextMultiple(a, n) > a && IsMultiple(NextMultiple(a, n), n)
    ensures forall p: nat :: p > a && IsMultiple(p, n) ==> p >= NextMultiple(a, n)
  {
    MultipleAbove(a, n);
  }

  lemma IsStopOfList(p: nat, list: seq<nat>)
    requires Valid(List(list))
    ensures IsStop(p, List(list)) <==>
            p in list || (p > list[|list| - 1] && IsMultiple(p - list[|list| - 1], Interval(list)))
  {
  }

  lemma IsStopOfWidth(p: nat, n: nat)
    requires n >= 1
    ensures IsStop(p, Uniform(n)) <==> p > 0 && IsMultiple(p, n)
  {
  }

  lemma IntervalIsPositive(list: seq<nat>)
    requires Valid(List(list))
    ensures Interval(list) >= 1
  {
  }

  lemma NextListed(col: nat, list: seq<nat>)
    requires Valid(List(list))
    ensures var next := NextTabStop(col, List(list));
            next > col && IsStop(next, List(list)) && forall p: nat :: p > col && IsStop(p, List(list)) ==> p >= next
  {
    hide NextMultiple, IsMultiple, FirstBeyond, IsStop, Interval;
    var last := list[|list| - 1];
    var next := NextTabStop(col, List(list));
    BeyondAll(list, col);
    IsStopOfList(next, list);
    if FirstBeyond(list, col).Some? {
      assert last >= next;
    } else {
      IntervalIsPositive(list);
      NextMultipleIsLeast(col - last, Interval(list));
    }
    forall p: nat | p > col && IsStop(p, List(list))
      ensures p >= next
    {
      IsStopOfList(p, list);
      assert p !in list ==> p - last > 0;
    }
  }

  /** The next stop is the least one beyond the column. */
  lemma NextIsLeast(col: nat, stops: TabStops)
    requires Valid(stops)
    ensures NextTabStop(col, stops) > col && IsStop(NextTabStop(col, stops), stops)
    ensures forall p: nat :: p > col && IsStop(p, stops) ==> p >= NextTabStop(col, stops)
  {
    if stops.Uniform? {
      hide NextMultiple, IsMultiple, IsStop;
      NextMultipleIsLeast(col, stops.n);
      IsStopOfWidth(NextTabStop(col, stops), stops.n);
      forall p: nat | p > col && IsStop(p, stops)
        ensures p >= NextTabStop(col, stops)
      {
        IsStopOfWidth(p, stops.n);
      }
    } else {
      NextListed(col, stops.list);
    }
  }

  // ----- the specification of stops ---------------------------------------------------------------

  /** White space as `trim` knows it. */
  predicate IsWhite(c: char) {
    var u := c as int;
    || 0x09 <= u <= 0x0D
    || 0x2000 <= u <= 0x200A
    || u in {0x20, 0x85, 0xA0, 0x1680, 0x2028, 0x2029, 0x202F, 0x205F, 0x3000}
  }

  function TrimLeft(s: string): string {
    if s != "" && IsWhite(s[0]) then TrimLeft(s[1..]) else s
  }

  function TrimRight(s: string): string {
    if s != "" && IsWhite(s[|s| - 1]) then TrimRight(s[..|s| - 1]) else s
  }

  /** Parts of the text between commas, trimmed, without the empty ones. */
  function Parts(pieces: seq<string>): seq<string> {
    if pieces == [] then []
    else
      var part := TrimRight(TrimLeft(pieces[0]));
      (if part == "" then [] else [part]) + Parts(pieces[1..])
  }

  function FirstNonDigit(s: string): (k: nat)
    ensures k <= |s|
    ensures forall i :: 0 <= i < k ==> '0' <= s[i] <= '9'
    ensures k < |s| ==> !('0' <= s[k] <= '9')
  {
    if s == "" || !('0' <= s[0] <= '9') then 0 else 1 + FirstNonDigit(s[1..])
  }

  /** The stops that the parts give after `before`. */
  function Stops(parts: seq<string>, before: seq<nat>): Result<seq<nat>, string> {
    if parts == [] then Ok(before)
    else
      var part := parts[0];
      var k := FirstNonDigit(part);
      var n := ParseUsize(part);
      if k < |part| then Err("tab size contains invalid character(s): '" + part[k..] + "'")
      else if n.None? then Err("tab size contains invalid character(s): '" + part + "'")
      else if n.value == 0 then Err("tab size cannot be 0")
      else if before != [] && n.value <= before[|before| - 1] then Err("tab sizes must be ascending")
      else Stops(parts[1..], before + [n.value])
  }

  function Spec(parts: seq<string>): Result<TabStops, string> {
    if parts == [] then Ok(Uniform(8))
    else
      var stops := Stops(parts, []);
      if stops.Err? then Err(stops.error)
      else if |stops.value| == 1 then Ok(Uniform(stops.value[0]))
      else Ok(List(stops.value))
  }

  method ParseTabStops(s: string) returns (r: Result<TabStops, string>)
    ensures r == Spec(Parts(Divided(s, ',')))
  {
    var parts := Parts(Divided(s, ','));
    if parts == [] {
      return Ok(Uniform(8));
    }
    var stops: seq<nat> := [];
    for i := 0 to |parts|
      invariant Stops(parts[i..], stops) == Stops(parts, [])
    {
      var part := parts[i];
      assert parts[i..][0] == part && parts[i..][1..] == parts[i + 1..];
      var k := FirstNonDigit(part);
      if k < |part| {
        return Err("tab size contains invalid character(s): '" + part[k..] + "'");
      }
      var n := ParseUsize(part);
      if n.None? {
        return Err("tab size contains invalid character(s): '" + part + "'");
      }
      if n.value == 0 {
        return Err("tab size cannot be 0");
      }
      if stops != [] && n.value <= stops[|stops| - 1] {
        return Err("tab sizes must be ascending");
      }
      stops := stops + [n.value];
    }
    if |stops| == 1 {
      r := Ok(Uniform(stops[0]));
    } else {
      r := Ok(List(stops));
    }
  }

  lemma {:induction false} StopsAscend(parts: seq<string>, before: seq<nat>)
    requires Ascending(before) && (before != [] ==> before[0] >= 1)
    requires Stops(parts, before).Ok?
    ensures var list := Stops(parts, before).value;
            Ascending(list) && (list != [] ==> list[0] >= 1) && |list| == |before| + |parts|
    decreases |parts|
  {
    if parts != [] {
      StopsAscend(parts[1..], before + [ParseUsize(parts[0]).value]);
    }
  }

  /** Whatever the text, an accepted specification is a valid one. */
  lemma AcceptedIsValid(parts: seq<string>)
    ensures Spec(parts).Ok? ==> Valid(Spec(parts).value)
  {
    if parts != [] && Spec(parts).Ok? {
      StopsAscend(parts, []);
    }
  }

  // ----- writing a specification ------------------------------------------------------------------

  function Written(list: seq<nat>): string
    requires list != []
  {
    if |list| == 1 then Decimal(list[0]) else Decimal(list[0]) + "," + Written(list[1..])
  }

  function Listed(stops: TabStops): seq<nat> {
    match stops case Uniform(n) => [n] case List(list) => list
  }

  predicate Digits(s: string) {
    s != "" && forall i :: 0 <= i < |s| ==> '0' <= s[i] <= '9'
  }

  lemma SplitDigits(digits: string, rest: string)
    requires Digits(digits)
    ensures Divided(digits, ',') == [digits]
    ensures Divided(digits + "," + rest, ',') == [digits] + Divided(rest, ',')
  {
    Associates(digits, ",", rest);
    DividedFirst(digits, rest, ',');
  }

  lemma DigitsKept(digits: string)
    requires Digits(digits)
    ensures TrimRight(TrimLeft(digits)) == digits && FirstNonDigit(digits) == |digits|
  {
    assert !IsWhite(digits[0]) && !IsWhite(digits[|digits| - 1]);
  }

  function Decimals(list: seq<nat>): seq<string> {
    if list == [] then [] else [Decimal(list[0])] + Decimals(list[1..])
  }

  lemma {:induction false} WrittenInParts(list: seq<nat>)
    requires list != []
    ensures Parts(Divided(Written(list), ',')) == Decimals(list)
  {
    hide Decimal, Divided, IsWhite;
    var digits := Decimal(list[0]);
    DecimalReads(list[0]);
    DigitsKept(digits);
    hide TrimLeft, TrimRight;
    assert Parts([]) == [] && Decimals([]) == [];
    if |list| == 1 {
      SplitDigits(digits, "");
      assert [digits] + [] == [digits];
      assert list[1..] == [];
    } else {
      SplitDigits(digits, Written(list[1..]));
      WrittenInParts(list[1..]);
      Prepended(digits, Divided(Written(list[1..]), ','));
    }
  }

  lemma DecimalParses(n: nat)
    requires n < 0x1_0000_0000_0000_0000
    ensures ParseUsize(Decimal(n)) == Some(n)
  {
    hide Decimal;
    DecimalReads(n);
  }

  /** A stop that comes next in ascending order is accepted. */
  lemma StopsDecimal(n: nat, parts: seq<string>, before: seq<nat>)
    requires 1 <= n < 0x1_0000_0000_0000_0000 && (before != [] ==> before[|before| - 1] < n)
    ensures Stops([Decimal(n)] + parts, before) == Stops(parts, before + [n])
  {
    hide Decimal, FirstNonDigit, ParseUsize, TrimLeft, TrimRight;
    DecimalReads(n);
    DigitsKept(Decimal(n));
    DecimalParses(n);
    Prepended(Decimal(n), parts);
  }

  lemma AscendingNext(before: seq<nat>, list: seq<nat>)
    requires Ascending(before + list) && list != []
    ensures before != [] ==> before[|before| - 1] < list[0]
    ensures before + [list[0]] + list[1..] == before + list
  {
    var all := before + list;
    assert all[|before|] == list[0];
    assert before != [] ==> all[|before| - 1] == before[|before| - 1];
  }

  lemma NoStops(before: seq<nat>)
    ensures Stops([], before) == Ok(before) && Decimals([]) == []
  {
  }

  lemma {:induction false} DecimalsStop(list: seq<nat>, before: seq<nat>)
    requires Ascending(before + list) && forall i :: 0 <= i < |list| ==> 1 <= list[i] < 0x1_0000_0000_0000_0000
    ensures Stops(Decimals(list), before) == Ok(before + list)
    decreases |list|
  {
    hide Stops, Ascending, Decimal;
    if list == [] {
      NoStops(before);
      assert before + list == before;
    } else {
      AscendingNext(before, list);
      StopsDecimal(list[0], Decimals(list[1..]), before);
      DecimalsStop(list[1..], before + [list[0]]);
    }
  }

  /** Every valid choice of stops can be written down and is read back as it was. */
  lemma SpecificationsReadBack(stops: TabStops)
    requires Valid(stops) && forall i :: 0 <= i < |Listed(stops)| ==> Listed(stops)[i] < 0x1_0000_0000_0000_0000
    ensures Spec(Parts(Divided(Written(Listed(stops)), ','))) == Ok(stops)
  {
    hide Parts, Divided, Written, Stops, Decimal;
    var list := Listed(stops);
    WrittenInParts(list);
    assert [] + list == list;
    DecimalsStop(list, []);
  }

  // ----- expand ---------------------------------------------------------------------------------

  function Spaces(n: nat): string {
    seq(n, _ => ' ')
  }

  /** A line from column `col` on, with tabs spread out to spaces. */
  function Expand(line: string, col: nat, stops: TabStops): string
    requires Valid(stops)
  {
    if line == "" then ""
    else if line[0] == '\t' then
      NextIsLeast(col, stops);
      var next := NextTabStop(col, stops);
      Spaces(next - col) + Expand(line[1..], next, stops)
    else [line[0]] + Expand(line[1..], col + 1, stops)
  }

  lemma ExpandOpens(line: string, i: nat, col: nat, stops: TabStops)
    requires i < |line| && Valid(stops)
    ensures NextTabStop(col, stops) > col
    ensures Expand(line[i..], col, stops) ==
            if line[i] == '\t' then
              Spaces(NextTabStop(col, stops) - col) + Expand(line[i + 1..], NextTabStop(col, stops), stops)
            else [line[i]] + Expand(line[i + 1..], col + 1, stops)
  {
    hide NextTabStop;
    NextIsLeast(col, stops);
    assert line[i..][0] == line[i] && line[i..][1..] == line[i + 1..];
  }

  method ExpandLine(line: string, stops: TabStops) returns (stdout: string)
    requires Valid(stops)
    ensures stdout == Expand(line, 0, stops)
  {
    hide Expand, NextTabStop, Spaces;
    stdout := "";
    var col: nat := 0;
    assert line[0..] == line;
    for i := 0 to |line|
      invariant stdout + Expand(line[i..], col, stops) == Expand(line, 0, stops)
    {
      var c := line[i];
      ghost var before := stdout;
      ExpandOpens(line, i, col, stops);
      if c == '\t' {
        var nextStop := NextTabStop(col, stops);
        stdout := PushSpaces(stdout, nextStop - col);
        Associates(before, Spaces(nextStop - col), Expand(line[i + 1..], nextStop, stops));
        col := nextStop;
      } else {
        stdout := stdout + [c];
        Associates(before, [c], Expand(line[i + 1..], col + 1, stops));
        col := col + 1;
      }
    }
    assert line[|line|..] == "";
    ExpandEnds(col, stops);
  }

  lemma ExpandEnds(col: nat, stops: TabStops)
    requires Valid(stops)
    ensures Expand("", col, stops) == ""
  {
  }

  // ----- unexpand -------------------------------------------------------------------------------

  /** Leading spaces only: `count` of them are pending since the last tab stop. */
  function Leading(line: string, count: nat, width: nat): string {
    if line != "" && line[0] == ' ' then
      if count + 1 == width then "\t" + Leading(line[1..], 0, width) else Leading(line[1..], count + 1, width)
    else Spaces(count) + line
  }

  /** All spaces: those since column `start` are pending. */
  function All(line: string, col: nat, start: Option<nat>, width: nat): string
    requires width >= 1 && (start.Some? ==> start.value <= col)
  {
    if line == "" then
      if start.Some? then Spaces(col - start.value) else ""
    else if line[0] == ' ' then
      var from := if start.None? then Some(col) else start;
      if (col + 1) % width == 0 then "\t" + All(line[1..], col + 1, None, width)
      else All(line[1..], col + 1, from, width)
    else
      (if start.Some? && col % width > 0 then Spaces(col - start.value) else "")
      + [line[0]] + All(line[1..], col + 1, None, width)
  }

  function Unexpand(line: string, width: nat, convertAll: bool): string
    requires width >= 1
  {
    if convertAll then All(line, 0, None, width) else Leading(line, 0, width)
  }

  method UnexpandLine(line: string, tabWidth: nat, convertAll: bool) returns (result: string)
    requires tabWidth >= 1
    ensures result == Unexpand(line, tabWidth, convertAll)
  {
    if !convertAll {
      result := UnexpandLeading(line, tabWidth);
    } else {
      result := UnexpandAll(line, tabWidth);
    }
  }

  /** One character of the loop over leading spaces. */
  lemma LeadingAt(line: string, i: nat, count: nat, width: nat)
    requires i < |line|
    ensures Leading(line[i..], count, width) ==
            if line[i] == ' ' then
              if count + 1 == width then "\t" + Leading(line[i + 1..], 0, width)
              else Leading(line[i + 1..], count + 1, width)
            else Spaces(count) + ([line[i]] + line[i + 1..])
    ensures line[i..] == [line[i]] + line[i + 1..]
  {
    assert line[i..][0] == line[i] && line[i..][1..] == line[i + 1..];
  }

  lemma LeadingEnds(count: nat, width: nat)
    ensures Leading("", count, width) == Spaces(count) + "" == Spaces(count)
  {
  }

  method UnexpandLeading(line: string, tabWidth: nat) returns (result: string)
    requires tabWidth >= 1
    ensures result == Leading(line, 0, tabWidth)
  {
    hide Leading, Spaces;
    result := "";
    var spaceCount: nat := 0;
    var inLeading := true;
    assert line[0..] == line;
    for i := 0 to |line|
      invariant inLeading ==> result + Leading(line[i..], spaceCount, tabWidth) == Leading(line, 0, tabWidth)
      invariant !inLeading ==> spaceCount == 0 && result + line[i..] == Leading(line, 0, tabWidth)
    {
      var c := line[i];
      ghost var before, rest := result, line[i + 1..];
      LeadingAt(line, i, spaceCount, tabWidth);
      if inLeading && c == ' ' {
        spaceCount := spaceCount + 1;
        if spaceCount == tabWidth {
          result := result + "\t";
          Associates(before, "\t", Leading(rest, 0, tabWidth));
          spaceCount := 0;
        }
      } else {
        if inLeading {
          result := PushSpaces(result, spaceCount);
          Associates(before, Spaces(spaceCount), [c] + rest);
          spaceCount := 0;
          inLeading := false;
        }
        Associates(result, [c], rest);
        result := result + [c];
      }
    }
    assert line[|line|..] == "";
    LeadingEnds(spaceCount, tabWidth);
    ghost var written := result;
    result := PushSpaces(result, spaceCount);
    if !inLeading {
      NothingPushed(written);
    }
  }

  lemma NothingPushed(written: string)
    ensures written + Spaces(0) == written == written + ""
  {
  }

  method PushSpaces(before: string, n: nat) returns (result: string)
    ensures result == before + Spaces(n)
  {
    result := before;
    for k := 0 to n
      invariant result == before + Spaces(k)
    {
      result := result + [' '];
    }
  }

  lemma NothingMore(a: string)
    ensures a + "" == a
  {
  }

  lemma AssociatesThree(a: string, b: string, c: string, d: string)
    ensures a + (b + c + d) == a + b + c + d
  {
  }

  /** One character of the loop: what is printed for it, and what stays pending. */
  lemma AllOpens(line: string, i: nat, col: nat, start: Option<nat>, width: nat)
    requires i < |line| && width >= 1 && (start.Some? ==> start.value <= col)
    ensures var from := if start.None? then Some(col) else start;
            var flushed := if start.Some? && col % width > 0 then Spaces(col - start.value) else "";
            All(line[i..], col, start, width) ==
            if line[i] != ' ' then flushed + [line[i]] + All(line[i + 1..], col + 1, None, width)
            else if (col + 1) % width == 0 then "\t" + All(line[i + 1..], col + 1, None, width)
            else All(line[i + 1..], col + 1, from, width)
  {
    assert line[i..][0] == line[i] && line[i..][1..] == line[i + 1..];
  }

  method UnexpandAll(line: string, tabWidth: nat) returns (result: string)
    requires tabWidth >= 1
    ensures result == All(line, 0, None, tabWidth)
  {
    hide All, Spaces;
    result := "";
    var col: nat := 0;
    var spaceStart: Option<nat> := None;
    assert line[0..] == line;
    for i := 0 to |line|
      invariant spaceStart.Some? ==> spaceStart.value <= col
      invariant result + All(line[i..], col, spaceStart, tabWidth) == All(line, 0, None, tabWidth)
    {
      var c := line[i];
      ghost var before, rest := result, All(line[i + 1..], col + 1, None, tabWidth);
      AllOpens(line, i, col, spaceStart, tabWidth);
      if c == ' ' {
        if spaceStart.None? {
          spaceStart := Some(col);
        }
        col := col + 1;
        if col % tabWidth == 0 {
          result := result + "\t";
          Associates(before, "\t", rest);
          spaceStart := None;
        }
      } else {
        ghost var flush := if spaceStart.Some? && col % tabWidth > 0 then Spaces(col - spaceStart.value) else "";
        NothingMore(before);
        if spaceStart.Some? {
          var spaces := col % tabWidth;
          if spaces > 0 {
            result := PushSpaces(result, col - spaceStart.value);
          }
          spaceStart := None;
        }
        result := result + [c];
        AssociatesThree(before, flush, [c], rest);
        col := col + 1;
      }
    }
    AllEnds(col, spaceStart, tabWidth);
    assert line[|line|..] == "";
    if spaceStart.Some? {
      result := PushSpaces(result, col - spaceStart.value);
    }
  }

  lemma AllEnds(col: nat, start: Option<nat>, width: nat)
    requires width >= 1 && (start.Some? ==> start.value <= col)
    ensures All("", col, start, width) == if start.Some? then Spaces(col - start.value) else ""
  {
  }
}
