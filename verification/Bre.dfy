/**
 Basic regular expressions rewritten as extended ones, and the token sequences of both notations
 (sections 9.3 and 9.4 of POSIX.1-2017, XBD), with the extensions `\+`, `\?` and `\|`.
 */
module Bre {
  import opened Wrappers
  import opened Sequences
  import opened Utf8Codec

  // ----- the translation ------------------------------------------------------------------------

  /** Characters that one notation escapes to say what the other says bare. */
  predicate Special(c: char) {
    c in "(){}+?|"
  }

  /** An opening `[`, with `^` and a first `]` if there. */
  function Opening(s: string): (o: string)
    requires s != "" && s[0] == '['
    ensures 1 <= |o| <= 3 && |o| <= |s| && s[..|o|] == o
  {
    var hat := if |s| > 1 && s[1] == '^' then "[^" else "[";
    if |s| > |hat| && s[|hat|] == ']' then hat + "]" else hat
  }

  /** What one step reads, what it writes, and whether it leaves the text inside a bracket. */
  function Reads(s: string, inBracket: bool): (n: nat)
    requires s != ""
    ensures 1 <= n <= |s|
  {
    if inBracket then 1
    else if s[0] == '[' then |Opening(s)|
    else if s[0] == '\\' && |s| > 1 then 2
    else 1
  }

  function Writes(s: string, inBracket: bool): string
    requires s != ""
  {
    if inBracket then [s[0]]
    else if s[0] == '[' then Opening(s)
    else if s[0] == '\\' && |s| > 1 then if Special(s[1]) then [s[1]] else ['\\', s[1]]
    else if Special(s[0]) then ['\\', s[0]]
    else [s[0]]
  }

  function Stays(s: string, inBracket: bool): bool
    requires s != ""
  {
    if inBracket then s[0] != ']' else s[0] == '['
  }

  /** The rewritten text, from inside or outside a bracket. */
  function Ere(s: string, inBracket: bool): string
    decreases |s|
  {
    if s == "" then "" else Writes(s, inBracket) + Ere(s[Reads(s, inBracket)..], Stays(s, inBracket))
  }

  /** `as_bytes`. */
  function Utf8(s: string): seq<Byte> {
    if s == "" then [] else BytesOf(s[0]) + Utf8(s[1..])
  }

  /** Each byte taken for a character. */
  function Latin(b: seq<Byte>): string {
    if b == [] then "" else [b[0] as char] + Latin(b[1..])
  }

  lemma {:induction false} LatinAt(b: seq<Byte>)
    ensures |Latin(b)| == |b| && forall i :: 0 <= i < |b| ==> Latin(b)[i] == b[i] as char
  {
    if b != [] {
      LatinAt(b[1..]);
    }
  }

  /** The step, by the characters at `i`. */
  lemma StepAt(s: string, i: nat, inBracket: bool)
    requires i < |s|
    ensures var c, t := s[i], s[i..];
            if inBracket then Writes(t, true) == [c] && Reads(t, true) == 1 && Stays(t, true) == (c != ']')
            else if c == '[' then
              Writes(t, false) == Opening(t) && Reads(t, false) == |Opening(t)| && Stays(t, false)
            else if c == '\\' && i + 1 < |s| then
              && Writes(t, false) == (if Special(s[i + 1]) then [s[i + 1]] else ['\\', s[i + 1]])
              && Reads(t, false) == 2 && !Stays(t, false)
            else
              && Writes(t, false) == (if Special(c) then ['\\', c] else [c])
              && Reads(t, false) == 1 && !Stays(t, false)
  {
  }

  lemma EreStep(s: string, i: nat, inBracket: bool)
    requires i < |s|
    ensures i + Reads(s[i..], inBracket) <= |s|
    ensures Ere(s[i..], inBracket) ==
            Writes(s[i..], inBracket) + Ere(s[i + Reads(s[i..], inBracket)..], Stays(s[i..], inBracket))
  {
    hide Writes;
    var t, n := s[i..], Reads(s[i..], inBracket);
    assert t[n..] == s[i + n..];
  }

  method BreToEre(bre: string) returns (ere: string)
    ensures ere == Ere(Latin(Utf8(bre)), false)
  {
    hide Ere, Special, Latin, Utf8, Opening, Writes, Reads, Stays;
    var bytes := Utf8(bre);
    ghost var s := Latin(bytes);
    LatinAt(bytes);
    ere := "";
    var i: nat := 0;
    var inBracket := false;
    assert s[0..] == s;
    while i < |bytes|
      invariant i <= |bytes|
      invariant inBracket ==> i > 0
      invariant ere + Ere(s[i..], inBracket) == Ere(s, false)
    {
      EreStep(s, i, inBracket);
      StepAt(s, i, inBracket);
      var c := bytes[i] as char;
      ghost var before, t := ere, s[i..];
      ghost var writes, after := Writes(t, inBracket), i + Reads(t, inBracket);
      if inBracket {
        ere := ere + [c];
        if c == ']' && i > 0 {
          inBracket := false;
        }
        i := i + 1;
      } else if c == '[' {
        ere, i := PushOpening(bytes, s, i, ere);
        inBracket := true;
      } else if c == '\\' && i + 1 < |bytes| {
        var d := bytes[i + 1] as char;
        if Special(d) {
          ere := ere + [d];
        } else {
          ere := ere + ['\\', d];
        }
        i := i + 2;
      } else {
        if Special(c) {
          ere := ere + ['\\', c];
        } else {
          ere := ere + [c];
        }
        i := i + 1;
      }
      assert ere == before + writes && i == after;
      Associates(before, writes, Ere(s[i..], inBracket));
    }
    EreEnds(inBracket);
    assert s[|s|..] == "";
  }

  /** `[`, then `^` and a literal `]` if they follow. */
  method PushOpening(bytes: seq<Byte>, ghost s: string, start: nat, before: string) returns (ere: string, i: nat)
    requires |s| == |bytes| && (forall k :: 0 <= k < |bytes| ==> s[k] == bytes[k] as char)
    requires start < |s| && s[start] == '['
    ensures ere == before + Opening(s[start..]) && i == start + |Opening(s[start..])|
  {
    ere := before + "[";
    i := start + 1;
    if i < |bytes| && bytes[i] as char == '^' {
      ere := ere + "^";
      i := i + 1;
    }
    if i < |bytes| && bytes[i] as char == ']' {
      ere := ere + "]";
      i := i + 1;
    }
  }

  lemma EreEnds(inBracket: bool)
    ensures Ere("", inBracket) == ""
  {
  }

  // ----- tokens -----------------------------------------------------------------------------------

  datatype Token =
    | Char(c: char)
    | Escape(c: char)
    | Anchor(c: char)
    | Star | Plus | Quest | Alt | Open | Close | OpenBrace | CloseBrace
    | Bracket(text: string)
    | Unclosed(text: string)

  /** Past the `x]` that ends a class, collating symbol or equivalence class opened with `[x`. */
  function ClassEnd(s: string, i: nat, x: char): (e: Option<nat>)
    ensures e.Some? ==> i + 2 <= e.value <= |s| && s[e.value - 1] == ']'
    decreases |s| - i
  {
    if i + 1 >= |s| then None
    else if s[i] == x && s[i + 1] == ']' then Some(i + 2)
    else ClassEnd(s, i + 1, x)
  }

  predicate OpensClass(s: string, i: nat) {
    i + 1 < |s| && s[i] == '[' && s[i + 1] in ":.="
  }

  /** Past the `]` that ends a bracket expression whose contents go on at `i`. */
  function ContentEnd(s: string, i: nat): (e: Option<nat>)
    ensures e.Some? ==> i < e.value <= |s| && s[e.value - 1] == ']'
    decreases |s| - i
  {
    if i >= |s| then None
    else if s[i] == ']' then Some(i + 1)
    else if OpensClass(s, i) then
      var e := ClassEnd(s, i + 2, s[i + 1]);
      if e.None? then None else ContentEnd(s, e.value)
    else ContentEnd(s, i + 1)
  }

  function BracketEnd(s: string): (e: Option<nat>)
    requires s != "" && s[0] == '['
    ensures e.Some? ==> |Opening(s)| < e.value <= |s| && s[e.value - 1] == ']'
  {
    ContentEnd(s, ContentStart(s))
  }

  /** Past the `[` of a bracket expression, a `^` that negates it and a `]` that is its first member. */
  function ContentStart(s: string): (i: nat)
    requires s != "" && s[0] == '['
    ensures i == |Opening(s)|
  {
    if "[^]" <= s then 3 else if "[^" <= s || "[]" <= s then 2 else 1
  }

  /** The operators of extended expressions, which basic ones write with a backslash. */
  function Operator(c: char): Option<Token> {
    match c
    case '(' => Some(Open)
    case ')' => Some(Close)
    case '{' => Some(OpenBrace)
    case '}' => Some(CloseBrace)
    case '+' => Some(Plus)
    case '?' => Some(Quest)
    case '|' => Some(Alt)
    case _ => None
  }

  /** Where a basic expression stands: at the start of a branch, after a leading `^`, or further on. */
  datatype Place = Begin | AfterAnchor | Inside

  /** Nothing of the branch follows. */
  predicate BranchEnds(rest: string) {
    rest == "" || (|rest| > 1 && rest[0] == '\\' && rest[1] in ")|")
  }

  /** `^`, `$` and `*` are ordinary where they cannot be operators. */
  function Contextual(c: char, at: Place, rest: string): Token {
    if c == '^' && at == Begin then Anchor(c)
    else if c == '$' && BranchEnds(rest) then Anchor(c)
    else if c == '*' && at == Inside then Star
    else Char(c)
  }

  function Next(c: char, at: Place): Place {
    if c == '^' && at == Begin then AfterAnchor else Inside
  }

  function AfterEscape(c: char): Place {
    if c in "(|" then Begin else Inside
  }

  function BreTokens(s: string, at: Place): seq<Token>
    decreases |s|
  {
    if s == "" then []
    else if s[0] == '[' then
      var e := BracketEnd(s);
      if e.None? then [Unclosed(s)] else [Bracket(s[..e.value])] + BreTokens(s[e.value..], Inside)
    else if s[0] == '\\' && |s| > 1 then
      [BreEscape(s[1])] + BreTokens(s[2..], AfterEscape(s[1]))
    else [Contextual(s[0], at, s[1..])] + BreTokens(s[1..], Next(s[0], at))
  }

  /** What a backslash and a character are in either notation, and a bare character in the extended one. */
  function BreEscape(c: char): Token {
    if Operator(c).Some? then Operator(c).value else Escape(c)
  }

  function EreEscape(c: char): Token {
    if Operator(c).Some? then Char(c) else Escape(c)
  }

  function EreChar(c: char): Token {
    if Operator(c).Some? then Operator(c).value
    else if c in "^$" then Anchor(c) else if c == '*' then Star else Char(c)
  }

  function EreTokens(s: string): seq<Token>
    decreases |s|
  {
    if s == "" then []
    else if s[0] == '[' then
      var e := BracketEnd(s);
      if e.None? then [Unclosed(s)] else [Bracket(s[..e.value])] + EreTokens(s[e.value..])
    else if s[0] == '\\' && |s| > 1 then
      [EreEscape(s[1])] + EreTokens(s[2..])
    else [EreChar(s[0])] + EreTokens(s[1..])
  }

  function Bare(c: char): Token
    requires Special(c)
  {
    SpecialIsOperator(c);
    Operator(c).value
  }

  /** The translation escapes and bares exactly the operators. */
  lemma SpecialIsOperator(c: char)
    ensures Special(c) <==> Operator(c).Some?
  {
  }

  lemma TokensOf(c: char)
    ensures BreEscape(c) == if Special(c) then Bare(c) else Escape(c)
    ensures EreEscape(c) == if Special(c) then Char(c) else Escape(c)
    ensures EreChar(c) ==
            if Special(c) then Bare(c) else if c in "^$" then Anchor(c) else if c == '*' then Star else Char(c)
  {
    SpecialIsOperator(c);
  }
}
