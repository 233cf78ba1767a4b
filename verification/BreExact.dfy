/** When the rewritten expression means what the basic one meant, token by token. */
module BreExact {
  import opened Wrappers
  import opened Utf8Codec
  import opened Bre
  import opened Sequences

  /** Whether the text, read from inside or outside a bracket, ends outside. */
  function Closes(s: string, inBracket: bool): bool
    decreases |s|
  {
    if s == "" then !inBracket else Closes(s[Reads(s, inBracket)..], Stays(s, inBracket))
  }

  /** The next step from here leaves the text as it is: no operator character is met outside a bracket. */
  predicate Unaltered(s: string, inBracket: bool)
    requires s != ""
  {
    inBracket || s[0] == '[' || Operator(if s[0] == '\\' && |s| > 1 then s[1] else s[0]).None?
  }

  /** Walking the text, inside and outside of what the scan takes for brackets, alters nothing. */
  predicate Kept(s: string, inBracket: bool)
    decreases |s|
  {
    s == "" || (Unaltered(s, inBracket) && Kept(s[Reads(s, inBracket)..], Stays(s, inBracket)))
  }

  /** Where the scan takes itself to be after a token that it starts inside or outside a bracket. */
  function After(t: Token, inBracket: bool): bool {
    match t
    case Bracket(text) => !Closes(text, inBracket)
    case Unclosed(text) => !Closes(text, inBracket)
    case Char(c) => inBracket && c != ']'
    case Escape(c) => inBracket && c != ']'
    case _ => inBracket
  }

  /** A token that the scan starts inside a bracket must not be, or spell, an operator. */
  predicate TokenFits(t: Token, inBracket: bool) {
    match t
    case Bracket(text) => Kept(text, inBracket)
    case Unclosed(text) => Kept(text, inBracket)
    case Char(c) => inBracket ==> Operator(c).None?
    case Escape(_) => true
    case Anchor(_) => true
    case Star => true
    case _ => !inBracket
  }

  /** The scan, followed from token to token, fits them all. */
  predicate Fits(ts: seq<Token>, inBracket: bool)
    decreases |ts|
  {
    ts == [] || (TokenFits(ts[0], inBracket) && Fits(ts[1..], After(ts[0], inBracket)))
  }

  predicate TokenInPlace(t: Token) {
    t.Char? ==> t.c !in "^$*"
  }

  /** Every `^`, `$` and `*` is an operator where it stands. */
  predicate InPlace(ts: seq<Token>) {
    ts == [] || (TokenInPlace(ts[0]) && InPlace(ts[1..]))
  }

  predicate Ascii(s: string) {
    forall i :: 0 <= i < |s| ==> s[i] as int < 0x80
  }

  // ----- brackets -----------------------------------------------------------------------------------

  lemma StepInFront(t: string, rest: string, inBracket: bool)
    requires t != "" && t[|t| - 1] == ']'
    ensures Reads(t + rest, inBracket) == Reads(t, inBracket)
    ensures Writes(t + rest, inBracket) == Writes(t, inBracket)
    ensures Stays(t + rest, inBracket) == Stays(t, inBracket)
  {
    var s := t + rest;
    assert s[0] == t[0];
    if |t| > 1 {
      assert s[1] == t[1];
    }
    if |t| > 2 {
      assert s[2] == t[2];
    }
  }

  lemma StepOpens(s: string, inBracket: bool)
    requires s != ""
    ensures var n, stays := Reads(s, inBracket), Stays(s, inBracket);
            && Ere(s, inBracket) == Writes(s, inBracket) + Ere(s[n..], stays)
            && Closes(s, inBracket) == Closes(s[n..], stays)
            && Closes("", stays) == !stays
  {
    hide Writes, Reads, Stays;
  }

  lemma LastOfTail(t: string, n: nat)
    requires n < |t|
    ensures t[n..] != "" && t[n..][|t[n..]| - 1] == t[|t| - 1]
  {
  }

  /** A text that ends in `]` is rewritten on its own. */
  lemma {:induction false} EreInFront(t: string, rest: string, inBracket: bool)
    requires t != "" ==> t[|t| - 1] == ']'
    ensures Ere(t + rest, inBracket) ==
            Ere(t, inBracket) + Ere(rest, if t == "" then inBracket else !Closes(t, inBracket))
    decreases |t|
  {
    hide Writes, Reads, Stays, Ere, Closes;
    if t == "" {
      EreEnds(inBracket);
      assert t + rest == rest;
    } else {
      StepInFront(t, rest, inBracket);
      StepOpens(t, inBracket);
      StepOpens(t + rest, inBracket);
      var n := Reads(t, inBracket);
      assert (t + rest)[n..] == t[n..] + rest;
      if n < |t| {
        LastOfTail(t, n);
      }
      EreInFront(t[n..], rest, Stays(t, inBracket));
      var after := Ere(rest, !Closes(t, inBracket));
      Associates(Writes(t, inBracket), Ere(t[n..], Stays(t, inBracket)), after);
    }
  }

  lemma {:induction false} ClassEndInFront(s: string, i: nat, x: char, e: nat, t: string)
    requires ClassEnd(s, i, x).Some? && ClassEnd(s, i, x).value <= e <= |s| && |t| >= e && t[..e] == s[..e]
    ensures ClassEnd(t, i, x) == ClassEnd(s, i, x)
    decreases |s| - i
  {
    assert forall k :: 0 <= k < e ==> t[k] == t[..e][k] == s[k];
    if !(s[i] == x && s[i + 1] == ']') {
      ClassEndInFront(s, i + 1, x, e, t);
    }
  }

  lemma {:induction false} ContentEndInFront(s: string, i: nat, e: nat, t: string)
    requires ContentEnd(s, i) == Some(e) && |t| >= e && t[..e] == s[..e]
    ensures ContentEnd(t, i) == Some(e)
    decreases |s| - i
  {
    assert forall k :: 0 <= k < e ==> t[k] == t[..e][k] == s[k];
    if s[i] != ']' {
      if OpensClass(s, i) {
        var c := ClassEnd(s, i + 2, s[i + 1]).value;
        ClassEndInFront(s, i + 2, s[i + 1], e, t);
        ContentEndInFront(s, c, e, t);
      } else {
        ContentEndInFront(s, i + 1, e, t);
        assert i + 1 < e;
      }
    }
  }

  lemma BracketEndInFront(s: string, e: nat, t: string)
    requires s != "" && s[0] == '[' && BracketEnd(s) == Some(e) && |t| >= e && t[..e] == s[..e]
    ensures t[0] == '[' && BracketEnd(t) == Some(e)
  {
    assert forall k :: 0 <= k < e ==> t[k] == t[..e][k] == s[k];
    assert Opening(t) == Opening(s);
    ContentEndInFront(s, |Opening(s)|, e, t);
  }

  // ----- all tokens ---------------------------------------------------------------------------------

  /** Text that is kept is rewritten to itself; other text is first altered at some position. */
  lemma {:induction false} KeptOrAltered(s: string, inBracket: bool) returns (p: nat)
    ensures Kept(s, inBracket) ==> Ere(s, inBracket) == s
    ensures !Kept(s, inBracket) ==> p < |s| && p < |Ere(s, inBracket)| && Ere(s, inBracket)[p] != s[p]
    decreases |s|
  {
    hide Ere, Kept, Reads, Writes, Stays, Unaltered;
    p := 0;
    NothingKept();
    if s == "" {
      EreEnds(inBracket);
    } else {
      var n := Reads(s, inBracket);
      StepOpens(s, inBracket);
      KeptOpens(s, inBracket);
      StepAlters(s, inBracket);
      if Unaltered(s, inBracket) {
        p := KeptOrAltered(s[n..], Stays(s, inBracket));
        SameStart(s, n, Ere(s[n..], Stays(s, inBracket)), p);
        p := p + n;
      }
    }
  }

  lemma SameStart(s: string, n: nat, rest: string, p: nat)
    requires n <= |s|
    ensures s[n..] == rest ==> s[..n] + rest == s
    ensures p < |s| - n && p < |rest| && rest[p] != s[n..][p] ==> (s[..n] + rest)[p + n] != s[p + n]
  {
  }

  lemma StepAlters(s: string, inBracket: bool)
    requires s != ""
    ensures Writes(s, inBracket) != ""
    ensures if Unaltered(s, inBracket) then Writes(s, inBracket) == s[..Reads(s, inBracket)]
            else Writes(s, inBracket)[0] != s[0]
  {
    assert s[..1] == [s[0]];
    if |s| > 1 {
      assert s[..2] == [s[0], s[1]];
    }
  }

  lemma TokenFirst(c: char, t: string)
    requires c != '[' && c != '\\'
    ensures EreTokens([c] + t) == [EreChar(c)] + EreTokens(t)
  {
    assert ([c] + t)[1..] == t;
  }

  lemma EscapedFirst(c: char, t: string)
    ensures EreTokens(['\\', c] + t) == [if Special(c) then Char(c) else Escape(c)] + EreTokens(t)
  {
    TokensOf(c);
    hide Special, Bare, EreEscape, BracketEnd;
    var s := ['\\', c] + t;
    assert s[2..] == t && s[0] == '\\' && s[1] == c;
  }

  lemma EreUnfolds(s: string, inBracket: bool)
    requires s != ""
    ensures Ere(s, inBracket) == Writes(s, inBracket) + Ere(s[Reads(s, inBracket)..], Stays(s, inBracket))
  {
    hide Writes, Reads, Stays;
  }

  /** The first token of a basic expression, and where the rest starts. */
  lemma BreOpens(s: string, at: Place)
    requires s != ""
    ensures BreTokens(s, at) ==
            if s[0] == '[' then
              if BracketEnd(s).None? then [Unclosed(s)] + []
              else [Bracket(s[..BracketEnd(s).value])] + BreTokens(s[BracketEnd(s).value..], Inside)
            else if s[0] == '\\' && |s| > 1 then
              [if Special(s[1]) then Bare(s[1]) else Escape(s[1])] + BreTokens(s[2..], AfterEscape(s[1]))
            else [Contextual(s[0], at, s[1..])] + BreTokens(s[1..], Next(s[0], at))
  {
    if |s| > 1 {
      TokensOf(s[1]);
    }
    hide BracketEnd, Special, Bare, BreEscape;
  }

  lemma NoTokens(at: Place, inBracket: bool)
    ensures BreTokens("", at) == [] && EreTokens(Ere("", inBracket)) == []
    ensures InPlace([]) && Fits([], inBracket)
  {
  }

  /** The tokens go on as they should if the first one is fit, and otherwise start with another. */
  predicate GoesOn(ts: seq<Token>, first: Token, fit: bool, rest: seq<Token>) {
    if fit then ts == [first] + rest else ts == [] || ts[0] != first
  }

  lemma EscapeStep(s: string, inBracket: bool)
    requires |s| > 1 && s[0] == '\\'
    ensures var t := if Special(s[1]) then Bare(s[1]) else Escape(s[1]);
            GoesOn(EreTokens(Ere(s, inBracket)), t, TokenFits(t, inBracket) && TokenInPlace(t),
                   EreTokens(Ere(s[2..], After(t, inBracket))))
  {
    hide Ere, EreTokens, Special;
    var c := s[1];
    EscapeRewritten(s, inBracket);
    var rest := Ere(s[2..], inBracket && c != ']');
    BareIs(c);
    if inBracket || !Special(c) {
      EscapedFirst(c, rest);
    } else {
      TokenFirst(c, rest);
    }
  }

  lemma BareIs(c: char)
    ensures Special(c) ==> !Bare(c).Char? && !Bare(c).Escape? && !Bare(c).Anchor? && !Bare(c).Star?
                           && !Bare(c).Bracket? && !Bare(c).Unclosed? && EreChar(c) == Bare(c) && c != ']'
    ensures Special(c) ==> c != '[' && c != '\\'
  {
  }

  lemma EscapeRewritten(s: string, inBracket: bool)
    requires |s| > 1 && s[0] == '\\'
    ensures Ere(s, inBracket) ==
            (if inBracket || !Special(s[1]) then ['\\', s[1]] else [s[1]]) + Ere(s[2..], inBracket && s[1] != ']')
  {
    hide Ere, Special;
    EreUnfolds(s, inBracket);
    if inBracket {
      EreUnfolds(s[1..], true);
      DropMore(s, 1, 1);
      Associates(['\\'], [s[1]], Ere(s[2..], s[1] != ']'));
      assert ['\\', s[1]] == ['\\'] + [s[1]];
    }
  }

  lemma CharStep(s: string, at: Place, inBracket: bool)
    requires s != "" && s[0] != '[' && (s[0] == '\\' ==> |s| == 1)
    ensures var t := Contextual(s[0], at, s[1..]);
            GoesOn(EreTokens(Ere(s, inBracket)), t, TokenFits(t, inBracket) && TokenInPlace(t),
                   EreTokens(Ere(s[1..], After(t, inBracket))))
  {
    var c := s[0];
    ContextualIs(c, at, s[1..], inBracket);
    CharRewritten(s, inBracket);
    hide Ere, EreTokens, Special, Contextual, EreChar, TokenFits, TokenInPlace, After;
    var rest := Ere(s[1..], inBracket && c != ']');
    if c == '\\' {
      LoneBackslash(inBracket);
      assert s[1..] == "" && s == "\\";
    } else if Special(c) && !inBracket {
      EscapedFirst(c, rest);
    } else {
      TokenFirst(c, rest);
    }
  }

  /** How the two notations read a character that is not a bracket. */
  lemma ContextualIs(c: char, at: Place, rest: string, inBracket: bool)
    requires c != '['
    ensures var t := Contextual(c, at, rest);
            && After(t, inBracket) == (inBracket && c != ']')
            && (Special(c) ==>
                  t == Char(c) && TokenInPlace(t) && TokenFits(t, inBracket) == !inBracket && EreChar(c) != t)
            && (!Special(c) ==> TokenFits(t, inBracket) && (TokenInPlace(t) <==> EreChar(c) == t))
            && (c == '\\' ==> t == Char(c) && !Special(c) && EreChar(c) == t)
  {
  }

  lemma CharRewritten(s: string, inBracket: bool)
    requires s != "" && s[0] != '[' && (s[0] == '\\' ==> |s| == 1)
    ensures Ere(s, inBracket) ==
            (if Special(s[0]) && !inBracket then ['\\', s[0]] else [s[0]]) + Ere(s[1..], inBracket && s[0] != ']')
  {
    hide Ere;
    StepOpens(s, inBracket);
  }

  lemma LoneBackslash(inBracket: bool)
    ensures Ere("", inBracket) == "" && EreTokens("") == []
    ensures EreTokens(['\\'] + "") == [Char('\\')] + []
  {
    assert ['\\'] + "" == ['\\'];
    assert ['\\'][1..] == "";
  }

  lemma BracketStep(s: string, inBracket: bool)
    requires s != "" && s[0] == '[' && BracketEnd(s).Some?
    ensures var e := BracketEnd(s).value;
            var t := Bracket(s[..e]);
            GoesOn(EreTokens(Ere(s, inBracket)), t, Kept(s[..e], inBracket),
                   EreTokens(Ere(s[e..], After(t, inBracket))))
  {
    hide Ere, EreTokens, Closes, BracketEnd, ContentEnd, Kept;
    var e := BracketEnd(s).value;
    var text, rest := s[..e], s[e..];
    assert s == text + rest;
    EreInFront(text, rest, inBracket);
    var p := KeptOrAltered(text, inBracket);
    var out := Ere(s, inBracket);
    var after := Ere(rest, After(Bracket(text), inBracket));
    if Kept(text, inBracket) {
      assert out == text + after && out[..e] == text && out[e..] == after;
      BracketEndInFront(s, e, out);
      BracketFirst(out, e);
    } else if EreTokens(out) != [] && EreTokens(out)[0] == Bracket(text) {
      assert out[p] == Ere(text, inBracket)[p];
      FirstText(out);
    }
  }

  lemma BracketFirst(s: string, e: nat)
    requires s != "" && s[0] == '[' && BracketEnd(s) == Some(e)
    ensures EreTokens(s) == [Bracket(s[..e])] + EreTokens(s[e..])
  {
    hide BracketEnd;
  }

  lemma UnclosedStep(s: string, inBracket: bool)
    requires s != "" && s[0] == '[' && BracketEnd(s).None?
    ensures GoesOn(EreTokens(Ere(s, inBracket)), Unclosed(s), Kept(s, inBracket), [])
  {
    hide Ere, EreTokens, Closes, BracketEnd, ContentEnd, Kept;
    var p := KeptOrAltered(s, inBracket);
    var out := Ere(s, inBracket);
    if Kept(s, inBracket) {
      UnclosedIsKept(s);
    } else if EreTokens(out) != [] && EreTokens(out)[0] == Unclosed(s) {
      FirstText(out);
    }
  }

  /** A bracket token's text is what the expression starts with. */
  lemma FirstText(s: string)
    requires EreTokens(s) != [] && (EreTokens(s)[0].Bracket? || EreTokens(s)[0].Unclosed?)
    ensures var text := EreTokens(s)[0].text;
            |text| <= |s| && forall i :: 0 <= i < |text| ==> s[i] == text[i]
  {
    hide BracketEnd, Special, EreChar;
    if s[0] != '[' {
      FirstKind(s);
    }
  }

  lemma FirstKind(s: string)
    requires s != "" && s[0] != '['
    ensures EreTokens(s) != [] && !EreTokens(s)[0].Bracket? && !EreTokens(s)[0].Unclosed?
  {
  }

  lemma UnclosedIsKept(s: string)
    requires s != "" && s[0] == '[' && BracketEnd(s).None?
    ensures EreTokens(s) == [Unclosed(s)]
  {
    hide BracketEnd;
  }

  /** From either state of the scan, the output has the tokens of the input exactly if all of them fit. */
  lemma {:induction false} Translated(s: string, at: Place, inBracket: bool)
    ensures EreTokens(Ere(s, inBracket)) == BreTokens(s, at) <==>
            InPlace(BreTokens(s, at)) && Fits(BreTokens(s, at), inBracket)
    decreases |s|
  {
    hide Ere, BreTokens, EreTokens, BracketEnd, ContentEnd, Fits, InPlace;
    hide TokenFits, TokenInPlace, After, Kept, Special;
    NoTokens(at, inBracket);
    if s != "" {
      BreOpens(s, at);
      if s[0] == '[' {
        BracketTranslated(s, at, inBracket);
        if BracketEnd(s).Some? {
          var e := BracketEnd(s).value;
          Translated(s[e..], Inside, After(Bracket(s[..e]), inBracket));
        }
      } else if s[0] == '\\' && |s| > 1 {
        var t := if Special(s[1]) then Bare(s[1]) else Escape(s[1]);
        EscapeStep(s, inBracket);
        Translated(s[2..], AfterEscape(s[1]), After(t, inBracket));
        OneMore(EreTokens(Ere(s, inBracket)), t, BreTokens(s[2..], AfterEscape(s[1])),
                EreTokens(Ere(s[2..], After(t, inBracket))), inBracket);
      } else {
        var t := Contextual(s[0], at, s[1..]);
        CharStep(s, at, inBracket);
        Translated(s[1..], Next(s[0], at), After(t, inBracket));
        OneMore(EreTokens(Ere(s, inBracket)), t, BreTokens(s[1..], Next(s[0], at)),
                EreTokens(Ere(s[1..], After(t, inBracket))), inBracket);
      }
    }
  }

  /** One token more: the sequences agree exactly if it is fit and the rest agree. */
  lemma OneMore(ts: seq<Token>, t: Token, bre: seq<Token>, ere: seq<Token>, inBracket: bool)
    requires GoesOn(ts, t, TokenFits(t, inBracket) && TokenInPlace(t), ere)
    ensures InPlace([t] + bre) && Fits([t] + bre, inBracket) <==>
            TokenInPlace(t) && TokenFits(t, inBracket) && InPlace(bre) && Fits(bre, After(t, inBracket))
    ensures ts == [t] + bre <==> TokenFits(t, inBracket) && TokenInPlace(t) && ere == bre
  {
    hide TokenFits, TokenInPlace, After;
    assert ([t] + bre)[1..] == bre;
    if ts == [t] + bre {
      assert ts[0] == t;
      assert ts[1..] == bre;
    }
    assert ([t] + ere)[1..] == ere;
  }

  lemma BracketTranslated(s: string, at: Place, inBracket: bool)
    requires s != "" && s[0] == '['
    ensures var e := BracketEnd(s);
            if e.None? then
              EreTokens(Ere(s, inBracket)) == BreTokens(s, at) <==>
              InPlace(BreTokens(s, at)) && Fits(BreTokens(s, at), inBracket)
            else
              var t := Bracket(s[..e.value]);
              var bre, ere := BreTokens(s[e.value..], Inside), EreTokens(Ere(s[e.value..], After(t, inBracket)));
              && (InPlace(BreTokens(s, at)) && Fits(BreTokens(s, at), inBracket) <==>
                  TokenFits(t, inBracket) && InPlace(bre) && Fits(bre, After(t, inBracket)))
              && (EreTokens(Ere(s, inBracket)) == BreTokens(s, at) <==> TokenFits(t, inBracket) && ere == bre)
  {
    hide Ere, BreTokens, EreTokens, BracketEnd, ContentEnd, Fits, InPlace, After, Kept;
    BreOpens(s, at);
    var e := BracketEnd(s);
    if e.None? {
      UnclosedStep(s, inBracket);
      NoTokens(at, After(Unclosed(s), inBracket));
      OneMore(EreTokens(Ere(s, inBracket)), Unclosed(s), [], [], inBracket);
    } else {
      var t := Bracket(s[..e.value]);
      BracketStep(s, inBracket);
      OneMore(EreTokens(Ere(s, inBracket)), t, BreTokens(s[e.value..], Inside),
              EreTokens(Ere(s[e.value..], After(t, inBracket))), inBracket);
    }
  }

  // ----- characters beyond ASCII ----------------------------------------------------------------------

  function Wide(s: string): nat {
    if s == "" then 0 else (if s[0] as int >= 0x80 then 1 else 0) + Wide(s[1..])
  }

  lemma {:induction false} WideConcat(s: string, t: string)
    ensures Wide(s + t) == Wide(s) + Wide(t)
  {
    if s == "" {
      assert s + t == t;
    } else {
      assert (s + t)[1..] == s[1..] + t;
      WideConcat(s[1..], t);
    }
  }

  lemma {:induction false} NoneWide(s: string)
    ensures Wide(s) == 0 <==> Ascii(s)
  {
    if s != "" {
      NoneWide(s[1..]);
      assert forall i :: 0 < i < |s| ==> s[i] == s[1..][i - 1];
    }
  }

  function WideIn(t: Token): nat {
    match t
    case Char(c) => Wide([c])
    case Escape(c) => Wide([c])
    case Bracket(text) => Wide(text)
    case Unclosed(text) => Wide(text)
    case _ => 0
  }

  function WideTokens(ts: seq<Token>): nat {
    if ts == [] then 0 else WideIn(ts[0]) + WideTokens(ts[1..])
  }

  lemma WideFirst(c: char, s: string)
    ensures Wide([c] + s) == Wide([c]) + Wide(s)
    ensures Wide([c]) == if c as int >= 0x80 then 1 else 0
  {
    WideConcat([c], s);
    assert Wide([c][1..]) == 0;
  }

  lemma Split(s: string, n: nat)
    requires n <= |s|
    ensures Wide(s) == Wide(s[..n]) + Wide(s[n..])
  {
    assert s == s[..n] + s[n..];
    WideConcat(s[..n], s[n..]);
  }

  lemma TwoWide(c: char, d: char)
    ensures Wide([c, d]) == Wide([c]) + Wide([d])
  {
    assert [c, d] == [c] + [d];
    WideConcat([c], [d]);
  }

  lemma {:induction false} WideOfBre(s: string, at: Place)
    ensures WideTokens(BreTokens(s, at)) == Wide(s)
    decreases |s|
  {
    hide Wide, BracketEnd, BreTokens, WideTokens;
    NothingWide();
    if s != "" {
      BreOpens(s, at);
      if s[0] == '[' {
        var e := BracketEnd(s);
        if e.Some? {
          WideJoined(Bracket(s[..e.value]), BreTokens(s[e.value..], Inside));
          WideOfBre(s[e.value..], Inside);
          Split(s, e.value);
        } else {
          WideJoined(Unclosed(s), []);
        }
      } else if s[0] == '\\' && |s| > 1 {
        WideJoined(if Special(s[1]) then Bare(s[1]) else Escape(s[1]), BreTokens(s[2..], AfterEscape(s[1])));
        WideOfBre(s[2..], AfterEscape(s[1]));
        EscapeIsWide(s);
      } else {
        WideJoined(Contextual(s[0], at, s[1..]), BreTokens(s[1..], Next(s[0], at)));
        WideOfBre(s[1..], Next(s[0], at));
        CharIsWide(s);
      }
    }
  }

  lemma EscapeIsWide(s: string)
    requires |s| > 1 && s[0] == '\\'
    ensures Wide(s) == Wide([s[1]]) + Wide(s[2..]) && (Special(s[1]) ==> Wide([s[1]]) == 0)
  {
    hide Wide;
    Split(s, 2);
    TwoWide(s[0], s[1]);
    WideFirst(s[0], "");
    WideFirst(s[1], "");
    assert s[..2] == [s[0], s[1]];
  }

  lemma CharIsWide(s: string)
    requires s != ""
    ensures Wide(s) == Wide([s[0]]) + Wide(s[1..]) && (s[0] as int < 0x80 ==> Wide([s[0]]) == 0)
  {
    hide Wide;
    Split(s, 1);
    WideFirst(s[0], "");
    assert s[..1] == [s[0]];
  }

  lemma WideJoined(t: Token, ts: seq<Token>)
    ensures WideTokens([t] + ts) == WideIn(t) + WideTokens(ts)
  {
    hide WideIn;
    assert ([t] + ts)[1..] == ts;
  }

  lemma EreOpens(s: string)
    requires s != ""
    ensures EreTokens(s) ==
            if s[0] == '[' then
              if BracketEnd(s).None? then [Unclosed(s)] + []
              else [Bracket(s[..BracketEnd(s).value])] + EreTokens(s[BracketEnd(s).value..])
            else if s[0] == '\\' && |s| > 1 then
              [if Special(s[1]) then Char(s[1]) else Escape(s[1])] + EreTokens(s[2..])
            else [EreChar(s[0])] + EreTokens(s[1..])
  {
    if |s| > 1 {
      TokensOf(s[1]);
    }
    hide BracketEnd, Special, EreEscape, EreChar;
  }

  lemma NothingWide()
    ensures Wide("") == 0 && WideTokens([]) == 0 && EreTokens("") == [] && forall at :: BreTokens("", at) == []
  {
  }

  lemma {:induction false} WideOfEre(s: string)
    ensures WideTokens(EreTokens(s)) == Wide(s)
    decreases |s|
  {
    hide Wide, BracketEnd, EreTokens, WideTokens;
    NothingWide();
    if s != "" {
      EreOpens(s);
      if s[0] == '[' {
        var e := BracketEnd(s);
        if e.Some? {
          WideJoined(Bracket(s[..e.value]), EreTokens(s[e.value..]));
          WideOfEre(s[e.value..]);
          Split(s, e.value);
        } else {
          WideJoined(Unclosed(s), []);
        }
      } else if s[0] == '\\' && |s| > 1 {
        WideJoined(if Special(s[1]) then Char(s[1]) else Escape(s[1]), EreTokens(s[2..]));
        WideOfEre(s[2..]);
        EscapeIsWide(s);
      } else {
        WideJoined(EreChar(s[0]), EreTokens(s[1..]));
        WideOfEre(s[1..]);
        CharIsWide(s);
      }
    }
  }

  lemma {:induction false} RewritingKeepsWide(s: string, inBracket: bool)
    ensures Wide(Ere(s, inBracket)) == Wide(s)
    decreases |s|
  {
    hide Wide, Ere, Writes, Reads, Stays;
    if s == "" {
      EreEnds(inBracket);
    } else {
      EreStep(s, 0, inBracket);
      assert s[0..] == s;
      var n := Reads(s, inBracket);
      RewritingKeepsWide(s[n..], Stays(s, inBracket));
      WideConcat(Writes(s, inBracket), Ere(s[n..], Stays(s, inBracket)));
      Split(s, n);
      StepKeepsWide(s, inBracket);
    }
  }

  lemma StepKeepsWide(s: string, inBracket: bool)
    requires s != ""
    ensures Wide(Writes(s, inBracket)) == Wide(s[..Reads(s, inBracket)])
  {
    hide Wide;
    WideFirst(s[0], "");
    TwoWide('\\', s[0]);
    WideFirst('\\', "");
    assert s[..1] == [s[0]];
    if |s| > 1 {
      TwoWide('\\', s[1]);
      WideFirst(s[1], "");
      assert s[..2] == [s[0], s[1]];
    }
  }

  lemma {:induction false} LatinConcat(a: seq<Byte>, b: seq<Byte>)
    ensures Latin(a + b) == Latin(a) + Latin(b)
  {
    if a == [] {
      assert a + b == b;
    } else {
      assert (a + b)[1..] == a[1..] + b;
      LatinConcat(a[1..], b);
    }
  }

  lemma {:induction false} HighBytesAreWide(b: seq<Byte>)
    requires forall i :: 0 <= i < |b| ==> b[i] >= 0x80
    ensures Wide(Latin(b)) == |b|
  {
    if b != [] {
      HighBytesAreWide(b[1..]);
      WideFirst(b[0] as char, Latin(b[1..]));
    }
  }

  /** As bytes, text in ASCII stays itself; every other character becomes several. */
  lemma {:induction false} BytesAsText(s: string)
    ensures Wide(s) == 0 ==> Latin(Utf8(s)) == s
    ensures Wide(Latin(Utf8(s))) >= 2 * Wide(s)
  {
    hide Wide, Latin;
    NothingWide();
    if s == "" {
      LatinAt([]);
    } else {
      var b := BytesOf(s[0]);
      BytesAsText(s[1..]);
      LatinConcat(b, Utf8(s[1..]));
      WideConcat(Latin(b), Latin(Utf8(s[1..])));
      WideFirst(s[0], s[1..]);
      assert [s[0]] + s[1..] == s;
      LatinAt(b);
      if s[0] as int >= 0x80 {
        HighBytesAreWide(b);
      } else {
        assert Latin(b) == [s[0]];
      }
    }
  }

  // ----- the main result --------------------------------------------------------------------------------

  /**
   The output, lexed as an extended expression, has the tokens of the pattern lexed as a basic one
   exactly if the pattern is ASCII, each `^`, `$` and `*` stands where it is an operator, and the
   scan, followed through the tokens, meets no special character on the wrong side of a bracket.
   */
  lemma TranslationKeepsTokens(bre: string)
    ensures EreTokens(Ere(Latin(Utf8(bre)), false)) == BreTokens(bre, Begin) <==>
            Ascii(bre) && InPlace(BreTokens(bre, Begin)) && Fits(BreTokens(bre, Begin), false)
  {
    hide Ere, EreTokens, BreTokens, Fits, InPlace, Latin, Utf8;
    var s := Latin(Utf8(bre));
    NoneWide(bre);
    BytesAsText(bre);
    if Wide(bre) == 0 {
      Translated(bre, Begin, false);
    } else {
      WideOfBre(bre, Begin);
      RewritingKeepsWide(s, false);
      WideOfEre(Ere(s, false));
    }
  }

  // ----- which brackets fit ---------------------------------------------------------------------------------

  lemma StepInside(s: string)
    requires s != ""
    ensures Kept(s, true) == Kept(s[1..], s[0] != ']') && Closes(s, true) == Closes(s[1..], s[0] != ']')
  {
    hide Kept, Closes;
    KeptOpens(s, true);
    StepOpens(s, true);
  }

  lemma KeptOpens(s: string, inBracket: bool)
    requires s != ""
    ensures Kept(s, inBracket) == (Unaltered(s, inBracket) && Kept(s[Reads(s, inBracket)..], Stays(s, inBracket)))
  {
    hide Reads, Stays, Unaltered;
  }

  lemma NothingKept()
    ensures Kept("", false) && Kept("", true) && Closes("", false) && !Closes("", true)
  {
  }

  /** From inside, everything up to a first `]` at the end is kept. */
  lemma {:induction false} KeepsContent(t: string)
    requires forall i :: 0 <= i < |t| - 1 ==> t[i] != ']'
    ensures Kept(t, true) && Closes(t, true) == (t != "" && t[|t| - 1] == ']')
  {
    hide Kept, Closes;
    NothingKept();
    if t != "" {
      StepInside(t);
      if |t| == 1 {
        assert t[1..] == "";
      } else {
        KeepsContent(t[1..]);
      }
    }
  }

  predicate NoClass(text: string)
    requires text != "" && text[0] == '['
  {
    forall i :: |Opening(text)| <= i < |text| ==> !OpensClass(text, i)
  }

  lemma {:induction false} FirstClosing(s: string, i: nat)
    requires i <= |s| && forall k :: i <= k < |s| ==> !OpensClass(s, k)
    ensures var e := ContentEnd(s, i);
            forall k :: i <= k < (if e.Some? then e.value - 1 else |s|) ==> s[k] != ']'
    decreases |s| - i
  {
    if i < |s| && s[i] != ']' {
      FirstClosing(s, i + 1);
    }
  }

  /** A bracket expression without classes is kept, and the scan gets out at its end. */
  lemma NoClassIsKept(text: string)
    requires text != "" && text[0] == '[' && NoClass(text)
    ensures BracketEnd(text) == Some(|text|) ==> Kept(text, false) && !After(Bracket(text), false)
    ensures BracketEnd(text).None? ==> Kept(text, false)
  {
    hide Kept, Closes, ContentEnd;
    var n := |Opening(text)|;
    FirstClosing(text, n);
    KeptOpens(text, false);
    StepOpens(text, false);
    if BracketEnd(text) == Some(|text|) || BracketEnd(text).None? {
      KeepsContent(text[n..]);
    }
  }

  predicate WithoutClasses(ts: seq<Token>) {
    ts == []
    || ((ts[0].Bracket? || ts[0].Unclosed? ==> ts[0].text != "" && ts[0].text[0] == '[' && NoClass(ts[0].text))
        && WithoutClasses(ts[1..]))
  }

  /** In particular every pattern without classes inside brackets fits. */
  lemma {:induction false} WithoutClassesFits(s: string, at: Place)
    requires WithoutClasses(BreTokens(s, at))
    ensures Fits(BreTokens(s, at), false)
    decreases |s|
  {
    hide Kept, Closes, BracketEnd, ContentEnd, NoClass, OpensClass, BreTokens, Fits, WithoutClasses, Special;
    NoTokens(at, false);
    if s != "" {
      BreOpens(s, at);
      if s[0] == '[' {
        var e := BracketEnd(s);
        if e.None? {
          TokensJoined(Unclosed(s), [], false);
          NoClassIsKept(s);
          NoTokens(at, After(Unclosed(s), false));
        } else {
          var text := s[..e.value];
          TokensJoined(Bracket(text), BreTokens(s[e.value..], Inside), false);
          BracketEndInFront(s, e.value, text);
          NoClassIsKept(text);
          WithoutClassesFits(s[e.value..], Inside);
        }
      } else if s[0] == '\\' && |s| > 1 {
        var t := if Special(s[1]) then Bare(s[1]) else Escape(s[1]);
        BareIs(s[1]);
        TokensJoined(t, BreTokens(s[2..], AfterEscape(s[1])), false);
        WithoutClassesFits(s[2..], AfterEscape(s[1]));
      } else {
        var t := Contextual(s[0], at, s[1..]);
        TokensJoined(t, BreTokens(s[1..], Next(s[0], at)), false);
        WithoutClassesFits(s[1..], Next(s[0], at));
      }
    }
  }

  lemma TokensJoined(t: Token, ts: seq<Token>, inBracket: bool)
    ensures WithoutClasses([t] + ts) ==> WithoutClasses(ts)
    ensures WithoutClasses([t] + ts) && (t.Bracket? || t.Unclosed?) ==>
              t.text != "" && t.text[0] == '[' && NoClass(t.text)
    ensures Fits([t] + ts, inBracket) == (TokenFits(t, inBracket) && Fits(ts, After(t, inBracket)))
  {
    hide NoClass, TokenFits, After;
    assert ([t] + ts)[1..] == ts;
  }

  predicate Letters(name: string) {
    forall i :: 0 <= i < |name| ==> 'a' <= name[i] <= 'z'
  }

  lemma {:induction false} InFront(t: string, rest: string, inBracket: bool)
    requires t != "" ==> t[|t| - 1] == ']'
    ensures var b := if t == "" then inBracket else !Closes(t, inBracket);
            && Kept(t + rest, inBracket) == (Kept(t, inBracket) && Kept(rest, b))
            && Closes(t + rest, inBracket) == Closes(rest, b)
    decreases |t|
  {
    hide Writes, Reads, Stays, Ere, Closes, Kept, Unaltered;
    NothingKept();
    if t == "" {
      assert t + rest == rest;
    } else {
      StepInFront(t, rest, inBracket);
      UnalteredInFront(t, rest, inBracket);
      StepOpens(t, inBracket);
      StepOpens(t + rest, inBracket);
      KeptOpens(t, inBracket);
      KeptOpens(t + rest, inBracket);
      var n := Reads(t, inBracket);
      assert (t + rest)[n..] == t[n..] + rest;
      if n < |t| {
        LastOfTail(t, n);
      }
      InFront(t[n..], rest, Stays(t, inBracket));
    }
  }

  lemma UnalteredInFront(t: string, rest: string, inBracket: bool)
    requires t != "" && t[|t| - 1] == ']'
    ensures Unaltered(t + rest, inBracket) == Unaltered(t, inBracket)
  {
    var s := t + rest;
    assert s[0] == t[0];
    if |t| > 1 {
      assert s[1] == t[1];
    }
  }

  /** `[[:name:]]` fits too, and the scan is outside after it. */
  lemma NamedClassFits(name: string)
    requires Letters(name)
    ensures var t := Bracket("[[:" + name + ":]]"); TokenFits(t, false) && !After(t, false)
  {
    hide Kept, Closes;
    var content := "[:" + name + ":]";
    ClassStarts(name, "]");
    assert "[[:" + name + ":]" + "]" == "[[:" + name + ":]]";
    KeepsContent(content);
    InFront(content, "]", true);
    ClosingAlone();
  }

  lemma ClosingAlone()
    ensures Kept("]", false) && Closes("]", false)
  {
    hide Kept, Closes;
    NothingKept();
    KeptOpens("]", false);
    StepOpens("]", false);
    assert "]"[1..] == "";
  }

  /** Past the opening the scan is inside, at the content. */
  lemma ClassStarts(name: string, end: string)
    ensures var s, content := "[[:" + name + ":]" + end, "[:" + name + ":]" + end;
            Kept(s, false) == Kept(content, true) && Closes(s, false) == Closes(content, true)
  {
    hide Kept, Closes;
    var s := "[[:" + name + ":]" + end;
    KeptOpens(s, false);
    StepOpens(s, false);
    assert Opening(s) == "[";
    assert s[1..] == "[:" + name + ":]" + end;
  }

  /** After a class, a special character is no longer taken for a member of the bracket. */
  lemma MemberAfterClassBreaks(name: string)
    requires Letters(name)
    ensures var s := "[[:" + name + ":]+]";
            BreTokens(s, Begin) == [Bracket(s)] && EreTokens(Ere(s, false)) != BreTokens(s, Begin)
  {
    hide Kept, Closes, Ere, BreTokens, EreTokens;
    var s := "[[:" + name + ":]+]";
    var content := "[:" + name + ":]";
    OneBracket(name);
    ClassStarts(name, "+]");
    assert "[[:" + name + ":]" + "+]" == s;
    KeepsContent(content);
    InFront(content, "+]", true);
    KeptOpens("+]", false);
    Translated(s, Begin, false);
    hide TokenFits, After;
    assert TokenFits(Bracket(s), false) == Kept(s, false) by { KeptIsFit(s); }
    TokensJoined(Bracket(s), [], false);
  }

  lemma KeptIsFit(text: string)
    ensures TokenFits(Bracket(text), false) == Kept(text, false)
  {
  }

  lemma OneBracket(name: string)
    requires Letters(name)
    ensures var s := "[[:" + name + ":]+]"; BreTokens(s, Begin) == [Bracket(s)] && Opening(s) == "["
  {
    hide BreTokens, ContentEnd;
    var s := "[[:" + name + ":]+]";
    ClassIsRead(name);
    assert s[..|s|] == s && s[|s|..] == "";
    BreOpens(s, Begin);
    NoTokens(Inside, false);
  }

  lemma ClassIsRead(name: string)
    requires Letters(name)
    ensures var s := "[[:" + name + ":]+]"; Opening(s) == "[" && BracketEnd(s) == Some(|s|)
  {
    var s := "[[:" + name + ":]+]";
    var k := 3 + |name|;
    assert s[k] == ':' && s[k + 1] == ']' && s[k + 2] == '+' && s[k + 3] == ']' && |s| == k + 4;
    NameIsPassed(s, 3, k);
    assert OpensClass(s, 1);
    assert ContentEnd(s, k + 3) == Some(|s|);
    assert ContentEnd(s, k + 2) == Some(|s|);
  }

  lemma {:induction false} NameIsPassed(s: string, i: nat, k: nat)
    requires i <= k < |s| - 1 && s[k] == ':' && s[k + 1] == ']' && forall j :: i <= j < k ==> s[j] != ':'
    ensures ClassEnd(s, i, ':') == Some(k + 2)
    decreases k - i
  {
    if i < k {
      NameIsPassed(s, i + 1, k);
    }
  }
}
