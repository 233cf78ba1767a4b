/**
 sed replacement text compiled to a template of the regex library. Compilation preserves meaning
 for exactly those replacements in which no kept `\$` reaches what the library would read as a
 capture reference.
 */
module SedReplacement {
  import opened Wrappers
  import opened Sequences
  import opened Numerals

  // ----- the two languages ---------------------------------------------------------------------

  /** The groups of one match, by number and by name. */
  datatype Captures = Captures(group: nat -> string, named: string -> string)

  /** One element of a replacement: a character, a group, or an escape that is kept as written. */
  datatype Tok = Lit(c: char) | Group(n: nat) | Kept(c: char)

  /** The escape rules of the replacement text. */
  function Lex(raw: string): (toks: seq<Tok>)
    decreases |raw|
  {
    if raw == "" then []
    else if raw[0] == '\\' && |raw| >= 2 then [Escape(raw[1])] + Lex(raw[2..])
    else [Plain(raw[0])] + Lex(raw[1..])
  }

  function Plain(c: char): Tok {
    if c == '&' then Group(0) else Lit(c)
  }

  function Escape(c: char): Tok {
    if '1' <= c <= '9' then Group(c as int - '0' as int)
    else if c == 'n' then Lit('\n')
    else if c == '\\' || c == '&' then Lit(c)
    else Kept(c)
  }

  /** What an element stands for. */
  function Direct(toks: seq<Tok>, caps: Captures): string {
    if toks == [] then "" else TokText(toks[0], caps) + Direct(toks[1..], caps)
  }

  function TokText(t: Tok, caps: Captures): string {
    match t
    case Lit(c) => [c]
    case Group(n) => caps.group(n)
    case Kept(c) => ['\\', c]
  }

  predicate IsCapLetter(c: char) {
    '0' <= c <= '9' || 'a' <= c <= 'z' || 'A' <= c <= 'Z' || c == '_'
  }

  function PastLetters(t: string, i: nat): (end: nat)
    requires i <= |t|
    ensures i <= end <= |t|
    ensures end > i <==> i < |t| && IsCapLetter(t[i])
    decreases |t| - i
  {
    if i < |t| && IsCapLetter(t[i]) then PastLetters(t, i + 1) else i
  }

  function ClosingBrace(t: string, i: nat): (at: Option<nat>)
    requires i <= |t|
    ensures at.Some? ==> i <= at.value < |t|
    ensures at.Some? <==> '}' in t[i..]
    decreases |t| - i
  {
    if i == |t| then None
    else if t[i] == '}' then
      assert t[i] == t[i..][0];
      Some(i)
    else
      assert t[i..] == [t[i]] + t[i + 1..];
      ClosingBrace(t, i + 1)
  }

  /** The capture reference that starts a template at its `$`, and where it ends. */
  function CapRef(t: string): (r: Option<(string, nat)>)
    requires t != ""
    ensures r.Some? ==> 1 < r.value.1 <= |t|
  {
    if |t| <= 1 then None
    else if t[1] == '{' then
      var close := ClosingBrace(t, 2);
      if close.None? then None else Some((t[2..close.value], close.value + 1))
    else
      var end := PastLetters(t, 1);
      if end == 1 then None else Some((t[1..end], end))
  }

  /** A reference is a group number if it parses as one, else a name. */
  function Resolve(name: string, caps: Captures): string {
    var n := ParseUsize(name);
    if n.Some? then caps.group(n.value) else caps.named(name)
  }

  /** The regex library's template expansion. */
  function Expand(t: string, caps: Captures): string
    decreases |t|
  {
    if t == "" then ""
    else if t[0] != '$' then [t[0]] + Expand(t[1..], caps)
    else if |t| >= 2 && t[1] == '$' then "$" + Expand(t[2..], caps)
    else
      var r := CapRef(t);
      if r.None? then "$" + Expand(t[1..], caps)
      else Resolve(r.value.0, caps) + Expand(t[r.value.1..], caps)
  }

  // ----- the translation ------------------------------------------------------------------------

  function TokTemplate(t: Tok): string {
    match t
    case Lit(c) => if c == '$' then "$$" else [c]
    case Group(n) => "${" + Decimal(n) + "}"
    case Kept(c) => ['\\', c]
  }

  function Template(toks: seq<Tok>): string {
    if toks == [] then "" else TokTemplate(toks[0]) + Template(toks[1..])
  }

  method TranslateReplacement(raw: string) returns (result: string)
    ensures result == Template(Lex(raw))
  {
    hide Template, Lex, TokTemplate, Escape, Plain;
    result := "";
    var i := 0;
    assert raw[0..] == raw;
    while i < |raw|
      invariant 0 <= i <= |raw|
      invariant result + Template(Lex(raw[i..])) == Template(Lex(raw))
    {
      ghost var before := result;
      if raw[i] == '\\' && i + 1 < |raw| {
        var c := raw[i + 1];
        LexEscape(raw[i..]);
        EscapeTemplate(c);
        DropMore(raw, i, 2);
        if '1' <= c <= '9' {
          result := result + ("${" + [c] + "}");
        } else if c == 'n' {
          result := result + "\n";
        } else if c == '\\' {
          result := result + "\\";
        } else if c == '&' {
          result := result + "&";
        } else {
          result := result + ['\\', c];
        }
        Associates(before, TokTemplate(Escape(c)), Template(Lex(raw[i + 2..])));
        i := i + 2;
      } else {
        LexPlain(raw[i..]);
        PlainTemplate(raw[i]);
        DropMore(raw, i, 1);
        if raw[i] == '&' {
          result := result + "${0}";
        } else if raw[i] == '$' {
          result := result + "$$";
        } else {
          result := result + [raw[i]];
        }
        Associates(before, TokTemplate(Plain(raw[i])), Template(Lex(raw[i + 1..])));
        i := i + 1;
      }
    }
    assert raw[i..] == "";
    NothingLexed();
  }

  lemma NothingLexed()
    ensures Template(Lex("")) == ""
  {
  }

  lemma TemplateCons(t: Tok, toks: seq<Tok>)
    ensures Template([t] + toks) == TokTemplate(t) + Template(toks)
  {
    assert ([t] + toks)[1..] == toks;
  }

  lemma EscapeTemplate(c: char)
    ensures TokTemplate(Escape(c)) ==
            if '1' <= c <= '9' then "${" + [c] + "}"
            else if c == 'n' then "\n"
            else if c == '\\' || c == '&' then [c]
            else ['\\', c]
  {
    if '1' <= c <= '9' {
      var n: nat := c as int - '0' as int;
      DecimalReads(n);
      assert Decimal(n) == [c];
    }
  }

  lemma LexEscape(raw: string)
    requires |raw| >= 2 && raw[0] == '\\'
    ensures Template(Lex(raw)) == TokTemplate(Escape(raw[1])) + Template(Lex(raw[2..]))
  {
    TemplateCons(Escape(raw[1]), Lex(raw[2..]));
  }

  lemma PlainTemplate(c: char)
    ensures TokTemplate(Plain(c)) == if c == '&' then "${0}" else if c == '$' then "$$" else [c]
  {
    if c == '&' {
      assert Decimal(0) == ['0'];
    }
  }

  lemma LexPlain(raw: string)
    requires raw != "" && !(raw[0] == '\\' && |raw| >= 2)
    ensures Template(Lex(raw)) == TokTemplate(Plain(raw[0])) + Template(Lex(raw[1..]))
  {
    hide Template;
    TemplateCons(Plain(raw[0]), Lex(raw[1..]));
  }

  // ----- when it preserves meaning -----------------------------------------------------------------

  /**
   After a kept `\$`, the template goes on with what the library would not leave alone: a group, a
   letter, digit or underscore, or an opening brace that is closed somewhere; dollars in between do
   not help.
   */
  predicate Hazard(rest: seq<Tok>) {
    if rest == [] then false
    else
      match rest[0]
      case Group(_) => true
      case Kept(_) => false
      case Lit(c) =>
        if c == '$' then Hazard(rest[1..])
        else IsCapLetter(c) || (c == '{' && '}' in Template(rest[1..]))
  }

  predicate Safe(toks: seq<Tok>) {
    toks != [] ==> (toks[0] == Kept('$') ==> !Hazard(toks[1..])) && Safe(toks[1..])
  }

  lemma ExpandPlain(c: char, t: string, caps: Captures)
    requires c != '$'
    ensures Expand([c] + t, caps) == [c] + Expand(t, caps)
  {
    assert ([c] + t)[1..] == t;
  }

  lemma ExpandDollars(t: string, caps: Captures)
    ensures Expand("$$" + t, caps) == "$" + Expand(t, caps)
  {
    assert ("$$" + t)[2..] == t;
  }

  /** A lone `$` stays when no reference starts at it. */
  lemma ExpandLone(t: string, caps: Captures)
    requires CapRef("$" + t) == None && (t != "" ==> t[0] != '$')
    ensures Expand("$" + t, caps) == "$" + Expand(t, caps)
  {
    assert ("$" + t)[1..] == t;
  }

  lemma {:induction false} FirstBrace(t: string, i: nat, digits: string, rest: string)
    requires i <= |t| && t[i..] == digits + "}" + rest && forall k :: 0 <= k < |digits| ==> digits[k] != '}'
    ensures ClosingBrace(t, i) == Some(i + |digits|)
    decreases |digits|
  {
    assert t[i..][0] == t[i];
    if digits != "" {
      assert t[i + 1..] == t[i..][1..];
      assert (digits + "}" + rest)[1..] == digits[1..] + "}" + rest;
      FirstBrace(t, i + 1, digits[1..], rest);
    }
  }

  lemma ExpandGroup(n: nat, t: string, caps: Captures)
    requires n < 10
    ensures Expand(TokTemplate(Group(n)) + t, caps) == caps.group(n) + Expand(t, caps)
  {
    var template := TokTemplate(Group(n)) + t;
    DecimalReads(n);
    var d := Decimal(n);
    assert template[2..] == d + "}" + t;
    FirstBrace(template, 2, d, t);
    assert template[2..2 + |d|] == d;
    assert template[3 + |d|..] == t;
  }

  /** Elements of replacement text name at most nine groups. */
  predicate FewGroups(toks: seq<Tok>) {
    forall i :: 0 <= i < |toks| && toks[i].Group? ==> toks[i].n < 10
  }

  lemma {:induction false} LexFewGroups(raw: string)
    ensures FewGroups(Lex(raw))
    decreases |raw|
  {
    if raw != "" {
      if raw[0] == '\\' && |raw| >= 2 {
        LexFewGroups(raw[2..]);
      } else {
        LexFewGroups(raw[1..]);
      }
    }
  }

  lemma ThreeDollars(t: string, caps: Captures)
    ensures Expand("$" + ("$$" + t), caps) == "$" + Expand("$" + t, caps)
  {
    assert "$" + ("$$" + t) == "$$" + ("$" + t);
    ExpandDollars("$" + t, caps);
  }

  lemma NoReference(rest: seq<Tok>, caps: Captures)
    requires rest != [] && !Hazard(rest) && rest[0] != Lit('$')
    ensures Expand("$" + Template(rest), caps) == "$" + Expand(Template(rest), caps)
  {
    var t := Template(rest);
    var first := TokTemplate(rest[0]);
    assert ("$" + t)[0] == '$' && ("$" + t)[1] == first[0];
    if first[0] == '{' {
      assert ("$" + t)[2..] == Template(rest[1..]);
    }
    ExpandLone(t, caps);
  }

  /** A kept `\$` without hazard stands for itself. */
  lemma {:induction false} DollarAlone(rest: seq<Tok>, caps: Captures)
    requires !Hazard(rest)
    ensures Expand("$" + Template(rest), caps) == "$" + Expand(Template(rest), caps)
  {
    hide Expand;
    if rest == [] {
      assert CapRef("$" + "") == None;
      ExpandLone("", caps);
    } else if rest[0] == Lit('$') {
      var t' := Template(rest[1..]);
      DollarAlone(rest[1..], caps);
      ThreeDollars(t', caps);
      ExpandDollars(t', caps);
    } else {
      NoReference(rest, caps);
    }
  }

  /** Expansion and direct reading treat an element that is not hazardous alike. */
  lemma StepAlike(toks: seq<Tok>, caps: Captures)
    requires toks != [] && FewGroups(toks) && (toks[0] == Kept('$') ==> !Hazard(toks[1..]))
    ensures Expand(Template(toks), caps) == TokText(toks[0], caps) + Expand(Template(toks[1..]), caps)
  {
    hide Expand, Template, Hazard;
    TemplateOpens(toks);
    var t := Template(toks[1..]);
    match toks[0]
    case Lit(c) =>
      if c == '$' {
        ExpandDollars(t, caps);
      } else {
        ExpandPlain(c, t, caps);
      }
    case Group(n) => ExpandGroup(n, t, caps);
    case Kept(c) =>
      Escaped(c, t);
      Escaped(c, Expand(t, caps));
      ExpandPlain('\\', [c] + t, caps);
      if c == '$' {
        DollarAlone(toks[1..], caps);
      } else {
        ExpandPlain(c, t, caps);
      }
  }

  lemma TemplateOpens(toks: seq<Tok>)
    requires toks != []
    ensures Template(toks) == TokTemplate(toks[0]) + Template(toks[1..])
  {
  }

  lemma Escaped(c: char, t: string)
    ensures ['\\', c] + t == ['\\'] + ([c] + t)
  {
  }

  lemma {:induction false} SafePreserves(toks: seq<Tok>, caps: Captures)
    requires FewGroups(toks) && Safe(toks)
    ensures Expand(Template(toks), caps) == Direct(toks, caps)
  {
    if toks != [] {
      StepAlike(toks, caps);
      SafePreserves(toks[1..], caps);
    }
  }

  /** Captures that tell every misreading apart. */
  function Telltale(): Captures {
    Captures((n: nat) => "A", (name: string) => "A")
  }

  lemma SamePrefix(p: string, s: string, t: string)
    requires s != t
    ensures p + s != p + t
  {
    assert (p + s)[|p|..] == s && (p + t)[|p|..] == t;
  }

  lemma GroupAfterDollar(n: nat, t: string, d: string)
    ensures Expand("$" + (TokTemplate(Group(n)) + t), Telltale()) != "$" + ("A" + d)
  {
    var after := Decimal(n) + "}" + t;
    assert "$" + (TokTemplate(Group(n)) + t) == "$$" + (['{'] + after);
    ExpandDollars(['{'] + after, Telltale());
    ExpandPlain('{', after, Telltale());
    assert ("$" + (['{'] + Expand(after, Telltale())))[1] == '{';
    assert ("$" + ("A" + d))[1] == 'A';
  }

  lemma CharAfterDollar(c: char, t: string, d: string)
    requires c != '$' && (IsCapLetter(c) || (c == '{' && '}' in t))
    ensures Expand("$" + ([c] + t), Telltale()) != "$" + d
  {
    var template := "$" + ([c] + t);
    assert template[1] == c && template[2..] == t;
    assert Expand(template, Telltale())[0] == 'A';
  }

  lemma {:induction false} HazardShows(rest: seq<Tok>)
    requires FewGroups(rest) && Hazard(rest)
    ensures Expand("$" + Template(rest), Telltale()) != "$" + Direct(rest, Telltale())
  {
    hide Expand;
    var t, d := Template(rest[1..]), Direct(rest[1..], Telltale());
    if rest[0] == Lit('$') {
      HazardShows(rest[1..]);
      ThreeDollars(t, Telltale());
      SamePrefix("$", Expand("$" + t, Telltale()), "$" + d);
    } else if rest[0].Group? {
      GroupAfterDollar(rest[0].n, t, d);
    } else {
      CharAfterDollar(rest[0].c, t, [rest[0].c] + d);
    }
  }

  lemma HazardAtStart(toks: seq<Tok>)
    requires FewGroups(toks) && toks != [] && toks[0] == Kept('$') && Hazard(toks[1..])
    ensures Expand(Template(toks), Telltale()) != Direct(toks, Telltale())
  {
    hide Hazard, Expand, Template, Direct;
    var t, d := Template(toks[1..]), Direct(toks[1..], Telltale());
    HazardShows(toks[1..]);
    TemplateOpens(toks);
    DirectOpens(toks, Telltale());
    Escaped('$', t);
    Escaped('$', d);
    ExpandPlain('\\', "$" + t, Telltale());
    SamePrefix(['\\'], Expand("$" + t, Telltale()), "$" + d);
  }

  lemma DirectOpens(toks: seq<Tok>, caps: Captures)
    requires toks != []
    ensures Direct(toks, caps) == TokText(toks[0], caps) + Direct(toks[1..], caps)
  {
  }

  lemma {:induction false} UnsafeShows(toks: seq<Tok>)
    requires FewGroups(toks) && !Safe(toks)
    ensures Expand(Template(toks), Telltale()) != Direct(toks, Telltale())
  {
    hide Expand, Hazard;
    if toks[0] == Kept('$') && Hazard(toks[1..]) {
      HazardAtStart(toks);
    } else {
      StepAlike(toks, Telltale());
      UnsafeShows(toks[1..]);
      SamePrefix(TokText(toks[0], Telltale()), Expand(Template(toks[1..]), Telltale()), Direct(toks[1..], Telltale()));
    }
  }

  /**
   The template means the replacement, whatever the match captured, exactly when no kept `\$` is
   followed by a hazard.
   */
  lemma TranslationPreservesMeaning(raw: string)
    ensures (forall caps :: Expand(Template(Lex(raw)), caps) == Direct(Lex(raw), caps)) <==> Safe(Lex(raw))
  {
    LexFewGroups(raw);
    var toks := Lex(raw);
    if Safe(toks) {
      forall caps
        ensures Expand(Template(toks), caps) == Direct(toks, caps)
      {
        SafePreserves(toks, caps);
      }
    } else {
      UnsafeShows(toks);
    }
  }

  /** Without `\$` every replacement is safe. */
  lemma {:induction false} NoDollarEscapeIsSafe(toks: seq<Tok>)
    requires forall i :: 0 <= i < |toks| ==> toks[i] != Kept('$')
    ensures Safe(toks)
  {
    if toks != [] {
      NoDollarEscapeIsSafe(toks[1..]);
    }
  }

  /** The failing family is not empty: `\$1` is meant literally but read as group 1. */
  lemma DollarEscapeCanFail()
    ensures !Safe(Lex("\\$1"))
    ensures Expand(Template(Lex("\\$1")), Telltale()) == "\\A"
    ensures Direct(Lex("\\$1"), Telltale()) == "\\$1"
  {
    var raw := "\\$1";
    assert raw[2..] == "1" && "1"[1..] == "";
    assert Lex("1") == [Lit('1')];
    assert Lex(raw) == [Kept('$'), Lit('1')];
    var toks := Lex(raw);
    assert toks[1..] == [Lit('1')] && toks[1..][1..] == [];
    assert Template(toks[1..]) == "1";
    var t := Template(toks);
    assert t == "\\$1";
    ExpandPlain('\\', "$1", Telltale());
    assert "\\" + "$1" == t;
    assert PastLetters("$1", 1) == 2;
    assert "$1"[1..2] == "1";
    assert CapRef("$1") == Some(("1", 2));
    assert Expand("$1"[2..], Telltale()) == "";
  }

  // ----- the replacement language, letter by letter --------------------------------------------------

  /** What a replacement stands for, read from its text. */
  function Stands(raw: string, caps: Captures): string
    decreases |raw|
  {
    if raw == "" then ""
    else if raw[0] == '&' then caps.group(0) + Stands(raw[1..], caps)
    else if raw[0] != '\\' || |raw| == 1 then [raw[0]] + Stands(raw[1..], caps)
    else AfterBackslash(raw[1], caps) + Stands(raw[2..], caps)
  }

  function AfterBackslash(c: char, caps: Captures): string {
    match c
    case '1' => caps.group(1)
    case '2' => caps.group(2)
    case '3' => caps.group(3)
    case '4' => caps.group(4)
    case '5' => caps.group(5)
    case '6' => caps.group(6)
    case '7' => caps.group(7)
    case '8' => caps.group(8)
    case '9' => caps.group(9)
    case 'n' => "\n"
    case '&' => "&"
    case '\\' => "\\"
    case _ => ['\\', c]
  }

  lemma AfterBackslashIs(c: char, caps: Captures)
    ensures TokText(Escape(c), caps) == AfterBackslash(c, caps)
  {
  }

  lemma {:induction false} StandsIs(raw: string, caps: Captures)
    ensures Direct(Lex(raw), caps) == Stands(raw, caps)
    decreases |raw|
  {
    hide Escape, AfterBackslash;
    if raw != "" {
      if raw[0] == '\\' && |raw| >= 2 {
        AfterBackslashIs(raw[1], caps);
        StandsIs(raw[2..], caps);
        Prepended(Escape(raw[1]), Lex(raw[2..]));
      } else {
        StandsIs(raw[1..], caps);
        Prepended(Plain(raw[0]), Lex(raw[1..]));
      }
    }
  }

  /**
   Expanding the template that the loop writes gives what the replacement stands for, for all captures, if
   and only if no kept `\$` reaches what the library would read as a reference.
   */
  lemma TemplateStandsForText(raw: string)
    ensures (forall caps :: Expand(Template(Lex(raw)), caps) == Stands(raw, caps)) <==> Safe(Lex(raw))
  {
    hide Lex, Template, Expand, Direct, Stands, Safe;
    forall caps
      ensures Direct(Lex(raw), caps) == Stands(raw, caps)
    {
      StandsIs(raw, caps);
    }
    TranslationPreservesMeaning(raw);
  }
}
