/**
 Reading quoted words back (section 2.2 of the POSIX.1-2024 Shell Command Language), and what of the
 original bytes a `%q` word still stands for.
 */
module PrintfReads {
  import opened Wrappers
  import opened Utf8Text
  import opened Utf8Codec
  import opened ShellBytes
  import opened PrintfQuote

  // ----- the reader -------------------------------------------------------------------------------

  /** Characters that mean something to the shell when they are not quoted. */
  predicate IsMeta(c: char) {
    || c in {' ', '\t', '\n', '|', '&', ';', '<', '>', '(', ')', '$', '`', '"', '\''}
    || c in {'*', '?', '[', ']', '#', '~', '!', '{', '}', '^', '\\'}
  }

  datatype Got = Got(value: string, rest: string)

  function Prepend(v: string, g: Option<Got>): Option<Got> {
    if g.None? then None else Some(Got(v + g.value.value, g.value.rest))
  }

  /** Octal digits at the start, three at most. */
  function OctalDigits(t: string, most: nat): (n: nat)
    ensures n <= most && n <= |t|
    ensures forall i :: 0 <= i < n ==> '0' <= t[i] <= '7'
  {
    if t == "" || most == 0 || !('0' <= t[0] <= '7') then 0 else 1 + OctalDigits(t[1..], most - 1)
  }

  function OctalValue(t: string): nat
    requires forall i :: 0 <= i < |t| ==> '0' <= t[i] <= '7'
  {
    if t == "" then 0 else OctalValue(t[..|t| - 1]) * 8 + (t[|t| - 1] as int - '0' as int)
  }

  function Letter(c: char): Option<char> {
    if c in "'\\\"?" then Some(c)
    else if c == 'n' then Some('\n')
    else if c == 't' then Some('\t')
    else if c == 'r' then Some('\r')
    else if c == 'a' then Some(0x07 as char)
    else if c == 'b' then Some(0x08 as char)
    else if c == 'f' then Some(0x0C as char)
    else if c == 'v' then Some(0x0B as char)
    else if c in "eE" then Some(0x1B as char)
    else None
  }

  /** After `$'`, up to the closing quote. A byte that is not ASCII is held as its marker. */
  function ReadDollar(t: string): Option<Got>
    decreases |t|
  {
    if t == "" then None
    else if t[0] == '\'' then Some(Got("", t[1..]))
    else if t[0] != '\\' then Prepend([t[0]], ReadDollar(t[1..]))
    else if |t| < 2 then None
    else
      var n := OctalDigits(t[1..], 3);
      if n > 0 then Prepend([SpanChar(OctalValue(t[1..][..n]) % 256)], ReadDollar(t[1 + n..]))
      else if Letter(t[1]).Some? then Prepend([Letter(t[1]).value], ReadDollar(t[2..]))
      else None
  }

  /** After `'`, up to the next one. */
  function ReadSingle(t: string): (g: Option<Got>)
    ensures g.Some? ==> |g.value.rest| < |t|
  {
    if t == "" then None
    else if t[0] == '\'' then Some(Got("", t[1..]))
    else Prepend([t[0]], ReadSingle(t[1..]))
  }

  lemma {:induction false} DollarReadsOn(t: string)
    ensures ReadDollar(t).Some? ==> |ReadDollar(t).value.rest| < |t|
    decreases |t|
  {
    if t != "" && t[0] != '\'' {
      if t[0] != '\\' {
        DollarReadsOn(t[1..]);
      } else if |t| >= 2 {
        DollarReadsOn(t[1 + OctalDigits(t[1..], 3)..]);
        DollarReadsOn(t[2..]);
      }
    }
  }

  /** The value of the whole text as (the rest of) one word; `None` if it is not one plain word. */
  function ReadWord(t: string): Option<string>
    decreases |t|
  {
    if t == "" then Some("")
    else if t[0] == '\\' then
      if |t| < 2 then None
      else if t[1] == '\n' then ReadWord(t[2..])
      else Joined([t[1]], ReadWord(t[2..]))
    else if t[0] == '\'' then
      var g := ReadSingle(t[1..]);
      if g.None? then None else Joined(g.value.value, ReadWord(g.value.rest))
    else if t[0] == '$' && |t| > 1 && t[1] == '\'' then
      DollarReadsOn(t[2..]);
      var g := ReadDollar(t[2..]);
      if g.None? then None else Joined(g.value.value, ReadWord(g.value.rest))
    else if IsMeta(t[0]) then None
    else Joined([t[0]], ReadWord(t[1..]))
  }

  function Joined(v: string, w: Option<string>): Option<string> {
    if w.None? then None else Some(v + w.value)
  }

  /** One word, which takes at least something written. */
  function ReadOne(t: string): Option<string> {
    if t == "" then None else ReadWord(t)
  }

  // ----- what the quoted text stands for --------------------------------------------------------------

  function RunValue(b: seq<Byte>): string
    decreases |b|
  {
    if b == [] then ""
    else
      var w := Window(b, 4);
      if w > 0 then [FirstChar(b[..w])] + RunValue(b[w..]) else [SpanChar(b[0])] + RunValue(b[1..])
  }

  function Value(s: string): string
    decreases |s|
  {
    if s == "" then ""
    else if IsMarker(s[0]) then
      var n := RunLength(s);
      RunValue(RunBytes(s[..n])) + Value(s[n..])
    else [s[0]] + Value(s[1..])
  }

  // ----- reading what was written ---------------------------------------------------------------------

  lemma PrependTwice(u: string, v: string, g: Option<Got>)
    ensures Prepend(u, Prepend(v, g)) == Prepend(u + v, g)
  {
    if g.Some? {
      assert u + (v + g.value.value) == u + v + g.value.value;
    }
  }

  lemma PrependNothing(g: Option<Got>)
    ensures Prepend("", g) == g
  {
    if g.Some? {
      assert "" + g.value.value == g.value.value;
    }
  }

  lemma DigitIs(d: int)
    requires 0 <= d < 8
    ensures OctalDigit(d) as int == 48 + d
  {
  }

  lemma ByteInOctal(b: Byte)
    ensures b as int == b / 64 * 64 + b / 8 % 8 * 8 + b % 8
  {
    assert b / 64 == b / 8 / 8;
  }

  lemma OctalMeans(b: Byte, t: string)
    ensures var s := Octal(b)[1..] + t;
            OctalDigits(s, 3) == 3 && OctalValue(s[..3]) == b
  {
    hide OctalDigits, OctalValue;
    ByteInOctal(b);
    DigitIs(b / 64);
    DigitIs(b / 8 % 8);
    DigitIs(b % 8);
    var x, y, z := OctalDigit(b / 64), OctalDigit(b / 8 % 8), OctalDigit(b % 8);
    ThreeDigits(x, y, z, t);
    OctalOfThree(x, y, z);
    AfterBackslash(x, y, z, t);
  }

  lemma AfterBackslash(x: char, y: char, z: char, t: string)
    ensures ['\\', x, y, z][1..] + t == [x, y, z] + t && ([x, y, z] + t)[..3] == [x, y, z]
  {
  }

  lemma ThreeDigits(x: char, y: char, z: char, t: string)
    requires '0' <= x <= '7' && '0' <= y <= '7' && '0' <= z <= '7'
    ensures OctalDigits([x, y, z] + t, 3) == 3
  {
    var s := [x, y, z] + t;
    assert s[0] == x && s[1..][0] == y && s[1..][1..][0] == z;
    assert OctalDigits(s[1..][1..], 1) == 1;
  }

  lemma OctalOfThree(x: char, y: char, z: char)
    requires '0' <= x <= '7' && '0' <= y <= '7' && '0' <= z <= '7'
    ensures OctalValue([x, y, z]) == (x as int - 48) * 64 + (y as int - 48) * 8 + (z as int - 48)
  {
    assert [x, y, z][..2] == [x, y];
    assert [x, y][..1] == [x];
    assert [x][..0] == "";
    assert OctalValue([x]) == x as int - 48;
    assert OctalValue([x, y]) == OctalValue([x]) * 8 + (y as int - 48);
  }

  lemma OctalReads(b: Byte, t: string)
    ensures ReadDollar(Octal(b) + t) == Prepend([SpanChar(b)], ReadDollar(t))
  {
    hide OctalDigits, OctalValue, SpanChar;
    OctalMeans(b, t);
    var s := Octal(b) + t;
    assert s[1..] == Octal(b)[1..] + t && s[4..] == t;
  }

  lemma LetterReads(c: char, d: char, t: string)
    requires Letter(c) == Some(d)
    ensures ReadDollar(['\\', c] + t) == Prepend([d], ReadDollar(t))
  {
    var s := ['\\', c] + t;
    assert s[0] == '\\' && s[1..][0] == c && s[2..] == t;
    assert OctalDigits(s[1..], 3) == 0;
  }

  lemma CharReads(c: char, t: string)
    ensures ReadDollar(CharText(c) + t) == Prepend([c], ReadDollar(t))
  {
    hide ReadDollar;
    if c == '\'' {
      LetterReads('\'', c, t);
    } else if c == '\\' {
      LetterReads('\\', c, t);
    } else if c == '\n' {
      LetterReads('n', c, t);
    } else if c == '\t' {
      LetterReads('t', c, t);
    } else if c == '\r' {
      LetterReads('r', c, t);
    } else if c as int == 0x07 {
      LetterReads('a', c, t);
    } else if c as int == 0x08 {
      LetterReads('b', c, t);
    } else if c as int == 0x0C {
      LetterReads('f', c, t);
    } else if c as int == 0x0B {
      LetterReads('v', c, t);
    } else if c as int == 0x1B {
      LetterReads('E', c, t);
    } else if IsControl(c) {
      OctalReads(c as int, t);
    } else {
      LiteralReads(c, t);
    }
  }

  lemma LiteralReads(c: char, t: string)
    requires c != '\'' && c != '\\'
    ensures ReadDollar([c] + t) == Prepend([c], ReadDollar(t))
  {
    assert ([c] + t)[1..] == t;
  }

  lemma {:induction false} RunReads(b: seq<Byte>, t: string)
    ensures ReadDollar(RunText(b) + t) == Prepend(RunValue(b), ReadDollar(t))
    decreases |b|
  {
    hide ReadDollar, CharText, Octal, Window, FirstChar, SpanChar, Prepend, Decodes;
    if b == [] {
      PrependNothing(ReadDollar(t));
      assert "" + t == t;
    } else {
      RunOpens(b);
      var w := Window(b, 4);
      if w > 0 {
        var c, rest := FirstChar(b[..w]), b[w..];
        RunReads(rest, t);
        CharReads(c, RunText(rest) + t);
        PrependTwice([c], RunValue(rest), ReadDollar(t));
        assert CharText(c) + RunText(rest) + t == CharText(c) + (RunText(rest) + t);
      } else {
        var rest := b[1..];
        RunReads(rest, t);
        OctalReads(b[0], RunText(rest) + t);
        PrependTwice([SpanChar(b[0])], RunValue(rest), ReadDollar(t));
        assert Octal(b[0]) + RunText(rest) + t == Octal(b[0]) + (RunText(rest) + t);
      }
    }
  }

  lemma RunOpens(b: seq<Byte>)
    requires b != []
    ensures var w := Window(b, 4);
            && (w > 0 ==> Decodes(b[..w]) && FromUtf8(b[..w]).Valid?)
            && RunText(b) ==
               (if w > 0 then CharText(FirstChar(b[..w])) + RunText(b[w..]) else Octal(b[0]) + RunText(b[1..]))
            && RunValue(b) ==
               (if w > 0 then [FirstChar(b[..w])] + RunValue(b[w..]) else [SpanChar(b[0])] + RunValue(b[1..]))
  {
    hide CharText, Octal, FirstChar, SpanChar, Window;
  }

  lemma {:induction false} BodyReads(s: string, t: string)
    ensures ReadDollar(Body(s) + t) == Prepend(Value(s), ReadDollar(t))
    decreases |s|
  {
    hide ReadDollar, CharText, RunText, RunValue, RunBytes, RunLength, Prepend;
    if s == "" {
      PrependNothing(ReadDollar(t));
      assert "" + t == t;
    } else if IsMarker(s[0]) {
      var n := RunLength(s);
      var b, rest := RunBytes(s[..n]), s[n..];
      BodyReads(rest, t);
      RunReads(b, Body(rest) + t);
      PrependTwice(RunValue(b), Value(rest), ReadDollar(t));
      assert RunText(b) + Body(rest) + t == RunText(b) + (Body(rest) + t);
    } else {
      var rest := s[1..];
      BodyReads(rest, t);
      CharReads(s[0], Body(rest) + t);
      PrependTwice([s[0]], Value(rest), ReadDollar(t));
      assert CharText(s[0]) + Body(rest) + t == CharText(s[0]) + (Body(rest) + t);
    }
  }

  lemma {:induction false} PlainReads(t: string)
    requires forall i :: 0 <= i < |t| ==> !IsMeta(t[i])
    ensures ReadWord(t) == Some(t)
  {
    if t != "" {
      assert !IsMeta(t[0]);
      PlainReads(t[1..]);
      assert [t[0]] + t[1..] == t;
    }
  }

  lemma SafeIsNotMeta(c: char)
    ensures IsSafe(c) || !IsAscii(c) ==> !IsMeta(c) && c != '\\' && c != '\'' && c != '$'
  {
  }

  lemma ReadPlain(c: char, t: string)
    requires !IsMeta(c)
    ensures ReadWord([c] + t) == Joined([c], ReadWord(t))
  {
    assert ([c] + t)[1..] == t;
  }

  lemma ReadBackslashed(c: char, t: string)
    requires c != '\n'
    ensures ReadWord(['\\', c] + t) == Joined([c], ReadWord(t))
  {
    var s := ['\\', c] + t;
    assert s[0] == '\\' && s[1] == c && s[2..] == t;
  }

  lemma {:induction false} BackslashedReads(s: string)
    requires forall i :: 0 <= i < |s| ==> s[i] != '\n'
    ensures ReadWord(Backslashed(s)) == Some(s)
  {
    hide ReadWord, IsSafe, IsMeta;
    if s == "" {
      QuoteEnds();
    } else {
      BackslashedReads(s[1..]);
      assert [s[0]] + s[1..] == s;
      SafeIsNotMeta(s[0]);
      if IsSafe(s[0]) || !IsAscii(s[0]) {
        ReadPlain(s[0], Backslashed(s[1..]));
      } else {
        ReadBackslashed(s[0], Backslashed(s[1..]));
      }
    }
  }

  /** Text written without escapes is its own value. */
  lemma {:induction false} RunUnescaped(b: seq<Byte>)
    requires AllPrintable(RunText(b))
    ensures RunText(b) == RunValue(b)
    decreases |b|
  {
    hide CharText, Octal, FirstChar, SpanChar, Window, Decodes;
    if b != [] {
      RunOpens(b);
      var w := Window(b, 4);
      if w > 0 {
        PrintableParts(CharText(FirstChar(b[..w])), RunText(b[w..]));
        Unescaped(FirstChar(b[..w]));
        RunUnescaped(b[w..]);
      } else {
        PrintableParts(Octal(b[0]), RunText(b[1..]));
        OctalEscapes(b[0]);
      }
    }
  }

  lemma PrintableParts(a: string, b: string)
    requires AllPrintable(a + b)
    ensures AllPrintable(a) && AllPrintable(b)
  {
    forall i | 0 <= i < |b|
      ensures !IsControl(b[i]) && b[i] != '\\'
    {
      assert (a + b)[|a| + i] == b[i];
    }
    forall i | 0 <= i < |a|
      ensures !IsControl(a[i]) && a[i] != '\\'
    {
      assert (a + b)[i] == a[i];
    }
  }

  lemma Unescaped(c: char)
    ensures AllPrintable(CharText(c)) ==> CharText(c) == [c]
  {
    var t := CharText(c);
    if t != [c] {
      assert t[0] == '\\';
    }
  }

  lemma OctalEscapes(b: Byte)
    ensures !AllPrintable(Octal(b))
  {
    assert Octal(b)[0] == '\\';
  }

  lemma {:induction false} BodyUnescaped(s: string)
    requires AllPrintable(Body(s))
    ensures Body(s) == Value(s)
    decreases |s|
  {
    hide CharText, RunText, RunValue, RunBytes, RunLength, AllPrintable;
    if s != "" {
      if IsMarker(s[0]) {
        var n := RunLength(s);
        PrintableParts(RunText(RunBytes(s[..n])), Body(s[n..]));
        RunUnescaped(RunBytes(s[..n]));
        BodyUnescaped(s[n..]);
      } else {
        PrintableParts(CharText(s[0]), Body(s[1..]));
        Unescaped(s[0]);
        BodyUnescaped(s[1..]);
      }
    }
  }

  predicate MarkerFree(s: string) {
    forall i :: 0 <= i < |s| ==> !IsMarker(s[i])
  }

  lemma {:induction false} FreeTextIsItsValue(s: string)
    requires MarkerFree(s)
    ensures Value(s) == s
  {
    if s != "" {
      assert !IsMarker(s[0]);
      FreeTextIsItsValue(s[1..]);
      assert [s[0]] + s[1..] == s;
    }
  }

  /** Every quoted text is one shell word, with this value. */
  lemma QuotedReads(s: string)
    ensures ReadOne(Quote(s)) == Some(Value(s))
  {
    hide Body, Value, Backslashed, ReadOne, AllPrintable, NeedsQuoting, HasSpecial, AllSafe;
    if s == "" {
      EmptyReads();
    } else if HasSpecial(s) {
      if AllPrintable(Body(s)) && Body(s) != "" && !NeedsQuoting(Body(s)) {
        BareReads(s);
      } else {
        DollarReads(s);
      }
    } else {
      OrdinaryReads(s);
    }
  }

  lemma BareReads(s: string)
    requires AllPrintable(Body(s)) && Body(s) != "" && !NeedsQuoting(Body(s))
    ensures ReadOne(Body(s)) == Some(Value(s))
  {
    BodyUnescaped(s);
    hide Body, Value, IsSafe, IsMeta, ReadWord;
    forall i | 0 <= i < |Body(s)|
      ensures !IsMeta(Body(s)[i])
    {
      SafeIsNotMeta(Body(s)[i]);
    }
    PlainReads(Body(s));
  }

  lemma OrdinaryReads(s: string)
    requires s != "" && !HasSpecial(s)
    ensures ReadOne(if AllSafe(s) then s else Backslashed(s)) == Some(Value(s))
  {
    FreeTextIsItsValue(s);
    forall i | 0 <= i < |s|
      ensures s[i] != '\n' && (IsSafe(s[i]) ==> !IsMeta(s[i]))
    {
      assert !IsControl(s[i]);
      SafeIsNotMeta(s[i]);
    }
    hide Value, IsSafe, IsMeta, ReadWord;
    if AllSafe(s) {
      PlainReads(s);
    } else {
      BackslashedReads(s);
    }
  }

  lemma EmptyReads()
    ensures ReadOne("''") == Some("") && Value("") == ""
  {
    QuoteEnds();
    var t := "''";
    assert t[0] == '\'' && t[1..] == "'";
    assert "'"[1..] == "";
    assert ReadSingle(t[1..]) == Some(Got("", ""));
    var e: string := "";
    assert e + e == e;
  }

  lemma DollarReads(s: string)
    ensures ReadOne("$'" + Body(s) + "'") == Some(Value(s))
  {
    hide Body, Value, ReadDollar;
    var t := "$'" + Body(s) + "'";
    assert t[2..] == Body(s) + "'";
    BodyReads(s, "'");
    QuoteEnds();
    assert Value(s) + "" == Value(s);
  }

  lemma QuoteEnds()
    ensures ReadDollar("'") == Some(Got("", "")) && ReadWord("") == Some("")
  {
    assert "'"[1..] == "";
  }

  /** Without markers, reading gives back the very text. */
  lemma QuotingIsUndone(s: string)
    requires MarkerFree(s)
    ensures ReadOne(Quote(s)) == Some(s)
  {
    QuotedReads(s);
    FreeTextIsItsValue(s);
  }

  // ----- marked bytes ---------------------------------------------------------------------------------

  /** Each window that decodes holds one character, and not one of the marker block. */
  predicate Exact(b: seq<Byte>)
    decreases |b|
  {
    b == []
    || var w := Window(b, 4);
       if w > 0 then b[..w] == BytesOf(FirstChar(b[..w])) && !IsMarker(FirstChar(b[..w])) && Exact(b[w..])
       else Exact(b[1..])
  }

  predicate NothingDropped(s: string)
    decreases |s|
  {
    s == ""
    || if IsMarker(s[0]) then Exact(RunBytes(s[..RunLength(s)])) && NothingDropped(s[RunLength(s)..])
       else NothingDropped(s[1..])
  }

  lemma FirstCharBytes(b: seq<Byte>)
    requires b != [] && FromUtf8(b).Valid?
    ensures var c := BytesOf(FirstChar(b)); |c| <= |b| && c == b[..|c|]
  {
    StepMeaning(b);
    BytesOfCharOf(b[..StepOf(b).len]);
  }

  lemma MarkerIsLong(c: char)
    requires IsMarker(c)
    ensures |BytesOf(c)| == 3 && |CharBytes(c)| == 1
  {
  }

  lemma SpanCharBytes(b: Byte)
    ensures CharBytes(SpanChar(b)) == [b]
  {
  }

  lemma SameStart(x: seq<Byte>, y: seq<Byte>, b: seq<Byte>, w: nat)
    requires w <= |b| && |x| <= w && |y| <= |b| - w
    ensures x + y == b <==> x == b[..w] && y == b[w..]
  {
    if x + y == b {
      assert b[..w] == x && b[w..] == y;
    }
    assert b == b[..w] + b[w..];
  }

  lemma {:induction false} RunBytesSurvive(b: seq<Byte>)
    ensures |Encode(RunValue(b))| <= |b|
    ensures Encode(RunValue(b)) == b <==> Exact(b)
    decreases |b|
  {
    hide Encode, Window, FirstChar, SpanChar, CharText, RunText, RunValue, CharBytes, Decodes;
    if b == [] {
      EncodeNothing();
      NoRun();
    } else {
      RunOpens(b);
      var w := Window(b, 4);
      if w > 0 {
        var c := FirstChar(b[..w]);
        RunBytesSurvive(b[w..]);
        EncodeCons(c, RunValue(b[w..]));
        FirstCharBytes(b[..w]);
        WindowBytes(c, b[..w]);
        SameStart(CharBytes(c), Encode(RunValue(b[w..])), b, w);
      } else {
        RunBytesSurvive(b[1..]);
        EncodeCons(SpanChar(b[0]), RunValue(b[1..]));
        SpanCharBytes(b[0]);
        SameStart([b[0]], Encode(RunValue(b[1..])), b, 1);
      }
    }
  }

  lemma NoRun()
    ensures RunValue([]) == "" && Exact([])
  {
  }

  /** A character that starts the window stands for all of it only if it is the window. */
  lemma WindowBytes(c: char, window: seq<Byte>)
    requires |BytesOf(c)| <= |window| && BytesOf(c) == window[..|BytesOf(c)|]
    ensures |CharBytes(c)| <= |window|
    ensures CharBytes(c) == window <==> window == BytesOf(c) && !IsMarker(c)
  {
    if IsMarker(c) {
      MarkerIsLong(c);
    }
  }

  lemma {:induction false} EncodeRun(s: string)
    requires forall i :: 0 <= i < |s| ==> IsMarker(s[i])
    ensures Encode(s) == RunBytes(s)
  {
    if s != "" {
      assert IsMarker(s[0]);
      EncodeRun(s[1..]);
    }
  }

  lemma {:induction false} ValueBytes(s: string)
    ensures |Encode(Value(s))| <= |Encode(s)|
    ensures Encode(Value(s)) == Encode(s) <==> NothingDropped(s)
    decreases |s|
  {
    hide Encode, RunValue, RunBytes, RunLength, Exact;
    if s == "" {
      EncodeNothing();
    } else if IsMarker(s[0]) {
      var n := RunLength(s);
      var run, rest := s[..n], s[n..];
      assert s == run + rest;
      EncodeConcat(run, rest);
      EncodeRun(run);
      RunBytesSurvive(RunBytes(run));
      EncodeConcat(RunValue(RunBytes(run)), Value(rest));
      ValueBytes(rest);
      SameStart(Encode(RunValue(RunBytes(run))), Encode(Value(rest)), Encode(s), |Encode(run)|);
    } else {
      ValueBytes(s[1..]);
      assert s == [s[0]] + s[1..];
      EncodeCons(s[0], s[1..]);
      EncodeCons(s[0], Value(s[1..]));
      SameStart(CharBytes(s[0]), Encode(Value(s[1..])), Encode(s), |CharBytes(s[0])|);
    }
  }

  /** For every text: the word stands for the same bytes exactly when no window of marked bytes loses any. */
  lemma QuotingKeepsBytes(s: string)
    ensures ReadOne(Quote(s)).Some?
    ensures Encode(ReadOne(Quote(s)).value) == Encode(s) <==> NothingDropped(s)
  {
    hide Encode, Value, NothingDropped, Quote, ReadOne;
    QuotedReads(s);
    ValueBytes(s);
  }

  // ----- the same condition, without following the windows ----------------------------------------------

  /** Length of the whole character that starts at `i`; 0 if none does. */
  function LengthAt(b: seq<Byte>, i: nat): (n: nat)
    ensures n > 0 ==> i + n <= |b| && n <= 4 && IsChar(b[i..i + n])
  {
    if i < |b| && i + Width(b[i]) <= |b| && IsChar(b[i..i + Width(b[i])]) then Width(b[i]) else 0
  }

  /** Two whole characters stand next to each other within four bytes. */
  predicate Crowded(b: seq<Byte>, i: nat) {
    LengthAt(b, i) > 0 && LengthAt(b, i + LengthAt(b, i)) > 0 && LengthAt(b, i) + LengthAt(b, i + LengthAt(b, i)) <= 4
  }

  /** Nowhere are characters crowded, and nowhere is a marker spelled. */
  ghost predicate Clear(b: seq<Byte>) {
    forall i: nat :: !Crowded(b, i) && !SpellsMarker(b, i)
  }

  lemma LengthIs(b: seq<Byte>, i: nat, n: nat)
    requires i + n <= |b| && IsChar(b[i..i + n])
    ensures LengthAt(b, i) == n
  {
    assert b[i..i + n][0] == b[i];
  }

  lemma LengthInTail(b: seq<Byte>, k: nat, i: nat)
    requires k <= |b|
    ensures LengthAt(b[k..], i) == LengthAt(b, k + i)
    ensures SpellsMarker(b[k..], i) == SpellsMarker(b, k + i)
  {
    if k + i < |b| && k + i + Width(b[k + i]) <= |b| {
      assert b[k..][i..i + Width(b[k + i])] == b[k + i..k + i + Width(b[k + i])];
    }
  }

  lemma CrowdedInTail(b: seq<Byte>, k: nat, i: nat)
    requires k <= |b|
    ensures Crowded(b[k..], i) == Crowded(b, k + i)
  {
    hide LengthAt;
    LengthInTail(b, k, i);
    LengthInTail(b, k, i + LengthAt(b, k + i));
  }

  /** Valid text is a first character and, if longer, a second one. */
  lemma ValidStarts(b: seq<Byte>, l: nat)
    requires 1 <= l <= |b| && FromUtf8(b[..l]).Valid?
    ensures var m := |BytesOf(FirstChar(b[..l]))|;
            && 1 <= m <= l && LengthAt(b, 0) == m
            && (m < l ==> 1 <= LengthAt(b, m) <= l - m)
  {
    hide FromUtf8, FirstChar, LengthAt;
    var t := b[..l];
    var m := ValidOpens(t);
    assert t[0..] == t;
    Inner(b, 0, m, l);
    if m < l {
      var n := ValidOpens(t[m..]);
      Inner(b, m, n, l);
    }
  }

  /** Of valid text, the first character and the rest. */
  lemma ValidOpens(t: seq<Byte>) returns (m: nat)
    requires t != [] && FromUtf8(t).Valid?
    ensures 1 <= m <= |t| && m == |BytesOf(FirstChar(t))| && IsChar(t[..m]) && FromUtf8(t[m..]).Valid?
  {
    StepMeaning(t);
    m := StepOf(t).len;
    BytesOfCharOf(t[..m]);
  }

  lemma Inner(b: seq<Byte>, i: nat, n: nat, l: nat)
    requires i + n <= l <= |b| && IsChar(b[..l][i..][..n])
    ensures LengthAt(b, i) == n
  {
    assert b[..l][i..][..n] == b[i..i + n];
    LengthIs(b, i, n);
  }

  lemma {:induction false} WindowReaches(b: seq<Byte>, l: nat, len: nat)
    requires l <= len && l <= |b| && Decodes(b[..l])
    ensures Window(b, len) >= l
  {
    if len > l {
      WindowReaches(b, l, len - 1);
    }
  }

  /** A window is the first character alone exactly where characters are not crowded. */
  lemma WindowIsFirst(b: seq<Byte>)
    requires b != []
    ensures var w, m := Window(b, 4), LengthAt(b, 0);
            && (w > 0 ==> m > 0 && FromUtf8(b[..w]).Valid? && |BytesOf(FirstChar(b[..w]))| == m)
            && (w > 0 && !Crowded(b, 0) ==> w == m)
            && (w == 0 ==> m <= 1)
            && (Crowded(b, 0) ==> w > m)
  {
    hide Window, LengthAt, FromUtf8, FirstChar, IsGraphic;
    var w, m := Window(b, 4), LengthAt(b, 0);
    if w > 0 {
      ValidStarts(b, w);
    }
    if m > 0 {
      CharDecodes(b, m);
      if m > 1 {
        WindowReaches(b, m, 4);
      }
      if Crowded(b, 0) {
        var n := LengthAt(b, m);
        TwoDecode(b[0..m], b[m..m + n]);
        assert b[..m + n] == b[0..m] + b[m..m + n];
        WindowReaches(b, m + n, 4);
      }
    }
  }

  lemma CharDecodes(b: seq<Byte>, m: nat)
    requires m == LengthAt(b, 0) > 0
    ensures m > 1 ==> Decodes(b[..m])
  {
    var t := b[..m];
    assert t == b[0..m] && t[..m] == t && t[m..] == [];
    StepMeaning(t);
    assert StepOf(t) == Good(m);
  }

  lemma InsideChar(b: seq<Byte>, m: nat, i: nat)
    requires LengthAt(b, 0) == m && 1 <= i < m
    ensures LengthAt(b, i) == 0 && !SpellsMarker(b, i)
  {
    var t := b[0..m];
    assert t[i] == b[i] && t[0] == b[0];
    assert Continuation(b[i]) by {
      if i == 1 {
        assert SecondOk(t[0], t[1]);
      }
    }
  }

  lemma MarkerAtStart(b: seq<Byte>)
    requires b != []
    ensures SpellsMarker(b, 0) ==> LengthAt(b, 0) == 3
    ensures var m := LengthAt(b, 0); m > 0 ==> (IsMarker(CharOf(b[0..m])) <==> SpellsMarker(b, 0))
  {
    var m := LengthAt(b, 0);
    if m > 0 {
      SpelledMarker(b[0..m]);
    }
  }

  lemma ClearSplits(b: seq<Byte>, k: nat)
    requires 1 <= k <= |b| && (k == 1 || LengthAt(b, 0) == k)
    ensures Clear(b) <==> !Crowded(b, 0) && !SpellsMarker(b, 0) && Clear(b[k..])
  {
    hide LengthAt, Crowded, SpellsMarker;
    forall i: nat
      ensures i < k ==> i == 0 || (!Crowded(b, i) && !SpellsMarker(b, i))
      ensures i >= k ==> Crowded(b, i) == Crowded(b[k..], i - k) && SpellsMarker(b, i) == SpellsMarker(b[k..], i - k)
    {
      if 0 < i < k {
        InsideChar(b, k, i);
        NotCrowded(b, i);
      } else if i >= k {
        CrowdedInTail(b, k, i - k);
        LengthInTail(b, k, i - k);
      }
    }
    if Clear(b) {
      forall i: nat
        ensures !Crowded(b[k..], i) && !SpellsMarker(b[k..], i)
      {
        assert !Crowded(b, k + i) && !SpellsMarker(b, k + i);
      }
    }
  }

  lemma NotCrowded(b: seq<Byte>, i: nat)
    requires LengthAt(b, i) == 0
    ensures !Crowded(b, i)
  {
  }

  /** The windows lose nothing exactly if the bytes are clear: a condition on places, not on the search. */
  lemma {:induction false} ExactIfClear(b: seq<Byte>)
    ensures Exact(b) <==> Clear(b)
    decreases |b|
  {
    hide Window, FirstChar, Crowded, LengthAt, SpellsMarker, Decodes, FromUtf8, IsMarker;
    if b == [] {
      NothingCrowded();
    } else {
      var w, m := Window(b, 4), LengthAt(b, 0);
      var k := if w > 0 then w else 1;
      WindowIsFirst(b);
      MarkerAtStart(b);
      if w > 0 {
        FirstCharBytes(b[..w]);
        FirstIs(b, w, m);
      }
      if w == 0 || w == m {
        ClearSplits(b, k);
        ExactIfClear(b[k..]);
      } else {
        ClearSplits(b, 1);
      }
    }
  }

  lemma NothingCrowded()
    ensures Clear([])
  {
  }

  lemma FirstIs(b: seq<Byte>, w: nat, m: nat)
    requires 1 <= w <= |b| && FromUtf8(b[..w]).Valid? && m == LengthAt(b, 0) > 0
    ensures FirstChar(b[..w]) == CharOf(b[0..m])
  {
    hide FromUtf8;
    ValidStarts(b, w);
    var t := b[..w];
    StepMeaning(t);
    FirstStep(t);
    assert t[..m] == b[0..m];
  }

  lemma FirstStep(t: seq<Byte>)
    requires t != [] && FromUtf8(t).Valid?
    ensures StepOf(t).Good? && |BytesOf(FirstChar(t))| == StepOf(t).len
  {
    StepMeaning(t);
    BytesOfCharOf(t[..StepOf(t).len]);
  }

  /** Of two adjacent two-byte characters held as marked bytes, only the first is left. */
  lemma SecondCharacterIsLost(c: char, d: char)
    requires CharLen(c) == CharLen(d) == 2
    ensures RunValue(BytesOf(c) + BytesOf(d)) == [c]
  {
    var b := BytesOf(c) + BytesOf(d);
    CharOfBytesOf(c);
    TwoDecode(BytesOf(c), BytesOf(d));
    assert b[..4] == b && b[4..] == [];
    StepMeaning(b);
    assert b[..2] == BytesOf(c);
    assert Window(b, 4) == 4;
    NoRun();
  }

  lemma TwoDecode(x: seq<Byte>, y: seq<Byte>)
    requires IsChar(x) && IsChar(y)
    ensures FromUtf8(x + y).Valid?
  {
    var b := x + y;
    StepMeaning(b);
    StepMeaning(y);
    assert b[..|x|] == x && b[|x|..] == y;
    assert y[..|y|] == y && y[|y|..] == [];
    assert StepOf(y) == Good(|y|);
    assert StepOf(b) == Good(|x|);
    assert FromUtf8(y).Valid?;
  }
}
