/**
 Byte streams carried in strings: valid UTF-8 is decoded, every other byte becomes a marker from
 the private-use block U+E000 to U+E0FF. Both round trips hold exactly when no text can be taken
 for markers and no markers can be taken for text.
 */
module ShellBytes {
  import opened Wrappers
  import opened Sequences
  import opened Utf8Codec

  const MARKER_BASE := 0xE000

  function MarkerForByte(b: Byte): (c: char)
    ensures MarkerByte(c) == Some(b)
  {
    (MARKER_BASE + b) as char
  }

  function MarkerByte(c: char): (b: Option<Byte>)
    ensures b.Some? <==> MARKER_BASE <= c as int <= MARKER_BASE + 0xFF
  {
    if MARKER_BASE <= c as int <= MARKER_BASE + 0xFF then Some(c as int - MARKER_BASE) else None
  }

  predicate IsMarker(c: char) {
    MarkerByte(c).Some?
  }

  function CharBytes(c: char): (b: seq<Byte>)
    ensures b != []
  {
    if IsMarker(c) then [MarkerByte(c).value] else BytesOf(c)
  }

  /** What `encode_shell_string` writes. */
  function Encode(s: string): seq<Byte> {
    if s == "" then [] else CharBytes(s[0]) + Encode(s[1..])
  }

  /** One byte of an invalid span; ASCII would pass through. */
  function SpanChar(b: Byte): char {
    if b < 0x80 then b as char else MarkerForByte(b)
  }

  function Span(b: seq<Byte>): (s: string)
    ensures |s| == |b|
  {
    seq(|b|, i requires 0 <= i < |b| => SpanChar(b[i]))
  }

  /** What `decode_shell_bytes` reads, a character or an invalid span at a time. */
  function Decode(b: seq<Byte>): string
    decreases |b|
  {
    if b == [] then ""
    else
      StepMeaning(b);
      match StepOf(b)
      case Good(n) => [CharOf(b[..n])] + Decode(b[n..])
      case Bad(n) => Span(b[..n]) + Decode(b[n..])
      case Truncated => Span(b)
  }

  // ----- the loops -------------------------------------------------------------------------------

  lemma EncodeCons(c: char, rest: string)
    ensures Encode([c] + rest) == CharBytes(c) + Encode(rest)
  {
    assert ([c] + rest)[1..] == rest;
  }

  lemma {:induction false} EncodeConcat(s: string, t: string)
    ensures Encode(s + t) == Encode(s) + Encode(t)
  {
    hide Encode;
    if s == "" {
      EncodeNothing();
      assert s + t == t;
    } else {
      var c, rest := s[0], s[1..];
      EncodeConcat(rest, t);
      assert s == [c] + rest && s + t == [c] + (rest + t);
      EncodeCons(c, rest);
      EncodeCons(c, rest + t);
    }
  }

  method EncodeShellString(s: string) returns (out: seq<Byte>)
    ensures out == Encode(s)
  {
    hide Encode;
    out := [];
    for i := 0 to |s|
      invariant out + Encode(s[i..]) == Encode(s[0..])
    {
      EncodeCons(s[i], s[i + 1..]);
      assert s[i..] == [s[i]] + s[i + 1..];
      var byte := MarkerByte(s[i]);
      if byte.Some? {
        out := out + [byte.value];
      } else {
        out := out + BytesOf(s[i]);
      }
    }
    EncodeNothing();
    assert s[|s|..] == "" && s[0..] == s;
  }

  lemma EncodeNothing()
    ensures Encode("") == []
  {
  }

  lemma Slices(b: seq<Byte>, i: nat, n: nat)
    requires i + n <= |b|
    ensures b[i..i + n] == b[i..][..n] && b[i..][n..] == b[i + n..]
  {
  }

  lemma DecodeStep(b: seq<Byte>)
    requires b != []
    ensures var s := StepOf(b);
            if s.Good? then
              1 <= s.len <= |b| && IsChar(b[..s.len]) && Decode(b) == [CharOf(b[..s.len])] + Decode(b[s.len..])
            else if s.Bad? then
              1 <= s.len <= |b| && Decode(b) == Span(b[..s.len]) + Decode(b[s.len..])
            else Decode(b) == Span(b)
  {
    StepMeaning(b);
  }

  /** The library's report cuts the input where a character ends. */
  lemma {:induction false} DecodeValidPrefix(b: seq<Byte>)
    ensures var r := FromUtf8(b);
            if r.Valid? then Decode(b) == r.text
            else
              && Decode(b) == r.text + Decode(b[r.validUpTo..])
              && (r.validUpTo == 0 ==> r.text == "")
              && FromUtf8(b[r.validUpTo..]) == Invalid("", 0, r.errorLen)
    decreases |b|
  {
    hide Decode, FromUtf8, StepOf, CharOf;
    FromUtf8Opens(b);
    if b == [] {
      DecodeNothing();
    } else {
      StepMeaning(b);
      DecodeStep(b);
      var step := StepOf(b);
      if step.Good? {
        DecodeValidPrefix(b[step.len..]);
        var rest := FromUtf8(b[step.len..]);
        if rest.Invalid? {
          DropMore(b, step.len, rest.validUpTo);
          Associates([CharOf(b[..step.len])], rest.text, Decode(b[step.len + rest.validUpTo..]));
        }
      } else {
        assert b[0..] == b && "" + Decode(b) == Decode(b);
      }
    }
  }

  lemma FromUtf8Opens(b: seq<Byte>)
    ensures b == [] ==> FromUtf8(b) == Valid("")
    ensures b != [] && StepOf(b).Good? ==>
              var n := StepOf(b).len;
              && 1 <= n <= |b| && IsChar(b[..n])
              && FromUtf8(b) ==
                 (match FromUtf8(b[n..])
                  case Valid(text) => Valid([CharOf(b[..n])] + text)
                  case Invalid(text, upTo, len) => Invalid([CharOf(b[..n])] + text, n + upTo, len))
    ensures b != [] && !StepOf(b).Good? ==>
              FromUtf8(b) == Invalid("", 0, if StepOf(b).Bad? then Some(StepOf(b).len) else None)
  {
    hide StepOf, CharOf;
    if b != [] {
      StepMeaning(b);
    }
  }

  lemma DecodeNothing()
    ensures Decode([]) == ""
  {
  }

  /** Read alone, the valid prefix is valid and holds the same text. */
  lemma {:induction false} ValidPrefixAlone(b: seq<Byte>)
    ensures var r := FromUtf8(b);
            r.Invalid? ==> FromUtf8(b[..r.validUpTo]) == Valid(r.text)
    decreases |b|
  {
    if b != [] && StepOf(b).Good? {
      StepMeaning(b);
      var n := StepOf(b).len;
      ValidPrefixAlone(b[n..]);
      var rest := FromUtf8(b[n..]);
      if rest.Invalid? {
        PrefixStep(b, n + rest.validUpTo, n);
      }
    }
  }

  lemma PrefixStep(b: seq<Byte>, upTo: nat, n: nat)
    requires b != [] && StepOf(b) == Good(n) && 1 <= n <= upTo <= |b|
    ensures StepOf(b[..upTo]) == Good(n) && b[..upTo][..n] == b[..n]
    ensures b[..upTo][n..] == b[n..][..upTo - n]
  {
  }

  /** What is left to decode after the report on `rest`. */
  lemma AfterReport(rest: seq<Byte>)
    requires rest != []
    ensures var r := FromUtf8(rest);
            if r.Valid? then Decode(rest) == r.text
            else if r.validUpTo > 0 then
              && FromUtf8(rest[..r.validUpTo]) == Valid(r.text)
              && Decode(rest) == r.text + Decode(rest[r.validUpTo..])
            else if r.errorLen.Some? then
              var n := r.errorLen.value;
              Decode(rest) == Span(rest[..n]) + Decode(rest[n..])
            else Decode(rest) == Span(rest)
  {
    hide Decode;
    DecodeValidPrefix(rest);
    ValidPrefixAlone(rest);
    DecodeStep(rest);
  }

  method DecodeShellBytes(bytes: seq<Byte>) returns (out: string)
    ensures out == Decode(bytes)
  {
    hide Decode, FromUtf8, Span;
    out := "";
    var i := 0;
    assert bytes[0..] == bytes;
    while i < |bytes|
      invariant 0 <= i <= |bytes|
      invariant out + Decode(bytes[i..]) == Decode(bytes)
    {
      var rest := bytes[i..];
      AfterReport(rest);
      match FromUtf8(rest)
      case Valid(text) =>
        out := out + text;
        return;
      case Invalid(_, valid, errorLen) =>
        if valid > 0 {
          Slices(bytes, i, valid);
          out := out + FromUtf8(bytes[i..i + valid]).text;
          i := i + valid;
        } else if errorLen.Some? {
          var n := errorLen.value;
          Slices(bytes, i, n);
          out := PushSpan(out, bytes[i..i + n]);
          i := i + n;
        } else {
          out := PushSpan(out, rest);
          return;
        }
    }
    assert bytes[i..] == [];
    DecodeNothing();
  }

  method PushSpan(before: string, span: seq<Byte>) returns (out: string)
    ensures out == before + Span(span)
  {
    out := before;
    for k := 0 to |span|
      invariant out == before + Span(span[..k])
    {
      assert Span(span[..k + 1]) == Span(span[..k]) + [SpanChar(span[k])];
      if span[k] < 0x80 {
        out := out + [span[k] as char];
      } else {
        out := out + [MarkerForByte(span[k])];
      }
    }
    assert span[..|span|] == span;
  }

  // ----- bytes to text and back ----------------------------------------------------------------------

  /** The three bytes that spell a marker character. */
  predicate SpellsMarker(b: seq<Byte>, i: nat) {
    i + 3 <= |b| && b[i] == 0xEE && 0x80 <= b[i + 1] <= 0x83 && Continuation(b[i + 2])
  }

  lemma SpelledMarker(b: seq<Byte>)
    requires IsChar(b)
    ensures IsMarker(CharOf(b)) <==> SpellsMarker(b, 0)
    ensures IsMarker(CharOf(b)) ==> |b| == 3
  {
  }

  lemma {:induction false} EncodeSpan(b: seq<Byte>)
    requires forall i :: 0 <= i < |b| ==> b[i] >= 0x80
    ensures Encode(Span(b)) == b
  {
    if b != [] {
      EncodeSpan(b[1..]);
      assert Span(b)[1..] == Span(b[1..]);
      assert Span(b) == [SpanChar(b[0])] + Span(b[1..]);
    }
  }

  /** A window inside what one step reads, other than at its start, is not a first byte. */
  lemma SpellsLater(b: seq<Byte>, n: nat)
    requires n <= |b| && forall k :: 1 <= k < n ==> Continuation(b[k])
    ensures (exists i: nat :: SpellsMarker(b, i)) <==>
            (n > 0 && SpellsMarker(b, 0)) || exists i: nat :: SpellsMarker(b[n..], i)
  {
    if i: nat :| SpellsMarker(b, i) {
      if i >= n {
        assert SpellsMarker(b[n..], i - n);
      }
    }
    if i: nat :| SpellsMarker(b[n..], i) {
      assert SpellsMarker(b, n + i);
    }
  }

  lemma StepContinues(b: seq<Byte>)
    requires b != []
    ensures var s := StepOf(b);
            var n := if s.Truncated? then |b| else s.len;
            1 <= n <= |b| && forall k :: 1 <= k < n ==> Continuation(b[k])
  {
    StepMeaning(b);
  }

  /** Encoding what was decoded never lengthens the bytes, and gives them back iff none spell a marker. */
  lemma {:induction false} EncodeAfterDecode(b: seq<Byte>)
    ensures |Encode(Decode(b))| <= |b|
    ensures Encode(Decode(b)) == b <==> forall i: nat :: !SpellsMarker(b, i)
    ensures Encode(Decode(b)) != b ==> |Encode(Decode(b))| < |b|
    decreases |b|
  {
    if b != [] {
      StepMeaning(b);
      StepContinues(b);
      match StepOf(b)
      case Good(n) => EncodeGood(b, n);
      case Bad(n) => EncodeBad(b, n);
      case Truncated =>
        EncodeSpan(b);
        SpellsLater(b, |b|);
        assert b[|b|..] == [];
    }
  }

  lemma SpellsInPrefix(b: seq<Byte>, n: nat)
    requires n <= |b| && IsChar(b[..n])
    ensures SpellsMarker(b, 0) <==> SpellsMarker(b[..n], 0)
  {
  }

  lemma {:induction false} EncodeGood(b: seq<Byte>, n: nat)
    requires b != [] && StepOf(b) == Good(n) && 1 <= n <= |b| && IsChar(b[..n])
    requires forall k :: 1 <= k < n ==> Continuation(b[k])
    ensures |Encode(Decode(b))| <= |b|
    ensures Encode(Decode(b)) == b <==> forall i: nat :: !SpellsMarker(b, i)
    ensures Encode(Decode(b)) != b ==> |Encode(Decode(b))| < |b|
    decreases |b|, 0
  {
    hide Decode, Encode, CharOf;
    DecodeStep(b);
    var c, rest := CharOf(b[..n]), Decode(b[n..]);
    EncodeCons(c, rest);
    EncodeAfterDecode(b[n..]);
    SpelledMarker(b[..n]);
    SpellsLater(b, n);
    SpellsInPrefix(b, n);
    hide SpellsMarker, StepOf, IsChar;
    assert b == b[..n] + b[n..];
    if !IsMarker(c) {
      BytesOfCharOf(b[..n]);
      SameTail(b[..n], Encode(rest), b[n..]);
    }
  }

  lemma {:induction false} EncodeBad(b: seq<Byte>, n: nat)
    requires b != [] && StepOf(b) == Bad(n) && 1 <= n <= |b| && b[0] >= 0x80
    requires forall k :: 1 <= k < n ==> Continuation(b[k])
    ensures |Encode(Decode(b))| <= |b|
    ensures Encode(Decode(b)) == b <==> forall i: nat :: !SpellsMarker(b, i)
    ensures Encode(Decode(b)) != b ==> |Encode(Decode(b))| < |b|
    decreases |b|, 0
  {
    hide Decode, Encode, Span;
    DecodeStep(b);
    var rest := Decode(b[n..]);
    EncodeConcat(Span(b[..n]), rest);
    EncodeSpan(b[..n]);
    EncodeAfterDecode(b[n..]);
    SpellsLater(b, n);
    assert b == b[..n] + b[n..];
    SameTail(b[..n], Encode(rest), b[n..]);
  }

  lemma SameTail(a: seq<Byte>, s: seq<Byte>, t: seq<Byte>)
    ensures a + s == a + t <==> s == t
  {
    assert (a + s)[|a|..] == s && (a + t)[|a|..] == t;
  }

  // ----- text to bytes and back ----------------------------------------------------------------------

  /** The bytes of a run of markers. */
  predicate AllMarkers(s: string) {
    forall i :: 0 <= i < |s| ==> IsMarker(s[i])
  }

  function MarkerBytes(s: string): (b: seq<Byte>)
    requires AllMarkers(s)
    ensures |b| == |s|
  {
    seq(|s|, i requires 0 <= i < |s| => MarkerByte(s[i]).value)
  }

  /** `n` markers from `i` on that together are the bytes of one character. */
  predicate ReadsAsText(s: string, i: nat, n: nat) {
    i + n <= |s| && AllMarkers(s[i..i + n]) && IsChar(MarkerBytes(s[i..i + n]))
  }

  function MarkerCount(s: string): nat {
    if s == "" then 0 else (if IsMarker(s[0]) then 1 else 0) + MarkerCount(s[1..])
  }

  lemma {:induction false} CountConcat(s: string, t: string)
    ensures MarkerCount(s + t) == MarkerCount(s) + MarkerCount(t)
  {
    if s == "" {
      assert s + t == t;
    } else {
      CountConcat(s[1..], t);
      assert (s + t)[1..] == s[1..] + t;
    }
  }

  lemma {:induction false} CountAll(s: string)
    requires AllMarkers(s)
    ensures MarkerCount(s) == |s|
  {
    if s != "" {
      CountAll(s[1..]);
    }
  }

  /** Continuation bytes come from markers only, one each. */
  lemma {:induction false} ContinuationsAreMarkers(s: string, k: nat)
    requires k <= |Encode(s)| && forall i :: 0 <= i < k ==> Continuation(Encode(s)[i])
    ensures k <= |s| && AllMarkers(s[..k]) && MarkerBytes(s[..k]) == Encode(s)[..k]
    ensures Encode(s)[k..] == Encode(s[k..])
    decreases k
  {
    if k > 0 {
      var rest := Encode(s[1..]);
      assert Encode(s) == CharBytes(s[0]) + rest;
      assert Encode(s)[0] == CharBytes(s[0])[0];
      assert IsMarker(s[0]);
      assert Encode(s)[1..] == rest;
      forall i | 0 <= i < k - 1
        ensures Continuation(rest[i])
      {
        assert rest[i] == Encode(s)[i + 1];
      }
      ContinuationsAreMarkers(s[1..], k - 1);
      assert s[..k] == [s[0]] + s[1..][..k - 1];
      assert s[1..][k - 1..] == s[k..];
      assert Encode(s)[k..] == rest[k - 1..];
      assert Encode(s)[..k] == [Encode(s)[0]] + rest[..k - 1];
    } else {
      assert s[0..] == s;
    }
  }

  /** When a marker starts the text, the bytes of one step are that marker's and those of markers after it. */
  lemma MarkersOfStep(s: string, n: nat)
    requires s != "" && IsMarker(s[0]) && 1 <= n <= |Encode(s)|
    requires forall i :: 1 <= i < n ==> Continuation(Encode(s)[i])
    ensures n <= |s| && AllMarkers(s[..n]) && MarkerBytes(s[..n]) == Encode(s)[..n]
    ensures Encode(s)[n..] == Encode(s[n..])
  {
    hide Encode;
    var rest := Encode(s[1..]);
    assert s == [s[0]] + s[1..];
    EncodeCons(s[0], s[1..]);
    forall i | 0 <= i < n - 1
      ensures Continuation(rest[i])
    {
      assert rest[i] == Encode(s)[i + 1];
    }
    ContinuationsAreMarkers(s[1..], n - 1);
    MarkersCons(s, n, Encode(s), rest);
  }

  lemma MarkersCons(s: string, n: nat, b: seq<Byte>, rest: seq<Byte>)
    requires 1 <= n <= |s| && IsMarker(s[0]) && b == [MarkerByte(s[0]).value] + rest && n <= |b|
    requires AllMarkers(s[1..][..n - 1]) && MarkerBytes(s[1..][..n - 1]) == rest[..n - 1]
    ensures AllMarkers(s[..n]) && MarkerBytes(s[..n]) == b[..n]
    ensures b[n..] == rest[n - 1..] && s[1..][n - 1..] == s[n..]
  {
    assert s[..n] == [s[0]] + s[1..][..n - 1];
    assert b[..n] == [b[0]] + rest[..n - 1];
  }

  lemma SpanOfMarkers(s: string)
    requires AllMarkers(s) && forall i :: 0 <= i < |s| ==> MarkerBytes(s)[i] >= 0x80
    ensures Span(MarkerBytes(s)) == s
  {
  }

  /** A window that does not start inside the first `n` characters lies after them. */
  lemma TextLater(s: string, n: nat)
    requires n <= |s|
    requires forall i: nat, m: nat :: i < n ==> !ReadsAsText(s, i, m)
    ensures (exists i: nat, m: nat :: ReadsAsText(s, i, m)) <==>
            (exists i: nat, m: nat :: ReadsAsText(s[n..], i, m))
  {
    if i: nat, m: nat :| ReadsAsText(s, i, m) {
      assert s[n..][i - n..i - n + m] == s[i..i + m];
      assert ReadsAsText(s[n..], i - n, m);
    }
    if i: nat, m: nat :| ReadsAsText(s[n..], i, m) {
      assert s[n..][i..i + m] == s[n + i..n + i + m];
      assert ReadsAsText(s, n + i, m);
    }
  }

  lemma WindowStartsMarked(s: string, i: nat, m: nat)
    requires ReadsAsText(s, i, m)
    ensures i < |s| && IsMarker(s[i])
  {
    assert s[i..i + m][0] == s[i];
  }

  lemma FirstByteOfWindow(s: string, i: nat, m: nat, n: nat)
    requires i < n <= |s| && AllMarkers(s[..n]) && ReadsAsText(s, i, m)
    ensures !Continuation(MarkerBytes(s[..n])[i])
  {
    assert MarkerBytes(s[i..i + m])[0] == MarkerBytes(s[..n])[i];
  }

  /** Markers whose bytes are not first bytes begin no character. */
  lemma NoTextInside(s: string, n: nat)
    requires n <= |s| && AllMarkers(s[..n])
    requires forall i :: 1 <= i < n ==> Continuation(MarkerBytes(s[..n])[i])
    ensures forall i: nat, m: nat :: 1 <= i < n ==> !ReadsAsText(s, i, m)
  {
    forall i: nat, m: nat | 1 <= i < n
      ensures !ReadsAsText(s, i, m)
    {
      if ReadsAsText(s, i, m) {
        FirstByteOfWindow(s, i, m, n);
      }
    }
  }

  /** If the first markers read as a character, the first step reads just that character. */
  lemma TextAtStart(s: string, m: nat)
    requires s != "" && ReadsAsText(s, 0, m)
    ensures m <= |Encode(s)| && StepOf(Encode(s)) == Good(m)
  {
    var b := MarkerBytes(s[..m]);
    assert s[0..m] == s[..m] && s == s[..m] + s[m..];
    EncodeConcat(s[..m], s[m..]);
    EncodeMarkers(s[..m]);
    assert Encode(s)[..m] == b;
    StepMeaning(Encode(s));
  }

  lemma {:induction false} EncodeMarkers(s: string)
    requires AllMarkers(s)
    ensures Encode(s) == MarkerBytes(s)
  {
    if s != "" {
      EncodeMarkers(s[1..]);
    }
  }

  ghost predicate SomeText(s: string) {
    exists i: nat, m: nat :: ReadsAsText(s, i, m)
  }

  /** Decoding what was encoded never adds markers, and gives the text back iff no markers read as text. */
  lemma {:induction false} DecodeAfterEncode(s: string)
    ensures Decode(Encode(s)) == s <==> !SomeText(s)
    ensures MarkerCount(Decode(Encode(s))) <= MarkerCount(s)
    ensures SomeText(s) ==> MarkerCount(Decode(Encode(s))) < MarkerCount(s)
    decreases |s|
  {
    if s != "" {
      if IsMarker(s[0]) {
        DecodeMarker(s);
      } else {
        DecodeChar(s);
      }
    }
  }

  lemma {:induction false} DecodeChar(s: string)
    requires s != "" && !IsMarker(s[0])
    ensures Decode(Encode(s)) == s <==> !SomeText(s)
    ensures MarkerCount(Decode(Encode(s))) <= MarkerCount(s)
    ensures SomeText(s) ==> MarkerCount(Decode(Encode(s))) < MarkerCount(s)
    decreases |s|, 0
  {
    var b, rest := BytesOf(s[0]), Encode(s[1..]);
    assert Encode(s) == b + rest;
    assert (b + rest)[..|b|] == b && (b + rest)[|b|..] == rest;
    StepMeaning(b + rest);
    CharOfBytesOf(s[0]);
    var d := Decode(rest);
    assert Decode(Encode(s)) == [s[0]] + d;
    assert ([s[0]] + d)[1..] == d && s == [s[0]] + s[1..];
    DecodeAfterEncode(s[1..]);
    forall m: nat
      ensures !ReadsAsText(s, 0, m)
    {
      if ReadsAsText(s, 0, m) {
        WindowStartsMarked(s, 0, m);
      }
    }
    TextLater(s, 1);
  }

  lemma {:induction false} DecodeMarker(s: string)
    requires s != "" && IsMarker(s[0])
    ensures Decode(Encode(s)) == s <==> !SomeText(s)
    ensures MarkerCount(Decode(Encode(s))) <= MarkerCount(s)
    ensures SomeText(s) ==> MarkerCount(Decode(Encode(s))) < MarkerCount(s)
    decreases |s|, 0
  {
    hide Decode, Encode, MarkerCount, StepOf, IsChar;
    var b := Encode(s);
    EncodeStart(s);
    StepContinues(b);
    DecodeStep(b);
    var step := StepOf(b);
    var n := if step.Truncated? then |b| else step.len;
    MarkersOfStep(s, n);
    DecodeAfterEncode(s[n..]);
    var d := Decode(b[n..]);
    if step.Good? {
      DecodeMarkersAsText(s, n, CharOf(b[..n]), d);
    } else {
      StepMeaning(b);
      SpanOfMarkers(s[..n]);
      assert Decode(b) == s[..n] + d by {
        if step.Truncated? {
          assert b[..n] == b && b[n..] == [];
          DecodeNothing();
        }
      }
      NoTextAtMarkers(s, n);
      DecodeMarkersKept(s, n, d);
    }
  }

  lemma EncodeStart(s: string)
    requires s != ""
    ensures Encode(s) != []
  {
  }

  lemma DecodeMarkersAsText(s: string, n: nat, c: char, d: string)
    requires 1 <= n <= |s| && AllMarkers(s[..n]) && IsChar(MarkerBytes(s[..n])) && c == CharOf(MarkerBytes(s[..n]))
    requires MarkerCount(d) <= MarkerCount(s[n..])
    ensures SomeText(s) && [c] + d != s
    ensures MarkerCount([c] + d) < MarkerCount(s)
  {
    assert s[0..n] == s[..n];
    assert ReadsAsText(s, 0, n);
    assert s == s[..n] + s[n..];
    CountConcat(s[..n], s[n..]);
    CountAll(s[..n]);
    CountConcat([c], d);
    assert [c][1..] == "";
    SpelledMarker(MarkerBytes(s[..n]));
  }

  lemma NoTextAtMarkers(s: string, n: nat)
    requires s != "" && 1 <= n <= |s| && AllMarkers(s[..n]) && Encode(s) != [] && !StepOf(Encode(s)).Good?
    requires forall i :: 1 <= i < n ==> Continuation(MarkerBytes(s[..n])[i])
    ensures SomeText(s) <==> SomeText(s[n..])
  {
    NoTextInside(s, n);
    forall m: nat
      ensures !ReadsAsText(s, 0, m)
    {
      if ReadsAsText(s, 0, m) {
        TextAtStart(s, m);
      }
    }
    TextLater(s, n);
  }

  lemma DecodeMarkersKept(s: string, n: nat, d: string)
    requires n <= |s|
    ensures s[..n] + d == s <==> d == s[n..]
    ensures MarkerCount(s) - MarkerCount(s[n..]) == MarkerCount(s[..n] + d) - MarkerCount(d)
  {
    assert (s[..n] + d)[n..] == d;
    assert s == s[..n] + s[n..];
    CountConcat(s[..n], s[n..]);
    CountConcat(s[..n], d);
  }

  /** Text without markers always survives. */
  lemma MarkerFreeTextSurvives(s: string)
    requires forall i :: 0 <= i < |s| ==> !IsMarker(s[i])
    ensures Decode(Encode(s)) == s
  {
    DecodeAfterEncode(s);
    if i: nat, m: nat :| ReadsAsText(s, i, m) {
      WindowStartsMarked(s, i, m);
    }
  }

  /** ASCII never becomes a marker: invalid spans hold no ASCII byte, so the pass-through never acts. */
  lemma SpansHoldNoAscii(b: seq<Byte>)
    requires b != [] && !StepOf(b).Good?
    ensures var s := StepOf(b);
            forall i :: 0 <= i < (if s.Truncated? then |b| else s.len) ==> b[i] >= 0x80
  {
    StepMeaning(b);
  }

  /** The byte `b` is carried by the character with code `0xE000 + b`. */
  lemma CarriedByte(b: Byte)
    ensures Encode([(0xE000 + b) as char]) == [b]
    ensures b >= 0x80 ==> Decode([b]) == [(0xE000 + b) as char]
  {
    var c := (0xE000 + b) as char;
    assert [c][1..] == "";
    assert CharBytes(c) == [b];
    EncodeNothing();
    if b >= 0x80 {
      assert [b][..1] == [b] && [b][1..] == [];
      assert !StepOf([b]).Good?;
      assert Span([b]) == [c];
      assert Decode([]) == "";
    }
  }
}
