/** What `printf %q` writes, character by character: which stay as they are, and how the others look. */
module PrintfSpelled {
  import opened Sequences
  import opened Utf8Codec
  import opened ShellBytes
  import opened PrintfQuote

  /** Never quoted: letters, digits, eleven marks, and whatever is not ASCII. */
  predicate Bare(c: char) {
    var n := c as int;
    n >= 128 || 97 <= n <= 122 || 65 <= n <= 90 || 48 <= n <= 57 || c in "@%_+:,./=-"
  }

  /** Codes 0 to 31, and 127. */
  predicate Controlling(c: char) {
    c as int <= 31 || c as int == 127
  }

  predicate Carrying(c: char) {
    0xE000 <= c as int <= 0xE0FF
  }

  ghost predicate NoneCarries(s: string) {
    forall i :: 0 <= i < |s| ==> !Carrying(s[i])
  }

  lemma CarryingIsMarker(c: char)
    ensures Carrying(c) <==> IsMarker(c)
  {
  }

  // ----- with backslashes -----------------------------------------------------------------------------

  function Slashed(s: string): string {
    if s == "" then "" else (if Bare(s[0]) then [s[0]] else ['\\', s[0]]) + Slashed(s[1..])
  }

  lemma SafeIsBare(c: char)
    ensures IsSafe(c) || !IsAscii(c) <==> Bare(c)
  {
  }

  lemma {:induction false} BackslashedIsSlashed(s: string)
    ensures Backslashed(s) == Slashed(s)
  {
    hide IsSafe, IsAscii, Bare;
    if s != "" {
      SafeIsBare(s[0]);
      BackslashedIsSlashed(s[1..]);
    }
  }

  lemma {:induction false} SlashedKeeps(s: string)
    ensures |Slashed(s)| >= |s|
    ensures Slashed(s) == s <==> forall i :: 0 <= i < |s| ==> Bare(s[i])
  {
    hide Bare;
    if s != "" {
      SlashedKeeps(s[1..]);
      HeadAndTail(s);
      assert forall i :: 0 < i < |s| ==> s[i] == s[1..][i - 1];
      if Bare(s[0]) {
        Prepended(s[0], Slashed(s[1..]));
      } else {
        assert |Slashed(s)| > |s|;
      }
    }
  }

  /**
   Text without control characters and without carried bytes: every character that is not bare gets a
   backslash; the text is unchanged exactly if all are bare.
   */
  lemma PlainTextIsSlashed(s: string)
    requires s != "" && NoneCarries(s) && forall i :: 0 <= i < |s| ==> !Controlling(s[i])
    ensures Quote(s) == Slashed(s)
    ensures Quote(s) == s <==> forall i :: 0 <= i < |s| ==> Bare(s[i])
  {
    hide Bare, Backslashed, Slashed, Body;
    forall i | 0 <= i < |s|
      ensures !IsControl(s[i]) && !IsMarker(s[i]) && (IsSafe(s[i]) ==> Bare(s[i]))
    {
      CarryingIsMarker(s[i]);
      SafeIsBare(s[i]);
    }
    BackslashedIsSlashed(s);
    SlashedKeeps(s);
  }

  // ----- between `$'` and `'` ----------------------------------------------------------------------------

  function ThreeDigits(n: nat): string
    requires n < 512
  {
    ["01234567"[n / 64], "01234567"[n / 8 % 8], "01234567"[n % 8]]
  }

  function Inside(c: char): string {
    match c as int
    case 7 => "\\a"
    case 8 => "\\b"
    case 9 => "\\t"
    case 10 => "\\n"
    case 11 => "\\v"
    case 12 => "\\f"
    case 13 => "\\r"
    case 27 => "\\E"
    case 39 => "\\'"
    case 92 => "\\\\"
    case 127 => "\\177"
    case n => if n <= 31 then "\\" + ThreeDigits(n) else [c]
  }

  function AllInside(s: string): string {
    if s == "" then "" else Inside(s[0]) + AllInside(s[1..])
  }

  lemma OctalIs(b: Byte)
    ensures Octal(b) == "\\" + ThreeDigits(b)
  {
  }

  lemma CharTextIsInside(c: char)
    ensures CharText(c) == Inside(c)
    ensures Controlling(c) ==> Inside(c)[0] == '\\'
  {
    if c as int < 256 {
      OctalIs(c as int);
    }
    assert ThreeDigits(127) == "177";
  }

  lemma {:induction false} BodyIsInside(s: string)
    requires NoneCarries(s)
    ensures Body(s) == AllInside(s)
    ensures (exists i :: 0 <= i < |s| && Controlling(s[i])) ==> '\\' in Body(s)
  {
    hide CharText, Inside, IsMarker, Controlling, Carrying;
    if s != "" {
      CarryingIsMarker(s[0]);
      CharTextIsInside(s[0]);
      BodyIsInside(s[1..]);
      InTheText(CharText(s[0]), Body(s[1..]), '\\');
      if exists i :: 0 < i < |s| && Controlling(s[i]) {
        var i :| 0 < i < |s| && Controlling(s[i]);
        assert Controlling(s[1..][i - 1]);
      }
    }
  }

  lemma InTheText(a: string, b: string, c: char)
    ensures c in a || c in b ==> c in a + b
    ensures a != "" && a[0] == c ==> c in a + b
  {
  }

  /** Text with a control character, and without carried bytes, is written in `$'…'`. */
  lemma ControlTextIsDollarQuoted(s: string)
    requires NoneCarries(s) && exists i :: 0 <= i < |s| && Controlling(s[i])
    ensures Quote(s) == "$'" + AllInside(s) + "'"
  {
    hide Body, AllInside, NeedsQuoting;
    BodyIsInside(s);
    var i :| 0 <= i < |s| && Controlling(s[i]);
    assert IsControl(s[i]);
    assert s != "" && HasSpecial(s);
    assert !AllPrintable(Body(s));
  }

  // ----- carried bytes --------------------------------------------------------------------------------

  function Carrier(b: Byte): char {
    (0xE000 + b) as char
  }

  /** The characters that carry the bytes. */
  function Carriers(b: seq<Byte>): string {
    if b == [] then "" else [Carrier(b[0])] + Carriers(b[1..])
  }

  lemma {:induction false} CarriersCarry(b: seq<Byte>)
    ensures |Carriers(b)| == |b| && forall i :: 0 <= i < |b| ==> IsMarker(Carriers(b)[i])
    ensures RunBytes(Carriers(b)) == b
  {
    if b != [] {
      CarriersCarry(b[1..]);
      Prepended(Carrier(b[0]), Carriers(b[1..]));
      HeadAndTail(b);
    }
  }

  /** Text that only carries bytes is the run of them. */
  lemma CarriersQuote(b: seq<Byte>)
    requires b != []
    ensures Body(Carriers(b)) == RunText(b) && HasSpecial(Carriers(b)) && Carriers(b) != ""
  {
    hide RunText, RunBytes, IsMarker;
    var s := Carriers(b);
    CarriersCarry(b);
    RunLengthIs(s, |s|);
    assert s[..|s|] == s && s[|s|..] == "";
    RunTextEnds();
    BodyOpens(s, 0);
    assert s[0..] == s;
    assert RunText(b) + "" == RunText(b);
  }

  lemma WholeWindow(b: seq<Byte>)
    requires 1 <= |b| <= 4 && Decodes(b)
    ensures RunText(b) == CharText(FirstChar(b))
  {
    hide CharText, FromUtf8, FirstChar;
    assert b[..|b|] == b && b[|b|..] == [];
    assert Window(b, |b|) == |b|;
    assert Window(b, 4) == |b| by {
      assert Window(b, 4) == if |b| == 4 then 4 else Window(b, 3);
      assert |b| <= 3 ==> Window(b, 3) == if |b| == 3 then 3 else Window(b, 2);
      assert |b| <= 2 ==> Window(b, 2) == if |b| == 2 then 2 else Window(b, 1);
    }
    RunTextEnds();
    assert RunText(b) == CharText(FirstChar(b)) + RunText(b[|b|..]);
  }

  lemma EncodingDecodes(c: char)
    ensures BytesOf(c) != [] && FromUtf8(BytesOf(c)).Valid? && FirstChar(BytesOf(c)) == c
  {
    hide BytesOf, CharOf;
    var b := BytesOf(c);
    StepMeaning(b);
    assert b[..|b|] == b && b[|b|..] == [];
    assert StepOf(b) == Good(|b|);
    CharOfBytesOf(c);
  }

  /** A character that is not ASCII, carried as its bytes, is written as it is and needs no quotes. */
  lemma CarriedTextIsBare(c: char)
    requires c as int >= 0x80
    ensures Quote(Carriers(BytesOf(c))) == [c]
  {
    hide Carriers, BytesOf, Body, HasSpecial;
    var b := BytesOf(c);
    EncodingDecodes(c);
    assert |b| >= 2;
    WholeWindow(b);
    CarriersQuote(b);
    assert CharText(c) == [c];
    assert AllPrintable([c]) && !NeedsQuoting([c]);
  }

  /** How a single carried byte is written; it is never taken for white space. */
  function ByteText(b: Byte): string {
    var c := b as char;
    if b <= 32 || b >= 127 then "$'\\" + ThreeDigits(b) + "'"
    else if b == 39 then "$'\\''"
    else if b == 92 then "$'\\\\'"
    else if Bare(c) then [c]
    else "$'" + [c] + "'"
  }

  lemma CarriedByteIs(b: Byte)
    ensures Quote([Carrier(b)]) == ByteText(b)
  {
    hide Body, Octal, ThreeDigits, RunText, HasSpecial;
    CarriersQuote([b]);
    assert [b][1..] == [];
    assert Carriers([b]) == [Carrier(b)];
    OctalIs(b);
    if b <= 32 || b >= 127 {
      LoneByte(b);
      assert Octal(b)[0] == '\\' by {
        BackslashFirst(b);
      }
      assert !AllPrintable(Octal(b));
    } else {
      LoneGraphic(b);
      GraphicText(b);
    }
  }

  lemma BackslashFirst(b: Byte)
    ensures Octal(b)[0] == '\\'
  {
  }

  lemma LoneGraphic(b: Byte)
    requires 33 <= b <= 126
    ensures RunText([b]) == Inside(b as char)
  {
    hide CharText, Inside;
    assert [b][..1] == [b] && [b][1..] == [];
    assert FromUtf8([b]).Valid? && FirstChar([b]) == b as char;
    WholeWindow([b]);
    CharTextIsInside(b as char);
  }

  lemma GraphicText(b: Byte)
    requires 33 <= b <= 126
    ensures var t := Inside(b as char);
            (if AllPrintable(t) && t != "" && !NeedsQuoting(t) then t else "$'" + t + "'") == ByteText(b)
  {
    var c := b as char;
    var t := Inside(c);
    SafeIsBare(c);
    if b == 39 || b == 92 {
      assert t[0] == '\\';
    } else {
      assert t == [c];
      assert AllPrintable(t);
      assert NeedsQuoting(t) <==> !IsSafe(c) by {
        assert t[0] == c;
      }
    }
  }

  lemma LoneByte(b: Byte)
    requires b <= 32 || b >= 127
    ensures RunText([b]) == Octal(b)
  {
    hide CharText, Octal;
    assert [b][1..] == [] && [b][..1] == [b];
    assert !Decodes([b]);
    assert Window([b], 4) == Window([b], 3) == Window([b], 2) == Window([b], 1) == Window([b], 0) == 0;
    assert RunText([b]) == Octal(b) + RunText([]);
  }
}
