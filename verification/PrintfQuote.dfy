/** `printf %q`: text quoted so that the shell reads it back as one word. */
module PrintfQuote {
  import opened Utf8Codec
  import opened ShellBytes

  predicate IsControl(c: char) {
    c as int < 0x20 || c as int == 0x7F
  }

  predicate IsAscii(c: char) {
    c as int < 0x80
  }

  predicate IsGraphic(c: char) {
    0x21 <= c as int <= 0x7E
  }

  /** What never needs quoting. */
  predicate IsSafe(c: char) {
    'a' <= c <= 'z' || 'A' <= c <= 'Z' || '0' <= c <= '9' || c in "@%_+:,./=-"
  }

  // ----- what is written --------------------------------------------------------------------------

  function OctalDigit(d: int): char
    requires 0 <= d < 8
  {
    "01234567"[d]
  }

  function Octal(b: Byte): string {
    ['\\', OctalDigit(b / 64), OctalDigit(b / 8 % 8), OctalDigit(b % 8)]
  }

  function CharText(c: char): (t: string)
    ensures t != ""
  {
    if c == '\'' then "\\'"
    else if c == '\\' then "\\\\"
    else if c == '\n' then "\\n"
    else if c == '\t' then "\\t"
    else if c == '\r' then "\\r"
    else if c as int == 0x07 then "\\a"
    else if c as int == 0x08 then "\\b"
    else if c as int == 0x0C then "\\f"
    else if c as int == 0x0B then "\\v"
    else if c as int == 0x1B then "\\E"
    else if IsControl(c) then Octal(c as int)
    else [c]
  }

  /** The first character of a byte string that is valid UTF-8. */
  function FirstChar(b: seq<Byte>): char
    requires b != [] && FromUtf8(b).Valid?
  {
    StepMeaning(b);
    CharOf(b[..StepOf(b).len])
  }

  /** The bytes are valid UTF-8 and begin with a character that is written as it is. */
  predicate Decodes(b: seq<Byte>) {
    b != [] && FromUtf8(b).Valid? && (|b| > 1 || !IsAscii(FirstChar(b)) || IsGraphic(FirstChar(b)))
  }

  /** The longest run of at most `len` bytes that decodes; 0 if none does. */
  function Window(b: seq<Byte>, len: nat): (w: nat)
    ensures w <= |b| && w <= len
    ensures w > 0 ==> Decodes(b[..w])
  {
    if len == 0 then 0
    else if len <= |b| && Decodes(b[..len]) then len
    else Window(b, len - 1)
  }

  /** A run of marked bytes. */
  function RunText(b: seq<Byte>): string
    decreases |b|
  {
    if b == [] then ""
    else
      var w := Window(b, 4);
      if w > 0 then CharText(FirstChar(b[..w])) + RunText(b[w..]) else Octal(b[0]) + RunText(b[1..])
  }

  function RunLength(s: string): (n: nat)
    ensures n <= |s| && (s != "" && IsMarker(s[0]) ==> n >= 1)
    ensures forall i :: 0 <= i < n ==> IsMarker(s[i])
    ensures n < |s| ==> !IsMarker(s[n])
  {
    if s == "" || !IsMarker(s[0]) then 0 else 1 + RunLength(s[1..])
  }

  function RunBytes(s: string): (b: seq<Byte>)
    requires forall i :: 0 <= i < |s| ==> IsMarker(s[i])
    ensures |b| == |s|
  {
    if s == "" then []
    else
      assert IsMarker(s[0]);
      [MarkerByte(s[0]).value] + RunBytes(s[1..])
  }

  /** What stands between `$'` and `'`. */
  function Body(s: string): string
    decreases |s|
  {
    if s == "" then ""
    else if IsMarker(s[0]) then
      var n := RunLength(s);
      RunText(RunBytes(s[..n])) + Body(s[n..])
    else CharText(s[0]) + Body(s[1..])
  }

  predicate HasSpecial(s: string) {
    exists i :: 0 <= i < |s| && (IsControl(s[i]) || IsMarker(s[i]))
  }

  predicate AllPrintable(s: string) {
    forall i :: 0 <= i < |s| ==> !IsControl(s[i]) && s[i] != '\\'
  }

  predicate NeedsQuoting(s: string) {
    exists i :: 0 <= i < |s| && IsAscii(s[i]) && !IsSafe(s[i])
  }

  predicate AllSafe(s: string) {
    forall i :: 0 <= i < |s| ==> IsSafe(s[i])
  }

  function Backslashed(s: string): string {
    if s == "" then ""
    else (if IsSafe(s[0]) || !IsAscii(s[0]) then [s[0]] else ['\\', s[0]]) + Backslashed(s[1..])
  }

  function Quote(s: string): string {
    if s == "" then "''"
    else if HasSpecial(s) then
      if AllPrintable(Body(s)) && Body(s) != "" && !NeedsQuoting(Body(s)) then Body(s) else "$'" + Body(s) + "'"
    else if AllSafe(s) then s
    else Backslashed(s)
  }

  // ----- the loops ----------------------------------------------------------------------------------

  method PrintfShellQuoteChar(c: char, before: string) returns (out: string)
    ensures out == before + CharText(c)
  {
    if c == '\'' {
      out := before + "\\'";
    } else if c == '\\' {
      out := before + "\\\\";
    } else if c == '\n' {
      out := before + "\\n";
    } else if c == '\t' {
      out := before + "\\t";
    } else if c == '\r' {
      out := before + "\\r";
    } else if c as int == 0x07 {
      out := before + "\\a";
    } else if c as int == 0x08 {
      out := before + "\\b";
    } else if c as int == 0x0C {
      out := before + "\\f";
    } else if c as int == 0x0B {
      out := before + "\\v";
    } else if c as int == 0x1B {
      out := before + "\\E";
    } else if IsControl(c) {
      out := before + Octal(c as int);
    } else {
      out := before + [c];
    }
  }

  lemma RunTextOpens(b: seq<Byte>, pos: nat)
    requires pos < |b|
    ensures var t := b[pos..]; var w := Window(t, 4);
            && pos + w <= |b|
            && RunText(t) ==
               if w > 0 then CharText(FirstChar(t[..w])) + RunText(b[pos + w..])
               else Octal(b[pos]) + RunText(b[pos + 1..])
  {
    hide CharText, Decodes, Octal, FirstChar, Window;
    var t, w := b[pos..], Window(b[pos..], 4);
    assert t[w..] == b[pos + w..] && t[1..] == b[pos + 1..];
  }

  /** Tries windows of four bytes down to one. */
  method FindWindow(raw: seq<Byte>, pos: nat) returns (len: nat)
    requires pos < |raw|
    ensures len == Window(raw[pos..], 4)
  {
    hide Decodes;
    len := 4;
    while len >= 1
      invariant len <= 4
      invariant Window(raw[pos..], 4) == Window(raw[pos..], len)
      decreases len
    {
      if pos + len <= |raw| {
        assert raw[pos..pos + len] == raw[pos..][..len];
        if Decodes(raw[pos..pos + len]) {
          break;
        }
      }
      len := len - 1;
    }
  }

  /** A run of marked bytes: what decodes is written as text, the other bytes in octal. */
  method QuoteRun(raw: seq<Byte>, before: string) returns (out: string)
    ensures out == before + RunText(raw)
  {
    hide RunText, CharText, Octal, FirstChar, FromUtf8, Window;
    out := before;
    var pos: nat := 0;
    assert raw[0..] == raw;
    while pos < |raw|
      invariant pos <= |raw|
      invariant out + RunText(raw[pos..]) == before + RunText(raw)
    {
      RunTextOpens(raw, pos);
      var len := FindWindow(raw, pos);
      if len > 0 {
        assert raw[pos..pos + len] == raw[pos..][..len];
        out := PrintfShellQuoteChar(FirstChar(raw[pos..pos + len]), out);
        pos := pos + len;
      } else {
        out := out + Octal(raw[pos]);
        pos := pos + 1;
      }
    }
    RunTextEnds();
    assert raw[|raw|..] == [];
  }

  lemma RunTextEnds()
    ensures RunText([]) == "" && Body("") == "" && RunBytes("") == []
  {
  }

  lemma {:induction false} RunBytesGrow(s: string, c: char)
    requires forall i :: 0 <= i < |s| ==> IsMarker(s[i])
    requires IsMarker(c)
    ensures RunBytes(s + [c]) == RunBytes(s) + [MarkerByte(c).value]
  {
    if s != "" {
      assert (s + [c])[1..] == s[1..] + [c];
      RunBytesGrow(s[1..], c);
    }
  }

  lemma {:induction false} RunLengthIs(s: string, n: nat)
    requires n <= |s| && (forall i :: 0 <= i < n ==> IsMarker(s[i])) && (n < |s| ==> !IsMarker(s[n]))
    ensures RunLength(s) == n
  {
    if n > 0 {
      RunLengthIs(s[1..], n - 1);
    }
  }

  lemma BodyOpens(s: string, i: nat)
    requires i < |s|
    ensures var t := s[i..];
            Body(t) ==
            if IsMarker(s[i]) then RunText(RunBytes(t[..RunLength(t)])) + Body(s[i + RunLength(t)..])
            else CharText(s[i]) + Body(s[i + 1..])
  {
    hide CharText, RunText, RunBytes, RunLength;
    var t := s[i..];
    assert t[1..] == s[i + 1..];
    if IsMarker(s[i]) {
      assert t[RunLength(t)..] == s[i + RunLength(t)..];
    }
  }

  method QuoteBody(s: string) returns (out: string)
    ensures out == Body(s)
  {
    hide Body, RunText, CharText, RunBytes, RunLength;
    out := "";
    var i: nat := 0;
    assert s[0..] == s;
    while i < |s|
      invariant i <= |s|
      invariant out + Body(s[i..]) == Body(s)
    {
      BodyOpens(s, i);
      if IsMarker(s[i]) {
        var raw: seq<Byte> := [];
        ghost var start := i;
        RunTextEnds();
        while i < |s| && IsMarker(s[i])
          invariant start <= i <= |s|
          invariant forall k :: start <= k < i ==> IsMarker(s[k])
          invariant raw == RunBytes(s[start..i])
        {
          RunBytesGrow(s[start..i], s[i]);
          assert s[start..i] + [s[i]] == s[start..i + 1];
          raw := raw + [MarkerByte(s[i]).value];
          i := i + 1;
        }
        RunLengthIs(s[start..], i - start);
        assert s[start..][..i - start] == s[start..i];
        out := QuoteRun(raw, out);
      } else {
        out := PrintfShellQuoteChar(s[i], out);
        i := i + 1;
      }
    }
    RunTextEnds();
    assert s[|s|..] == "";
  }

  method PrintfShellQuote(s: string) returns (r: string)
    ensures r == Quote(s)
  {
    hide Body, Backslashed;
    if s == "" {
      return "''";
    }
    if HasSpecial(s) {
      var out := "$'";
      var body := QuoteBody(s);
      out := out + body + "'";
      var inner := out[2..|out| - 1];
      assert inner == body;
      if AllPrintable(inner) && inner != "" {
        if !NeedsQuoting(inner) {
          return inner;
        }
      }
      return out;
    }
    if AllSafe(s) {
      return s;
    }
    r := "";
    assert s[0..] == s;
    for i := 0 to |s|
      invariant r + Backslashed(s[i..]) == Backslashed(s)
    {
      BackslashedOpens(s, i);
      if IsSafe(s[i]) || !IsAscii(s[i]) {
        r := r + [s[i]];
      } else {
        r := r + ['\\', s[i]];
      }
    }
    BackslashedEnds();
    assert s[|s|..] == "";
  }

  lemma BackslashedOpens(s: string, i: nat)
    requires i < |s|
    ensures Backslashed(s[i..]) ==
            (if IsSafe(s[i]) || !IsAscii(s[i]) then [s[i]] else ['\\', s[i]]) + Backslashed(s[i + 1..])
  {
    hide IsSafe;
    assert s[i..][1..] == s[i + 1..];
  }

  lemma BackslashedEnds()
    ensures Backslashed("") == ""
  {
  }
}
