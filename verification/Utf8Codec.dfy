/**
 UTF-8 (sections 3 and 4 of RFC 3629) as the Rust library reads and writes it: how many bytes an
 encoding error spans, and when the input merely ends too early.
 */
module Utf8Codec {
  import opened Wrappers
  import opened Utf8Text

  type Byte = b: int | 0 <= b < 256

  predicate Continuation(b: Byte) {
    0x80 <= b <= 0xBF
  }

  /** The bytes that may follow the first byte of a multi-byte character (the table of section 4). */
  predicate SecondOk(first: Byte, second: Byte) {
    if first == 0xE0 then 0xA0 <= second <= 0xBF
    else if first == 0xED then 0x80 <= second <= 0x9F
    else if first == 0xF0 then 0x90 <= second <= 0xBF
    else if first == 0xF4 then 0x80 <= second <= 0x8F
    else Continuation(second)
  }

  /** Length announced by a first byte; 0 if no character starts with it. */
  function Width(first: Byte): (w: nat)
    ensures w <= 4
  {
    if first < 0x80 then 1
    else if 0xC2 <= first <= 0xDF then 2
    else if 0xE0 <= first <= 0xEF then 3
    else if 0xF0 <= first <= 0xF4 then 4
    else 0
  }

  /** `b` is the encoding of one character. */
  predicate IsChar(b: seq<Byte>) {
    && |b| >= 1
    && Width(b[0]) == |b|
    && (|b| >= 2 ==> SecondOk(b[0], b[1]))
    && (|b| >= 3 ==> Continuation(b[2]))
    && (|b| >= 4 ==> Continuation(b[3]))
  }

  /** Appends six bits. */
  function Shift6(high: int, low: int): int {
    high * 64 + low
  }

  lemma Shift6Inverts(high: int, low: int)
    requires 0 <= low < 64
    ensures Shift6(high, low) / 64 == high && Shift6(high, low) % 64 == low
  {
  }

  /** The code point that `b` spells, six bits from every byte after the first. */
  function CodeOf(b: seq<Byte>): (code: int)
    requires IsChar(b)
    ensures |b| == 1 ==> 0 <= code < 0x80
    ensures |b| == 2 ==> 0x80 <= code < 0x800
    ensures |b| == 3 ==> 0x800 <= code < 0x10000 && !(0xD800 <= code < 0xE000)
    ensures |b| == 4 ==> 0x10000 <= code < 0x110000
  {
    var b0: int := b[0];
    if |b| == 1 then b0
    else if |b| == 2 then Shift6(b0 - 0xC0, b[1] - 0x80)
    else if |b| == 3 then Shift6(Shift6(b0 - 0xE0, b[1] - 0x80), b[2] - 0x80)
    else Shift6(Shift6(Shift6(b0 - 0xF0, b[1] - 0x80), b[2] - 0x80), b[3] - 0x80)
  }

  function CharOf(b: seq<Byte>): (c: char)
    requires IsChar(b)
    ensures c as int == CodeOf(b)
  {
    CodeOf(b) as char
  }

  /** `char::encode_utf8`. */
  function BytesOf(c: char): (b: seq<Byte>)
    ensures |b| == CharLen(c) && IsChar(b)
    ensures forall i :: 1 <= i < |b| ==> Continuation(b[i])
    ensures !Continuation(b[0])
  {
    var n := c as int;
    if n < 0x80 then [n]
    else if n < 0x800 then [0xC0 + n / 64, 0x80 + n % 64]
    else if n < 0x10000 then
      assert n / 64 / 64 == 13 ==> n / 64 % 64 < 32;
      [0xE0 + n / 64 / 64, 0x80 + n / 64 % 64, 0x80 + n % 64]
    else [0xF0 + n / 64 / 64 / 64, 0x80 + n / 64 / 64 % 64, 0x80 + n / 64 % 64, 0x80 + n % 64]
  }

  lemma CharOfBytesOf(c: char)
    ensures CharOf(BytesOf(c)) == c
  {
    var n := c as int;
    assert n == Shift6(n / 64, n % 64);
    assert n / 64 == Shift6(n / 64 / 64, n / 64 % 64);
    assert n / 64 / 64 == Shift6(n / 64 / 64 / 64, n / 64 / 64 % 64);
  }

  lemma BytesOfCharOf(b: seq<Byte>)
    requires IsChar(b)
    ensures BytesOf(CharOf(b)) == b
  {
    var n := CodeOf(b);
    if |b| == 2 {
      Shift6Inverts(b[0] - 0xC0, b[1] - 0x80);
    } else if |b| == 3 {
      Shift6Inverts(b[0] - 0xE0, b[1] - 0x80);
      Shift6Inverts(Shift6(b[0] - 0xE0, b[1] - 0x80), b[2] - 0x80);
    } else if |b| == 4 {
      Shift6Inverts(b[0] - 0xF0, b[1] - 0x80);
      Shift6Inverts(Shift6(b[0] - 0xF0, b[1] - 0x80), b[2] - 0x80);
      Shift6Inverts(Shift6(Shift6(b[0] - 0xF0, b[1] - 0x80), b[2] - 0x80), b[3] - 0x80);
    }
  }

  // ----- reading one step ----------------------------------------------------------------------

  /** What stands at the start of a non-empty byte string. */
  datatype Step = Good(len: nat) | Bad(len: nat) | Truncated

  /** How the library validates: the error spans the longest prefix that could have begun a character. */
  function StepOf(b: seq<Byte>): (s: Step)
    requires b != []
  {
    var w := Width(b[0]);
    if w == 0 then Bad(1)
    else if w == 1 then Good(1)
    else if |b| < 2 then Truncated
    else if !SecondOk(b[0], b[1]) then Bad(1)
    else if w == 2 then Good(2)
    else if |b| < 3 then Truncated
    else if !Continuation(b[2]) then Bad(2)
    else if w == 3 then Good(3)
    else if |b| < 4 then Truncated
    else if !Continuation(b[3]) then Bad(3)
    else Good(4)
  }

  /** A character is read exactly when one is there; an error never spans a first byte. */
  lemma StepMeaning(b: seq<Byte>)
    requires b != []
    ensures forall n :: 1 <= n <= |b| && IsChar(b[..n]) ==> StepOf(b) == Good(n)
    ensures StepOf(b).Good? ==> 1 <= StepOf(b).len <= |b| && IsChar(b[..StepOf(b).len])
    ensures StepOf(b).Bad? ==>
              && 1 <= StepOf(b).len <= |b|
              && b[0] >= 0x80
              && forall i :: 1 <= i < StepOf(b).len ==> Continuation(b[i])
    ensures StepOf(b).Truncated? ==>
              && b[0] >= 0x80
              && forall i :: 1 <= i < |b| ==> Continuation(b[i])
  {
  }

  /** Something more would make a character of it. */
  ghost predicate Begins(b: seq<Byte>) {
    exists more: seq<Byte> :: more != [] && IsChar(b + more)
  }

  /** Bytes that complete a first byte. */
  function Completion(first: Byte): (more: seq<Byte>)
    requires Width(first) >= 2
    ensures IsChar([first] + more)
  {
    var second: Byte := if first == 0xE0 then 0xA0 else if first == 0xF0 then 0x90 else 0x80;
    if Width(first) == 2 then [second] else if Width(first) == 3 then [second, 0x80] else [second, 0x80, 0x80]
  }

  lemma BeginsIs(b: seq<Byte>)
    requires b != []
    ensures Begins(b) <==>
            && |b| < Width(b[0])
            && (|b| >= 2 ==> SecondOk(b[0], b[1]))
            && (|b| >= 3 ==> Continuation(b[2]))
  {
    if Begins(b) {
      var more: seq<Byte> :| more != [] && IsChar(b + more);
      assert forall i :: 0 <= i < |b| ==> (b + more)[i] == b[i];
    }
    if |b| < Width(b[0]) && (|b| >= 2 ==> SecondOk(b[0], b[1])) && (|b| >= 3 ==> Continuation(b[2])) {
      if |b| == 1 {
        assert b == [b[0]];
        assert IsChar(b + Completion(b[0]));
      } else if |b| == 2 {
        var more: seq<Byte> := if Width(b[0]) == 3 then [0x80] else [0x80, 0x80];
        assert IsChar(b + more);
      } else {
        assert IsChar(b + [0x80]);
      }
    }
  }

  /** An error spans the longest start of a character, or one byte that starts none; input ends early within one. */
  lemma ErrorSpansLongest(b: seq<Byte>)
    requires b != []
    ensures StepOf(b).Truncated? <==> Begins(b)
    ensures StepOf(b).Bad? ==>
              var n := StepOf(b).len;
              1 <= n <= |b| && (n > 1 ==> Begins(b[..n])) && (n < |b| ==> !Begins(b[..n + 1]))
  {
    BeginsIs(b);
    if StepOf(b).Bad? {
      var n := StepOf(b).len;
      StepMeaning(b);
      BeginsIs(b[..n]);
      if n < |b| {
        BeginsIs(b[..n + 1]);
      }
    }
  }

  /** What `str::from_utf8` reports: the text, or the valid prefix and the error that ends it. */
  datatype Utf8Result = Valid(text: string) | Invalid(text: string, validUpTo: nat, errorLen: Option<nat>)

  function FromUtf8(b: seq<Byte>): (r: Utf8Result)
    ensures r.Invalid? ==> r.validUpTo < |b|
    ensures r.Invalid? && r.errorLen.Some? ==> 1 <= r.errorLen.value <= |b| - r.validUpTo
    decreases |b|
  {
    if b == [] then Valid("")
    else
      StepMeaning(b);
      match StepOf(b)
      case Good(n) =>
        var c := CharOf(b[..n]);
        (match FromUtf8(b[n..])
         case Valid(text) => Valid([c] + text)
         case Invalid(text, upTo, len) => Invalid([c] + text, n + upTo, len))
      case Bad(n) => Invalid("", 0, Some(n))
      case Truncated => Invalid("", 0, None)
  }
}
