/** Which specifications of tab stops are accepted, as what, and what is reported of the others. */
module TabsSpelled {
  import opened Wrappers
  import opened Sequences
  import opened Numerals
  import opened Tabs

  // ----- parts ----------------------------------------------------------------------------------------

  /** White space of Unicode. */
  predicate White(c: char) {
    var n := c as int;
    || 9 <= n <= 13 || n == 32 || n == 133 || n == 160 || n == 5760 || 8192 <= n <= 8202
    || n == 8232 || n == 8233 || n == 8239 || n == 8287 || n == 12288
  }

  predicate AllWhite(s: string) {
    forall i :: 0 <= i < |s| ==> White(s[i])
  }

  /** Text that does not begin or end with white space. */
  predicate Bare(s: string) {
    s != "" ==> !White(s[0]) && !White(s[|s| - 1])
  }

  lemma WhiteIsTrimmed(c: char)
    ensures White(c) <==> IsWhite(c)
  {
  }

  /** White space around a part is dropped, and nothing else. */
  lemma {:induction false} Trimmed(before: string, s: string, after: string)
    requires AllWhite(before) && Bare(s) && AllWhite(after)
    ensures TrimRight(TrimLeft(before + s + after)) == s
    decreases |before|
  {
    hide IsWhite, White;
    if before == "" {
      assert before + s + after == s + after;
      if s == "" {
        assert s + after == after;
        LeftTrimsAll(after);
      } else {
        assert (s + after)[0] == s[0];
        WhiteIsTrimmed(s[0]);
        RightTrims(s, after);
      }
    } else {
      Associates(before, s, after);
      TailOfConcat(before, s + after);
      Associates(before[1..], s, after);
      WhiteIsTrimmed(before[0]);
      Trimmed(before[1..], s, after);
    }
  }

  lemma {:induction false} LeftTrimsAll(after: string)
    requires AllWhite(after)
    ensures TrimLeft(after) == "" && TrimRight("") == ""
  {
    hide IsWhite, White;
    if after != "" {
      WhiteIsTrimmed(after[0]);
      LeftTrimsAll(after[1..]);
    }
  }

  lemma {:induction false} RightTrims(s: string, after: string)
    requires s != "" && Bare(s) && AllWhite(after)
    ensures TrimRight(s + after) == s
    decreases |after|
  {
    hide IsWhite, White;
    if after == "" {
      assert s + after == s;
      WhiteIsTrimmed(s[|s| - 1]);
    } else {
      var t := s + after;
      assert t[..|t| - 1] == s + after[..|after| - 1] && t[|t| - 1] == after[|after| - 1];
      WhiteIsTrimmed(after[|after| - 1]);
      RightTrims(s, after[..|after| - 1]);
    }
  }

  /** The piece is the text with white space around it. */
  ghost predicate Surrounds(piece: string, s: string) {
    Bare(s) && exists before, after :: AllWhite(before) && AllWhite(after) && piece == before + s + after
  }

  function NonEmpty(texts: seq<string>): seq<string> {
    if texts == [] then [] else (if texts[0] == "" then [] else [texts[0]]) + NonEmpty(texts[1..])
  }

  /** The parts of a specification are the texts between commas, without white space around them and empty ones. */
  lemma {:induction false} PartsAreTexts(pieces: seq<string>, texts: seq<string>)
    requires |pieces| == |texts| && forall k :: 0 <= k < |pieces| ==> Surrounds(pieces[k], texts[k])
    ensures Parts(pieces) == NonEmpty(texts)
  {
    hide TrimLeft, TrimRight, AllWhite, Bare;
    if pieces != [] {
      assert Surrounds(pieces[0], texts[0]);
      var before, after :| AllWhite(before) && AllWhite(after) && pieces[0] == before + texts[0] + after;
      Trimmed(before, texts[0], after);
      PartsAreTexts(pieces[1..], texts[1..]);
    }
  }

  // ----- values ----------------------------------------------------------------------------------------

  predicate AllDigits(part: string) {
    part != "" && forall i :: 0 <= i < |part| ==> part[i] in "0123456789"
  }

  /** The number that a part writes, if it fits a machine word. */
  function Number(part: string): Option<nat> {
    var v := DigitsValue(part);
    if AllDigits(part) && v.Some? && v.value < 18446744073709551616 then v else None
  }

  /** Part `k` is a number greater than the one before, or than 0. */
  predicate Fine(parts: seq<string>, k: nat)
    requires k < |parts|
  {
    var n := Number(parts[k]);
    var before := if k == 0 then Some(0) else Number(parts[k - 1]);
    n.Some? && before.Some? && before.value < n.value
  }

  function Numbers(parts: seq<string>, end: nat): (ns: seq<nat>)
    requires end <= |parts| && forall k :: 0 <= k < end ==> Fine(parts, k)
    ensures |ns| == end
  {
    if end == 0 then []
    else
      assert Fine(parts, end - 1);
      Numbers(parts, end - 1) + [Number(parts[end - 1]).value]
  }

  /** What is reported of a part that is not fine, `tail` being its text from the first character that is no digit. */
  function Fault(part: string, tail: string): string {
    if tail != "" then "tab size contains invalid character(s): '" + tail + "'"
    else if Number(part).None? then "tab size contains invalid character(s): '" + part + "'"
    else if Number(part) == Some(0) then "tab size cannot be 0"
    else "tab sizes must be ascending"
  }

  /** `tail` is the text from the first character that is no digit. */
  predicate IsTail(part: string, tail: string) {
    && |tail| <= |part| && part[|part| - |tail|..] == tail
    && (forall i :: 0 <= i < |part| - |tail| ==> part[i] in "0123456789")
    && (tail != "" ==> tail[0] !in "0123456789")
  }

  lemma DigitIsSpelled(c: char)
    ensures c in "0123456789" <==> '0' <= c <= '9'
  {
    var digits := "0123456789";
    assert '0' <= c <= '9' ==> digits[c as int - 48] == c;
  }

  lemma TailStarts(part: string, tail: string)
    requires IsTail(part, tail)
    ensures FirstNonDigit(part) == |part| - |tail|
  {
    var n := |part| - |tail|;
    assert tail != "" ==> part[n] == tail[0];
    assert forall i :: 0 <= i < |part| ==> (part[i] in "0123456789" <==> '0' <= part[i] <= '9') by {
      forall i | 0 <= i < |part|
        ensures part[i] in "0123456789" <==> '0' <= part[i] <= '9'
      {
        DigitIsSpelled(part[i]);
      }
    }
  }

  lemma {:induction false} DigitsHaveValue(part: string)
    requires forall i :: 0 <= i < |part| ==> '0' <= part[i] <= '9'
    ensures DigitsValue(part).Some?
  {
    if part != "" {
      DigitsHaveValue(part[..|part| - 1]);
    }
  }

  /** A part without foreign characters is parsed as the number it writes. */
  lemma ParsedIsNumber(part: string)
    requires FirstNonDigit(part) == |part|
    ensures ParseUsize(part) == Number(part)
  {
    hide DigitsValue;
    forall i | 0 <= i < |part|
      ensures part[i] in "0123456789"
    {
      DigitIsSpelled(part[i]);
    }
    DigitsHaveValue(part);
  }

  lemma NotAllDigits(part: string)
    requires FirstNonDigit(part) < |part|
    ensures Number(part).None?
  {
    DigitIsSpelled(part[FirstNonDigit(part)]);
  }

  /** One part. */
  lemma StopsOpen(parts: seq<string>, i: nat, tail: string)
    requires i < |parts| && (forall k :: 0 <= k < i ==> Fine(parts, k)) && IsTail(parts[i], tail)
    ensures Stops(parts[i..], Numbers(parts, i)) ==
            if Fine(parts, i) then Stops(parts[i + 1..], Numbers(parts, i + 1)) else Err(Fault(parts[i], tail))
  {
    hide IsTail, Number, FirstNonDigit, ParseUsize;
    var before := Numbers(parts, i);
    assert parts[i..][0] == parts[i] && parts[i..][1..] == parts[i + 1..];
    TailStarts(parts[i], tail);
    if tail == "" {
      ParsedIsNumber(parts[i]);
      assert i > 0 ==> Fine(parts, i - 1);
    } else {
      assert |tail| <= |parts[i]| by {
        TailFits(parts[i], tail);
      }
      NotAllDigits(parts[i]);
      TailFits(parts[i], tail);
    }
  }

  lemma TailFits(part: string, tail: string)
    requires IsTail(part, tail)
    ensures |tail| <= |part| && part[|part| - |tail|..] == tail
  {
  }

  lemma {:induction false} StopsFrom(parts: seq<string>, i: nat)
    requires i <= |parts| && forall k :: 0 <= k < i ==> Fine(parts, k)
    ensures Stops(parts, []) == Stops(parts[i..], Numbers(parts, i))
  {
    hide Stops, Fine;
    if i == 0 {
      assert parts[0..] == parts && Numbers(parts, 0) == [];
    } else {
      StopsFrom(parts, i - 1);
      StopsOpen(parts, i - 1, TailOf(parts[i - 1]));
    }
  }

  function TailOf(part: string): (tail: string)
    ensures IsTail(part, tail)
  {
    var n := FirstNonDigit(part);
    assert forall i :: 0 <= i < n ==> part[i] in "0123456789" by {
      forall i | 0 <= i < n
        ensures part[i] in "0123456789"
      {
        DigitIsSpelled(part[i]);
      }
    }
    assert n < |part| ==> part[n..][0] !in "0123456789" by {
      if n < |part| {
        DigitIsSpelled(part[n]);
      }
    }
    part[n..]
  }

  /** A specification of ascending numbers stands for them: none for 8 columns, one for a width, more for a list. */
  lemma AscendingIsAccepted(parts: seq<string>)
    requires forall k :: 0 <= k < |parts| ==> Fine(parts, k)
    ensures Spec(parts) ==
            Ok(if |parts| == 0 then Uniform(8)
               else if |parts| == 1 then Uniform(Numbers(parts, 1)[0])
               else List(Numbers(parts, |parts|)))
  {
    hide Number;
    StopsFrom(parts, |parts|);
    assert parts[|parts|..] == [];
  }

  /** Of any other the first part that is not fine is reported. */
  lemma FirstFaultIsReported(parts: seq<string>, i: nat, tail: string)
    requires i < |parts| && (forall k :: 0 <= k < i ==> Fine(parts, k)) && !Fine(parts, i) && IsTail(parts[i], tail)
    ensures Spec(parts) == Err(Fault(parts[i], tail))
  {
    hide Number, Fine, IsTail, Stops, Fault;
    StopsFrom(parts, i);
    StopsOpen(parts, i, tail);
  }
}
