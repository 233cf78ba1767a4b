/**
 Text as the shell sees it: a Rust `String` is a sequence of Unicode scalar values whose
 `len()` counts the bytes of its UTF-8 form (section 3 of RFC 3629).
 */
module Utf8Text {

  /** `char::len_utf8`. */
  function CharLen(c: char): (n: nat)
    ensures 1 <= n <= 4
  {
    var code := c as int;
    if code < 0x80 then 1 else if code < 0x800 then 2 else if code < 0x10000 then 3 else 4
  }

  /** `str::len`. */
  function ByteLen(s: string): (n: nat)
    ensures n >= |s|
  {
    if s == [] then 0 else ByteLen(s[..|s| - 1]) + CharLen(s[|s| - 1])
  }

  lemma {:induction false} ByteLenConcat(s: string, t: string)
    ensures ByteLen(s + t) == ByteLen(s) + ByteLen(t)
  {
    if t == [] {
      assert s + t == s;
    } else {
      ByteLenConcat(s, t[..|t| - 1]);
      assert (s + t)[..|s + t| - 1] == s + t[..|t| - 1];
    }
  }
}
