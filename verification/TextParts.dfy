/** Text divided at a character: the one way of doing it that can be undone. */
module TextParts {
  import opened Sequences

  /** `str::split` at `c`. */
  function Divided(text: string, c: char): (parts: seq<string>)
    ensures parts != []
  {
    if text == "" then [""]
    else
      var rest := Divided(text[1..], c);
      if text[0] == c then [""] + rest else [[text[0]] + rest[0]] + rest[1..]
  }

  /** The parts with `c` between them. */
  function Rejoined(parts: seq<string>, c: char): string
    requires parts != []
  {
    if |parts| == 1 then parts[0] else parts[0] + ([c] + Rejoined(parts[1..], c))
  }

  lemma {:induction false} DividedFirst(part: string, rest: string, c: char)
    requires c !in part
    ensures Divided(part, c) == [part]
    ensures Divided(part + ([c] + rest), c) == [part] + Divided(rest, c)
  {
    if part == "" {
      Prepended(c, rest);
      assert part + ([c] + rest) == [c] + rest;
    } else {
      TailOfConcat(part, [c] + rest);
      DividedFirst(part[1..], rest, c);
      HeadAndTail(part);
    }
  }

  lemma {:induction false} RejoinedDivides(parts: seq<string>, c: char)
    requires parts != [] && forall k :: 0 <= k < |parts| ==> c !in parts[k]
    ensures Divided(Rejoined(parts, c), c) == parts
  {
    hide Divided;
    HeadAndTail(parts);
    DividedFirst(parts[0], "", c);
    if |parts| > 1 {
      RejoinedDivides(parts[1..], c);
      DividedFirst(parts[0], Rejoined(parts[1..], c), c);
    }
  }

  lemma {:induction false} DividedRejoins(text: string, c: char)
    ensures Rejoined(Divided(text, c), c) == text
    ensures forall k :: 0 <= k < |Divided(text, c)| ==> c !in Divided(text, c)[k]
  {
    if text != "" {
      HeadAndTail(text);
      DividedRejoins(text[1..], c);
      var rest := Divided(text[1..], c);
      if text[0] == c {
        Prepended("", rest);
      } else {
        Prepended([text[0]] + rest[0], rest[1..]);
        if |rest| > 1 {
          Associates([text[0]], rest[0], [c] + Rejoined(rest[1..], c));
        }
      }
    }
  }

  /** Parts without the character that give the text when it is put between them. */
  lemma DividedIsExact(text: string, c: char, parts: seq<string>)
    ensures parts == Divided(text, c) <==>
            parts != [] && Rejoined(parts, c) == text && forall k :: 0 <= k < |parts| ==> c !in parts[k]
  {
    hide Divided, Rejoined;
    DividedRejoins(text, c);
    if parts != [] && Rejoined(parts, c) == text && forall k :: 0 <= k < |parts| ==> c !in parts[k] {
      RejoinedDivides(parts, c);
    }
  }
}
