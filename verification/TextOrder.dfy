/** The order of text: by characters, which for UTF-8 is the order of the bytes. */
module TextOrder {
  /** String order: by the first difference, a prefix before its extensions. */
  predicate Less(a: string, b: string) {
    b != "" && (a == "" || a[0] < b[0] || (a[0] == b[0] && Less(a[1..], b[1..])))
  }

  predicate AtMost(a: string, b: string) {
    !Less(b, a)
  }

  lemma {:induction false} LessOrder(a: string, b: string)
    ensures !(Less(a, b) && Less(b, a))
    ensures Less(a, b) || Less(b, a) || a == b
    ensures !Less(a, a)
  {
    if a != "" && b != "" {
      LessOrder(a[1..], b[1..]);
      if a[1..] == b[1..] && a[0] == b[0] {
        assert a == [a[0]] + a[1..] && b == [b[0]] + b[1..];
      }
    }
    if a != "" {
      LessOrder(a[1..], a[1..]);
    }
  }

  lemma {:induction false} LessTransitive(a: string, b: string, c: string)
    requires Less(a, b) && Less(b, c)
    ensures Less(a, c)
  {
    if a != "" && a[0] == b[0] == c[0] {
      LessTransitive(a[1..], b[1..], c[1..]);
    }
  }

  /** `a <= b < c` and `a < b <= c` both give `a < c`. */
  lemma LessAtMost(a: string, b: string, c: string)
    ensures AtMost(a, b) && Less(b, c) ==> Less(a, c)
    ensures Less(a, b) && AtMost(b, c) ==> Less(a, c)
    ensures AtMost(a, b) && AtMost(b, c) ==> AtMost(a, c)
  {
    LessOrder(a, b);
    LessOrder(b, c);
    LessOrder(a, c);
    if Less(a, b) && Less(b, c) {
      LessTransitive(a, b, c);
    }
    if Less(c, a) && Less(a, b) {
      LessTransitive(c, a, b);
    }
    if Less(b, c) && Less(c, a) {
      LessTransitive(b, c, a);
    }
  }

  lemma {:induction false} LessAfterPrefix(p: string, s: string, t: string)
    ensures Less(p + s, p + t) <==> Less(s, t)
  {
    if p == "" {
      assert p + s == s && p + t == t;
    } else {
      assert (p + s)[1..] == p[1..] + s && (p + t)[1..] == p[1..] + t;
      LessAfterPrefix(p[1..], s, t);
    }
  }

  /** The texts agree up to place `i`, where the first ends or has the smaller character. */
  predicate FirstDifference(a: string, b: string, i: nat) {
    i <= |a| && i < |b| && a[..i] == b[..i] && (i < |a| ==> a[i] < b[i])
  }

  lemma DifferenceMoves(a: string, b: string, i: nat)
    requires a != "" && b != "" && a[0] == b[0]
    ensures FirstDifference(a[1..], b[1..], i) <==> FirstDifference(a, b, i + 1)
    ensures !FirstDifference(a, b, 0)
  {
    if i < |a| && i < |b| {
      assert a[..i + 1] == [a[0]] + a[1..][..i] && b[..i + 1] == [b[0]] + b[1..][..i];
      assert a[1..][..i] == a[..i + 1][1..] && b[1..][..i] == b[..i + 1][1..];
    }
  }

  lemma HeadsAgree(a: string, b: string, i: nat)
    requires FirstDifference(a, b, i)
    ensures i > 0 ==> a != "" && b != "" && a[0] == b[0]
  {
    assert i > 0 ==> a[..i][0] == a[0] && b[..i][0] == b[0];
  }

  /** Dictionary order. */
  lemma {:induction false} LessIsDictionaryOrder(a: string, b: string)
    ensures Less(a, b) <==> exists i: nat :: FirstDifference(a, b, i)
  {
    if a != "" && b != "" && a[0] == b[0] {
      LessIsDictionaryOrder(a[1..], b[1..]);
      if Less(a, b) {
        var i: nat :| FirstDifference(a[1..], b[1..], i);
        DifferenceMoves(a, b, i);
      }
      if exists i: nat :: FirstDifference(a, b, i) {
        var i: nat :| FirstDifference(a, b, i);
        DifferenceMoves(a, b, if i == 0 then 0 else i - 1);
        assert FirstDifference(a[1..], b[1..], i - 1);
      }
    } else if Less(a, b) {
      assert FirstDifference(a, b, 0);
    } else if exists i: nat :: FirstDifference(a, b, i) {
      var i: nat :| FirstDifference(a, b, i);
      HeadsAgree(a, b, i);
    }
  }
}
