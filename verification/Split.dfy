/** split: pieces of a file under names that sort in the order of the pieces. */
module Split {
  import opened TextOrder
  import opened Arithmetic
  import opened Utf8Codec

  const USIZE := 0x1_0000_0000_0000_0000

  function Power(len: nat): (p: nat)
    ensures p >= 1
  {
    if len == 0 then 1 else 26 * Power(len - 1)
  }

  // ----- suffixes -----------------------------------------------------------------------------------

  /** Quotient and rest by the weight of the highest of `len` digits. */
  lemma Digit(i: nat, len: nat)
    requires len >= 1 && i < Power(len)
    ensures 0 <= i / Power(len - 1) < 26 && 0 <= i % Power(len - 1) < Power(len - 1)
    ensures i == i / Power(len - 1) * Power(len - 1) + i % Power(len - 1)
  {
    var p := Power(len - 1);
    ProductsGrow(26, i / p, p);
  }

  /** A letter per base-26 digit, the highest first. */
  function Letters(i: nat, len: nat): (s: string)
    requires i < Power(len)
    ensures |s| == len && forall k :: 0 <= k < len ==> 'a' <= s[k] <= 'z'
  {
    if len == 0 then ""
    else
      Digit(i, len);
      var p := Power(len - 1);
      [Letter(i / p)] + Letters(i % p, len - 1)
  }

  function Letter(d: nat): (c: char)
    requires d < 26
    ensures 'a' <= c <= 'z' && c as int == d + 97
  {
    (d + 97) as char
  }

  /** `Overflows` stands for the arithmetic panic of `26usize.pow`. */
  datatype Suffix = Called(s: string) | Exhausted | Overflows

  function SuffixOf(i: nat, len: nat): Suffix {
    if Power(len) >= USIZE then Overflows
    else if i >= Power(len) then Exhausted
    else Called(Letters(i, len))
  }

  method SplitSuffix(idx: nat, len: nat) returns (r: Suffix)
    ensures r == SuffixOf(idx, len)
  {
    var max := Power(len);
    if max >= USIZE {
      return Overflows;
    }
    if idx >= max {
      return Exhausted;
    }
    hide Power;
    var suffix := "";
    var remaining: nat := idx;
    var i: nat := len;
    while i > 0
      invariant remaining < Power(i)
      invariant suffix + Letters(remaining, i) == Letters(idx, len)
    {
      Digit(remaining, i);
      i := i - 1;
      var divisor := Power(i);
      suffix := suffix + [Letter(remaining / divisor)];
      remaining := remaining % divisor;
    }
    r := Called(suffix);
  }

  lemma {:induction false} PowerGrows(m: nat, n: nat)
    requires m <= n
    ensures Power(m) <= Power(n)
  {
    if m < n {
      PowerGrows(m, n - 1);
    }
  }

  /** Up to 13 letters fit the machine word. */
  lemma OverflowIsPastThirteen(len: nat)
    ensures Power(len) < USIZE <==> len <= 13
  {
    assert Power(4) == 456976;
    assert Power(8) == 456976 * 456976 by {
      assert Power(8) == 26 * 26 * 26 * 26 * Power(4);
    }
    assert Power(13) == 2481152873203736576;
    if len <= 13 {
      PowerGrows(len, 13);
    } else {
      PowerGrows(14, len);
    }
  }

  lemma {:induction false} LettersInOrder(i: nat, j: nat, len: nat)
    requires i < j < Power(len)
    ensures Less(Letters(i, len), Letters(j, len))
    decreases len
  {
    hide Power, Letters, Less;
    if len == 0 {
      PowerOfNone();
    } else {
      var di, ri := LettersOpen(i, len);
      var dj, rj := LettersOpen(j, len);
      QuotientsInOrder(i, j, Power(len - 1));
      if di == dj {
        LettersInOrder(ri, rj, len - 1);
      }
      HeadsOrder(Letter(di), Letters(ri, len - 1), Letter(dj), Letters(rj, len - 1));
    }
  }

  lemma PowerOfNone()
    ensures Power(0) == 1
  {
  }

  lemma QuotientsInOrder(i: nat, j: nat, p: nat)
    requires i < j && p >= 1
    ensures i / p < j / p || (i / p == j / p && i % p < j % p)
  {
    var q, q' := i / p, j / p;
    assert i == q * p + i % p && j == q' * p + j % p;
    ProductsGrow(q' + 1, q, p);
    assert (q' + 1) * p == q' * p + p;
  }

  lemma LettersOpen(i: nat, len: nat) returns (d: nat, r: nat)
    requires len >= 1 && i < Power(len)
    ensures d < 26 && r < Power(len - 1) && d == i / Power(len - 1) && r == i % Power(len - 1)
    ensures Letters(i, len) == [Letter(d)] + Letters(r, len - 1)
  {
    hide Power;
    Digit(i, len);
    d, r := i / Power(len - 1), i % Power(len - 1);
  }

  lemma HeadsOrder(c: char, s: string, d: char, t: string)
    ensures Less([c] + s, [d] + t) <==> c < d || (c == d && Less(s, t))
  {
    assert ([c] + s)[1..] == s && ([d] + t)[1..] == t;
  }

  // ----- writing the pieces ---------------------------------------------------------------------------

  function Chunks<T>(data: seq<T>, n: nat): seq<seq<T>>
    requires n >= 1
  {
    if data == [] then [] else if |data| <= n then [data] else [data[..n]] + Chunks(data[n..], n)
  }

  function Flatten<T>(chunks: seq<seq<T>>): seq<T> {
    if chunks == [] then [] else chunks[0] + Flatten(chunks[1..])
  }

  lemma {:induction false} ChunksFlatten<T>(data: seq<T>, n: nat)
    requires n >= 1
    ensures Flatten(Chunks(data, n)) == data
    ensures forall k :: 0 <= k < |Chunks(data, n)| ==>
              1 <= |Chunks(data, n)[k]| <= n && (k < |Chunks(data, n)| - 1 ==> |Chunks(data, n)[k]| == n)
    decreases |data|
  {
    if |data| > n {
      ChunksFlatten(data[n..], n);
      assert data[..n] + data[n..] == data;
    } else if data != [] {
      assert Flatten([data]) == data + Flatten([data][1..]);
    }
  }

  type Files = map<string, seq<Byte>>

  /** How splitting ends; a count of 0 is refused before anything is written. */
  datatype Outcome = Written | InvalidCount | OutOfSuffixes | Panic

  function FileName(prefix: string, k: nat, len: nat): string
    requires k < Power(len)
  {
    prefix + Letters(k, len)
  }

  /** The files after the first `count` pieces are written. */
  function FilesOf(files: Files, chunks: seq<seq<Byte>>, prefix: string, len: nat, count: nat): Files
    requires count <= |chunks| && count <= Power(len)
  {
    if count == 0 then files
    else
      FilesOf(files, chunks, prefix, len, count - 1)[FileName(prefix, count - 1, len) := chunks[count - 1]]
  }

  function OutcomeOf(count: nat, len: nat): Outcome {
    if count == 0 then Written
    else if len > 13 then Panic
    else if count > Power(len) then OutOfSuffixes
    else Written
  }

  /** Of `count` pieces, those that get a name. */
  function Named(count: nat, len: nat): nat {
    if len > 13 then 0 else if count > Power(len) then Power(len) else count
  }

  lemma NamedFit(count: nat, len: nat)
    ensures Named(count, len) <= count && Named(count, len) <= Power(len)
  {
  }

  method WriteChunks(chunks: seq<seq<Byte>>, prefix: string, len: nat, files: Files)
    returns (after: Files, outcome: Outcome)
    ensures outcome == OutcomeOf(|chunks|, len)
    ensures after == FilesOf(files, chunks, prefix, len, Named(|chunks|, len))
  {
    OverflowIsPastThirteen(len);
    hide Power, Letters;
    after, outcome := files, Written;
    for idx := 0 to |chunks|
      invariant idx <= Power(len) && (idx > 0 ==> len <= 13)
      invariant after == FilesOf(files, chunks, prefix, len, idx)
    {
      var suffix := SplitSuffix(idx, len);
      if suffix.Overflows? {
        return after, Panic;
      } else if suffix.Exhausted? {
        return after, OutOfSuffixes;
      }
      after := after[prefix + suffix.s := chunks[idx]];
    }
  }

  /** `split -b`. */
  method SplitBytes(data: seq<Byte>, n: nat, prefix: string, len: nat, files: Files)
    returns (after: Files, outcome: Outcome)
    ensures n == 0 ==> outcome == InvalidCount && after == files
    ensures n >= 1 ==>
              var chunks := Chunks(data, n);
              && outcome == OutcomeOf(|chunks|, len)
              && after == FilesOf(files, chunks, prefix, len, Named(|chunks|, len))
  {
    if n == 0 {
      return files, InvalidCount;
    }
    after, outcome := WriteChunks(Chunks(data, n), prefix, len, files);
  }

  // ----- reading them back in the order of their names --------------------------------------------------

  /** The names one after another, in byte-wise order. */
  predicate Sorted(names: seq<string>) {
    forall i, j :: 0 <= i < j < |names| ==> Less(names[i], names[j])
  }

  function Cat(files: Files, names: seq<string>): seq<Byte>
    requires forall k :: 0 <= k < |names| ==> names[k] in files
  {
    if names == [] then [] else files[names[0]] + Cat(files, names[1..])
  }

  function NamesFrom(prefix: string, len: nat, from: nat, count: nat): (names: seq<string>)
    requires from <= count <= Power(len)
    ensures |names| == count - from
    ensures forall k :: 0 <= k < count - from ==> names[k] == FileName(prefix, from + k, len)
    decreases count - from
  {
    if from == count then [] else [FileName(prefix, from, len)] + NamesFrom(prefix, len, from + 1, count)
  }

  lemma NamesInOrder(prefix: string, i: nat, j: nat, len: nat)
    requires i < j < Power(len)
    ensures Less(FileName(prefix, i, len), FileName(prefix, j, len))
    ensures FileName(prefix, i, len) != FileName(prefix, j, len)
  {
    hide Power, Letters, Less;
    LettersInOrder(i, j, len);
    LessAfterPrefix(prefix, Letters(i, len), Letters(j, len));
    LessOrder(FileName(prefix, i, len), FileName(prefix, j, len));
  }

  lemma NamesAreSorted(prefix: string, len: nat, from: nat, count: nat)
    requires from <= count <= Power(len)
    ensures Sorted(NamesFrom(prefix, len, from, count))
  {
    hide Power, FileName, Less, NamesFrom;
    var names := NamesFrom(prefix, len, from, count);
    forall i, j | 0 <= i < j < |names|
      ensures Less(names[i], names[j])
    {
      NamesInOrder(prefix, from + i, from + j, len);
    }
  }

  /** There is only one way to sort a set of names. */
  lemma {:induction false} SortedIsUnique(a: seq<string>, b: seq<string>)
    requires Sorted(a) && Sorted(b) && forall x :: x in a <==> x in b
    ensures a == b
    decreases |a|
  {
    NoMembers(a, b);
    if a != [] {
      assert a[0] in a && b[0] in b;
      SameHead(a, b);
      forall x
        ensures x in a[1..] <==> x in b[1..]
      {
        TailMembers(a, x);
        TailMembers(b, x);
      }
      SortedIsUnique(a[1..], b[1..]);
      assert a == [a[0]] + a[1..] && b == [b[0]] + b[1..];
    }
  }

  lemma NoMembers(a: seq<string>, b: seq<string>)
    requires forall x :: x in a <==> x in b
    ensures a == [] <==> b == []
  {
    var some := a + b;
    if some != [] {
      assert some[0] in some;
    }
  }

  lemma SameHead(a: seq<string>, b: seq<string>)
    requires Sorted(a) && Sorted(b) && a != [] && b != [] && a[0] in b && b[0] in a
    ensures a[0] == b[0]
  {
    LessOrder(a[0], b[0]);
    var i :| 0 <= i < |b| && b[i] == a[0];
    var j :| 0 <= j < |a| && a[j] == b[0];
  }

  lemma TailMembers(a: seq<string>, x: string)
    requires Sorted(a) && a != []
    ensures x in a[1..] <==> x in a && x != a[0]
  {
    if x in a[1..] {
      var k :| 0 <= k < |a| - 1 && a[1..][k] == x;
      LessOrder(a[0], a[k + 1]);
    }
    if x in a && x != a[0] {
      var k :| 0 <= k < |a| && a[k] == x;
      assert a[1..][k - 1] == x;
    }
  }

  lemma {:induction false} FilesHold(files: Files, chunks: seq<seq<Byte>>, prefix: string, len: nat, count: nat)
    requires count <= |chunks| && count <= Power(len)
    ensures var f := FilesOf(files, chunks, prefix, len, count);
            && (forall k :: 0 <= k < count ==>
                  FileName(prefix, k, len) in f && f[FileName(prefix, k, len)] == chunks[k])
            && (forall x :: x in f <==> x in files || exists k :: 0 <= k < count && x == FileName(prefix, k, len))
  {
    hide Power, FileName, Less;
    if count > 0 {
      FilesHold(files, chunks, prefix, len, count - 1);
      forall k | 0 <= k < count - 1
        ensures FileName(prefix, k, len) != FileName(prefix, count - 1, len)
      {
        NamesInOrder(prefix, k, count - 1, len);
      }
    }
  }

  lemma {:induction false} CatOfNames(files: Files, chunks: seq<seq<Byte>>, prefix: string, len: nat, from: nat,
                                      count: nat)
    requires from <= count <= |chunks| && count <= Power(len)
    requires forall k :: 0 <= k < count ==>
               FileName(prefix, k, len) in files && files[FileName(prefix, k, len)] == chunks[k]
    ensures Cat(files, NamesFrom(prefix, len, from, count)) == Flatten(chunks[from..count])
    decreases count - from
  {
    hide Power, FileName;
    if from < count {
      CatOfNames(files, chunks, prefix, len, from + 1, count);
      var names := NamesFrom(prefix, len, from, count);
      assert names[1..] == NamesFrom(prefix, len, from + 1, count);
      assert chunks[from..count][1..] == chunks[from + 1..count];
    }
  }

  lemma {:induction false} PartIsShorter(chunks: seq<seq<Byte>>, count: nat)
    requires count < |chunks| && forall k :: 0 <= k < |chunks| ==> chunks[k] != []
    ensures |Flatten(chunks[..count])| < |Flatten(chunks)|
    decreases count
  {
    if count > 0 {
      PartIsShorter(chunks[1..], count - 1);
      assert chunks[..count][1..] == chunks[1..][..count - 1];
    } else {
      assert chunks[0] != [];
    }
  }

  lemma AllNamedIfWritten(count: nat, len: nat)
    ensures Named(count, len) == count <==> OutcomeOf(count, len) == Written
  {
    hide Power;
  }

  /**
   Concatenating the files in the order of their names, however that order is found, gives the data
   back if and only if the suffixes sufficed.
   */
  lemma SplitThenCat(data: seq<Byte>, n: nat, prefix: string, len: nat, names: seq<string>)
    requires n >= 1 && Sorted(names)
    requires var chunks := Chunks(data, n);
             forall x :: x in names <==> x in FilesOf(map[], chunks, prefix, len, Named(|chunks|, len))
    ensures var chunks := Chunks(data, n);
            Cat(FilesOf(map[], chunks, prefix, len, Named(|chunks|, len)), names) == data <==>
            OutcomeOf(|chunks|, len) == Written
  {
    hide FileName, FilesOf, NamesFrom, Cat, Flatten, Chunks, Power, Named, OutcomeOf, Less, Sorted;
    var chunks := Chunks(data, n);
    var count := Named(|chunks|, len);
    NamedFit(|chunks|, len);
    AllNamedIfWritten(|chunks|, len);
    var files := FilesOf(map[], chunks, prefix, len, count);
    FilesHold(map[], chunks, prefix, len, count);
    var all := NamesFrom(prefix, len, 0, count);
    NamesAreSorted(prefix, len, 0, count);
    forall x
      ensures x in names <==> x in all
    {
      if x in files {
        var k :| 0 <= k < count && x == FileName(prefix, k, len);
        assert all[k] == x;
      }
    }
    SortedIsUnique(names, all);
    CatOfNames(files, chunks, prefix, len, 0, count);
    ChunksFlatten(data, n);
    if count < |chunks| {
      assert chunks[0..count] == chunks[..count];
      PartIsShorter(chunks, count);
    } else {
      assert chunks[0..count] == chunks;
    }
  }
}
