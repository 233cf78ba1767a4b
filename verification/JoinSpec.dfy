/**
 The merge refines the nested loop: on sorted files it prints exactly the pairs of lines with equal
 keys, in nested-loop order, and exactly the unpaired lines it was asked for.
 */
module JoinSpec {
  import opened Sequences
  import opened TextOrder
  import opened TextParts
  import opened Join

  // ----- the nested loop -----------------------------------------------------------------------

  /** Line `i` joined with the lines of the second file, from `k` on, whose key is `key`. */
  function Partners(keys2: seq<string>, i: nat, k: nat, key: string): seq<Event>
    requires k <= |keys2|
    decreases |keys2| - k
  {
    if k == |keys2| then []
    else (if keys2[k] == key then [Pair(i, k)] else []) + Partners(keys2, i, k + 1, key)
  }

  /** All pairs of lines with equal keys, first file outermost. */
  function NestedPairs(keys1: seq<string>, keys2: seq<string>, i: nat): seq<Event>
    requires i <= |keys1|
    decreases |keys1| - i
  {
    if i == |keys1| then [] else Partners(keys2, i, 0, keys1[i]) + NestedPairs(keys1, keys2, i + 1)
  }

  /** The lines of the first file, from `i` on, whose key the second file does not have. */
  function UnpairedFirst(keys1: seq<string>, keys2: seq<string>, i: nat): seq<Event>
    requires i <= |keys1|
    decreases |keys1| - i
  {
    if i == |keys1| then []
    else (if keys1[i] !in keys2 then [Left(i)] else []) + UnpairedFirst(keys1, keys2, i + 1)
  }

  /** The lines of the second file, from `k` on, whose key the first file does not have. */
  function UnpairedSecond(keys1: seq<string>, keys2: seq<string>, k: nat): seq<Event>
    requires k <= |keys2|
    decreases |keys2| - k
  {
    if k == |keys2| then []
    else (if keys2[k] !in keys1 then [Right(k)] else []) + UnpairedSecond(keys1, keys2, k + 1)
  }

  // ----- what a merge printed --------------------------------------------------------------------

  datatype Kind = PairKind | LeftKind | RightKind

  function KindOf(e: Event): Kind {
    match e
    case Pair(_, _) => PairKind
    case Left(_) => LeftKind
    case Right(_) => RightKind
  }

  /** The events of one kind, in order. */
  function Keep(events: seq<Event>, kind: Kind): seq<Event> {
    if events == [] then []
    else (if KindOf(events[0]) == kind then [events[0]] else []) + Keep(events[1..], kind)
  }

  lemma KeepCons(e: Event, x: seq<Event>, kind: Kind)
    ensures Keep([e] + x, kind) == (if KindOf(e) == kind then [e] else []) + Keep(x, kind)
    ensures Keep([], kind) == []
  {
    assert ([e] + x)[1..] == x;
  }

  lemma {:induction false} KeepConcat(x: seq<Event>, y: seq<Event>, kind: Kind)
    ensures Keep(x + y, kind) == Keep(x, kind) + Keep(y, kind)
  {
    if x == [] {
      assert x + y == y;
    } else {
      hide Keep;
      KeepConcat(x[1..], y, kind);
      assert x == [x[0]] + x[1..] && x + y == [x[0]] + (x[1..] + y);
      KeepCons(x[0], x[1..], kind);
      KeepCons(x[0], x[1..] + y, kind);
    }
  }

  lemma {:induction false} KeepUniform(x: seq<Event>, all: Kind, kind: Kind)
    requires forall n :: 0 <= n < |x| ==> KindOf(x[n]) == all
    ensures Keep(x, kind) == if kind == all then x else []
  {
    if x != [] {
      KeepUniform(x[1..], all, kind);
      assert x == [x[0]] + x[1..];
    }
  }

  // ----- runs of equal keys ------------------------------------------------------------------------

  /** In sorted keys, `start` to `end` is exactly the run of `key`. */
  ghost predicate IsRun(keys: seq<string>, key: string, start: nat, end: nat) {
    && start <= end <= |keys|
    && (forall n :: 0 <= n < start ==> Less(keys[n], key))
    && (forall n :: start <= n < end ==> keys[n] == key)
    && (forall n :: end <= n < |keys| ==> Less(key, keys[n]))
  }

  lemma {:induction false} PartnersBelow(keys: seq<string>, i: nat, key: string, start: nat, end: nat, k: nat)
    requires IsRun(keys, key, start, end) && k <= start
    ensures Partners(keys, i, k, key) == Pairs(i, start, end)
    decreases start - k
  {
    hide Partners, Pairs, Less;
    if k < start {
      PartnersOpens(keys, i, k, key);
      LessOrder(keys[k], key);
      PartnersBelow(keys, i, key, start, end, k + 1);
    } else {
      PartnersInRun(keys, i, key, start, end, k);
      if start == end {
        NoPairs(i, end);
      }
    }
  }

  lemma NoPairs(i: nat, k: nat)
    ensures Pairs(i, k, k) == []
  {
  }

  lemma {:induction false} PartnersInRun(keys: seq<string>, i: nat, key: string, start: nat, end: nat, k: nat)
    requires IsRun(keys, key, start, end) && start <= k <= |keys|
    ensures Partners(keys, i, k, key) == if k < end then Pairs(i, k, end) else []
    decreases |keys| - k
  {
    hide Partners, Pairs, Less;
    PartnersOpens(keys, i, k, key);
    if k < |keys| {
      if k >= end {
        LessOrder(key, keys[k]);
      } else {
        PairsOpens(i, k, end);
      }
      PartnersInRun(keys, i, key, start, end, k + 1);
    }
  }

  lemma PartnersOpens(keys: seq<string>, i: nat, k: nat, key: string)
    requires k <= |keys|
    ensures Partners(keys, i, k, key) ==
            if k == |keys| then [] else (if keys[k] == key then [Pair(i, k)] else []) + Partners(keys, i, k + 1, key)
  {
  }

  lemma PairsOpens(i: nat, k: nat, end: nat)
    requires k < end
    ensures Pairs(i, k, end) == if k + 1 < end then [Pair(i, k)] + Pairs(i, k + 1, end) else [Pair(i, k)]
  {
  }

  lemma RunHolds(keys: seq<string>, key: string, start: nat, end: nat)
    requires IsRun(keys, key, start, end)
    ensures key in keys <==> start < end
  {
    LessOrder(key, key);
    assert start < end ==> keys[start] == key;
  }

  /** Scanning on from where all earlier keys are smaller finds the run. */
  lemma FindRun(keys: seq<string>, from: nat, key: string)
    requires Sorted(keys) && from <= |keys| && forall n :: 0 <= n < from ==> Less(keys[n], key)
    ensures var start := LessEnd(keys, from, key);
            IsRun(keys, key, start, EqualEnd(keys, start, key))
  {
    var start := LessEnd(keys, from, key);
    var end := EqualEnd(keys, start, key);
    forall n | end <= n < |keys|
      ensures Less(key, keys[n])
    {
      if end == start {
        LessOrder(key, keys[end]);
      } else {
        LessOrder(keys[start], keys[end]);
      }
      if n > end {
        LessAtMost(key, keys[end], keys[n]);
      }
    }
  }

  // ----- the loop invariant -----------------------------------------------------------------------

  /** The loop variables before line `i`: the run of the previous key, or nothing read. */
  ghost predicate LoopOk(keys1: seq<string>, keys2: seq<string>, i: nat, j: nat, matchEnd: nat, prev: string) {
    && i <= |keys1| && j <= |keys2| && matchEnd <= |keys2|
    && (if i == 0 then j == 0 && matchEnd == 0 && prev == ""
        else prev == keys1[i - 1] && IsRun(keys2, prev, j, matchEnd))
  }

  ghost function StartOf(keys1: seq<string>, keys2: seq<string>, i: nat, j: nat, matchEnd: nat, prev: string): nat
    requires i < |keys1| && LoopOk(keys1, keys2, i, j, matchEnd, prev)
  {
    if keys1[i] != prev then LessEnd(keys2, matchEnd, keys1[i]) else j
  }

  /** The run of line `i`'s key is found, and no earlier match end is lost. */
  lemma RunOfLine(keys1: seq<string>, keys2: seq<string>, i: nat, j: nat, matchEnd: nat, prev: string)
    requires Sorted(keys1) && Sorted(keys2)
    requires i < |keys1| && LoopOk(keys1, keys2, i, j, matchEnd, prev)
    ensures var start := StartOf(keys1, keys2, i, j, matchEnd, prev);
            var end := EqualEnd(keys2, start, keys1[i]);
            && IsRun(keys2, keys1[i], start, end)
            && Max(matchEnd, end) == end
            && (keys1[i] == prev ==> end >= matchEnd && (i > 0 ==> end == matchEnd))
            && LoopOk(keys1, keys2, i + 1, start, Max(matchEnd, end), keys1[i])
  {
    var key := keys1[i];
    var start := StartOf(keys1, keys2, i, j, matchEnd, prev);
    if key != prev {
      if i > 0 {
        LessOrder(prev, key);
        forall n | 0 <= n < matchEnd
          ensures Less(keys2[n], key)
        {
          if n < j {
            LessAtMost(keys2[n], prev, key);
            LessTransitive(keys2[n], prev, key);
          }
        }
      }
      FindRun(keys2, matchEnd, key);
    } else if i > 0 {
      RunEnd(keys2, key, j, matchEnd);
    } else {
      assert LessEnd(keys2, 0, "") == 0;
      FindRun(keys2, 0, key);
    }
  }

  /** One line of the merge on sorted files. */
  lemma LineOfMerge(keys1: seq<string>, keys2: seq<string>, u: Unpaired, i: nat, j: nat, matchEnd: nat, prev: string)
    requires Sorted(keys1) && Sorted(keys2) && i < |keys1| && LoopOk(keys1, keys2, i, j, matchEnd, prev)
    ensures var key, start := keys1[i], StartOf(keys1, keys2, i, j, matchEnd, prev);
            var end := EqualEnd(keys2, start, key);
            && IsRun(keys2, key, start, end)
            && LoopOk(keys1, keys2, i + 1, start, end, key)
            && (key == prev && i > 0 ==> end == matchEnd)
            && Merge(keys1, keys2, u, i, j, matchEnd, prev) ==
               Row(u, i, key != prev, matchEnd, start, end) + Merge(keys1, keys2, u, i + 1, start, end, key)
  {
    hide Sorted, IsRun, Row, LessEnd, EqualEnd, Merge, Max;
    RunOfLine(keys1, keys2, i, j, matchEnd, prev);
    MergeOpens(keys1, keys2, u, i, j, matchEnd, prev);
  }

  lemma {:induction false} EqualEndOfRun(keys: seq<string>, key: string, start: nat, end: nat, k: nat)
    requires IsRun(keys, key, start, end) && start <= k <= end
    ensures EqualEnd(keys, k, key) == end
    decreases end - k
  {
    if k < end {
      EqualEndOfRun(keys, key, start, end, k + 1);
    } else if end < |keys| {
      LessOrder(key, keys[end]);
    }
  }

  lemma RunEnd(keys: seq<string>, key: string, start: nat, end: nat)
    requires IsRun(keys, key, start, end)
    ensures EqualEnd(keys, start, key) == end
  {
    EqualEndOfRun(keys, key, start, end, start);
  }

  // ----- pairs and unpaired lines of the first file ---------------------------------------------------

  lemma {:induction false} MergePairs(keys1: seq<string>, keys2: seq<string>, u: Unpaired,
                                      i: nat, j: nat, matchEnd: nat, prev: string)
    requires Sorted(keys1) && Sorted(keys2) && LoopOk(keys1, keys2, i, j, matchEnd, prev)
    ensures var events := Merge(keys1, keys2, u, i, j, matchEnd, prev);
            && Keep(events, PairKind) == NestedPairs(keys1, keys2, i)
            && Keep(events, LeftKind) == if u.first then UnpairedFirst(keys1, keys2, i) else []
    decreases |keys1| - i
  {
    if i == |keys1| {
      KeepUniform(Rights(matchEnd, |keys2|), RightKind, PairKind);
      KeepUniform(Rights(matchEnd, |keys2|), RightKind, LeftKind);
    } else {
      hide Keep, LessEnd, EqualEnd, Pairs, Sorted, Row, Merge, IsRun;
      var key := keys1[i];
      var start := StartOf(keys1, keys2, i, j, matchEnd, prev);
      var end := EqualEnd(keys2, start, key);
      LineOfMerge(keys1, keys2, u, i, j, matchEnd, prev);
      MergePairs(keys1, keys2, u, i + 1, start, end, key);
      PartnersBelow(keys2, i, key, start, end, 0);
      RunHolds(keys2, key, start, end);
      var rest := Merge(keys1, keys2, u, i + 1, start, end, key);
      RowParts(u, i, key != prev, matchEnd, start, end, rest, PairKind);
      RowParts(u, i, key != prev, matchEnd, start, end, rest, LeftKind);
    }
  }

  /** The parts of one row of the merge. */
  lemma RowParts(u: Unpaired, i: nat, changed: bool, matchEnd: nat, start: nat, end: nat, rest: seq<Event>, kind: Kind)
    requires start <= end && (changed ==> matchEnd <= start)
    ensures Keep(Row(u, i, changed, matchEnd, start, end) + rest, kind) ==
            (match kind
             case PairKind => Pairs(i, start, end)
             case LeftKind => if start == end && u.first then [Left(i)] else []
             case RightKind => if changed && u.second then Rights(matchEnd, start) else [])
            + Keep(rest, kind)
  {
    hide Keep, Pairs, Rights;
    KindsOf(i, start, end, matchEnd);
    KeepRow(if changed && u.second then Rights(matchEnd, start) else [], Pairs(i, start, end),
            if start == end && u.first then [Left(i)] else [], rest, kind);
  }

  ghost predicate Uniform(x: seq<Event>, kind: Kind) {
    forall n :: 0 <= n < |x| ==> KindOf(x[n]) == kind
  }

  lemma KeepRow(rights: seq<Event>, pairs: seq<Event>, lefts: seq<Event>, rest: seq<Event>, kind: Kind)
    requires Uniform(rights, RightKind) && Uniform(pairs, PairKind) && Uniform(lefts, LeftKind)
    ensures Keep(rights + pairs + lefts + rest, kind) ==
            (match kind
             case PairKind => pairs
             case LeftKind => lefts
             case RightKind => rights)
            + Keep(rest, kind)
  {
    hide Keep;
    KeepConcat(rights + pairs + lefts, rest, kind);
    KeepConcat(rights + pairs, lefts, kind);
    KeepConcat(rights, pairs, kind);
    KeepUniform(rights, RightKind, kind);
    KeepUniform(pairs, PairKind, kind);
    KeepUniform(lefts, LeftKind, kind);
  }

  lemma KindsOf(i: nat, start: nat, end: nat, from: nat)
    requires start <= end
    ensures Uniform(Pairs(i, start, end), PairKind)
    ensures from <= start ==> Uniform(Rights(from, start), RightKind)
  {
  }

  // ----- unpaired lines of the second file ---------------------------------------------------------------

  lemma {:induction false} AllUnpaired(keys1: seq<string>, keys2: seq<string>, from: nat, end: nat)
    requires from <= end <= |keys2| && forall k :: from <= k < end ==> keys2[k] !in keys1
    ensures UnpairedSecond(keys1, keys2, from) == Rights(from, end) + UnpairedSecond(keys1, keys2, end)
    decreases end - from
  {
    if from < end {
      AllUnpaired(keys1, keys2, from + 1, end);
      assert Rights(from, end) == [Right(from)] + Rights(from + 1, end);
    } else {
      assert Rights(from, end) == [];
    }
  }

  lemma {:induction false} AllPaired(keys1: seq<string>, keys2: seq<string>, from: nat, end: nat)
    requires from <= end <= |keys2| && forall k :: from <= k < end ==> keys2[k] in keys1
    ensures UnpairedSecond(keys1, keys2, from) == UnpairedSecond(keys1, keys2, end)
    decreases end - from
  {
    if from < end {
      AllPaired(keys1, keys2, from + 1, end);
    }
  }

  /** Keys strictly between two consecutive keys of the first file, or outside them all, are not in it. */
  lemma BetweenIsUnpaired(keys1: seq<string>, i: nat, key: string)
    requires Sorted(keys1) && i <= |keys1|
    requires i > 0 ==> Less(keys1[i - 1], key)
    requires i < |keys1| ==> Less(key, keys1[i])
    ensures key !in keys1
  {
    forall n | 0 <= n < |keys1|
      ensures keys1[n] != key
    {
      if n < i {
        if n < i - 1 {
          LessAtMost(keys1[n], keys1[i - 1], key);
        }
        LessOrder(keys1[n], key);
      } else {
        if n > i {
          LessAtMost(key, keys1[i], keys1[n]);
        }
        LessOrder(key, keys1[n]);
      }
    }
  }

  lemma {:induction false} MergeRights(keys1: seq<string>, keys2: seq<string>, u: Unpaired,
                                       i: nat, j: nat, matchEnd: nat, prev: string)
    requires Sorted(keys1) && Sorted(keys2) && LoopOk(keys1, keys2, i, j, matchEnd, prev) && u.second
    ensures Keep(Merge(keys1, keys2, u, i, j, matchEnd, prev), RightKind) == UnpairedSecond(keys1, keys2, matchEnd)
    decreases |keys1| - i
  {
    if i == |keys1| {
      KeepUniform(Rights(matchEnd, |keys2|), RightKind, RightKind);
      forall k | matchEnd <= k < |keys2|
        ensures keys2[k] !in keys1
      {
        BetweenIsUnpaired(keys1, i, keys2[k]);
      }
      AllUnpaired(keys1, keys2, matchEnd, |keys2|);
    } else {
      hide Keep, LessEnd, EqualEnd, Pairs, Rights, Sorted, Row, Merge, IsRun;
      var key := keys1[i];
      var start := StartOf(keys1, keys2, i, j, matchEnd, prev);
      var end := EqualEnd(keys2, start, key);
      LineOfMerge(keys1, keys2, u, i, j, matchEnd, prev);
      MergeRights(keys1, keys2, u, i + 1, start, end, key);
      RowParts(u, i, key != prev, matchEnd, start, end, Merge(keys1, keys2, u, i + 1, start, end, key), RightKind);
      RowRights(keys1, keys2, i, j, matchEnd, prev, start, end);
    }
  }

  /** From one match end to the next: the skipped lines are unpaired, the run is paired. */
  lemma RowRights(keys1: seq<string>, keys2: seq<string>, i: nat, j: nat, matchEnd: nat, prev: string,
                  start: nat, end: nat)
    requires Sorted(keys1) && Sorted(keys2) && i < |keys1| && LoopOk(keys1, keys2, i, j, matchEnd, prev)
    requires IsRun(keys2, keys1[i], start, end)
    requires if keys1[i] != prev then matchEnd <= start else i > 0 ==> end == matchEnd
    requires keys1[i] == prev && i == 0 ==> start == 0
    ensures UnpairedSecond(keys1, keys2, matchEnd) ==
            (if keys1[i] != prev then Rights(matchEnd, start) else []) + UnpairedSecond(keys1, keys2, end)
  {
    if keys1[i] != prev {
      forall k | matchEnd <= k < start
        ensures keys2[k] !in keys1
      {
        BetweenIsUnpaired(keys1, i, keys2[k]);
      }
      AllUnpaired(keys1, keys2, matchEnd, start);
      AllPaired(keys1, keys2, start, end);
    } else if i == 0 {
      AllPaired(keys1, keys2, 0, end);
    }
  }

  // ----- the theorem ---------------------------------------------------------------------------------------

  /**
   On sorted files the merge prints exactly the pairs of the nested loop, in its order; with `-a 1`
   and `-a 2` exactly the unpaired lines of that file, once each and in order; without, none.
   */
  lemma MergeIsNestedLoop(keys1: seq<string>, keys2: seq<string>, u: Unpaired)
    requires Sorted(keys1) && Sorted(keys2)
    ensures var events := Joined(keys1, keys2, u);
            && Keep(events, PairKind) == NestedPairs(keys1, keys2, 0)
            && Keep(events, LeftKind) == (if u.first then UnpairedFirst(keys1, keys2, 0) else [])
            && Keep(events, RightKind) == (if u.second then UnpairedSecond(keys1, keys2, 0) else [])
  {
    MergePairs(keys1, keys2, u, 0, 0, 0, "");
    if u.second {
      MergeRights(keys1, keys2, u, 0, 0, 0, "");
    } else {
      NoRights(keys1, keys2, u, 0, 0, 0, "");
    }
  }

  lemma {:induction false} NoRights(keys1: seq<string>, keys2: seq<string>, u: Unpaired,
                                    i: nat, j: nat, matchEnd: nat, prev: string)
    requires i <= |keys1| && j <= |keys2| && matchEnd <= |keys2| && !u.second
    ensures Keep(Merge(keys1, keys2, u, i, j, matchEnd, prev), RightKind) == []
    decreases |keys1| - i
  {
    if i < |keys1| {
      hide Keep, Pairs, Rights, Row;
      var key := keys1[i];
      var start := if key != prev then LessEnd(keys2, matchEnd, key) else j;
      var end := EqualEnd(keys2, start, key);
      NoRights(keys1, keys2, u, i + 1, start, Max(matchEnd, end), key);
      RowParts(u, i, key != prev, matchEnd, start, end,
               Merge(keys1, keys2, u, i + 1, start, Max(matchEnd, end), key), RightKind);
    }
  }

  /** Nested-loop pairs are exactly the pairs with equal keys. */
  lemma {:induction false} NestedPairsAreAll(keys1: seq<string>, keys2: seq<string>, i: nat, e: Event)
    requires i <= |keys1|
    ensures e in NestedPairs(keys1, keys2, i) <==>
            e.Pair? && i <= e.i < |keys1| && e.k < |keys2| && keys1[e.i] == keys2[e.k]
    decreases |keys1| - i
  {
    hide Partners;
    if i < |keys1| {
      NestedPairsAreAll(keys1, keys2, i + 1, e);
      PartnersHold(keys2, i, 0, keys1[i], e);
      InConcat(Partners(keys2, i, 0, keys1[i]), NestedPairs(keys1, keys2, i + 1), e);
    }
  }

  lemma {:induction false} PartnersHold(keys2: seq<string>, i: nat, k: nat, key: string, e: Event)
    requires k <= |keys2|
    ensures e in Partners(keys2, i, k, key) <==> e.Pair? && e.i == i && k <= e.k < |keys2| && keys2[e.k] == key
    decreases |keys2| - k
  {
    hide Partners;
    PartnersOpens(keys2, i, k, key);
    if k < |keys2| {
      PartnersHold(keys2, i, k + 1, key, e);
      if keys2[k] == key {
        InFront(Pair(i, k), Partners(keys2, i, k + 1, key), e);
      } else {
        assert [] + Partners(keys2, i, k + 1, key) == Partners(keys2, i, k + 1, key);
      }
    }
  }

  lemma InFront(x: Event, rest: seq<Event>, e: Event)
    ensures e in [x] + rest <==> e == x || e in rest
  {
  }

  lemma InConcat(x: seq<Event>, y: seq<Event>, e: Event)
    ensures e in x + y <==> e in x || e in y
  {
  }

  // ----- the fields ---------------------------------------------------------------------------------------

  /** The first field has number 1; a field that is not there is empty. */
  function FieldText(fields: Fields, number: nat): string {
    if 1 <= number <= |fields| then fields[number - 1] else ""
  }

  lemma {:induction false} InKeep(events: seq<Event>, e: Event)
    ensures e in Keep(events, KindOf(e)) <==> e in events
  {
    if events != [] {
      InKeep(events[1..], e);
      HeadAndTail(events);
      InConcat([events[0]], events[1..], e);
      InConcat(if KindOf(events[0]) == KindOf(e) then [events[0]] else [], Keep(events[1..], KindOf(e)), e);
    }
  }

  lemma {:induction false} UnpairedFirstAre(keys1: seq<string>, keys2: seq<string>, i: nat, e: Event)
    requires i <= |keys1|
    ensures e in UnpairedFirst(keys1, keys2, i) <==> e.Left? && i <= e.i < |keys1| && keys1[e.i] !in keys2
    decreases |keys1| - i
  {
    hide UnpairedFirst;
    UnpairedFirstOpens(keys1, keys2, i);
    if i < |keys1| {
      UnpairedFirstAre(keys1, keys2, i + 1, e);
      InFront(Left(i), UnpairedFirst(keys1, keys2, i + 1), e);
    }
  }

  lemma UnpairedFirstOpens(keys1: seq<string>, keys2: seq<string>, i: nat)
    requires i <= |keys1|
    ensures UnpairedFirst(keys1, keys2, i) ==
            if i == |keys1| then []
            else if keys1[i] !in keys2 then [Left(i)] + UnpairedFirst(keys1, keys2, i + 1)
            else UnpairedFirst(keys1, keys2, i + 1)
  {
    if i < |keys1| && keys1[i] in keys2 {
      assert [] + UnpairedFirst(keys1, keys2, i + 1) == UnpairedFirst(keys1, keys2, i + 1);
    }
  }

  lemma {:induction false} UnpairedSecondAre(keys1: seq<string>, keys2: seq<string>, k: nat, e: Event)
    requires k <= |keys2|
    ensures e in UnpairedSecond(keys1, keys2, k) <==> e.Right? && k <= e.k < |keys2| && keys2[e.k] !in keys1
    decreases |keys2| - k
  {
    hide UnpairedSecond;
    UnpairedSecondOpens(keys1, keys2, k);
    if k < |keys2| {
      UnpairedSecondAre(keys1, keys2, k + 1, e);
      InFront(Right(k), UnpairedSecond(keys1, keys2, k + 1), e);
    }
  }

  lemma UnpairedSecondOpens(keys1: seq<string>, keys2: seq<string>, k: nat)
    requires k <= |keys2|
    ensures UnpairedSecond(keys1, keys2, k) ==
            if k == |keys2| then []
            else if keys2[k] !in keys1 then [Right(k)] + UnpairedSecond(keys1, keys2, k + 1)
            else UnpairedSecond(keys1, keys2, k + 1)
  {
    if k < |keys2| && keys2[k] in keys1 {
      assert [] + UnpairedSecond(keys1, keys2, k + 1) == UnpairedSecond(keys1, keys2, k + 1);
    }
  }

  lemma KeysAreFields(lines: seq<Fields>, field: nat, key: string)
    ensures forall i :: 0 <= i < |lines| ==> Keys(lines, field)[i] == FieldText(lines[i], field)
    ensures key in Keys(lines, field) <==> exists i: nat :: i < |lines| && FieldText(lines[i], field) == key
  {
    var keys := Keys(lines, field);
    assert forall i: nat :: i < |lines| ==> keys[i] == FieldText(lines[i], field);
    if key in keys {
      var i: nat :| i < |keys| && keys[i] == key;
      assert FieldText(lines[i], field) == key;
    }
  }

  /** Two lines are joined exactly if the chosen fields are the same text. */
  lemma JoinedOnFields(lines1: seq<Fields>, lines2: seq<Fields>, field1: nat, field2: nat, u: Unpaired, i: nat, k: nat)
    requires Sorted(Keys(lines1, field1)) && Sorted(Keys(lines2, field2))
    ensures Pair(i, k) in Joined(Keys(lines1, field1), Keys(lines2, field2), u) <==>
            i < |lines1| && k < |lines2| && FieldText(lines1[i], field1) == FieldText(lines2[k], field2)
  {
    hide Keep, NestedPairs, Joined, GetKey, FieldText, Sorted;
    var keys1, keys2 := Keys(lines1, field1), Keys(lines2, field2);
    MergeIsNestedLoop(keys1, keys2, u);
    InKeep(Joined(keys1, keys2, u), Pair(i, k));
    NestedPairsAreAll(keys1, keys2, 0, Pair(i, k));
    KeysAreFields(lines1, field1, "");
    KeysAreFields(lines2, field2, "");
  }

  /** With `-a 1` a line of the first file is printed by itself exactly if no line of the second has its field. */
  lemma UnpairedOnFields(lines1: seq<Fields>, lines2: seq<Fields>, field1: nat, field2: nat, u: Unpaired, i: nat)
    requires Sorted(Keys(lines1, field1)) && Sorted(Keys(lines2, field2))
    ensures Left(i) in Joined(Keys(lines1, field1), Keys(lines2, field2), u) <==>
            && u.first && i < |lines1|
            && !exists k: nat :: k < |lines2| && FieldText(lines2[k], field2) == FieldText(lines1[i], field1)
    ensures Right(i) in Joined(Keys(lines1, field1), Keys(lines2, field2), u) <==>
            && u.second && i < |lines2|
            && !exists k: nat :: k < |lines1| && FieldText(lines1[k], field1) == FieldText(lines2[i], field2)
  {
    hide Keep, UnpairedFirst, UnpairedSecond, Joined, GetKey, FieldText, Sorted;
    var keys1, keys2 := Keys(lines1, field1), Keys(lines2, field2);
    MergeIsNestedLoop(keys1, keys2, u);
    InKeep(Joined(keys1, keys2, u), Left(i));
    InKeep(Joined(keys1, keys2, u), Right(i));
    UnpairedFirstAre(keys1, keys2, 0, Left(i));
    UnpairedSecondAre(keys1, keys2, 0, Right(i));
    KeysAreFields(lines1, field1, if i < |lines2| then FieldText(lines2[i], field2) else "");
    KeysAreFields(lines2, field2, if i < |lines1| then FieldText(lines1[i], field1) else "");
  }

  // ----- the rows printed ---------------------------------------------------------------------------------

  function Rows(events: seq<Event>, render: Event -> string): (rows: seq<string>)
    ensures |rows| == |events|
  {
    seq(|events|, n requires 0 <= n < |events| => render(events[n]))
  }

  /** Rows without newlines can be read back: each stands on a line of its own. */
  lemma {:induction false} RowsReadBack(events: seq<Event>, render: Event -> string)
    requires forall n :: 0 <= n < |events| ==> '\n' !in render(events[n])
    ensures Divided(Text(events, render), '\n') == Rows(events, render) + [""]
  {
    hide Divided, Text;
    if events == [] {
      TextNothing(render);
      DividedFirst("", "", '\n');
    } else {
      RowsReadBack(events[1..], render);
      TextOpens(events, render);
      Associates(render(events[0]), "\n", Text(events[1..], render));
      DividedFirst(render(events[0]), Text(events[1..], render), '\n');
      assert Rows(events, render) == [render(events[0])] + Rows(events[1..], render);
    }
  }

  // ----- the order of all output --------------------------------------------------------------------------

  function KeyOf(e: Event, keys1: seq<string>, keys2: seq<string>): string {
    match e
    case Pair(i, _) => if i < |keys1| then keys1[i] else ""
    case Left(i) => if i < |keys1| then keys1[i] else ""
    case Right(k) => if k < |keys2| then keys2[k] else ""
  }

  ghost predicate Ordered(events: seq<Event>, keys1: seq<string>, keys2: seq<string>) {
    forall a, b :: 0 <= a < b < |events| ==> AtMost(KeyOf(events[a], keys1, keys2), KeyOf(events[b], keys1, keys2))
  }

  ghost predicate Above(events: seq<Event>, key: string, keys1: seq<string>, keys2: seq<string>) {
    forall a :: 0 <= a < |events| ==> AtMost(key, KeyOf(events[a], keys1, keys2))
  }

  ghost predicate Below(events: seq<Event>, key: string, keys1: seq<string>, keys2: seq<string>) {
    forall a :: 0 <= a < |events| ==> AtMost(KeyOf(events[a], keys1, keys2), key)
  }

  lemma OrderedConcat(x: seq<Event>, y: seq<Event>, key: string, keys1: seq<string>, keys2: seq<string>)
    requires Ordered(x, keys1, keys2) && Ordered(y, keys1, keys2)
    requires Below(x, key, keys1, keys2) && Above(y, key, keys1, keys2)
    ensures Ordered(x + y, keys1, keys2)
  {
    forall a, b | 0 <= a < b < |x + y|
      ensures AtMost(KeyOf((x + y)[a], keys1, keys2), KeyOf((x + y)[b], keys1, keys2))
    {
      if a < |x| <= b {
        LessAtMost(KeyOf(x[a], keys1, keys2), key, KeyOf(y[b - |x|], keys1, keys2));
      }
    }
  }

  lemma BoundsConcat(x: seq<Event>, y: seq<Event>, low: string, high: string, keys1: seq<string>, keys2: seq<string>)
    ensures Above(x, low, keys1, keys2) && Above(y, low, keys1, keys2) ==> Above(x + y, low, keys1, keys2)
    ensures Below(x, high, keys1, keys2) && Below(y, high, keys1, keys2) ==> Below(x + y, high, keys1, keys2)
  {
    hide AtMost, KeyOf;
  }

  lemma AboveSmaller(events: seq<Event>, low: string, key: string, keys1: seq<string>, keys2: seq<string>)
    requires AtMost(low, key) && Above(events, key, keys1, keys2)
    ensures Above(events, low, keys1, keys2)
  {
    hide AtMost, KeyOf;
    forall a | 0 <= a < |events|
      ensures AtMost(low, KeyOf(events[a], keys1, keys2))
    {
      LessAtMost(low, key, KeyOf(events[a], keys1, keys2));
    }
  }

  lemma RowOrdered(keys1: seq<string>, keys2: seq<string>, u: Unpaired, i: nat, j: nat, matchEnd: nat, prev: string)
    requires Sorted(keys1) && Sorted(keys2) && i < |keys1| && LoopOk(keys1, keys2, i, j, matchEnd, prev)
    ensures var start := StartOf(keys1, keys2, i, j, matchEnd, prev);
            var end := EqualEnd(keys2, start, keys1[i]);
            var row := Row(u, i, keys1[i] != prev, matchEnd, start, end);
            && Ordered(row, keys1, keys2)
            && Below(row, keys1[i], keys1, keys2)
            && Above(row, prev, keys1, keys2)
  {
    hide Less, AtMost, Sorted, KeyOf, Ordered, Above, Below, EqualEnd, Rights, Pairs, LessEnd;
    var key := keys1[i];
    var start := StartOf(keys1, keys2, i, j, matchEnd, prev);
    var end := EqualEnd(keys2, start, key);
    RunOfLine(keys1, keys2, i, j, matchEnd, prev);
    var skipped := if key != prev && u.second then Rights(matchEnd, start) else [];
    var own := Pairs(i, start, end) + (if start == end && u.first then [Left(i)] else []);
    Associates(skipped, Pairs(i, start, end), if start == end && u.first then [Left(i)] else []);
    SkippedBefore(keys1, keys2, u, i, j, matchEnd, prev, start);
    OwnOrdered(keys1, keys2, u, i, start, end);
    AtMostNext(keys1, i, prev);
    AboveSmaller(own, prev, key, keys1, keys2);
    OrderedConcat(skipped, own, key, keys1, keys2);
    BoundsConcat(skipped, own, prev, key, keys1, keys2);
  }

  /** What a changed key skips lies between the two keys. */
  lemma SkippedBefore(keys1: seq<string>, keys2: seq<string>, u: Unpaired, i: nat, j: nat, matchEnd: nat, prev: string,
                      start: nat)
    requires Sorted(keys1) && Sorted(keys2) && i < |keys1| && LoopOk(keys1, keys2, i, j, matchEnd, prev)
    requires start == StartOf(keys1, keys2, i, j, matchEnd, prev)
    ensures var skipped := if keys1[i] != prev && u.second then Rights(matchEnd, start) else [];
            && Ordered(skipped, keys1, keys2)
            && Below(skipped, keys1[i], keys1, keys2)
            && Above(skipped, prev, keys1, keys2)
  {
    hide Less, AtMost, Sorted, KeyOf, Ordered, Above, Below, Rights, LessEnd;
    if keys1[i] != prev && u.second {
      forall n | matchEnd <= n < start
        ensures AtMost(prev, keys2[n])
      {
        PastPrevious(keys1, keys2, i, j, matchEnd, prev, n);
      }
      SkippedOrdered(keys1, keys2, matchEnd, start, prev, keys1[i]);
    } else {
      NothingOrdered(keys1, keys2, keys1[i], prev);
    }
  }

  /** Keys not read yet are at least the previous one. */
  lemma PastPrevious(keys1: seq<string>, keys2: seq<string>, i: nat, j: nat, matchEnd: nat, prev: string, n: nat)
    requires LoopOk(keys1, keys2, i, j, matchEnd, prev) && matchEnd <= n < |keys2|
    ensures AtMost(prev, keys2[n])
  {
    hide Less;
    if i > 0 {
      LessOrder(prev, keys2[n]);
    } else {
      NothingBelowEmpty(keys2[n]);
    }
  }

  lemma NothingBelowEmpty(key: string)
    ensures AtMost("", key)
  {
  }

  lemma NothingOrdered(keys1: seq<string>, keys2: seq<string>, high: string, low: string)
    ensures Ordered([], keys1, keys2) && Below([], high, keys1, keys2) && Above([], low, keys1, keys2)
  {
  }

  /** What carries the key of line `i` itself. */
  lemma OwnOrdered(keys1: seq<string>, keys2: seq<string>, u: Unpaired, i: nat, start: nat, end: nat)
    requires i < |keys1| && start <= end
    ensures var own := Pairs(i, start, end) + (if start == end && u.first then [Left(i)] else []);
            && Ordered(own, keys1, keys2)
            && Below(own, keys1[i], keys1, keys2)
            && Above(own, keys1[i], keys1, keys2)
  {
    LessOrder(keys1[i], keys1[i]);
    var own := Pairs(i, start, end) + (if start == end && u.first then [Left(i)] else []);
    assert forall a :: 0 <= a < |own| ==> KeyOf(own[a], keys1, keys2) == keys1[i];
  }

  lemma SkippedOrdered(keys1: seq<string>, keys2: seq<string>, from: nat, end: nat, prev: string, key: string)
    requires Sorted(keys2) && from <= end <= |keys2|
    requires forall n :: from <= n < end ==> AtMost(prev, keys2[n]) && Less(keys2[n], key)
    ensures Ordered(Rights(from, end), keys1, keys2)
    ensures Below(Rights(from, end), key, keys1, keys2) && Above(Rights(from, end), prev, keys1, keys2)
  {
    forall n | from <= n < end
      ensures AtMost(keys2[n], key)
    {
      LessOrder(keys2[n], key);
    }
  }

  /** The rest of the second file, once the first is at its end. */
  lemma RestOrdered(keys1: seq<string>, keys2: seq<string>, j: nat, matchEnd: nat, prev: string)
    requires Sorted(keys2) && LoopOk(keys1, keys2, |keys1|, j, matchEnd, prev)
    ensures Ordered(Rights(matchEnd, |keys2|), keys1, keys2) && Above(Rights(matchEnd, |keys2|), prev, keys1, keys2)
  {
    hide Less;
    forall n | matchEnd <= n < |keys2|
      ensures AtMost(prev, keys2[n])
    {
      PastPrevious(keys1, keys2, |keys1|, j, matchEnd, prev, n);
    }
  }

  lemma {:induction false} MergeOrdered(keys1: seq<string>, keys2: seq<string>, u: Unpaired,
                                        i: nat, j: nat, matchEnd: nat, prev: string)
    requires Sorted(keys1) && Sorted(keys2) && LoopOk(keys1, keys2, i, j, matchEnd, prev)
    ensures var events := Merge(keys1, keys2, u, i, j, matchEnd, prev);
            Ordered(events, keys1, keys2) && Above(events, prev, keys1, keys2)
    decreases |keys1| - i
  {
    hide Merge, LessEnd, EqualEnd, Row, Ordered, Above, Below, KeyOf, Less, AtMost, Sorted, Rights;
    if i == |keys1| {
      MergeEnds(keys1, keys2, u, j, matchEnd, prev);
      RestOrdered(keys1, keys2, j, matchEnd, prev);
      NothingOrdered(keys1, keys2, prev, prev);
    } else {
      var key := keys1[i];
      var start := StartOf(keys1, keys2, i, j, matchEnd, prev);
      var end := EqualEnd(keys2, start, key);
      LineOfMerge(keys1, keys2, u, i, j, matchEnd, prev);
      RowOrdered(keys1, keys2, u, i, j, matchEnd, prev);
      var row, rest := Row(u, i, key != prev, matchEnd, start, end), Merge(keys1, keys2, u, i + 1, start, end, key);
      MergeOrdered(keys1, keys2, u, i + 1, start, end, key);
      OrderedConcat(row, rest, key, keys1, keys2);
      AtMostNext(keys1, i, prev);
      AboveSmaller(rest, prev, key, keys1, keys2);
      BoundsConcat(row, rest, prev, key, keys1, keys2);
    }
  }

  lemma AtMostNext(keys1: seq<string>, i: nat, prev: string)
    requires Sorted(keys1) && i < |keys1| && prev == (if i == 0 then "" else keys1[i - 1])
    ensures AtMost(prev, keys1[i])
  {
  }

  /** Everything the merge prints comes in key order. */
  lemma OutputIsInKeyOrder(keys1: seq<string>, keys2: seq<string>, u: Unpaired)
    requires Sorted(keys1) && Sorted(keys2)
    ensures Ordered(Joined(keys1, keys2, u), keys1, keys2)
  {
    MergeOrdered(keys1, keys2, u, 0, 0, 0, "");
  }
}
