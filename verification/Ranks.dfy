/**
 * Tie-averaged ranks: values are sorted in descending order, runs of values close to the first
 * of the run share the average of their positions.
 */
module Ranks {
  import opened Prelude

  /** A value with the position it has in the input. */
  datatype Entry = Entry(value: real, index: nat)

  // ---------------------------------------------------------------------------------------
  // Sorting
  // ---------------------------------------------------------------------------------------

  function Enumerated(values: seq<real>): seq<Entry> {
    seq(|values|, i requires 0 <= i < |values| => Entry(values[i], i))
  }

  /** Stable insertion: an entry goes in front of those whose value is no greater. */
  function Insert(x: Entry, s: seq<Entry>): (r: seq<Entry>)
    ensures multiset(r) == multiset([x] + s)
  {
    if s == [] || x.value >= s[0].value then [x] + s
    else
      assert s == [s[0]] + s[1..];
      [s[0]] + Insert(x, s[1..])
  }

  /** The entries in descending order of value, equal values in their original order. */
  function SortedDown(s: seq<Entry>): (r: seq<Entry>)
    ensures multiset(r) == multiset(s)
    ensures |r| == |s|
  {
    if s == [] then []
    else
      assert s == [s[0]] + s[1..];
      var r := Insert(s[0], SortedDown(s[1..]));
      assert |multiset(r)| == |r| && |multiset(s)| == |s|;
      r
  }

  ghost predicate Descending(s: seq<Entry>) {
    forall i, j :: 0 <= i < j < |s| ==> s[i].value >= s[j].value
  }

  lemma {:induction false} InsertKeepsOrder(x: Entry, s: seq<Entry>)
    requires Descending(s)
    ensures Descending(Insert(x, s))
  {
    if s != [] && x.value < s[0].value {
      var r := Insert(x, s[1..]);
      InsertKeepsOrder(x, s[1..]);
      AllBelow(x, s, r);
      hide Insert;
      assert Descending([s[0]] + r);
    }
  }

  lemma AllBelow(x: Entry, s: seq<Entry>, r: seq<Entry>)
    requires Descending(s) && s != [] && x.value < s[0].value && multiset(r) == multiset([x] + s[1..])
    ensures forall k :: 0 <= k < |r| ==> r[k].value <= s[0].value
  {
    forall k | 0 <= k < |r|
      ensures r[k].value <= s[0].value
    {
      assert r[k] in multiset(r);
      assert r[k] in [x] + s[1..];
    }
  }

  lemma {:induction false} SortedIsDescending(s: seq<Entry>)
    ensures Descending(SortedDown(s))
  {
    if s != [] {
      SortedIsDescending(s[1..]);
      InsertKeepsOrder(s[0], SortedDown(s[1..]));
    }
  }

  // ---------------------------------------------------------------------------------------
  // Counting
  // ---------------------------------------------------------------------------------------

  /** How many entries have a value strictly greater than v. */
  function Greater(s: seq<Entry>, v: real): nat {
    if s == [] then 0 else (if s[0].value > v then 1 else 0) + Greater(s[1..], v)
  }

  /** How many entries have value v. */
  function Equal(s: seq<Entry>, v: real): nat {
    if s == [] then 0 else (if s[0].value == v then 1 else 0) + Equal(s[1..], v)
  }

  lemma {:induction false} CountsAppend(a: seq<Entry>, b: seq<Entry>, v: real)
    ensures Greater(a + b, v) == Greater(a, v) + Greater(b, v)
    ensures Equal(a + b, v) == Equal(a, v) + Equal(b, v)
  {
    if a == [] {
      assert a + b == b;
    } else {
      assert (a + b)[1..] == a[1..] + b;
      CountsAppend(a[1..], b, v);
    }
  }

  lemma {:induction false} AllGreater(s: seq<Entry>, v: real)
    requires forall k :: 0 <= k < |s| ==> s[k].value > v
    ensures Greater(s, v) == |s| && Equal(s, v) == 0
  {
    if s != [] {
      AllGreater(s[1..], v);
    }
  }

  lemma {:induction false} AllEqual(s: seq<Entry>, v: real)
    requires forall k :: 0 <= k < |s| ==> s[k].value == v
    ensures Greater(s, v) == 0 && Equal(s, v) == |s|
  {
    if s != [] {
      AllEqual(s[1..], v);
    }
  }

  lemma {:induction false} AllLess(s: seq<Entry>, v: real)
    requires forall k :: 0 <= k < |s| ==> s[k].value < v
    ensures Greater(s, v) == 0 && Equal(s, v) == 0
  {
    if s != [] {
      AllLess(s[1..], v);
    }
  }

  lemma {:induction false} InsertKeepsCounts(x: Entry, s: seq<Entry>, v: real)
    ensures Greater(Insert(x, s), v) == Greater([x] + s, v) && Equal(Insert(x, s), v) == Equal([x] + s, v)
  {
    if s != [] && x.value < s[0].value {
      InsertKeepsCounts(x, s[1..], v);
      assert ([s[0]] + Insert(x, s[1..]))[1..] == Insert(x, s[1..]);
      assert ([x] + s[1..])[1..] == s[1..] && ([x] + s)[1..] == s;
    }
  }

  lemma {:induction false} SortingKeepsCounts(s: seq<Entry>, v: real)
    ensures Greater(SortedDown(s), v) == Greater(s, v) && Equal(SortedDown(s), v) == Equal(s, v)
  {
    if s != [] {
      SortingKeepsCounts(s[1..], v);
      InsertKeepsCounts(s[0], SortedDown(s[1..]), v);
      var r := SortedDown(s[1..]);
      assert ([s[0]] + r)[1..] == r;
    }
  }

  lemma {:induction false} SmallerSeesMoreGreater(s: seq<Entry>, x: real, y: real)
    requires y < x
    ensures Greater(s, x) + Equal(s, x) <= Greater(s, y)
  {
    if s != [] {
      SmallerSeesMoreGreater(s[1..], x, y);
    }
  }

  lemma {:induction false} PresentIsCounted(s: seq<Entry>, p: nat)
    requires p < |s|
    ensures 1 <= Equal(s, s[p].value)
  {
    if p > 0 {
      PresentIsCounted(s[1..], p - 1);
    }
  }

  /** The rank that a value deserves: the average position of the entries equal to it. */
  function FairRank(s: seq<Entry>, v: real): real {
    Greater(s, v) as real + (Equal(s, v) as real + 1.0) / 2.0
  }

  // ---------------------------------------------------------------------------------------
  // Groups of close values
  // ---------------------------------------------------------------------------------------

  /** The first position from j on whose value is not close to the one at i. */
  function GroupEnd(s: seq<Entry>, i: nat, j: nat): (end: nat)
    requires i < |s| && j <= |s|
    ensures j <= end <= |s|
    ensures forall k :: j <= k < end ==> IsClose(s[k].value, s[i].value)
    ensures end < |s| ==> !IsClose(s[end].value, s[i].value)
    decreases |s| - j
  {
    if j < |s| && IsClose(s[j].value, s[i].value) then GroupEnd(s, i, j + 1) else j
  }

  function Average(i: nat, j: nat): real {
    (i + 1 + j) as real / 2.0
  }

  /** The group of position p, when groups are formed from position i on. */
  function GroupOf(s: seq<Entry>, i: nat, p: nat): (group: (nat, nat))
    requires i <= p < |s|
    ensures i <= group.0 <= p < group.1 <= |s| && group.1 == GroupEnd(s, group.0, group.0)
    decreases |s| - i
  {
    var end := GroupEnd(s, i, i);
    if p < end then (i, end) else GroupOf(s, end, p)
  }

  /** The rank given to the entry at position p of the sorted list. */
  function PositionRank(s: seq<Entry>, p: nat): real
    requires p < |s|
  {
    var (i, j) := GroupOf(s, 0, p);
    Average(i, j)
  }

  /** No two different values are close. */
  ghost predicate NoNearTies(s: seq<Entry>) {
    forall p, q :: 0 <= p < |s| && 0 <= q < |s| && IsClose(s[p].value, s[q].value) ==> s[p].value == s[q].value
  }

  ghost predicate StartsFresh(s: seq<Entry>, i: nat)
    requires i <= |s|
  {
    forall k, m :: 0 <= k < i <= m < |s| ==> s[k].value > s[m].value
  }

  lemma {:induction false} FairWithoutNearTies(s: seq<Entry>, i: nat, p: nat)
    requires Descending(s) && NoNearTies(s) && i <= p < |s| && StartsFresh(s, i)
    ensures var (a, b) := GroupOf(s, i, p); Average(a, b) == FairRank(s, s[p].value)
    decreases |s| - i
  {
    var end := GroupEnd(s, i, i);
    var v := s[i].value;
    forall k | i <= k < end
      ensures s[k].value == v
    {
      assert IsClose(s[k].value, s[i].value);
    }
    forall m | end <= m < |s|
      ensures s[m].value < v
    {
      assert s[m].value <= s[end].value <= v;
      assert !IsClose(s[end].value, s[i].value);
    }
    if p < end {
      BlockCounts(s, i, end, v);
    } else {
      assert StartsFresh(s, end);
      FairWithoutNearTies(s, end, p);
    }
  }

  lemma {:induction false} BlockCounts(s: seq<Entry>, i: nat, j: nat, v: real)
    requires i <= j <= |s|
    requires forall k :: 0 <= k < i ==> s[k].value > v
    requires forall k :: i <= k < j ==> s[k].value == v
    requires forall k :: j <= k < |s| ==> s[k].value < v
    ensures Greater(s, v) == i && Equal(s, v) == j - i
  {
    hide Greater, Equal;
    var before, block, after := s[..i], s[i..j], s[j..];
    AllGreater(before, v);
    AllEqual(block, v);
    AllLess(after, v);
    assert s == before + (block + after);
    CountsAppend(before, block + after, v);
    CountsAppend(block, after, v);
  }

  ghost predicate AllFair(s: seq<Entry>) {
    forall p :: 0 <= p < |s| ==> PositionRank(s, p) == FairRank(s, s[p].value)
  }

  /** If every rank is fair, no group mixes two values. */
  lemma {:induction false} FairGroupsAreConstant(s: seq<Entry>, p: nat, q: nat)
    requires p < |s| && q < |s| && GroupOf(s, 0, p) == GroupOf(s, 0, q)
    requires AllFair(s)
    ensures s[p].value == s[q].value
  {
    var x, y := s[p].value, s[q].value;
    PresentIsCounted(s, p);
    PresentIsCounted(s, q);
    assert FairRank(s, x) == PositionRank(s, p) == PositionRank(s, q) == FairRank(s, y);
    if x < y {
      SmallerSeesMoreGreater(s, y, x);
    } else if y < x {
      SmallerSeesMoreGreater(s, x, y);
    }
  }

  lemma {:induction false} SameGroup(s: seq<Entry>, i: nat, p: nat)
    requires i <= p < |s|
    ensures forall k :: GroupOf(s, i, p).0 <= k < GroupOf(s, i, p).1 ==> GroupOf(s, i, k) == GroupOf(s, i, p)
    decreases |s| - i
  {
    var end := GroupEnd(s, i, i);
    if end <= p {
      SameGroup(s, end, p);
    }
  }

  /** Between two close values lies nothing that is not close to one of them. */
  lemma CloseSplits(x: real, y: real, z: real)
    requires x > y > z && IsClose(z, x)
    ensures IsClose(y, x) || IsClose(z, y)
  {
  }

  lemma {:induction false} FairMeansNoNearTies(s: seq<Entry>, p: nat, q: nat)
    requires Descending(s) && p < q < |s|
    requires AllFair(s)
    requires IsClose(s[q].value, s[p].value)
    ensures s[p].value == s[q].value
    decreases q - p
  {
    hide AllFair, GroupEnd, IsClose;
    var (i, end) := GroupOf(s, 0, p);
    SameGroup(s, 0, p);
    FairGroupsAreConstant(s, p, i);
    if q < end {
      FairGroupsAreConstant(s, p, q);
    } else if s[p].value != s[q].value {
      var x, y, z := s[p].value, s[end].value, s[q].value;
      assert x >= y >= z;
      assert !IsClose(y, s[i].value);
      if y > z {
        CloseSplits(x, y, z);
        FairMeansNoNearTies(s, end, q);
      }
      assert false;
    }
  }

  /**
   * Main theorem: the ranks are the fair ones, for every entry, exactly when no two different
   * values of the list are close.
   */
  lemma RanksAreFairExactly(s: seq<Entry>)
    requires Descending(s)
    ensures AllFair(s) <==> NoNearTies(s)
  {
    if NoNearTies(s) {
      forall p | 0 <= p < |s|
        ensures PositionRank(s, p) == FairRank(s, s[p].value)
      {
        FairWithoutNearTies(s, 0, p);
      }
    }
    if AllFair(s) {
      hide AllFair, IsClose;
      forall p, q | 0 <= p < |s| && 0 <= q < |s| && IsClose(s[p].value, s[q].value)
        ensures s[p].value == s[q].value
      {
        CloseIsSymmetric(s[p].value, s[q].value);
        if p < q {
          FairMeansNoNearTies(s, p, q);
        } else if q < p {
          FairMeansNoNearTies(s, q, p);
        }
      }
    }
  }

  /** Two values half a trillionth apart share the rank 1.5, where 1 and 2 would be fair. */
  lemma NearTieIsUnfair()
    ensures var s := [Entry(1.0000000000005, 0), Entry(1.0, 1)];
      && PositionRank(s, 0) == 1.5 && FairRank(s, s[0].value) == 1.0
      && PositionRank(s, 1) == 1.5 && FairRank(s, s[1].value) == 2.0
  {
    var s := [Entry(1.0000000000005, 0), Entry(1.0, 1)];
    assert IsClose(s[0].value, s[0].value) && IsClose(s[1].value, s[0].value);
    assert GroupEnd(s, 0, 2) == 2 && GroupEnd(s, 0, 1) == 2 && GroupEnd(s, 0, 0) == 2;
    assert s[1..] == [s[1]] && s[1..][1..] == [];
  }

  lemma CloseIsSymmetric(x: real, y: real)
    ensures IsClose(x, y) == IsClose(y, x)
  {
  }

  // ---------------------------------------------------------------------------------------
  // The program
  // ---------------------------------------------------------------------------------------

  /** Every input position occurs exactly once in the sorted list, with its own value. */
  ghost predicate Arranges(s: seq<Entry>, values: seq<real>) {
    && |s| == |values|
    && (forall p :: 0 <= p < |s| ==> s[p].index < |values| && s[p].value == values[s[p].index])
    && (forall p, q :: 0 <= p < q < |s| ==> s[p].index != s[q].index)
    && (forall m :: 0 <= m < |values| ==> Entry(values[m], m) in s)
  }

  lemma {:induction false} EachEntryOnce(s: seq<Entry>, x: Entry)
    requires forall p, q :: 0 <= p < q < |s| ==> s[p] != s[q]
    ensures multiset(s)[x] <= 1
  {
    if s != [] {
      EachEntryOnce(s[1..], x);
      assert s == [s[0]] + s[1..];
      if x == s[0] {
        assert x !in s[1..];
      }
    }
  }

  lemma RepeatedEntry(s: seq<Entry>, p: nat, q: nat)
    requires p < q < |s| && s[p] == s[q]
    ensures multiset(s)[s[p]] >= 2
  {
    assert s == s[..q] + s[q..];
    assert s[..q][p] in multiset(s[..q]) && s[q..][0] in multiset(s[q..]);
  }

  lemma SortingArranges(values: seq<real>)
    ensures Arranges(SortedDown(Enumerated(values)), values)
  {
    var e := Enumerated(values);
    var s := SortedDown(e);
    PermutationArranges(values, s);
  }

  lemma PermutationArranges(values: seq<real>, s: seq<Entry>)
    requires multiset(s) == multiset(Enumerated(values)) && |s| == |values|
    ensures Arranges(s, values)
  {
    var e := Enumerated(values);
    forall p | 0 <= p < |s|
      ensures s[p].index < |values| && s[p].value == values[s[p].index]
    {
      assert s[p] in multiset(s);
      assert s[p] in e;
    }
    forall m | 0 <= m < |values|
      ensures Entry(values[m], m) in s
    {
      assert e[m] in multiset(e);
    }
    forall p, q | 0 <= p < q < |s|
      ensures s[p].index != s[q].index
    {
      EachEntryOnce(e, s[p]);
      if s[p] == s[q] {
        RepeatedEntry(s, p, q);
      }
    }
  }

  lemma {:induction false} SumOfUpdate(s: seq<real>, k: nat, v: real)
    requires k < |s|
    ensures Sum(s[k := v]) == Sum(s) - s[k] + v
  {
    var n := |s| - 1;
    if k == n {
      assert s[k := v][..n] == s[..n];
    } else {
      SumOfUpdate(s[..n], k, v);
      assert s[k := v][..n] == s[..n][k := v];
    }
  }

  lemma {:induction false} SumOfZeros(s: seq<real>)
    requires forall k :: 0 <= k < |s| ==> s[k] == 0.0
    ensures Sum(s) == 0.0
  {
    if s != [] {
      SumOfZeros(s[..|s| - 1]);
    }
  }

  /** 1 + 2 + ... + n. */
  function Triangle(n: nat): real {
    n as real * (n as real + 1.0) / 2.0
  }

  lemma TriangleOfGroup(i: nat, j: nat)
    requires i <= j
    ensures Triangle(i) + Times((j - i) as real, Average(i, j)) == Triangle(j)
    ensures Triangle(0) == 0.0
  {
    var x, y := i as real, j as real;
    assert (y - x) * (x + 1.0 + y) == y * (y + 1.0) - x * (x + 1.0);
  }

  lemma TimesStep(n: nat, x: real)
    ensures Times((n + 1) as real, x) == Times(n as real, x) + x
    ensures Times(0.0, x) == 0.0
  {
  }

  /** Positions before i hold their ranks, the others have not been touched. */
  ghost predicate RankedUpTo(s: seq<Entry>, ranks: seq<real>, i: nat) {
    && |ranks| == |s| && i <= |s|
    && (forall p :: 0 <= p < |s| ==> s[p].index < |s|)
    && (forall p :: 0 <= p < i ==> ranks[s[p].index] == PositionRank(s, p))
    && (forall p :: i <= p < |s| ==> ranks[s[p].index] == 0.0)
  }

  lemma RankOne(s: seq<Entry>, values: seq<real>, ranks: seq<real>, k: nat, rank: real)
    requires Arranges(s, values) && RankedUpTo(s, ranks, k) && k < |s| && rank == PositionRank(s, k)
    ensures s[k].index < |ranks|
    ensures RankedUpTo(s, ranks[s[k].index := rank], k + 1)
    ensures Sum(ranks[s[k].index := rank]) == Sum(ranks) + rank
  {
    SumOfUpdate(ranks, s[k].index, rank);
    var ranks' := ranks[s[k].index := rank];
    hide PositionRank;
    forall p | 0 <= p < |s|
      ensures ranks'[s[p].index] == if p == k then rank else ranks[s[p].index]
    {
      if p != k {
        assert s[p].index != s[k].index;
      }
    }
  }

  /**
   * Ranks with ties averaged.  Whatever counts as close, the ranks add up to 1 + 2 + ... + n; and
   * every value gets its fair rank exactly when no two different values are close.
   */
  method RankValues(values: seq<real>) returns (ranks: seq<real>)
    ensures |ranks| == |values|
    ensures Sum(ranks) == Triangle(|values|)
    ensures var s := SortedDown(Enumerated(values));
      forall p :: 0 <= p < |s| ==> s[p].index < |ranks| && ranks[s[p].index] == PositionRank(s, p)
    ensures (forall m :: 0 <= m < |values| ==> ranks[m] == FairRank(Enumerated(values), values[m]))
            <==> NoNearTies(Enumerated(values))
  {
    hide *;
    var n := |values|;
    var indexed := SortedDown(Enumerated(values));
    SortingArranges(values);
    var table := new real[n](_ => 0.0);
    NothingRanked(indexed, values, table[..]);
    var i := 0;
    while i < n
      invariant i <= n == |indexed|
      invariant RankedUpTo(indexed, table[..], i)
      invariant Sum(table[..]) == Triangle(i)
      invariant Boundary(indexed, i)
      decreases n - i
    {
      var j := FindGroupEnd(indexed, i);
      NextBoundary(indexed, i, j);
      var avgRank := Average(i, j);
      TriangleOfGroup(i, j);
      RankGroup(table, indexed, values, i, j, avgRank);
      i := j;
    }
    ranks := table[..];
    RankedAll(indexed, values, ranks);
    FairnessOfRanks(values, ranks);
  }

  lemma {:induction false} NothingRanked(s: seq<Entry>, values: seq<real>, ranks: seq<real>)
    requires Arranges(s, values) && |ranks| == |values| && forall k :: 0 <= k < |ranks| ==> ranks[k] == 0.0
    ensures |s| == |values| && RankedUpTo(s, ranks, 0) && Sum(ranks) == Triangle(0) && Boundary(s, 0)
  {
    SumOfZeros(ranks);
  }

  lemma RankedAll(s: seq<Entry>, values: seq<real>, ranks: seq<real>)
    requires RankedUpTo(s, ranks, |s|)
    ensures forall p :: 0 <= p < |s| ==> s[p].index < |ranks| && ranks[s[p].index] == PositionRank(s, p)
  {
  }

  /** Groups formed from the start have a boundary at position i. */
  ghost predicate Boundary(s: seq<Entry>, i: nat) {
    forall p :: i <= p < |s| ==> GroupOf(s, 0, p) == GroupOf(s, i, p)
  }

  lemma {:induction false} NextBoundary(s: seq<Entry>, i: nat, j: nat)
    requires i < |s| && Boundary(s, i) && j == GroupEnd(s, i, i)
    ensures i < j <= |s| && Boundary(s, j)
    ensures forall k :: i <= k < j ==> PositionRank(s, k) == Average(i, j)
  {
    forall p | j <= p < |s|
      ensures GroupOf(s, 0, p) == GroupOf(s, j, p)
    {
      assert GroupOf(s, i, p) == GroupOf(s, j, p);
    }
    forall k | i <= k < j
      ensures PositionRank(s, k) == Average(i, j)
    {
      assert GroupOf(s, i, k) == (i, j);
    }
  }

  /** The inner while loop: advances as long as the value is close to the first of the group. */
  method FindGroupEnd(indexed: seq<Entry>, i: nat) returns (j: nat)
    requires i < |indexed|
    ensures j == GroupEnd(indexed, i, i)
  {
    j := i;
    while j < |indexed| && IsClose(indexed[j].value, indexed[i].value)
      invariant i <= j <= |indexed|
      invariant GroupEnd(indexed, i, j) == GroupEnd(indexed, i, i)
      decreases |indexed| - j
    {
      j := j + 1;
    }
  }

  /** The inner for loop: gives every entry of the group the same rank. */
  method RankGroup(table: array<real>, indexed: seq<Entry>, ghost values: seq<real>, i: nat, j: nat, avgRank: real)
    requires Arranges(indexed, values) && i <= j <= |indexed| && RankedUpTo(indexed, table[..], i)
    requires forall k :: i <= k < j ==> PositionRank(indexed, k) == avgRank
    modifies table
    ensures RankedUpTo(indexed, table[..], j)
    ensures Sum(table[..]) == old(Sum(table[..])) + Times((j - i) as real, avgRank)
  {
    ghost var base := Sum(table[..]);
    TimesStep(0, avgRank);
    assert |indexed| == table.Length;
    assert InGroup(indexed, table[..], i, i, base, avgRank);
    hide *;
    for k := i to j
      invariant InGroup(indexed, table[..], i, k, base, avgRank)
    {
      ghost var before := table[..];
      RankNext(indexed, values, before, i, k, base, avgRank);
      table[indexed[k].index] := avgRank;
      assert table[..] == before[indexed[k].index := avgRank];
    }
    GroupDone(indexed, table[..], i, j, base, avgRank);
  }

  /** Within the group that starts at i, positions before k have their rank. */
  ghost predicate InGroup(s: seq<Entry>, ranks: seq<real>, i: nat, k: nat, base: real, rank: real) {
    i <= k && RankedUpTo(s, ranks, k) && Sum(ranks) == base + Times((k - i) as real, rank)
  }

  lemma RankNext(s: seq<Entry>, values: seq<real>, ranks: seq<real>, i: nat, k: nat, base: real, rank: real)
    requires Arranges(s, values) && InGroup(s, ranks, i, k, base, rank) && k < |s| && rank == PositionRank(s, k)
    ensures s[k].index < |ranks|
    ensures InGroup(s, ranks[s[k].index := rank], i, k + 1, base, rank)
  {
    RankOne(s, values, ranks, k, rank);
    TimesStep(k - i, rank);
    hide RankedUpTo, Times, Sum, PositionRank, Arranges;
  }

  lemma {:induction false} GroupDone(s: seq<Entry>, ranks: seq<real>, i: nat, j: nat, base: real, rank: real)
    requires InGroup(s, ranks, i, j, base, rank)
    ensures i <= j && RankedUpTo(s, ranks, j) && Sum(ranks) == base + Times((j - i) as real, rank)
  {
  }

  lemma FairnessOfRanks(values: seq<real>, ranks: seq<real>)
    requires |ranks| == |values|
    requires RankedUpTo(SortedDown(Enumerated(values)), ranks, |values|)
    ensures (forall m :: 0 <= m < |values| ==> ranks[m] == FairRank(Enumerated(values), values[m]))
            <==> NoNearTies(Enumerated(values))
  {
    hide *;
    var e := Enumerated(values);
    var s := SortedDown(e);
    SortingArranges(values);
    SortedIsDescending(e);
    RanksAreFairExactly(s);
    SameFairness(values, s);
    SameNearTies(values, s);
    FairnessTransfers(values, s, ranks);
  }

  lemma FairnessTransfers(values: seq<real>, s: seq<Entry>, ranks: seq<real>)
    requires Arranges(s, values) && RankedUpTo(s, ranks, |values|)
    requires forall v :: FairRank(s, v) == FairRank(Enumerated(values), v)
    ensures (forall m :: 0 <= m < |values| ==> ranks[m] == FairRank(Enumerated(values), values[m])) <==> AllFair(s)
  {
    var e := Enumerated(values);
    hide PositionRank, FairRank, Enumerated;
    if AllFair(s) {
      forall m | 0 <= m < |values|
        ensures ranks[m] == FairRank(e, values[m])
      {
        var p :| 0 <= p < |s| && s[p] == Entry(values[m], m);
        assert ranks[s[p].index] == PositionRank(s, p) == FairRank(s, s[p].value);
      }
    }
    if forall m :: 0 <= m < |values| ==> ranks[m] == FairRank(e, values[m]) {
      forall p | 0 <= p < |s|
        ensures PositionRank(s, p) == FairRank(s, s[p].value)
      {
        assert ranks[s[p].index] == PositionRank(s, p);
      }
    }
  }

  lemma SameFairness(values: seq<real>, s: seq<Entry>)
    requires s == SortedDown(Enumerated(values))
    ensures forall v :: FairRank(s, v) == FairRank(Enumerated(values), v)
  {
    forall v
      ensures FairRank(s, v) == FairRank(Enumerated(values), v)
    {
      SortingKeepsCounts(Enumerated(values), v);
    }
  }

  lemma SameNearTies(values: seq<real>, s: seq<Entry>)
    requires Arranges(s, values)
    ensures NoNearTies(s) <==> NoNearTies(Enumerated(values))
  {
    hide IsClose;
    var e := Enumerated(values);
    forall p | 0 <= p < |s|
      ensures s[p] in e
    {
      assert e[s[p].index] == s[p];
    }
    forall m | 0 <= m < |e|
      ensures e[m] in s
    {
      assert e[m] == Entry(values[m], m);
    }
    forall x | x in e
      ensures x in s
    {
    }
    assert NoNearTies(s) <==> forall x, y :: x in s && y in s && IsClose(x.value, y.value) ==> x.value == y.value;
    assert NoNearTies(e) <==> forall x, y :: x in e && y in e && IsClose(x.value, y.value) ==> x.value == y.value;
  }
}
