/** The nearest-rank percentile of the gates. */
module Percentile {
  // (backend/app/runtime_sqlite_gate.py, and written again in backend/tools/runtime_windows_release.py)
  // On exact values; rounding is any monotone function.

  function Insert(x: real, s: seq<real>): seq<real> {
    if s == [] || x <= s[0] then [x] + s else [s[0]] + Insert(x, s[1..])
  }

  /** `sorted(values)`. */
  function Sort(s: seq<real>): seq<real> {
    if s == [] then [] else Insert(s[0], Sort(s[1..]))
  }

  predicate Ascending(s: seq<real>) {
    forall i, j | 0 <= i < j < |s| :: s[i] <= s[j]
  }

  /** How many values of the sample are at most `v`. */
  function AtMost(s: seq<real>, v: real): nat {
    if s == [] then 0 else (if s[0] <= v then 1 else 0) + AtMost(s[1..], v)
  }

  function Index(n: nat, percent: nat): nat {
    var i := (n * percent + 99) / 100 - 1;
    if i < 0 then 0 else i
  }

  lemma {:induction false} InsertAtMost(x: real, s: seq<real>, v: real)
    ensures AtMost(Insert(x, s), v) == AtMost(s, v) + (if x <= v then 1 else 0)
  {
    if s == [] {
      assert [x][1..] == [];
    } else if x <= s[0] {
      assert ([x] + s)[1..] == s;
    } else {
      InsertAtMost(x, s[1..], v);
      assert ([s[0]] + Insert(x, s[1..]))[1..] == Insert(x, s[1..]);
    }
  }

  lemma {:induction false} InsertKeeps(x: real, s: seq<real>)
    ensures |Insert(x, s)| == |s| + 1 && multiset(Insert(x, s)) == multiset(s) + multiset{x}
  {
    if s != [] && s[0] < x {
      InsertKeeps(x, s[1..]);
      assert s == [s[0]] + s[1..];
    }
  }

  lemma InsertMembers(x: real, s: seq<real>, y: real)
    requires y in Insert(x, s)
    ensures y == x || y in s
  {
    InsertKeeps(x, s);
    assert y in multiset(Insert(x, s));
  }

  lemma AscendingAfter(x: real, s: seq<real>)
    requires Ascending(s) && forall y | y in s :: x <= y
    ensures Ascending([x] + s)
  {
    var t := [x] + s;
    forall i, j | 0 <= i < j < |t| ensures t[i] <= t[j] {
      assert t[j] == s[j - 1] && s[j - 1] in s;
      if i > 0 { assert t[i] == s[i - 1]; }
    }
  }

  lemma {:induction false} InsertAscending(x: real, s: seq<real>)
    requires Ascending(s)
    ensures Ascending(Insert(x, s))
  {
    assert forall y | y in s :: s[0] <= y;
    if s != [] && s[0] < x {
      InsertAscending(x, s[1..]);
      forall y | y in Insert(x, s[1..]) ensures s[0] <= y { InsertMembers(x, s[1..], y); }
      AscendingAfter(s[0], Insert(x, s[1..]));
    } else {
      AscendingAfter(x, s);
    }
  }

  lemma {:induction false} SortAtMost(s: seq<real>, v: real)
    ensures AtMost(Sort(s), v) == AtMost(s, v)
  {
    if s != [] {
      SortAtMost(s[1..], v);
      InsertAtMost(s[0], Sort(s[1..]), v);
    }
  }

  lemma {:induction false} SortFacts(s: seq<real>)
    ensures Ascending(Sort(s)) && |Sort(s)| == |s| && multiset(Sort(s)) == multiset(s)
  {
    if s != [] {
      SortFacts(s[1..]);
      InsertKeeps(s[0], Sort(s[1..]));
      InsertAscending(s[0], Sort(s[1..]));
      assert s == [s[0]] + s[1..];
    }
  }

  lemma {:induction false} RankUp(s: seq<real>, i: nat, v: real)
    requires Ascending(s) && i < |s| && s[i] <= v
    ensures AtMost(s, v) >= i + 1
  {
    if i > 0 { RankUp(s[1..], i - 1, v); }
  }

  lemma {:induction false} RankDown(s: seq<real>, i: nat, v: real)
    requires Ascending(s) && i < |s| && v < s[i]
    ensures AtMost(s, v) <= i
  {
    if i > 0 {
      RankDown(s[1..], i - 1, v);
    } else {
      NoneBelow(s, v);
    }
  }

  lemma {:induction false} NoneBelow(s: seq<real>, v: real)
    requires forall i | 0 <= i < |s| :: v < s[i]
    ensures AtMost(s, v) == 0
  {
    if s != [] { NoneBelow(s[1..], v); }
  }

  lemma IndexFits(n: nat, percent: nat)
    requires n > 0 && 1 <= percent <= 100
    ensures Index(n, percent) < n
    ensures (Index(n, percent) + 1) * 100 >= n * percent > Index(n, percent) * 100
  {
    assert n * percent >= 1;
    assert n * percent <= n * 100;
  }

  /**
   For every non-empty sample and percentage the index is in range, and the value found there is the
   least value of the sample with at least that percentage of the sample at or below it.
   */
  lemma PercentileIsLeast(s: seq<real>, percent: nat)
    requires s != [] && 1 <= percent <= 100
    ensures Index(|s|, percent) < |Sort(s)|
    ensures var v := Sort(s)[Index(|s|, percent)];
      && v in s && AtMost(s, v) * 100 >= |s| * percent
      && forall x | x in s && AtMost(s, x) * 100 >= |s| * percent :: v <= x
  {
    SortFacts(s);
    IndexFits(|s|, percent);
    var i := Index(|s|, percent);
    var v := Sort(s)[i];
    RankUp(Sort(s), i, v);
    SortAtMost(s, v);
    assert v in multiset(Sort(s));
    forall x | x in s && AtMost(s, x) * 100 >= |s| * percent ensures v <= x {
      SortAtMost(s, x);
      if x < v { RankDown(Sort(s), i, x); }
    }
  }

  datatype Summary = Summary(count: nat, p50: real, p95: real, max: real)

  function LatencySummary(round: real -> real, values: seq<real>): Summary {
    if values == [] then Summary(0, 0.0, 0.0, 0.0)
    else
      SortFacts(values);
      IndexFits(|values|, 50);
      IndexFits(|values|, 95);
      var ordered := Sort(values);
      Summary(|ordered|, round(ordered[Index(|ordered|, 50)]), round(ordered[Index(|ordered|, 95)]),
        round(ordered[|ordered| - 1]))
  }

  ghost predicate Monotone(round: real -> real) {
    forall x, y | x <= y :: round(x) <= round(y)
  }

  lemma SortMember(s: seq<real>, x: real)
    requires x in s
    ensures Sort(s) != [] && x in Sort(s)
  {
    SortFacts(s);
    assert x in multiset(Sort(s));
  }

  lemma AtMostLast(s: seq<real>, x: real)
    requires Ascending(s) && x in s
    ensures x <= s[|s| - 1]
  {
  }

  lemma IndicesOrdered(n: nat)
    requires n > 0
    ensures Index(n, 50) <= Index(n, 95) < n
  {
  }

  /** The index that the release gate computes for its cold starts. */
  function ColdIndex(samples: nat): nat {
    var rank := (95 * samples + 99) / 100;
    if rank - 1 > 0 then rank - 1 else 0
  }

  /** The release gate's 95th percentile of its cold starts. */
  function ColdP95(samples: seq<real>): real
    requires samples != []
  {
    SortFacts(samples);
    Sort(samples)[ColdIndex(|samples|)]
  }

  lemma SameIndex(n: nat)
    ensures ColdIndex(n) == Index(n, 95)
  {
  }

  /** The summary is ordered, its maximum bounds the sample, and its p95 is the release gate's once rounded. */
  lemma SummaryOrdered(round: real -> real, values: seq<real>)
    requires Monotone(round) && values != []
    ensures var s := LatencySummary(round, values);
      s.count == |values| && s.p50 <= s.p95 <= s.max && (forall x | x in values :: round(x) <= s.max)
      && s.p95 == round(ColdP95(values))
  {
    hide Sort, Index;
    SortFacts(values);
    IndicesOrdered(|values|);
    SameIndex(|values|);
    var ordered := Sort(values);
    assert ordered[Index(|values|, 50)] <= ordered[Index(|values|, 95)] <= ordered[|ordered| - 1];
    forall x | x in values ensures round(x) <= round(ordered[|ordered| - 1]) {
      SortMember(values, x);
      AtMostLast(ordered, x);
    }
  }

  /** The least of the sample with at least that percentage at or below it. */
  predicate IsPercentile(s: seq<real>, percent: nat, v: real) {
    && v in s && AtMost(s, v) * 100 >= |s| * percent
    && forall x | x in s && AtMost(s, x) * 100 >= |s| * percent :: v <= x
  }

  /** What each entry of a summary is, rounded: the median, the 95th percentile and the greatest value. */
  lemma SummaryExactly(round: real -> real, values: seq<real>) returns (median: real, high: real, greatest: real)
    ensures values == [] ==> LatencySummary(round, values) == Summary(0, 0.0, 0.0, 0.0)
    ensures values != []
      ==> && LatencySummary(round, values) == Summary(|values|, round(median), round(high), round(greatest))
          && IsPercentile(values, 50, median) && IsPercentile(values, 95, high)
          && greatest in values && forall x | x in values :: x <= greatest
  {
    median, high, greatest := 0.0, 0.0, 0.0;
    if values != [] {
      PercentileIsLeast(values, 50);
      PercentileIsLeast(values, 95);
      SortFacts(values);
      var ordered := Sort(values);
      median, high := ordered[Index(|values|, 50)], ordered[Index(|values|, 95)];
      greatest := ordered[|ordered| - 1];
      assert greatest in values by {
        assert greatest in multiset(ordered);
      }
      hide Sort, AtMost, Index;
      forall x | x in values ensures x <= greatest {
        SortMember(values, x);
        AtMostLast(ordered, x);
      }
    }
  }
}
