/**
 * `summarize_rankings`: per course the number of present ranks and their mean,
 * the courses stably sorted by mean (an undefined mean last), and the final
 * rank of each course as its position plus one.
 */
module Summarize {
  import opened Wrappers
  import opened RankLoad

  /** One summary row before ranking. `meanRank` is None where pandas gives NaN. */
  datatype CourseStats = CourseStats(courseName: string, n: nat, meanRank: Option<real>)

  /** One row of the returned summary. */
  datatype CourseSummary = CourseSummary(courseName: string, n: nat, meanRank: Option<real>, finalRank: nat) {
    /** The row without its rank. */
    function Stats(): CourseStats {
      CourseStats(courseName, n, meanRank)
    }
  }

  // ---------------------------------------------------------------- counts and means

  /** `notna().sum()`: how many ranks are present. */
  function CountPresent(vs: seq<Option<real>>): (n: nat)
    ensures n <= |vs|
  {
    if vs == [] then 0 else (if vs[0].Some? then 1 else 0) + CountPresent(vs[1..])
  }

  /** The sum of the present ranks (missing ones are skipped). */
  function SumPresent(vs: seq<Option<real>>): real {
    if vs == [] then 0.0 else (if vs[0].Some? then vs[0].value else 0.0) + SumPresent(vs[1..])
  }

  /** `mean(skipna=True)`, with None for the NaN of a course that has no present rank. */
  function MeanRank(vs: seq<Option<real>>): (m: Option<real>)
    ensures m.None? <==> CountPresent(vs) == 0
    ensures m.Some? ==> m.value * (CountPresent(vs) as real) == SumPresent(vs)
  {
    var n := CountPresent(vs);
    if n == 0 then None else Some(SumPresent(vs) / (n as real))
  }

  /** Every row is either present or missing: the count is the rows minus the missing ones. */
  lemma {:induction false} CountPlusMissing(vs: seq<Option<real>>)
    ensures CountPresent(vs) + multiset(vs)[None] == |vs|
  {
    if vs != [] {
      CountPlusMissing(vs[1..]);
      assert vs == [vs[0]] + vs[1..];
    }
  }

  /** `n` copies of `c` added up, written without multiplication. */
  function Repeated(n: nat, c: real): real {
    if n == 0 then 0.0 else c + Repeated(n - 1, c)
  }

  lemma {:induction false} RepeatedIsProduct(n: nat, c: real)
    ensures Repeated(n, c) == (n as real) * c
  {
    if n > 0 {
      RepeatedIsProduct(n - 1, c);
      assert (n as real) * c == ((n - 1) as real) * c + c;
    }
  }

  /** Bounds on the present ranks bound their sum. */
  lemma {:induction false} SumWithin(vs: seq<Option<real>>, lo: real, hi: real)
    requires forall i :: 0 <= i < |vs| && vs[i].Some? ==> lo <= vs[i].value <= hi
    ensures Repeated(CountPresent(vs), lo) <= SumPresent(vs) <= Repeated(CountPresent(vs), hi)
  {
    if vs != [] {
      var rest := vs[1..];
      assert forall i :: 0 <= i < |rest| ==> rest[i] == vs[i + 1];
      SumWithin(rest, lo, hi);
    }
  }

  /** The mean of ranks that all lie in [lo, hi] lies in [lo, hi] too. */
  lemma MeanWithin(vs: seq<Option<real>>, lo: real, hi: real)
    requires forall i :: 0 <= i < |vs| && vs[i].Some? ==> lo <= vs[i].value <= hi
    requires CountPresent(vs) > 0
    ensures lo <= MeanRank(vs).value <= hi
  {
    SumWithin(vs, lo, hi);
    MeanBetween(SumPresent(vs), CountPresent(vs), lo, hi);
  }

  lemma MeanBetween(sum: real, n: nat, lo: real, hi: real)
    requires n > 0 && Repeated(n, lo) <= sum <= Repeated(n, hi)
    ensures lo <= sum / (n as real) <= hi
  {
    RepeatedIsProduct(n, lo);
    RepeatedIsProduct(n, hi);
    var c := n as real;
    var m := sum / c;
    assert c * lo <= sum <= c * hi;
    DivideBack(sum, c);
    assert c * m == sum;
    assert c * lo <= c * m;
    ScaleBack(lo, m, c);
    ScaleBack(m, hi, c);
  }

  lemma DivideBack(x: real, c: real)
    requires c > 0.0
    ensures c * (x / c) == x
  {
  }

  /** Dividing both sides by the same positive number keeps an inequality. */
  lemma ScaleBack(a: real, b: real, c: real)
    requires c > 0.0 && c * a <= c * b
    ensures a <= b
  {
  }

  /** The unranked summary row of one course. */
  function Aggregate(col: Column): (s: CourseStats)
    ensures s.courseName == col.name && s.n <= |col.values|
  {
    CourseStats(col.name, CountPresent(col.values), MeanRank(col.values))
  }

  /** The unranked summary rows, in column order. */
  function AggregateAll(table: seq<Column>): (stats: seq<CourseStats>)
    ensures |stats| == |table|
    ensures forall i :: 0 <= i < |table| ==> stats[i] == Aggregate(table[i])
  {
    seq(|table|, i requires 0 <= i < |table| => Aggregate(table[i]))
  }

  // ---------------------------------------------------------------- the stable sort

  /** The ascending order on means, with the undefined mean after every defined one. */
  predicate MeanLeq(a: Option<real>, b: Option<real>) {
    b.None? || (a.Some? && a.value <= b.value)
  }

  predicate SortedByMean(s: seq<CourseStats>) {
    forall i, j :: 0 <= i < j < |s| ==> MeanLeq(s[i].meanRank, s[j].meanRank)
  }

  /** The rows whose mean is `m`, in their order in `s`. */
  function WithMean(s: seq<CourseStats>, m: Option<real>): (r: seq<CourseStats>)
    ensures forall z :: z in r ==> z in s && z.meanRank == m
  {
    if s == [] then [] else (if s[0].meanRank == m then [s[0]] else []) + WithMean(s[1..], m)
  }

  /** Puts `x` in front of the first row whose mean is not below `x`'s. */
  function Insert(x: CourseStats, s: seq<CourseStats>): (r: seq<CourseStats>)
    ensures multiset(r) == multiset(s) + multiset{x}
  {
    if s == [] then [x]
    else if MeanLeq(x.meanRank, s[0].meanRank) then [x] + s
    else
      assert s == [s[0]] + s[1..];
      [s[0]] + Insert(x, s[1..])
  }

  /** `sort_values(by="mean_rank", kind="mergesort")` computed as a stable insertion sort. */
  function SortByMean(s: seq<CourseStats>): (r: seq<CourseStats>)
    ensures |r| == |s| && multiset(r) == multiset(s)
  {
    if s == [] then []
    else
      assert s == [s[0]] + s[1..];
      var r := Insert(s[0], SortByMean(s[1..]));
      assert |multiset(r)| == |r|;
      r
  }

  lemma SortedCons(y: CourseStats, t: seq<CourseStats>)
    requires SortedByMean(t)
    requires forall k :: 0 <= k < |t| ==> MeanLeq(y.meanRank, t[k].meanRank)
    ensures SortedByMean([y] + t)
  {
    var u := [y] + t;
    forall i, j | 0 <= i < j < |u| ensures MeanLeq(u[i].meanRank, u[j].meanRank) {
      assert u[j] == t[j - 1];
      if i > 0 { assert u[i] == t[i - 1]; }
    }
  }

  lemma {:induction false} InsertSorted(x: CourseStats, s: seq<CourseStats>)
    requires SortedByMean(s)
    ensures SortedByMean(Insert(x, s))
  {
    if s == [] {
    } else if MeanLeq(x.meanRank, s[0].meanRank) {
      SortedCons(x, s);
    } else {
      var rest := s[1..];
      var t := Insert(x, rest);
      InsertSorted(x, rest);
      forall k | 0 <= k < |t| ensures MeanLeq(s[0].meanRank, t[k].meanRank) {
        var z := t[k];
        assert z in multiset(t);
        if z != x {
          assert z in multiset(rest);
          var idx :| 0 <= idx < |rest| && rest[idx] == z;
          assert s[idx + 1] == z;
        }
      }
      SortedCons(s[0], t);
    }
  }

  /** The sorted result is ordered by mean, undefined means last. */
  lemma {:induction false} SortByMeanSorted(s: seq<CourseStats>)
    ensures SortedByMean(SortByMean(s))
  {
    if s != [] {
      SortByMeanSorted(s[1..]);
      InsertSorted(s[0], SortByMean(s[1..]));
    }
  }

  lemma WithMeanCons(y: CourseStats, t: seq<CourseStats>, m: Option<real>)
    ensures WithMean([y] + t, m) == (if y.meanRank == m then [y] else []) + WithMean(t, m)
  {
    assert ([y] + t)[1..] == t;
  }

  lemma {:induction false} InsertStable(x: CourseStats, s: seq<CourseStats>, m: Option<real>)
    ensures WithMean(Insert(x, s), m) == WithMean([x] + s, m)
  {
    if s != [] && !MeanLeq(x.meanRank, s[0].meanRank) {
      var y, rest := s[0], s[1..];
      assert s == [y] + rest;
      InsertStable(x, rest, m);
      WithMeanCons(y, Insert(x, rest), m);
      WithMeanCons(y, [x] + rest, m);
      // x and y have different means, so they may pass each other
      SwapDifferentMeans(x, y, rest, m);
    }
  }

  lemma SwapDifferentMeans(x: CourseStats, y: CourseStats, t: seq<CourseStats>, m: Option<real>)
    requires x.meanRank != y.meanRank
    ensures WithMean([y] + ([x] + t), m) == WithMean([x] + ([y] + t), m)
  {
    WithMeanCons(y, [x] + t, m);
    WithMeanCons(x, t, m);
    WithMeanCons(x, [y] + t, m);
    WithMeanCons(y, t, m);
  }

  /** Stability: the courses of each mean keep their relative input order. */
  lemma {:induction false} SortByMeanStable(s: seq<CourseStats>, m: Option<real>)
    ensures WithMean(SortByMean(s), m) == WithMean(s, m)
  {
    if s != [] {
      SortByMeanStable(s[1..], m);
      InsertStable(s[0], SortByMean(s[1..]), m);
      WithMeanCons(s[0], SortByMean(s[1..]), m);
      WithMeanCons(s[0], s[1..], m);
      assert s == [s[0]] + s[1..];
    }
  }

  /** The first row of a non-empty sequence heads the group of its own mean. */
  lemma WithMeanHead(s: seq<CourseStats>)
    requires s != []
    ensures WithMean(s, s[0].meanRank) == [s[0]] + WithMean(s[1..], s[0].meanRank)
  {
  }

  /** Dropping the first row leaves every other group unchanged. */
  lemma WithMeanOther(s: seq<CourseStats>, m: Option<real>)
    requires s != [] && s[0].meanRank != m
    ensures WithMean(s, m) == WithMean(s[1..], m)
  {
  }

  /** In a sorted sequence the first row's mean is the least. */
  lemma SortedHeadLeast(u: seq<CourseStats>, z: CourseStats)
    requires SortedByMean(u) && z in u
    ensures MeanLeq(u[0].meanRank, z.meanRank)
  {
    var i :| 0 <= i < |u| && u[i] == z;
    if i > 0 {
      assert MeanLeq(u[0].meanRank, u[i].meanRank);
    }
  }

  /** Every row of a sequence appears in the group of its own mean. */
  lemma InOwnGroup(s: seq<CourseStats>, z: CourseStats)
    requires z in s
    ensures z in WithMean(s, z.meanRank)
  {
    var i :| 0 <= i < |s| && s[i] == z;
    if i > 0 {
      InOwnGroup(s[1..], z);
    }
  }

  /** Sorted sequences with the same groups start with the same row. */
  lemma SameHead(t: seq<CourseStats>, u: seq<CourseStats>)
    requires SortedByMean(t) && SortedByMean(u) && t != [] && u != []
    requires forall m :: WithMean(t, m) == WithMean(u, m)
    ensures t[0] == u[0]
  {
    var a, b := t[0], u[0];
    InOwnGroup(t, a);
    assert a in WithMean(u, a.meanRank);
    SortedHeadLeast(u, a);
    InOwnGroup(u, b);
    assert b in WithMean(t, b.meanRank);
    SortedHeadLeast(t, b);
    var m0 := a.meanRank;
    assert b.meanRank == m0;
    WithMeanHead(t);
    WithMeanHead(u);
    assert WithMean(t, m0) == WithMean(u, m0);
    assert WithMean(t, m0)[0] == a && WithMean(u, m0)[0] == b;
  }

  /** Removing the same first row from both keeps the groups equal. */
  lemma SameTailGroups(t: seq<CourseStats>, u: seq<CourseStats>, m: Option<real>)
    requires t != [] && u != [] && t[0] == u[0]
    requires WithMean(t, m) == WithMean(u, m)
    ensures WithMean(t[1..], m) == WithMean(u[1..], m)
  {
    var a := t[0];
    if m != a.meanRank {
      WithMeanOther(t, m);
      WithMeanOther(u, m);
    } else {
      WithMeanHead(t);
      WithMeanHead(u);
      var gt, gu := WithMean(t[1..], m), WithMean(u[1..], m);
      assert ([a] + gt)[1..] == gt && ([a] + gu)[1..] == gu;
    }
  }

  /**
   * Two sequences ordered by mean that list the rows of every mean in the same
   * order are equal: sortedness and stability fix the result of the sort.
   */
  lemma {:induction false} SortedWithSameGroupsEqual(t: seq<CourseStats>, u: seq<CourseStats>)
    requires SortedByMean(t) && SortedByMean(u)
    requires forall m :: WithMean(t, m) == WithMean(u, m)
    ensures t == u
    decreases |t|
  {
    if t != [] {
      WithMeanHead(t);
      assert t[0] in WithMean(u, t[0].meanRank);
    }
    if u != [] {
      WithMeanHead(u);
      assert u[0] in WithMean(t, u[0].meanRank);
    }
    if t != [] && u != [] {
      SameHead(t, u);
      forall m ensures WithMean(t[1..], m) == WithMean(u[1..], m) {
        SameTailGroups(t, u, m);
      }
      SortedWithSameGroupsEqual(t[1..], u[1..]);
      assert t == [t[0]] + t[1..] && u == [u[0]] + u[1..];
    }
  }

  /** Any stable ascending sort of the rows by mean, pandas' mergesort included, gives SortByMean's result. */
  lemma StableSortIsSortByMean(s: seq<CourseStats>, t: seq<CourseStats>)
    requires SortedByMean(t)
    requires forall m :: WithMean(t, m) == WithMean(s, m)
    ensures t == SortByMean(s)
  {
    SortByMeanSorted(s);
    forall m ensures WithMean(t, m) == WithMean(SortByMean(s), m) {
      SortByMeanStable(s, m);
    }
    SortedWithSameGroupsEqual(t, SortByMean(s));
  }

  // ---------------------------------------------------------------- names

  /** The course names of the rows, in order. */
  function Names(s: seq<CourseStats>): (names: seq<string>)
    ensures |names| == |s|
    ensures forall i :: 0 <= i < |s| ==> names[i] == s[i].courseName
  {
    if s == [] then [] else [s[0].courseName] + Names(s[1..])
  }

  lemma {:induction false} InsertNames(x: CourseStats, s: seq<CourseStats>)
    ensures multiset(Names(Insert(x, s))) == multiset(Names(s)) + multiset{x.courseName}
  {
    if s != [] && !MeanLeq(x.meanRank, s[0].meanRank) {
      InsertNames(x, s[1..]);
      assert Names(s) == [s[0].courseName] + Names(s[1..]);
      var t := Insert(x, s[1..]);
      assert Names([s[0]] + t) == [s[0].courseName] + Names(t);
    } else if s != [] {
      assert Names([x] + s) == [x.courseName] + Names(s);
    }
  }

  /** Sorting reorders the course names and nothing else. */
  lemma {:induction false} SortByMeanNames(s: seq<CourseStats>)
    ensures multiset(Names(SortByMean(s))) == multiset(Names(s))
  {
    if s != [] {
      SortByMeanNames(s[1..]);
      InsertNames(s[0], SortByMean(s[1..]));
      assert Names(s) == [s[0].courseName] + Names(s[1..]);
    }
  }

  // ---------------------------------------------------------------- ranks and the summary

  /** `final_rank = index + 1` on the sorted rows. */
  function AssignRanks(rows: seq<CourseStats>): (out: seq<CourseSummary>)
    ensures |out| == |rows|
    ensures forall i :: 0 <= i < |rows| ==> out[i].Stats() == rows[i] && out[i].finalRank == i + 1
  {
    seq(|rows|, i requires 0 <= i < |rows| => CourseSummary(rows[i].courseName, rows[i].n, rows[i].meanRank, i + 1))
  }

  /** The labels of the rank table's columns, in column order. */
  function ColumnNames(table: seq<Column>): (names: seq<string>)
    ensures |names| == |table|
    ensures forall i :: 0 <= i < |table| ==> names[i] == table[i].name
  {
    if table == [] then [] else [table[0].name] + ColumnNames(table[1..])
  }

  /** The summary rows without their ranks. */
  function StatsOf(out: seq<CourseSummary>): (rows: seq<CourseStats>)
    ensures |rows| == |out| && forall i :: 0 <= i < |out| ==> rows[i] == out[i].Stats()
  {
    seq(|out|, i requires 0 <= i < |out| => out[i].Stats())
  }

  /** `summarize_rankings`. */
  function SummarizeRankings(table: seq<Column>): (out: seq<CourseSummary>)
    ensures |out| == |table|
  {
    AssignRanks(SortByMean(AggregateAll(table)))
  }

  /** The ranks are 1..k, one per row, with no gap and no repeat. */
  lemma FinalRanksDense(table: seq<Column>)
    ensures var out := SummarizeRankings(table);
      && (forall i :: 0 <= i < |out| ==> out[i].finalRank == i + 1)
      && (forall r :: r in out ==> 1 <= r.finalRank <= |out|)
      && (forall i, j :: 0 <= i < j < |out| ==> out[i].finalRank != out[j].finalRank)
  {
  }

  /**
   * The summary is the courses' unranked rows reordered: ascending by mean with
   * the undefined means last, and courses of equal mean in column order.
   */
  lemma SummaryIsStableSort(table: seq<Column>)
    ensures var rows := StatsOf(SummarizeRankings(table));
      && rows == SortByMean(AggregateAll(table))
      && multiset(rows) == multiset(AggregateAll(table))
      && SortedByMean(rows)
      && forall m :: WithMean(rows, m) == WithMean(AggregateAll(table), m)
  {
    var sorted := SortByMean(AggregateAll(table));
    assert StatsOf(SummarizeRankings(table)) == sorted;
    SortByMeanSorted(AggregateAll(table));
    forall m ensures WithMean(sorted, m) == WithMean(AggregateAll(table), m) {
      SortByMeanStable(AggregateAll(table), m);
    }
  }

  /** Every course of the summary carries the count and the mean of one input column. */
  lemma SummaryRowsComeFromColumns(table: seq<Column>, i: nat)
    requires i < |table|
    ensures var out := SummarizeRankings(table);
      exists j :: 0 <= j < |table| && out[i].Stats() == Aggregate(table[j])
  {
    SummaryIsStableSort(table);
    var rows := StatsOf(SummarizeRankings(table));
    assert rows[i] in multiset(AggregateAll(table));
    var j :| 0 <= j < |table| && AggregateAll(table)[j] == rows[i];
  }

  /** The summary's course names are the input column names, reordered. */
  lemma SummaryNames(table: seq<Column>)
    ensures multiset(Names(StatsOf(SummarizeRankings(table)))) == multiset(ColumnNames(table))
  {
    var stats := AggregateAll(table);
    var rows := StatsOf(SummarizeRankings(table));
    assert rows == SortByMean(stats);
    SortByMeanNames(stats);
    assert Names(stats) == ColumnNames(table);
  }

  /** Courses without a present rank come after every course with one. */
  lemma UndefinedMeansLast(table: seq<Column>, i: nat, j: nat)
    requires i < j < |table|
    requires SummarizeRankings(table)[i].meanRank.None?
    ensures SummarizeRankings(table)[j].meanRank.None?
  {
    SummaryIsStableSort(table);
    var rows := StatsOf(SummarizeRankings(table));
    assert MeanLeq(rows[i].meanRank, rows[j].meanRank);
  }
}
