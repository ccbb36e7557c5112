/**
 * The two steps together on the survey's fixed layout: the rank table of
 * columns L..S below the label row, and the summary computed from it.
 */
module RankOrder {
  import opened Wrappers
  import opened PyStr
  import opened RankLoad
  import opened Summarize

  /** With the survey layout the respondents are the rows from index 3 on; the label row and the row after it are skipped. */
  lemma SurveyRespondentRows(grid: seq<seq<Cell>>)
    requires |grid| > HEADER_ROW
    ensures RespondentRows(grid, SurveyLayout()) == if DATA_START_ROW <= |grid| then grid[DATA_START_ROW..] else []
  {
    RespondentRowsFromDataStart(grid, SurveyLayout());
  }

  /**
   * On success the survey table has the eight courses of columns L..S in
   * column order, each with one value per row from index 3 on; course `k` is
   * named after its trimmed label on row 1 and its `i`-th value is the coerced
   * cell of row `3 + i`.
   */
  lemma SurveyTable(grid: seq<seq<Cell>>, fmt: HeaderFormat, parse: string -> Option<real>, k: nat, i: nat)
    requires ExtractRankTable(grid, SurveyLayout(), fmt, parse).Success?
    requires k < 8
    ensures var table := ExtractRankTable(grid, SurveyLayout(), fmt, parse).value;
      && |table| == 8
      && |table[k].values| == (if |grid| >= 3 then |grid| - 3 else 0)
      && table[k].name == Strip(HeaderText(CellAt(grid[1], 11 + k), k, fmt))
      && (3 + i < |grid| ==> table[k].values[i] == ToNumeric(CellAt(grid[3 + i], 11 + k), parse))
  {
    SurveyRespondentRows(grid);
    ExtractedColumn(grid, SurveyLayout(), fmt, parse, k, i);
  }

  /**
   * A rank typed as a number in column `11 + k` of row `3 + i` is present in
   * course `k` with that value, and a blank cell there is an absent rank.
   */
  lemma SurveyCell(grid: seq<seq<Cell>>, fmt: HeaderFormat, parse: string -> Option<real>, k: nat, i: nat)
    requires ExtractRankTable(grid, SurveyLayout(), fmt, parse).Success?
    requires k < 8 && 3 + i < |grid|
    ensures var values := ExtractRankTable(grid, SurveyLayout(), fmt, parse).value[k].values;
      && (CellAt(grid[3 + i], 11 + k).Num? ==> values[i] == Some(CellAt(grid[3 + i], 11 + k).x))
      && (CellAt(grid[3 + i], 11 + k).Empty? ==> values[i].None?)
  {
    SurveyTable(grid, fmt, parse, k, i);
  }

  /**
   * A label row whose eight labels are all blank or empty text loads, as long
   * as the reader's placeholders stay distinct after trimming.
   */
  lemma UnlabelledSurveyLoads(grid: seq<seq<Cell>>, fmt: HeaderFormat, parse: string -> Option<real>)
    requires |grid| > HEADER_ROW
    requires forall j :: 11 <= j < 19 ==> CellAt(grid[1], j) in {Empty, Text("")}
    requires forall p, q :: 0 <= p < q < 8 ==> Strip(fmt.blankLabel(p)) != Strip(fmt.blankLabel(q))
    ensures ExtractRankTable(grid, SurveyLayout(), fmt, parse).Success?
  {
    var names := CourseNames(grid[1], SurveyLayout(), fmt);
    forall k | 0 <= k < 8 ensures names[k] == Strip(fmt.blankLabel(k)) {
      var j := 11 + k;
      assert CellAt(grid[1], j) in {Empty, Text("")};
    }
    assert Distinct(names);
  }

  /**
   * The survey summary has eight rows ranked 1..8, and no course counts more
   * present ranks than there are respondent rows.
   */
  lemma SurveySummary(grid: seq<seq<Cell>>, fmt: HeaderFormat, parse: string -> Option<real>)
    requires ExtractRankTable(grid, SurveyLayout(), fmt, parse).Success?
    ensures var out := SummarizeRankings(ExtractRankTable(grid, SurveyLayout(), fmt, parse).value);
      && |out| == 8
      && (forall i :: 0 <= i < 8 ==> out[i].finalRank == i + 1)
      && (forall i :: 0 <= i < 8 ==> out[i].n <= |RespondentRows(grid, SurveyLayout())|)
  {
    var table := ExtractRankTable(grid, SurveyLayout(), fmt, parse).value;
    var out := SummarizeRankings(table);
    FinalRanksDense(table);
    forall i | 0 <= i < 8 ensures out[i].n <= |RespondentRows(grid, SurveyLayout())| {
      SummaryRowsComeFromColumns(table, i);
      var j :| 0 <= j < |table| && out[i].Stats() == Aggregate(table[j]);
    }
  }

  /**
   * Two courses over three respondents, where a blank and a word are not ranks:
   * the first course keeps one rank (mean 1), the second all three (mean 3).
   */
  lemma CoercionScenario()
    ensures var rows := [[Num(1.0), Num(2.0)], [Empty, Num(3.0)], [Text("x"), Num(4.0)]];
      var first, second := CoerceColumn(rows, 0, s => None), CoerceColumn(rows, 1, s => None);
      && CountPresent(first) == 1 && MeanRank(first) == Some(1.0)
      && CountPresent(second) == 3 && MeanRank(second) == Some(3.0)
  {
    var rows := [[Num(1.0), Num(2.0)], [Empty, Num(3.0)], [Text("x"), Num(4.0)]];
    var first, second := CoerceColumn(rows, 0, s => None), CoerceColumn(rows, 1, s => None);
    assert first[0] == Some(1.0) && first[1] == None && first[2] == None;
    assert second[0] == Some(2.0) && second[1] == Some(3.0) && second[2] == Some(4.0);
    assert first == [Some(1.0), None, None];
    assert second == [Some(2.0), Some(3.0), Some(4.0)];
    PresentThree(Some(1.0), None, None);
    PresentThree(Some(2.0), Some(3.0), Some(4.0));
  }

  lemma PresentThree(x: Option<real>, y: Option<real>, z: Option<real>)
    ensures CountPresent([x, y, z]) == (if x.Some? then 1 else 0) + (if y.Some? then 1 else 0) + (if z.Some? then 1 else 0)
    ensures SumPresent([x, y, z]) == (if x.Some? then x.value else 0.0) + (if y.Some? then y.value else 0.0) + (if z.Some? then z.value else 0.0)
  {
    assert [x, y, z][1..] == [y, z] && [y, z][1..] == [z] && [z][1..] == [];
    assert CountPresent([z]) == (if z.Some? then 1 else 0);
    assert CountPresent([y, z]) == (if y.Some? then 1 else 0) + CountPresent([z]);
    assert SumPresent([z]) == (if z.Some? then z.value else 0.0);
    assert SumPresent([y, z]) == (if y.Some? then y.value else 0.0) + SumPresent([z]);
  }

  /** Means 2, 1, 1 for A, B, C: B and C tie and keep their column order, so the ranks go to B, C, A. */
  lemma TieBreakScenario()
    ensures var out := SummarizeRankings([Column("A", [Some(2.0)]), Column("B", [Some(1.0)]), Column("C", [Some(1.0)])]);
      out == [CourseSummary("B", 1, Some(1.0), 1), CourseSummary("C", 1, Some(1.0), 2), CourseSummary("A", 1, Some(2.0), 3)]
  {
    var table := [Column("A", [Some(2.0)]), Column("B", [Some(1.0)]), Column("C", [Some(1.0)])];
    var a, b, c := CourseStats("A", 1, Some(2.0)), CourseStats("B", 1, Some(1.0)), CourseStats("C", 1, Some(1.0));
    TieBreakAggregate(table, a, b, c);
    TieBreakSort(a, b, c);
  }

  lemma TieBreakAggregate(table: seq<Column>, a: CourseStats, b: CourseStats, c: CourseStats)
    requires table == [Column("A", [Some(2.0)]), Column("B", [Some(1.0)]), Column("C", [Some(1.0)])]
    requires a == CourseStats("A", 1, Some(2.0)) && b == CourseStats("B", 1, Some(1.0)) && c == CourseStats("C", 1, Some(1.0))
    ensures AggregateAll(table) == [a, b, c]
  {
    OneRank(2.0);
    OneRank(1.0);
    assert Aggregate(table[0]) == a && Aggregate(table[1]) == b && Aggregate(table[2]) == c;
  }

  lemma OneRank(x: real)
    ensures CountPresent([Some(x)]) == 1 && MeanRank([Some(x)]) == Some(x)
  {
    assert [Some(x)][1..] == [];
    assert SumPresent([Some(x)]) == x;
    assert x / 1.0 == x;
  }

  lemma TieBreakSort(a: CourseStats, b: CourseStats, c: CourseStats)
    requires a.meanRank == Some(2.0) && b.meanRank == Some(1.0) && c.meanRank == Some(1.0)
    ensures SortByMean([a, b, c]) == [b, c, a]
  {
    assert [b, c][1..] == [c] && [a, b, c][1..] == [b, c] && [c][1..] == [];
    assert SortByMean([c]) == [c];
    assert SortByMean([b, c]) == [b, c];
    assert Insert(a, [c]) == [c, a];
    assert Insert(a, [b, c]) == [b, c, a];
  }
}
