/**
 * The part of `load_rank_data` that runs after the spreadsheet has been read:
 * the row slice, the trimmed course labels and the numeric coercion of every cell.
 * The sheet itself is a grid of cells; reading it from a file is not modelled.
 */
module RankLoad {
  import opened Wrappers
  import opened PyStr

  /** One spreadsheet cell as the reader delivers it. */
  datatype Cell = Num(x: real) | Text(s: string) | Empty

  /** One course of the rank table: its label and one optional rank per respondent row. */
  datatype Column = Column(name: string, values: seq<Option<real>>)

  /** Zero-based index of a one-letter spreadsheet column ('A' is 0). */
  function LetterIndex(c: char): (j: nat)
    requires 'A' <= c <= 'Z'
    ensures j < 26
  {
    (c as int) - ('A' as int)
  }

  /** Where the rank table sits in the sheet: a band of columns, the label row, the first respondent row. */
  datatype Layout = Layout(firstCol: nat, lastCol: nat, headerRow: nat, dataStartRow: nat) {
    predicate Valid() {
      firstCol <= lastCol
    }

    function Width(): nat
      requires Valid()
    {
      lastCol - firstCol + 1
    }
  }

  const COL_START: char := 'L'
  const COL_END: char := 'S'
  const HEADER_ROW: nat := 1
  const DATA_START_ROW: nat := 3

  /** The survey's fixed layout: columns L..S, labels on row 1, responses from row 3 (all zero-based). */
  function SurveyLayout(): (l: Layout)
    ensures l == Layout(11, 18, 1, 3) && l.Valid() && l.Width() == 8
  {
    Layout(LetterIndex(COL_START), LetterIndex(COL_END), HEADER_ROW, DATA_START_ROW)
  }

  /**
   * The header string the reader gives a label cell that is not non-empty
   * text: the printed form of a number, and the placeholder name of a blank
   * (or empty-text) label at a given position of the band. Both are decided inside the spreadsheet library.
   */
  datatype HeaderFormat = HeaderFormat(numberText: real -> string, blankLabel: nat -> string)

  /** Why loading fails once the sheet has been read. */
  datatype LoadError =
    | MissingLabelRow       // the sheet has no row at the label index
    | DuplicateCourseName   // two labels are equal after trimming, so a column lookup yields two columns

  /** The cell at column `j` of a row; the reader pads short rows with blanks. */
  function CellAt(row: seq<Cell>, j: nat): Cell {
    if j < |row| then row[j] else Empty
  }

  /** Python's `s[k:]`: a negative `k` counts from the end, a large `k` gives the empty list. */
  function PySliceFrom<T>(s: seq<T>, k: int): (r: seq<T>)
    ensures |r| <= |s| && r == s[|s| - |r|..]
    ensures k >= 0 ==> |r| == if k <= |s| then |s| - k else 0
    ensures k < 0 ==> |r| == if -k <= |s| then -k else |s|
  {
    if k >= |s| then []
    else if k >= 0 then s[k..]
    else if -k >= |s| then s
    else s[|s| + k..]
  }

  /**
   * The respondent rows: reading with the label row as header keeps the rows
   * after it, and `iloc[(DATA_START_ROW - HEADER_ROW - 1):]` then drops the
   * rows between the labels and the data.
   */
  function RespondentRows(grid: seq<seq<Cell>>, layout: Layout): (rows: seq<seq<Cell>>)
    requires layout.headerRow < |grid|
    ensures |rows| < |grid| - layout.headerRow
    ensures forall i :: 0 <= i < |rows| ==> rows[i] == grid[|grid| - |rows| + i]
  {
    PySliceFrom(grid[layout.headerRow + 1..], layout.dataStartRow - layout.headerRow - 1)
  }

  /** `pd.to_numeric(..., errors="coerce")` on one cell; `parse` is how the library reads a number from text. */
  function ToNumeric(c: Cell, parse: string -> Option<real>): (v: Option<real>)
    ensures v.Some? <==> c.Num? || (c.Text? && parse(c.s).Some?)
    ensures c.Num? ==> v == Some(c.x)
    ensures c.Text? ==> v == parse(c.s)
  {
    match c
    case Num(x) => Some(x)
    case Text(s) => parse(s)
    case Empty => None
  }

  /**
   * `str(col)` of the header the reader produced for a label cell at `position`
   * in the band. The reader sees an empty text cell exactly as a blank one, so
   * both get the placeholder name.
   */
  function HeaderText(heading: Cell, position: nat, fmt: HeaderFormat): (h: string)
    ensures heading.Text? && heading.s != "" ==> h == heading.s
    ensures heading.Empty? || heading == Text("") ==> h == fmt.blankLabel(position)
  {
    match heading
    case Text(s) => if s == "" then fmt.blankLabel(position) else s
    case Num(x) => fmt.numberText(x)
    case Empty => fmt.blankLabel(position)
  }

  /** The course name of a label: its header string with surrounding whitespace removed. */
  function CourseName(heading: Cell, position: nat, fmt: HeaderFormat): string {
    Strip(HeaderText(heading, position, fmt))
  }

  /** The trimmed names of the band's columns, in column order. */
  function CourseNames(labels: seq<Cell>, layout: Layout, fmt: HeaderFormat): (names: seq<string>)
    requires layout.Valid()
    ensures |names| == layout.Width()
    ensures forall k :: 0 <= k < |names| ==> names[k] == CourseName(CellAt(labels, layout.firstCol + k), k, fmt)
  {
    seq(layout.Width(), k requires 0 <= k < layout.Width() => CourseName(CellAt(labels, layout.firstCol + k), k, fmt))
  }

  /** Column `j` of the respondent rows, each cell coerced to an optional number. */
  function CoerceColumn(rows: seq<seq<Cell>>, j: nat, parse: string -> Option<real>): (vs: seq<Option<real>>)
    ensures |vs| == |rows|
  {
    seq(|rows|, i requires 0 <= i < |rows| => ToNumeric(CellAt(rows[i], j), parse))
  }

  /** The table whose course `k` has name `names[k]` and the coerced cells of sheet column `firstCol + k`. */
  function BuildColumns(names: seq<string>, rows: seq<seq<Cell>>, firstCol: nat, parse: string -> Option<real>)
    : (table: seq<Column>)
    ensures |table| == |names|
    ensures forall k :: 0 <= k < |names| ==> table[k] == Column(names[k], CoerceColumn(rows, firstCol + k, parse))
  {
    seq(|names|, k requires 0 <= k < |names| => Column(names[k], CoerceColumn(rows, firstCol + k, parse)))
  }

  /** No name occurs twice. */
  predicate Distinct(names: seq<string>) {
    forall i, j :: 0 <= i < j < |names| ==> names[i] != names[j]
  }

  /** The rank table `load_rank_data` returns for a sheet that has been read into `grid`. */
  function ExtractRankTable(grid: seq<seq<Cell>>, layout: Layout, fmt: HeaderFormat, parse: string -> Option<real>)
    : (r: Result<seq<Column>, LoadError>)
    requires layout.Valid()
    ensures r.Failure? <==> |grid| <= layout.headerRow || !Distinct(CourseNames(grid[layout.headerRow], layout, fmt))
    ensures r.Failure? && |grid| <= layout.headerRow ==> r.error == MissingLabelRow
    ensures r.Failure? && layout.headerRow < |grid| ==> r.error == DuplicateCourseName
    ensures r.Success? ==> |r.value| == layout.Width()
    ensures r.Success? ==> forall k :: 0 <= k < |r.value| ==> |r.value[k].values| == |RespondentRows(grid, layout)|
  {
    if |grid| <= layout.headerRow then Failure(MissingLabelRow)
    else
      var names := CourseNames(grid[layout.headerRow], layout, fmt);
      if !Distinct(names) then Failure(DuplicateCourseName)
      else
        var rows := RespondentRows(grid, layout);
        Success(BuildColumns(names, rows, layout.firstCol, parse))
  }

  /**
   * The coercion loop: each named column in turn is looked up and replaced by
   * its numeric form; a lookup of a name that two columns share fails.
   */
  method CoerceColumns(names: seq<string>, rows: seq<seq<Cell>>, firstCol: nat, parse: string -> Option<real>)
    returns (r: Result<seq<Column>, LoadError>)
    ensures r == if Distinct(names) then Success(BuildColumns(names, rows, firstCol, parse)) else Failure(DuplicateCourseName)
  {
    var table: seq<Column> := [];
    var k := 0;
    while k < |names|
      invariant 0 <= k <= |names| && |table| == k
      invariant forall i, j :: 0 <= i < k && 0 <= j < |names| && i != j ==> names[i] != names[j]
      invariant forall i :: 0 <= i < k ==> table[i] == Column(names[i], CoerceColumn(rows, firstCol + i, parse))
    {
      var others := names[..k] + names[k + 1..];
      if names[k] in others {
        var m :| 0 <= m < |others| && others[m] == names[k];
        // Earlier names are known to be unique, so the clash is with a later column.
        assert m >= k && names[k] == names[m + 1];
        return Failure(DuplicateCourseName);
      }
      forall j | 0 <= j < |names| && j != k ensures names[j] != names[k] {
        if j < k { assert others[j] == names[j]; } else { assert others[j - 1] == names[j]; }
      }
      table := table + [Column(names[k], CoerceColumn(rows, firstCol + k, parse))];
      k := k + 1;
    }
    assert table == BuildColumns(names, rows, firstCol, parse);
    r := Success(table);
  }

  /** `load_rank_data` after the read: keep the respondent rows, trim the labels, coerce every column. */
  method LoadRankData(grid: seq<seq<Cell>>, layout: Layout, fmt: HeaderFormat, parse: string -> Option<real>)
    returns (r: Result<seq<Column>, LoadError>)
    requires layout.Valid()
    ensures r == ExtractRankTable(grid, layout, fmt, parse)
  {
    if |grid| <= layout.headerRow {
      return Failure(MissingLabelRow);
    }
    var rows := RespondentRows(grid, layout);
    var names := CourseNames(grid[layout.headerRow], layout, fmt);
    r := CoerceColumns(names, rows, layout.firstCol, parse);
  }

  /** The rows kept are exactly those at or after the first respondent row. */
  lemma RespondentRowsFromDataStart(grid: seq<seq<Cell>>, layout: Layout)
    requires layout.headerRow < layout.dataStartRow && layout.headerRow < |grid|
    ensures RespondentRows(grid, layout) == if layout.dataStartRow <= |grid| then grid[layout.dataStartRow..] else []
  {
  }

  /**
   * Course `k` of the table is column `firstCol + k` of the sheet: its name is
   * the trimmed label and its values are the coerced cells of the respondent rows.
   */
  lemma ExtractedColumn(grid: seq<seq<Cell>>, layout: Layout, fmt: HeaderFormat, parse: string -> Option<real>, k: nat, i: nat)
    requires layout.Valid()
    requires ExtractRankTable(grid, layout, fmt, parse).Success?
    requires k < layout.Width()
    ensures var table := ExtractRankTable(grid, layout, fmt, parse).value;
      && table[k].name == Strip(HeaderText(CellAt(grid[layout.headerRow], layout.firstCol + k), k, fmt))
      && (i < |RespondentRows(grid, layout)| ==>
            table[k].values[i] == ToNumeric(CellAt(RespondentRows(grid, layout)[i], layout.firstCol + k), parse))
  {
    var rows := RespondentRows(grid, layout);
    var names := CourseNames(grid[layout.headerRow], layout, fmt);
    var table := ExtractRankTable(grid, layout, fmt, parse).value;
    assert table == BuildColumns(names, rows, layout.firstCol, parse);
    assert table[k] == Column(names[k], CoerceColumn(rows, layout.firstCol + k, parse));
    if i < |rows| {
      assert CoerceColumn(rows, layout.firstCol + k, parse)[i] == ToNumeric(CellAt(rows[i], layout.firstCol + k), parse);
    }
  }
}
