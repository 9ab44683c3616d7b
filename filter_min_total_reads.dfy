/** util/filter_by_min_total_reads.py: read the cancer intron candidates table, add a
    `total_reads` column (uniq_mapped + multi_mapped), keep the rows whose total reaches the
    minimum, sort them by total (largest first), drop the helper column and write the table
    back as tab-separated text with missing values as "NA". */
module FilterByMinTotalReads {
  import opened Wrappers
  import opened Text
  import Sorting

  const HELPER: string := "total_reads"
  const UNIQ: string := "uniq_mapped"
  const MULTI: string := "multi_mapped"
  const NA_REP: string := "NA"

  const EMPTY_DATA_ERROR: string := "EmptyDataError: No columns to parse from file"
  const PARSER_ERROR: string := "ParserError: Error tokenizing data, too many fields"
  const KEY_ERROR: string := "KeyError: column not found"
  const TYPE_ERROR: string := "TypeError: the read counts are not numbers"

  /** The texts `read_table` reads as a missing value by default. */
  const NA_VALUES: set<string> := {"", "#N/A", "#N/A N/A", "#NA", "-1.#IND", "-1.#QNAN", "-NaN", "-nan",
                                   "1.#IND", "1.#QNAN", "<NA>", "N/A", "NA", "NULL", "NaN", "None", "n/a",
                                   "nan", "null"}

  /** A cell of the frame: a value, kept as its text, or a missing value (NaN). */
  datatype Cell = Value(text: string) | Missing

  type Row = seq<Cell>

  datatype Frame = Frame(columns: seq<string>, rows: seq<Row>)

  // ---------------------------------------------------------------------------------------
  // Reading

  function ReadCell(text: string): (c: Cell)
    ensures c.Missing? <==> text in NA_VALUES
    ensures c.Value? ==> c.text == text
  {
    if text in NA_VALUES then Missing else Value(text)
  }

  function ReadCells(fields: seq<string>): (cells: Row)
    ensures |cells| == |fields| && forall j :: 0 <= j < |fields| ==> cells[j] == ReadCell(fields[j])
  {
    if |fields| == 0 then [] else ReadCells(fields[..|fields| - 1]) + [ReadCell(fields[|fields| - 1])]
  }

  function Padding(n: nat): (cells: Row)
    ensures |cells| == n && forall j :: 0 <= j < n ==> cells[j] == Missing
  {
    if n == 0 then [] else Padding(n - 1) + [Missing]
  }

  /** A data line: too many fields is an error, too few are filled with missing values. */
  function ReadRow(fields: seq<string>, width: nat): (r: Result<Row>)
    ensures r.Failure? <==> |fields| > width
    ensures r.Success? ==>
      && |r.value| == width
      && (forall j :: 0 <= j < |fields| ==> r.value[j] == ReadCell(fields[j]))
      && (forall j :: |fields| <= j < width ==> r.value[j] == Missing)
  {
    if |fields| > width then Failure(PARSER_ERROR) else Success(ReadCells(fields) + Padding(width - |fields|))
  }

  /** The text of a line without its line break. */
  function Chomp(line: string): string
  {
    if |line| > 0 && line[|line| - 1] == '\n' then line[..|line| - 1] else line
  }

  function ReadRows(lines: seq<string>, width: nat): Result<seq<Row>>
  {
    if |lines| == 0 then Success([])
    else
      match ReadRows(lines[..|lines| - 1], width)
      case Failure(e) => Failure(e)
      case Success(rows) =>
        var text := Chomp(lines[|lines| - 1]);
        if text == "" then Success(rows)
        else
          match ReadRow(Split(text, '\t'), width)
          case Failure(e) => Failure(e)
          case Success(row) => Success(rows + [row])
  }

  /** How many leading fields of each data line form the implicit index: the number of
      fields of the first non-blank data line beyond the header's, or none. */
  function IndexWidth(lines: seq<string>, width: nat): nat
  {
    if |lines| == 0 then 0
    else if Chomp(lines[0]) == "" then IndexWidth(lines[1..], width)
    else
      var n := |Split(Chomp(lines[0]), '\t')|;
      if n > width then n - width else 0
  }

  /** The rows without their first k cells, the index columns. */
  function DropIndex(rows: seq<Row>, k: nat): (r: seq<Row>)
    requires forall i :: 0 <= i < |rows| ==> k <= |rows[i]|
    ensures |r| == |rows| && forall i :: 0 <= i < |rows| ==> r[i] == rows[i][k..]
  {
    if |rows| == 0 then [] else DropIndex(rows[..|rows| - 1], k) + [rows[|rows| - 1][k..]]
  }

  /** `pd.read_table`: the first line names the columns; blank lines are skipped. When the
      first data line has more fields than the header, its leading extra fields are an index
      (which `to_csv(index=False)` never writes) and every line may have that many more. */
  function ReadTable(lines: seq<string>): (r: Result<Frame>)
    ensures r.Success? ==> forall i :: 0 <= i < |r.value.rows| ==> |r.value.rows[i]| == |r.value.columns|
  {
    if |lines| == 0 then Failure(EMPTY_DATA_ERROR)
    else
      var columns := Split(Chomp(lines[0]), '\t');
      var k := IndexWidth(lines[1..], |columns|);
      match ReadRows(lines[1..], |columns| + k)
      case Failure(e) => Failure(e)
      case Success(rows) =>
        ReadRowsWidth(lines[1..], |columns| + k);
        Success(Frame(columns, DropIndex(rows, k)))
  }

  /** Every row read has one cell per column. */
  lemma {:induction false} ReadRowsWidth(lines: seq<string>, width: nat)
    requires ReadRows(lines, width).Success?
    ensures forall i :: 0 <= i < |ReadRows(lines, width).value| ==> |ReadRows(lines, width).value[i]| == width
  {
    if |lines| > 0 {
      ReadRowsWidth(lines[..|lines| - 1], width);
    }
  }

  /** A row as read from the text of a data line: one cell per column, a cell missing exactly
      when its field is absent or one of the default missing-value texts, and otherwise
      holding its field's text. */
  ghost predicate RowReadFrom(row: Row, text: string, width: nat)
  {
    var fields := Split(text, '\t');
    && |fields| <= width && |row| == width
    && (forall j :: 0 <= j < width ==> (row[j].Missing? <==> j >= |fields| || fields[j] in NA_VALUES))
    && (forall j :: 0 <= j < |fields| && row[j].Value? ==> row[j].text == fields[j])
  }

  /** Every row read comes from a non-blank data line, cell by cell. */
  lemma {:induction false} ReadRowsCells(lines: seq<string>, width: nat, k: nat)
    requires ReadRows(lines, width).Success? && k < |ReadRows(lines, width).value|
    ensures exists i :: 0 <= i < |lines| && Chomp(lines[i]) != ""
                        && RowReadFrom(ReadRows(lines, width).value[k], Chomp(lines[i]), width)
  {
    var front := lines[..|lines| - 1];
    var rows := ReadRows(front, width).value;
    if k < |rows| {
      ReadRowsCells(front, width, k);
      var i :| 0 <= i < |front| && Chomp(front[i]) != "" && RowReadFrom(rows[k], Chomp(front[i]), width);
      assert front[i] == lines[i];
    } else {
      var text := Chomp(lines[|lines| - 1]);
      assert RowReadFrom(ReadRows(lines, width).value[k], text, width);
    }
  }

  /** The first row read comes from the first non-blank line. */
  lemma {:induction false} ReadRowsFirst(lines: seq<string>, width: nat)
    requires |lines| > 0 && Chomp(lines[0]) != "" && ReadRows(lines, width).Success?
    ensures |ReadRows(lines, width).value| > 0
    ensures ReadRow(Split(Chomp(lines[0]), '\t'), width).Success?
    ensures ReadRows(lines, width).value[0] == ReadRow(Split(Chomp(lines[0]), '\t'), width).value
  {
    if |lines| > 1 {
      var front := lines[..|lines| - 1];
      assert front[0] == lines[0];
      ReadRowsFirst(front, width);
    }
  }

  /** A first data line with more fields than the header: its leading extra fields are the
      index, and its row holds the cells of its last fields, one per column. */
  lemma ReadTableImplicitIndex(lines: seq<string>)
    requires |lines| > 1 && Chomp(lines[1]) != ""
    requires |Split(Chomp(lines[1]), '\t')| > |Split(Chomp(lines[0]), '\t')|
    requires ReadTable(lines).Success?
    ensures var fields := Split(Chomp(lines[1]), '\t');
      var k := |fields| - |ReadTable(lines).value.columns|;
      |ReadTable(lines).value.rows| > 0 && ReadTable(lines).value.rows[0] == ReadCells(fields[k..])
  {
    var columns := Split(Chomp(lines[0]), '\t');
    var fields := Split(Chomp(lines[1]), '\t');
    var data := lines[1..];
    var k := |fields| - |columns|;
    assert data[0] == lines[1];
    assert IndexWidth(data, |columns|) == k;
    var rows := ReadRows(data, |fields|).value;
    ReadRowsWidth(data, |fields|);
    IndexedFirstRow(data, fields, k, rows);
    assert ReadTable(lines) == Success(Frame(columns, DropIndex(rows, k)));
  }

  lemma IndexedFirstRow(data: seq<string>, fields: seq<string>, k: nat, rows: seq<Row>)
    requires |data| > 0 && Chomp(data[0]) != "" && fields == Split(Chomp(data[0]), '\t') && k <= |fields|
    requires ReadRows(data, |fields|) == Success(rows)
    requires forall i :: 0 <= i < |rows| ==> k <= |rows[i]|
    ensures |rows| > 0 && DropIndex(rows, k)[0] == ReadCells(fields[k..])
  {
    ReadRowsFirst(data, |fields|);
    assert rows[0] == ReadCells(fields) + Padding(0);
    assert rows[0][k..] == ReadCells(fields[k..]);
  }

  // ---------------------------------------------------------------------------------------
  // The total, the filter and the sort

  /** The first column with the name, as `data[name]` finds it. */
  function ColumnIndex(columns: seq<string>, name: string): (r: Option<nat>)
    ensures r.Some? ==> r.value < |columns| && columns[r.value] == name
    ensures r.None? <==> name !in columns
  {
    if |columns| == 0 then None
    else if columns[0] == name then Some(0)
    else
      match ColumnIndex(columns[1..], name)
      case None => None
      case Some(j) => Some(j + 1)
  }

  /** A read count: an integer, or NaN for a missing value; any other text makes the sum
      fail. */
  function Count(c: Cell): Result<Option<int>>
  {
    match c
    case Missing => Success(None)
    case Value(t) => if ParseInt(t).Some? then Success(Some(ParseInt(t).value)) else Failure(TYPE_ERROR)
  }

  /** `uniq_mapped + multi_mapped` for a row: NaN when either is missing. */
  function Total(row: Row, ui: nat, mi: nat): Result<Option<int>>
    requires ui < |row| && mi < |row|
  {
    match (Count(row[ui]), Count(row[mi]))
    case (Success(Some(u)), Success(Some(m))) => Success(Some(u + m))
    case (Success(_), Success(_)) => Success(None)
    case (Failure(e), _) => Failure(e)
    case (_, Failure(e)) => Failure(e)
  }

  /** A row together with its `total_reads` value. */
  datatype Tagged = Tagged(row: Row, total: Option<int>)

  function Totals(rows: seq<Row>, ui: nat, mi: nat): (r: Result<seq<Tagged>>)
    requires forall i :: 0 <= i < |rows| ==> ui < |rows[i]| && mi < |rows[i]|
    ensures r.Success? ==>
      && |r.value| == |rows|
      && forall i :: 0 <= i < |rows| ==> r.value[i].row == rows[i] && Total(rows[i], ui, mi) == Success(r.value[i].total)
  {
    if |rows| == 0 then Success([])
    else
      match Totals(rows[..|rows| - 1], ui, mi)
      case Failure(e) => Failure(e)
      case Success(front) =>
        match Total(rows[|rows| - 1], ui, mi)
        case Failure(e) => Failure(e)
        case Success(t) => Success(front + [Tagged(rows[|rows| - 1], t)])
  }

  /** `total_reads >= min_total_reads`: false for NaN. */
  predicate Reaches(t: Tagged, minTotal: int)
  {
    t.total.Some? && t.total.value >= minTotal
  }

  function Keep(ts: seq<Tagged>, minTotal: int): seq<Tagged>
  {
    if |ts| == 0 then []
    else Keep(ts[..|ts| - 1], minTotal) + (if Reaches(ts[|ts| - 1], minTotal) then [ts[|ts| - 1]] else [])
  }

  /** The kept rows are exactly the ones whose total reaches the minimum, each as often as
      it occurs. */
  lemma {:induction false} KeepCharacterized(ts: seq<Tagged>, minTotal: int)
    ensures forall t :: multiset(Keep(ts, minTotal))[t] == if Reaches(t, minTotal) then multiset(ts)[t] else 0
  {
    if |ts| > 0 {
      var front := ts[..|ts| - 1];
      KeepCharacterized(front, minTotal);
      assert ts == front + [ts[|ts| - 1]];
    }
  }

  /** The sort key of a kept row. */
  function TotalKey(t: Tagged): real
  {
    if t.total.Some? then t.total.value as real else 0.0
  }

  /** `sort_values('total_reads', ascending=False)`. */
  function SortByTotal(ts: seq<Tagged>): seq<Tagged>
  {
    Sorting.SortDescending(ts, TotalKey)
  }

  // ---------------------------------------------------------------------------------------
  // Dropping the helper column and writing

  /** The cells of a row whose column is not the given one. */
  function DropColumn(columns: seq<string>, row: Row, name: string): (r: Row)
    requires |row| == |columns|
    ensures name !in columns ==> r == row
  {
    if |columns| == 0 then []
    else
      var n := |columns| - 1;
      DropColumn(columns[..n], row[..n], name) + (if columns[n] == name then [] else [row[n]])
  }

  function Without(columns: seq<string>, name: string): (r: seq<string>)
    ensures name !in columns ==> r == columns
  {
    if |columns| == 0 then []
    else
      var n := |columns| - 1;
      Without(columns[..n], name) + (if columns[n] == name then [] else [columns[n]])
  }

  function Render(c: Cell): string
  {
    match c
    case Missing => NA_REP
    case Value(t) => t
  }

  function RenderCells(row: Row): (texts: seq<string>)
    ensures |texts| == |row| && forall j :: 0 <= j < |row| ==> texts[j] == Render(row[j])
  {
    if |row| == 0 then [] else RenderCells(row[..|row| - 1]) + [Render(row[|row| - 1])]
  }

  /** `to_csv(sep="\t", index=False, na_rep="NA")`: the header, then one line per row. */
  function ToCsv(columns: seq<string>, rows: seq<Row>): (lines: seq<string>)
    ensures |lines| == |rows| + 1 && lines[0] == Join(columns, "\t") + "\n"
    ensures forall i :: 0 <= i < |rows| ==> lines[i + 1] == Join(RenderCells(rows[i]), "\t") + "\n"
  {
    if |rows| == 0 then [Join(columns, "\t") + "\n"]
    else ToCsv(columns, rows[..|rows| - 1]) + [Join(RenderCells(rows[|rows| - 1]), "\t") + "\n"]
  }

  /** What the script does to a frame read from the file: the kept rows, largest total
      first, with the total column gone. The result holds the columns written and the kept
      rows with their totals, in output order. */
  function FilterFrame(f: Frame, minTotal: int): Result<(seq<string>, seq<Tagged>)>
    requires forall i :: 0 <= i < |f.rows| ==> |f.rows[i]| == |f.columns|
  {
    match (ColumnIndex(f.columns, UNIQ), ColumnIndex(f.columns, MULTI))
    case (Some(ui), Some(mi)) =>
      (match Totals(f.rows, ui, mi)
       case Failure(e) => Failure(e)
       case Success(ts) => Success((Without(f.columns, HELPER), SortByTotal(Keep(ts, minTotal)))))
    case _ => Failure(KEY_ERROR)
  }

  function OutputRows(columns: seq<string>, ts: seq<Tagged>): (rows: seq<Row>)
    requires forall i :: 0 <= i < |ts| ==> |ts[i].row| == |columns|
    ensures |rows| == |ts| && forall i :: 0 <= i < |ts| ==> rows[i] == DropColumn(columns, ts[i].row, HELPER)
  {
    if |ts| == 0 then [] else OutputRows(columns, ts[..|ts| - 1]) + [DropColumn(columns, ts[|ts| - 1].row, HELPER)]
  }

  /** The whole script: read the table, filter, sort, drop, write. */
  function FilterByMinTotalReads(lines: seq<string>, minTotal: int): Result<seq<string>>
  {
    match ReadTable(lines)
    case Failure(e) => Failure(e)
    case Success(f) =>
      match FilterFrame(f, minTotal)
      case Failure(e) => Failure(e)
      case Success((columns, ts)) =>
        KeptRowsWidth(f, minTotal);
        Success(ToCsv(columns, OutputRows(f.columns, ts)))
  }

  // ---------------------------------------------------------------------------------------
  // What the output promises

  /** The rows kept are the rows of the frame whose total reaches the minimum, each as often
      as in the frame. */
  lemma KeptRows(f: Frame, minTotal: int)
    requires forall i :: 0 <= i < |f.rows| ==> |f.rows[i]| == |f.columns|
    requires FilterFrame(f, minTotal).Success?
    ensures var ui, mi := ColumnIndex(f.columns, UNIQ).value, ColumnIndex(f.columns, MULTI).value;
      var ts := Totals(f.rows, ui, mi).value;
      var out := FilterFrame(f, minTotal).value.1;
      forall t :: multiset(out)[t] == if Reaches(t, minTotal) then multiset(ts)[t] else 0
  {
    var ui, mi := ColumnIndex(f.columns, UNIQ).value, ColumnIndex(f.columns, MULTI).value;
    var kept := Keep(Totals(f.rows, ui, mi).value, minTotal);
    KeepCharacterized(Totals(f.rows, ui, mi).value, minTotal);
    Sorting.SortDescendingPermutes(kept, TotalKey);
  }

  /** The rows come out with the largest total first. */
  lemma KeptRowsSorted(f: Frame, minTotal: int)
    requires forall i :: 0 <= i < |f.rows| ==> |f.rows[i]| == |f.columns|
    requires FilterFrame(f, minTotal).Success?
    ensures var out := FilterFrame(f, minTotal).value.1;
      && (forall i :: 0 <= i < |out| ==> Reaches(out[i], minTotal))
      && (forall i, j :: 0 <= i < j < |out| ==> out[i].total.value >= out[j].total.value)
  {
    var out := FilterFrame(f, minTotal).value.1;
    var ui, mi := ColumnIndex(f.columns, UNIQ).value, ColumnIndex(f.columns, MULTI).value;
    var kept := Keep(Totals(f.rows, ui, mi).value, minTotal);
    KeptRows(f, minTotal);
    Sorting.SortDescendingSorted(kept, TotalKey);
    forall i | 0 <= i < |out| ensures Reaches(out[i], minTotal) {
      assert out[i] in multiset(out);
    }
    forall i, j | 0 <= i < j < |out| ensures out[i].total.value >= out[j].total.value {
      assert TotalKey(out[i]) >= TotalKey(out[j]);
    }
  }

  /** The kept rows still have one cell per column. */
  lemma KeptRowsWidth(f: Frame, minTotal: int)
    requires forall i :: 0 <= i < |f.rows| ==> |f.rows[i]| == |f.columns|
    requires FilterFrame(f, minTotal).Success?
    ensures var out := FilterFrame(f, minTotal).value.1; forall i :: 0 <= i < |out| ==> |out[i].row| == |f.columns|
  {
    var ui, mi := ColumnIndex(f.columns, UNIQ).value, ColumnIndex(f.columns, MULTI).value;
    var ts := Totals(f.rows, ui, mi).value;
    var kept := Keep(ts, minTotal);
    var out := SortByTotal(kept);
    KeepCharacterized(ts, minTotal);
    Sorting.SortDescendingPermutes(kept, TotalKey);
    forall i | 0 <= i < |out| ensures |out[i].row| == |f.columns| {
      assert out[i] in multiset(out);
      assert out[i] in multiset(ts);
      var k :| 0 <= k < |ts| && ts[k] == out[i];
    }
  }

  /** Without a `total_reads` column in the input, the output has the input's columns and
      every output row is an input row, unchanged. */
  lemma HelperColumnDropped(f: Frame, minTotal: int)
    requires forall i :: 0 <= i < |f.rows| ==> |f.rows[i]| == |f.columns|
    requires FilterFrame(f, minTotal).Success? && HELPER !in f.columns
    ensures var (columns, out) := FilterFrame(f, minTotal).value;
      columns == f.columns
      && forall i :: 0 <= i < |out| ==> |out[i].row| == |f.columns| && DropColumn(f.columns, out[i].row, HELPER) == out[i].row
  {
    KeptRowsWidth(f, minTotal);
  }

  /** A missing value is written as "NA", any other value as its text. */
  lemma MissingWrittenAsNA(row: Row, j: nat)
    requires j < |row|
    ensures RenderCells(row)[j] == if row[j].Missing? then "NA" else row[j].text
  {
  }
}
