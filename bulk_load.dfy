/** intron_sqlite3_bulk_load_prepper.py: the earlier bulk-load prepper. It ingests the same
    twelve-column junction tables, but keeps only the class of each sample (any class name is
    accepted), writes "NA" as every sample's type, and pads each occurrence line with three
    "-1" placeholders for the normalized counts. */
module BulkLoad {
  import opened Wrappers
  import opened Text
  import opened BulkLoadRows

  datatype SampleRecord = SampleRecord(dbClass: string, uniq: int, multi: int, total: int)

  datatype LoadState = LoadState(
    samples: map<string, SampleRecord>, order: seq<string>,
    features: set<string>, featureLines: seq<seq<string>>, occurrenceLines: seq<seq<string>>)

  const EMPTY: LoadState := LoadState(map[], [], {}, [], [])

  /** The placeholder written for each normalized count. */
  const NOT_NORMALIZED: string := "-1"

  /** The occurrence line of a row: key, sample, unique, multi, all, overhang, then the three
      normalized counts as placeholders. */
  function OccurrenceLine(r: JunctionRow): seq<string>
  {
    [FeatureKey(r), r.sample] + CountColumns(r) + [r.overhang, NOT_NORMALIZED, NOT_NORMALIZED, NOT_NORMALIZED]
  }

  /** The record a row adds to: the sample's own, or a new one with this row's class. */
  function SampleEntry(samples: map<string, SampleRecord>, r: JunctionRow): SampleRecord
  {
    if r.sample in samples then samples[r.sample] else SampleRecord(r.classname, 0, 0, 0)
  }

  function Bump(rec: SampleRecord, r: JunctionRow): SampleRecord
  {
    rec.(uniq := rec.uniq + r.unique, multi := rec.multi + r.multi, total := rec.total + r.unique + r.multi)
  }

  /** Ingesting one parsed row; this never fails. */
  function RowStep(st: LoadState, r: JunctionRow): LoadState
  {
    var key := FeatureKey(r);
    LoadState(
      st.samples[r.sample := Bump(SampleEntry(st.samples, r), r)],
      if r.sample in st.samples then st.order else st.order + [r.sample],
      st.features + {key},
      if key in st.features then st.featureLines else st.featureLines + [FeatureRecord(r)],
      st.occurrenceLines + [OccurrenceLine(r)])
  }

  function IngestLines(st: LoadState, lines: seq<string>): Result<LoadState>
  {
    if |lines| == 0 then Success(st)
    else
      match IngestLines(st, lines[..|lines| - 1])
      case Failure(e) => Failure(e)
      case Success(s) =>
        match ParseJunctionRow(lines[|lines| - 1])
        case Failure(e) => Failure(e)
        case Success(r) => Success(RowStep(s, r))
  }

  /** The ingest loop: each file's first line is a header (`next(fh)` fails on an empty
      file). */
  function LoadFiles(files: seq<seq<string>>): Result<LoadState>
  {
    if |files| == 0 then Success(EMPTY)
    else
      match LoadFiles(files[..|files| - 1])
      case Failure(e) => Failure(e)
      case Success(st) =>
        var last := files[|files| - 1];
        if |last| == 0 then Failure("input file has no header line")
        else IngestLines(st, last[1..])
  }

  // ---------------------------------------------------------------------------------------
  // When a run succeeds

  /** Every data line of a file parses. */
  predicate AllParse(lines: seq<string>)
  {
    forall n :: 0 <= n < |lines| ==> ParseJunctionRow(lines[n]).Success?
  }

  /** Every file has a header and every data line parses. */
  predicate WellFormedInput(files: seq<seq<string>>)
  {
    forall f :: 0 <= f < |files| ==> |files[f]| > 0 && AllParse(files[f][1..])
  }

  lemma AllParseStep(lines: seq<string>)
    requires |lines| > 0
    ensures AllParse(lines) <==> AllParse(lines[..|lines| - 1]) && ParseJunctionRow(lines[|lines| - 1]).Success?
  {
    var front := lines[..|lines| - 1];
    assert forall n :: 0 <= n < |front| ==> front[n] == lines[n];
  }

  lemma IngestLinesSucceedsStep(st: LoadState, lines: seq<string>)
    requires |lines| > 0
    ensures IngestLines(st, lines).Success?
            <==> IngestLines(st, lines[..|lines| - 1]).Success? && ParseJunctionRow(lines[|lines| - 1]).Success?
  {
  }

  lemma {:induction false} IngestLinesSucceeds(st: LoadState, lines: seq<string>)
    ensures IngestLines(st, lines).Success? <==> AllParse(lines)
  {
    if |lines| > 0 {
      IngestLinesSucceeds(st, lines[..|lines| - 1]);
      AllParseStep(lines);
      IngestLinesSucceedsStep(st, lines);
    }
  }

  lemma WellFormedStep(files: seq<seq<string>>)
    requires |files| > 0
    ensures var last := files[|files| - 1];
      WellFormedInput(files) <==> WellFormedInput(files[..|files| - 1]) && |last| > 0 && AllParse(last[1..])
  {
    var front := files[..|files| - 1];
    assert forall f :: 0 <= f < |front| ==> front[f] == files[f];
  }

  /** Since no row is refused for its class, a run fails exactly when some file lacks a header
      or some data line does not unpack into twelve fields with integer counts. */
  lemma {:induction false} LoadFilesSucceeds(files: seq<seq<string>>)
    ensures LoadFiles(files).Success? <==> WellFormedInput(files)
  {
    if |files| > 0 {
      var front := files[..|files| - 1];
      var last := files[|files| - 1];
      LoadFilesSucceeds(front);
      WellFormedStep(files);
      if LoadFiles(front).Success? && |last| > 0 {
        IngestLinesSucceeds(LoadFiles(front).value, last[1..]);
        assert LoadFiles(files) == IngestLines(LoadFiles(front).value, last[1..]);
      }
    }
  }

  // ---------------------------------------------------------------------------------------
  // What the tables hold

  ghost predicate Accounts(st: LoadState, rows: seq<JunctionRow>)
  {
    && SamplesAccount(st.samples, st.order, rows)
    && FeaturesAccount(st.features, st.featureLines, rows)
    && st.occurrenceLines == Occurrences(rows)
  }

  /** One record per sample, in first-seen order, holding the class of its first row and the
      sums of its rows' counts with total = unique + multi. */
  ghost predicate SamplesAccount(samples: map<string, SampleRecord>, order: seq<string>, rows: seq<JunctionRow>)
  {
    && (forall s :: s in samples <==> s in SampleNames(rows))
    && order == FirstSeen(SampleNames(rows))
    && (forall s :: s in samples ==> SampleAccount(samples[s], rows, s))
  }

  ghost predicate SampleAccount(rec: SampleRecord, rows: seq<JunctionRow>, s: string)
    requires s in SampleNames(rows)
  {
    && rec.uniq == UniqueSum(rows, s) && rec.multi == MultiSum(rows, s) && rec.total == rec.uniq + rec.multi
    && rec.dbClass == FirstRowOf(rows, s).classname
  }

  function Occurrences(rows: seq<JunctionRow>): (lines: seq<seq<string>>)
    ensures |lines| == |rows| && forall i :: 0 <= i < |rows| ==> lines[i] == OccurrenceLine(rows[i])
  {
    if |rows| == 0 then [] else Occurrences(rows[..|rows| - 1]) + [OccurrenceLine(rows[|rows| - 1])]
  }

  lemma SampleAccountStep(samples: map<string, SampleRecord>, order: seq<string>, rows: seq<JunctionRow>,
                          r: JunctionRow, s: string)
    requires SamplesAccount(samples, order, rows)
    requires s in samples || s == r.sample
    ensures s in SampleNames(rows + [r])
    ensures SampleAccount(samples[r.sample := Bump(SampleEntry(samples, r), r)][s], rows + [r], s)
  {
    SamplesStep(rows, r, s);
    if s !in samples {
      AbsentSums(rows, s);
    }
  }

  lemma SamplesAccountStep(samples: map<string, SampleRecord>, order: seq<string>, rows: seq<JunctionRow>, r: JunctionRow)
    requires SamplesAccount(samples, order, rows)
    ensures SamplesAccount(samples[r.sample := Bump(SampleEntry(samples, r), r)],
                           if r.sample in samples then order else order + [r.sample], rows + [r])
  {
    var samples' := samples[r.sample := Bump(SampleEntry(samples, r), r)];
    SamplesStep(rows, r, r.sample);
    forall s | s in samples'
      ensures SampleAccount(samples'[s], rows + [r], s)
    {
      SampleAccountStep(samples, order, rows, r, s);
    }
    var next := rows + [r];
    assert SampleNames(next)[..|next| - 1] == SampleNames(rows);
    FirstSeenProperties(SampleNames(rows));
    assert forall s :: s in samples' <==> s in SampleNames(next);
  }

  lemma RowStepAccounts(st: LoadState, rows: seq<JunctionRow>, r: JunctionRow)
    requires Accounts(st, rows)
    ensures Accounts(RowStep(st, r), rows + [r])
  {
    SamplesAccountStep(st.samples, st.order, rows, r);
    FeatureStep(st.features, st.featureLines, rows, r);
    var next := rows + [r];
    assert next[..|next| - 1] == rows;
  }

  lemma IngestLinesStep(st: LoadState, lines: seq<string>)
    requires |lines| > 0 && IngestLines(st, lines).Success?
    ensures IngestLines(st, lines[..|lines| - 1]).Success?
    ensures ParseJunctionRow(lines[|lines| - 1]).Success?
    ensures IngestLines(st, lines).value
            == RowStep(IngestLines(st, lines[..|lines| - 1]).value, ParseJunctionRow(lines[|lines| - 1]).value)
  {
  }

  lemma {:induction false} IngestLinesAccounts(st: LoadState, rows: seq<JunctionRow>, lines: seq<string>)
    requires Accounts(st, rows) && IngestLines(st, lines).Success?
    ensures Accounts(IngestLines(st, lines).value, rows + ParsedLines(lines))
  {
    if |lines| > 0 {
      var front := lines[..|lines| - 1];
      IngestLinesStep(st, lines);
      IngestLinesAccounts(st, rows, front);
      var mid := IngestLines(st, front).value;
      var r := ParseJunctionRow(lines[|lines| - 1]).value;
      RowStepAccounts(mid, rows + ParsedLines(front), r);
      ParsedLinesAppend(rows, lines);
    } else {
      assert rows + ParsedLines(lines) == rows;
    }
  }

  /** After a successful run, the tables account for exactly the data rows of all files. */
  lemma {:induction false} LoadFilesAccounts(files: seq<seq<string>>)
    requires LoadFiles(files).Success?
    ensures Accounts(LoadFiles(files).value, DataRows(files))
  {
    if |files| > 0 {
      var front := files[..|files| - 1];
      var last := files[|files| - 1];
      LoadFilesAccounts(front);
      assert LoadFiles(files) == IngestLines(LoadFiles(front).value, last[1..]);
      IngestLinesAccounts(LoadFiles(front).value, DataRows(front), last[1..]);
    }
  }

  // ---------------------------------------------------------------------------------------
  // The imperative loop

  lemma {:induction false} IngestPrefixFailure(st: LoadState, lines: seq<string>, n: nat)
    requires n <= |lines| && IngestLines(st, lines[..n]).Failure?
    ensures IngestLines(st, lines) == IngestLines(st, lines[..n])
    decreases |lines| - n
  {
    if n < |lines| {
      assert lines[..n + 1][..n] == lines[..n];
      IngestPrefixFailure(st, lines, n + 1);
    } else {
      assert lines[..n] == lines;
    }
  }

  lemma {:induction false} LoadPrefixFailure(files: seq<seq<string>>, n: nat)
    requires n <= |files| && LoadFiles(files[..n]).Failure?
    ensures LoadFiles(files) == LoadFiles(files[..n])
    decreases |files| - n
  {
    if n < |files| {
      assert files[..n + 1][..n] == files[..n];
      LoadPrefixFailure(files, n + 1);
    } else {
      assert files[..n] == files;
    }
  }

  /** One data row: the sample's record and totals, the feature line when the key is new, and
      the occurrence line. */
  method AddRow(samples: map<string, SampleRecord>, order: seq<string>, features: set<string>,
                featureLines: seq<seq<string>>, occurrenceLines: seq<seq<string>>, r: JunctionRow)
    returns (st: LoadState)
    ensures st == RowStep(LoadState(samples, order, features, featureLines, occurrenceLines), r)
  {
    var samples', order' := samples, order;
    if r.sample !in samples {
      samples' := samples'[r.sample := SampleRecord(r.classname, 0, 0, 0)];
      order' := order' + [r.sample];
    }
    var rec := samples'[r.sample];
    rec := rec.(uniq := rec.uniq + r.unique);
    rec := rec.(multi := rec.multi + r.multi);
    rec := rec.(total := rec.total + r.unique + r.multi);
    samples' := samples'[r.sample := rec];
    var key := FeatureKey(r);
    var featureLines' := featureLines;
    if key !in features {
      featureLines' := featureLines' + [FeatureRecord(r)];
    }
    var occurrence := [key, r.sample, IntToString(r.unique), IntToString(r.multi), IntToString(r.unique + r.multi),
                       r.overhang, "-1", "-1", "-1"];
    assert occurrence == OccurrenceLine(r);
    st := LoadState(samples', order', features + {key}, featureLines', occurrenceLines + [occurrence]);
  }

  lemma IngestNext(start: LoadState, body: seq<string>, n: nat, st: LoadState, r: JunctionRow)
    requires n < |body| && IngestLines(start, body[..n]) == Success(st) && ParseJunctionRow(body[n]) == Success(r)
    ensures IngestLines(start, body[..n + 1]) == Success(RowStep(st, r))
  {
    assert body[..n + 1][..n] == body[..n];
  }

  lemma IngestBadRow(start: LoadState, body: seq<string>, n: nat, st: LoadState)
    requires n < |body| && IngestLines(start, body[..n]) == Success(st) && ParseJunctionRow(body[n]).Failure?
    ensures IngestLines(start, body) == Failure(ParseJunctionRow(body[n]).error)
  {
    assert body[..n + 1][..n] == body[..n];
    IngestPrefixFailure(start, body, n + 1);
  }

  lemma LoadNext(files: seq<seq<string>>, f: nat, st: LoadState)
    requires f < |files| && LoadFiles(files[..f]) == Success(st) && |files[f]| > 0
    ensures LoadFiles(files[..f + 1]) == IngestLines(st, files[f][1..])
  {
    assert files[..f + 1][..f] == files[..f];
  }

  lemma LoadStops(files: seq<seq<string>>, f: nat, st: LoadState, e: string)
    requires f < |files| && LoadFiles(files[..f]) == Success(st)
    requires if |files[f]| == 0 then e == "input file has no header line" else IngestLines(st, files[f][1..]) == Failure(e)
    ensures LoadFiles(files) == Failure(e)
  {
    assert files[..f + 1][..f] == files[..f];
    LoadPrefixFailure(files, f + 1);
  }

  /** The ingest loop of `main` over all input files. */
  method BulkLoadPrepper(files: seq<seq<string>>) returns (res: Result<LoadState>)
    ensures res == LoadFiles(files)
  {
    var st := EMPTY;
    var f := 0;
    while f < |files|
      invariant 0 <= f <= |files|
      invariant LoadFiles(files[..f]) == Success(st)
    {
      var file := files[f];
      if |file| == 0 {
        LoadStops(files, f, st, "input file has no header line");
        return Failure("input file has no header line");
      }
      var body := file[1..];
      ghost var start := st;
      var n := 0;
      while n < |body|
        invariant 0 <= n <= |body|
        invariant IngestLines(start, body[..n]) == Success(st)
      {
        var row := ParseJunctionRow(body[n]);
        if row.Failure? {
          IngestBadRow(start, body, n, st);
          LoadStops(files, f, start, row.error);
          return Failure(row.error);
        }
        IngestNext(start, body, n, st, row.value);
        st := AddRow(st.samples, st.order, st.features, st.featureLines, st.occurrenceLines, row.value);
        n := n + 1;
      }
      assert body[..|body|] == body;
      LoadNext(files, f, start);
      f := f + 1;
    }
    assert files[..|files|] == files;
    return Success(st);
  }

  // ---------------------------------------------------------------------------------------
  // The samples table

  /** One samples-table line: name, class, "NA" for the type, and the three totals. */
  function SampleLine(s: string, rec: SampleRecord): seq<string>
  {
    [s, rec.dbClass, "NA", IntToString(rec.uniq), IntToString(rec.multi), IntToString(rec.total)]
  }

  /** The samples table, in the order the samples were first seen. */
  method WriteSamples(st: LoadState) returns (lines: seq<seq<string>>)
    requires forall i :: 0 <= i < |st.order| ==> st.order[i] in st.samples
    ensures |lines| == |st.order|
    ensures forall i :: 0 <= i < |lines| ==> lines[i] == SampleLine(st.order[i], st.samples[st.order[i]])
  {
    lines := [];
    var i := 0;
    while i < |st.order|
      invariant 0 <= i <= |st.order| && |lines| == i
      invariant forall j :: 0 <= j < i ==> lines[j] == SampleLine(st.order[j], st.samples[st.order[j]])
    {
      var s := st.order[i];
      lines := lines + [SampleLine(s, st.samples[s])];
      i := i + 1;
    }
  }

  /** Every samples-table line has six fields, "NA" as the type, and count columns that read
      back as the record's totals with the last the sum of the other two. */
  lemma SampleLineCounts(s: string, rec: SampleRecord)
    requires rec.total == rec.uniq + rec.multi
    ensures var line := SampleLine(s, rec);
      |line| == 6 && line[2] == "NA"
      && ParseInt(line[3]) == Some(rec.uniq) && ParseInt(line[4]) == Some(rec.multi)
      && ParseInt(line[5]) == Some(ParseInt(line[3]).value + ParseInt(line[4]).value)
  {
    ParseIntOfIntToString(rec.uniq);
    ParseIntOfIntToString(rec.multi);
    ParseIntOfIntToString(rec.total);
  }

  /** In a state that accounts for `rows`, every listed sample is listed once and its record
      holds the class of its first row and the sums of its rows' counts. */
  lemma SampleTableTotals(st: LoadState, rows: seq<JunctionRow>, i: int)
    requires Accounts(st, rows)
    requires 0 <= i < |st.order|
    ensures var s := st.order[i];
      s in st.samples && s in SampleNames(rows)
      && (forall j :: 0 <= j < |st.order| && j != i ==> st.order[j] != s)
      && st.samples[s].uniq == UniqueSum(rows, s) && st.samples[s].multi == MultiSum(rows, s)
      && st.samples[s].total == st.samples[s].uniq + st.samples[s].multi
      && st.samples[s].dbClass == FirstRowOf(rows, s).classname
  {
    FirstSeenProperties(SampleNames(rows));
    var s := st.order[i];
    assert SampleAccount(st.samples[s], rows, s);
  }
}
