/** sqlite_db_build/intron_sqlite3_bulk_load_prepper.py: reads the junction tables into the
    samples, intron_feature and intron_occurrence bulk-load tables. A sample's record (class,
    subtype, tumor/normal flag) is fixed by its first row and its totals grow with every row; an
    intron feature is written at its first sighting; every row gives one occurrence line. */
module SqliteBulkLoad {
  import opened Wrappers
  import opened Text
  import opened BulkLoadRows

  /** The `sample_struct` dict of one sample. */
  datatype SampleRecord = SampleRecord(dbClass: string, sampleType: string, uniq: int, multi: int, total: int, tn: string)

  /** The script's state while it reads its inputs: `samples` and its insertion order, the
      `intron_features` set, and the lines written so far to the feature and occurrence
      files. */
  datatype LoadState = LoadState(
    samples: map<string, SampleRecord>, order: seq<string>,
    features: set<string>, featureLines: seq<seq<string>>, occurrenceLines: seq<seq<string>>)

  const EMPTY: LoadState := LoadState(map[], [], {}, [], [])

  // ---------------------------------------------------------------------------------------
  // `parse_GTEx_sample_types`

  /** The sample-to-tissue map of gtex_sample_info.tsv: the first line is the header (an empty
      file fails), every other line must unpack into exactly two fields, and a later line for
      the same sample replaces an earlier one. */
  function GtexTissues(lines: seq<string>): Result<map<string, string>>
  {
    if |lines| == 0 then Failure("GTEx sample file is empty")
    else TissueEntries(lines[1..])
  }

  const TISSUE_LINE_ERROR: string := "GTEx sample line does not unpack into 2 fields"

  function TissueEntries(lines: seq<string>): (r: Result<map<string, string>>)
    ensures r.Failure? ==> r.error == TISSUE_LINE_ERROR
  {
    if |lines| == 0 then Success(map[])
    else
      match TissueEntries(lines[..|lines| - 1])
      case Failure(e) => Failure(e)
      case Success(m) =>
        var vals := Fields(lines[|lines| - 1]);
        if |vals| != 2 then Failure(TISSUE_LINE_ERROR)
        else Success(m[vals[0] := vals[1]])
  }

  lemma TissueEntriesStep(lines: seq<string>)
    requires |lines| > 0 && TissueEntries(lines).Success?
    ensures TissueEntries(lines[..|lines| - 1]).Success? && |Fields(lines[|lines| - 1])| == 2
    ensures var last := Fields(lines[|lines| - 1]);
      TissueEntries(lines).value == TissueEntries(lines[..|lines| - 1]).value[last[0] := last[1]]
  {
  }

  /** Every line of a successful parse unpacks into two fields. */
  lemma {:induction false} TissueEntriesPairs(lines: seq<string>)
    requires TissueEntries(lines).Success?
    ensures forall i :: 0 <= i < |lines| ==> |Fields(lines[i])| == 2
  {
    if |lines| > 0 {
      var front := lines[..|lines| - 1];
      TissueEntriesStep(lines);
      TissueEntriesPairs(front);
      assert forall i :: 0 <= i < |front| ==> front[i] == lines[i];
    }
  }

  lemma TissueNamedStep(lines: seq<string>, front: seq<string>, sample: string)
    requires |lines| > 0 && front == lines[..|lines| - 1]
    ensures (exists i :: 0 <= i < |lines| && Fields(lines[i])[0] == sample)
            <==> (exists i :: 0 <= i < |front| && Fields(front[i])[0] == sample) || Fields(lines[|lines| - 1])[0] == sample
  {
    assert forall i :: 0 <= i < |front| ==> front[i] == lines[i];
  }

  /** A sample has a tissue exactly when some line names it. */
  lemma {:induction false} TissueEntriesKeys(lines: seq<string>, sample: string)
    requires TissueEntries(lines).Success?
    ensures sample in TissueEntries(lines).value <==> exists i :: 0 <= i < |lines| && Fields(lines[i])[0] == sample
  {
    if |lines| > 0 {
      TissueEntriesStep(lines);
      TissueEntriesKeys(lines[..|lines| - 1], sample);
      TissueNamedStep(lines, lines[..|lines| - 1], sample);
    }
  }

  /** Line i gives `sample` the tissue `t` and no later line names `sample`. */
  ghost predicate TissueLastAt(lines: seq<string>, i: int, sample: string, t: string)
  {
    0 <= i < |lines| && Fields(lines[i]) == [sample, t] && forall j :: i < j < |lines| ==> Fields(lines[j])[0] != sample
  }

  lemma TissueLastAtExtend(lines: seq<string>, i: int, sample: string, t: string)
    requires |lines| > 0 && TissueLastAt(lines[..|lines| - 1], i, sample, t) && Fields(lines[|lines| - 1])[0] != sample
    ensures TissueLastAt(lines, i, sample, t)
  {
    var front := lines[..|lines| - 1];
    assert lines[i] == front[i];
    forall j | i < j < |lines| ensures Fields(lines[j])[0] != sample {
      if j < |front| {
        assert lines[j] == front[j];
      }
    }
  }

  /** The tissue of a sample is the one on the last line naming it. */
  lemma {:induction false} TissueEntriesLastWins(lines: seq<string>, sample: string)
    requires TissueEntries(lines).Success? && sample in TissueEntries(lines).value
    ensures exists i :: TissueLastAt(lines, i, sample, TissueEntries(lines).value[sample])
  {
    if |lines| > 0 {
      var front := lines[..|lines| - 1];
      var last := Fields(lines[|lines| - 1]);
      TissueEntriesStep(lines);
      var t := TissueEntries(lines).value[sample];
      if last[0] == sample {
        assert TissueLastAt(lines, |lines| - 1, sample, t);
      } else {
        TissueEntriesLastWins(front, sample);
        var i :| TissueLastAt(front, i, sample, t);
        TissueLastAtExtend(lines, i, sample, t);
      }
    }
  }

  /** A line that does not unpack into two fields fails the whole parse. */
  lemma {:induction false} TissueEntriesFailure(lines: seq<string>, n: nat)
    requires n < |lines| && |Fields(lines[n])| != 2
    ensures TissueEntries(lines) == Failure(TISSUE_LINE_ERROR)
  {
    if n < |lines| - 1 {
      TissueEntriesFailure(lines[..|lines| - 1], n);
    }
  }

  method ParseGtexSampleTypes(lines: seq<string>) returns (r: Result<map<string, string>>)
    ensures r == GtexTissues(lines)
  {
    if |lines| == 0 {
      return Failure("GTEx sample file is empty");
    }
    var body := lines[1..];
    var m: map<string, string> := map[];
    var n := 0;
    while n < |body|
      invariant 0 <= n <= |body|
      invariant TissueEntries(body[..n]) == Success(m)
    {
      assert body[..n + 1][..n] == body[..n];
      var vals := Fields(body[n]);
      if |vals| != 2 {
        TissueEntriesFailure(body, n);
        return Failure(TISSUE_LINE_ERROR);
      }
      m := m[vals[0] := vals[1]];
      n := n + 1;
    }
    assert body[..|body|] == body;
    return Success(m);
  }

  // ---------------------------------------------------------------------------------------
  // Sample classification

  /** The sample type and tumor/normal flag of a new sample: TCGA samples are tumors unless the
      name ends in "-NT" and their type is the name up to the first '-'; GTEx samples are
      normals whose type is their tissue (a sample missing from the map fails the assertion);
      any other class raises RuntimeError. */
  function Describe(row: JunctionRow, tissue: map<string, string>): Result<(string, string)>
  {
    if row.classname == "TCGA" then
      Success((Split(row.sample, '-')[0], if PySlice(row.sample, -3, |row.sample|) == "-NT" then "N" else "T"))
    else if row.classname == "GTEx" then
      if row.sample in tissue then Success((tissue[row.sample], "N"))
      else Failure("GTEx sample has no tissue type")
    else Failure("not recognizing class type")
  }

  /** A TCGA sample is normal exactly when its name ends in "-NT", and its type is the text
      before the first '-' of its name. */
  lemma TcgaSample(row: JunctionRow, tissue: map<string, string>)
    requires row.classname == "TCGA"
    ensures Describe(row, tissue).Success?
    ensures var (sampleType, tn) := Describe(row, tissue).value;
      (tn == "N" <==> EndsWith(row.sample, "-NT")) && (tn == "T" <==> !EndsWith(row.sample, "-NT"))
      && StartsWith(row.sample, sampleType) && '-' !in sampleType
      && (|sampleType| < |row.sample| ==> row.sample[|sampleType|] == '-')
  {
    SplitFirst(row.sample, '-');
    EndsWithSlice(row.sample, "-NT");
  }

  /** A GTEx sample is normal with its tissue as type, and needs to be in the tissue map; no
      other class is accepted. */
  lemma OtherSamples(row: JunctionRow, tissue: map<string, string>)
    requires row.classname != "TCGA"
    ensures Describe(row, tissue).Success? <==> row.classname == "GTEx" && row.sample in tissue
    ensures Describe(row, tissue).Success? ==> Describe(row, tissue).value == (tissue[row.sample], "N")
  {
  }

  // ---------------------------------------------------------------------------------------
  // Ingestion

  /** The occurrence line of a row: key, sample, unique, multi, all, overhang. */
  function OccurrenceLine(r: JunctionRow): seq<string>
  {
    [FeatureKey(r), r.sample] + CountColumns(r) + [r.overhang]
  }

  /** The record a row adds to: the sample's own, or a new one with zero totals built from
      this first row. */
  function SampleEntry(samples: map<string, SampleRecord>, r: JunctionRow, tissue: map<string, string>): Result<SampleRecord>
  {
    if r.sample in samples then Success(samples[r.sample])
    else
      match Describe(r, tissue)
      case Failure(e) => Failure(e)
      case Success((sampleType, tn)) => Success(SampleRecord(r.classname, sampleType, 0, 0, 0, tn))
  }

  /** The `+=` updates of the three totals. */
  function Bump(rec: SampleRecord, r: JunctionRow): SampleRecord
  {
    rec.(uniq := rec.uniq + r.unique, multi := rec.multi + r.multi, total := rec.total + r.unique + r.multi)
  }

  /** Ingesting one parsed row. */
  function RowStep(st: LoadState, r: JunctionRow, tissue: map<string, string>): Result<LoadState>
  {
    match SampleEntry(st.samples, r, tissue)
    case Failure(e) => Failure(e)
    case Success(rec) =>
      var key := FeatureKey(r);
      Success(LoadState(
        st.samples[r.sample := Bump(rec, r)],
        if r.sample in st.samples then st.order else st.order + [r.sample],
        st.features + {key},
        if key in st.features then st.featureLines else st.featureLines + [FeatureRecord(r)],
        st.occurrenceLines + [OccurrenceLine(r)]))
  }

  /** The data lines of one file, from state `st`. */
  function IngestLines(st: LoadState, lines: seq<string>, tissue: map<string, string>): Result<LoadState>
  {
    if |lines| == 0 then Success(st)
    else
      match IngestLines(st, lines[..|lines| - 1], tissue)
      case Failure(e) => Failure(e)
      case Success(s) =>
        match ParseJunctionRow(lines[|lines| - 1])
        case Failure(e) => Failure(e)
        case Success(r) => RowStep(s, r, tissue)
  }

  /** The whole ingest loop: each file's first line is its header (`next(fh)` fails on an empty
      file) and its other lines are data rows. */
  function LoadFiles(files: seq<seq<string>>, tissue: map<string, string>): Result<LoadState>
  {
    if |files| == 0 then Success(EMPTY)
    else
      match LoadFiles(files[..|files| - 1], tissue)
      case Failure(e) => Failure(e)
      case Success(st) =>
        var last := files[|files| - 1];
        if |last| == 0 then Failure("input file has no header line")
        else IngestLines(st, last[1..], tissue)
  }

  /** What the state holds after ingesting `rows`: one record per sample, in first-seen order,
      with the totals of all its rows (total = unique + multi) and the class, type and flag of
      its first row; each feature key once; one occurrence line per row. */
  ghost predicate Accounts(st: LoadState, rows: seq<JunctionRow>, tissue: map<string, string>)
  {
    && SamplesAccount(st.samples, st.order, rows, tissue)
    && FeaturesAccount(st.features, st.featureLines, rows)
    && st.occurrenceLines == Occurrences(rows)
  }

  ghost predicate SamplesAccount(samples: map<string, SampleRecord>, order: seq<string>, rows: seq<JunctionRow>, tissue: map<string, string>)
  {
    && (forall s :: s in samples <==> s in SampleNames(rows))
    && order == FirstSeen(SampleNames(rows))
    && (forall s :: s in samples ==> SampleAccount(samples[s], rows, s, tissue))
  }

  ghost predicate SampleAccount(rec: SampleRecord, rows: seq<JunctionRow>, s: string, tissue: map<string, string>)
    requires s in SampleNames(rows)
  {
    && rec.uniq == UniqueSum(rows, s) && rec.multi == MultiSum(rows, s) && rec.total == rec.uniq + rec.multi
    && rec.dbClass == FirstRowOf(rows, s).classname
    && Describe(FirstRowOf(rows, s), tissue) == Success((rec.sampleType, rec.tn))
  }

  function Occurrences(rows: seq<JunctionRow>): (lines: seq<seq<string>>)
    ensures |lines| == |rows| && forall i :: 0 <= i < |rows| ==> lines[i] == OccurrenceLine(rows[i])
  {
    if |rows| == 0 then [] else Occurrences(rows[..|rows| - 1]) + [OccurrenceLine(rows[|rows| - 1])]
  }

  lemma SampleAccountStep(samples: map<string, SampleRecord>, order: seq<string>, rows: seq<JunctionRow>,
                          r: JunctionRow, tissue: map<string, string>, s: string)
    requires SamplesAccount(samples, order, rows, tissue) && SampleEntry(samples, r, tissue).Success?
    requires s in samples || s == r.sample
    ensures s in SampleNames(rows + [r])
    ensures SampleAccount(samples[r.sample := Bump(SampleEntry(samples, r, tissue).value, r)][s], rows + [r], s, tissue)
  {
    SamplesStep(rows, r, s);
    if s !in samples {
      AbsentSums(rows, s);
    }
  }

  lemma SamplesAccountStep(samples: map<string, SampleRecord>, order: seq<string>, rows: seq<JunctionRow>,
                           r: JunctionRow, tissue: map<string, string>)
    requires SamplesAccount(samples, order, rows, tissue) && SampleEntry(samples, r, tissue).Success?
    ensures SamplesAccount(samples[r.sample := Bump(SampleEntry(samples, r, tissue).value, r)],
                           if r.sample in samples then order else order + [r.sample], rows + [r], tissue)
  {
    var samples' := samples[r.sample := Bump(SampleEntry(samples, r, tissue).value, r)];
    SamplesStep(rows, r, r.sample);
    forall s | s in samples'
      ensures SampleAccount(samples'[s], rows + [r], s, tissue)
    {
      SampleAccountStep(samples, order, rows, r, tissue, s);
    }
    var next := rows + [r];
    assert SampleNames(next)[..|next| - 1] == SampleNames(rows);
    FirstSeenProperties(SampleNames(rows));
    assert forall s :: s in samples' <==> s in SampleNames(next);
  }

  lemma RowStepAccounts(st: LoadState, rows: seq<JunctionRow>, r: JunctionRow, tissue: map<string, string>)
    requires Accounts(st, rows, tissue) && RowStep(st, r, tissue).Success?
    ensures Accounts(RowStep(st, r, tissue).value, rows + [r], tissue)
  {
    SamplesAccountStep(st.samples, st.order, rows, r, tissue);
    FeatureStep(st.features, st.featureLines, rows, r);
    var next := rows + [r];
    assert next[..|next| - 1] == rows;
  }

  lemma IngestLinesStep(st: LoadState, lines: seq<string>, tissue: map<string, string>)
    requires |lines| > 0 && IngestLines(st, lines, tissue).Success?
    ensures IngestLines(st, lines[..|lines| - 1], tissue).Success?
    ensures ParseJunctionRow(lines[|lines| - 1]).Success?
    ensures IngestLines(st, lines, tissue)
            == RowStep(IngestLines(st, lines[..|lines| - 1], tissue).value, ParseJunctionRow(lines[|lines| - 1]).value, tissue)
  {
  }

  lemma {:induction false} IngestLinesAccounts(st: LoadState, rows: seq<JunctionRow>, lines: seq<string>, tissue: map<string, string>)
    requires Accounts(st, rows, tissue) && IngestLines(st, lines, tissue).Success?
    ensures Accounts(IngestLines(st, lines, tissue).value, rows + ParsedLines(lines), tissue)
  {
    if |lines| > 0 {
      var front := lines[..|lines| - 1];
      IngestLinesStep(st, lines, tissue);
      IngestLinesAccounts(st, rows, front, tissue);
      var mid := IngestLines(st, front, tissue).value;
      var r := ParseJunctionRow(lines[|lines| - 1]).value;
      RowStepAccounts(mid, rows + ParsedLines(front), r, tissue);
      ParsedLinesAppend(rows, lines);
    } else {
      assert rows + ParsedLines(lines) == rows;
    }
  }

  /** After a successful run, the tables account for exactly the data rows of all files. */
  lemma {:induction false} LoadFilesAccounts(files: seq<seq<string>>, tissue: map<string, string>)
    requires LoadFiles(files, tissue).Success?
    ensures Accounts(LoadFiles(files, tissue).value, DataRows(files), tissue)
  {
    if |files| > 0 {
      var front := files[..|files| - 1];
      var last := files[|files| - 1];
      LoadFilesAccounts(front, tissue);
      assert LoadFiles(files, tissue) == IngestLines(LoadFiles(front, tissue).value, last[1..], tissue);
      IngestLinesAccounts(LoadFiles(front, tissue).value, DataRows(front), last[1..], tissue);
    }
  }

  /** Rows of a sample already seen never fail, and change only its totals. */
  lemma LaterRowsOnlyAdd(st: LoadState, r: JunctionRow, tissue: map<string, string>)
    requires r.sample in st.samples
    ensures RowStep(st, r, tissue).Success?
    ensures var rec := RowStep(st, r, tissue).value.samples[r.sample];
      var old_ := st.samples[r.sample];
      rec.dbClass == old_.dbClass && rec.sampleType == old_.sampleType && rec.tn == old_.tn
      && rec.uniq == old_.uniq + r.unique && rec.multi == old_.multi + r.multi
  {
  }

  lemma {:induction false} IngestPrefixFailure(st: LoadState, lines: seq<string>, n: nat, tissue: map<string, string>)
    requires n <= |lines| && IngestLines(st, lines[..n], tissue).Failure?
    ensures IngestLines(st, lines, tissue) == IngestLines(st, lines[..n], tissue)
    decreases |lines| - n
  {
    if n < |lines| {
      assert lines[..n + 1][..n] == lines[..n];
      IngestPrefixFailure(st, lines, n + 1, tissue);
    } else {
      assert lines[..n] == lines;
    }
  }

  lemma {:induction false} LoadPrefixFailure(files: seq<seq<string>>, n: nat, tissue: map<string, string>)
    requires n <= |files| && LoadFiles(files[..n], tissue).Failure?
    ensures LoadFiles(files, tissue) == LoadFiles(files[..n], tissue)
    decreases |files| - n
  {
    if n < |files| {
      assert files[..n + 1][..n] == files[..n];
      LoadPrefixFailure(files, n + 1, tissue);
    } else {
      assert files[..n] == files;
    }
  }

  /** An input file without even a header line fails the run. */
  lemma EmptyFileFails(files: seq<seq<string>>, f: int, tissue: map<string, string>)
    requires 0 <= f < |files| && |files[f]| == 0
    ensures LoadFiles(files, tissue).Failure?
  {
    assert files[..f + 1][..f] == files[..f];
    LoadPrefixFailure(files, f + 1, tissue);
  }

  /** A data row that does not parse fails the run. */
  lemma BadRowFails(files: seq<seq<string>>, f: int, n: int, tissue: map<string, string>)
    requires 0 <= f < |files| && 1 <= n < |files[f]| && ParseJunctionRow(files[f][n]).Failure?
    ensures LoadFiles(files, tissue).Failure?
  {
    var prefix := files[..f + 1];
    assert prefix[..f] == files[..f];
    if LoadFiles(files[..f], tissue).Success? {
      var body := files[f][1..];
      assert body[..n][..n - 1] == body[..n - 1];
      IngestPrefixFailure(LoadFiles(files[..f], tissue).value, body, n, tissue);
    }
    LoadPrefixFailure(files, f + 1, tissue);
  }

  /** One data row: the sample's record (created from the row when new), its totals, the
      feature line when the key is new, and the occurrence line. */
  method AddRow(samples: map<string, SampleRecord>, order: seq<string>, features: set<string>,
                featureLines: seq<seq<string>>, occurrenceLines: seq<seq<string>>,
                r: JunctionRow, tissue: map<string, string>) returns (res: Result<LoadState>)
    ensures res == RowStep(LoadState(samples, order, features, featureLines, occurrenceLines), r, tissue)
  {
    var samples', order' := samples, order;
    if r.sample !in samples {
      var tn := "N";
      var sampleType: string;
      if r.classname == "TCGA" {
        tn := "T";
        if PySlice(r.sample, -3, |r.sample|) == "-NT" {
          tn := "N";
        }
        sampleType := Split(r.sample, '-')[0];
      } else if r.classname == "GTEx" {
        if r.sample !in tissue {
          assert SampleEntry(samples, r, tissue) == Failure("GTEx sample has no tissue type");
          return Failure("GTEx sample has no tissue type");
        }
        sampleType := tissue[r.sample];
      } else {
        assert SampleEntry(samples, r, tissue) == Failure("not recognizing class type");
        return Failure("not recognizing class type");
      }
      assert Describe(r, tissue) == Success((sampleType, tn));
      samples' := samples'[r.sample := SampleRecord(r.classname, sampleType, 0, 0, 0, tn)];
      order' := order' + [r.sample];
    }
    assert SampleEntry(samples, r, tissue) == Success(samples'[r.sample]);
    var rec := samples'[r.sample];
    rec := rec.(uniq := rec.uniq + r.unique);
    rec := rec.(multi := rec.multi + r.multi);
    rec := rec.(total := rec.total + r.unique + r.multi);
    samples' := samples'[r.sample := rec];
    var key := FeatureKey(r);
    var featureLines' := featureLines;
    if key !in features {
      featureLines' := featureLines' + [FeatureRecord(r)];
    }
    assert rec == Bump(SampleEntry(samples, r, tissue).value, r);
    var occurrence := [key, r.sample, IntToString(r.unique), IntToString(r.multi), IntToString(r.unique + r.multi), r.overhang];
    assert occurrence == OccurrenceLine(r);
    res := Success(LoadState(samples', order', features + {key}, featureLines', occurrenceLines + [occurrence]));
    ghost var st := LoadState(samples, order, features, featureLines, occurrenceLines);
    assert samples' == st.samples[r.sample := Bump(SampleEntry(samples, r, tissue).value, r)];
    assert order' == if r.sample in st.samples then st.order else st.order + [r.sample];
    assert res == RowStep(st, r, tissue);
  }

  lemma IngestNext(start: LoadState, body: seq<string>, n: nat, st: LoadState, r: JunctionRow, tissue: map<string, string>)
    requires n < |body| && IngestLines(start, body[..n], tissue) == Success(st) && ParseJunctionRow(body[n]) == Success(r)
    ensures IngestLines(start, body[..n + 1], tissue) == RowStep(st, r, tissue)
  {
    assert body[..n + 1][..n] == body[..n];
  }

  lemma IngestBadRow(start: LoadState, body: seq<string>, n: nat, st: LoadState, tissue: map<string, string>)
    requires n < |body| && IngestLines(start, body[..n], tissue) == Success(st) && ParseJunctionRow(body[n]).Failure?
    ensures IngestLines(start, body, tissue) == Failure(ParseJunctionRow(body[n]).error)
  {
    assert body[..n + 1][..n] == body[..n];
    IngestPrefixFailure(start, body, n + 1, tissue);
  }

  lemma LoadNext(files: seq<seq<string>>, f: nat, st: LoadState, tissue: map<string, string>)
    requires f < |files| && LoadFiles(files[..f], tissue) == Success(st) && |files[f]| > 0
    ensures LoadFiles(files[..f + 1], tissue) == IngestLines(st, files[f][1..], tissue)
  {
    assert files[..f + 1][..f] == files[..f];
  }

  lemma LoadStops(files: seq<seq<string>>, f: nat, st: LoadState, e: string, tissue: map<string, string>)
    requires f < |files| && LoadFiles(files[..f], tissue) == Success(st)
    requires if |files[f]| == 0 then e == "input file has no header line" else IngestLines(st, files[f][1..], tissue) == Failure(e)
    ensures LoadFiles(files, tissue) == Failure(e)
  {
    assert files[..f + 1][..f] == files[..f];
    LoadPrefixFailure(files, f + 1, tissue);
  }

  /** The ingest loop of `main` over all input files. */
  method BulkLoadPrepper(files: seq<seq<string>>, tissue: map<string, string>) returns (res: Result<LoadState>)
    ensures res == LoadFiles(files, tissue)
  {
    var st := EMPTY;
    var f := 0;
    while f < |files|
      invariant 0 <= f <= |files|
      invariant LoadFiles(files[..f], tissue) == Success(st)
    {
      var file := files[f];
      if |file| == 0 {
        LoadStops(files, f, st, "input file has no header line", tissue);
        return Failure("input file has no header line");
      }
      var body := file[1..];
      ghost var start := st;
      var n := 0;
      while n < |body|
        invariant 0 <= n <= |body|
        invariant IngestLines(start, body[..n], tissue) == Success(st)
      {
        var row := ParseJunctionRow(body[n]);
        if row.Failure? {
          IngestBadRow(start, body, n, st, tissue);
          LoadStops(files, f, start, row.error, tissue);
          return Failure(row.error);
        }
        IngestNext(start, body, n, st, row.value, tissue);
        var next := AddRow(st.samples, st.order, st.features, st.featureLines, st.occurrenceLines, row.value, tissue);
        if next.Failure? {
          IngestPrefixFailure(start, body, n + 1, tissue);
          LoadStops(files, f, start, next.error, tissue);
          return next;
        }
        st := next.value;
        n := n + 1;
      }
      assert body[..|body|] == body;
      LoadNext(files, f, start, tissue);
      f := f + 1;
    }
    assert files[..|files|] == files;
    return Success(st);
  }

  // ---------------------------------------------------------------------------------------
  // The samples table

  /** One samples-table line: name, class, type, unique, multi and all totals, flag. */
  function SampleLine(s: string, rec: SampleRecord): seq<string>
  {
    [s, rec.dbClass, rec.sampleType, IntToString(rec.uniq), IntToString(rec.multi), IntToString(rec.total), rec.tn]
  }

  /** The samples table, written in the order the samples were first seen. */
  method WriteSamples(st: LoadState) returns (lines: seq<seq<string>>)
    requires forall i :: 0 <= i < |st.order| ==> st.order[i] in st.samples
    ensures |lines| == |st.order|
    ensures forall i :: 0 <= i < |lines| ==> lines[i] == SampleLine(st.order[i], st.samples[st.order[i]])
  {
    lines := [];
    var i := 0;
    while i < |st.order|
      invariant 0 <= i <= |st.order| && |lines| == i
      invariant forall j :: 0 <= j < i ==> lines[j] == SampleLine(st.order[j], st.samples[st.order[j]])
    {
      var s := st.order[i];
      lines := lines + [SampleLine(s, st.samples[s])];
      i := i + 1;
    }
  }

  /** The count columns of a samples-table line read back as the record's totals, the last
      being the sum of the other two when the record keeps total = unique + multi. */
  lemma SampleLineCounts(s: string, rec: SampleRecord)
    requires rec.total == rec.uniq + rec.multi
    ensures var line := SampleLine(s, rec);
      ParseInt(line[3]) == Some(rec.uniq) && ParseInt(line[4]) == Some(rec.multi)
      && ParseInt(line[5]) == Some(ParseInt(line[3]).value + ParseInt(line[4]).value)
  {
    ParseIntOfIntToString(rec.uniq);
    ParseIntOfIntToString(rec.multi);
    ParseIntOfIntToString(rec.total);
  }

  /** In a state that accounts for `rows` (as every successful run's does, by
      LoadFilesAccounts), every listed sample is listed once and its record holds the sums of
      its rows' counts. */
  lemma SampleTableTotals(st: LoadState, rows: seq<JunctionRow>, tissue: map<string, string>, i: int)
    requires Accounts(st, rows, tissue)
    requires 0 <= i < |st.order|
    ensures var s := st.order[i];
      s in st.samples && s in SampleNames(rows)
      && (forall j :: 0 <= j < |st.order| && j != i ==> st.order[j] != s)
      && st.samples[s].uniq == UniqueSum(rows, s) && st.samples[s].multi == MultiSum(rows, s)
      && st.samples[s].total == st.samples[s].uniq + st.samples[s].multi
  {
    FirstSeenProperties(SampleNames(rows));
    var s := st.order[i];
    assert SampleAccount(st.samples[s], rows, s, tissue);
  }
}
