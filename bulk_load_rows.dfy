/** The twelve-column junction table that both bulk-load preppers ingest
    (sqlite_db_build/intron_sqlite3_bulk_load_prepper.py and intron_sqlite3_bulk_load_prepper.py),
    and the parts of their ingestion that the two scripts share: the feature key
    `chr:start-end`, the de-duplicated feature records, the per-sample sums and the order in
    which the input files' data rows are read. */
module BulkLoadRows {
  import opened Wrappers
  import opened Text

  /** One data row: class, sample, genes, chromosome, start, end, strand, intron motif,
      annotation status, unique and multi mapping counts, maximum spliced-alignment overhang. */
  datatype JunctionRow = JunctionRow(
    classname: string, sample: string, genes: string,
    chrom: string, start: string, end: string, strand: string,
    motif: string, annotStatus: string,
    unique: int, multi: int, overhang: string)

  /** `line.rstrip().split("\t")` unpacked into twelve names, then `int()` of the two counts.
      Any other number of fields fails to unpack (ValueError), as does a non-integer count. */
  function ParseJunctionRow(line: string): (r: Result<JunctionRow>)
    ensures r.Success? ==> |Fields(line)| == 12
  {
    var v := Fields(line);
    if |v| != 12 then Failure("row does not unpack into 12 fields")
    else
      match (ParseInt(v[9]), ParseInt(v[10]))
      case (Some(u), Some(m)) => Success(JunctionRow(v[0], v[1], v[2], v[3], v[4], v[5], v[6], v[7], v[8], u, m, v[11]))
      case _ => Failure("mapping count is not an integer")
  }

  /** The fields of a row as a tab-separated line writes them. */
  function RowFields(r: JunctionRow): seq<string>
  {
    [r.classname, r.sample, r.genes, r.chrom, r.start, r.end, r.strand, r.motif, r.annotStatus,
     IntToString(r.unique), IntToString(r.multi), r.overhang]
  }

  /** A row written as one tab-separated line (text fields without tabs, an overhang that does
      not end in whitespace) is read back as the same row. */
  lemma ParseJunctionRowOfLine(r: JunctionRow)
    requires forall s :: s in [r.classname, r.sample, r.genes, r.chrom, r.start, r.end, r.strand, r.motif, r.annotStatus, r.overhang] ==> '\t' !in s
    requires |r.overhang| > 0 && !IsSpace(r.overhang[|r.overhang| - 1])
    ensures ParseJunctionRow(Join(RowFields(r), "\t") + "\n") == Success(r)
  {
    var fields := RowFields(r);
    IntToStringHasNo(r.unique, '\t');
    IntToStringHasNo(r.multi, '\t');
    assert forall i :: 0 <= i < |fields| ==> '\t' !in fields[i] by {
      forall i | 0 <= i < |fields| ensures '\t' !in fields[i] {
        if i != 9 && i != 10 {
          assert fields[i] in [r.classname, r.sample, r.genes, r.chrom, r.start, r.end, r.strand, r.motif, r.annotStatus, r.overhang];
        }
      }
    }
    FieldsOfJoin(fields);
    ParseIntOfIntToString(r.unique);
    ParseIntOfIntToString(r.multi);
  }

  // ---------------------------------------------------------------------------------------
  // The data rows of the input files

  /** The rows of the lines that parse, in order. */
  function ParsedLines(lines: seq<string>): seq<JunctionRow>
  {
    if |lines| == 0 then []
    else
      var r := ParseJunctionRow(lines[|lines| - 1]);
      ParsedLines(lines[..|lines| - 1]) + (if r.Success? then [r.value] else [])
  }

  lemma AppendOne(rows: seq<JunctionRow>, front: seq<JunctionRow>, r: JunctionRow)
    ensures rows + (front + [r]) == rows + front + [r]
  {
  }

  /** The rows after `rows` once one more line parses. */
  lemma ParsedLinesAppend(rows: seq<JunctionRow>, lines: seq<string>)
    requires |lines| > 0 && ParseJunctionRow(lines[|lines| - 1]).Success?
    ensures rows + ParsedLines(lines)
            == rows + ParsedLines(lines[..|lines| - 1]) + [ParseJunctionRow(lines[|lines| - 1]).value]
  {
    AppendOne(rows, ParsedLines(lines[..|lines| - 1]), ParseJunctionRow(lines[|lines| - 1]).value);
  }

  /** The data rows of all files in order, each file's first line being its header. */
  function DataRows(files: seq<seq<string>>): seq<JunctionRow>
  {
    if |files| == 0 then []
    else
      var last := files[|files| - 1];
      DataRows(files[..|files| - 1]) + (if |last| == 0 then [] else ParsedLines(last[1..]))
  }

  // ---------------------------------------------------------------------------------------
  // Intron features

  /** `"{}:{}-{}".format(Chromosome, Start, End)`, with the coordinates as written in the row. */
  function FeatureKey(r: JunctionRow): string
  {
    r.chrom + ":" + r.start + "-" + r.end
  }

  /** The intron_feature record: key, chromosome, start, end, strand, motif, annotation status,
      genes. */
  function FeatureRecord(r: JunctionRow): seq<string>
  {
    [FeatureKey(r), r.chrom, r.start, r.end, r.strand, r.motif, r.annotStatus, r.genes]
  }

  function Keys(rows: seq<JunctionRow>): (keys: seq<string>)
    ensures |keys| == |rows| && forall i :: 0 <= i < |rows| ==> keys[i] == FeatureKey(rows[i])
  {
    if |rows| == 0 then [] else Keys(rows[..|rows| - 1]) + [FeatureKey(rows[|rows| - 1])]
  }

  /** The feature records written: a row's record is written when its key was not seen
      before. */
  function FeatureRecords(rows: seq<JunctionRow>): (records: seq<seq<string>>)
    ensures forall i :: 0 <= i < |records| ==> |records[i]| == 8
  {
    if |rows| == 0 then []
    else
      var front := rows[..|rows| - 1];
      var last := rows[|rows| - 1];
      if FeatureKey(last) in Keys(front) then FeatureRecords(front)
      else FeatureRecords(front) + [FeatureRecord(last)]
  }

  /** The features set and the feature lines after ingesting `rows`. */
  ghost predicate FeaturesAccount(features: set<string>, featureLines: seq<seq<string>>, rows: seq<JunctionRow>)
  {
    (forall k :: k in features <==> k in Keys(rows)) && featureLines == FeatureRecords(rows)
  }

  lemma FeatureStep(features: set<string>, featureLines: seq<seq<string>>, rows: seq<JunctionRow>, r: JunctionRow)
    requires FeaturesAccount(features, featureLines, rows)
    ensures var k := FeatureKey(r);
      FeaturesAccount(features + {k}, if k in features then featureLines else featureLines + [FeatureRecord(r)], rows + [r])
  {
    var next := rows + [r];
    assert next[..|next| - 1] == rows;
  }

  /** The feature records are keyed by the distinct keys of the rows in first-seen order: each
      key is written exactly once. */
  lemma {:induction false} FeatureRecordsFirstSeen(rows: seq<JunctionRow>)
    ensures |FeatureRecords(rows)| == |FirstSeen(Keys(rows))|
    ensures forall i :: 0 <= i < |FeatureRecords(rows)| ==> FeatureRecords(rows)[i][0] == FirstSeen(Keys(rows))[i]
  {
    if |rows| > 0 {
      var front := rows[..|rows| - 1];
      FeatureRecordsFirstSeen(front);
      FirstSeenProperties(Keys(front));
      assert Keys(rows)[..|rows| - 1] == Keys(front);
    }
  }

  /** Each written feature record is that of the first row with its key. */
  lemma {:induction false} FeatureRecordsFirstOccurrence(rows: seq<JunctionRow>, i: int)
    requires 0 <= i < |FeatureRecords(rows)|
    ensures exists j :: 0 <= j < |rows| && FeatureRecords(rows)[i] == FeatureRecord(rows[j])
                        && forall k :: 0 <= k < j ==> FeatureKey(rows[k]) != FeatureKey(rows[j])
  {
    var front := rows[..|rows| - 1];
    var last := rows[|rows| - 1];
    if i < |FeatureRecords(front)| {
      FeatureRecordsFirstOccurrence(front, i);
      var j :| 0 <= j < |front| && FeatureRecords(front)[i] == FeatureRecord(front[j])
               && forall k :: 0 <= k < j ==> FeatureKey(front[k]) != FeatureKey(front[j]);
      assert rows[j] == front[j];
      assert forall k :: 0 <= k < j ==> rows[k] == front[k];
    } else {
      assert FeatureRecords(rows)[i] == FeatureRecord(last);
      assert FeatureKey(last) !in Keys(front);
      assert forall k :: 0 <= k < |rows| - 1 ==> FeatureKey(rows[k]) == Keys(front)[k];
    }
  }

  // ---------------------------------------------------------------------------------------
  // Samples

  function SampleNames(rows: seq<JunctionRow>): (names: seq<string>)
    ensures |names| == |rows| && forall i :: 0 <= i < |rows| ==> names[i] == rows[i].sample
  {
    if |rows| == 0 then [] else SampleNames(rows[..|rows| - 1]) + [rows[|rows| - 1].sample]
  }

  /** The sum of the unique mapping counts of a sample's rows. */
  function UniqueSum(rows: seq<JunctionRow>, sample: string): int
  {
    if |rows| == 0 then 0
    else
      var last := rows[|rows| - 1];
      UniqueSum(rows[..|rows| - 1], sample) + (if last.sample == sample then last.unique else 0)
  }

  /** The sum of the multi mapping counts of a sample's rows. */
  function MultiSum(rows: seq<JunctionRow>, sample: string): int
  {
    if |rows| == 0 then 0
    else
      var last := rows[|rows| - 1];
      MultiSum(rows[..|rows| - 1], sample) + (if last.sample == sample then last.multi else 0)
  }

  /** The first row of a sample, the one that fixes its record. */
  function FirstRowOf(rows: seq<JunctionRow>, sample: string): JunctionRow
    requires sample in SampleNames(rows)
  {
    var front := rows[..|rows| - 1];
    if sample in SampleNames(front) then FirstRowOf(front, sample) else rows[|rows| - 1]
  }

  /** The first row of a sample has that sample and no earlier row has it. */
  lemma {:induction false} FirstRowOfIsFirst(rows: seq<JunctionRow>, sample: string)
    requires sample in SampleNames(rows)
    ensures exists j :: 0 <= j < |rows| && rows[j] == FirstRowOf(rows, sample) && rows[j].sample == sample
                        && forall k :: 0 <= k < j ==> rows[k].sample != sample
  {
    var front := rows[..|rows| - 1];
    if sample in SampleNames(front) {
      FirstRowOfIsFirst(front, sample);
      var j :| 0 <= j < |front| && front[j] == FirstRowOf(front, sample) && front[j].sample == sample
               && forall k :: 0 <= k < j ==> front[k].sample != sample;
      assert rows[j] == front[j];
      assert forall k :: 0 <= k < j ==> rows[k] == front[k];
    } else {
      assert forall k :: 0 <= k < |rows| - 1 ==> rows[k].sample == SampleNames(front)[k];
    }
  }

  /** A sample without rows has nothing summed. */
  lemma {:induction false} AbsentSums(rows: seq<JunctionRow>, sample: string)
    requires sample !in SampleNames(rows)
    ensures UniqueSum(rows, sample) == 0 && MultiSum(rows, sample) == 0
  {
    if |rows| > 0 {
      var front := rows[..|rows| - 1];
      assert SampleNames(rows)[..|rows| - 1] == SampleNames(front);
      AbsentSums(front, sample);
    }
  }

  lemma SamplesStep(rows: seq<JunctionRow>, r: JunctionRow, sample: string)
    ensures SampleNames(rows + [r]) == SampleNames(rows) + [r.sample]
    ensures UniqueSum(rows + [r], sample) == UniqueSum(rows, sample) + (if r.sample == sample then r.unique else 0)
    ensures MultiSum(rows + [r], sample) == MultiSum(rows, sample) + (if r.sample == sample then r.multi else 0)
    ensures sample in SampleNames(rows) ==> FirstRowOf(rows + [r], sample) == FirstRowOf(rows, sample)
    ensures sample !in SampleNames(rows) && sample == r.sample ==> FirstRowOf(rows + [r], sample) == r
  {
    var next := rows + [r];
    assert next[..|next| - 1] == rows;
  }

  /** The occurrence record's count columns: unique, multi and their sum. */
  function CountColumns(r: JunctionRow): seq<string>
  {
    [IntToString(r.unique), IntToString(r.multi), IntToString(r.unique + r.multi)]
  }

  /** The `all_mappings` column reads back as the sum of the unique and multi columns. */
  lemma AllMappingsIsSum(r: JunctionRow)
    ensures var c := CountColumns(r);
      ParseInt(c[0]) == Some(r.unique) && ParseInt(c[1]) == Some(r.multi)
      && ParseInt(c[2]) == Some(ParseInt(c[0]).value + ParseInt(c[1]).value)
  {
    ParseIntOfIntToString(r.unique);
    ParseIntOfIntToString(r.multi);
    ParseIntOfIntToString(r.unique + r.multi);
  }
}
