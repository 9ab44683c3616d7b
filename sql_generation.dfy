/** generate_norm_count_updates_and_sample_count_add_queries.py: each line of the usage
    statistics becomes one SQL statement. A counter line becomes an insert into the sample
    type counts table, a norm line an update of the normalized columns of the occurrence table,
    and any other line nothing. */
module SqlGeneration {
  import opened Wrappers
  import opened Text
  import opened Census
  import opened UsageStats
  import opened Seqs

  /** Tuple unpacking of the wrong number of fields raises ValueError. */
  const UNPACK_ERROR: string := "wrong number of values to unpack"

  /** A stats line as `generate_sql` destructures it. */
  datatype StatsLine =
    | CounterStats(dbClass: string, tissue: string, counts: seq<string>)
    | NormStats(intron: string, sample: string, norms: seq<string>)

  /** The dispatch and destructuring of `generate_sql`: a counter line must have 8 fields and
      a group of exactly two '^'-separated parts, a norm line 6 fields; other tags are
      ignored. */
  function ParseStatsLine(vals: seq<string>): (r: Result<Option<StatsLine>>)
    ensures r.Success? && r.value.Some? && r.value.value.CounterStats? ==> |r.value.value.counts| == 6
    ensures r.Success? && r.value.Some? && r.value.value.NormStats? ==> |r.value.value.norms| == 3
  {
    if |vals| > 0 && vals[0] == COUNTER_TAG then
      if |vals| != 8 then Failure(UNPACK_ERROR)
      else
        var parts := Split(vals[1], '^');
        if |parts| != 2 then Failure(UNPACK_ERROR)
        else Success(Some(CounterStats(parts[0], parts[1], vals[2..])))
    else if |vals| > 0 && vals[0] == NORM_TAG then
      if |vals| != 6 then Failure(UNPACK_ERROR)
      else Success(Some(NormStats(vals[1], vals[2], vals[3..])))
    else Success(None)
  }

  /** Which lines are statements, and which fail: exactly the two tags produce statements, and
      they fail exactly on the wrong number of fields or a group that is not `class^type`. */
  lemma ParseStatsLineCharacterized(vals: seq<string>)
    ensures ParseStatsLine(vals).Success? && ParseStatsLine(vals).value.Some? <==>
      |vals| > 0 && ((vals[0] == COUNTER_TAG && |vals| == 8 && |Split(vals[1], '^')| == 2)
                     || (vals[0] == NORM_TAG && |vals| == 6))
    ensures ParseStatsLine(vals).Failure? <==>
      |vals| > 0 && ((vals[0] == COUNTER_TAG && (|vals| != 8 || |Split(vals[1], '^')| != 2))
                     || (vals[0] == NORM_TAG && |vals| != 6))
    ensures ParseStatsLine(vals).Success? && ParseStatsLine(vals).value.Some? ==>
      match ParseStatsLine(vals).value.value
      case CounterStats(c, t, counts) => Group(c, t) == vals[1] && counts == vals[2..]
      case NormStats(i, s, norms) => i == vals[1] && s == vals[2] && norms == vals[3..]
  {
    if |vals| > 0 && vals[0] == COUNTER_TAG && |vals| == 8 && |Split(vals[1], '^')| == 2 {
      JoinOfSplit(vals[1], '^');
    }
  }

  function Quoted(s: string): string { "\"" + s + "\"" }

  // ---------------------------------------------------------------------------------------
  // The tables

  /** The columns of intron_sample_type_counts. */
  const COUNTS_TABLE_COLUMNS: seq<string> :=
    ["intron", "db_class", "sample_type", "uniq_count", "uniq_pct", "multi_count", "multi_pct", "all_count", "all_pct"]

  /** The columns of intron_occurrence. */
  const OCCURRENCE_COLUMNS: seq<string> :=
    ["intron", "sample", "unique_mappings", "multi_mappings", "all_mappings", "max_spliced_align_overhang",
     "norm_unique_mappings", "norm_multi_mappings", "norm_all_mappings"]

  /** What fields 2 to 7 of a counter line hold, in the order they are unpacked. */
  const COUNTER_FIELDS: seq<string> := ["uniq_count", "uniq_pct", "multi_count", "multi_pct", "all_count", "all_pct"]

  // ---------------------------------------------------------------------------------------
  // The insert, as written and as intended

  /** The columns the insert names as written. */
  const INSERT_COLUMNS_AS_WRITTEN: seq<string> := ["db_class", "sample_type", "uniq_count", "uniq_pct", "all_count", "all_pct"]

  /** The values as written: the format string has seven slots, and `str.format` drops its
      eighth argument, all_pct. */
  function InsertValuesAsWritten(dbClass: string, tissue: string, counts: seq<string>): seq<string>
    requires |counts| == 6
  {
    [Quoted(dbClass), Quoted(tissue)] + counts[..5]
  }

  function InsertAsWritten(dbClass: string, tissue: string, counts: seq<string>): string
    requires |counts| == 6
  {
    "insert intron_sample_type_counts (db_class, sample_type,  uniq_count, uniq_pct, all_count, all_pct)  values ("
    + Join(InsertValuesAsWritten(dbClass, tissue, counts), ", ") + " )"
  }

  /** The insert as written names six columns but supplies seven values: the multi count
      stands under all_count, the multi fraction under all_pct, the all count is a seventh
      value without a column, and the all_pct field is supplied nowhere. */
  lemma InsertAsWrittenMismatch(dbClass: string, tissue: string, counts: seq<string>)
    requires |counts| == 6
    ensures var values := InsertValuesAsWritten(dbClass, tissue, counts);
      |INSERT_COLUMNS_AS_WRITTEN| == 6 && |values| == 7
      && INSERT_COLUMNS_AS_WRITTEN[4] == "all_count" && values[4] == counts[2] && COUNTER_FIELDS[2] == "multi_count"
      && INSERT_COLUMNS_AS_WRITTEN[5] == "all_pct" && values[5] == counts[3] && COUNTER_FIELDS[3] == "multi_pct"
      && values[6] == counts[4] && COUNTER_FIELDS[4] == "all_count"
      && values[2..] == counts[..5]
  {
  }

  /** The columns the insert should name: one per field of the counter line. */
  const INSERT_COLUMNS: seq<string> := ["db_class", "sample_type"] + COUNTER_FIELDS

  function InsertValues(dbClass: string, tissue: string, counts: seq<string>): seq<string>
    requires |counts| == 6
  {
    [Quoted(dbClass), Quoted(tissue)] + counts
  }

  /** The corrected insert: eight columns, eight values, each field under its own column. */
  function Insert(dbClass: string, tissue: string, counts: seq<string>): (sql: string)
    requires |counts| == 6
  {
    "insert into intron_sample_type_counts (" + Join(INSERT_COLUMNS, ", ") + ") values ("
    + Join(InsertValues(dbClass, tissue, counts), ", ") + ")"
  }

  /** The corrected insert pairs every column of the table it names with the field of that
      name, and names only columns of the table. */
  lemma InsertColumnsMatch(dbClass: string, tissue: string, counts: seq<string>)
    requires |counts| == 6
    ensures var values := InsertValues(dbClass, tissue, counts);
      |INSERT_COLUMNS| == |values|
      && (forall k :: 0 <= k < 6 ==> INSERT_COLUMNS[2 + k] == COUNTER_FIELDS[k] && values[2 + k] == counts[k])
      && (forall c :: c in INSERT_COLUMNS ==> c in COUNTS_TABLE_COLUMNS)
  {
  }

  // ---------------------------------------------------------------------------------------
  // The update, as written and as intended

  /** The update text with the column the sample is matched against. */
  function UpdateOn(sampleColumn: string, intron: string, sample: string, norms: seq<string>): string
    requires |norms| == 3
  {
    "update intron_occurrence  set norm_unique_mappings = " + norms[0]
    + ",      norm_multi_mappings = " + norms[1]
    + ",      norm_all_mappings = " + norms[2]
    + "  where intron = " + Quoted(intron)
    + "        and " + sampleColumn + " = " + Quoted(sample) + " "
  }

  /** The column the update matches the sample against as written. */
  const SAMPLE_COLUMN_AS_WRITTEN: string := "sample_type"

  /** The column that holds the sample in intron_occurrence. */
  const SAMPLE_COLUMN: string := "sample"

  function UpdateAsWritten(intron: string, sample: string, norms: seq<string>): string
    requires |norms| == 3
  {
    UpdateOn(SAMPLE_COLUMN_AS_WRITTEN, intron, sample, norms)
  }

  /** As written, the update filters on a column that intron_occurrence does not have. */
  lemma UpdateAsWrittenUnknownColumn()
    ensures SAMPLE_COLUMN_AS_WRITTEN !in OCCURRENCE_COLUMNS
  {
  }

  function Update(intron: string, sample: string, norms: seq<string>): string
    requires |norms| == 3
  {
    UpdateOn(SAMPLE_COLUMN, intron, sample, norms)
  }

  /** The corrected update sets and filters only columns of intron_occurrence, matching the
      sample field against the sample column. */
  lemma UpdateColumnsExist()
    ensures SAMPLE_COLUMN in OCCURRENCE_COLUMNS && "intron" in OCCURRENCE_COLUMNS
    ensures forall c :: c in ["norm_unique_mappings", "norm_multi_mappings", "norm_all_mappings"] ==> c in OCCURRENCE_COLUMNS
  {
  }

  // ---------------------------------------------------------------------------------------
  // Statements per line and per file

  function StatementAsWritten(line: StatsLine): string
    requires line.CounterStats? ==> |line.counts| == 6
    requires line.NormStats? ==> |line.norms| == 3
  {
    match line
    case CounterStats(c, t, counts) => InsertAsWritten(c, t, counts)
    case NormStats(i, s, norms) => UpdateAsWritten(i, s, norms)
  }

  function Statement(line: StatsLine): string
    requires line.CounterStats? ==> |line.counts| == 6
    requires line.NormStats? ==> |line.norms| == 3
  {
    match line
    case CounterStats(c, t, counts) => Insert(c, t, counts)
    case NormStats(i, s, norms) => Update(i, s, norms)
  }

  /** Which statements a run prints: the script's own, or the corrected ones. */
  datatype Version = AsWritten | Corrected

  function StatementIn(v: Version, line: StatsLine): string
    requires line.CounterStats? ==> |line.counts| == 6
    requires line.NormStats? ==> |line.norms| == 3
  {
    match v
    case AsWritten => StatementAsWritten(line)
    case Corrected => Statement(line)
  }

  /** `generate_sql` on the fields of one line: the statement it prints, if any. */
  function GenerateSql(v: Version, vals: seq<string>): Result<Option<string>>
  {
    match ParseStatsLine(vals)
    case Failure(e) => Failure(e)
    case Success(None) => Success(None)
    case Success(Some(line)) => Success(Some(StatementIn(v, line)))
  }

  /** A line of the stats file that `generate_sql` turns into a statement. */
  predicate YieldsStatement(line: string)
  {
    ParseStatsLine(Fields(line)).Success? && ParseStatsLine(Fields(line)).value.Some?
  }

  /** The statement a line yields. */
  function StatementOfLine(v: Version, line: string): string
    requires YieldsStatement(line)
  {
    StatementIn(v, ParseStatsLine(Fields(line)).value.value)
  }

  /** The positions of the lines that yield statements, in increasing order. */
  function StatementLines(lines: seq<string>): (ix: seq<nat>)
    ensures forall k :: 0 <= k < |ix| ==> ix[k] < |lines| && YieldsStatement(lines[ix[k]])
    ensures forall i :: 0 <= i < |lines| && YieldsStatement(lines[i]) ==> i in ix
    ensures forall k, l :: 0 <= k < l < |ix| ==> ix[k] < ix[l]
  {
    Positions(lines, YieldsStatement)
  }

  function Positions(lines: seq<string>, keep: string -> bool): (ix: seq<nat>)
    ensures forall k :: 0 <= k < |ix| ==> ix[k] < |lines| && keep(lines[ix[k]])
    ensures forall i :: 0 <= i < |lines| && keep(lines[i]) ==> i in ix
    ensures forall k, l :: 0 <= k < l < |ix| ==> ix[k] < ix[l]
  {
    if |lines| == 0 then []
    else
      var n := |lines| - 1;
      var front := Positions(lines[..n], keep);
      assert forall i :: 0 <= i < n ==> lines[..n][i] == lines[i];
      front + (if keep(lines[n]) then [n] else [])
  }

  /** `main`'s loop: the statements of the stats file's lines in order; the first bad line
      stops the run. */
  function GenerateAll(v: Version, lines: seq<string>): Result<seq<string>>
  {
    if |lines| == 0 then Success([])
    else
      match GenerateAll(v, lines[..|lines| - 1])
      case Failure(e) => Failure(e)
      case Success(front) =>
        match GenerateSql(v, Fields(lines[|lines| - 1]))
        case Failure(e) => Failure(e)
        case Success(None) => Success(front)
        case Success(Some(sql)) => Success(front + [sql])
  }

  /** One more line fails the run exactly when the line fails, and adds its statement if it
      yields one. */
  lemma GenerateAllStep(v: Version, lines: seq<string>, front: seq<string>)
    requires |lines| > 0 && front == lines[..|lines| - 1]
    ensures GenerateAll(v, lines).Failure? <==> GenerateAll(v, front).Failure? || GenerateSql(v, Fields(lines[|lines| - 1])).Failure?
    ensures GenerateAll(v, lines).Success? ==>
      GenerateAll(v, lines).value == GenerateAll(v, front).value
        + (if YieldsStatement(lines[|lines| - 1]) then [StatementOfLine(v, lines[|lines| - 1])] else [])
  {
    var last := GenerateSql(v, Fields(lines[|lines| - 1]));
    assert GenerateAll(v, lines) ==
      match GenerateAll(v, front)
      case Failure(e) => Failure(e)
      case Success(f) =>
        match last
        case Failure(e) => Failure(e)
        case Success(None) => Success(f)
        case Success(Some(sql)) => Success(f + [sql]);
  }

  /** The run fails exactly when some line fails. */
  lemma {:induction false} GenerateAllFails(v: Version, lines: seq<string>)
    ensures GenerateAll(v, lines).Failure? <==> exists i :: 0 <= i < |lines| && GenerateSql(v, Fields(lines[i])).Failure?
  {
    if |lines| > 0 {
      var front := lines[..|lines| - 1];
      GenerateAllFails(v, front);
      GenerateAllStep(v, lines, front);
      ExistsSnoc(lines, front, line => GenerateSql(v, Fields(line)).Failure?);
    }
  }

  /** A successful run prints, in order, the statement of every line that yields one, and
      nothing else. */
  lemma {:induction false} GenerateAllStatements(v: Version, lines: seq<string>)
    ensures GenerateAll(v, lines).Success? ==>
      var ix := StatementLines(lines);
      |GenerateAll(v, lines).value| == |ix|
      && forall k :: 0 <= k < |ix| ==> GenerateAll(v, lines).value[k] == StatementOfLine(v, lines[ix[k]])
  {
    if |lines| > 0 && GenerateAll(v, lines).Success? {
      var front := lines[..|lines| - 1];
      GenerateAllStep(v, lines, front);
      GenerateAllStatements(v, front);
      var ixf := StatementLines(front);
      var ix := StatementLines(lines);
      var out := GenerateAll(v, lines).value;
      var outf := GenerateAll(v, front).value;
      assert ix == ixf + (if YieldsStatement(lines[|lines| - 1]) then [|lines| - 1] else []) by {
        assert lines[..|lines| - 1] == front;
      }
      forall k | 0 <= k < |ix|
        ensures out[k] == StatementOfLine(v, lines[ix[k]])
      {
        if k < |ixf| {
          assert out[k] == outf[k];
          assert front[ixf[k]] == lines[ix[k]];
        }
      }
    }
  }

  lemma {:induction false} GeneratePrefixFailure(v: Version, lines: seq<string>, n: nat)
    requires n <= |lines| && GenerateAll(v, lines[..n]).Failure?
    ensures GenerateAll(v, lines) == GenerateAll(v, lines[..n])
    decreases |lines| - n
  {
    if n < |lines| {
      assert lines[..n + 1][..n] == lines[..n];
      GeneratePrefixFailure(v, lines, n + 1);
    } else {
      assert lines[..n] == lines;
    }
  }

  /** The usage message: fewer than one argument after the script name exits with status 1. */
  const USAGE_ERROR: string := "usage: intron.stats"

  /** `main`: the usage check, then the statements of the stats file's lines. */
  function SqlRun(v: Version, argv: seq<string>, lines: seq<string>): Result<seq<string>>
  {
    if |argv| < 2 then Failure(USAGE_ERROR) else GenerateAll(v, lines)
  }

  /** Without the stats file argument nothing is printed and the run fails with the usage
      message; with it, the run prints exactly the statements of the file's lines. */
  lemma SqlRunUsage(v: Version, argv: seq<string>, lines: seq<string>)
    ensures |argv| < 2 <==> SqlRun(v, argv, lines) == Failure(USAGE_ERROR)
  {
    if |argv| >= 2 {
      GenerateAllFailsWithParseError(v, lines);
    }
  }

  /** The only errors of the loop are unpacking errors. */
  lemma {:induction false} GenerateAllFailsWithParseError(v: Version, lines: seq<string>)
    ensures GenerateAll(v, lines).Failure? ==> GenerateAll(v, lines).error == UNPACK_ERROR
  {
    if |lines| > 0 {
      GenerateAllFailsWithParseError(v, lines[..|lines| - 1]);
    }
  }

  /** `main` of generate_norm_count_updates_and_sample_count_add_queries.py: the usage check,
      then one `generate_sql` per line of the stats file, each stripped and split on tabs;
      `AsWritten` is the script, `Corrected` the run with the corrected statements. */
  method GenerateNormCountUpdates(v: Version, argv: seq<string>, lines: seq<string>) returns (r: Result<seq<string>>)
    ensures r == SqlRun(v, argv, lines)
  {
    if |argv| < 2 {
      return Failure(USAGE_ERROR);
    }
    var out: seq<string> := [];
    var n := 0;
    while n < |lines|
      invariant 0 <= n <= |lines|
      invariant GenerateAll(v, lines[..n]) == Success(out)
    {
      assert lines[..n + 1][..n] == lines[..n];
      var sql := GenerateSql(v, Fields(lines[n]));
      if sql.Failure? {
        GeneratePrefixFailure(v, lines, n + 1);
        return Failure(sql.error);
      }
      if sql.value.Some? {
        out := out + [sql.value.value];
      }
      n := n + 1;
    }
    assert lines[..|lines|] == lines;
    return Success(out);
  }

  // ---------------------------------------------------------------------------------------
  // The stats writer's lines are what this reader expects

  /** A formatter whose output is never empty, holds no tab and does not end in whitespace,
      as `{:.4f}` is. */
  ghost predicate CleanFormat(fmt: real -> string)
  {
    forall x :: '\t' !in fmt(x) && |fmt(x)| > 0 && !IsSpace(fmt(x)[|fmt(x)| - 1])
  }

  /** No field of a counter line holds a tab, and the last one ends in a visible character. */
  lemma CounterLineClean(group: string, counts: map<Category, nat>, census: map<string, int>, fmt: real -> string)
    requires '\t' !in group && CleanFormat(fmt)
    requires CounterLine(group, counts, census, fmt).Success?
    ensures var line := CounterLine(group, counts, census, fmt).value;
      (forall i :: 0 <= i < |line| ==> '\t' !in line[i])
      && |line[|line| - 1]| > 0 && !IsSpace(line[|line| - 1][|line[|line| - 1]| - 1])
  {
    var line := CounterLine(group, counts, census, fmt).value;
    forall k | 2 <= k < 8 && k % 2 == 0 ensures '\t' !in line[k] {
      var n: nat := if CATEGORIES[(k - 2) / 2] in counts then counts[CATEGORIES[(k - 2) / 2]] else 0;
      assert line[k] == NatToString(n);
      assert forall i :: 0 <= i < |line[k]| ==> line[k][i] != '\t';
    }
  }

  /** A counter line written by the usage statistics is read back as a counter line of the
      same class and type, with its six count fields. */
  lemma CounterLineParses(c: string, t: string, counts: map<Category, nat>, census: map<string, int>, fmt: real -> string)
    requires '^' !in c && '^' !in t && '\t' !in c && '\t' !in t && CleanFormat(fmt)
    requires CounterLine(Group(c, t), counts, census, fmt).Success?
    ensures var line := CounterLine(Group(c, t), counts, census, fmt).value;
      ParseStatsLine(Fields(Join(line, "\t") + "\n")) == Success(Some(CounterStats(c, t, line[2..])))
  {
    var line := CounterLine(Group(c, t), counts, census, fmt).value;
    assert '\t' !in Group(c, t);
    CounterLineClean(Group(c, t), counts, census, fmt);
    FieldsOfJoin(line);
    SplitConcat(c, t, '^');
    SplitWithoutSep(c, '^');
    SplitWithoutSep(t, '^');
  }

  /** A norm line written by the usage statistics is read back as a norm line of the same
      intron and sample, with its three normalized values. */
  lemma NormLineParses(r: UsageRow, fmt: real -> string)
    requires '\t' !in r.intron && '\t' !in r.sampleName && CleanFormat(fmt)
    requires NormLine(r, fmt).Success?
    ensures var line := NormLine(r, fmt).value;
      ParseStatsLine(Fields(Join(line, "\t") + "\n")) == Success(Some(NormStats(r.intron, r.sampleName, line[3..])))
  {
    var line := NormLine(r, fmt).value;
    FieldsOfJoin(line);
  }
}
