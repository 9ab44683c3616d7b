/** evaluate_intron_usage_stats.py: for each intron feature, the samples in which it occurs
    (tumor-normal TCGA samples excluded) are tallied per `class^type` group and per
    `class^ALL` group and category, each occurrence's counts are normalized to reads per
    million of its sample's totals, and the tallies are reported as fractions of the census. */
module UsageStats {
  import opened Wrappers
  import opened Text
  import opened Census
  import opened Seqs

  /** A row of the samples table. */
  datatype SampleRow = SampleRow(name: string, dbClass: string, sampleType: string,
                                 totalUniq: int, totalMulti: int, total: int, tn: string)

  /** A row of the intron_occurrence table. */
  datatype OccurrenceRow = OccurrenceRow(intron: string, sample: string, unique: int, multi: int, all: int)

  /** A row of the join the script queries. */
  datatype UsageRow = UsageRow(sampleName: string, dbClass: string, sampleType: string,
                               totalUniq: int, totalMulti: int, total: int,
                               intron: string, unique: int, multi: int, all: int)

  // ---------------------------------------------------------------------------------------
  // The query

  /** The WHERE clause: the occurrence is of this intron, belongs to this sample, and the
      sample is not a TCGA normal. */
  predicate Selected(s: SampleRow, o: OccurrenceRow, intron: string)
  {
    s.name == o.sample && o.intron == intron && !(s.dbClass == "TCGA" && s.tn == "N")
  }

  function JoinRow(s: SampleRow, o: OccurrenceRow): UsageRow
  {
    UsageRow(s.name, s.dbClass, s.sampleType, s.totalUniq, s.totalMulti, s.total, o.intron, o.unique, o.multi, o.all)
  }

  function Matches(samples: seq<SampleRow>, o: OccurrenceRow, intron: string): seq<UsageRow>
  {
    if |samples| == 0 then []
    else
      var s := samples[|samples| - 1];
      Matches(samples[..|samples| - 1], o, intron) + (if Selected(s, o, intron) then [JoinRow(s, o)] else [])
  }

  /** The rows the query returns, taken occurrence by occurrence (the row order of the query
      is not fixed by SQL). */
  function UsageQuery(samples: seq<SampleRow>, occurrences: seq<OccurrenceRow>, intron: string): seq<UsageRow>
  {
    if |occurrences| == 0 then []
    else UsageQuery(samples, occurrences[..|occurrences| - 1], intron) + Matches(samples, occurrences[|occurrences| - 1], intron)
  }

  lemma {:induction false} MatchesCharacterized(samples: seq<SampleRow>, o: OccurrenceRow, intron: string, row: UsageRow)
    ensures row in Matches(samples, o, intron) <==> exists i :: 0 <= i < |samples| && Selected(samples[i], o, intron) && row == JoinRow(samples[i], o)
  {
    if |samples| > 0 {
      var front := samples[..|samples| - 1];
      MatchesCharacterized(front, o, intron, row);
      assert forall i :: 0 <= i < |front| ==> front[i] == samples[i];
    }
  }

  /** A row is returned exactly when it joins a sample with one of its occurrences of the
      intron, the sample not being a TCGA normal. */
  lemma {:induction false} UsageQueryCharacterized(samples: seq<SampleRow>, occurrences: seq<OccurrenceRow>, intron: string, row: UsageRow)
    ensures row in UsageQuery(samples, occurrences, intron) <==>
      exists i, j :: 0 <= i < |samples| && 0 <= j < |occurrences| && Selected(samples[i], occurrences[j], intron)
                     && row == JoinRow(samples[i], occurrences[j])
  {
    if |occurrences| > 0 {
      var front := occurrences[..|occurrences| - 1];
      var last := occurrences[|occurrences| - 1];
      UsageQueryCharacterized(samples, front, intron, row);
      MatchesCharacterized(samples, last, intron, row);
      assert forall j :: 0 <= j < |front| ==> front[j] == occurrences[j];
      if row in Matches(samples, last, intron) {
        var i :| 0 <= i < |samples| && Selected(samples[i], last, intron) && row == JoinRow(samples[i], last);
        assert occurrences[|occurrences| - 1] == last;
      }
    }
  }

  // ---------------------------------------------------------------------------------------
  // Categories and the zero test

  datatype Category = UniqueMappings | MultiMappings | AllMappings

  /** The categories in the order the counter line reports them. */
  const CATEGORIES: seq<Category> := [UniqueMappings, MultiMappings, AllMappings]

  function CountOf(r: UsageRow, cat: Category): int
  {
    match cat
    case UniqueMappings => r.unique
    case MultiMappings => r.multi
    case AllMappings => r.all
  }

  /** A Python value as the query returns it: INT columns come back as ints. */
  datatype PyValue = PyInt(i: int) | PyStr(s: string)

  /** `intron_unique_mappings != "0"` as written: the count is an int, and an int never equals
      a str, so the test holds for every count. */
  predicate NonZeroAsWritten(count: int)
  {
    PyInt(count) != PyStr("0")
  }

  /** The evidently intended test: the occurrence has reads in this category. */
  predicate Counted(r: UsageRow, cat: Category)
  {
    CountOf(r, cat) != 0
  }

  /** The zero test a run applies: the script compares the count with the string "0"
      (lines 104, 108 and 112), the evidently intended test compares it with the number 0. */
  datatype ZeroTest = StringCompare | NumericCompare

  predicate Passes(test: ZeroTest, r: UsageRow, cat: Category)
  {
    match test
    case StringCompare => NonZeroAsWritten(CountOf(r, cat))
    case NumericCompare => Counted(r, cat)
  }

  /** An occurrence with no unique reads passes the test as written, so it is tallied as a
      unique-mapping occurrence; the intended test leaves it out. */
  lemma ZeroCountPassesAsWritten(r: UsageRow)
    requires r.unique == 0
    ensures NonZeroAsWritten(CountOf(r, UniqueMappings)) && !Counted(r, UniqueMappings)
  {
  }

  // ---------------------------------------------------------------------------------------
  // Group counters

  /** `sample_type_counter`: per group, per category, the number of times it was added to,
      and the groups in the order they were created. */
  datatype Tally = Tally(counter: map<string, map<Category, nat>>, order: seq<string>)

  function Specific(r: UsageRow): string { Group(r.dbClass, r.sampleType) }

  function Base(r: UsageRow): string { Group(r.dbClass, ALL) }

  /** The `add_to_counter` closure. */
  function AddToCounter(t: Tally, group: string, cat: Category): Tally
  {
    var counts := if group in t.counter then t.counter[group] else map[];
    Tally(t.counter[group := counts[cat := (if cat in counts then counts[cat] else 0) + 1]],
          if group in t.counter then t.order else t.order + [group])
  }

  /** A category that passes the test adds to the row's own group, then to its class's ALL
      group. */
  function CountCategory(test: ZeroTest, t: Tally, r: UsageRow, cat: Category): Tally
  {
    if Passes(test, r, cat) then AddToCounter(AddToCounter(t, Specific(r), cat), Base(r), cat) else t
  }

  function CountRow(test: ZeroTest, t: Tally, r: UsageRow): Tally
  {
    CountCategory(test, CountCategory(test, CountCategory(test, t, r, UniqueMappings), r, MultiMappings), r, AllMappings)
  }

  function TallyOf(test: ZeroTest, rows: seq<UsageRow>): Tally
  {
    if |rows| == 0 then Tally(map[], []) else CountRow(test, TallyOf(test, rows[..|rows| - 1]), rows[|rows| - 1])
  }

  /** `counter_dict.get(cat, 0)` of a group, 0 for a group never created. */
  function CatCount(t: Tally, group: string, cat: Category): nat
  {
    if group in t.counter && cat in t.counter[group] then t.counter[group][cat] else 0
  }

  /** What one row adds to a group's count of a category. */
  function RowHits(test: ZeroTest, r: UsageRow, group: string, cat: Category): nat
  {
    if Passes(test, r, cat) then (if Specific(r) == group then 1 else 0) + (if Base(r) == group then 1 else 0) else 0
  }

  function Hits(test: ZeroTest, rows: seq<UsageRow>, group: string, cat: Category): nat
  {
    if |rows| == 0 then 0 else Hits(test, rows[..|rows| - 1], group, cat) + RowHits(test, rows[|rows| - 1], group, cat)
  }

  /** The created groups are listed once each, and each has counted something. */
  ghost predicate TallyWellFormed(t: Tally)
  {
    && (forall g :: g in t.counter <==> g in t.order)
    && (forall i, j :: 0 <= i < j < |t.order| ==> t.order[i] != t.order[j])
    && (forall g :: g in t.counter ==> exists cat :: CatCount(t, g, cat) > 0)
  }

  lemma AddToCounterEffect(t: Tally, group: string, cat: Category, g: string, c: Category)
    requires TallyWellFormed(t)
    ensures TallyWellFormed(AddToCounter(t, group, cat))
    ensures CatCount(AddToCounter(t, group, cat), g, c) == CatCount(t, g, c) + (if g == group && c == cat then 1 else 0)
  {
    var t' := AddToCounter(t, group, cat);
    assert CatCount(t', group, cat) > 0;
    forall g' | g' in t'.counter
      ensures exists c' :: CatCount(t', g', c') > 0
    {
      if g' != group {
        var c' :| CatCount(t, g', c') > 0;
        assert CatCount(t', g', c') > 0;
      }
    }
  }

  lemma CountCategoryEffect(test: ZeroTest, t: Tally, r: UsageRow, cat: Category, g: string, c: Category)
    requires TallyWellFormed(t)
    ensures TallyWellFormed(CountCategory(test, t, r, cat))
    ensures CatCount(CountCategory(test, t, r, cat), g, c) == CatCount(t, g, c) + (if c == cat then RowHits(test, r, g, c) else 0)
  {
    if Passes(test, r, cat) {
      AddToCounterEffect(t, Specific(r), cat, g, c);
      AddToCounterEffect(AddToCounter(t, Specific(r), cat), Base(r), cat, g, c);
    }
  }

  lemma CountRowEffect(test: ZeroTest, t: Tally, r: UsageRow, g: string, c: Category)
    requires TallyWellFormed(t)
    ensures TallyWellFormed(CountRow(test, t, r))
    ensures CatCount(CountRow(test, t, r), g, c) == CatCount(t, g, c) + RowHits(test, r, g, c)
  {
    var t1 := CountCategory(test, t, r, UniqueMappings);
    var t2 := CountCategory(test, t1, r, MultiMappings);
    CountCategoryEffect(test, t, r, UniqueMappings, g, c);
    CountCategoryEffect(test, t1, r, MultiMappings, g, c);
    CountCategoryEffect(test, t2, r, AllMappings, g, c);
  }

  /** Each group's count of a category is the number of rows of that group passing the
      test, where every such row counts for its own group and for its class's ALL group; the
      groups are listed once each, and only groups that counted something are present. */
  lemma {:induction false} TallyOfCounts(test: ZeroTest, rows: seq<UsageRow>, g: string, c: Category)
    ensures TallyWellFormed(TallyOf(test, rows))
    ensures CatCount(TallyOf(test, rows), g, c) == Hits(test, rows, g, c)
  {
    if |rows| > 0 {
      TallyOfCounts(test, rows[..|rows| - 1], g, c);
      CountRowEffect(test, TallyOf(test, rows[..|rows| - 1]), rows[|rows| - 1], g, c);
    }
  }

  /** A group has a positive count exactly when some row passing the test belongs to it or
      to its class. */
  lemma {:induction false} HitsPositive(test: ZeroTest, rows: seq<UsageRow>, g: string, c: Category)
    ensures Hits(test, rows, g, c) > 0 <==> exists i :: 0 <= i < |rows| && RowHits(test, rows[i], g, c) > 0
  {
    if |rows| > 0 {
      var front := rows[..|rows| - 1];
      HitsPositive(test, front, g, c);
      assert forall i :: 0 <= i < |front| ==> front[i] == rows[i];
    }
  }

  /** How many rows belong to a group: a row belongs to its own group and to its class's ALL
      group. */
  function Members(rows: seq<UsageRow>, g: string): nat
  {
    if |rows| == 0 then 0
    else Members(rows[..|rows| - 1], g) + (if Specific(rows[|rows| - 1]) == g then 1 else 0)
                                        + (if Base(rows[|rows| - 1]) == g then 1 else 0)
  }

  /** As written, every row passes the test in every category, so each group's count of
      each category is the number of rows belonging to it, whatever their counts. */
  lemma {:induction false} StringCompareCountsMembers(rows: seq<UsageRow>, g: string, c: Category)
    ensures CatCount(TallyOf(StringCompare, rows), g, c) == Members(rows, g)
  {
    TallyOfCounts(StringCompare, rows, g, c);
    HitsAreMembers(rows, g, c);
  }

  lemma {:induction false} HitsAreMembers(rows: seq<UsageRow>, g: string, c: Category)
    ensures Hits(StringCompare, rows, g, c) == Members(rows, g)
  {
    if |rows| > 0 {
      HitsAreMembers(rows[..|rows| - 1], g, c);
    }
  }

  /** A single occurrence with no reads at all: the script still tallies it once in every
      category of its group, where the intended test tallies nothing. */
  lemma ZeroRowTallied(r: UsageRow, c: Category)
    requires r.unique == 0 && r.multi == 0 && r.all == 0
    ensures CatCount(TallyOf(StringCompare, [r]), Specific(r), c) >= 1
    ensures Specific(r) in TallyOf(StringCompare, [r]).order
    ensures TallyOf(NumericCompare, [r]).order == []
  {
    StringCompareCountsMembers([r], Specific(r), c);
    assert [r][..0] == [];
  }

  /** With class names free of '^', the ALL group of a class counts every row that any other
      group of that class counts. */
  lemma {:induction false} BaseCountsDominate(test: ZeroTest, rows: seq<UsageRow>, dbClass: string, sampleType: string, c: Category)
    requires '^' !in dbClass && forall i :: 0 <= i < |rows| ==> '^' !in rows[i].dbClass
    ensures Hits(test, rows, Group(dbClass, sampleType), c) <= Hits(test, rows, Group(dbClass, ALL), c)
  {
    if |rows| > 0 {
      var front := rows[..|rows| - 1];
      var r := rows[|rows| - 1];
      assert forall i :: 0 <= i < |front| ==> front[i] == rows[i];
      BaseCountsDominate(test, front, dbClass, sampleType, c);
      if sampleType != ALL {
        if Specific(r) == Group(dbClass, sampleType) {
          GroupInjective(r.dbClass, r.sampleType, dbClass, sampleType);
          assert Base(r) == Group(dbClass, ALL);
        }
        if Base(r) == Group(dbClass, sampleType) {
          GroupInjective(r.dbClass, ALL, dbClass, sampleType);
        }
        assert RowHits(test, r, Group(dbClass, sampleType), c) <= RowHits(test, r, Group(dbClass, ALL), c);
      }
    }
  }

  // ---------------------------------------------------------------------------------------
  // Normalized counts and the output lines

  const DIVISION_BY_ZERO: string := "division by zero"

  /** The tags in field 0 of the two kinds of output line. */
  const NORM_TAG: string := "INTRON_NORM_VALS"
  const COUNTER_TAG: string := "INTRON_SAMPLE_TYPE_COUNTER"

  /** `count / total * 1e6`; a zero total raises ZeroDivisionError. */
  function Normalized(count: int, total: int): (r: Result<real>)
    ensures r.Failure? <==> total == 0
    ensures r.Failure? ==> r.error == DIVISION_BY_ZERO
  {
    if total == 0 then Failure(DIVISION_BY_ZERO) else Success(count as real / total as real * 1000000.0)
  }

  /** The normalized value, scaled back by the sample's total, is the count again. */
  lemma NormalizedInverse(count: int, total: int)
    requires total != 0
    ensures Normalized(count, total).value * (total as real) == count as real * 1000000.0
  {
  }

  /** One INTRON_NORM_VALS line: intron, sample, and the unique, multi and all counts each
      normalized by its own total; `fmt` renders a real as `{:.4f}` does. */
  function NormLine(r: UsageRow, fmt: real -> string): (line: Result<seq<string>>)
    ensures line.Failure? <==> r.totalUniq == 0 || r.totalMulti == 0 || r.total == 0
    ensures line.Failure? ==> line.error == DIVISION_BY_ZERO
    ensures line.Success? ==> |line.value| == 6 && line.value[..3] == [NORM_TAG, r.intron, r.sampleName]
  {
    match (Normalized(r.unique, r.totalUniq), Normalized(r.multi, r.totalMulti), Normalized(r.all, r.total))
    case (Success(u), Success(m), Success(a)) => Success([NORM_TAG, r.intron, r.sampleName, fmt(u), fmt(m), fmt(a)])
    case _ => Failure(DIVISION_BY_ZERO)
  }

  function NormLines(rows: seq<UsageRow>, fmt: real -> string): (lines: Result<seq<seq<string>>>)
    ensures lines.Failure? ==> lines.error == DIVISION_BY_ZERO
    ensures lines.Success? ==> |lines.value| == |rows|
  {
    if |rows| == 0 then Success([])
    else
      match NormLines(rows[..|rows| - 1], fmt)
      case Failure(e) => Failure(e)
      case Success(front) =>
        match NormLine(rows[|rows| - 1], fmt)
        case Failure(e) => Failure(e)
        case Success(line) => Success(front + [line])
  }

  /** The norm lines fail exactly when some row has a zero total, and otherwise line i is the
      norm line of row i. */
  lemma {:induction false} NormLinesElementwise(rows: seq<UsageRow>, fmt: real -> string)
    ensures NormLines(rows, fmt).Failure? <==> exists i :: 0 <= i < |rows| && NormLine(rows[i], fmt).Failure?
    ensures NormLines(rows, fmt).Success? ==>
      forall i :: 0 <= i < |rows| ==> NormLine(rows[i], fmt).Success? && NormLines(rows, fmt).value[i] == NormLine(rows[i], fmt).value
  {
    if |rows| > 0 {
      var front := rows[..|rows| - 1];
      NormLinesElementwise(front, fmt);
      if exists i :: 0 <= i < |front| && NormLine(front[i], fmt).Failure? {
        var i :| 0 <= i < |front| && NormLine(front[i], fmt).Failure?;
        assert rows[i] == front[i];
      } else {
        forall i | 0 <= i < |front| ensures NormLine(rows[i], fmt).Success? {
          assert rows[i] == front[i];
        }
      }
    }
  }

  /** `[str(num_cat), "{:.4f}".format(num_cat / num_sample_counts)]`, a missing category
      counting 0. */
  function CatFields(counts: map<Category, nat>, cat: Category, n: int, fmt: real -> string): seq<string>
    requires n != 0
  {
    var num := if cat in counts then counts[cat] else 0;
    [NatToString(num), fmt(num as real / n as real)]
  }

  /** One INTRON_SAMPLE_TYPE_COUNTER line: the group, then count and fraction of the group's
      census for each category; a group with no census raises ZeroDivisionError. */
  function CounterLine(group: string, counts: map<Category, nat>, census: map<string, int>, fmt: real -> string): (line: Result<seq<string>>)
    ensures line.Failure? <==> Lookup(census, group) == 0
    ensures line.Failure? ==> line.error == DIVISION_BY_ZERO
    ensures line.Success? ==> |line.value| == 8 && line.value[..2] == [COUNTER_TAG, group]
  {
    var n := Lookup(census, group);
    if n == 0 then Failure(DIVISION_BY_ZERO)
    else Success([COUNTER_TAG, group]
                 + CatFields(counts, UniqueMappings, n, fmt) + CatFields(counts, MultiMappings, n, fmt) + CatFields(counts, AllMappings, n, fmt))
  }

  /** The count fields of a counter line are the tally's counts, and each fraction passed to
      the formatter, times the group's census, gives that count back. */
  lemma CounterLineFields(t: Tally, group: string, census: map<string, int>, fmt: real -> string, k: int)
    requires group in t.counter && 0 <= k < 3
    requires CounterLine(group, t.counter[group], census, fmt).Success?
    ensures var line := CounterLine(group, t.counter[group], census, fmt).value;
      var num := CatCount(t, group, CATEGORIES[k]);
      line[2 + 2 * k] == NatToString(num)
      && line[3 + 2 * k] == fmt(num as real / Lookup(census, group) as real)
      && (num as real / Lookup(census, group) as real) * Lookup(census, group) as real == num as real
  {
  }

  function CounterLines(t: Tally, order: seq<string>, census: map<string, int>, fmt: real -> string): (lines: Result<seq<seq<string>>>)
    ensures lines.Failure? ==> lines.error == DIVISION_BY_ZERO
    ensures lines.Success? ==> |lines.value| == |order|
  {
    if |order| == 0 then Success([])
    else
      var g := order[|order| - 1];
      match CounterLines(t, order[..|order| - 1], census, fmt)
      case Failure(e) => Failure(e)
      case Success(front) =>
        match CounterLine(g, if g in t.counter then t.counter[g] else map[], census, fmt)
        case Failure(e) => Failure(e)
        case Success(line) => Success(front + [line])
  }

  /** The counter lines fail exactly when some listed group has no census, and otherwise
      line i is the counter line of group i with its counts. */
  lemma {:induction false} CounterLinesElementwise(t: Tally, order: seq<string>, census: map<string, int>, fmt: real -> string)
    ensures CounterLines(t, order, census, fmt).Failure? <==> exists i :: 0 <= i < |order| && Lookup(census, order[i]) == 0
    ensures CounterLines(t, order, census, fmt).Success? ==>
      forall i :: 0 <= i < |order| ==>
        var counts := if order[i] in t.counter then t.counter[order[i]] else map[];
        CounterLine(order[i], counts, census, fmt).Success?
        && CounterLines(t, order, census, fmt).value[i] == CounterLine(order[i], counts, census, fmt).value
  {
    if |order| > 0 {
      var front := order[..|order| - 1];
      CounterLinesElementwise(t, front, census, fmt);
      if exists i :: 0 <= i < |front| && Lookup(census, front[i]) == 0 {
        var i :| 0 <= i < |front| && Lookup(census, front[i]) == 0;
        assert order[i] == front[i];
      } else {
        forall i | 0 <= i < |front| ensures Lookup(census, order[i]) != 0 {
          assert order[i] == front[i];
        }
      }
    }
  }

  /** The output for one intron: a norm line per queried row, then a counter line per group
      that counted something, in the order the groups were created. */
  function UsageOutput(test: ZeroTest, rows: seq<UsageRow>, census: map<string, int>, fmt: real -> string): (out: Result<seq<seq<string>>>)
    ensures out.Failure? ==> out.error == DIVISION_BY_ZERO
    ensures out.Success? ==> |out.value| == |rows| + |TallyOf(test, rows).order|
  {
    match NormLines(rows, fmt)
    case Failure(e) => Failure(e)
    case Success(norms) =>
      var t := TallyOf(test, rows);
      match CounterLines(t, t.order, census, fmt)
      case Failure(e) => Failure(e)
      case Success(counters) => Success(norms + counters)
  }

  // ---------------------------------------------------------------------------------------
  // The imperative loops

  lemma {:induction false} NormPrefixFailure(rows: seq<UsageRow>, n: nat, fmt: real -> string)
    requires n <= |rows| && NormLines(rows[..n], fmt).Failure?
    ensures NormLines(rows, fmt).Failure?
    decreases |rows| - n
  {
    if n < |rows| {
      assert rows[..n + 1][..n] == rows[..n];
      NormPrefixFailure(rows, n + 1, fmt);
    } else {
      assert rows[..n] == rows;
    }
  }

  lemma {:induction false} CounterPrefixFailure(t: Tally, order: seq<string>, n: nat, census: map<string, int>, fmt: real -> string)
    requires n <= |order| && CounterLines(t, order[..n], census, fmt).Failure?
    ensures CounterLines(t, order, census, fmt).Failure?
    decreases |order| - n
  {
    if n < |order| {
      assert order[..n + 1][..n] == order[..n];
      CounterPrefixFailure(t, order, n + 1, census, fmt);
    } else {
      assert order[..n] == order;
    }
  }

  /** `add_to_counter(group, cat)` on the dict of defaultdicts. */
  method AddToCounterInPlace(counter: map<string, map<Category, nat>>, order: seq<string>, group: string, cat: Category)
    returns (counter': map<string, map<Category, nat>>, order': seq<string>)
    ensures Tally(counter', order') == AddToCounter(Tally(counter, order), group, cat)
  {
    counter', order' := counter, order;
    if group !in counter' {
      counter' := counter'[group := map[]];
      order' := order' + [group];
    }
    var counts := counter'[group];
    counter' := counter'[group := counts[cat := (if cat in counts then counts[cat] else 0) + 1]];
  }

  /** One category of a row: `add_to_counter` on the row's own group, then its class's ALL
      group, when the row's count passes the zero test; with `StringCompare` that is the
      script's `!= "0"`, which every int count passes. */
  method CountCategoryInPlace(test: ZeroTest, counter: map<string, map<Category, nat>>, order: seq<string>, r: UsageRow, cat: Category)
    returns (counter': map<string, map<Category, nat>>, order': seq<string>)
    ensures Tally(counter', order') == CountCategory(test, Tally(counter, order), r, cat)
  {
    counter', order' := counter, order;
    var count := CountOf(r, cat);
    if (if test.StringCompare? then PyInt(count) != PyStr("0") else count != 0) {
      counter', order' := AddToCounterInPlace(counter', order', Group(r.dbClass, r.sampleType), cat);
      counter', order' := AddToCounterInPlace(counter', order', Group(r.dbClass, ALL), cat);
    }
  }

  lemma TallyOfNext(test: ZeroTest, rows: seq<UsageRow>, i: nat)
    requires i < |rows|
    ensures TallyOf(test, rows[..i + 1]) == CountRow(test, TallyOf(test, rows[..i]), rows[i])
  {
    assert rows[..i + 1][..i] == rows[..i];
  }

  lemma NormLinesSnoc(rows: seq<UsageRow>, fmt: real -> string, lines: seq<seq<string>>)
    requires |rows| > 0 && NormLines(rows[..|rows| - 1], fmt) == Success(lines)
    ensures NormLines(rows, fmt) ==
      if NormLine(rows[|rows| - 1], fmt).Success? then Success(lines + [NormLine(rows[|rows| - 1], fmt).value])
      else Failure(DIVISION_BY_ZERO)
  {
  }

  lemma NormLinesNext(rows: seq<UsageRow>, i: nat, fmt: real -> string, lines: seq<seq<string>>, line: seq<string>)
    requires i < |rows| && NormLines(rows[..i], fmt) == Success(lines)
    requires NormLine(rows[i], fmt) == Success(line)
    ensures NormLines(rows[..i + 1], fmt) == Success(lines + [line])
  {
    PrefixFront(rows, i);
    NormLinesSnoc(rows[..i + 1], fmt, lines);
  }

  lemma NormLinesStops(rows: seq<UsageRow>, i: nat, fmt: real -> string, lines: seq<seq<string>>)
    requires i < |rows| && NormLines(rows[..i], fmt) == Success(lines)
    requires NormLine(rows[i], fmt).Failure?
    ensures NormLines(rows, fmt) == Failure(DIVISION_BY_ZERO)
  {
    PrefixFront(rows, i);
    NormLinesSnoc(rows[..i + 1], fmt, lines);
    NormPrefixFailure(rows, i + 1, fmt);
  }

  /** The loop over the query's rows of `examine_intron_feature_usage_stats`: tally each
      row's categories, then write its normalized counts. */
  method NormalizeAndTally(test: ZeroTest, rows: seq<UsageRow>, fmt: real -> string)
    returns (norms: Result<seq<seq<string>>>, t: Tally)
    ensures norms == NormLines(rows, fmt)
    ensures norms.Success? ==> t == TallyOf(test, rows)
  {
    var counter: map<string, map<Category, nat>> := map[];
    var order: seq<string> := [];
    var lines: seq<seq<string>> := [];
    var i := 0;
    while i < |rows|
      invariant 0 <= i <= |rows|
      invariant Tally(counter, order) == TallyOf(test, rows[..i])
      invariant NormLines(rows[..i], fmt) == Success(lines)
    {
      var r := rows[i];
      TallyOfNext(test, rows, i);
      counter, order := CountCategoryInPlace(test, counter, order, r, UniqueMappings);
      counter, order := CountCategoryInPlace(test, counter, order, r, MultiMappings);
      counter, order := CountCategoryInPlace(test, counter, order, r, AllMappings);
      var line := NormLine(r, fmt);
      if line.Failure? {
        NormLinesStops(rows, i, fmt, lines);
        return Failure(DIVISION_BY_ZERO), Tally(counter, order);
      }
      NormLinesNext(rows, i, fmt, lines, line.value);
      lines := lines + [line.value];
      i := i + 1;
    }
    assert rows[..|rows|] == rows;
    return Success(lines), Tally(counter, order);
  }

  /** The report loop of `examine_intron_feature_usage_stats`: one counter line per group,
      in the order the groups were created. */
  method ReportCounters(t: Tally, census: map<string, int>, fmt: real -> string) returns (r: Result<seq<seq<string>>>)
    ensures r == CounterLines(t, t.order, census, fmt)
  {
    var order := t.order;
    var counters: seq<seq<string>> := [];
    var j := 0;
    while j < |order|
      invariant 0 <= j <= |order|
      invariant CounterLines(t, order[..j], census, fmt) == Success(counters)
    {
      assert order[..j + 1][..j] == order[..j];
      var g := order[j];
      var line := CounterLine(g, if g in t.counter then t.counter[g] else map[], census, fmt);
      if line.Failure? {
        CounterPrefixFailure(t, order, j + 1, census, fmt);
        return Failure(DIVISION_BY_ZERO);
      }
      counters := counters + [line.value];
      j := j + 1;
    }
    assert order[..|order|] == order;
    return Success(counters);
  }

  /** `examine_intron_feature_usage_stats` for one intron feature. */
  method ExamineIntronFeatureUsageStats(test: ZeroTest, intron: string, samples: seq<SampleRow>, occurrences: seq<OccurrenceRow>,
                                        census: map<string, int>, fmt: real -> string)
    returns (out: Result<seq<seq<string>>>)
    ensures out == UsageOutput(test, UsageQuery(samples, occurrences, intron), census, fmt)
  {
    var rows := UsageQuery(samples, occurrences, intron);
    var norms, t := NormalizeAndTally(test, rows, fmt);
    if norms.Failure? {
      return Failure(norms.error);
    }
    var counters := ReportCounters(t, census, fmt);
    if counters.Failure? {
      return Failure(counters.error);
    }
    return Success(norms.value + counters.value);
  }

  /** The whole run: the census, then each feature line of the features file, stripped, in
      turn. */
  function UsageStatsOf(test: ZeroTest, features: seq<string>, samples: seq<SampleRow>, occurrences: seq<OccurrenceRow>,
                        census: map<string, int>, fmt: real -> string): Result<seq<seq<string>>>
  {
    if |features| == 0 then Success([])
    else
      match UsageStatsOf(test, features[..|features| - 1], samples, occurrences, census, fmt)
      case Failure(e) => Failure(e)
      case Success(front) =>
        match UsageOutput(test, UsageQuery(samples, occurrences, RStrip(features[|features| - 1])), census, fmt)
        case Failure(e) => Failure(e)
        case Success(out) => Success(front + out)
  }

  lemma {:induction false} UsagePrefixFailure(test: ZeroTest, features: seq<string>, n: nat, samples: seq<SampleRow>, occurrences: seq<OccurrenceRow>,
                                              census: map<string, int>, fmt: real -> string)
    requires n <= |features| && UsageStatsOf(test, features[..n], samples, occurrences, census, fmt).Failure?
    ensures UsageStatsOf(test, features, samples, occurrences, census, fmt) == UsageStatsOf(test, features[..n], samples, occurrences, census, fmt)
    decreases |features| - n
  {
    if n < |features| {
      assert features[..n + 1][..n] == features[..n];
      UsagePrefixFailure(test, features, n + 1, samples, occurrences, census, fmt);
    } else {
      assert features[..n] == features;
    }
  }

  /** `main`: build the census from the grouped samples, then examine every feature. The
      script is the run with `StringCompare`; `NumericCompare` is the corrected run. */
  method EvaluateIntronUsageStats(test: ZeroTest, censusRows: seq<CensusRow>, features: seq<string>, samples: seq<SampleRow>,
                                  occurrences: seq<OccurrenceRow>, fmt: real -> string)
    returns (out: Result<seq<seq<string>>>)
    ensures out == UsageStatsOf(test, features, samples, occurrences, CensusOf(censusRows), fmt)
  {
    var census := BuildCensus(censusRows);
    var lines: seq<seq<string>> := [];
    var n := 0;
    while n < |features|
      invariant 0 <= n <= |features|
      invariant UsageStatsOf(test, features[..n], samples, occurrences, census, fmt) == Success(lines)
    {
      assert features[..n + 1][..n] == features[..n];
      var feature := RStrip(features[n]);
      var r := ExamineIntronFeatureUsageStats(test, feature, samples, occurrences, census, fmt);
      if r.Failure? {
        UsagePrefixFailure(test, features, n + 1, samples, occurrences, census, fmt);
        return r;
      }
      lines := lines + r.value;
      n := n + 1;
    }
    assert features[..|features|] == features;
    return Success(lines);
  }
}
