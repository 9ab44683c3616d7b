/** evaluate_intron_tumor_enrichment.py: for each intron feature, the per-group counts of the
    intron are read back, the ALL group and the group with the highest all_pct are picked for
    TCGA and for GTEx, and the tumor (TCGA) against normal (GTEx) enrichment of each pair is
    written as an insert into tumor_vs_normal, with its 2x2 table of sample counts. */
module Enrichment {
  import opened Wrappers
  import opened Text
  import opened Census
  import opened Seqs

  /** A row of intron_sample_type_counts. */
  datatype CountsRow = CountsRow(intron: string, dbClass: string, sampleType: string,
                                 uniqCount: int, uniqPct: real, allCount: int, allPct: real)

  const TCGA: string := "TCGA"
  const GTEX: string := "GTEx"

  const ASSERTION_ERROR: string := "AssertionError: db_class is neither TCGA nor GTEx"
  const NO_ROW_ERROR: string := "AttributeError: 'NoneType' object has no attribute"
  const DIVISION_ERROR: string := "ZeroDivisionError: float division by zero"

  /** `where intron = ?`, in table order. */
  function RowsOf(table: seq<CountsRow>, intron: string): (rows: seq<CountsRow>)
    ensures forall r :: r in rows <==> r in table && r.intron == intron
  {
    if |table| == 0 then []
    else RowsOf(table[..|table| - 1], intron) + (if table[|table| - 1].intron == intron then [table[|table| - 1]] else [])
  }

  // ---------------------------------------------------------------------------------------
  // Picking the ALL and top rows

  predicate IsAllOf(r: CountsRow, dbClass: string) { r.sampleType == ALL && r.dbClass == dbClass }

  predicate IsSubtypeOf(r: CountsRow, dbClass: string) { r.sampleType != ALL && r.dbClass == dbClass }

  /** `tcga_all_obj` / `gtex_all_obj`: each ALL row of the class replaces the previous one. */
  function LastAll(rows: seq<CountsRow>, dbClass: string): Option<CountsRow>
  {
    if |rows| == 0 then None
    else if IsAllOf(rows[|rows| - 1], dbClass) then Some(rows[|rows| - 1])
    else LastAll(rows[..|rows| - 1], dbClass)
  }

  /** `tcga_top_obj` / `gtex_top_obj`: a subtype row replaces the current one only when its
      all_pct is strictly greater. */
  function TopOf(rows: seq<CountsRow>, dbClass: string): Option<CountsRow>
  {
    if |rows| == 0 then None
    else
      var top := TopOf(rows[..|rows| - 1], dbClass);
      var r := rows[|rows| - 1];
      if IsSubtypeOf(r, dbClass) && (top.None? || top.value.allPct < r.allPct) then Some(r) else top
  }

  /** The ALL pick is the last ALL row of the class, and there is none exactly when the class
      has no ALL row. */
  lemma {:induction false} LastAllCharacterized(rows: seq<CountsRow>, dbClass: string)
    ensures LastAll(rows, dbClass).None? <==> forall i :: 0 <= i < |rows| ==> !IsAllOf(rows[i], dbClass)
    ensures LastAll(rows, dbClass).Some? ==>
      exists i :: 0 <= i < |rows| && rows[i] == LastAll(rows, dbClass).value && IsAllOf(rows[i], dbClass)
                  && forall j :: i < j < |rows| ==> !IsAllOf(rows[j], dbClass)
  {
    if |rows| > 0 {
      var front := rows[..|rows| - 1];
      LastAllCharacterized(front, dbClass);
      assert forall i :: 0 <= i < |front| ==> front[i] == rows[i];
      if !IsAllOf(rows[|rows| - 1], dbClass) && LastAll(front, dbClass).Some? {
        var i :| 0 <= i < |front| && front[i] == LastAll(front, dbClass).value && IsAllOf(front[i], dbClass)
                 && forall j :: i < j < |front| ==> !IsAllOf(front[j], dbClass);
        assert rows[i] == front[i];
      }
    }
  }

  /** Row `i` is a subtype row of the class with the greatest all_pct, and no earlier subtype
      row ties it. */
  ghost predicate TopAt(rows: seq<CountsRow>, dbClass: string, i: int)
  {
    0 <= i < |rows| && IsSubtypeOf(rows[i], dbClass)
    && (forall j :: 0 <= j < |rows| && IsSubtypeOf(rows[j], dbClass) ==> rows[j].allPct <= rows[i].allPct)
    && (forall j :: 0 <= j < i && IsSubtypeOf(rows[j], dbClass) ==> rows[j].allPct < rows[i].allPct)
  }

  /** A top row of the front stays the top unless the last row is a subtype row with a
      strictly greater all_pct, which then becomes the top. */
  lemma TopAtExtend(rows: seq<CountsRow>, front: seq<CountsRow>, dbClass: string, i: int)
    requires |rows| > 0 && front == rows[..|rows| - 1] && TopAt(front, dbClass, i)
    ensures var r := rows[|rows| - 1];
      if IsSubtypeOf(r, dbClass) && front[i].allPct < r.allPct then TopAt(rows, dbClass, |rows| - 1)
      else TopAt(rows, dbClass, i)
  {
    assert forall j :: 0 <= j < |front| ==> front[j] == rows[j];
  }

  /** A subtype row after none is the top. */
  lemma TopAtFirst(rows: seq<CountsRow>, front: seq<CountsRow>, dbClass: string)
    requires |rows| > 0 && front == rows[..|rows| - 1] && IsSubtypeOf(rows[|rows| - 1], dbClass)
    requires forall i :: 0 <= i < |front| ==> !IsSubtypeOf(front[i], dbClass)
    ensures TopAt(rows, dbClass, |rows| - 1)
  {
    assert forall j :: 0 <= j < |front| ==> front[j] == rows[j];
  }

  /** There is no top pick exactly when the class has no subtype row. */
  lemma {:induction false} TopOfNone(rows: seq<CountsRow>, dbClass: string)
    ensures TopOf(rows, dbClass).None? <==> forall i :: 0 <= i < |rows| ==> !IsSubtypeOf(rows[i], dbClass)
  {
    if |rows| > 0 {
      var front := rows[..|rows| - 1];
      TopOfNone(front, dbClass);
      ExistsSnoc(rows, front, r => IsSubtypeOf(r, dbClass));
    }
  }

  /** The top pick is a subtype row of the class with the greatest all_pct, and the first such
      row in the query's order; there is none exactly when the class has no subtype row. */
  lemma {:induction false} TopOfCharacterized(rows: seq<CountsRow>, dbClass: string)
    ensures TopOf(rows, dbClass).None? <==> forall i :: 0 <= i < |rows| ==> !IsSubtypeOf(rows[i], dbClass)
    ensures TopOf(rows, dbClass).Some? ==>
      exists i :: TopAt(rows, dbClass, i) && rows[i] == TopOf(rows, dbClass).value
  {
    TopOfNone(rows, dbClass);
    if |rows| > 0 {
      var front := rows[..|rows| - 1];
      var r := rows[|rows| - 1];
      TopOfCharacterized(front, dbClass);
      var top := TopOf(front, dbClass);
      if top.Some? {
        var i :| TopAt(front, dbClass, i) && front[i] == top.value;
        TopAtExtend(rows, front, dbClass, i);
        if IsSubtypeOf(r, dbClass) && top.value.allPct < r.allPct {
          assert rows[|rows| - 1] == TopOf(rows, dbClass).value;
        } else {
          assert rows[i] == TopOf(rows, dbClass).value;
        }
      } else if IsSubtypeOf(r, dbClass) {
        TopAtFirst(rows, front, dbClass);
        assert rows[|rows| - 1] == TopOf(rows, dbClass).value;
      }
    }
  }

  /** Every row's class must be TCGA or GTEx. */
  predicate KnownClasses(rows: seq<CountsRow>)
  {
    forall i :: 0 <= i < |rows| ==> rows[i].dbClass == TCGA || rows[i].dbClass == GTEX
  }

  /** The four picks of the row loop. */
  datatype Picks = Picks(tcgaAll: Option<CountsRow>, gtexAll: Option<CountsRow>,
                         tcgaTop: Option<CountsRow>, gtexTop: Option<CountsRow>)

  function PicksOf(rows: seq<CountsRow>): Picks
  {
    Picks(LastAll(rows, TCGA), LastAll(rows, GTEX), TopOf(rows, TCGA), TopOf(rows, GTEX))
  }

  /** The row loop of `examine_intron_feature_for_enrichment`: the first row of another class
      fails the assertion; otherwise the four picks. */
  method PickRows(rows: seq<CountsRow>) returns (r: Result<Picks>)
    ensures r.Failure? <==> !KnownClasses(rows)
    ensures r.Failure? ==> r.error == ASSERTION_ERROR
    ensures r.Success? ==> r.value == PicksOf(rows)
  {
    var tcgaAll: Option<CountsRow> := None;
    var gtexAll: Option<CountsRow> := None;
    var tcgaTop: Option<CountsRow> := None;
    var gtexTop: Option<CountsRow> := None;
    var i := 0;
    while i < |rows|
      invariant 0 <= i <= |rows|
      invariant KnownClasses(rows[..i])
      invariant Picks(tcgaAll, gtexAll, tcgaTop, gtexTop) == PicksOf(rows[..i])
    {
      assert rows[..i + 1][..i] == rows[..i];
      var obj := rows[i];
      if !(obj.dbClass == TCGA || obj.dbClass == GTEX) {
        return Failure(ASSERTION_ERROR);
      }
      if obj.sampleType == ALL {
        if obj.dbClass == TCGA {
          tcgaAll := Some(obj);
        } else if obj.dbClass == GTEX {
          gtexAll := Some(obj);
        }
      } else if obj.dbClass == TCGA {
        if tcgaTop.None? || tcgaTop.value.allPct < obj.allPct {
          tcgaTop := Some(obj);
        }
      } else if obj.dbClass == GTEX {
        if gtexTop.None? || gtexTop.value.allPct < obj.allPct {
          gtexTop := Some(obj);
        }
      }
      i := i + 1;
    }
    assert rows[..|rows|] == rows;
    return Success(Picks(tcgaAll, gtexAll, tcgaTop, gtexTop));
  }

  // ---------------------------------------------------------------------------------------
  // The enrichment ratio and the 2x2 table

  /** `((t + p) / (T + p)) / ((n + p) / (N + p))`, evaluated as Python does: the tumor row is
      read first, then the tumor division, then the normal row, the normal division and the
      outer division; a missing row or a zero divisor stops it. */
  function Ratio(tumor: Option<int>, tumorTotal: int, normal: Option<int>, normalTotal: int, p: real): (r: Result<real>)
    ensures r.Success? <==> tumor.Some? && normal.Some? && tumorTotal as real + p != 0.0
                            && normalTotal as real + p != 0.0 && normal.value as real + p != 0.0
  {
    if tumor.None? then Failure(NO_ROW_ERROR)
    else if tumorTotal as real + p == 0.0 then Failure(DIVISION_ERROR)
    else if normal.None? then Failure(NO_ROW_ERROR)
    else if normalTotal as real + p == 0.0 then Failure(DIVISION_ERROR)
    else if normal.value as real + p == 0.0 then Failure(DIVISION_ERROR)
    else Success(((tumor.value as real + p) / (tumorTotal as real + p)) / ((normal.value as real + p) / (normalTotal as real + p)))
  }

  /** With a positive pseudocount and non-negative counts every division is defined. */
  lemma RatioDefined(t: nat, tumorTotal: nat, n: nat, normalTotal: nat, p: real)
    requires p > 0.0
    ensures Ratio(Some(t), tumorTotal, Some(n), normalTotal, p).Success?
  {
  }

  /** The ratio compares the smoothed tumor rate with the smoothed normal rate: it is above 1
      exactly when the tumor rate is higher, and exactly 1 when the counts and totals agree. */
  lemma RatioComparesRates(t: int, tumorTotal: int, n: int, normalTotal: int, p: real)
    requires Ratio(Some(t), tumorTotal, Some(n), normalTotal, p).Success?
    requires t as real + p > 0.0 && tumorTotal as real + p > 0.0 && n as real + p > 0.0 && normalTotal as real + p > 0.0
    ensures var ratio := Ratio(Some(t), tumorTotal, Some(n), normalTotal, p).value;
      && (ratio > 1.0 <==> (t as real + p) / (tumorTotal as real + p) > (n as real + p) / (normalTotal as real + p))
      && (t == n && tumorTotal == normalTotal ==> ratio == 1.0)
  {
    var a := (t as real + p) / (tumorTotal as real + p);
    var b := (n as real + p) / (normalTotal as real + p);
    assert b > 0.0;
    assert a / b > 1.0 <==> a > b by {
      assert a / b * b == a;
    }
  }

  /** One row of tumor_vs_normal. */
  datatype Comparison = Comparison(tumorType: string, normalType: string, tumorYes: int, tumorNo: int,
                                   normalYes: int, normalNo: int, oddsRatio: real)

  /** The comparison of a tumor count and a normal count against their census groups. */
  function Compare(tumorType: string, normalType: string, t: int, tumorTotal: int, n: int, normalTotal: int, ratio: real): (c: Comparison)
    ensures c.tumorYes + c.tumorNo == tumorTotal && c.normalYes + c.normalNo == normalTotal
    ensures c.tumorYes == t && c.normalYes == n && c.oddsRatio == ratio
  {
    Comparison(tumorType, normalType, t, tumorTotal - t, n, normalTotal - n, ratio)
  }

  function AllCount(o: Option<CountsRow>): Option<int>
  {
    if o.Some? then Some(o.value.allCount) else None
  }

  /** Both comparisons of one intron: ALL against ALL, then the TCGA top subtype against the
      GTEx top subtype. A class without a subtype row fails before any ratio is taken. */
  function Enrichment(picks: Picks, census: map<string, int>, p: real): (r: Result<(Comparison, Comparison)>)
    ensures r.Success? ==> picks.tcgaAll.Some? && picks.gtexAll.Some? && picks.tcgaTop.Some? && picks.gtexTop.Some?
  {
    if picks.tcgaTop.None? || picks.gtexTop.None? then Failure(NO_ROW_ERROR)
    else
      var countTcgaAll := Lookup(census, Group(TCGA, ALL));
      var countGtexAll := Lookup(census, Group(GTEX, ALL));
      var countTcgaTop := Lookup(census, Group(TCGA, picks.tcgaTop.value.sampleType));
      var countGtexTop := Lookup(census, Group(GTEX, picks.gtexTop.value.sampleType));
      match Ratio(AllCount(picks.tcgaAll), countTcgaAll, AllCount(picks.gtexAll), countGtexAll, p)
      case Failure(e) => Failure(e)
      case Success(allRatio) =>
        match Ratio(Some(picks.tcgaTop.value.allCount), countTcgaTop, Some(picks.gtexTop.value.allCount), countGtexTop, p)
        case Failure(e) => Failure(e)
        case Success(topRatio) =>
          Success((Compare(ALL, ALL, picks.tcgaAll.value.allCount, countTcgaAll, picks.gtexAll.value.allCount, countGtexAll, allRatio),
                   Compare(picks.tcgaTop.value.sampleType, picks.gtexTop.value.sampleType,
                           picks.tcgaTop.value.allCount, countTcgaTop, picks.gtexTop.value.allCount, countGtexTop, topRatio)))
  }

  /** The 2x2 tables of both comparisons split the census totals of the compared groups, and
      the top comparison is between the subtypes picked from the rows. */
  lemma EnrichmentTables(rows: seq<CountsRow>, census: map<string, int>, p: real)
    requires Enrichment(PicksOf(rows), census, p).Success?
    ensures var (all, top) := Enrichment(PicksOf(rows), census, p).value;
      && all.tumorYes + all.tumorNo == Lookup(census, Group(TCGA, ALL))
      && all.normalYes + all.normalNo == Lookup(census, Group(GTEX, ALL))
      && all.tumorYes == LastAll(rows, TCGA).value.allCount && all.normalYes == LastAll(rows, GTEX).value.allCount
      && top.tumorType == TopOf(rows, TCGA).value.sampleType && top.normalType == TopOf(rows, GTEX).value.sampleType
      && top.tumorYes == TopOf(rows, TCGA).value.allCount && top.normalYes == TopOf(rows, GTEX).value.allCount
      && top.tumorYes + top.tumorNo == Lookup(census, Group(TCGA, top.tumorType))
      && top.normalYes + top.normalNo == Lookup(census, Group(GTEX, top.normalType))
  {
  }

  /** With a positive pseudocount and non-negative counts, the comparisons fail exactly when a
      class has no ALL row or no subtype row. */
  lemma EnrichmentFails(rows: seq<CountsRow>, census: map<string, int>, p: real)
    requires p > 0.0
    requires forall g :: g in census ==> census[g] >= 0
    requires forall i :: 0 <= i < |rows| ==> rows[i].allCount >= 0
    ensures Enrichment(PicksOf(rows), census, p).Failure? <==>
      LastAll(rows, TCGA).None? || LastAll(rows, GTEX).None? || TopOf(rows, TCGA).None? || TopOf(rows, GTEX).None?
  {
    PickedCountsNonNegative(rows, TCGA);
    PickedCountsNonNegative(rows, GTEX);
    PicksDefined(PicksOf(rows), census, p);
  }

  lemma PicksDefined(picks: Picks, census: map<string, int>, p: real)
    requires p > 0.0
    requires forall g :: g in census ==> census[g] >= 0
    requires picks.tcgaAll.Some? ==> picks.tcgaAll.value.allCount >= 0
    requires picks.gtexAll.Some? ==> picks.gtexAll.value.allCount >= 0
    requires picks.gtexTop.Some? ==> picks.gtexTop.value.allCount >= 0
    ensures Enrichment(picks, census, p).Failure? <==>
      picks.tcgaAll.None? || picks.gtexAll.None? || picks.tcgaTop.None? || picks.gtexTop.None?
  {
    if picks.tcgaTop.Some? && picks.gtexTop.Some? {
      LookupNonNegative(census, Group(TCGA, ALL));
      LookupNonNegative(census, Group(GTEX, ALL));
      LookupNonNegative(census, Group(TCGA, picks.tcgaTop.value.sampleType));
      LookupNonNegative(census, Group(GTEX, picks.gtexTop.value.sampleType));
    }
  }

  lemma LookupNonNegative(census: map<string, int>, g: string)
    requires forall g :: g in census ==> census[g] >= 0
    ensures Lookup(census, g) >= 0
  {
  }

  /** The picks are rows of the query, so they carry its non-negative counts. */
  lemma PickedCountsNonNegative(rows: seq<CountsRow>, dbClass: string)
    requires forall i :: 0 <= i < |rows| ==> rows[i].allCount >= 0
    ensures LastAll(rows, dbClass).Some? ==> LastAll(rows, dbClass).value.allCount >= 0
    ensures TopOf(rows, dbClass).Some? ==> TopOf(rows, dbClass).value.allCount >= 0
  {
    LastAllCharacterized(rows, dbClass);
    TopOfCharacterized(rows, dbClass);
  }

  // ---------------------------------------------------------------------------------------
  // The statements

  function Quoted(s: string): string { "\"" + s + "\"" }

  /** An insert into tumor_vs_normal; the ALL statement puts "," after the two types and
      renders the ratio with `{:.4}`, the top statement puts ", " and renders it with `{}`. */
  function ComparisonSql(c: Comparison, sep: string, ratioText: string): string
  {
    "insert into tumor_vs_normal (tumor_sample_type, normal_sample_type, tumor_yes, tumor_no, normal_yes, normal_no, odds_ratio) "
    + "values (" + Quoted(c.tumorType) + ", " + Quoted(c.normalType) + sep
    + IntToString(c.tumorYes) + "," + IntToString(c.tumorNo) + ","
    + IntToString(c.normalYes) + "," + IntToString(c.normalNo) + ","
    + ratioText + ");"
  }

  /** The two statements printed for one intron feature. */
  function EnrichmentSql(rows: seq<CountsRow>, census: map<string, int>, p: real,
                         short: real -> string, full: real -> string): (out: Result<seq<string>>)
    ensures out.Success? ==> |out.value| == 2
  {
    if !KnownClasses(rows) then Failure(ASSERTION_ERROR)
    else
      match Enrichment(PicksOf(rows), census, p)
      case Failure(e) => Failure(e)
      case Success((all, top)) => Success([ComparisonSql(all, ",", short(all.oddsRatio)), ComparisonSql(top, ", ", full(top.oddsRatio))])
  }

  /** The comparisons of a feature whose picks all exist: the ALL rows' all_count as the yes
      counts and the census totals minus them as the no counts, then the same for the top
      subtypes, each with its smoothed ratio. */
  lemma EnrichmentComparisons(picks: Picks, census: map<string, int>, p: real)
    requires Enrichment(picks, census, p).Success?
    ensures picks.tcgaAll.Some? && picks.gtexAll.Some? && picks.tcgaTop.Some? && picks.gtexTop.Some?
    ensures var ta, ga, tt, gt := picks.tcgaAll.value, picks.gtexAll.value, picks.tcgaTop.value, picks.gtexTop.value;
      var nta, nga := Lookup(census, Group(TCGA, ALL)), Lookup(census, Group(GTEX, ALL));
      var ntt, ngt := Lookup(census, Group(TCGA, tt.sampleType)), Lookup(census, Group(GTEX, gt.sampleType));
      var allRatio := Ratio(Some(ta.allCount), nta, Some(ga.allCount), nga, p);
      var topRatio := Ratio(Some(tt.allCount), ntt, Some(gt.allCount), ngt, p);
      allRatio.Success? && topRatio.Success?
      && Enrichment(picks, census, p).value ==
        (Comparison(ALL, ALL, ta.allCount, nta - ta.allCount, ga.allCount, nga - ga.allCount, allRatio.value),
         Comparison(tt.sampleType, gt.sampleType, tt.allCount, ntt - tt.allCount, gt.allCount, ngt - gt.allCount, topRatio.value))
  {
  }

  /** A feature prints nothing exactly when a row is of another class or a comparison
      cannot be made. */
  lemma EnrichmentSqlFails(rows: seq<CountsRow>, census: map<string, int>, p: real,
                           short: real -> string, full: real -> string)
    ensures EnrichmentSql(rows, census, p, short, full).Failure? <==>
      !KnownClasses(rows) || Enrichment(PicksOf(rows), census, p).Failure?
  {
  }

  /** `examine_intron_feature_for_enrichment`. */
  method ExamineIntronFeatureForEnrichment(intron: string, table: seq<CountsRow>, census: map<string, int>, p: real,
                                           short: real -> string, full: real -> string)
    returns (out: Result<seq<string>>)
    ensures out == EnrichmentSql(RowsOf(table, intron), census, p, short, full)
  {
    var rows := RowsOf(table, intron);
    var picked := PickRows(rows);
    if picked.Failure? {
      return Failure(picked.error);
    }
    var enrichment := Enrichment(picked.value, census, p);
    if enrichment.Failure? {
      return Failure(enrichment.error);
    }
    var (all, top) := enrichment.value;
    return Success([ComparisonSql(all, ",", short(all.oddsRatio)), ComparisonSql(top, ", ", full(top.oddsRatio))]);
  }

  /** The statements of every feature line, stripped, in turn; the first failure ends the
      run. */
  function EnrichmentRun(features: seq<string>, table: seq<CountsRow>, census: map<string, int>, p: real,
                         short: real -> string, full: real -> string): Result<seq<string>>
  {
    if |features| == 0 then Success([])
    else
      match EnrichmentRun(features[..|features| - 1], table, census, p, short, full)
      case Failure(e) => Failure(e)
      case Success(front) =>
        match EnrichmentSql(RowsOf(table, RStrip(features[|features| - 1])), census, p, short, full)
        case Failure(e) => Failure(e)
        case Success(out) => Success(front + out)
  }

  /** A run that succeeds prints two statements per feature. */
  lemma {:induction false} EnrichmentRunLength(features: seq<string>, table: seq<CountsRow>, census: map<string, int>, p: real,
                                               short: real -> string, full: real -> string)
    requires EnrichmentRun(features, table, census, p, short, full).Success?
    ensures |EnrichmentRun(features, table, census, p, short, full).value| == 2 * |features|
  {
    if |features| > 0 {
      EnrichmentRunLength(features[..|features| - 1], table, census, p, short, full);
    }
  }

  lemma {:induction false} RunPrefixFailure(features: seq<string>, n: nat, table: seq<CountsRow>, census: map<string, int>, p: real,
                                            short: real -> string, full: real -> string)
    requires n <= |features| && EnrichmentRun(features[..n], table, census, p, short, full).Failure?
    ensures EnrichmentRun(features, table, census, p, short, full) == EnrichmentRun(features[..n], table, census, p, short, full)
    decreases |features| - n
  {
    if n < |features| {
      assert features[..n + 1][..n] == features[..n];
      RunPrefixFailure(features, n + 1, table, census, p, short, full);
    } else {
      assert features[..n] == features;
    }
  }

  lemma RunSnoc(features: seq<string>, table: seq<CountsRow>, census: map<string, int>, p: real,
                short: real -> string, full: real -> string, statements: seq<string>)
    requires |features| > 0 && EnrichmentRun(features[..|features| - 1], table, census, p, short, full) == Success(statements)
    ensures var sql := EnrichmentSql(RowsOf(table, RStrip(features[|features| - 1])), census, p, short, full);
      EnrichmentRun(features, table, census, p, short, full) == if sql.Success? then Success(statements + sql.value) else sql
  {
  }

  /** One more feature: its statements extend the run, or its failure ends it. */
  lemma RunStep(features: seq<string>, n: nat, table: seq<CountsRow>, census: map<string, int>, p: real,
                short: real -> string, full: real -> string, statements: seq<string>, r: Result<seq<string>>)
    requires n < |features| && EnrichmentRun(features[..n], table, census, p, short, full) == Success(statements)
    requires r == EnrichmentSql(RowsOf(table, RStrip(features[n])), census, p, short, full)
    ensures r.Success? ==> EnrichmentRun(features[..n + 1], table, census, p, short, full) == Success(statements + r.value)
    ensures r.Failure? ==> EnrichmentRun(features, table, census, p, short, full) == r
  {
    PrefixFront(features, n);
    RunSnoc(features[..n + 1], table, census, p, short, full, statements);
    if r.Failure? {
      RunPrefixFailure(features, n + 1, table, census, p, short, full);
    }
  }

  /** The feature loop of `main`: each stripped feature line in turn; the first failure ends
      the run. */
  method EnrichFeatures(features: seq<string>, table: seq<CountsRow>, census: map<string, int>, p: real,
                        short: real -> string, full: real -> string)
    returns (out: Result<seq<string>>)
    ensures out == EnrichmentRun(features, table, census, p, short, full)
  {
    var statements: seq<string> := [];
    for n := 0 to |features|
      invariant EnrichmentRun(features[..n], table, census, p, short, full) == Success(statements)
    {
      var r := ExamineIntronFeatureForEnrichment(RStrip(features[n]), table, census, p, short, full);
      RunStep(features, n, table, census, p, short, full, statements, r);
      if r.Failure? {
        return r;
      }
      statements := statements + r.value;
    }
    assert features[..|features|] == features;
    return Success(statements);
  }

  /** `main`: the census of the samples, then each feature in turn. */
  method EvaluateIntronTumorEnrichment(censusRows: seq<CensusRow>, features: seq<string>, table: seq<CountsRow>, p: real,
                                       short: real -> string, full: real -> string)
    returns (out: Result<seq<string>>)
    ensures out == EnrichmentRun(features, table, CensusOf(censusRows), p, short, full)
  {
    var census := BuildCensus(censusRows);
    out := EnrichFeatures(features, table, census, p, short, full);
  }
}
