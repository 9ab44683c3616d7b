/** The per-class sample type lists both annotation file makers write
    (util/cancer_intron_annotation_file_maker.py and util/known_intron_annotation_file_maker.py):
    the class's rows of intron_sample_type_counts for an intron, largest all_pct first, each
    rendered as `sample_type:count:percent`, comma-joined, or "NA" when there are none. */
module SampleTypeLists {
  import opened Text
  import opened Wrappers
  import Sorting
  import opened Enrichment

  /** A row of intron_feature: the intron and its gene label. */
  datatype FeatureRow = FeatureRow(intron: string, genes: string)

  /** `select genes from intron_feature where intron = ?` with `fetchone`: the first match,
      or None. */
  function GenesOf(features: seq<FeatureRow>, intron: string): Option<string>
  {
    if |features| == 0 then None
    else if features[0].intron == intron then Some(features[0].genes)
    else GenesOf(features[1..], intron)
  }

  /** The genes are those of the first row of the intron, and there are none exactly when no
      row has the intron. */
  lemma {:induction false} GenesOfCharacterized(features: seq<FeatureRow>, intron: string)
    ensures GenesOf(features, intron).None? <==> forall i :: 0 <= i < |features| ==> features[i].intron != intron
    ensures GenesOf(features, intron).Some? ==>
      exists i :: 0 <= i < |features| && features[i] == FeatureRow(intron, GenesOf(features, intron).value)
                  && forall j :: 0 <= j < i ==> features[j].intron != intron
  {
    if |features| > 0 && features[0].intron != intron {
      GenesOfCharacterized(features[1..], intron);
      assert forall i :: 1 <= i < |features| ==> features[i] == features[1..][i - 1];
      if GenesOf(features, intron).Some? {
        var i :| 0 <= i < |features[1..]| && features[1..][i] == FeatureRow(intron, GenesOf(features, intron).value)
                 && forall j :: 0 <= j < i ==> features[1..][j].intron != intron;
        assert features[i + 1] == features[1..][i];
      }
    }
  }

  /** The rows of the class for the intron, other than the excluded sample type. */
  function ClassFilter(table: seq<CountsRow>, intron: string, dbClass: string, excluded: string): seq<CountsRow>
  {
    if |table| == 0 then []
    else
      var r := table[|table| - 1];
      ClassFilter(table[..|table| - 1], intron, dbClass, excluded)
      + (if r.intron == intron && r.dbClass == dbClass && r.sampleType != excluded then [r] else [])
  }

  /** A row is kept exactly when it is of the intron and the class and not of the excluded
      sample type. */
  lemma {:induction false} ClassFilterCharacterized(table: seq<CountsRow>, intron: string, dbClass: string, excluded: string)
    ensures forall r :: r in ClassFilter(table, intron, dbClass, excluded) <==>
      r in table && r.intron == intron && r.dbClass == dbClass && r.sampleType != excluded
  {
    if |table| > 0 {
      var front := table[..|table| - 1];
      ClassFilterCharacterized(front, intron, dbClass, excluded);
      assert forall r :: r in table <==> r in front || r == table[|table| - 1];
    }
  }

  function AllPct(r: CountsRow): real
  {
    r.allPct
  }

  /** The query `where intron = ? and db_class = ? and sample_type != excluded order by pct
      desc`. */
  function ClassRows(table: seq<CountsRow>, intron: string, dbClass: string, excluded: string): seq<CountsRow>
  {
    Sorting.SortDescending(ClassFilter(table, intron, dbClass, excluded), AllPct)
  }

  /** The rows are a permutation of the matching rows, largest percentage first (ties in
      whatever order the sort leaves them). */
  lemma ClassRowsSorted(table: seq<CountsRow>, intron: string, dbClass: string, excluded: string)
    ensures var rows := ClassRows(table, intron, dbClass, excluded);
      && multiset(rows) == multiset(ClassFilter(table, intron, dbClass, excluded))
      && forall i, j :: 0 <= i < j < |rows| ==> rows[i].allPct >= rows[j].allPct
  {
    var filtered := ClassFilter(table, intron, dbClass, excluded);
    Sorting.SortDescendingPermutes(filtered, AllPct);
    Sorting.SortDescendingSorted(filtered, AllPct);
  }

  /** `":".join([sample_type, str(count), "{:.2f}".format(fraction * 100)])`; `pct` renders
      the percentage. */
  function Entry(r: CountsRow, pct: real -> string): string
  {
    Join([r.sampleType, IntToString(r.allCount), pct(r.allPct * 100.0)], ":")
  }

  function Entries(rows: seq<CountsRow>, pct: real -> string): seq<string>
  {
    if |rows| == 0 then [] else Entries(rows[..|rows| - 1], pct) + [Entry(rows[|rows| - 1], pct)]
  }

  /** One entry per row, in the rows' order. */
  lemma {:induction false} EntriesElementwise(rows: seq<CountsRow>, pct: real -> string)
    ensures |Entries(rows, pct)| == |rows|
    ensures forall i :: 0 <= i < |rows| ==> Entries(rows, pct)[i] == Entry(rows[i], pct)
  {
    if |rows| > 0 {
      EntriesElementwise(rows[..|rows| - 1], pct);
    }
  }

  /** The list of a class: its entries, or ["NA"] when it has none. */
  function ClassVals(rows: seq<CountsRow>, pct: real -> string): seq<string>
  {
    if |rows| == 0 then ["NA"] else Entries(rows, pct)
  }

  /** The comma-joined list of a class for an intron. */
  function ClassList(table: seq<CountsRow>, intron: string, dbClass: string, excluded: string, pct: real -> string): string
  {
    Join(ClassVals(ClassRows(table, intron, dbClass, excluded), pct), ",")
  }

  /** The loop that appends one entry per row, then the "NA" fallback. */
  method CollectClassVals(rows: seq<CountsRow>, pct: real -> string) returns (vals: seq<string>)
    ensures vals == ClassVals(rows, pct)
  {
    vals := [];
    var i := 0;
    while i < |rows|
      invariant 0 <= i <= |rows|
      invariant vals == Entries(rows[..i], pct)
    {
      assert rows[..i + 1][..i] == rows[..i];
      vals := vals + [Entry(rows[i], pct)];
      i := i + 1;
    }
    assert rows[..|rows|] == rows;
    if |vals| == 0 {
      vals := ["NA"];
    }
  }

  /** A percentage renderer whose output holds none of the separators of the file. */
  ghost predicate CleanPct(pct: real -> string)
  {
    forall x :: ',' !in pct(x) && ':' !in pct(x) && '\t' !in pct(x)
  }

  /** An entry reads back as its sample type, count and percentage when the sample type
      holds no ':'. */
  lemma EntryReadsBack(r: CountsRow, pct: real -> string)
    requires CleanPct(pct) && ':' !in r.sampleType
    ensures Split(Entry(r, pct), ':') == [r.sampleType, IntToString(r.allCount), pct(r.allPct * 100.0)]
  {
    IntToStringHasNo(r.allCount, ':');
    SplitOfJoin([r.sampleType, IntToString(r.allCount), pct(r.allPct * 100.0)], ':');
  }

  /** An entry holds no ',' or tab that its sample type does not hold. */
  lemma EntryHasNo(r: CountsRow, pct: real -> string, c: char)
    requires CleanPct(pct) && (c == ',' || c == '\t') && c !in r.sampleType
    ensures c !in Entry(r, pct)
  {
    IntToStringHasNo(r.allCount, c);
    JoinHasNo([r.sampleType, IntToString(r.allCount), pct(r.allPct * 100.0)], ":", c);
  }

  /** The comma-joined list reads back as its entries (or as ["NA"]) when the sample types
      hold no ','. */
  lemma ClassListReadsBack(rows: seq<CountsRow>, pct: real -> string)
    requires CleanPct(pct)
    requires forall i :: 0 <= i < |rows| ==> ',' !in rows[i].sampleType
    ensures Split(Join(ClassVals(rows, pct), ","), ',') == ClassVals(rows, pct)
  {
    var vals := ClassVals(rows, pct);
    EntriesElementwise(rows, pct);
    forall i | 0 <= i < |vals| ensures ',' !in vals[i] {
      if |rows| > 0 {
        EntryHasNo(rows[i], pct, ',');
      }
    }
    SplitOfJoin(vals, ',');
  }

  /** A class list holds no tab when the sample types hold none. */
  lemma ClassListHasNoTab(table: seq<CountsRow>, intron: string, dbClass: string, excluded: string, pct: real -> string)
    requires CleanPct(pct)
    requires forall i :: 0 <= i < |table| ==> '\t' !in table[i].sampleType
    ensures '\t' !in ClassList(table, intron, dbClass, excluded, pct)
  {
    var rows := ClassRows(table, intron, dbClass, excluded);
    ClassRowsInTable(table, intron, dbClass, excluded);
    var vals := ClassVals(rows, pct);
    EntriesElementwise(rows, pct);
    forall i | 0 <= i < |vals| ensures '\t' !in vals[i] {
      if |rows| > 0 {
        EntryHasNo(rows[i], pct, '\t');
      }
    }
    JoinHasNo(vals, ",", '\t');
  }

  lemma ClassRowsInTable(table: seq<CountsRow>, intron: string, dbClass: string, excluded: string)
    ensures forall i :: 0 <= i < |ClassRows(table, intron, dbClass, excluded)| ==> ClassRows(table, intron, dbClass, excluded)[i] in table
  {
    var rows := ClassRows(table, intron, dbClass, excluded);
    ClassFilterCharacterized(table, intron, dbClass, excluded);
    ClassRowsSorted(table, intron, dbClass, excluded);
    forall i | 0 <= i < |rows| ensures rows[i] in table {
      assert rows[i] in multiset(ClassFilter(table, intron, dbClass, excluded));
    }
  }
}
