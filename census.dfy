/** The sample census that evaluate_intron_usage_stats.py and
    evaluate_intron_tumor_enrichment.py both compute first: the number of samples per
    `class^type` group, where every count is also added to the group `class^ALL`. */
module Census {
  import opened Text

  /** A row of `select db_class, sample_type, count(*) from samples group by db_class,
      sample_type`. */
  datatype CensusRow = CensusRow(dbClass: string, sampleType: string, count: int)

  const ALL: string := "ALL"

  /** `"^".join([db_class, sample_type])`. */
  function Group(dbClass: string, sampleType: string): string
  {
    dbClass + "^" + sampleType
  }

  /** A group name determines its class and type when the class has no '^'. */
  lemma GroupInjective(c1: string, t1: string, c2: string, t2: string)
    requires '^' !in c1 && '^' !in c2 && Group(c1, t1) == Group(c2, t2)
    ensures c1 == c2 && t1 == t2
  {
    SplitConcat(c1, t1, '^');
    SplitConcat(c2, t2, '^');
    SplitWithoutSep(c1, '^');
    SplitWithoutSep(c2, '^');
    assert Group(c1, t1) == c1 + ['^'] + t1;
    assert Group(c2, t2) == c2 + ['^'] + t2;
    assert c1 == Split(Group(c1, t1), '^')[0];
    assert c2 == Split(Group(c2, t2), '^')[0];
    assert Group(c1, t1)[|c1| + 1..] == t1;
  }

  /** A defaultdict(int) read: missing groups count 0. */
  function Lookup(census: map<string, int>, group: string): int
  {
    if group in census then census[group] else 0
  }

  /** `counts[group] += n` on the defaultdict. */
  function AddTo(census: map<string, int>, group: string, n: int): map<string, int>
  {
    census[group := Lookup(census, group) + n]
  }

  function CensusOf(rows: seq<CensusRow>): map<string, int>
  {
    if |rows| == 0 then map[]
    else
      var r := rows[|rows| - 1];
      AddTo(AddTo(CensusOf(rows[..|rows| - 1]), Group(r.dbClass, r.sampleType), r.count), Group(r.dbClass, ALL), r.count)
  }

  /** What one row adds to a group: its count once for its own group and once for its class's
      ALL group (twice when its own type is "ALL"). */
  function Contribution(r: CensusRow, group: string): int
  {
    (if Group(r.dbClass, r.sampleType) == group then r.count else 0)
    + (if Group(r.dbClass, ALL) == group then r.count else 0)
  }

  function GroupSum(rows: seq<CensusRow>, group: string): int
  {
    if |rows| == 0 then 0 else GroupSum(rows[..|rows| - 1], group) + Contribution(rows[|rows| - 1], group)
  }

  /** The census of a group is the sum of what every row contributes to it, and a group is
      present exactly when some row names it or its class. */
  lemma {:induction false} CensusOfCharacterized(rows: seq<CensusRow>, group: string)
    ensures Lookup(CensusOf(rows), group) == GroupSum(rows, group)
    ensures group in CensusOf(rows) <==>
      exists i :: 0 <= i < |rows| && (Group(rows[i].dbClass, rows[i].sampleType) == group || Group(rows[i].dbClass, ALL) == group)
  {
    if |rows| > 0 {
      var front := rows[..|rows| - 1];
      CensusOfCharacterized(front, group);
      assert forall i :: 0 <= i < |front| ==> front[i] == rows[i];
    }
  }

  /** The sum of the counts of a class's rows. */
  function ClassSum(rows: seq<CensusRow>, dbClass: string): int
  {
    if |rows| == 0 then 0
    else
      var r := rows[|rows| - 1];
      ClassSum(rows[..|rows| - 1], dbClass) + (if r.dbClass == dbClass then r.count else 0)
  }

  /** The sum of the counts of the rows of one class and type. */
  function TypeSum(rows: seq<CensusRow>, dbClass: string, sampleType: string): int
  {
    if |rows| == 0 then 0
    else
      var r := rows[|rows| - 1];
      TypeSum(rows[..|rows| - 1], dbClass, sampleType) + (if r.dbClass == dbClass && r.sampleType == sampleType then r.count else 0)
  }

  /** Class names without '^' and no sample type called "ALL". */
  predicate PlainNames(rows: seq<CensusRow>)
  {
    forall i :: 0 <= i < |rows| ==> '^' !in rows[i].dbClass && rows[i].sampleType != ALL
  }

  lemma ContributionPlain(r: CensusRow, dbClass: string, sampleType: string)
    requires '^' !in r.dbClass && r.sampleType != ALL && '^' !in dbClass
    ensures Contribution(r, Group(dbClass, ALL)) == (if r.dbClass == dbClass then r.count else 0)
    ensures sampleType != ALL ==>
      Contribution(r, Group(dbClass, sampleType)) == (if r.dbClass == dbClass && r.sampleType == sampleType then r.count else 0)
  {
    if Group(r.dbClass, r.sampleType) == Group(dbClass, ALL) {
      GroupInjective(r.dbClass, r.sampleType, dbClass, ALL);
    }
    if Group(r.dbClass, ALL) == Group(dbClass, ALL) {
      GroupInjective(r.dbClass, ALL, dbClass, ALL);
    }
    if sampleType != ALL {
      if Group(r.dbClass, r.sampleType) == Group(dbClass, sampleType) {
        GroupInjective(r.dbClass, r.sampleType, dbClass, sampleType);
      }
      if Group(r.dbClass, ALL) == Group(dbClass, sampleType) {
        GroupInjective(r.dbClass, ALL, dbClass, sampleType);
      }
    }
  }

  /** With plain names, `class^ALL` counts every sample of the class, and `class^type` the
      samples of that type. */
  lemma {:induction false} CensusAllIsClassSum(rows: seq<CensusRow>, dbClass: string, sampleType: string)
    requires PlainNames(rows) && '^' !in dbClass
    ensures Lookup(CensusOf(rows), Group(dbClass, ALL)) == ClassSum(rows, dbClass)
    ensures sampleType != ALL ==> Lookup(CensusOf(rows), Group(dbClass, sampleType)) == TypeSum(rows, dbClass, sampleType)
  {
    if |rows| > 0 {
      var front := rows[..|rows| - 1];
      assert PlainNames(front) by {
        assert forall i :: 0 <= i < |front| ==> front[i] == rows[i];
      }
      CensusAllIsClassSum(front, dbClass, sampleType);
      CensusOfCharacterized(rows, Group(dbClass, ALL));
      CensusOfCharacterized(front, Group(dbClass, ALL));
      CensusOfCharacterized(rows, Group(dbClass, sampleType));
      CensusOfCharacterized(front, Group(dbClass, sampleType));
      ContributionPlain(rows[|rows| - 1], dbClass, sampleType);
    }
  }

  /** The census loop of `main`. */
  method BuildCensus(rows: seq<CensusRow>) returns (census: map<string, int>)
    ensures census == CensusOf(rows)
  {
    census := map[];
    var i := 0;
    while i < |rows|
      invariant 0 <= i <= |rows|
      invariant census == CensusOf(rows[..i])
    {
      assert rows[..i + 1][..i] == rows[..i];
      var r := rows[i];
      var group := Group(r.dbClass, r.sampleType);
      census := census[group := (if group in census then census[group] else 0) + r.count];
      var base := Group(r.dbClass, ALL);
      census := census[base := (if base in census then census[base] else 0) + r.count];
      i := i + 1;
    }
    assert rows[..|rows|] == rows;
  }
}
