/** util/known_intron_annotation_file_maker.py: a header, then one line per row of
    intron_feature with the intron, its genes and its TCGA and GTEx sample type lists. */
module KnownAnnotation {
  import opened Text
  import opened Seqs
  import opened Enrichment
  import opened SampleTypeLists

  /** The header line: intron, genes, TCGA_sample_counts and GTEx_sample_counts. */
  const HEADER: string := "intron\tgenes\tTCGA_sample_counts\tGTEx_sample_counts"

  /** The sample type this maker's query leaves out of the lists. */
  const EXCLUDED: string := "total"

  /** The four fields of an intron's line. */
  function KnownFields(f: FeatureRow, table: seq<CountsRow>, pct: real -> string): seq<string>
  {
    [f.intron, f.genes,
     ClassList(table, f.intron, TCGA, EXCLUDED, pct), ClassList(table, f.intron, GTEX, EXCLUDED, pct)]
  }

  function KnownLine(f: FeatureRow, table: seq<CountsRow>, pct: real -> string): string
  {
    Join(KnownFields(f, table, pct), "\t")
  }

  /** `write_intron_feature_annotation`: collect the TCGA list, then the GTEx list, and
      print the line. */
  method WriteIntronFeatureAnnotation(f: FeatureRow, table: seq<CountsRow>, pct: real -> string) returns (line: string)
    ensures line == KnownLine(f, table, pct)
  {
    var tcgaVals := CollectClassVals(ClassRows(table, f.intron, TCGA, EXCLUDED), pct);
    var gtexVals := CollectClassVals(ClassRows(table, f.intron, GTEX, EXCLUDED), pct);
    line := Join([f.intron, f.genes, Join(tcgaVals, ","), Join(gtexVals, ",")], "\t");
  }

  /** The whole output: the header, then one line per feature row in query order. */
  function KnownLines(features: seq<FeatureRow>, table: seq<CountsRow>, pct: real -> string): seq<string>
  {
    if |features| == 0 then [HEADER]
    else KnownLines(features[..|features| - 1], table, pct) + [KnownLine(features[|features| - 1], table, pct)]
  }

  lemma {:induction false} KnownLinesLength(features: seq<FeatureRow>, table: seq<CountsRow>, pct: real -> string)
    ensures |KnownLines(features, table, pct)| == |features| + 1 && KnownLines(features, table, pct)[0] == HEADER
  {
    if |features| > 0 {
      KnownLinesLength(features[..|features| - 1], table, pct);
    }
  }

  lemma KnownLinesSnoc(features: seq<FeatureRow>, front: seq<FeatureRow>, table: seq<CountsRow>, pct: real -> string)
    requires |features| > 0 && front == features[..|features| - 1]
    ensures KnownLines(features, table, pct) == KnownLines(front, table, pct) + [KnownLine(features[|features| - 1], table, pct)]
  {
  }

  /** A line of the front's output stays where it was. */
  lemma KnownLinesKeep(features: seq<FeatureRow>, front: seq<FeatureRow>, table: seq<CountsRow>, pct: real -> string, i: nat)
    requires |features| > 0 && front == features[..|features| - 1] && i < |front|
    requires |KnownLines(front, table, pct)| == |front| + 1
    requires KnownLines(front, table, pct)[i + 1] == KnownLine(front[i], table, pct)
    ensures KnownLines(features, table, pct)[i + 1] == KnownLine(features[i], table, pct)
  {
    KnownLinesSnoc(features, front, table, pct);
    AppendIndex(KnownLines(front, table, pct), [KnownLine(features[|features| - 1], table, pct)], i + 1);
    assert front[i] == features[i];
  }

  /** The last row's line comes last. */
  lemma KnownLinesLast(features: seq<FeatureRow>, front: seq<FeatureRow>, table: seq<CountsRow>, pct: real -> string, i: nat)
    requires |features| > 0 && front == features[..|features| - 1] && i == |front|
    requires |KnownLines(front, table, pct)| == |front| + 1
    ensures KnownLines(features, table, pct)[i + 1] == KnownLine(features[i], table, pct)
  {
    KnownLinesSnoc(features, front, table, pct);
  }

  lemma {:induction false} KnownLinesAt(features: seq<FeatureRow>, table: seq<CountsRow>, pct: real -> string, i: nat)
    requires i < |features|
    ensures |KnownLines(features, table, pct)| == |features| + 1
    ensures KnownLines(features, table, pct)[i + 1] == KnownLine(features[i], table, pct)
  {
    var front := features[..|features| - 1];
    KnownLinesLength(front, table, pct);
    KnownLinesLength(features, table, pct);
    if i < |front| {
      KnownLinesAt(front, table, pct, i);
      KnownLinesKeep(features, front, table, pct, i);
    } else {
      KnownLinesLast(features, front, table, pct, i);
    }
  }

  /** The output is the header followed by one line per feature row, in query order. */
  lemma KnownLinesElementwise(features: seq<FeatureRow>, table: seq<CountsRow>, pct: real -> string)
    ensures var lines := KnownLines(features, table, pct);
      |lines| == |features| + 1 && lines[0] == HEADER
      && forall i :: 0 <= i < |features| ==> lines[i + 1] == KnownLine(features[i], table, pct)
  {
    KnownLinesLength(features, table, pct);
    forall i | 0 <= i < |features|
      ensures KnownLines(features, table, pct)[i + 1] == KnownLine(features[i], table, pct)
    {
      KnownLinesAt(features, table, pct, i);
    }
  }

  /** `main`: print the header, then annotate each feature row. */
  method KnownIntronAnnotation(features: seq<FeatureRow>, table: seq<CountsRow>, pct: real -> string) returns (lines: seq<string>)
    ensures lines == KnownLines(features, table, pct)
  {
    lines := [HEADER];
    var i := 0;
    while i < |features|
      invariant 0 <= i <= |features|
      invariant lines == KnownLines(features[..i], table, pct)
    {
      assert features[..i + 1][..i] == features[..i];
      var line := WriteIntronFeatureAnnotation(features[i], table, pct);
      assert KnownLines(features[..i + 1], table, pct) == KnownLines(features[..i], table, pct) + [line];
      lines := lines + [line];
      i := i + 1;
    }
    assert features[..|features|] == features;
  }

  /** Each line reads back as four columns: the intron, its genes, and the two lists, each
      list holding the class's rows other than "total", largest percentage first, or "NA". */
  lemma KnownLineColumns(f: FeatureRow, table: seq<CountsRow>, pct: real -> string)
    requires CleanPct(pct) && '\t' !in f.intron && '\t' !in f.genes
    requires forall i :: 0 <= i < |table| ==> '\t' !in table[i].sampleType
    ensures var cols := Split(KnownLine(f, table, pct), '\t');
      |cols| == 4 && cols[0] == f.intron && cols[1] == f.genes
      && cols[2] == ClassList(table, f.intron, TCGA, EXCLUDED, pct)
      && cols[3] == ClassList(table, f.intron, GTEX, EXCLUDED, pct)
  {
    ClassListHasNoTab(table, f.intron, TCGA, EXCLUDED, pct);
    ClassListHasNoTab(table, f.intron, GTEX, EXCLUDED, pct);
    SplitOfJoin(KnownFields(f, table, pct), '\t');
  }
}
