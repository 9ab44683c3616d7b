/** util/intron_occurrence_capture.py: a boundary index maps `chr:(exon start - 1)` and
    `chr:(exon end + 1)` (the intronic bases next to each annotated exon) to the genes of those
    exons (`populate_intron_bounds`); each row of a STAR splice-junction table whose two
    intron ends are both in the index is written out, labelled with the genes of its ends
    (`map_introns`). */
module OccurrenceCapture {
  import opened Wrappers
  import opened Text
  import opened Seqs

  /** A gene set of the index, as the distinct genes in the order they were added; two sets are
      compared by their elements. */
  type GeneSet = seq<string>

  type BoundsIndex = map<string, GeneSet>

  function Elements(s: GeneSet): set<string>
  {
    set g | g in s
  }

  // ---------------------------------------------------------------------------------------
  // `re.search("gene_id \"([^\"]+)\"", info)`

  const GENE_ID_TAG: string := "gene_id \""

  /** The longest prefix without a double quote. */
  function QuoteFree(s: string): (r: string)
    ensures |r| <= |s| && r == s[..|r|] && '"' !in r
    ensures |r| < |s| ==> s[|r|] == '"'
  {
    if |s| == 0 || s[0] == '"' then "" else [s[0]] + QuoteFree(s[1..])
  }

  /** Group 1 of the leftmost match: the gene id between `gene_id "` and the next quote. */
  function GeneIdOf(info: string): (r: Option<string>)
    ensures r.Some? ==> |r.value| > 0 && '"' !in r.value
  {
    if |info| == 0 then None
    else if StartsWith(info, GENE_ID_TAG) && 0 < |QuoteFree(info[|GENE_ID_TAG|..])| < |info[|GENE_ID_TAG|..]| then
      Some(QuoteFree(info[|GENE_ID_TAG|..]))
    else GeneIdOf(info[1..])
  }

  lemma {:induction false} QuoteFreeOf(g: string, rest: string)
    requires '"' !in g
    ensures QuoteFree(g + "\"" + rest) == g
  {
    if |g| > 0 {
      assert (g + "\"" + rest)[1..] == g[1..] + "\"" + rest;
      QuoteFreeOf(g[1..], rest);
    }
  }

  /** An attribute column that opens with `gene_id "<id>"` names that gene. */
  lemma GeneIdOfAttribute(g: string, rest: string)
    requires |g| > 0 && '"' !in g
    ensures GeneIdOf(GENE_ID_TAG + g + "\"" + rest) == Some(g)
  {
    var info := GENE_ID_TAG + g + "\"" + rest;
    assert info[|GENE_ID_TAG|..] == g + "\"" + rest;
    QuoteFreeOf(g, rest);
  }

  // ---------------------------------------------------------------------------------------
  // `populate_intron_bounds`

  /** The token of a position: `chr:pos`. */
  function Token(chrom: string, pos: int): string
  {
    chrom + ":" + IntToString(pos)
  }

  /** One annotation line: its gene and the tokens of the intronic bases just before its start
      and just after its end. Fewer than 9 fields fails the assertion, a non-integer coordinate
      raises ValueError, and an attribute column without a gene id raises RuntimeError. */
  function BoundsOfLine(line: string): Result<(string, string, string)>
  {
    var vals := Fields(line);
    if |vals| < 9 then Failure("annotation line has fewer than 9 fields")
    else
      match (ParseInt(vals[3]), ParseInt(vals[4]))
      case (Some(lend), Some(rend)) =>
        (match GeneIdOf(vals[8])
         case None => Failure("no gene id extracted from line")
         case Some(gene) => Success((gene, Token(vals[0], lend - 1), Token(vals[0], rend + 1))))
      case _ => Failure("annotation coordinate is not an integer")
  }

  /** `chr_intron_bounds[token].add(gene)` on the defaultdict of sets. */
  function AddGene(index: BoundsIndex, token: string, gene: string): BoundsIndex
  {
    var genes := if token in index then index[token] else [];
    index[token := if gene in genes then genes else genes + [gene]]
  }

  function BoundsOf(lines: seq<string>): Result<BoundsIndex>
  {
    if |lines| == 0 then Success(map[])
    else
      match BoundsOf(lines[..|lines| - 1])
      case Failure(e) => Failure(e)
      case Success(index) =>
        match BoundsOfLine(lines[|lines| - 1])
        case Failure(e) => Failure(e)
        case Success((gene, a, b)) => Success(AddGene(AddGene(index, a, gene), b, gene))
  }

  /** Every gene set is non-empty and lists each gene once. */
  ghost predicate IndexWellFormed(index: BoundsIndex)
  {
    forall t :: t in index ==> |index[t]| > 0 && forall i, j :: 0 <= i < j < |index[t]| ==> index[t][i] != index[t][j]
  }

  /** Adding a gene lists it under its token, keeps the sets well formed and touches nothing
      else. */
  lemma AddGeneEffect(index: BoundsIndex, token: string, gene: string, t: string, g: string)
    requires IndexWellFormed(index)
    ensures IndexWellFormed(AddGene(index, token, gene))
    ensures t in AddGene(index, token, gene) && g in AddGene(index, token, gene)[t] <==>
      (t == token && g == gene) || (t in index && g in index[t])
  {
  }

  lemma BoundsOfStep(lines: seq<string>)
    requires |lines| > 0 && BoundsOf(lines).Success?
    ensures BoundsOf(lines[..|lines| - 1]).Success? && BoundsOfLine(lines[|lines| - 1]).Success?
    ensures var (g, a, b) := BoundsOfLine(lines[|lines| - 1]).value;
      BoundsOf(lines).value == AddGene(AddGene(BoundsOf(lines[..|lines| - 1]).value, a, g), b, g)
  {
  }

  lemma BoundsOfFailsStep(lines: seq<string>)
    requires |lines| > 0
    ensures BoundsOf(lines).Failure? <==>
      BoundsOf(lines[..|lines| - 1]).Failure? || BoundsOfLine(lines[|lines| - 1]).Failure?
  {
  }

  lemma BadLineStep(lines: seq<string>, front: seq<string>)
    requires |lines| > 0 && front == lines[..|lines| - 1]
    ensures (exists i :: 0 <= i < |lines| && BoundsOfLine(lines[i]).Failure?) <==>
      (exists i :: 0 <= i < |front| && BoundsOfLine(front[i]).Failure?) || BoundsOfLine(lines[|lines| - 1]).Failure?
  {
    ExistsSnoc(lines, front, line => BoundsOfLine(line).Failure?);
  }

  lemma LineHasStep(lines: seq<string>, front: seq<string>, token: string, gene: string)
    requires |lines| > 0 && front == lines[..|lines| - 1]
    ensures (exists i :: 0 <= i < |lines| && LineHas(lines[i], token, gene)) <==>
      (exists i :: 0 <= i < |front| && LineHas(front[i], token, gene)) || LineHas(lines[|lines| - 1], token, gene)
  {
    ExistsSnoc(lines, front, line => LineHas(line, token, gene));
  }

  /** Loading fails exactly when some line is bad. */
  lemma {:induction false} BoundsOfFailure(lines: seq<string>)
    ensures BoundsOf(lines).Failure? <==> exists i :: 0 <= i < |lines| && BoundsOfLine(lines[i]).Failure?
  {
    if |lines| > 0 {
      var front := lines[..|lines| - 1];
      BoundsOfFailure(front);
      BoundsOfFailsStep(lines);
      BadLineStep(lines, front);
    }
  }

  /** A gene is listed under a token exactly when some annotation line of that gene has the
      token at one of its two ends; every listed set is non-empty and without repeats. */
  lemma {:induction false} BoundsOfCharacterized(lines: seq<string>, token: string, gene: string)
    requires BoundsOf(lines).Success?
    ensures IndexWellFormed(BoundsOf(lines).value)
    ensures token in BoundsOf(lines).value && gene in BoundsOf(lines).value[token] <==>
      exists i :: 0 <= i < |lines| && LineHas(lines[i], token, gene)
  {
    if |lines| > 0 {
      var front := lines[..|lines| - 1];
      var last := lines[|lines| - 1];
      BoundsOfStep(lines);
      BoundsOfCharacterized(front, token, gene);
      var index := BoundsOf(front).value;
      var (g, a, b) := BoundsOfLine(last).value;
      AddGeneEffect(index, a, g, token, gene);
      AddGeneEffect(AddGene(index, a, g), b, g, token, gene);
      LineHasStep(lines, front, token, gene);
      assert LineHas(last, token, gene) <==> EndsOf((g, a, b), token, gene);
    }
  }

  /** The line parses to this gene with this token at one of its ends. */
  predicate LineHas(line: string, token: string, gene: string)
  {
    BoundsOfLine(line).Success? && EndsOf(BoundsOfLine(line).value, token, gene)
  }

  /** The parsed line is of this gene and has this token at one end. */
  predicate EndsOf(bounds: (string, string, string), token: string, gene: string)
  {
    bounds.0 == gene && (bounds.1 == token || bounds.2 == token)
  }

  /** `populate_intron_bounds`: add each line's gene under both of its tokens. */
  method PopulateIntronBounds(lines: seq<string>) returns (r: Result<BoundsIndex>)
    ensures r == BoundsOf(lines)
  {
    var index: BoundsIndex := map[];
    var n := 0;
    while n < |lines|
      invariant 0 <= n <= |lines|
      invariant BoundsOf(lines[..n]) == Success(index)
    {
      assert lines[..n + 1][..n] == lines[..n];
      var parsed := BoundsOfLine(lines[n]);
      if parsed.Failure? {
        BoundsPrefixFailure(lines, n + 1);
        return Failure(parsed.error);
      }
      var (gene, lendToken, rendToken) := parsed.value;
      index := AddGene(index, lendToken, gene);
      index := AddGene(index, rendToken, gene);
      n := n + 1;
    }
    assert lines[..|lines|] == lines;
    return Success(index);
  }

  lemma {:induction false} BoundsPrefixFailure(lines: seq<string>, n: nat)
    requires n <= |lines| && BoundsOf(lines[..n]).Failure?
    ensures BoundsOf(lines) == BoundsOf(lines[..n])
    decreases |lines| - n
  {
    if n < |lines| {
      assert lines[..n + 1][..n] == lines[..n];
      BoundsPrefixFailure(lines, n + 1);
    } else {
      assert lines[..n] == lines;
    }
  }

  // ---------------------------------------------------------------------------------------
  // `map_introns`

  const SJ_SUFFIX: string := ".SJ.out.tab.gz"

  /** The sample name: the file's base name with every ".SJ.out.tab.gz" removed. */
  function SampleName(path: string): string
  {
    RemoveAll(Basename(path), SJ_SUFFIX)
  }

  /** For `dir/NAME.SJ.out.tab.gz` with a NAME free of '/' and '.', the sample name is NAME. */
  lemma SampleNameOfPath(dir: string, name: string)
    requires '/' !in name && '.' !in name
    ensures SampleName(dir + "/" + name + SJ_SUFFIX) == name
  {
    var file := name + SJ_SUFFIX;
    assert '/' !in file by {
      assert forall i :: 0 <= i < |SJ_SUFFIX| ==> SJ_SUFFIX[i] != '/';
    }
    assert dir + "/" + name + SJ_SUFFIX == dir + "/" + file;
    BasenameOfPath(dir, file);
    RemoveAllOfSuffix(name, SJ_SUFFIX);
  }

  /** The genes column: the genes of the first end, or of both ends joined by "--" when the two
      sets differ. */
  function GenesLabel(genesA: GeneSet, genesB: GeneSet): string
  {
    if Elements(genesA) == Elements(genesB) then Join(genesA, ",")
    else Join(genesA, ",") + "--" + Join(genesB, ",")
  }

  lemma {:induction false} JoinFree(parts: seq<string>, sep: string, c: char)
    requires c !in sep && forall i :: 0 <= i < |parts| ==> c !in parts[i]
    ensures c !in Join(parts, sep)
  {
    if |parts| > 1 {
      JoinFree(parts[1..], sep, c);
    }
  }

  /** When both ends have the same genes, splitting the label at ',' gives them back (for gene
      names without ','): as a set whatever order the set is iterated in, and in the model's
      first-added order as a sequence. */
  lemma GenesLabelSame(genesA: GeneSet, genesB: GeneSet)
    requires |genesA| > 0 && Elements(genesA) == Elements(genesB)
    requires forall i :: 0 <= i < |genesA| ==> ',' !in genesA[i]
    ensures Elements(Split(GenesLabel(genesA, genesB), ',')) == Elements(genesA) == Elements(genesB)
    ensures Split(GenesLabel(genesA, genesB), ',') == genesA
  {
    SplitOfJoin(genesA, ',');
  }

  /** When the ends differ, the label splits at '-' into the two gene lists around an empty
      piece (for gene names without '-'), so both sides can be read back. */
  lemma GenesLabelDifferent(genesA: GeneSet, genesB: GeneSet)
    requires Elements(genesA) != Elements(genesB)
    requires forall i :: 0 <= i < |genesA| ==> '-' !in genesA[i]
    requires forall i :: 0 <= i < |genesB| ==> '-' !in genesB[i]
    ensures Split(GenesLabel(genesA, genesB), '-') == [Join(genesA, ","), "", Join(genesB, ",")]
  {
    var ja, jb := Join(genesA, ","), Join(genesB, ",");
    JoinFree(genesA, ",", '-');
    JoinFree(genesB, ",", '-');
    assert GenesLabel(genesA, genesB) == ja + ['-'] + ("" + ['-'] + jb);
    SplitConcat(ja, "" + ['-'] + jb, '-');
    SplitConcat("", jb, '-');
    SplitWithoutSep(ja, '-');
    SplitWithoutSep(jb, '-');
    SplitWithoutSep("", '-');
  }

  /** One splice-table row: nothing unless both `chr:start` and `chr:end` are index tokens,
      else the class, sample, genes label and every field of the row. A row with fewer than three
      fields raises IndexError. */
  function MapRow(line: string, index: BoundsIndex, dbClass: string, sample: string): Result<Option<seq<string>>>
  {
    var vals := Fields(line);
    if |vals| < 3 then Failure("splice row has fewer than 3 fields")
    else
      var tokA := vals[0] + ":" + vals[1];
      var tokB := vals[0] + ":" + vals[2];
      if tokA in index && tokB in index && |index[tokA]| > 0 && |index[tokB]| > 0 then
        Success(Some([dbClass, sample, GenesLabel(index[tokA], index[tokB])] + vals))
      else Success(None)
  }

  /** A row is written exactly when both of its ends are in the index, and the written record is
      the class, the sample, the label and the original fields unchanged. */
  lemma MapRowWritten(line: string, index: BoundsIndex, dbClass: string, sample: string)
    requires IndexWellFormed(index) && |Fields(line)| >= 3
    ensures var vals := Fields(line);
      MapRow(line, index, dbClass, sample).Success?
      && (MapRow(line, index, dbClass, sample).value.Some? <==>
            vals[0] + ":" + vals[1] in index && vals[0] + ":" + vals[2] in index)
      && (MapRow(line, index, dbClass, sample).value.Some? ==>
            var out := MapRow(line, index, dbClass, sample).value.value;
            |out| == 3 + |vals| && out[..2] == [dbClass, sample] && out[3..] == vals
            && out[2] == GenesLabel(index[vals[0] + ":" + vals[1]], index[vals[0] + ":" + vals[2]]))
  {
  }

  /** An intron of the splice table that starts just after one annotated exon and ends just
      before another (of the same chromosome) is written, with the genes of both exons in its
      label. */
  lemma FlankedIntronWritten(exonLines: seq<string>, i: int, j: int, line: string, dbClass: string, sample: string)
    requires BoundsOf(exonLines).Success?
    requires 0 <= i < |exonLines| && 0 <= j < |exonLines|
    requires BoundsOfLine(exonLines[i]).Success? && BoundsOfLine(exonLines[j]).Success?
    requires var vals := Fields(line);
      |vals| >= 3
      && BoundsOfLine(exonLines[i]).value.2 == vals[0] + ":" + vals[1]
      && BoundsOfLine(exonLines[j]).value.1 == vals[0] + ":" + vals[2]
    ensures var index := BoundsOf(exonLines).value;
      var vals := Fields(line);
      var r := MapRow(line, index, dbClass, sample);
      r.Success? && r.value.Some?
      && BoundsOfLine(exonLines[i]).value.0 in index[vals[0] + ":" + vals[1]]
      && BoundsOfLine(exonLines[j]).value.0 in index[vals[0] + ":" + vals[2]]
  {
    var vals := Fields(line);
    var tokA, tokB := vals[0] + ":" + vals[1], vals[0] + ":" + vals[2];
    var gi, gj := BoundsOfLine(exonLines[i]).value.0, BoundsOfLine(exonLines[j]).value.0;
    BoundsOfCharacterized(exonLines, tokA, gi);
    BoundsOfCharacterized(exonLines, tokB, gj);
    assert LineHas(exonLines[i], tokA, gi);
    assert LineHas(exonLines[j], tokB, gj);
    MapRowWritten(line, BoundsOf(exonLines).value, dbClass, sample);
  }

  function MappedRows(lines: seq<string>, index: BoundsIndex, dbClass: string, sample: string): Result<seq<seq<string>>>
  {
    if |lines| == 0 then Success([])
    else
      match MappedRows(lines[..|lines| - 1], index, dbClass, sample)
      case Failure(e) => Failure(e)
      case Success(out) =>
        match MapRow(lines[|lines| - 1], index, dbClass, sample)
        case Failure(e) => Failure(e)
        case Success(None) => Success(out)
        case Success(Some(rec)) => Success(out + [rec])
  }

  /** The output has at most one record per row. */
  lemma {:induction false} MappedRowsBound(lines: seq<string>, index: BoundsIndex, dbClass: string, sample: string)
    ensures MappedRows(lines, index, dbClass, sample).Success? ==> |MappedRows(lines, index, dbClass, sample).value| <= |lines|
  {
    if |lines| > 0 {
      MappedRowsBound(lines[..|lines| - 1], index, dbClass, sample);
    }
  }

  /** `map_introns`: write the records of one splice table; the index is only read. */
  method MapIntrons(path: string, lines: seq<string>, index: BoundsIndex, dbClass: string) returns (r: Result<seq<seq<string>>>)
    ensures r == MappedRows(lines, index, dbClass, SampleName(path))
  {
    var out: seq<seq<string>> := [];
    var n := 0;
    while n < |lines|
      invariant 0 <= n <= |lines|
      invariant MappedRows(lines[..n], index, dbClass, SampleName(path)) == Success(out)
    {
      assert lines[..n + 1][..n] == lines[..n];
      var vals := Fields(lines[n]);
      if |vals| < 3 {
        MappedPrefixFailure(lines, n + 1, index, dbClass, SampleName(path));
        return Failure("splice row has fewer than 3 fields");
      }
      var tokA := vals[0] + ":" + vals[1];
      var tokB := vals[0] + ":" + vals[2];
      var genesA: GeneSet := [];
      var genesB: GeneSet := [];
      if tokA in index {
        genesA := index[tokA];
      }
      if tokB in index {
        genesB := index[tokB];
      }
      if |genesA| > 0 && |genesB| > 0 {
        var genesLabel := GenesLabel(genesA, genesB);
        var sample := SampleName(path);
        out := out + [[dbClass, sample, genesLabel] + vals];
      }
      n := n + 1;
    }
    assert lines[..|lines|] == lines;
    return Success(out);
  }

  lemma {:induction false} MappedPrefixFailure(lines: seq<string>, n: nat, index: BoundsIndex, dbClass: string, sample: string)
    requires n <= |lines| && MappedRows(lines[..n], index, dbClass, sample).Failure?
    ensures MappedRows(lines, index, dbClass, sample) == MappedRows(lines[..n], index, dbClass, sample)
    decreases |lines| - n
  {
    if n < |lines| {
      assert lines[..n + 1][..n] == lines[..n];
      MappedPrefixFailure(lines, n + 1, index, dbClass, sample);
    } else {
      assert lines[..n] == lines;
    }
  }
}
