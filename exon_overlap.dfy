/** annotate_introns.py's gene attribution: `get_exon_itree` loads the exons of the annotation
    into one interval tree per chromosome, and `get_overlapping_gene` searches windows of
    growing radius around an intron for exons. An interval tree is modelled as the list of its
    half-open intervals with their data, queried with the half-open overlap test. */
module ExonOverlap {
  import opened Wrappers
  import opened Text
  import opened Seqs

  /** An interval-tree entry: the half-open `[lo, hi)` and the gene stored as its data. */
  datatype Exon = Exon(lo: int, hi: int, gene: string)

  type ExonTree = map<string, seq<Exon>>

  /** One line of the exon coordinates file: the gene is the second whitespace-separated word
      of column 8 with its double quotes removed, and columns 3 and 4 are the 1-based inclusive
      exon ends, stored as `[lend, rend + 1)`. A missing column or word raises IndexError, a
      non-integer coordinate ValueError, and an empty interval (rend < lend) is refused by the
      tree. */
  function ExonOf(line: string): (r: Result<(string, Exon)>)
    ensures r.Success? ==> r.value.1.lo < r.value.1.hi && '"' !in r.value.1.gene
  {
    var vals := Fields(line);
    if |vals| < 9 then Failure("exon line has fewer than 9 fields")
    else
      var words := Words(vals[8]);
      if |words| < 2 then Failure("exon attributes have fewer than 2 words")
      else
        var gene := RemoveAll(words[1], "\"");
        RemoveAllRemoves(words[1], '"');
        match (ParseInt(vals[3]), ParseInt(vals[4]))
        case (Some(lend), Some(rend)) =>
          if lend >= rend + 1 then Failure("null interval")
          else Success((vals[0], Exon(lend, rend + 1, gene)))
        case _ => Failure("exon coordinate is not an integer")
  }

  lemma {:induction false} RemoveAllRemoves(s: string, c: char)
    ensures c !in RemoveAll(s, [c])
  {
    if |s| > 0 {
      if StartsWith(s, [c]) {
        RemoveAllRemoves(s[1..], c);
      } else {
        RemoveAllRemoves(s[1..], c);
        assert s[0] != c;
      }
    }
  }

  /** The trees after adding the exons of `lines` in order; the first bad line is an error. */
  function ExonTreeOf(lines: seq<string>): Result<ExonTree>
  {
    if |lines| == 0 then Success(map[])
    else
      match ExonTreeOf(lines[..|lines| - 1])
      case Failure(e) => Failure(e)
      case Success(tree) =>
        match ExonOf(lines[|lines| - 1])
        case Failure(e) => Failure(e)
        case Success((chrom, exon)) => Success(tree[chrom := ExonsOn(tree, chrom) + [exon]])
  }

  /** `exon_itree[chrom]`: the tree of a chromosome, empty when none was built. */
  function ExonsOn(tree: ExonTree, chrom: string): seq<Exon>
  {
    if chrom in tree then tree[chrom] else []
  }

  lemma ExonTreeStep(lines: seq<string>)
    requires |lines| > 0 && ExonTreeOf(lines).Success?
    ensures ExonTreeOf(lines[..|lines| - 1]).Success? && ExonOf(lines[|lines| - 1]).Success?
    ensures var tree := ExonTreeOf(lines[..|lines| - 1]).value;
      var (chrom, exon) := ExonOf(lines[|lines| - 1]).value;
      ExonTreeOf(lines).value == tree[chrom := ExonsOn(tree, chrom) + [exon]]
  {
  }

  lemma ExonTreeFailsStep(lines: seq<string>)
    requires |lines| > 0
    ensures ExonTreeOf(lines).Failure? <==>
      ExonTreeOf(lines[..|lines| - 1]).Failure? || ExonOf(lines[|lines| - 1]).Failure?
  {
  }

  /** Adding an exon to one chromosome's tree puts it there and changes no other tree. */
  lemma ExonsOnAdd(tree: ExonTree, c: string, x: Exon, chrom: string, e: Exon)
    ensures e in ExonsOn(tree[c := ExonsOn(tree, c) + [x]], chrom) <==>
      e in ExonsOn(tree, chrom) || (chrom == c && e == x)
  {
  }

  /** Loading fails exactly when some line is bad. */
  lemma {:induction false} ExonTreeOfFails(lines: seq<string>)
    ensures ExonTreeOf(lines).Failure? <==> exists i :: 0 <= i < |lines| && ExonOf(lines[i]).Failure?
  {
    if |lines| > 0 {
      var front := lines[..|lines| - 1];
      ExonTreeOfFails(front);
      ExonTreeFailsStep(lines);
      ExistsSnoc(lines, front, line => ExonOf(line).Failure?);
    }
  }

  /** The trees hold exactly the exons of the lines: an exon is on a chromosome's tree iff
      some line gives it on that chromosome. */
  lemma {:induction false} ExonTreeOfContents(lines: seq<string>, chrom: string, e: Exon)
    requires ExonTreeOf(lines).Success?
    ensures e in ExonsOn(ExonTreeOf(lines).value, chrom) <==>
      exists i :: 0 <= i < |lines| && ExonOf(lines[i]) == Success((chrom, e))
  {
    if |lines| > 0 {
      var front := lines[..|lines| - 1];
      ExonTreeStep(lines);
      ExonTreeOfContents(front, chrom, e);
      var (c, x) := ExonOf(lines[|lines| - 1]).value;
      ExonsOnAdd(ExonTreeOf(front).value, c, x, chrom, e);
      ExistsSnoc(lines, front, line => ExonOf(line) == Success((chrom, e)));
    }
  }

  /** `get_exon_itree`: add each line's exon to its chromosome's tree. */
  method GetExonItree(lines: seq<string>) returns (r: Result<ExonTree>)
    ensures r == ExonTreeOf(lines)
  {
    var tree: ExonTree := map[];
    var n := 0;
    while n < |lines|
      invariant 0 <= n <= |lines|
      invariant ExonTreeOf(lines[..n]) == Success(tree)
    {
      assert lines[..n + 1][..n] == lines[..n];
      var parsed := ExonOf(lines[n]);
      if parsed.Failure? {
        TreePrefixFailure(lines, n + 1);
        return Failure(parsed.error);
      }
      var (chrom, exon) := parsed.value;
      tree := tree[chrom := ExonsOn(tree, chrom) + [exon]];
      n := n + 1;
    }
    assert lines[..|lines|] == lines;
    return Success(tree);
  }

  lemma {:induction false} TreePrefixFailure(lines: seq<string>, n: nat)
    requires n <= |lines| && ExonTreeOf(lines[..n]).Failure?
    ensures ExonTreeOf(lines) == ExonTreeOf(lines[..n])
    decreases |lines| - n
  {
    if n < |lines| {
      assert lines[..n + 1][..n] == lines[..n];
      TreePrefixFailure(lines, n + 1);
    } else {
      assert lines[..n] == lines;
    }
  }

  // ---------------------------------------------------------------------------------------
  // The overlap search

  /** Half-open overlap of an exon with the window `[lo, hi)`. */
  predicate Overlaps(e: Exon, lo: int, hi: int)
  {
    e.lo < hi && lo < e.hi
  }

  /** `tree[lo:hi]`, as gene names: nothing for an empty window, else the genes of the
      overlapping exons. */
  function Query(exons: seq<Exon>, lo: int, hi: int): set<string>
  {
    if lo >= hi then {} else set e | e in exons && Overlaps(e, lo, hi) :: e.gene
  }

  /** A gene is found exactly when the window is not empty and some exon of that gene
      overlaps it. */
  lemma QueryCharacterized(exons: seq<Exon>, lo: int, hi: int, g: string)
    ensures g in Query(exons, lo, hi) <==> lo < hi && exists e :: e in exons && Overlaps(e, lo, hi) && e.gene == g
  {
  }

  /** The search radii, tried in this order. */
  const RANGES: seq<int> := [0, 100, 500, 1000, 5000, 10000]

  /** The window of radius `r` around an intron: `[lend - r, rend + r)`. */
  function AtRadius(exons: seq<Exon>, lend: int, rend: int, r: int): set<string>
  {
    Query(exons, lend - r, rend + r)
  }

  /** The genes of the first radius from index i on that finds any, or {"NA"}. */
  function NearestFrom(exons: seq<Exon>, lend: int, rend: int, i: nat): set<string>
    requires i <= |RANGES|
    decreases |RANGES| - i
  {
    if i == |RANGES| then {"NA"}
    else
      var genes := AtRadius(exons, lend, rend, RANGES[i]);
      if genes != {} then genes else NearestFrom(exons, lend, rend, i + 1)
  }

  function NearestGenes(exons: seq<Exon>, lend: int, rend: int): set<string>
  {
    NearestFrom(exons, lend, rend, 0)
  }

  lemma NearestStep(exons: seq<Exon>, lend: int, rend: int, i: nat)
    requires i < |RANGES|
    ensures NearestFrom(exons, lend, rend, i) ==
      if AtRadius(exons, lend, rend, RANGES[i]) != {} then AtRadius(exons, lend, rend, RANGES[i])
      else NearestFrom(exons, lend, rend, i + 1)
  {
  }

  lemma NonEmptySize(s: set<string>)
    ensures |s| > 0 <==> s != {}
  {
    if s != {} {
      var x :| x in s;
      assert |s - {x}| + 1 == |s|;
    }
  }

  /** `get_overlapping_gene`: try each radius in turn, returning the genes found at the first
      one that finds any, and {"NA"} when none does. */
  method GetOverlappingGene(chrom: string, lend: int, rend: int, tree: ExonTree) returns (genes: set<string>)
    ensures genes == NearestGenes(ExonsOn(tree, chrom), lend, rend)
    ensures genes != {}
  {
    var exons := ExonsOn(tree, chrom);
    genes := {};
    for i := 0 to |RANGES|
      invariant genes == {}
      invariant NearestFrom(exons, lend, rend, i) == NearestGenes(exons, lend, rend)
    {
      var r := RANGES[i];
      var found := Query(exons, lend - r, rend + r);
      NearestStep(exons, lend, rend, i);
      assert found == AtRadius(exons, lend, rend, RANGES[i]);
      genes := genes + found;
      NonEmptySize(genes);
      if |genes| > 0 {
        return;
      }
    }
    genes := genes + {"NA"};
  }

  /** A wider window finds every gene a narrower one finds. */
  lemma QueryGrows(exons: seq<Exon>, lend: int, rend: int, r1: int, r2: int)
    requires 0 <= r1 <= r2
    ensures AtRadius(exons, lend, rend, r1) <= AtRadius(exons, lend, rend, r2)
  {
  }

  /** The result is the genes at some radius when every smaller radius found nothing. */
  lemma {:induction false} NearestIsFirstHit(exons: seq<Exon>, lend: int, rend: int, i: nat)
    requires i <= |RANGES|
    decreases |RANGES| - i
    ensures var genes := NearestFrom(exons, lend, rend, i);
      (genes == {"NA"} && forall j :: i <= j < |RANGES| ==> AtRadius(exons, lend, rend, RANGES[j]) == {})
      || (exists k :: i <= k < |RANGES| && genes == AtRadius(exons, lend, rend, RANGES[k]) && genes != {}
                      && forall j :: i <= j < k ==> AtRadius(exons, lend, rend, RANGES[j]) == {})
  {
    if i < |RANGES| && AtRadius(exons, lend, rend, RANGES[i]) == {} {
      NearestIsFirstHit(exons, lend, rend, i + 1);
    }
  }

  /** Nothing in the widest window gives exactly {"NA"}; otherwise the result is a non-empty
      set of genes each with an exon within 10000 bases of the intron. */
  lemma NearestGenesWithinWidest(exons: seq<Exon>, lend: int, rend: int)
    ensures AtRadius(exons, lend, rend, 10000) == {} ==> NearestGenes(exons, lend, rend) == {"NA"}
    ensures AtRadius(exons, lend, rend, 10000) != {} ==>
      NearestGenes(exons, lend, rend) != {} && NearestGenes(exons, lend, rend) <= AtRadius(exons, lend, rend, 10000)
  {
    NearestIsFirstHit(exons, lend, rend, 0);
    forall j | 0 <= j < |RANGES| ensures AtRadius(exons, lend, rend, RANGES[j]) <= AtRadius(exons, lend, rend, 10000) {
      QueryGrows(exons, lend, rend, RANGES[j], 10000);
    }
  }

  /** An exon overlapping the intron itself decides the result at radius 0: only the genes
      overlapping the intron are reported. */
  lemma OverlapAtZero(exons: seq<Exon>, lend: int, rend: int, e: Exon)
    requires e in exons && lend < rend && Overlaps(e, lend, rend)
    ensures NearestGenes(exons, lend, rend) == Query(exons, lend, rend)
    ensures e.gene in NearestGenes(exons, lend, rend)
  {
    assert e.gene in AtRadius(exons, lend, rend, 0);
  }
}
