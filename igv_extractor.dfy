/** util/igv_read_alignment_extractor.py: cancer introns are read from an IGV bed file and
    grouped by the `viewport=` region named in their annotation; every read fetched from a
    region is written to the gene output, and the reads with a gap whose key is one of that
    region's cancer introns are written to the intron output as well. */
module IgvExtractor {
  import opened Wrappers
  import opened Text
  import opened IntronKeys
  import opened ReadJunctions
  import opened Seqs

  /** The key of the gap between blocks i and i + 1, with no minimum length applied. */
  function GapKey(chrom: string, blocks: seq<Block>, i: nat): string
    requires i + 1 < |blocks|
  {
    Key(chrom, GapAt(blocks, i).0, GapAt(blocks, i).1)
  }

  /** Some gap of the read, named on `chrom`, is a cancer intron. */
  predicate HasCancerIntron(chrom: string, blocks: seq<Block>, introns: set<string>)
  {
    exists i :: 0 <= i < |blocks| - 1 && GapKey(chrom, blocks, i) in introns
  }

  /** `read_has_cancer_intron`: scan the gaps in block order and answer on the first hit. */
  method ReadHasCancerIntron(blocks: seq<Block>, chrom: string, introns: set<string>) returns (found: bool)
    ensures found <==> HasCancerIntron(chrom, blocks, introns)
    ensures |blocks| < 2 ==> !found
  {
    if |blocks| < 2 {
      return false;
    }
    var i := 0;
    while i < |blocks| - 1
      invariant 0 <= i <= |blocks| - 1
      invariant forall j :: 0 <= j < i ==> GapKey(chrom, blocks, j) !in introns
    {
      var key := GapKey(chrom, blocks, i);
      if key in introns {
        return true;
      }
      i := i + 1;
    }
    return false;
  }

  /** Unlike the counter, the test applies no minimum length: every intron the counter would
      count for a read is also a gap this test looks at. */
  lemma CountedIntronsAreGaps(read: AlignedRead, introns: set<string>, k: string)
    requires k in ReadIntrons(read) && k in introns
    ensures HasCancerIntron(read.chrom, read.blocks, introns)
  {
    ReadIntronsCharacterized(read, k);
    var i :| 0 <= i < |read.blocks| - 1 && LongEnough(GapAt(read.blocks, i))
             && k == Key(read.chrom, GapAt(read.blocks, i).0, GapAt(read.blocks, i).1);
    assert GapKey(read.chrom, read.blocks, i) in introns;
  }

  /** A gap shorter than the counter's minimum can still match. */
  lemma ShortGapMatches(chrom: string)
    ensures var blocks := [(0, 10), (15, 30)];
            HasCancerIntron(chrom, blocks, {Key(chrom, 11, 15)})
            && ReadIntrons(AlignedRead("r", chrom, blocks)) == []
  {
    var blocks := [(0, 10), (15, 30)];
    assert GapKey(chrom, blocks, 0) == Key(chrom, 11, 15);
    assert !LongEnough(GapAt(blocks, 0));
    assert GapKeys(chrom, blocks, 1) == [];
  }

  // ---------------------------------------------------------------------------------------
  // The bed file

  const VIEWPORT: string := "viewport="

  /** The longest prefix holding neither ';' nor ' ': what `[^; ]+` matches greedily. */
  function RunOf(s: string): (r: string)
    ensures |r| <= |s| && r == s[..|r|]
    ensures ';' !in r && ' ' !in r
    ensures |r| < |s| ==> s[|r|] == ';' || s[|r|] == ' '
  {
    if |s| == 0 || s[0] == ';' || s[0] == ' ' then "" else [s[0]] + RunOf(s[1..])
  }

  /** `re.search("viewport=([^; ]+)", annot)`: group 1 of the leftmost match, if any. */
  function ViewportOf(annot: string): (v: Option<string>)
    ensures v.Some? ==> |v.value| > 0 && ';' !in v.value && ' ' !in v.value
    ensures v.Some? ==> exists p :: 0 <= p <= |annot| && StartsWith(annot[p..], VIEWPORT + v.value)
  {
    if |annot| == 0 then None
    else if StartsWith(annot, VIEWPORT) && |RunOf(annot[|VIEWPORT|..])| > 0 then
      var run := RunOf(annot[|VIEWPORT|..]);
      assert annot[0..] == annot;
      assert annot[..|VIEWPORT + run|] == VIEWPORT + run;
      Some(run)
    else
      var rest := ViewportOf(annot[1..]);
      if rest.Some? then
        var p :| 0 <= p <= |annot[1..]| && StartsWith(annot[1..][p..], VIEWPORT + rest.value);
        assert annot[1..][p..] == annot[p + 1..];
        rest
      else rest
  }

  lemma {:induction false} RunOfTagged(v: string, tail: string)
    requires ';' !in v && ' ' !in v
    requires |tail| == 0 || tail[0] == ';' || tail[0] == ' '
    ensures RunOf(v + tail) == v
  {
    if |v| > 0 {
      assert (v + tail)[1..] == v[1..] + tail;
      RunOfTagged(v[1..], tail);
    } else {
      assert v + tail == tail;
    }
  }

  /** The pattern `viewport=([^; ]+)` matches at position p: `viewport=` starts there and is
      followed by at least one character other than ';' and ' '. */
  predicate MatchAt(annot: string, p: nat)
  {
    p <= |annot| && StartsWith(annot[p..], VIEWPORT) && |RunOf(annot[p + |VIEWPORT|..])| > 0
  }

  lemma MatchShift(annot: string, p: nat)
    requires 0 < |annot| && p < |annot|
    ensures MatchAt(annot[1..], p) <==> MatchAt(annot, p + 1)
    ensures MatchAt(annot, p + 1) ==> RunOf(annot[1..][p + |VIEWPORT|..]) == RunOf(annot[p + 1 + |VIEWPORT|..])
  {
    assert annot[1..][p..] == annot[p + 1..];
    if p + 1 + |VIEWPORT| <= |annot| {
      assert annot[1..][p + |VIEWPORT|..] == annot[p + 1 + |VIEWPORT|..];
    }
  }

  /** `re.search` semantics: there is no viewport exactly when the pattern matches nowhere, and
      a viewport found is the maximal run after the leftmost match. */
  lemma {:induction false} ViewportOfCharacterized(annot: string)
    ensures ViewportOf(annot).None? <==> forall p :: 0 <= p <= |annot| ==> !MatchAt(annot, p)
    ensures ViewportOf(annot).Some? ==>
      exists p :: 0 <= p <= |annot| && MatchAt(annot, p) && ViewportOf(annot).value == RunOf(annot[p + |VIEWPORT|..])
                  && forall q :: 0 <= q < p ==> !MatchAt(annot, q)
  {
    if |annot| == 0 {
      assert !MatchAt(annot, 0);
    } else if StartsWith(annot, VIEWPORT) && |RunOf(annot[|VIEWPORT|..])| > 0 {
      assert annot[0..] == annot;
      assert MatchAt(annot, 0);
    } else {
      assert annot[0..] == annot;
      assert !MatchAt(annot, 0);
      var rest := annot[1..];
      ViewportOfCharacterized(rest);
      assert ViewportOf(annot) == ViewportOf(rest);
      forall p | 0 <= p < |rest|
        ensures MatchAt(rest, p) <==> MatchAt(annot, p + 1)
      {
        MatchShift(annot, p);
      }
      assert !MatchAt(rest, |rest|) && !MatchAt(annot, |annot|);
      if ViewportOf(rest).Some? {
        var p :| 0 <= p <= |rest| && MatchAt(rest, p) && ViewportOf(rest).value == RunOf(rest[p + |VIEWPORT|..])
                 && forall q :: 0 <= q < p ==> !MatchAt(rest, q);
        MatchShift(annot, p);
        assert forall q :: 0 <= q < p + 1 ==> !MatchAt(annot, q) by {
          forall q | 0 < q < p + 1 ensures !MatchAt(annot, q) {
            assert !MatchAt(rest, q - 1);
          }
        }
      } else {
        forall p | 0 < p <= |annot| ensures !MatchAt(annot, p) {
          assert !MatchAt(rest, p - 1);
        }
      }
    }
  }

  /** The leftmost match decides the viewport. */
  lemma ViewportOfFirstMatch(annot: string, p: nat)
    requires MatchAt(annot, p) && forall q :: 0 <= q < p ==> !MatchAt(annot, q)
    ensures ViewportOf(annot) == Some(RunOf(annot[p + |VIEWPORT|..]))
  {
    ViewportOfCharacterized(annot);
    var p' :| 0 <= p' <= |annot| && MatchAt(annot, p') && ViewportOf(annot).value == RunOf(annot[p' + |VIEWPORT|..])
              && forall q :: 0 <= q < p' ==> !MatchAt(annot, q);
  }

  /** An annotation in which `viewport=v` is the first match of the pattern, such as
      `uniquely_mapped=...;gene=...;viewport=v;...`, names v. */
  lemma ViewportOfTagged(pre: string, v: string, tail: string)
    requires |v| > 0 && ';' !in v && ' ' !in v
    requires |tail| == 0 || tail[0] == ';' || tail[0] == ' '
    requires forall q :: 0 <= q < |pre| ==> !MatchAt(pre + VIEWPORT + v + tail, q)
    ensures ViewportOf(pre + VIEWPORT + v + tail) == Some(v)
  {
    TaggedMatch(pre, v, tail, pre + VIEWPORT + v + tail);
    ViewportOfFirstMatch(pre + VIEWPORT + v + tail, |pre|);
  }

  lemma TaggedMatch(pre: string, v: string, tail: string, annot: string)
    requires |v| > 0 && ';' !in v && ' ' !in v
    requires |tail| == 0 || tail[0] == ';' || tail[0] == ' '
    requires annot == pre + VIEWPORT + v + tail
    ensures MatchAt(annot, |pre|) && RunOf(annot[|pre| + |VIEWPORT|..]) == v
  {
    var after := VIEWPORT + v + tail;
    assert annot == pre + after;
    assert annot[|pre|..] == after;
    assert after[..|VIEWPORT|] == VIEWPORT;
    assert annot[|pre| + |VIEWPORT|..] == v + tail;
    RunOfTagged(v, tail);
  }

  /** One line of the bed file: None when its annotation names no viewport, else the viewport
      and the intron `chr:(start + 1)-end`; the end column is copied as written. A line without
      exactly six tab-separated fields, or a non-integer start, raises ValueError. */
  function ParseBedLine(line: string): Result<Option<(string, string)>>
  {
    var f := Fields(line);
    if |f| != 6 then Failure("bed line does not have 6 fields")
    else
      match ViewportOf(f[3])
      case None => Success(None)
      case Some(v) =>
        match ParseInt(f[1])
        case None => Failure("bed start is not an integer")
        case Some(start) => Success(Some((v, f[0] + ":" + IntToString(start + 1) + "-" + f[2])))
  }

  /** A bed record of the intron whose 0-based start is `start` and whose end is `end` yields,
      under the viewport its annotation names, the 1-based key of that intron; a record whose
      annotation names none yields nothing. */
  lemma ParseBedLineOfRecord(chrom: string, start: int, end: int, annot: string, score: string, strand: string)
    requires '\t' !in chrom && '\t' !in score && '\t' !in strand && '\t' !in annot
    requires |strand| > 0 && !IsSpace(strand[|strand| - 1])
    ensures ViewportOf(annot).None? ==>
      ParseBedLine(Join([chrom, IntToString(start), IntToString(end), annot, score, strand], "\t") + "\n") == Success(None)
    ensures ViewportOf(annot).Some? ==>
      ParseBedLine(Join([chrom, IntToString(start), IntToString(end), annot, score, strand], "\t") + "\n")
      == Success(Some((ViewportOf(annot).value, Key(chrom, start + 1, end))))
  {
    var fields := [chrom, IntToString(start), IntToString(end), annot, score, strand];
    RecordFields(fields, start, end);
    ParseBedLineOfFields(Join(fields, "\t") + "\n", chrom, start, end, annot, score, strand);
  }

  lemma RecordFields(fields: seq<string>, start: int, end: int)
    requires |fields| == 6 && fields[1] == IntToString(start) && fields[2] == IntToString(end)
    requires '\t' !in fields[0] && '\t' !in fields[3] && '\t' !in fields[4] && '\t' !in fields[5]
    requires |fields[5]| > 0 && !IsSpace(fields[5][|fields[5]| - 1])
    ensures Fields(Join(fields, "\t") + "\n") == fields
  {
    IntToStringHasNo(start, '\t');
    IntToStringHasNo(end, '\t');
    FieldsOfJoin(fields);
  }

  lemma ParseBedLineOfFields(line: string, chrom: string, start: int, end: int, annot: string, score: string, strand: string)
    requires Fields(line) == [chrom, IntToString(start), IntToString(end), annot, score, strand]
    ensures ViewportOf(annot).None? ==> ParseBedLine(line) == Success(None)
    ensures ViewportOf(annot).Some? ==> ParseBedLine(line) == Success(Some((ViewportOf(annot).value, Key(chrom, start + 1, end))))
  {
    ParseIntOfIntToString(start);
  }

  /** The regions of the bed file: each viewport with the set of its cancer introns. */
  function RegionsOf(lines: seq<string>): Result<map<string, set<string>>>
  {
    if |lines| == 0 then Success(map[])
    else
      match RegionsOf(lines[..|lines| - 1])
      case Failure(e) => Failure(e)
      case Success(m) =>
        match ParseBedLine(lines[|lines| - 1])
        case Failure(e) => Failure(e)
        case Success(None) => Success(m)
        case Success(Some((v, intron))) => Success(m[v := (if v in m then m[v] else {}) + {intron}])
  }

  lemma RegionsOfStep(lines: seq<string>)
    requires |lines| > 0
    ensures RegionsOf(lines).Failure?
            <==> RegionsOf(lines[..|lines| - 1]).Failure? || ParseBedLine(lines[|lines| - 1]).Failure?
    ensures RegionsOf(lines).Success? ==>
      var m := RegionsOf(lines[..|lines| - 1]).value;
      RegionsOf(lines).value
      == match ParseBedLine(lines[|lines| - 1]).value
         case None => m
         case Some((v, intron)) => m[v := (if v in m then m[v] else {}) + {intron}]
  {
  }

  lemma BadBedLineStep(lines: seq<string>, front: seq<string>)
    requires |lines| > 0 && front == lines[..|lines| - 1]
    ensures (exists i :: 0 <= i < |lines| && ParseBedLine(lines[i]).Failure?)
            <==> (exists i :: 0 <= i < |front| && ParseBedLine(front[i]).Failure?) || ParseBedLine(lines[|lines| - 1]).Failure?
  {
    assert forall i :: 0 <= i < |front| ==> front[i] == lines[i];
  }

  lemma BedRecordStep(lines: seq<string>, front: seq<string>, v: string, intron: string)
    requires |lines| > 0 && front == lines[..|lines| - 1]
    ensures (exists i :: 0 <= i < |lines| && ParseBedLine(lines[i]) == Success(Some((v, intron))))
            <==> (exists i :: 0 <= i < |front| && ParseBedLine(front[i]) == Success(Some((v, intron))))
                 || ParseBedLine(lines[|lines| - 1]) == Success(Some((v, intron)))
  {
    ExistsSnoc(lines, front, line => ParseBedLine(line) == Success(Some((v, intron))));
  }

  /** Reading the bed file fails exactly when some line is malformed. */
  lemma {:induction false} RegionsOfFails(lines: seq<string>)
    ensures RegionsOf(lines).Failure? <==> exists i :: 0 <= i < |lines| && ParseBedLine(lines[i]).Failure?
  {
    if |lines| > 0 {
      RegionsOfFails(lines[..|lines| - 1]);
      RegionsOfStep(lines);
      BadBedLineStep(lines, lines[..|lines| - 1]);
    }
  }

  /** After a successful read, an intron is listed under a viewport exactly when some line
      names that viewport and that intron. */
  lemma {:induction false} RegionsOfContents(lines: seq<string>, v: string, intron: string)
    requires RegionsOf(lines).Success?
    ensures (v in RegionsOf(lines).value && intron in RegionsOf(lines).value[v]) <==>
            exists i :: 0 <= i < |lines| && ParseBedLine(lines[i]) == Success(Some((v, intron)))
  {
    if |lines| > 0 {
      RegionsOfStep(lines);
      RegionsOfContents(lines[..|lines| - 1], v, intron);
      BedRecordStep(lines, lines[..|lines| - 1], v, intron);
    }
  }

  /** The viewports of the lines that yield a region, in file order, repeats included. */
  function BedViewports(lines: seq<string>): seq<string>
  {
    if |lines| == 0 then []
    else
      BedViewports(lines[..|lines| - 1])
      + match ParseBedLine(lines[|lines| - 1])
        case Success(Some((v, _))) => [v]
        case _ => []
  }

  /** After a successful read, the viewports of the map are those the lines name. */
  lemma {:induction false} RegionsOfKeys(lines: seq<string>, v: string)
    requires RegionsOf(lines).Success?
    ensures v in RegionsOf(lines).value <==> v in BedViewports(lines)
  {
    if |lines| > 0 {
      RegionsOfStep(lines);
      RegionsOfKeys(lines[..|lines| - 1], v);
    }
  }

  /** `parse_cancer_intron_regions`: fill the viewport → introns map line by line; `order`
      lists the viewports as the dict iterates them, which is first insertion first. */
  method ParseCancerIntronRegions(lines: seq<string>) returns (r: Result<map<string, set<string>>>, order: seq<string>)
    ensures r == RegionsOf(lines)
    ensures r.Success? ==> order == FirstSeen(BedViewports(lines))
    ensures r.Success? ==> (forall v :: v in r.value <==> v in order) && forall i, j :: 0 <= i < j < |order| ==> order[i] != order[j]
  {
    var regions: map<string, set<string>> := map[];
    order := [];
    for n := 0 to |lines|
      invariant RegionsOf(lines[..n]) == Success(regions)
      invariant order == FirstSeen(BedViewports(lines[..n]))
      invariant forall v :: v in regions <==> v in order
      invariant forall i, j :: 0 <= i < j < |order| ==> order[i] != order[j]
    {
      assert lines[..n + 1][..n] == lines[..n];
      var parsed := ParseBedLine(lines[n]);
      if parsed.Failure? {
        assert RegionsOf(lines[..n + 1]).Failure?;
        RegionsPrefixFailure(lines, n + 1);
        return Failure(parsed.error), order;
      }
      if parsed.value.Some? {
        var (v, intron) := parsed.value.value;
        ghost var seen := BedViewports(lines[..n]);
        assert BedViewports(lines[..n + 1]) == seen + [v];
        assert (seen + [v])[..|seen|] == seen;
        if v !in regions {
          order := order + [v];
        }
        regions := regions[v := (if v in regions then regions[v] else {}) + {intron}];
      } else {
        assert BedViewports(lines[..n + 1]) == BedViewports(lines[..n]);
      }
    }
    assert lines[..|lines|] == lines;
    return Success(regions), order;
  }

  lemma {:induction false} RegionsPrefixFailure(lines: seq<string>, n: nat)
    requires n <= |lines| && RegionsOf(lines[..n]).Failure?
    ensures RegionsOf(lines) == RegionsOf(lines[..n])
    decreases |lines| - n
  {
    if n < |lines| {
      assert lines[..n + 1][..n] == lines[..n];
      RegionsPrefixFailure(lines, n + 1);
    } else {
      assert lines[..n] == lines;
    }
  }

  // ---------------------------------------------------------------------------------------
  // Routing the reads of each region

  /** The reads among `fetched` that have a gap in `introns`, in fetch order. */
  function Matching(fetched: seq<AlignedRead>, chrom: string, introns: set<string>): (r: seq<AlignedRead>)
    ensures multiset(r) <= multiset(fetched)
  {
    if |fetched| == 0 then []
    else
      var last := fetched[|fetched| - 1];
      assert fetched == fetched[..|fetched| - 1] + [last];
      Matching(fetched[..|fetched| - 1], chrom, introns) + (if HasCancerIntron(chrom, last.blocks, introns) then [last] else [])
  }

  /** A read is in the intron output of a region exactly when it was fetched for that region
      and has one of the region's cancer introns. */
  lemma {:induction false} MatchingCharacterized(fetched: seq<AlignedRead>, chrom: string, introns: set<string>, x: AlignedRead)
    ensures x in Matching(fetched, chrom, introns) <==> x in fetched && HasCancerIntron(chrom, x.blocks, introns)
  {
    if |fetched| > 0 {
      var front := fetched[..|fetched| - 1];
      var last := fetched[|fetched| - 1];
      MatchingCharacterized(front, chrom, introns, x);
      assert Matching(fetched, chrom, introns)
             == Matching(front, chrom, introns) + (if HasCancerIntron(chrom, last.blocks, introns) then [last] else []);
      InLastOrFront(fetched, x);
    }
  }


  /** The region text `chr:lend-rend` is taken apart as an intron key is; a malformed region
      raises, and the outputs keep what was written before it. */
  datatype Routed = Routed(geneReads: seq<AlignedRead>, intronReads: seq<AlignedRead>, failed: bool)

  /** What `main` writes when it visits the regions in order, fetching each with `fetch`. */
  function Route(regions: seq<(string, set<string>)>, fetch: (string, int, int) -> seq<AlignedRead>): (r: Routed)
    ensures multiset(r.intronReads) <= multiset(r.geneReads)
  {
    if |regions| == 0 then Routed([], [], false)
    else
      var front := Route(regions[..|regions| - 1], fetch);
      if front.failed then front
      else
        match ParseKey(regions[|regions| - 1].0)
        case None => Routed(front.geneReads, front.intronReads, true)
        case Some((chrom, lend, rend)) =>
          var fetched := fetch(chrom, lend, rend);
          Routed(front.geneReads + fetched, front.intronReads + Matching(fetched, chrom, regions[|regions| - 1].1), false)
  }

  /** `main`'s loop: every fetched read goes to the gene output, and a read with a cancer intron
      of its region goes to the intron output too. */
  method RouteReads(regions: seq<(string, set<string>)>, fetch: (string, int, int) -> seq<AlignedRead>)
    returns (geneOut: seq<AlignedRead>, intronOut: seq<AlignedRead>, failed: bool)
    ensures Routed(geneOut, intronOut, failed) == Route(regions, fetch)
    ensures multiset(intronOut) <= multiset(geneOut)
  {
    geneOut, intronOut, failed := [], [], false;
    var n := 0;
    while n < |regions|
      invariant 0 <= n <= |regions|
      invariant Routed(geneOut, intronOut, failed) == Route(regions[..n], fetch)
      invariant !failed
    {
      assert regions[..n + 1][..n] == regions[..n];
      var (region, introns) := regions[n];
      var parsed := ParseKey(region);
      if parsed.None? {
        failed := true;
        RoutePrefixFailed(regions, fetch, n + 1);
        return;
      }
      var (chrom, lend, rend) := parsed.value;
      var fetched := fetch(chrom, lend, rend);
      var gene, matching := WriteRegionReads(fetched, chrom, introns);
      geneOut, intronOut := geneOut + gene, intronOut + matching;
      n := n + 1;
    }
    assert regions[..|regions|] == regions;
  }

  /** The dict's items in iteration order. */
  function RegionList(regions: map<string, set<string>>, order: seq<string>): seq<(string, set<string>)>
    requires forall v :: v in order ==> v in regions
  {
    if |order| == 0 then []
    else RegionList(regions, order[..|order| - 1]) + [(order[|order| - 1], regions[order[|order| - 1]])]
  }

  /** `main`: parse the regions file (a malformed line stops the script before the outputs are
      opened), then route the reads of every viewport, in the order the dict iterates them. */
  method IgvReadAlignmentExtractor(bedLines: seq<string>, fetch: (string, int, int) -> seq<AlignedRead>)
    returns (geneOut: seq<AlignedRead>, intronOut: seq<AlignedRead>, failed: bool, order: seq<string>)
    ensures RegionsOf(bedLines).Failure? ==> failed && geneOut == [] && intronOut == []
    ensures RegionsOf(bedLines).Success? ==>
      && order == FirstSeen(BedViewports(bedLines))
      && (forall v :: v in RegionsOf(bedLines).value <==> v in order)
      && (forall i, j :: 0 <= i < j < |order| ==> order[i] != order[j])
      && Routed(geneOut, intronOut, failed) == Route(RegionList(RegionsOf(bedLines).value, order), fetch)
    ensures multiset(intronOut) <= multiset(geneOut)
  {
    var regions;
    regions, order := ParseCancerIntronRegions(bedLines);
    if regions.Failure? {
      return [], [], true, order;
    }
    geneOut, intronOut, failed := RouteReads(RegionList(regions.value, order), fetch);
  }

  lemma MatchingStep(fetched: seq<AlignedRead>, k: nat, chrom: string, introns: set<string>)
    requires k < |fetched|
    ensures Matching(fetched[..k + 1], chrom, introns)
            == Matching(fetched[..k], chrom, introns) + (if HasCancerIntron(chrom, fetched[k].blocks, introns) then [fetched[k]] else [])
  {
    assert fetched[..k + 1][..k] == fetched[..k];
  }

  /** The inner loop of `main`: each fetched read of one region, to one or both outputs. */
  method WriteRegionReads(fetched: seq<AlignedRead>, chrom: string, introns: set<string>)
    returns (gene: seq<AlignedRead>, matching: seq<AlignedRead>)
    ensures gene == fetched
    ensures matching == Matching(fetched, chrom, introns)
  {
    gene, matching := [], [];
    for k := 0 to |fetched|
      invariant gene == fetched[..k]
      invariant matching == Matching(fetched[..k], chrom, introns)
    {
      var read := fetched[k];
      var hit := ReadHasCancerIntron(read.blocks, chrom, introns);
      MatchingStep(fetched, k, chrom, introns);
      PrefixSnoc(fetched, k);
      gene := gene + [read];
      matching := matching + (if hit then [read] else []);
    }
    assert fetched[..|fetched|] == fetched;
  }

  lemma {:induction false} RoutePrefixFailed(regions: seq<(string, set<string>)>, fetch: (string, int, int) -> seq<AlignedRead>, n: nat)
    requires n <= |regions| && Route(regions[..n], fetch).failed
    ensures Route(regions, fetch) == Route(regions[..n], fetch)
    decreases |regions| - n
  {
    if n < |regions| {
      assert regions[..n + 1][..n] == regions[..n];
      RoutePrefixFailed(regions, fetch, n + 1);
    } else {
      assert regions[..n] == regions;
    }
  }
}
