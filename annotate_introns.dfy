/** annotate_introns.py: introns are counted per chromosome, from a BAM file
    (`evaluate_introns_from_bam_file`) or from a text file of intron keys
    (`capture_introns_from_file`), and each is then reported with its splice dinucleotides,
    splice flag, count, nearest genes and known/cryptic label. */
module AnnotateIntrons {
  import opened Wrappers
  import opened Text
  import opened IntronKeys
  import Sorting
  import opened SpliceSites
  import opened ExonOverlap

  const MIN_MAPPING_QUALITY: int := 60

  /** A Python dict of counts: the counts and the order in which the keys were first added. */
  datatype Counter = Counter(counts: map<string, nat>, order: seq<string>)

  /** `intron_counter`: chromosome → (intron key → count), both levels in insertion order. */
  datatype ChromCounter = ChromCounter(byChrom: map<string, Counter>, chroms: seq<string>)

  predicate Distinct(s: seq<string>)
  {
    forall i, j :: 0 <= i < j < |s| ==> s[i] != s[j]
  }

  /** Both key orders list each key of their dict exactly once. */
  ghost predicate WellFormed(c: ChromCounter)
  {
    && Distinct(c.chroms)
    && (forall ch :: ch in c.byChrom <==> ch in c.chroms)
    && forall ch :: ch in c.byChrom ==>
         Distinct(c.byChrom[ch].order) && forall k :: k in c.byChrom[ch].counts <==> k in c.byChrom[ch].order
  }

  function InnerOf(c: ChromCounter, chrom: string): Counter
  {
    if chrom in c.byChrom then c.byChrom[chrom] else Counter(map[], [])
  }

  /** `intron_counter[chrom][key] += 1` on the nested defaultdict. */
  function Bump(c: ChromCounter, chrom: string, key: string): ChromCounter
  {
    var inner := InnerOf(c, chrom);
    var next := Counter(inner.counts[key := (if key in inner.counts then inner.counts[key] else 0) + 1],
                        if key in inner.counts then inner.order else inner.order + [key]);
    ChromCounter(c.byChrom[chrom := next], if chrom in c.byChrom then c.chroms else c.chroms + [chrom])
  }

  /** The counter after the (chromosome, key) events in order, from an empty one. */
  function CountEvents(events: seq<(string, string)>): ChromCounter
  {
    if |events| == 0 then ChromCounter(map[], [])
    else
      var (chrom, key) := events[|events| - 1];
      Bump(CountEvents(events[..|events| - 1]), chrom, key)
  }

  lemma CountEventsStep(events: seq<(string, string)>, chrom: string, key: string)
    ensures CountEvents(events + [(chrom, key)]) == Bump(CountEvents(events), chrom, key)
  {
    assert (events + [(chrom, key)])[..|events|] == events;
  }

  lemma BumpWellFormed(c: ChromCounter, chrom: string, key: string)
    requires WellFormed(c)
    ensures WellFormed(Bump(c, chrom, key))
  {
  }

  lemma {:induction false} CountEventsWellFormed(events: seq<(string, string)>)
    ensures WellFormed(CountEvents(events))
  {
    if |events| > 0 {
      var (chrom, key) := events[|events| - 1];
      CountEventsWellFormed(events[..|events| - 1]);
      BumpWellFormed(CountEvents(events[..|events| - 1]), chrom, key);
    }
  }

  /** The count of a key on a chromosome is the number of events with that chromosome and
      key, and the pair is present exactly when some event names it. */
  lemma {:induction false} CountEventsCounts(events: seq<(string, string)>, ch: string, k: string)
    ensures (ch in CountEvents(events).byChrom && k in CountEvents(events).byChrom[ch].counts) <==> (ch, k) in events
    ensures ch in CountEvents(events).byChrom && k in CountEvents(events).byChrom[ch].counts
            ==> CountEvents(events).byChrom[ch].counts[k] == multiset(events)[(ch, k)]
  {
    if |events| > 0 {
      var front := events[..|events| - 1];
      var (c1, k1) := events[|events| - 1];
      CountEventsCounts(front, ch, k);
      assert events == front + [(c1, k1)];
      assert multiset(events) == multiset(front) + multiset{(c1, k1)};
      var prev := CountEvents(front);
      assert CountEvents(events) == Bump(prev, c1, k1);
      if ch == c1 && k == k1 {
        assert (ch, k) in events;
      } else if ch == c1 {
        assert multiset(events)[(ch, k)] == multiset(front)[(ch, k)];
        assert (ch, k) in events <==> (ch, k) in front;
      } else {
        assert multiset(events)[(ch, k)] == multiset(front)[(ch, k)];
        assert (ch, k) in events <==> (ch, k) in front;
      }
    }
  }

  /** A chromosome is present exactly when some event is on it. */
  lemma {:induction false} CountEventsChroms(events: seq<(string, string)>, ch: string)
    ensures ch in CountEvents(events).byChrom <==> exists k :: (ch, k) in events
  {
    if |events| > 0 {
      var front := events[..|events| - 1];
      CountEventsChroms(front, ch);
      assert events == front + [events[|events| - 1]];
      if ch in CountEvents(events).byChrom && ch !in CountEvents(front).byChrom {
        assert (ch, events[|events| - 1].1) in events;
      }
      if exists k :: (ch, k) in events {
        var k :| (ch, k) in events;
        if (ch, k) !in front {
          assert (ch, k) == events[|events| - 1];
        }
      }
    }
  }

  // ---------------------------------------------------------------------------------------
  // Counting from a BAM file

  /** The fields of a BAM record the counter uses; `introns` are the keys pysam's
      `find_introns([read])` reports for the read: 0-based start and exclusive end of each
      skipped region. */
  datatype BamRead = BamRead(chrom: string, mappingQuality: int, isSecondary: bool, introns: seq<(int, int)>)

  predicate Kept(read: BamRead)
  {
    read.mappingQuality >= MIN_MAPPING_QUALITY && !read.isSecondary
  }

  /** The events of a read's introns, in order, with 1 added to pysam's 0-based start. */
  function IntronEvents(chrom: string, introns: seq<(int, int)>): (es: seq<(string, string)>)
    ensures |es| == |introns|
  {
    if |introns| == 0 then []
    else
      var (start, end) := introns[|introns| - 1];
      IntronEvents(chrom, introns[..|introns| - 1]) + [(chrom, Key(chrom, start + 1, end))]
  }

  /** A read's events: none for a skipped read. */
  function ReadEvents(read: BamRead): seq<(string, string)>
  {
    if Kept(read) then IntronEvents(read.chrom, read.introns) else []
  }

  function BamEvents(records: seq<BamRead>): seq<(string, string)>
  {
    if |records| == 0 then [] else BamEvents(records[..|records| - 1]) + ReadEvents(records[|records| - 1])
  }

  /** The i-th event of a read names the i-th intron's 1-based key. */
  lemma {:induction false} IntronEventsAt(chrom: string, introns: seq<(int, int)>, i: nat)
    requires i < |introns|
    ensures IntronEvents(chrom, introns)[i] == (chrom, Key(chrom, introns[i].0 + 1, introns[i].1))
  {
    if i < |introns| - 1 {
      IntronEventsAt(chrom, introns[..|introns| - 1], i);
    }
  }

  /** A read with low mapping quality or a secondary alignment adds nothing. */
  lemma SkippedReadsAddNothing(records: seq<BamRead>, read: BamRead)
    requires !Kept(read)
    ensures BamEvents(records + [read]) == BamEvents(records)
  {
    assert (records + [read])[..|records|] == records;
  }

  lemma IntronEventsStep(chrom: string, introns: seq<(int, int)>, i: nat)
    requires i < |introns|
    ensures IntronEvents(chrom, introns[..i + 1])
            == IntronEvents(chrom, introns[..i]) + [(chrom, Key(chrom, introns[i].0 + 1, introns[i].1))]
  {
    assert introns[..i + 1][..i] == introns[..i];
  }

  lemma AppendStep(before: seq<(string, string)>, mid: seq<(string, string)>, e: (string, string))
    ensures CountEvents(before + (mid + [e])) == Bump(CountEvents(before + mid), e.0, e.1)
  {
    assert before + (mid + [e]) == (before + mid) + [e];
    CountEventsStep(before + mid, e.0, e.1);
  }

  lemma CountIntronStep(before: seq<(string, string)>, chrom: string, introns: seq<(int, int)>, i: nat)
    requires i < |introns|
    ensures CountEvents(before + IntronEvents(chrom, introns[..i + 1]))
            == Bump(CountEvents(before + IntronEvents(chrom, introns[..i])), chrom, Key(chrom, introns[i].0 + 1, introns[i].1))
  {
    IntronEventsStep(chrom, introns, i);
    AppendStep(before, IntronEvents(chrom, introns[..i]), (chrom, Key(chrom, introns[i].0 + 1, introns[i].1)));
  }

  /** `evaluate_introns_from_bam_file`, inner loop: count the introns of one kept read. */
  method CountReadIntrons(counter0: ChromCounter, ghost before: seq<(string, string)>, chrom: string, introns: seq<(int, int)>)
    returns (counter: ChromCounter)
    requires counter0 == CountEvents(before)
    ensures counter == CountEvents(before + IntronEvents(chrom, introns))
  {
    counter := counter0;
    var i := 0;
    assert introns[..0] == [];
    assert before + [] == before;
    while i < |introns|
      invariant 0 <= i <= |introns|
      invariant counter == CountEvents(before + IntronEvents(chrom, introns[..i]))
    {
      var (lend, rend) := introns[i];
      lend := lend + 1;
      var key := Key(chrom, lend, rend);
      CountIntronStep(before, chrom, introns, i);
      counter := Bump(counter, chrom, key);
      i := i + 1;
    }
    assert introns[..|introns|] == introns;
  }

  lemma BamEventsStep(records: seq<BamRead>, r: nat)
    requires r < |records|
    ensures BamEvents(records[..r + 1]) == BamEvents(records[..r]) + ReadEvents(records[r])
  {
    assert records[..r + 1][..r] == records[..r];
  }

  /** `evaluate_introns_from_bam_file`: count every intron of every kept read. */
  method EvaluateIntronsFromBam(records: seq<BamRead>) returns (counter: ChromCounter)
    ensures counter == CountEvents(BamEvents(records))
  {
    counter := ChromCounter(map[], []);
    var r := 0;
    while r < |records|
      invariant 0 <= r <= |records|
      invariant counter == CountEvents(BamEvents(records[..r]))
    {
      var read := records[r];
      BamEventsStep(records, r);
      if read.mappingQuality < MIN_MAPPING_QUALITY || read.isSecondary {
        assert BamEvents(records[..r]) + [] == BamEvents(records[..r]);
      } else {
        counter := CountReadIntrons(counter, BamEvents(records[..r]), read.chrom, read.introns);
      }
      r := r + 1;
    }
    assert records[..|records|] == records;
  }

  // ---------------------------------------------------------------------------------------
  // Counting from a text file of intron keys

  /** The events of the lines, or an error at the first line that does not match. */
  function FileEvents(lines: seq<string>): Result<seq<(string, string)>>
  {
    if |lines| == 0 then Success([])
    else
      match FileEvents(lines[..|lines| - 1])
      case Failure(e) => Failure(e)
      case Success(es) =>
        match MatchIntronLine(lines[|lines| - 1])
        case None => Failure("couldn't parse intron from line")
        case Some((chrom, token)) => Success(es + [(chrom, token)])
  }

  /** Reading fails exactly when some line does not match the intron pattern. */
  lemma {:induction false} FileEventsFailure(lines: seq<string>)
    ensures FileEvents(lines).Failure? <==> exists i :: 0 <= i < |lines| && MatchIntronLine(lines[i]).None?
    ensures FileEvents(lines).Success? ==> |FileEvents(lines).value| == |lines|
  {
    if |lines| > 0 {
      var front := lines[..|lines| - 1];
      FileEventsFailure(front);
      assert forall i :: 0 <= i < |front| ==> front[i] == lines[i];
      assert forall i :: 0 <= i < |lines| ==> i == |lines| - 1 || lines[i] == front[i];
    }
  }

  /** `capture_introns_from_file`: count the token of every line, raising on the first line
      that is not an intron key followed by whitespace. */
  method CaptureIntronsFromFile(lines: seq<string>) returns (r: Result<ChromCounter>)
    ensures FileEvents(lines).Failure? <==> r.Failure?
    ensures r.Success? ==> r.value == CountEvents(FileEvents(lines).value)
  {
    var counter := ChromCounter(map[], []);
    ghost var events: seq<(string, string)> := [];
    var n := 0;
    while n < |lines|
      invariant 0 <= n <= |lines|
      invariant FileEvents(lines[..n]) == Success(events)
      invariant counter == CountEvents(events)
    {
      assert lines[..n + 1][..n] == lines[..n];
      var m := MatchIntronLine(lines[n]);
      if m.None? {
        FileEventsPrefixFailure(lines, n + 1);
        return Failure("couldn't parse intron from line");
      }
      var (chrom, token) := m.value;
      CountEventsStep(events, chrom, token);
      counter := Bump(counter, chrom, token);
      events := events + [(chrom, token)];
      n := n + 1;
    }
    assert lines[..|lines|] == lines;
    return Success(counter);
  }

  lemma {:induction false} FileEventsPrefixFailure(lines: seq<string>, n: nat)
    requires n <= |lines| && FileEvents(lines[..n]).Failure?
    ensures FileEvents(lines).Failure?
    decreases |lines| - n
  {
    if n < |lines| {
      assert lines[..n + 1][..n] == lines[..n];
      FileEventsPrefixFailure(lines, n + 1);
    } else {
      assert lines[..n] == lines;
    }
  }

  // ---------------------------------------------------------------------------------------
  // The report

  /** One printed line: intron, splice pair, splice flag, count, genes (joined with ';' in
      the set's iteration order) and the catalog entry or "Cryptic". */
  datatype ReportRow = ReportRow(intron: string, splicePair: string, spliceFlag: string, count: nat,
                                 genes: set<string>, knownOrCryptic: string)

  /** The row of one intron, or None when its key does not split into `chrom:int-int`. */
  function IntronRow(key: string, count: nat, chromSeq: string, db: map<string, string>, exons: seq<Exon>): (row: Option<ReportRow>)
    ensures row.Some? ==> row.value.intron == key && row.value.count == count
  {
    match ParseKey(key)
    case None => None
    case Some((_, lend, rend)) =>
      var tok := SpliceToken(LeftDinuc(chromSeq, lend), RightDinuc(chromSeq, rend));
      Some(ReportRow(key, tok, SpliceFlag(tok), count, NearestGenes(exons, lend, rend), KnownOrCryptic(db, key)))
  }

  /** The rows of the given keys, in order; an unparsable key is an error. */
  function RowsFor(keys: seq<string>, counts: map<string, nat>, chromSeq: string, db: map<string, string>, exons: seq<Exon>)
    : (r: Result<seq<ReportRow>>)
    requires forall k :: k in keys ==> k in counts
    ensures r.Success? ==> |r.value| == |keys|
    ensures r.Success? ==> forall i :: 0 <= i < |keys| ==> r.value[i].intron == keys[i] && r.value[i].count == counts[keys[i]]
  {
    if |keys| == 0 then Success([])
    else
      var n := |keys| - 1;
      assert forall i :: 0 <= i < n ==> keys[..n][i] == keys[i];
      match RowsFor(keys[..n], counts, chromSeq, db, exons)
      case Failure(e) => Failure(e)
      case Success(rows) =>
        var key := keys[n];
        match IntronRow(key, counts[key], chromSeq, db, exons)
        case None => Failure("intron key does not have the form chrom:lend-rend")
        case Some(row) => Success(rows + [row])
  }

  /** The rows of one chromosome: its keys in sorted order. */
  function ChromRows(inner: Counter, chromSeq: string, db: map<string, string>, exons: seq<Exon>): Result<seq<ReportRow>>
    requires forall k :: k in inner.order ==> k in inner.counts
  {
    var keys := Sorting.SortStrings(inner.order);
    assert forall k :: k in keys ==> k in inner.order by {
      forall k | k in keys ensures k in inner.order {
        assert k in multiset(keys);
      }
    }
    RowsFor(keys, inner.counts, chromSeq, db, exons)
  }

  /** The report, one group of rows per chromosome in counter order: chromosomes with '_' in
      their name are skipped, and a chromosome missing from the genome is an error. */
  function Report(chroms: seq<string>, c: ChromCounter, genome: map<string, string>, db: map<string, string>, tree: ExonTree)
    : Result<seq<(string, seq<ReportRow>)>>
    requires WellFormed(c) && forall ch :: ch in chroms ==> ch in c.byChrom
  {
    if |chroms| == 0 then Success([])
    else
      match Report(chroms[..|chroms| - 1], c, genome, db, tree)
      case Failure(e) => Failure(e)
      case Success(groups) =>
        var chrom := chroms[|chroms| - 1];
        if '_' in chrom then Success(groups)
        else if chrom !in genome then Failure("chromosome is not in the genome")
        else
          match ChromRows(c.byChrom[chrom], genome[chrom], db, ExonsOn(tree, chrom))
          case Failure(e) => Failure(e)
          case Success(rows) => Success(groups + [(chrom, rows)])
  }

  /** The rows of a chromosome list each of its introns exactly once, in strictly increasing
      string order, with its count. */
  lemma ChromRowsSorted(inner: Counter, chromSeq: string, db: map<string, string>, exons: seq<Exon>)
    requires Distinct(inner.order) && forall k :: k in inner.counts <==> k in inner.order
    requires ChromRows(inner, chromSeq, db, exons).Success?
    ensures var rows := ChromRows(inner, chromSeq, db, exons).value;
      && |rows| == |inner.order|
      && (forall k :: k in inner.counts <==> exists i :: 0 <= i < |rows| && rows[i].intron == k)
      && (forall i :: 0 <= i < |rows| ==> rows[i].count == inner.counts[rows[i].intron])
      && (forall i, j :: 0 <= i < j < |rows| ==> LexLess(rows[i].intron, rows[j].intron))
  {
    var keys := Sorting.SortStrings(inner.order);
    var rows := ChromRows(inner, chromSeq, db, exons).value;
    assert |keys| == |inner.order| by {
      assert |multiset(keys)| == |multiset(inner.order)|;
    }
    forall k ensures k in inner.counts <==> exists i :: 0 <= i < |rows| && rows[i].intron == k {
      assert k in inner.order <==> k in multiset(keys);
      if k in keys {
        var i :| 0 <= i < |keys| && keys[i] == k;
        assert rows[i].intron == k;
      }
    }
    forall i, j | 0 <= i < j < |rows| ensures LexLess(rows[i].intron, rows[j].intron) {
      assert keys[i] != keys[j] by {
        DistinctMultiset(inner.order, keys, i, j);
      }
      assert !LexLess(keys[j], keys[i]);
      LexLessTotal(keys[i], keys[j]);
    }
  }

  lemma {:induction false} DistinctOnce(a: seq<string>, x: string)
    requires Distinct(a)
    ensures multiset(a)[x] <= 1
  {
    if |a| > 0 {
      var front := a[..|a| - 1];
      DistinctOnce(front, x);
      assert a == front + [a[|a| - 1]];
      assert a[|a| - 1] !in front;
    }
  }

  lemma TwiceCounted(b: seq<string>, i: nat, j: nat)
    requires i < j < |b|
    ensures b[i] == b[j] ==> multiset(b)[b[i]] >= 2
  {
    assert b == b[..i] + [b[i]] + b[i + 1..j] + [b[j]] + b[j + 1..];
  }

  /** A sequence with the same elements as a duplicate-free one has no duplicates either. */
  lemma DistinctMultiset(a: seq<string>, b: seq<string>, i: nat, j: nat)
    requires Distinct(a) && multiset(a) == multiset(b) && i < j < |b|
    ensures b[i] != b[j]
  {
    DistinctOnce(a, b[i]);
    TwiceCounted(b, i, j);
  }

  /** The chromosomes the report covers: those without '_', in order. */
  function MainChroms(chroms: seq<string>): (r: seq<string>)
    ensures forall ch :: ch in r <==> ch in chroms && '_' !in ch
  {
    if |chroms| == 0 then []
    else
      var ch := chroms[|chroms| - 1];
      MainChroms(chroms[..|chroms| - 1]) + (if '_' in ch then [] else [ch])
  }

  function GroupNames(groups: seq<(string, seq<ReportRow>)>): seq<string>
  {
    if |groups| == 0 then [] else GroupNames(groups[..|groups| - 1]) + [groups[|groups| - 1].0]
  }

  /** The report has one group per chromosome without '_', in counter order. */
  lemma {:induction false} ReportChroms(chroms: seq<string>, c: ChromCounter, genome: map<string, string>, db: map<string, string>, tree: ExonTree)
    requires WellFormed(c) && forall ch :: ch in chroms ==> ch in c.byChrom
    requires Report(chroms, c, genome, db, tree).Success?
    ensures GroupNames(Report(chroms, c, genome, db, tree).value) == MainChroms(chroms)
  {
    if |chroms| > 0 {
      var front := chroms[..|chroms| - 1];
      ReportChroms(front, c, genome, db, tree);
      var groups := Report(chroms, c, genome, db, tree).value;
      var before := Report(front, c, genome, db, tree).value;
      if '_' !in chroms[|chroms| - 1] {
        assert groups[..|groups| - 1] == before;
      }
    }
  }
}
