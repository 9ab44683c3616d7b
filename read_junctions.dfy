/** Introns read off spliced alignments: a read is the list of its aligned blocks
    (`read.get_blocks()`, 0-based half-open `(start, end)` pairs), and the gap between two
    consecutive blocks is the intron `chrom:(end_i + 1)-(start_{i+1})` in 1-based coordinates.
    Docker/intron_counter.py counts these introns per key; Docker/read_intron_labeler.py
    prints one (read name, intron) line per intron. Both ignore gaps shorter than
    MIN_INTRON_LEN. */
module ReadJunctions {
  import opened Text
  import opened IntronKeys
  import opened Seqs

  /** An aligned block as pysam reports it: 0-based start, exclusive end. */
  type Block = (int, int)

  /** The fields of an aligned read that the scripts use: its name, the name of the reference
      sequence it is aligned to, and its blocks. */
  datatype AlignedRead = AlignedRead(name: string, chrom: string, blocks: seq<Block>)

  const MIN_INTRON_LEN: int := 20

  /** The 1-based (lend, rend) of the gap between blocks i and i + 1. */
  function GapAt(blocks: seq<Block>, i: nat): (int, int)
    requires i + 1 < |blocks|
  {
    (blocks[i].1 + 1, blocks[i + 1].0)
  }

  predicate LongEnough(gap: (int, int))
  {
    gap.1 - gap.0 >= MIN_INTRON_LEN
  }

  /** A gap of exactly MIN_INTRON_LEN is kept and one base shorter is not. */
  lemma LongEnoughBoundary(lend: int)
    ensures LongEnough((lend, lend + MIN_INTRON_LEN))
    ensures !LongEnough((lend, lend + MIN_INTRON_LEN - 1))
  {
  }

  /** Keys of the qualifying gaps among the first n gaps of a read, in block order. */
  function GapKeys(chrom: string, blocks: seq<Block>, n: nat): seq<string>
    requires n < |blocks|
  {
    if n == 0 then []
    else
      var gap := GapAt(blocks, n - 1);
      GapKeys(chrom, blocks, n - 1) + (if LongEnough(gap) then [Key(chrom, gap.0, gap.1)] else [])
  }

  /** The introns a read contributes, in block order, repeats included; none for a read
      with fewer than two blocks. */
  function ReadIntrons(read: AlignedRead): seq<string>
  {
    if |read.blocks| < 2 then [] else GapKeys(read.chrom, read.blocks, |read.blocks| - 1)
  }

  /** The introns of all reads, read after read. */
  function AllIntrons(aligned: seq<AlignedRead>): seq<string>
  {
    if |aligned| == 0 then [] else AllIntrons(aligned[..|aligned| - 1]) + ReadIntrons(aligned[|aligned| - 1])
  }

  lemma {:induction false} GapKeysCharacterized(chrom: string, blocks: seq<Block>, n: nat, j: nat)
    requires n < |blocks| && j < |GapKeys(chrom, blocks, n)|
    ensures exists i :: 0 <= i < n && LongEnough(GapAt(blocks, i))
                        && GapKeys(chrom, blocks, n)[j] == Key(chrom, GapAt(blocks, i).0, GapAt(blocks, i).1)
  {
    if j < |GapKeys(chrom, blocks, n - 1)| {
      GapKeysCharacterized(chrom, blocks, n - 1, j);
    }
  }

  /** A key among the first n - 1 gaps' keys stays among the first n gaps' keys. */
  lemma GapKeysKeep(chrom: string, blocks: seq<Block>, n: nat, k: string)
    requires 0 < n < |blocks| && k in GapKeys(chrom, blocks, n - 1)
    ensures k in GapKeys(chrom, blocks, n)
  {
    var gap := GapAt(blocks, n - 1);
    GapKeysStep(chrom, blocks, n - 1);
    InAppend(GapKeys(chrom, blocks, n - 1), if LongEnough(gap) then [Key(chrom, gap.0, gap.1)] else [], k);
  }

  /** A long enough gap n - 1 adds its key. */
  lemma GapKeysLast(chrom: string, blocks: seq<Block>, n: nat, i: nat)
    requires 0 < n < |blocks| && i == n - 1 && LongEnough(GapAt(blocks, i))
    ensures Key(chrom, GapAt(blocks, i).0, GapAt(blocks, i).1) in GapKeys(chrom, blocks, n)
  {
    GapKeysStep(chrom, blocks, i);
  }

  lemma {:induction false} GapKeysComplete(chrom: string, blocks: seq<Block>, n: nat, i: nat)
    requires n < |blocks| && i < n && LongEnough(GapAt(blocks, i))
    ensures Key(chrom, GapAt(blocks, i).0, GapAt(blocks, i).1) in GapKeys(chrom, blocks, n)
  {
    if i < n - 1 {
      GapKeysComplete(chrom, blocks, n - 1, i);
      var k := Key(chrom, GapAt(blocks, i).0, GapAt(blocks, i).1);
      GapKeysKeep(chrom, blocks, n, k);
    } else {
      GapKeysLast(chrom, blocks, n, i);
    }
  }

  /** A key is among a read's introns exactly when some gap of the read is at least
      MIN_INTRON_LEN long and formats to that key. */
  lemma ReadIntronsCharacterized(read: AlignedRead, k: string)
    ensures k in ReadIntrons(read) <==>
      exists i :: 0 <= i < |read.blocks| - 1 && LongEnough(GapAt(read.blocks, i))
                  && k == Key(read.chrom, GapAt(read.blocks, i).0, GapAt(read.blocks, i).1)
  {
    if |read.blocks| >= 2 {
      var n := |read.blocks| - 1;
      if k in ReadIntrons(read) {
        var j :| 0 <= j < |GapKeys(read.chrom, read.blocks, n)| && GapKeys(read.chrom, read.blocks, n)[j] == k;
        GapKeysCharacterized(read.chrom, read.blocks, n, j);
      }
      if exists i :: 0 <= i < n && LongEnough(GapAt(read.blocks, i))
                     && k == Key(read.chrom, GapAt(read.blocks, i).0, GapAt(read.blocks, i).1) {
        var i :| 0 <= i < n && LongEnough(GapAt(read.blocks, i))
                 && k == Key(read.chrom, GapAt(read.blocks, i).0, GapAt(read.blocks, i).1);
        GapKeysComplete(read.chrom, read.blocks, n, i);
      }
    }
  }

  lemma {:induction false} GapKeysBound(chrom: string, blocks: seq<Block>, n: nat)
    requires n < |blocks|
    ensures |GapKeys(chrom, blocks, n)| <= n
  {
    if n > 0 { GapKeysBound(chrom, blocks, n - 1); }
  }

  /** The tally after seeing `seen`: each distinct key counted as often as it occurs, and
      the keys in the order they were first seen. */
  ghost predicate Tallied(counts: map<string, nat>, order: seq<string>, seen: seq<string>)
  {
    && (forall k :: k in counts <==> k in seen)
    && (forall k :: k in counts ==> counts[k] == multiset(seen)[k])
    && order == FirstSeen(seen)
  }

  lemma TallyStep(counts: map<string, nat>, order: seq<string>, seen: seq<string>, key: string)
    requires Tallied(counts, order, seen)
    ensures Tallied(counts[key := if key in counts then counts[key] + 1 else 1],
                    if key in counts then order else order + [key], seen + [key])
  {
    FirstSeenProperties(seen);
    var next := seen + [key];
    assert next[..|next| - 1] == seen;
  }

  lemma GapKeysStep(chrom: string, blocks: seq<Block>, i: nat)
    requires i + 1 < |blocks|
    ensures GapKeys(chrom, blocks, i + 1)
            == GapKeys(chrom, blocks, i) + (if LongEnough(GapAt(blocks, i)) then [Key(chrom, GapAt(blocks, i).0, GapAt(blocks, i).1)] else [])
  {
  }

  lemma AllIntronsStep(aligned: seq<AlignedRead>, r: nat)
    requires r < |aligned|
    ensures AllIntrons(aligned[..r + 1]) == AllIntrons(aligned[..r]) + ReadIntrons(aligned[r])
  {
    assert aligned[..r + 1][..r] == aligned[..r];
  }

  /** `intron_counter[intron_key] += 1` on the defaultdict, whose keys keep the order they
      were added in. */
  method CountKey(counts0: map<string, nat>, order0: seq<string>, ghost seen0: seq<string>, key: string)
    returns (counts: map<string, nat>, order: seq<string>, ghost seen: seq<string>)
    requires Tallied(counts0, order0, seen0)
    ensures seen == seen0 + [key]
    ensures Tallied(counts, order, seen)
  {
    TallyStep(counts0, order0, seen0, key);
    order := if key in counts0 then order0 else order0 + [key];
    counts := counts0[key := if key in counts0 then counts0[key] + 1 else 1];
    seen := seen0 + [key];
  }

  /** Docker/intron_counter.py, inner loop: tally the qualifying gaps of one read. */
  method CountRead(read: AlignedRead, counts0: map<string, nat>, order0: seq<string>, ghost seen0: seq<string>)
    returns (counts: map<string, nat>, order: seq<string>, ghost seen: seq<string>)
    requires Tallied(counts0, order0, seen0)
    ensures seen == seen0 + ReadIntrons(read)
    ensures Tallied(counts, order, seen)
  {
    counts, order, seen := counts0, order0, seen0;
    if |read.blocks| >= 2 {
      var i := 0;
      while i < |read.blocks| - 1
        invariant 0 <= i <= |read.blocks| - 1
        invariant seen == seen0 + GapKeys(read.chrom, read.blocks, i)
        invariant Tallied(counts, order, seen)
      {
        GapKeysStep(read.chrom, read.blocks, i);
        var lend := read.blocks[i].1 + 1;
        var rend := read.blocks[i + 1].0;
        if rend - lend >= MIN_INTRON_LEN {
          counts, order, seen := CountKey(counts, order, seen, Key(read.chrom, lend, rend));
        }
        i := i + 1;
      }
    }
  }

  /** Docker/intron_counter.py, outer loop: tally every read's qualifying gaps. */
  method TallyReads(aligned: seq<AlignedRead>) returns (counts: map<string, nat>, order: seq<string>)
    ensures Tallied(counts, order, AllIntrons(aligned))
  {
    counts := map[];
    order := [];
    ghost var seen: seq<string> := [];
    var r := 0;
    while r < |aligned|
      invariant 0 <= r <= |aligned|
      invariant seen == AllIntrons(aligned[..r])
      invariant Tallied(counts, order, seen)
    {
      AllIntronsStep(aligned, r);
      counts, order, seen := CountRead(aligned[r], counts, order, seen);
      r := r + 1;
    }
    assert aligned[..|aligned|] == aligned;
  }

  /** Docker/intron_counter.py, report loop: one `sample, intron, count` line per key of
      `order`, in turn. */
  method ReportCounts(sample: string, counts: map<string, nat>, order: seq<string>) returns (lines: seq<seq<string>>)
    requires forall k :: k in order ==> k in counts
    ensures |lines| == |order|
    ensures forall i :: 0 <= i < |lines| ==> lines[i] == [sample, order[i], NatToString(counts[order[i]])]
  {
    lines := [];
    var j := 0;
    while j < |order|
      invariant 0 <= j <= |order|
      invariant |lines| == j
      invariant forall i :: 0 <= i < j ==> lines[i] == [sample, order[i], NatToString(counts[order[i]])]
    {
      lines := lines + [[sample, order[j], NatToString(counts[order[j]])]];
      j := j + 1;
    }
  }

  /** Docker/intron_counter.py: count every qualifying gap of every read under its key, then
      print one `sample, intron, count` line per distinct key, in first-seen order. */
  method CountIntrons(sample: string, aligned: seq<AlignedRead>) returns (counts: map<string, nat>, lines: seq<seq<string>>)
    ensures forall k :: k in counts <==> k in AllIntrons(aligned)
    ensures forall k :: k in counts ==> counts[k] == multiset(AllIntrons(aligned))[k]
    ensures |lines| == |FirstSeen(AllIntrons(aligned))|
    ensures forall i :: 0 <= i < |lines| ==>
      var k := FirstSeen(AllIntrons(aligned))[i];
      k in counts && lines[i] == [sample, k, NatToString(counts[k])]
  {
    var order;
    counts, order := TallyReads(aligned);
    FirstSeenProperties(AllIntrons(aligned));
    lines := ReportCounts(sample, counts, order);
  }

  /** One (read name, intron) pair per key, in order. */
  function NameEach(name: string, keys: seq<string>): (r: seq<(string, string)>)
    ensures |r| == |keys|
    ensures forall i :: 0 <= i < |r| ==> r[i] == (name, keys[i])
  {
    if |keys| == 0 then [] else NameEach(name, keys[..|keys| - 1]) + [(name, keys[|keys| - 1])]
  }

  /** The lines Docker/read_intron_labeler.py prints: for each read, one (read name, intron)
      pair per qualifying gap, in block order. */
  function Labels(aligned: seq<AlignedRead>): seq<(string, string)>
  {
    if |aligned| == 0 then []
    else
      var read := aligned[|aligned| - 1];
      Labels(aligned[..|aligned| - 1]) + NameEach(read.name, ReadIntrons(read))
  }

  lemma NameEachStep(name: string, keys: seq<string>, key: string)
    ensures NameEach(name, keys + [key]) == NameEach(name, keys) + [(name, key)]
  {
    var next := keys + [key];
    assert next[..|next| - 1] == keys;
  }

  /** Docker/read_intron_labeler.py, inner loop: the lines for one read. */
  method LabelRead(read: AlignedRead) returns (lines: seq<(string, string)>)
    ensures lines == NameEach(read.name, ReadIntrons(read))
  {
    lines := [];
    if |read.blocks| >= 2 {
      var i := 0;
      while i < |read.blocks| - 1
        invariant 0 <= i <= |read.blocks| - 1
        invariant lines == NameEach(read.name, GapKeys(read.chrom, read.blocks, i))
      {
        GapKeysStep(read.chrom, read.blocks, i);
        var lend := read.blocks[i].1 + 1;
        var rend := read.blocks[i + 1].0;
        if rend - lend >= MIN_INTRON_LEN {
          var key := Key(read.chrom, lend, rend);
          NameEachStep(read.name, GapKeys(read.chrom, read.blocks, i), key);
          lines := lines + [(read.name, key)];
        }
        i := i + 1;
      }
    }
  }

  /** Docker/read_intron_labeler.py's loop: no state is carried from one read to the next. */
  method LabelReads(aligned: seq<AlignedRead>) returns (lines: seq<(string, string)>)
    ensures lines == Labels(aligned)
  {
    lines := [];
    var r := 0;
    while r < |aligned|
      invariant 0 <= r <= |aligned|
      invariant lines == Labels(aligned[..r])
    {
      assert aligned[..r + 1][..r] == aligned[..r];
      var more := LabelRead(aligned[r]);
      lines := lines + more;
      r := r + 1;
    }
    assert aligned[..|aligned|] == aligned;
  }

  /** The labeller and the counter see the same introns: the intron column of the labeller's
      output is exactly the sequence the counter tallies, so each count is the number of
      labelled lines carrying that intron. */
  lemma {:induction false} LabelsMatchCountedIntrons(aligned: seq<AlignedRead>)
    ensures |Labels(aligned)| == |AllIntrons(aligned)|
    ensures forall i :: 0 <= i < |Labels(aligned)| ==> Labels(aligned)[i].1 == AllIntrons(aligned)[i]
  {
    if |aligned| > 0 {
      LabelsMatchCountedIntrons(aligned[..|aligned| - 1]);
    }
  }

  /** Labelling a concatenation of read streams concatenates their labels. */
  lemma {:induction false} LabelsConcat(a: seq<AlignedRead>, b: seq<AlignedRead>)
    ensures Labels(a + b) == Labels(a) + Labels(b)
  {
    if |b| > 0 {
      assert (a + b)[..|a + b| - 1] == a + b[..|b| - 1];
      LabelsConcat(a, b[..|b| - 1]);
    } else {
      assert a + b == a;
    }
  }
}
