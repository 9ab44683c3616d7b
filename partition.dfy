/** partition_intron_features.py: the intron features list is cut into files of
    `num_features_per_interval` lines each, in order; file number k starts at line k·n, is
    named `introns.{k·n}.txt` and lives in the sub-directory `ibin_{k div 100}` of the output
    directory. */
module PartitionIntronFeatures {
  import opened Wrappers
  import opened Text

  const USAGE_ERROR: string := "usage: intron_features.list.file num_features_per_interval output_directory files_per_bin"
  const VALUE_ERROR: string := "ValueError: invalid literal for int() with base 10"
  const ZERO_DIVISION_ERROR: string := "ZeroDivisionError: integer modulo by zero"

  /** The number of files per `ibin_` directory: the argument is read, then overwritten. */
  const FILES_PER_BIN: nat := 100

  /** One output file: the `ibin_` directory it is in, the line counter it is named after,
      and the lines written to it. */
  datatype Chunk = Chunk(bin: nat, first: nat, lines: seq<string>)

  /** `os.path.join(a, b)` for a relative `b`. */
  function PathJoin(a: string, b: string): (r: string)
    ensures EndsWith(r, b)
  {
    if a == "" then b else if a[|a| - 1] == '/' then a + b else a + "/" + b
  }

  /** The file opened as the `fileCounter`-th one, at line `featureCounter`. */
  function NewChunk(fileCounter: nat, featureCounter: nat): Chunk
  {
    Chunk(fileCounter / FILES_PER_BIN, featureCounter, [])
  }

  /** The path of a file under the output directory. */
  function ChunkPath(outDir: string, c: Chunk): string
  {
    PathJoin(PathJoin(outDir, "ibin_" + NatToString(c.bin)), "introns." + NatToString(c.first) + ".txt")
  }

  /** A negative `num_features_per_interval` divides the same counters as its absolute
      value, since only whether the remainder is zero matters. */
  function Width(n: int): nat
  {
    if n < 0 then -n else n
  }

  function Min(a: int, b: int): int
  {
    if a < b then a else b
  }

  /** How many files `count` lines fill, `m` to a file. */
  function NumChunks(count: nat, m: nat): nat
    requires m > 0
  {
    if count == 0 then 0 else (count - 1) / m + 1
  }

  /** File k: opened at line k·m, holding the next m lines or what is left of them. */
  function ChunkAt(lines: seq<string>, m: nat, k: nat): Chunk
  {
    var start := Min(k * m, |lines|);
    NewChunk(k, k * m).(lines := lines[start..Min(start + m, |lines|)])
  }

  /** The files the loop writes: none for an empty list, a ZeroDivisionError for a zero
      interval on a non-empty list, and otherwise files 0 .. NumChunks - 1. */
  function Partition(lines: seq<string>, n: int): Result<seq<Chunk>>
  {
    if n == 0 then (if |lines| == 0 then Success([]) else Failure(ZERO_DIVISION_ERROR))
    else Success(seq(NumChunks(|lines|, Width(n)), k requires 0 <= k => ChunkAt(lines, Width(n), k)))
  }

  // ---------------------------------------------------------------------------------------
  // Arithmetic of the counters

  lemma MulMono(k: nat, j: nat, m: nat)
    requires k <= j
    ensures k * m <= j * m
  {
    assert j * m == k * m + (j - k) * m;
  }

  /** A larger factor gives a product larger by at least one more m. */
  lemma MulStep(a: int, b: int, m: nat)
    ensures a < b ==> a * m + m <= b * m
  {
    if a < b {
      assert b * m == a * m + (b - a) * m;
      MulMono(1, b - a, m);
    }
  }

  /** Quotient and remainder are the only ones: i = q·m + r with 0 <= r < m fixes both. */
  lemma DivModUnique(i: int, m: nat, q: int, r: int)
    requires m > 0 && 0 <= r < m && i == q * m + r
    ensures i / m == q && i % m == r
  {
    var q0, r0 := i / m, i % m;
    assert i == q0 * m + r0 && 0 <= r0 < m;
    MulStep(q0, q, m);
    MulStep(q, q0, m);
  }

  /** A counter at a file boundary has filled exactly NumChunks files. */
  lemma AtBoundary(i: nat, m: nat)
    requires m > 0 && i % m == 0
    ensures NumChunks(i, m) * m == i
    ensures NumChunks(i + 1, m) == NumChunks(i, m) + 1
  {
    var q := i / m;
    assert i == q * m + i % m;
    if m == 1 {
      assert NumChunks(i, m) == i;
    } else {
      DivModUnique(i + 1, m, q, 1);
    }
    if i > 0 {
      assert q >= 1;
      assert i - 1 == (q - 1) * m + (m - 1);
      DivModUnique(i - 1, m, q - 1, m - 1);
    }
  }

  /** A counter inside a file is in the last file opened. */
  lemma InsideChunk(i: nat, m: nat)
    requires m > 0 && i % m != 0
    ensures NumChunks(i, m) >= 1
    ensures (NumChunks(i, m) - 1) * m < i < (NumChunks(i, m) - 1) * m + m
    ensures NumChunks(i + 1, m) == NumChunks(i, m)
  {
    var q, r := i / m, i % m;
    assert i == q * m + r && 0 < r < m;
    DivModUnique(i - 1, m, q, r - 1);
    DivModUnique(i, m, q, r);
  }

  /** Adding a line leaves every file that ends at or before it unchanged. */
  lemma EarlierChunkKept(lines: seq<string>, i: nat, m: nat, k: nat)
    requires i < |lines| && k * m + m <= i
    ensures ChunkAt(lines[..i + 1], m, k) == ChunkAt(lines[..i], m, k)
  {
    assert lines[..i + 1][k * m..k * m + m] == lines[..i][k * m..k * m + m];
  }

  // ---------------------------------------------------------------------------------------
  // The loop of `main`

  /** The files written once the first `count` lines are: as many as they fill, each what
      `ChunkAt` says. */
  ghost predicate ChunksUpTo(lines: seq<string>, m: nat, count: nat, chunks: seq<Chunk>)
    requires m > 0 && count <= |lines|
  {
    |chunks| == NumChunks(count, m) && forall k :: 0 <= k < |chunks| ==> chunks[k] == ChunkAt(lines[..count], m, k)
  }

  /** `fh.write(line)` to the current file, the last one opened. */
  function WriteLine(chunks: seq<Chunk>, line: string): seq<Chunk>
    requires |chunks| > 0
  {
    chunks[..|chunks| - 1] + [chunks[|chunks| - 1].(lines := chunks[|chunks| - 1].lines + [line])]
  }

  /** The file opened at counter i holds line i first. */
  lemma FirstLineOfChunk(lines: seq<string>, i: nat, m: nat, k: nat)
    requires m > 0 && i < |lines| && k * m == i
    ensures ChunkAt(lines[..i + 1], m, k) == NewChunk(k, i).(lines := [lines[i]])
  {
    assert lines[..i + 1][i..i + 1] == [lines[i]];
  }

  /** Opening a file and writing to it adds one file holding the line. */
  lemma WriteToNew(chunks: seq<Chunk>, c: Chunk, line: string)
    ensures WriteLine(chunks + [c], line) == chunks + [c.(lines := c.lines + [line])]
  {
    assert (chunks + [c])[..|chunks|] == chunks;
  }

  /** At a boundary a new file is opened and gets the line. */
  lemma OpenNext(lines: seq<string>, i: nat, m: nat, chunks: seq<Chunk>)
    requires m > 0 && i < |lines| && i % m == 0 && ChunksUpTo(lines, m, i, chunks)
    ensures ChunksUpTo(lines, m, i + 1, WriteLine(chunks + [NewChunk(|chunks|, i)], lines[i]))
  {
    AtBoundary(i, m);
    WriteToNew(chunks, NewChunk(|chunks|, i), lines[i]);
    var next := chunks + [NewChunk(|chunks|, i).(lines := [lines[i]])];
    FirstLineOfChunk(lines, i, m, |chunks|);
    forall k | 0 <= k < |next| ensures next[k] == ChunkAt(lines[..i + 1], m, k) {
      if k < |chunks| {
        MulStep(k, |chunks|, m);
        EarlierChunkKept(lines, i, m, k);
      }
    }
    assert |next| == NumChunks(i + 1, m);
    assert ChunksUpTo(lines, m, i + 1, next);
  }

  /** The line at counter i, inside file k, is appended to that file. */
  lemma LastChunkGrows(lines: seq<string>, i: nat, m: nat, k: nat)
    requires m > 0 && i < |lines| && k * m < i < k * m + m
    ensures ChunkAt(lines[..i + 1], m, k) == ChunkAt(lines[..i], m, k).(lines := ChunkAt(lines[..i], m, k).lines + [lines[i]])
  {
    var start := k * m;
    assert lines[..i + 1][start..i + 1] == lines[start..i + 1];
    assert lines[..i][start..i] == lines[start..i];
    assert lines[start..i + 1] == lines[start..i] + [lines[i]];
  }

  /** Inside a file the line goes to the file already open. */
  lemma ExtendNext(lines: seq<string>, i: nat, m: nat, chunks: seq<Chunk>)
    requires m > 0 && i < |lines| && i % m != 0 && ChunksUpTo(lines, m, i, chunks)
    ensures |chunks| > 0 && ChunksUpTo(lines, m, i + 1, WriteLine(chunks, lines[i]))
  {
    InsideChunk(i, m);
    var last := |chunks| - 1;
    var next := WriteLine(chunks, lines[i]);
    assert |next| == |chunks|;
    forall k | 0 <= k < |next| ensures next[k] == ChunkAt(lines[..i + 1], m, k) {
      if k < last {
        assert next[k] == chunks[k];
        MulStep(k, last, m);
        EarlierChunkKept(lines, i, m, k);
      } else {
        assert next[k] == chunks[last].(lines := chunks[last].lines + [lines[i]]);
        LastChunkGrows(lines, i, m, last);
      }
    }
  }

  /** The loop over the list: a new file whenever the line counter is a multiple of the
      interval, then the line written to the current file. */
  method PartitionLines(lines: seq<string>, n: int) returns (r: Result<seq<Chunk>>)
    ensures r == Partition(lines, n)
  {
    if |lines| > 0 && n == 0 {
      return Failure(ZERO_DIVISION_ERROR);
    }
    if n == 0 {
      return Success([]);
    }
    var m := Width(n);
    var chunks: seq<Chunk> := [];
    var featureCounter := 0;
    var fileCounter := 0;
    while featureCounter < |lines|
      invariant 0 <= featureCounter <= |lines|
      invariant fileCounter == |chunks|
      invariant ChunksUpTo(lines, m, featureCounter, chunks)
    {
      var i := featureCounter;
      assert i % n == 0 <==> i % m == 0;
      if i % n == 0 {
        OpenNext(lines, i, m, chunks);
        chunks := chunks + [NewChunk(fileCounter, featureCounter)];
        fileCounter := fileCounter + 1;
      } else {
        ExtendNext(lines, i, m, chunks);
      }
      var current := chunks[|chunks| - 1];
      chunks := chunks[..|chunks| - 1] + [current.(lines := current.lines + [lines[i]])];
      featureCounter := featureCounter + 1;
    }
    assert lines[..|lines|] == lines;
    PartitionIs(lines, n, chunks);
    return Success(chunks);
  }

  lemma PartitionIs(lines: seq<string>, n: int, chunks: seq<Chunk>)
    requires n != 0 && |chunks| == NumChunks(|lines|, Width(n))
    requires forall k :: 0 <= k < |chunks| ==> chunks[k] == ChunkAt(lines, Width(n), k)
    ensures Partition(lines, n) == Success(chunks)
  {
    var expected := Partition(lines, n).value;
    assert |expected| == |chunks|;
    forall k | 0 <= k < |chunks| ensures expected[k] == chunks[k] {
    }
    assert expected == chunks;
  }

  // ---------------------------------------------------------------------------------------
  // What the files hold

  /** All files' lines, one file after another. */
  function Concat(chunks: seq<Chunk>): seq<string>
  {
    if |chunks| == 0 then [] else Concat(chunks[..|chunks| - 1]) + chunks[|chunks| - 1].lines
  }

  /** File k of a list of `count` lines starts inside the list, and the last file reaches
      its end. */
  lemma ChunkBounds(count: nat, m: nat, k: nat)
    requires m > 0 && k < NumChunks(count, m)
    ensures k * m < count
    ensures k + 1 == NumChunks(count, m) ==> count <= k * m + m
  {
    var q := (count - 1) / m;
    assert count - 1 == q * m + (count - 1) % m;
    MulMono(k, q, m);
  }

  /** The first j files hold exactly the first j·m lines, or all of them. */
  lemma {:induction false} ConcatPrefix(lines: seq<string>, m: nat, cs: seq<Chunk>)
    requires m > 0 && |cs| <= NumChunks(|lines|, m)
    requires forall k :: 0 <= k < |cs| ==> cs[k] == ChunkAt(lines, m, k)
    ensures Concat(cs) == lines[..Min(|cs| * m, |lines|)]
  {
    var j := |cs|;
    if j > 0 {
      var front := cs[..j - 1];
      ConcatPrefix(lines, m, front);
      var start := (j - 1) * m;
      ChunkBounds(|lines|, m, j - 1);
      var end := Min(start + m, |lines|);
      assert cs[j - 1].lines == lines[start..end];
      assert Concat(front) == lines[..start];
      MulSucc(j, m);
      assert lines[..end] == lines[..start] + lines[start..end];
    }
  }

  lemma MulSucc(j: int, m: int)
    ensures j * m == (j - 1) * m + m
  {
  }

  /** Every line of the list is written exactly once, unchanged and in order. */
  lemma PartitionWritesEveryLine(lines: seq<string>, n: int)
    requires Partition(lines, n).Success?
    ensures Concat(Partition(lines, n).value) == lines
  {
    if n != 0 {
      var m := Width(n);
      var cs := Partition(lines, n).value;
      assert forall k :: 0 <= k < |cs| ==> cs[k] == ChunkAt(lines, m, k);
      ConcatPrefix(lines, m, cs);
      if |cs| > 0 {
        ChunkBounds(|lines|, m, |cs| - 1);
        MulSucc(|cs|, m);
        assert |lines| <= |cs| * m;
      }
      assert lines[..Min(|cs| * m, |lines|)] == lines;
    }
  }

  /** The quotient of a line number names a file of the list. */
  lemma LineChunkIndex(i: nat, m: nat, count: nat)
    requires m > 0 && i < count
    ensures i / m < NumChunks(count, m)
    ensures i == (i / m) * m + i % m && 0 <= i % m < m
  {
    var q := (count - 1) / m;
    assert count - 1 == q * m + (count - 1) % m;
    MulStep(q, i / m, m);
  }

  /** Line i falls in file i div m, at position i mod m. */
  lemma ChunkHoldsLine(lines: seq<string>, m: nat, i: nat)
    requires m > 0 && i < |lines|
    ensures i / m < NumChunks(|lines|, m)
    ensures var c := ChunkAt(lines, m, i / m); i % m < |c.lines| && c.lines[i % m] == lines[i]
  {
    LineChunkIndex(i, m, |lines|);
    var k, r := i / m, i % m;
    var start := k * m;
    var c := ChunkAt(lines, m, k);
    assert c.lines == lines[start..Min(start + m, |lines|)];
  }

  /** Line i is line i mod m of file i div m, which is named after line (i div m)·m and
      lies in `ibin_{(i div m) div 100}`. */
  lemma PartitionPlacesLine(lines: seq<string>, n: int, i: nat)
    requires n != 0 && i < |lines|
    ensures var chunks := Partition(lines, n).value;
      var m := Width(n);
      i / m < |chunks| && i % m < |chunks[i / m].lines|
      && chunks[i / m].lines[i % m] == lines[i]
      && chunks[i / m].bin == (i / m) / FILES_PER_BIN && chunks[i / m].first == (i / m) * m
  {
    var m := Width(n);
    ChunkHoldsLine(lines, m, i);
    var chunks := Partition(lines, n).value;
    assert chunks[i / m] == ChunkAt(lines, m, i / m);
  }

  /** No file holds more than m lines, and none is empty. */
  lemma PartitionChunkSizes(lines: seq<string>, n: int, k: nat)
    requires n != 0 && k < |Partition(lines, n).value|
    ensures 0 < |Partition(lines, n).value[k].lines| <= Width(n)
  {
    ChunkBounds(|lines|, Width(n), k);
  }

  // ---------------------------------------------------------------------------------------
  // The command line

  /** A file as written: its path under the output directory and its lines. */
  datatype OutFile = OutFile(path: string, lines: seq<string>)

  function Files(outDir: string, chunks: seq<Chunk>): (files: seq<OutFile>)
    ensures |files| == |chunks|
  {
    seq(|chunks|, k requires 0 <= k < |chunks| => OutFile(ChunkPath(outDir, chunks[k]), chunks[k].lines))
  }

  /** `main`: at least four arguments after the script name, the two numeric ones parsed
      with `int()` (the files-per-bin value is parsed and then ignored), then the loop. */
  function PartitionRun(argv: seq<string>, lines: seq<string>): Result<seq<OutFile>>
  {
    if |argv| < 5 then Failure(USAGE_ERROR)
    else
      match (ParseInt(argv[2]), ParseInt(argv[4]))
      case (Some(n), Some(_)) =>
        (match Partition(lines, n)
         case Failure(e) => Failure(e)
         case Success(chunks) => Success(Files(argv[3], chunks)))
      case _ => Failure(VALUE_ERROR)
  }

  /** The status the script exits with: 0 after the loop, 1 after the usage message or an
      uncaught exception. */
  function ExitStatus<T>(r: Result<T>): nat
  {
    if r.Success? then 0 else 1
  }

  /** Fewer than four arguments: exit status 1 and no files. */
  lemma UsageExits(argv: seq<string>, lines: seq<string>)
    requires |argv| < 5
    ensures ExitStatus(PartitionRun(argv, lines)) == 1 && PartitionRun(argv, lines) == Failure(USAGE_ERROR)
  {
  }

  /** The files-per-bin argument changes nothing once it parses. */
  lemma FilesPerBinIgnored(argv: seq<string>, lines: seq<string>, other: string)
    requires |argv| >= 5 && ParseInt(argv[4]).Some? && ParseInt(other).Some?
    ensures PartitionRun(argv[4 := other], lines) == PartitionRun(argv, lines)
  {
  }

  method PartitionIntronFeatures(argv: seq<string>, lines: seq<string>) returns (r: Result<seq<OutFile>>)
    ensures r == PartitionRun(argv, lines)
  {
    if |argv| < 5 {
      return Failure(USAGE_ERROR);
    }
    var n := ParseInt(argv[2]);
    var perBin := ParseInt(argv[4]);
    if n.None? || perBin.None? {
      return Failure(VALUE_ERROR);
    }
    var chunks := PartitionLines(lines, n.value);
    if chunks.Failure? {
      return Failure(chunks.error);
    }
    return Success(Files(argv[3], chunks.value));
  }
}
