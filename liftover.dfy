/** util/b38_to_hg19_intron_coord_converter.py: copy the header of a cancer introns table,
    then rewrite the `chrom:lend-rend` key of each row with coordinates lifted over to the
    other assembly, dropping the rows that do not lift over to the same chromosome. */
module LiftOverConverter {
  import opened Wrappers
  import opened Text
  import opened IntronKeys
  import opened Seqs

  const USAGE_ERROR: string := "usage: cancer_introns.b38.annot_ready.tsv hg38ToHg19.over.chain.gz"
  const STOP_ITERATION: string := "StopIteration: the cancer introns file has no header line"
  const KEY_ERROR: string := "ValueError: the intron is not chrom:lend-rend"

  /** The chain file the converter loads, whatever its second argument says. */
  const CHAIN_FILE: string := "hg38ToHg19.over.chain.gz"

  /** A lifted position: the chromosome and the 0-based coordinate. */
  datatype Hit = Hit(chrom: string, pos: int)

  /** `LiftOver(chain).convert_coordinate(chrom, pos)`: the hits, best first; an unknown
      chromosome (None) and a position with no mapping ([]) are both an empty list here,
      since the converter only tests them for truth. */
  type LiftOver = (string, int) -> seq<Hit>

  /** What becomes of one row. */
  datatype Outcome =
    | Converted(line: string)
    | Unmapped
    | Mismatch(message: string)

  /** The stderr message for a row whose ends lift to different chromosomes. */
  function MismatchMessage(line: string, l: Hit, r: Hit): string
  {
    "-failed conversion of " + line + "  --> " + l.chrom + " " + IntToString(l.pos + 1) + ", "
    + r.chrom + " " + IntToString(r.pos + 1) + "\n"
  }

  /** The lifted key: the original chromosome and the two lifted 1-based ends, smaller
      first. */
  function LiftedKey(chrom: string, lp: int, rp: int): string
  {
    if lp > rp then Key(chrom, rp, lp) else Key(chrom, lp, rp)
  }

  /** A row whose key parsed as `chrom`, `lend`, `rend`, with the other columns `rest`:
      both ends lifted at their 0-based positions, then dropped, reported or rewritten. */
  function LiftRow(text: string, chrom: string, lend: int, rend: int, rest: seq<string>, lift: LiftOver): Outcome
  {
    var newL := lift(chrom, lend - 1);
    var newR := lift(chrom, rend - 1);
    if |newL| == 0 || |newR| == 0 then Unmapped
    else if newL[0].chrom != newR[0].chrom || newL[0].chrom != chrom then
      Mismatch(MismatchMessage(text, newL[0], newR[0]))
    else
      Converted(Join([LiftedKey(chrom, newL[0].pos + 1, newR[0].pos + 1)] + rest, "\t"))
  }

  /** One row of the loop: the stripped line split on tabs and its key taken apart. */
  function ConvertLine(line: string, lift: LiftOver): Result<Outcome>
  {
    var text := RStrip(line);
    var vals := Split(text, '\t');
    match ParseKey(vals[0])
    case None => Failure(KEY_ERROR)
    case Some((chrom, lend, rend)) => Success(LiftRow(text, chrom, lend, rend, vals[1..], lift))
  }

  /** What the script prints: stdout lines (without their line breaks) and stderr text. */
  datatype Report = Report(out: seq<string>, err: seq<string>)

  /** Where a row's outcome goes: a converted row to standard output, a mismatch report to
      standard error, an unmapped row nowhere. */
  function Record(rep: Report, o: Outcome): Report
  {
    match o
    case Converted(t) => rep.(out := rep.out + [t])
    case Unmapped => rep
    case Mismatch(m) => rep.(err := rep.err + [m])
  }

  function ConvertLines(lines: seq<string>, lift: LiftOver): Result<Report>
  {
    if |lines| == 0 then Success(Report([], []))
    else
      match ConvertLines(lines[..|lines| - 1], lift)
      case Failure(e) => Failure(e)
      case Success(rep) =>
        match ConvertLine(lines[|lines| - 1], lift)
        case Failure(e) => Failure(e)
        case Success(o) => Success(Record(rep, o))
  }

  /** `main`: at least two arguments after the script name; the lift-over is built from
      the fixed chain file; the header is printed stripped, then the rows. */
  function ConvertRun(argv: seq<string>, lines: seq<string>, chains: string -> LiftOver): Result<Report>
  {
    if |argv| < 3 then Failure(USAGE_ERROR)
    else if |lines| == 0 then Failure(STOP_ITERATION)
    else
      match ConvertLines(lines[1..], chains(CHAIN_FILE))
      case Failure(e) => Failure(e)
      case Success(rep) => Success(rep.(out := [RStrip(lines[0])] + rep.out))
  }

  // ---------------------------------------------------------------------------------------
  // What a row becomes

  /** A row is dropped silently exactly when one of its ends has no lifted position, and
      reported exactly when both lift but not both to the row's own chromosome. */
  lemma OutcomeCharacterized(text: string, chrom: string, lend: int, rend: int, rest: seq<string>, lift: LiftOver)
    ensures var newL, newR := lift(chrom, lend - 1), lift(chrom, rend - 1);
      var o := LiftRow(text, chrom, lend, rend, rest, lift);
      && (o.Unmapped? <==> |newL| == 0 || |newR| == 0)
      && (o.Mismatch? <==> |newL| > 0 && |newR| > 0 && (newL[0].chrom != chrom || newR[0].chrom != chrom))
  {
  }

  /** A key built from a chromosome without tabs holds no tab. */
  lemma KeyHasNoTab(chrom: string, a: int, b: int)
    requires '\t' !in chrom
    ensures '\t' !in Key(chrom, a, b)
  {
    IntToStringHasNo(a, '\t');
    IntToStringHasNo(b, '\t');
    var k := Key(chrom, a, b);
    forall i | 0 <= i < |k| ensures k[i] != '\t' {
      var head := chrom + ":" + IntToString(a);
      assert k == head + "-" + IntToString(b);
      if i < |head| {
        assert k[i] == head[i];
        if i < |chrom| { assert head[i] == chrom[i]; }
        else if i > |chrom| { assert head[i] == IntToString(a)[i - |chrom| - 1]; }
      } else if i > |head| {
        assert k[i] == IntToString(b)[i - |head| - 1];
      }
    }
  }

  /** A rewritten row keeps every column but the first, and its first column is a key on
      the row's chromosome whose ends are the lifted ends plus one, smaller first. */
  lemma ConvertedColumns(text: string, chrom: string, lend: int, rend: int, rest: seq<string>, lift: LiftOver)
    requires LiftRow(text, chrom, lend, rend, rest, lift).Converted?
    requires '\t' !in chrom && forall i :: 0 <= i < |rest| ==> '\t' !in rest[i]
    ensures var lp, rp := lift(chrom, lend - 1)[0].pos + 1, lift(chrom, rend - 1)[0].pos + 1;
      var cols := Split(LiftRow(text, chrom, lend, rend, rest, lift).line, '\t');
      && cols[1..] == rest
      && cols[0] == LiftedKey(chrom, lp, rp)
  {
    var lp, rp := lift(chrom, lend - 1)[0].pos + 1, lift(chrom, rend - 1)[0].pos + 1;
    var key := LiftedKey(chrom, lp, rp);
    if lp > rp { KeyHasNoTab(chrom, rp, lp); } else { KeyHasNoTab(chrom, lp, rp); }
    var parts := [key] + rest;
    forall i | 0 <= i < |parts| ensures '\t' !in parts[i] {
      if i > 0 { assert parts[i] == rest[i - 1]; }
    }
    SplitOfJoin(parts, '\t');
  }

  /** A lifted key on a chromosome without ':' and non-negative lifted ends reads back as
      that chromosome and the two ends, smaller first. */
  lemma LiftedKeyReadsBack(chrom: string, lp: nat, rp: nat)
    requires ':' !in chrom
    ensures var k := ParseKey(LiftedKey(chrom, lp, rp));
      && k.Some? && k.value.0 == chrom && k.value.1 <= k.value.2
      && ((k.value.1, k.value.2) == (lp, rp) || (k.value.1, k.value.2) == (rp, lp))
  {
    if lp > rp { ParseKeyOfKey(chrom, rp, lp); } else { ParseKeyOfKey(chrom, lp, rp); }
  }

  /** A line whose key parses is the row of its parsed key and other columns, none of
      which holds a tab; nor does the chromosome, which holds no ':' either. */
  lemma LineParts(line: string, lift: LiftOver)
    requires ConvertLine(line, lift).Success?
    ensures var vals := Split(RStrip(line), '\t');
      var (chrom, lend, rend) := ParseKey(vals[0]).value;
      && ConvertLine(line, lift) == Success(LiftRow(RStrip(line), chrom, lend, rend, vals[1..], lift))
      && '\t' !in chrom && ':' !in chrom
      && forall i :: 0 <= i < |vals[1..]| ==> '\t' !in vals[1..][i]
  {
    var vals := Split(RStrip(line), '\t');
    ParseKeyChrom(vals[0], '\t');
    var rest := vals[1..];
    forall i | 0 <= i < |rest| ensures '\t' !in rest[i] {
      assert rest[i] == vals[i + 1];
    }
  }

  // ---------------------------------------------------------------------------------------
  // The whole run

  /** The header is printed first, stripped; the run fails without one, and with fewer than
      two arguments. */
  lemma HeaderEchoed(argv: seq<string>, lines: seq<string>, chains: string -> LiftOver)
    ensures |argv| < 3 ==> ConvertRun(argv, lines, chains) == Failure(USAGE_ERROR)
    ensures |argv| >= 3 && |lines| == 0 ==> ConvertRun(argv, lines, chains) == Failure(STOP_ITERATION)
    ensures ConvertRun(argv, lines, chains).Success? ==> ConvertRun(argv, lines, chains).value.out[0] == RStrip(lines[0])
  {
  }

  /** The chain file argument is never read: any other value gives the same run. */
  lemma ChainArgumentIgnored(argv: seq<string>, lines: seq<string>, chains: string -> LiftOver, other: string)
    requires |argv| >= 3
    ensures ConvertRun(argv[2 := other], lines, chains) == ConvertRun(argv, lines, chains)
  {
  }

  lemma ConvertLinesStep(lines: seq<string>, lift: LiftOver)
    requires |lines| > 0 && ConvertLines(lines, lift).Success?
    ensures ConvertLines(lines[..|lines| - 1], lift).Success? && ConvertLine(lines[|lines| - 1], lift).Success?
    ensures ConvertLines(lines, lift).value ==
      Record(ConvertLines(lines[..|lines| - 1], lift).value, ConvertLine(lines[|lines| - 1], lift).value)
  {
  }

  lemma ConvertLinesFailsStep(lines: seq<string>, lift: LiftOver)
    requires |lines| > 0
    ensures ConvertLines(lines, lift).Failure? <==>
      ConvertLines(lines[..|lines| - 1], lift).Failure? || ConvertLine(lines[|lines| - 1], lift).Failure?
  {
  }

  /** Some row of `lines` has this outcome. */
  ghost predicate SomeRowGives(lines: seq<string>, lift: LiftOver, o: Outcome)
  {
    exists i :: 0 <= i < |lines| && ConvertLine(lines[i], lift) == Success(o)
  }

  lemma SomeRowGivesStep(lines: seq<string>, front: seq<string>, lift: LiftOver, o: Outcome)
    requires |lines| > 0 && front == lines[..|lines| - 1]
    ensures SomeRowGives(lines, lift, o) <==>
      SomeRowGives(front, lift, o) || ConvertLine(lines[|lines| - 1], lift) == Success(o)
  {
    ExistsSnoc(lines, front, line => ConvertLine(line, lift) == Success(o));
  }

  lemma BadRowStep(lines: seq<string>, front: seq<string>, lift: LiftOver)
    requires |lines| > 0 && front == lines[..|lines| - 1]
    ensures (exists i :: 0 <= i < |lines| && ConvertLine(lines[i], lift).Failure?) <==>
      (exists i :: 0 <= i < |front| && ConvertLine(front[i], lift).Failure?) || ConvertLine(lines[|lines| - 1], lift).Failure?
  {
    ExistsSnoc(lines, front, line => ConvertLine(line, lift).Failure?);
  }

  /** The run stops exactly when some row's first column is not an intron key. */
  lemma {:induction false} ConvertLinesFails(lines: seq<string>, lift: LiftOver)
    ensures ConvertLines(lines, lift).Failure? <==> exists i :: 0 <= i < |lines| && ConvertLine(lines[i], lift).Failure?
  {
    if |lines| > 0 {
      var front := lines[..|lines| - 1];
      ConvertLinesFails(front, lift);
      ConvertLinesFailsStep(lines, lift);
      BadRowStep(lines, front, lift);
    }
  }

  /** Each row gives at most one printed line and at most one message: the run's lines are
      rewritten rows, and its messages the reported ones. */
  lemma {:induction false} ConvertLinesCounts(lines: seq<string>, lift: LiftOver)
    requires ConvertLines(lines, lift).Success?
    ensures var rep := ConvertLines(lines, lift).value;
      |rep.out| + |rep.err| <= |lines|
      && (forall k :: 0 <= k < |rep.out| ==> SomeRowGives(lines, lift, Converted(rep.out[k])))
      && (forall k :: 0 <= k < |rep.err| ==> SomeRowGives(lines, lift, Mismatch(rep.err[k])))
  {
    if |lines| > 0 {
      var front := lines[..|lines| - 1];
      ConvertLinesStep(lines, lift);
      ConvertLinesCounts(front, lift);
      var rep := ConvertLines(front, lift).value;
      var o := ConvertLine(lines[|lines| - 1], lift).value;
      var rep' := ConvertLines(lines, lift).value;
      forall k | 0 <= k < |rep'.out|
        ensures SomeRowGives(lines, lift, Converted(rep'.out[k]))
      {
        SomeRowGivesStep(lines, front, lift, Converted(rep'.out[k]));
      }
      forall k | 0 <= k < |rep'.err|
        ensures SomeRowGives(lines, lift, Mismatch(rep'.err[k]))
      {
        SomeRowGivesStep(lines, front, lift, Mismatch(rep'.err[k]));
      }
    }
  }
}
