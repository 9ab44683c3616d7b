/** annotate_introns.py, the parts that look at one intron key: the splice dinucleotides read
    off the chromosome sequence, the OK/NON splice flag, the known-intron catalog
    (`get_intron_db`) and the pattern an intron line of a text input must match. */
module SpliceSites {
  import opened Wrappers
  import opened Text
  import opened IntronKeys

  /** The canonical and semi-canonical splice pairs (forward strand first, then their
      reverse-strand complements). */
  const OK_SPLICES: seq<string> := ["GT--AG", "GC--AG", "AT--AC", "CT--AC", "CT--GC", "GT--AT"]

  const OK_PAIRS: set<(string, string)> :=
    {("GT", "AG"), ("GC", "AG"), ("AT", "AC"), ("CT", "AC"), ("CT", "GC"), ("GT", "AT")}

  /** The two bases at 1-based positions lend and lend + 1: `chrom_seq[lend-1:lend+1]`. */
  function LeftDinuc(chromSeq: string, lend: int): string
  {
    PySlice(chromSeq, lend - 1, lend + 1)
  }

  /** The two bases at 1-based positions rend - 1 and rend: `chrom_seq[rend-1-1:rend]`. */
  function RightDinuc(chromSeq: string, rend: int): string
  {
    PySlice(chromSeq, rend - 2, rend)
  }

  /** Inside the sequence, the dinucleotides are the first two and the last two intronic bases
      (1-based positions lend, lend + 1 and rend - 1, rend). */
  lemma DinucsAreIntronEnds(chromSeq: string, lend: int, rend: int)
    requires 1 <= lend && lend + 1 <= |chromSeq| && 2 <= rend <= |chromSeq|
    ensures LeftDinuc(chromSeq, lend) == [chromSeq[lend - 1], chromSeq[lend]]
    ensures RightDinuc(chromSeq, rend) == [chromSeq[rend - 2], chromSeq[rend - 1]]
  {
  }

  function SpliceToken(left: string, right: string): string
  {
    left + "--" + right
  }

  function SpliceFlag(token: string): (flag: string)
    ensures flag == "OK" || flag == "NON"
  {
    if token in OK_SPLICES then "OK" else "NON"
  }

  /** The flag is OK exactly when the two dinucleotides form one of the six accepted pairs,
      whatever their lengths. */
  lemma SpliceFlagOk(left: string, right: string)
    ensures SpliceFlag(SpliceToken(left, right)) == "OK" <==> (left, right) in OK_PAIRS
  {
    var tok := SpliceToken(left, right);
    if tok in OK_SPLICES {
      var k := |left|;
      assert |tok| == 6 && k <= 4;
      assert tok[k] == '-' && tok[k + 1] == '-';
      OkSpliceDashes(tok);
      assert k == 2;
      assert left == tok[..2] && right == tok[4..];
      OkSpliceHalves(tok);
    } else if (left, right) in OK_PAIRS {
      OkPairJoins(left, right);
    }
  }

  /** Each accepted token has six characters with its only dashes at positions 2 and 3. */
  lemma OkSpliceDashes(t: string)
    requires t in OK_SPLICES
    ensures |t| == 6 && forall i :: 0 <= i < 6 && t[i] == '-' ==> i == 2 || i == 3
  {
  }

  lemma OkSpliceHalves(t: string)
    requires t in OK_SPLICES
    ensures |t| == 6 && (t[..2], t[4..]) in OK_PAIRS
  {
    if t == "GT--AG" { assert t[..2] == "GT" && t[4..] == "AG"; }
    else if t == "GC--AG" { assert t[..2] == "GC" && t[4..] == "AG"; }
    else if t == "AT--AC" { assert t[..2] == "AT" && t[4..] == "AC"; }
    else if t == "CT--AC" { assert t[..2] == "CT" && t[4..] == "AC"; }
    else if t == "CT--GC" { assert t[..2] == "CT" && t[4..] == "GC"; }
    else { assert t[..2] == "GT" && t[4..] == "AT"; }
  }

  lemma OkPairJoins(left: string, right: string)
    requires (left, right) in OK_PAIRS
    ensures SpliceToken(left, right) in OK_SPLICES
  {
    if (left, right) == ("GT", "AG") { assert SpliceToken(left, right) == "GT--AG"; }
    else if (left, right) == ("GC", "AG") { assert SpliceToken(left, right) == "GC--AG"; }
    else if (left, right) == ("AT", "AC") { assert SpliceToken(left, right) == "AT--AC"; }
    else if (left, right) == ("CT", "AC") { assert SpliceToken(left, right) == "CT--AC"; }
    else if (left, right) == ("CT", "GC") { assert SpliceToken(left, right) == "CT--GC"; }
    else { assert SpliceToken(left, right) == "GT--AT"; }
  }

  // ---------------------------------------------------------------------------------------
  // The known-intron catalog

  const CATALOG_HEADER: string := "intron\tgenes"

  /** One catalog line: the intron in column 0 and columns 2 onward joined by tabs (column 1,
      the genes, is dropped). */
  function CatalogEntry(line: string): (string, string)
  {
    var vals := Fields(line);
    (vals[0], Join(if |vals| >= 2 then vals[2..] else [], "\t"))
  }

  /** The catalog read from the lines of the gzip'd file: the header must start with
      `intron\tgenes` (an empty file or another header is an error), and a later line for the
      same intron replaces an earlier one. */
  function IntronDbOf(lines: seq<string>): Result<map<string, string>>
  {
    if |lines| == 0 then Failure("catalog file is empty")
    else if !StartsWith(lines[0], CATALOG_HEADER) then Failure("catalog lacks the expected header")
    else Success(CatalogEntries(lines[1..]))
  }

  function CatalogEntries(lines: seq<string>): map<string, string>
  {
    if |lines| == 0 then map[]
    else
      var (intron, info) := CatalogEntry(lines[|lines| - 1]);
      CatalogEntries(lines[..|lines| - 1])[intron := info]
  }

  /** An intron is in the catalog exactly when some line names it, and its entry comes from the
      last such line. */
  lemma CatalogEntriesCharacterized(lines: seq<string>, intron: string)
    ensures intron in CatalogEntries(lines) <==> exists i :: 0 <= i < |lines| && CatalogEntry(lines[i]).0 == intron
    ensures intron in CatalogEntries(lines) ==>
      exists i :: 0 <= i < |lines| && CatalogEntry(lines[i]) == (intron, CatalogEntries(lines)[intron])
                  && forall j :: i < j < |lines| ==> CatalogEntry(lines[j]).0 != intron
  {
    CatalogEntriesNamed(lines, intron);
    if intron in CatalogEntries(lines) {
      var i := CatalogEntriesLast(lines, intron);
    }
  }

  lemma {:induction false} CatalogEntriesNamed(lines: seq<string>, intron: string)
    ensures intron in CatalogEntries(lines) <==> exists i :: 0 <= i < |lines| && CatalogEntry(lines[i]).0 == intron
  {
    if |lines| > 0 {
      var front := lines[..|lines| - 1];
      CatalogEntriesNamed(front, intron);
      assert forall i :: 0 <= i < |front| ==> front[i] == lines[i];
    }
  }

  lemma {:induction false} CatalogEntriesLast(lines: seq<string>, intron: string) returns (i: nat)
    requires intron in CatalogEntries(lines)
    ensures i < |lines| && CatalogEntry(lines[i]) == (intron, CatalogEntries(lines)[intron])
    ensures forall j :: i < j < |lines| ==> CatalogEntry(lines[j]).0 != intron
  {
    var last := |lines| - 1;
    var front := lines[..last];
    var entry := CatalogEntry(lines[last]);
    assert CatalogEntries(lines) == CatalogEntries(front)[entry.0 := entry.1];
    if entry.0 == intron {
      i := last;
    } else {
      i := CatalogEntriesLast(front, intron);
      assert lines[i] == front[i];
      assert forall j :: i < j < last ==> lines[j] == front[j];
    }
  }

  /** `get_intron_db`: read the header, then every line into the dict. */
  method GetIntronDb(lines: seq<string>) returns (db: Result<map<string, string>>)
    ensures db == IntronDbOf(lines)
  {
    if |lines| == 0 {
      return Failure("catalog file is empty");
    }
    if !StartsWith(lines[0], CATALOG_HEADER) {
      return Failure("catalog lacks the expected header");
    }
    var body := lines[1..];
    var m: map<string, string> := map[];
    var n := 0;
    while n < |body|
      invariant 0 <= n <= |body|
      invariant m == CatalogEntries(body[..n])
    {
      assert body[..n + 1][..n] == body[..n];
      var vals := Fields(body[n]);
      m := m[vals[0] := Join(if |vals| >= 2 then vals[2..] else [], "\t")];
      n := n + 1;
    }
    assert body[..|body|] == body;
    return Success(m);
  }

  /** `intron_db[key] if key in intron_db else "Cryptic"`. */
  function KnownOrCryptic(db: map<string, string>, key: string): (annotation: string)
    ensures key !in db ==> annotation == "Cryptic"
    ensures key in db ==> annotation == db[key]
  {
    if key in db then db[key] else "Cryptic"
  }

  /** An intron no catalog line names is reported as Cryptic. */
  lemma UncataloguedIsCryptic(lines: seq<string>, key: string)
    requires IntronDbOf(lines).Success?
    requires forall i :: 1 <= i < |lines| ==> CatalogEntry(lines[i]).0 != key
    ensures KnownOrCryptic(IntronDbOf(lines).value, key) == "Cryptic"
  {
    var body := lines[1..];
    assert forall i :: 0 <= i < |body| ==> body[i] == lines[i + 1];
    CatalogEntriesCharacterized(body, key);
  }

  /** A key some catalog line names is labelled with the columns after the genes column of
      the last line naming it, joined by tabs. */
  lemma CataloguedAnnotation(lines: seq<string>, key: string, i: nat)
    requires IntronDbOf(lines).Success?
    requires 1 <= i < |lines| && CatalogEntry(lines[i]).0 == key
    requires forall j :: i < j < |lines| ==> CatalogEntry(lines[j]).0 != key
    ensures KnownOrCryptic(IntronDbOf(lines).value, key) ==
      Join(if |Fields(lines[i])| >= 2 then Fields(lines[i])[2..] else [], "\t")
  {
    var body := lines[1..];
    assert forall j :: 0 <= j < |body| ==> body[j] == lines[j + 1];
    assert CatalogEntry(body[i - 1]).0 == key;
    CatalogEntriesCharacterized(body, key);
    var i' :| 0 <= i' < |body| && CatalogEntry(body[i']) == (key, CatalogEntries(body)[key])
              && forall j :: i' < j < |body| ==> CatalogEntry(body[j]).0 != key;
    assert i' == i - 1;
  }

  // ---------------------------------------------------------------------------------------
  // `re.match("(chr[^:]+):(\d+-\d+)\s", line)`

  /** The longest prefix of ASCII digits. */
  function DigitRun(s: string): (r: string)
    ensures |r| <= |s| && r == s[..|r|] && AllDigits(r)
    ensures |r| < |s| ==> !IsDigit(s[|r|])
  {
    if |s| == 0 || !IsDigit(s[0]) then "" else [s[0]] + DigitRun(s[1..])
  }

  /** The longest prefix without ':'. */
  function UpToColon(s: string): (r: string)
    ensures |r| <= |s| && r == s[..|r|] && ':' !in r
    ensures |r| < |s| ==> s[|r|] == ':'
  {
    if |s| == 0 || s[0] == ':' then "" else [s[0]] + UpToColon(s[1..])
  }

  /** `(\d+-\d+)\s` at the start of `s`: the coordinates text (group 2), or None. */
  function MatchCoords(s: string): (r: Option<string>)
    ensures r.Some? ==> |r.value| >= 3
  {
    var d1 := DigitRun(s);
    if |d1| == 0 || |d1| == |s| || s[|d1|] != '-' then None
    else
      var rest := s[|d1| + 1..];
      var d2 := DigitRun(rest);
      if |d2| == 0 || |d2| == |rest| || !IsSpace(rest[|d2|]) then None
      else Some(d1 + "-" + d2)
  }

  /** The chromosome (group 1) and the token `chrom:coords` of an intron line, or None when the
      line does not start with `chr`, at least one more character and a ':', then digits, '-',
      digits and a whitespace character. */
  function MatchIntronLine(line: string): (r: Option<(string, string)>)
    ensures r.Some? ==> StartsWith(line, r.value.0) && StartsWith(r.value.0, "chr") && |r.value.0| > 3 && ':' !in r.value.0
  {
    var chrom := UpToColon(line);
    if !(StartsWith(line, "chr") && |chrom| > 3 && |chrom| < |line|) then None
    else
      match MatchCoords(line[|chrom| + 1..])
      case None => None
      case Some(coords) =>
        assert chrom[..3] == line[..3];
        Some((chrom, chrom + ":" + coords))
  }

  lemma {:induction false} DigitRunOfDigits(d: string, rest: string)
    requires AllDigits(d) && (|rest| == 0 || !IsDigit(rest[0]))
    ensures DigitRun(d + rest) == d
  {
    if |d| > 0 {
      assert (d + rest)[1..] == d[1..] + rest;
      DigitRunOfDigits(d[1..], rest);
    } else {
      assert d + rest == rest;
    }
  }

  lemma {:induction false} UpToColonOf(c: string, rest: string)
    requires ':' !in c
    ensures UpToColon(c + ":" + rest) == c
  {
    if |c| > 0 {
      assert (c + ":" + rest)[1..] == c[1..] + ":" + rest;
      UpToColonOf(c[1..], rest);
    }
  }

  lemma MatchCoordsOf(d1: string, d2: string, ws: char, rest: string)
    requires |d1| > 0 && AllDigits(d1) && |d2| > 0 && AllDigits(d2) && IsSpace(ws)
    ensures MatchCoords(d1 + "-" + d2 + [ws] + rest) == Some(d1 + "-" + d2)
  {
    var s := d1 + "-" + d2 + [ws] + rest;
    assert s == d1 + ("-" + d2 + [ws] + rest);
    DigitRunOfDigits(d1, "-" + d2 + [ws] + rest);
    assert s[|d1|] == '-';
    var after := s[|d1| + 1..];
    assert after == d2 + ([ws] + rest);
    DigitRunOfDigits(d2, [ws] + rest);
  }

  lemma MatchIntronLineSplit(chrom: string, after: string)
    requires StartsWith(chrom, "chr") && |chrom| > 3 && ':' !in chrom
    ensures MatchIntronLine(chrom + ":" + after)
            == if MatchCoords(after).Some? then Some((chrom, chrom + ":" + MatchCoords(after).value)) else None
  {
    var line := chrom + ":" + after;
    UpToColonOf(chrom, after);
    assert line[|chrom| + 1..] == after;
    assert line[..3] == chrom[..3];
  }

  /** A line that starts with an intron key (non-negative coordinates, a chromosome named
      `chr…` without ':') followed by whitespace is accepted, and its token is that key. */
  lemma MatchIntronLineOfKey(chrom: string, lend: nat, rend: nat, ws: char, rest: string)
    requires StartsWith(chrom, "chr") && |chrom| > 3 && ':' !in chrom && IsSpace(ws)
    ensures MatchIntronLine(Key(chrom, lend, rend) + [ws] + rest) == Some((chrom, Key(chrom, lend, rend)))
  {
    var l, r := IntToString(lend), IntToString(rend);
    var coords := l + "-" + r;
    assert Key(chrom, lend, rend) == chrom + ":" + coords;
    var after := coords + [ws] + rest;
    assert Key(chrom, lend, rend) + [ws] + rest == chrom + ":" + after;
    MatchCoordsOf(l, r, ws, rest);
    MatchIntronLineSplit(chrom, after);
  }

  /** A line that does not begin with `chr` is rejected. */
  lemma MatchIntronLineNeedsChr(line: string)
    requires !StartsWith(line, "chr")
    ensures MatchIntronLine(line) == None
  {
  }
}
