/** The canonical intron key `chrom:lend-rend` (1-based, first and last intronic base) that
    every script builds with `"{}:{}-{}".format(...)` and that annotate_introns.py and the
    liftover converter take apart again with `split(":")`, `split("-")` and `int(...)`. */
module IntronKeys {
  import opened Wrappers
  import opened Text

  function Key(chrom: string, lend: int, rend: int): string
  {
    chrom + ":" + IntToString(lend) + "-" + IntToString(rend)
  }

  /** `chrom, coords = key.split(":")`, `lend, rend = coords.split("-")`, `int(lend)`,
      `int(rend)`; a wrong number of pieces or a non-integer raises, modelled as None. */
  function ParseKey(key: string): Option<(string, int, int)>
  {
    var parts := Split(key, ':');
    if |parts| != 2 then None
    else
      var coords := Split(parts[1], '-');
      if |coords| != 2 then None
      else
        match (ParseInt(coords[0]), ParseInt(coords[1]))
        case (Some(lend), Some(rend)) => Some((parts[0], lend, rend))
        case _ => None
  }

  lemma DigitsHaveNo(s: string, c: char)
    requires AllDigits(s) && !IsDigit(c)
    ensures c !in s
  {
  }

  /** A key built from non-negative coordinates and a chromosome name without ':' parses back
      to exactly those three values. */
  lemma ParseKeyOfKey(chrom: string, lend: nat, rend: nat)
    requires ':' !in chrom
    ensures ParseKey(Key(chrom, lend, rend)) == Some((chrom, lend, rend))
  {
    var l, r := IntToString(lend), IntToString(rend);
    DigitsHaveNo(l, ':');
    DigitsHaveNo(r, ':');
    DigitsHaveNo(l, '-');
    DigitsHaveNo(r, '-');
    var coords := l + "-" + r;
    assert Key(chrom, lend, rend) == chrom + [':'] + coords;
    SplitConcat(chrom, coords, ':');
    SplitWithoutSep(chrom, ':');
    SplitWithoutSep(coords, ':');
    assert Split(Key(chrom, lend, rend), ':') == [chrom, coords];
    assert coords == l + ['-'] + r;
    SplitConcat(l, r, '-');
    SplitWithoutSep(l, '-');
    SplitWithoutSep(r, '-');
    assert Split(coords, '-') == [l, r];
    ParseIntOfIntToString(lend);
    ParseIntOfIntToString(rend);
  }

  /** The chromosome of a parsed key holds no ':' and no character the key lacks. */
  lemma ParseKeyChrom(key: string, c: char)
    requires ParseKey(key).Some? && c !in key
    ensures ':' !in ParseKey(key).value.0 && c !in ParseKey(key).value.0
  {
    SplitPartsHaveNo(key, ':', c);
  }

  /** Distinct junctions (non-negative coordinates, chromosome names without ':') get
      distinct keys, so a key identifies its junction. */
  lemma KeyInjective(c1: string, l1: nat, r1: nat, c2: string, l2: nat, r2: nat)
    requires ':' !in c1 && ':' !in c2
    requires Key(c1, l1, r1) == Key(c2, l2, r2)
    ensures c1 == c2 && l1 == l2 && r1 == r2
  {
    ParseKeyOfKey(c1, l1, r1);
    ParseKeyOfKey(c2, l2, r2);
  }
}
