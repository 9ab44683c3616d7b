/** util/cancer_intron_annotation_file_maker.py: one line per cancer intron (intron, genes,
    TCGA list, GTEx list, name), where an intron takes its name from the names file the first
    time it appears and "NA" otherwise; then one line for every named intron that never
    appeared. */
module CancerAnnotation {
  import opened Wrappers
  import opened Text
  import opened Census
  import opened Enrichment
  import opened SampleTypeLists

  const UNPACK_ERROR: string := "ValueError: wrong number of values to unpack"
  const INDEX_ERROR: string := "IndexError: list index out of range"
  const STOP_ITERATION: string := "StopIteration: the cancer introns file has no header line"
  const NO_FEATURE_ERROR: string := "TypeError: the intron is not in intron_feature"

  // ---------------------------------------------------------------------------------------
  // The names dictionary

  /** A dict from intron to name: its entries and its keys in insertion order. */
  datatype NameDict = NameDict(names: map<string, string>, order: seq<string>)

  ghost predicate Distinct(s: seq<string>)
  {
    forall i, j :: 0 <= i < j < |s| ==> s[i] != s[j]
  }

  ghost predicate NameDictValid(d: NameDict)
  {
    (forall k :: k in d.names <==> k in d.order) && Distinct(d.order)
  }

  /** `d[k] = v`: a new key goes to the end, an existing one keeps its place. */
  function Put(d: NameDict, k: string, v: string): NameDict
  {
    NameDict(d.names[k := v], if k in d.names then d.order else d.order + [k])
  }

  function Without(s: seq<string>, k: string): (r: seq<string>)
    ensures forall x :: x in r <==> x in s && x != k
    ensures Distinct(s) ==> Distinct(r)
  {
    if |s| == 0 then []
    else
      var init := s[..|s| - 1];
      var front := Without(init, k);
      assert forall x :: x in init ==> x in s;
      DistinctInit(s);
      front + (if s[|s| - 1] == k then [] else [s[|s| - 1]])
  }

  lemma DistinctInit(s: seq<string>)
    requires |s| > 0
    ensures Distinct(s) ==> Distinct(s[..|s| - 1]) && s[|s| - 1] !in s[..|s| - 1]
  {
    var init := s[..|s| - 1];
    if Distinct(s) {
      forall i | 0 <= i < |init| ensures init[i] != s[|s| - 1] {
        assert init[i] == s[i];
      }
    }
  }

  /** `del d[k]`. */
  function Delete(d: NameDict, k: string): NameDict
  {
    NameDict(d.names - {k}, Without(d.order, k))
  }

  /** `parse_intron_feature_names`: each stripped line must split on tabs into exactly an
      intron and a name; a later line for the same intron replaces the name. */
  function ParseNames(lines: seq<string>): (r: Result<NameDict>)
    ensures r.Success? ==> NameDictValid(r.value)
  {
    if |lines| == 0 then Success(NameDict(map[], []))
    else
      match ParseNames(lines[..|lines| - 1])
      case Failure(e) => Failure(e)
      case Success(d) =>
        var vals := Fields(lines[|lines| - 1]);
        if |vals| != 2 then Failure(UNPACK_ERROR) else Success(Put(d, vals[0], vals[1]))
  }

  lemma ParseNamesFailsStep(lines: seq<string>)
    requires |lines| > 0
    ensures ParseNames(lines).Failure?
            <==> ParseNames(lines[..|lines| - 1]).Failure? || |Fields(lines[|lines| - 1])| != 2
  {
  }

  /** Parsing fails exactly on a line without exactly two fields. */
  lemma {:induction false} ParseNamesFails(lines: seq<string>)
    ensures ParseNames(lines).Failure? <==> exists i :: 0 <= i < |lines| && |Fields(lines[i])| != 2
  {
    if |lines| > 0 {
      var front := lines[..|lines| - 1];
      ParseNamesFails(front);
      ParseNamesFailsStep(lines);
      BadLineStep(lines, front);
    }
  }

  lemma BadLineStep(lines: seq<string>, front: seq<string>)
    requires |lines| > 0 && front == lines[..|lines| - 1]
    ensures (exists i :: 0 <= i < |lines| && |Fields(lines[i])| != 2)
            <==> (exists i :: 0 <= i < |front| && |Fields(front[i])| != 2) || |Fields(lines[|lines| - 1])| != 2
  {
    assert forall i :: 0 <= i < |front| ==> front[i] == lines[i];
  }

  lemma NamedSomewhereStep(lines: seq<string>, front: seq<string>, k: string)
    requires |lines| > 0 && front == lines[..|lines| - 1]
    ensures (exists i :: 0 <= i < |lines| && Fields(lines[i])[0] == k)
            <==> (exists i :: 0 <= i < |front| && Fields(front[i])[0] == k) || Fields(lines[|lines| - 1])[0] == k
  {
    assert forall i :: 0 <= i < |front| ==> front[i] == lines[i];
  }

  /** After a successful parse an intron is named exactly when some line names it. */
  lemma {:induction false} ParseNamesKeys(lines: seq<string>, k: string)
    requires ParseNames(lines).Success?
    ensures k in ParseNames(lines).value.names <==> exists i :: 0 <= i < |lines| && Fields(lines[i])[0] == k
  {
    if |lines| > 0 {
      ParseNamesStep(lines);
      ParseNamesKeys(lines[..|lines| - 1], k);
      NamedSomewhereStep(lines, lines[..|lines| - 1], k);
    }
  }

  /** Line i names k as v and no later line names k. */
  ghost predicate NamedLastAt(lines: seq<string>, i: int, k: string, v: string)
  {
    0 <= i < |lines| && Fields(lines[i]) == [k, v] && forall j :: i < j < |lines| ==> Fields(lines[j])[0] != k
  }

  lemma ParseNamesStep(lines: seq<string>)
    requires |lines| > 0 && ParseNames(lines).Success?
    ensures ParseNames(lines[..|lines| - 1]).Success? && |Fields(lines[|lines| - 1])| == 2
    ensures var last := Fields(lines[|lines| - 1]);
      ParseNames(lines).value == Put(ParseNames(lines[..|lines| - 1]).value, last[0], last[1])
  {
  }

  lemma NamedLastAtExtend(lines: seq<string>, i: int, k: string, v: string)
    requires |lines| > 0 && NamedLastAt(lines[..|lines| - 1], i, k, v) && Fields(lines[|lines| - 1])[0] != k
    ensures NamedLastAt(lines, i, k, v)
  {
    var front := lines[..|lines| - 1];
    assert lines[i] == front[i];
    forall j | i < j < |lines| ensures Fields(lines[j])[0] != k {
      if j < |front| {
        assert lines[j] == front[j];
      }
    }
  }

  /** The name of an intron is the one on the last line naming it. */
  lemma {:induction false} ParseNamesLastWins(lines: seq<string>, k: string)
    requires ParseNames(lines).Success? && k in ParseNames(lines).value.names
    ensures exists i :: NamedLastAt(lines, i, k, ParseNames(lines).value.names[k])
  {
    if |lines| > 0 {
      var front := lines[..|lines| - 1];
      var last := Fields(lines[|lines| - 1]);
      ParseNamesStep(lines);
      var v := ParseNames(lines).value.names[k];
      if last[0] == k {
        assert NamedLastAt(lines, |lines| - 1, k, v);
      } else {
        ParseNamesLastWins(front, k);
        var i :| NamedLastAt(front, i, k, v);
        NamedLastAtExtend(lines, i, k, v);
      }
    }
  }

  lemma {:induction false} NamesPrefixFailure(lines: seq<string>, n: nat)
    requires n <= |lines| && ParseNames(lines[..n]).Failure?
    ensures ParseNames(lines) == ParseNames(lines[..n])
    decreases |lines| - n
  {
    if n < |lines| {
      assert lines[..n + 1][..n] == lines[..n];
      NamesPrefixFailure(lines, n + 1);
    } else {
      assert lines[..n] == lines;
    }
  }

  method ParseIntronFeatureNames(lines: seq<string>) returns (r: Result<NameDict>)
    ensures r == ParseNames(lines)
  {
    var d := NameDict(map[], []);
    var i := 0;
    while i < |lines|
      invariant 0 <= i <= |lines|
      invariant ParseNames(lines[..i]) == Success(d)
    {
      assert lines[..i + 1][..i] == lines[..i];
      var vals := Fields(lines[i]);
      if |vals| != 2 {
        NamesPrefixFailure(lines, i + 1);
        return Failure(UNPACK_ERROR);
      }
      d := Put(d, vals[0], vals[1]);
      i := i + 1;
    }
    assert lines[..|lines|] == lines;
    return Success(d);
  }

  // ---------------------------------------------------------------------------------------
  // One annotation line

  /** `write_intron_feature_annotation`: the intron's genes from intron_feature (an intron
      missing there is an error), its two class lists without the ALL rows, and the name. */
  function AnnotationLine(features: seq<FeatureRow>, table: seq<CountsRow>, intron: string, name: string,
                          pct: real -> string): (r: Result<string>)
    ensures r.Failure? <==> GenesOf(features, intron).None?
  {
    match GenesOf(features, intron)
    case None => Failure(NO_FEATURE_ERROR)
    case Some(genes) =>
      Success(Join([intron, genes, ClassList(table, intron, TCGA, ALL, pct), ClassList(table, intron, GTEX, ALL, pct), name], "\t"))
  }

  method WriteIntronFeatureAnnotation(features: seq<FeatureRow>, table: seq<CountsRow>, intron: string, name: string,
                                      pct: real -> string) returns (r: Result<string>)
    ensures r == AnnotationLine(features, table, intron, name, pct)
  {
    var genes := GenesOf(features, intron);
    if genes.None? {
      return Failure(NO_FEATURE_ERROR);
    }
    var tcgaVals := CollectClassVals(ClassRows(table, intron, TCGA, ALL), pct);
    var gtexVals := CollectClassVals(ClassRows(table, intron, GTEX, ALL), pct);
    return Success(Join([intron, genes.value, Join(tcgaVals, ","), Join(gtexVals, ","), name], "\t"));
  }

  // ---------------------------------------------------------------------------------------
  // The two passes

  /** What writes the line of an intron with a name: `write_intron_feature_annotation` over
      the database, as `Annotator` gives it. The passes are stated over it so that what they
      do to the names does not depend on how a line is made. */
  type Annotate = (string, string) -> Result<string>

  function Annotator(features: seq<FeatureRow>, table: seq<CountsRow>, pct: real -> string): Annotate
  {
    (intron: string, name: string) => AnnotationLine(features, table, intron, name, pct)
  }

  /** What the cancer pass has done: the lines written, the (intron, name taken) pairs in the
      same order, and the names not yet used. */
  datatype Pass = Pass(out: seq<string>, written: seq<(string, Option<string>)>, rest: NameDict)

  function NameOr(name: Option<string>): string
  {
    if name.Some? then name.value else "NA"
  }

  /** The name the pass takes for an intron, and the dict it leaves. */
  function Taken(rest: NameDict, intron: string): Option<string>
  {
    if intron in rest.names then Some(rest.names[intron]) else None
  }

  function Remaining(rest: NameDict, intron: string): NameDict
  {
    if intron in rest.names then Delete(rest, intron) else rest
  }

  /** The loop over the cancer introns file after its header: the intron is field 2 of the
      unstripped line; a name still in the dict is taken and deleted. */
  function CancerPass(lines: seq<string>, d: NameDict, annotate: Annotate): Result<Pass>
  {
    if |lines| == 0 then Success(Pass([], [], d))
    else
      match CancerPass(lines[..|lines| - 1], d, annotate)
      case Failure(e) => Failure(e)
      case Success(p) =>
        var vals := Split(lines[|lines| - 1], '\t');
        if |vals| < 3 then Failure(INDEX_ERROR)
        else
          var intron := vals[2];
          match annotate(intron, NameOr(Taken(p.rest, intron)))
          case Failure(e) => Failure(e)
          case Success(line) =>
            Success(Pass(p.out + [line], p.written + [(intron, Taken(p.rest, intron))], Remaining(p.rest, intron)))
  }

  /** The loop over the names left in the dict, in insertion order. */
  function Leftover(keys: seq<string>, names: map<string, string>, annotate: Annotate): Result<seq<string>>
  {
    if |keys| == 0 then Success([])
    else
      match Leftover(keys[..|keys| - 1], names, annotate)
      case Failure(e) => Failure(e)
      case Success(front) =>
        var k := keys[|keys| - 1];
        match annotate(k, if k in names then names[k] else "NA")
        case Failure(e) => Failure(e)
        case Success(line) => Success(front + [line])
  }

  /** The (intron, name) pairs the leftover pass writes. */
  function LeftoverPairs(keys: seq<string>, names: map<string, string>): (pairs: seq<(string, Option<string>)>)
    ensures |pairs| == |keys|
    ensures forall i :: 0 <= i < |keys| ==> pairs[i] == (keys[i], if keys[i] in names then Some(names[keys[i]]) else None)
  {
    if |keys| == 0 then []
    else
      var k := keys[|keys| - 1];
      LeftoverPairs(keys[..|keys| - 1], names) + [(k, if k in names then Some(names[k]) else None)]
  }

  /** The leftover pass writes one line per key, the line of the key with its name. */
  lemma {:induction false} LeftoverLines(keys: seq<string>, names: map<string, string>, annotate: Annotate)
    requires Leftover(keys, names, annotate).Success?
    ensures var out := Leftover(keys, names, annotate).value;
      |out| == |keys|
      && forall i :: 0 <= i < |keys| ==>
           annotate(keys[i], if keys[i] in names then names[keys[i]] else "NA") == Success(out[i])
  {
    if |keys| > 0 {
      var front := keys[..|keys| - 1];
      LeftoverLines(front, names, annotate);
      assert forall i :: 0 <= i < |front| ==> front[i] == keys[i];
    }
  }

  /** The whole run: parse the names, skip the cancer file's header, annotate its introns,
      then the unused names. */
  function CancerAnnotationOf(nameLines: seq<string>, cancerLines: seq<string>, annotate: Annotate): Result<seq<string>>
  {
    match ParseNames(nameLines)
    case Failure(e) => Failure(e)
    case Success(d) =>
      if |cancerLines| == 0 then Failure(STOP_ITERATION)
      else
        match CancerPass(cancerLines[1..], d, annotate)
        case Failure(e) => Failure(e)
        case Success(p) =>
          match Leftover(p.rest.order, p.rest.names, annotate)
          case Failure(e) => Failure(e)
          case Success(more) => Success(p.out + more)
  }

  // ---------------------------------------------------------------------------------------
  // Every name is written exactly once

  /** How many of the pairs write intron k with a name from the dict. */
  function NamedCount(pairs: seq<(string, Option<string>)>, k: string): nat
  {
    if |pairs| == 0 then 0
    else NamedCount(pairs[..|pairs| - 1], k) + (if pairs[|pairs| - 1].0 == k && pairs[|pairs| - 1].1.Some? then 1 else 0)
  }

  lemma {:induction false} NamedCountAppend(a: seq<(string, Option<string>)>, b: seq<(string, Option<string>)>, k: string)
    ensures NamedCount(a + b, k) == NamedCount(a, k) + NamedCount(b, k)
  {
    if |b| == 0 {
      assert a + b == a;
    } else {
      assert (a + b)[..|a + b| - 1] == a + b[..|b| - 1];
      assert (a + b)[|a + b| - 1] == b[|b| - 1];
      NamedCountAppend(a, b[..|b| - 1], k);
    }
  }

  /** A key listed once is written with a name once by the leftover pass. */
  lemma {:induction false} LeftoverNamedCount(keys: seq<string>, names: map<string, string>, k: string)
    requires Distinct(keys) && forall x :: x in keys ==> x in names
    ensures NamedCount(LeftoverPairs(keys, names), k) == if k in keys then 1 else 0
  {
    if |keys| > 0 {
      var front := keys[..|keys| - 1];
      var last := keys[|keys| - 1];
      DistinctInit(keys);
      assert forall x :: x in front ==> x in keys;
      LeftoverNamedCount(front, names, k);
      var pairs := LeftoverPairs(keys, names);
      assert pairs[..|pairs| - 1] == LeftoverPairs(front, names);
      assert pairs[|pairs| - 1] == (last, Some(names[last]));
      assert NamedCount(pairs, k) == NamedCount(LeftoverPairs(front, names), k) + (if last == k then 1 else 0);
      assert k in keys <==> k in front || last == k;
    }
  }

  /** What the cancer pass keeps true: the remaining dict is the original one without the
      introns written so far; an intron is written with a name exactly at its first
      appearance when the dict has it, and then with the dict's name; and each intron is
      counted once between the written names and the remaining dict. */
  ghost predicate PassKeeps(d0: NameDict, p: Pass)
  {
    && NameDictValid(p.rest)
    && RestUnwritten(d0, p.written, p.rest)
    && (forall k :: k in p.rest.names ==> p.rest.names[k] == d0.names[k])
    && NamedFirstTime(d0, p.written)
    && NamesFromDict(d0, p.written)
    && CountedOnce(d0, p.written, p.rest)
  }

  ghost predicate RestUnwritten(d0: NameDict, written: seq<(string, Option<string>)>, rest: NameDict)
  {
    forall k :: k in rest.names <==> k in d0.names && forall j :: 0 <= j < |written| ==> written[j].0 != k
  }

  ghost predicate NamedFirstTime(d0: NameDict, written: seq<(string, Option<string>)>)
  {
    forall i :: 0 <= i < |written| ==>
      (written[i].1.Some? <==> written[i].0 in d0.names && forall j :: 0 <= j < i ==> written[j].0 != written[i].0)
  }

  ghost predicate NamesFromDict(d0: NameDict, written: seq<(string, Option<string>)>)
  {
    forall i :: 0 <= i < |written| && written[i].1.Some? ==> written[i].0 in d0.names && written[i].1.value == d0.names[written[i].0]
  }

  ghost predicate CountedOnce(d0: NameDict, written: seq<(string, Option<string>)>, rest: NameDict)
  {
    forall k :: NamedCount(written, k) + (if k in rest.names then 1 else 0) == if k in d0.names then 1 else 0
  }

  /** One line of the cancer pass, from the pass so far. */
  lemma CancerPassStep(lines: seq<string>, d0: NameDict, annotate: Annotate)
    requires |lines| > 0 && CancerPass(lines, d0, annotate).Success?
    ensures CancerPass(lines[..|lines| - 1], d0, annotate).Success?
    ensures |Split(lines[|lines| - 1], '\t')| >= 3
    ensures var p := CancerPass(lines[..|lines| - 1], d0, annotate).value;
      var intron := Split(lines[|lines| - 1], '\t')[2];
      var p' := CancerPass(lines, d0, annotate).value;
      p'.written == p.written + [(intron, Taken(p.rest, intron))] && p'.rest == Remaining(p.rest, intron)
  {
  }

  lemma RestUnwrittenStep(d0: NameDict, written: seq<(string, Option<string>)>, rest: NameDict, intron: string)
    requires RestUnwritten(d0, written, rest)
    ensures RestUnwritten(d0, written + [(intron, Taken(rest, intron))], Remaining(rest, intron))
  {
    var w := written + [(intron, Taken(rest, intron))];
    var rest' := Remaining(rest, intron);
    assert rest'.names.Keys == rest.names.Keys - {intron};
    forall k ensures k in rest'.names <==> k in d0.names && forall j :: 0 <= j < |w| ==> w[j].0 != k {
      assert w[|written|].0 == intron;
      assert forall j :: 0 <= j < |written| ==> w[j] == written[j];
    }
  }

  lemma NamedFirstTimeStep(d0: NameDict, written: seq<(string, Option<string>)>, rest: NameDict, intron: string)
    requires RestUnwritten(d0, written, rest) && NamedFirstTime(d0, written)
    ensures NamedFirstTime(d0, written + [(intron, Taken(rest, intron))])
  {
    var w := written + [(intron, Taken(rest, intron))];
    forall j | 0 <= j < |written| ensures w[j] == written[j] { }
  }

  lemma NamesFromDictStep(d0: NameDict, written: seq<(string, Option<string>)>, rest: NameDict, intron: string)
    requires NamesFromDict(d0, written) && forall k :: k in rest.names ==> k in d0.names && rest.names[k] == d0.names[k]
    ensures NamesFromDict(d0, written + [(intron, Taken(rest, intron))])
  {
    var w := written + [(intron, Taken(rest, intron))];
    forall j | 0 <= j < |written| ensures w[j] == written[j] { }
  }

  lemma CountedOnceStep(d0: NameDict, written: seq<(string, Option<string>)>, rest: NameDict, intron: string)
    requires CountedOnce(d0, written, rest)
    ensures CountedOnce(d0, written + [(intron, Taken(rest, intron))], Remaining(rest, intron))
  {
    var w := written + [(intron, Taken(rest, intron))];
    assert w[..|written|] == written;
    forall k ensures NamedCount(w, k) == NamedCount(written, k) + (if intron == k && intron in rest.names then 1 else 0) {
    }
  }

  lemma PassKeepsStep(d0: NameDict, p: Pass, intron: string, out: seq<string>)
    requires NameDictValid(d0) && PassKeeps(d0, p)
    ensures PassKeeps(d0, Pass(out, p.written + [(intron, Taken(p.rest, intron))], Remaining(p.rest, intron)))
  {
    RestUnwrittenStep(d0, p.written, p.rest, intron);
    NamedFirstTimeStep(d0, p.written, p.rest, intron);
    NamesFromDictStep(d0, p.written, p.rest, intron);
    CountedOnceStep(d0, p.written, p.rest, intron);
  }

  lemma {:induction false} CancerPassKeeps(lines: seq<string>, d0: NameDict, annotate: Annotate)
    requires NameDictValid(d0) && CancerPass(lines, d0, annotate).Success?
    ensures PassKeeps(d0, CancerPass(lines, d0, annotate).value)
  {
    if |lines| > 0 {
      CancerPassStep(lines, d0, annotate);
      CancerPassKeeps(lines[..|lines| - 1], d0, annotate);
      var p := CancerPass(lines[..|lines| - 1], d0, annotate).value;
      var intron := Split(lines[|lines| - 1], '\t')[2];
      PassKeepsStep(d0, p, intron, CancerPass(lines, d0, annotate).value.out);
    }
  }

  /** Every intron of the names file is written with its name exactly once over both
      passes. */
  lemma NamesWrittenOnce(lines: seq<string>, d0: NameDict, annotate: Annotate, k: string)
    requires NameDictValid(d0) && CancerPass(lines, d0, annotate).Success?
    ensures var p := CancerPass(lines, d0, annotate).value;
      NamedCount(p.written + LeftoverPairs(p.rest.order, p.rest.names), k) == (if k in d0.names then 1 else 0)
  {
    var p := CancerPass(lines, d0, annotate).value;
    CancerPassKeeps(lines, d0, annotate);
    assert CountedOnce(d0, p.written, p.rest);
    NamedCountAppend(p.written, LeftoverPairs(p.rest.order, p.rest.names), k);
    LeftoverNamedCount(p.rest.order, p.rest.names, k);
  }

  lemma NamesFromDictAppend(d0: NameDict, a: seq<(string, Option<string>)>, b: seq<(string, Option<string>)>)
    requires NamesFromDict(d0, a) && NamesFromDict(d0, b)
    ensures NamesFromDict(d0, a + b)
  {
    var all := a + b;
    forall i | 0 <= i < |all| && all[i].1.Some? ensures all[i].0 in d0.names && all[i].1.value == d0.names[all[i].0] {
      if i >= |a| {
        assert all[i] == b[i - |a|];
      } else {
        assert all[i] == a[i];
      }
    }
  }

  /** Every name written, in either pass, is the names file's name for that intron. */
  lemma NamesWrittenFromDict(lines: seq<string>, d0: NameDict, annotate: Annotate)
    requires NameDictValid(d0) && CancerPass(lines, d0, annotate).Success?
    ensures var p := CancerPass(lines, d0, annotate).value;
      var all := p.written + LeftoverPairs(p.rest.order, p.rest.names);
      forall i :: 0 <= i < |all| && all[i].1.Some? ==> all[i].0 in d0.names && all[i].1.value == d0.names[all[i].0]
  {
    var p := CancerPass(lines, d0, annotate).value;
    CancerPassKeeps(lines, d0, annotate);
    assert NamesFromDict(d0, p.written);
    var left := LeftoverPairs(p.rest.order, p.rest.names);
    assert NamesFromDict(d0, left) by {
      forall j | 0 <= j < |left| && left[j].1.Some? ensures left[j].0 in d0.names && left[j].1.value == d0.names[left[j].0] {
        assert left[j].0 in p.rest.names;
      }
    }
    NamesFromDictAppend(d0, p.written, left);
  }

  /** The cancer pass writes one line per line of the file, each the annotation of its pair. */
  lemma {:induction false} CancerPassLines(lines: seq<string>, d0: NameDict, annotate: Annotate)
    requires CancerPass(lines, d0, annotate).Success?
    ensures var p := CancerPass(lines, d0, annotate).value;
      |p.out| == |p.written| == |lines|
      && forall i :: 0 <= i < |lines| ==>
           |Split(lines[i], '\t')| >= 3 && p.written[i].0 == Split(lines[i], '\t')[2]
           && annotate(p.written[i].0, NameOr(p.written[i].1)) == Success(p.out[i])
  {
    if |lines| > 0 {
      var front := lines[..|lines| - 1];
      CancerPassLines(front, d0, annotate);
      assert forall i :: 0 <= i < |front| ==> front[i] == lines[i];
    }
  }

  // ---------------------------------------------------------------------------------------
  // The imperative main

  lemma {:induction false} PassPrefixFailure(lines: seq<string>, n: nat, d: NameDict, annotate: Annotate)
    requires n <= |lines| && CancerPass(lines[..n], d, annotate).Failure?
    ensures CancerPass(lines, d, annotate) == CancerPass(lines[..n], d, annotate)
    decreases |lines| - n
  {
    if n < |lines| {
      assert lines[..n + 1][..n] == lines[..n];
      PassPrefixFailure(lines, n + 1, d, annotate);
    } else {
      assert lines[..n] == lines;
    }
  }

  lemma {:induction false} LeftoverPrefixFailure(keys: seq<string>, n: nat, names: map<string, string>, annotate: Annotate)
    requires n <= |keys| && Leftover(keys[..n], names, annotate).Failure?
    ensures Leftover(keys, names, annotate) == Leftover(keys[..n], names, annotate)
    decreases |keys| - n
  {
    if n < |keys| {
      assert keys[..n + 1][..n] == keys[..n];
      LeftoverPrefixFailure(keys, n + 1, names, annotate);
    } else {
      assert keys[..n] == keys;
    }
  }

  lemma CancerPassNext(lines: seq<string>, i: nat, d0: NameDict, annotate: Annotate, p: Pass, intron: string, line: string)
    requires i < |lines| && CancerPass(lines[..i], d0, annotate) == Success(p)
    requires |Split(lines[i], '\t')| >= 3 && intron == Split(lines[i], '\t')[2]
    requires annotate(intron, NameOr(Taken(p.rest, intron))) == Success(line)
    ensures CancerPass(lines[..i + 1], d0, annotate)
            == Success(Pass(p.out + [line], p.written + [(intron, Taken(p.rest, intron))], Remaining(p.rest, intron)))
  {
    assert lines[..i + 1][..i] == lines[..i];
  }

  lemma CancerPassStops(lines: seq<string>, i: nat, d0: NameDict, annotate: Annotate, p: Pass, e: string)
    requires i < |lines| && CancerPass(lines[..i], d0, annotate) == Success(p)
    requires var vals := Split(lines[i], '\t');
      if |vals| < 3 then e == INDEX_ERROR else annotate(vals[2], NameOr(Taken(p.rest, vals[2]))) == Failure(e)
    ensures CancerPass(lines, d0, annotate) == Failure(e)
  {
    assert lines[..i + 1][..i] == lines[..i];
    PassPrefixFailure(lines, i + 1, d0, annotate);
  }

  lemma LeftoverPrefixStep(keys: seq<string>, j: nat, names: map<string, string>, annotate: Annotate)
    requires j < |keys| && Leftover(keys[..j], names, annotate).Success?
    ensures var k := keys[j];
      Leftover(keys[..j + 1], names, annotate)
      == match annotate(k, if k in names then names[k] else "NA")
         case Failure(e) => Failure(e)
         case Success(line) => Success(Leftover(keys[..j], names, annotate).value + [line])
  {
    assert keys[..j + 1][..j] == keys[..j];
  }

  /** `intron_feature_names_dict[intron]` then `del` when the intron has a name, "NA"
      otherwise. */
  method TakeName(d: NameDict, intron: string) returns (name: string, d': NameDict)
    ensures name == NameOr(Taken(d, intron)) && d' == Remaining(d, intron)
  {
    name, d' := "NA", d;
    if intron in d.names {
      name := d.names[intron];
      d' := Delete(d, intron);
    }
  }

  /** The cancer introns loop of `main`. */
  method AnnotateCancerIntrons(lines: seq<string>, d0: NameDict, features: seq<FeatureRow>, table: seq<CountsRow>,
                               pct: real -> string) returns (r: Result<(seq<string>, NameDict)>)
    ensures match CancerPass(lines, d0, Annotator(features, table, pct))
            case Failure(e) => r == Failure(e)
            case Success(p) => r == Success((p.out, p.rest))
  {
    ghost var annotate := Annotator(features, table, pct);
    var d := d0;
    var out: seq<string> := [];
    ghost var written: seq<(string, Option<string>)> := [];
    var i := 0;
    while i < |lines|
      invariant 0 <= i <= |lines|
      invariant CancerPass(lines[..i], d0, annotate) == Success(Pass(out, written, d))
    {
      var vals := Split(lines[i], '\t');
      if |vals| < 3 {
        CancerPassStops(lines, i, d0, annotate, Pass(out, written, d), INDEX_ERROR);
        return Failure(INDEX_ERROR);
      }
      var intron := vals[2];
      ghost var before := d;
      var name;
      name, d := TakeName(d, intron);
      var line := WriteIntronFeatureAnnotation(features, table, intron, name, pct);
      assert annotate(intron, name) == line;
      if line.Failure? {
        CancerPassStops(lines, i, d0, annotate, Pass(out, written, before), line.error);
        return Failure(line.error);
      }
      CancerPassNext(lines, i, d0, annotate, Pass(out, written, before), intron, line.value);
      out := out + [line.value];
      written := written + [(intron, Taken(before, intron))];
      i := i + 1;
    }
    assert lines[..|lines|] == lines;
    return Success((out, d));
  }

  /** The leftover loop of `main`. */
  method AnnotateLeftover(d: NameDict, features: seq<FeatureRow>, table: seq<CountsRow>, pct: real -> string)
    returns (r: Result<seq<string>>)
    ensures r == Leftover(d.order, d.names, Annotator(features, table, pct))
  {
    ghost var annotate := Annotator(features, table, pct);
    var keys := d.order;
    var more: seq<string> := [];
    var j := 0;
    while j < |keys|
      invariant 0 <= j <= |keys|
      invariant Leftover(keys[..j], d.names, annotate) == Success(more)
    {
      LeftoverPrefixStep(keys, j, d.names, annotate);
      var k := keys[j];
      var name := if k in d.names then d.names[k] else "NA";
      var line := WriteIntronFeatureAnnotation(features, table, k, name, pct);
      assert annotate(k, name) == line;
      if line.Failure? {
        LeftoverPrefixFailure(keys, j + 1, d.names, annotate);
        return Failure(line.error);
      }
      more := more + [line.value];
      j := j + 1;
    }
    assert keys[..|keys|] == keys;
    return Success(more);
  }

  /** `main`. */
  method CancerIntronAnnotation(nameLines: seq<string>, cancerLines: seq<string>, features: seq<FeatureRow>,
                                table: seq<CountsRow>, pct: real -> string) returns (r: Result<seq<string>>)
    ensures r == CancerAnnotationOf(nameLines, cancerLines, Annotator(features, table, pct))
  {
    var parsed := ParseIntronFeatureNames(nameLines);
    if parsed.Failure? {
      return Failure(parsed.error);
    }
    if |cancerLines| == 0 {
      return Failure(STOP_ITERATION);
    }
    var passed := AnnotateCancerIntrons(cancerLines[1..], parsed.value, features, table, pct);
    if passed.Failure? {
      return Failure(passed.error);
    }
    var (out, rest) := passed.value;
    var more := AnnotateLeftover(rest, features, table, pct);
    if more.Failure? {
      return Failure(more.error);
    }
    return Success(out + more.value);
  }
}
