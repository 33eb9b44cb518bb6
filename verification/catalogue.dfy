/**
  The catalogue of engine steps: one constructor per annotator, each fixing
  the step name, the default options (which the caller's options override)
  and the prerequisite annotators, themselves built with their defaults.
 */
module Catalogue {
  import opened Js
  import opened Dedup
  import opened Annotators

  const TokenizeDefaults: map<string, Json> := map[
    "language" := Str("Unspecified"),
    "whitespace" := Bool(false),
    "keepeol" := Bool(false),
    "verbose" := Bool(false)]

  const SsplitDefaults: map<string, Json> := map[
    "eolonly" := Bool(false),
    "isOneSentence" := Bool(false),
    "newlineIsSentenceBreak" := Str("never"),
    "boundaryMultiTokenRegex" := Null,
    "boundaryTokenRegex" := Str("\\.|[!?]+"),
    "boundariesToDiscard" := Null,
    "htmlBoundariesToDiscard" := Null,
    "tokenPatternsToDiscard" := Null,
    "boundaryFollowersRegex" := Null]

  const NerDefaults: map<string, Json> := map[
    "useSUTime" := Bool(true),
    "applyNumericClassifiers" := Bool(true)]

  const RegexnerDefaults: map<string, Json> := map[
    "validpospattern" := Str("(([ner:PERSON]*) /es/ /una/ /buena/ /persona/)"),
    "verbose" := Bool(true)]

  /** `{ ...defaults, ...options }`: every option the caller passes wins, every
      other default is kept, and nothing else is set. */
  predicate Configured(a: Annotator, defaults: map<string, Json>, o: map<string, Json>) {
    a.options.Keys == defaults.Keys + o.Keys &&
    (forall k :: k in o ==> OptionValue(a, k) == o[k]) &&
    (forall k :: k in defaults && k !in o ==> OptionValue(a, k) == defaults[k])
  }

  /** Options merged over defaults are configured by them. */
  lemma MergedOptions(a: Annotator, defaults: map<string, Json>, o: map<string, Json>)
    requires a.options == defaults + o
    ensures Configured(a, defaults, o)
  {
  }

  /** Options taken as given are configured with no defaults. */
  lemma OwnOptions(a: Annotator, o: map<string, Json>)
    requires a.options == o
    ensures Configured(a, map[], o)
  {
    assert map[] + o == o;
    MergedOptions(a, map[], o);
  }

  // ---------------------------------------------------------------------------
  // The catalogue's dependency shapes (see `Annotators.PipelineByLayers`),
  // first over arbitrary distinct step names, then for the catalogue's own
  // names.

  /** The layers `t` then `ts`. */
  lemma LayersTwo(t: string, s: string, rest: seq<seq<string>>)
    requires s != t
    ensures Layers([], [[t], [t, s]] + rest) == Layers([t, s], rest)
  {
    assert [] + [t] == [t] && [t] + [s] == [t, s];
    assert [[t], [t, s]] + rest == [[] + [t]] + ([[t] + [s]] + rest);
    LayersGrow([], t, [[t] + [s]] + rest);
    LayersGrow([t], s, rest);
  }

  /** Two layers each adding one name to the collected `t`, `s`. */
  lemma LayersPlusTwo(t: string, s: string, p: string, l: string, rest: seq<seq<string>>)
    requires p !in [t, s] && l !in [t, s, p]
    ensures Layers([t, s], [[t, s, p], [t, s, p, l]] + rest) == Layers([t, s, p, l], rest)
  {
    assert [t, s] + [p] == [t, s, p] && [t, s, p] + [l] == [t, s, p, l];
    assert [[t, s, p], [t, s, p, l]] + rest == [[t, s] + [p]] + ([[t, s, p] + [l]] + rest);
    LayersGrow([t, s], p, [[t, s, p] + [l]] + rest);
    LayersGrow([t, s, p], l, rest);
  }

  /** The four layers `t`, `ts`, `tsp`, `tspl`. */
  lemma LayersFour(t: string, s: string, p: string, l: string, rest: seq<seq<string>>)
    requires s != t && p !in [t, s] && l !in [t, s, p]
    ensures Layers([], [[t], [t, s], [t, s, p], [t, s, p, l]] + rest) == Layers([t, s, p, l], rest)
  {
    var tail := [[t, s, p], [t, s, p, l]] + rest;
    assert [[t], [t, s], [t, s, p], [t, s, p, l]] + rest == [[t], [t, s]] + tail;
    LayersTwo(t, s, tail);
    LayersPlusTwo(t, s, p, l, rest);
  }

  /** A last layer adding `x` after steps already collected. */
  lemma LayersLast(u: seq<string>, x: string, base: seq<string>)
    requires x !in u
    requires forall i :: 0 <= i < |base| ==> base[i] in u
    ensures Layers(u, [base + [x]]) == u + [x]
  {
    assert [base + [x]] == [base + [x]] + [];
    LayersExtend(u, base + [x], base, [x], [], u + [x]);
  }

  /** The layers `t`, `ts`, `tsp`. */
  lemma LayersThree(t: string, s: string, p: string)
    requires s != t && p !in [t, s]
    ensures Layers([], [[t], [t, s], [t, s, p]]) == [t, s, p]
  {
    assert [t, s] + [p] == [t, s, p];
    assert [[t], [t, s], [t, s, p]] == [[t], [t, s]] + [[t, s] + [p]];
    LayersTwo(t, s, [[t, s] + [p]]);
    LayersLast([t, s], p, [t, s]);
  }

  /** The layers `t`, `ts`, `tsp`, `tspl`, and a fifth adding `x` after
      steps already collected. */
  lemma LayersFive(t: string, s: string, p: string, l: string, x: string, base: seq<string>)
    requires s != t && p !in [t, s] && l !in [t, s, p] && x !in [t, s, p, l]
    requires forall i :: 0 <= i < |base| ==> base[i] in [t, s, p, l]
    ensures Layers([], [[t], [t, s], [t, s, p], [t, s, p, l], base + [x]]) == [t, s, p, l, x]
  {
    assert [[t], [t, s], [t, s, p], [t, s, p, l], base + [x]] ==
      [[t], [t, s], [t, s, p], [t, s, p, l]] + [base + [x]];
    LayersFour(t, s, p, l, [base + [x]]);
    LayersLast([t, s, p, l], x, base);
  }

  /** After `tspl`, a layer adding `n` after `ts` and one adding `x` after
      steps already collected. */
  lemma LayersLastTwo(t: string, s: string, p: string, l: string, n: string, x: string, base: seq<string>)
    requires n !in [t, s, p, l] && x !in [t, s, p, l, n]
    requires forall i :: 0 <= i < |base| ==> base[i] in [t, s, p, l, n]
    ensures Layers([t, s, p, l], [[t, s, n], base + [x]]) == [t, s, p, l, n, x]
  {
    var u := [t, s, p, l];
    assert forall i :: 0 <= i < 2 ==> [t, s][i] in u;
    assert [t, s] + [n] == [t, s, n] && u + [n] == [t, s, p, l, n];
    assert [[t, s, n], base + [x]] == [[t, s] + [n]] + [base + [x]];
    LayersExtend(u, [t, s] + [n], [t, s], [n], [base + [x]], u + [n]);
    LayersLast(u + [n], x, base);
  }

  /** Six layers: `t`, `ts`, `tsp`, `tspl`, a fifth adding `n` after `ts`,
      and a sixth adding `x` after steps already collected. */
  lemma LayersSix(t: string, s: string, p: string, l: string, n: string, x: string, base: seq<string>)
    requires s != t && p !in [t, s] && l !in [t, s, p] && n !in [t, s, p, l] && x !in [t, s, p, l, n]
    requires forall i :: 0 <= i < |base| ==> base[i] in [t, s, p, l, n]
    ensures Layers([], [[t], [t, s], [t, s, p], [t, s, p, l], [t, s, n], base + [x]]) == [t, s, p, l, n, x]
  {
    var rest := [[t, s, n], base + [x]];
    assert [[t], [t, s], [t, s, p], [t, s, p, l], [t, s, n], base + [x]] ==
      [[t], [t, s], [t, s, p], [t, s, p, l]] + rest;
    LayersFour(t, s, p, l, rest);
    LayersLastTwo(t, s, p, l, n, x, base);
  }

  /** Prerequisites with pipelines `t` and `ts`. */
  lemma ShapeTwo(a: Annotator, t: string, s: string)
    requires s != t && a.name !in [t, s]
    requires |a.dependencies| == 2
    requires Pipeline(a.dependencies[0]) == [t]
    requires Pipeline(a.dependencies[1]) == [t, s]
    ensures Pipeline(a) == [t, s, a.name]
  {
    var ps := [[t], [t, s]];
    forall k | 0 <= k < 2
      ensures Pipeline(a.dependencies[k]) == ps[k]
    {
      if k == 0 {} else {}
    }
    PipelineByLayers(a, ps);
    assert ps == [[t], [t, s]] + [];
    LayersTwo(t, s, []);
  }

  /** Prerequisites with pipelines `t`, `ts` and `tsp`. */
  lemma ShapeThree(a: Annotator, t: string, s: string, p: string)
    requires s != t && p !in [t, s] && a.name !in [t, s, p]
    requires |a.dependencies| == 3
    requires Pipeline(a.dependencies[0]) == [t]
    requires Pipeline(a.dependencies[1]) == [t, s]
    requires Pipeline(a.dependencies[2]) == [t, s, p]
    ensures Pipeline(a) == [t, s, p, a.name]
  {
    var ps := [[t], [t, s], [t, s, p]];
    forall k | 0 <= k < 3
      ensures Pipeline(a.dependencies[k]) == ps[k]
    {
      if k == 0 {} else if k == 1 {} else {}
    }
    PipelineByLayers(a, ps);
    LayersThree(t, s, p);
  }

  /** Prerequisites with pipelines `t`, `ts`, `tsp`, `tspl`, and a fifth
      adding `x` after steps already requested. */
  lemma ShapeFive(a: Annotator, t: string, s: string, p: string, l: string, x: string, base: seq<string>)
    requires s != t && p !in [t, s] && l !in [t, s, p]
    requires x !in [t, s, p, l] && a.name !in [t, s, p, l, x]
    requires forall i :: 0 <= i < |base| ==> base[i] in [t, s, p, l]
    requires |a.dependencies| == 5
    requires Pipeline(a.dependencies[0]) == [t]
    requires Pipeline(a.dependencies[1]) == [t, s]
    requires Pipeline(a.dependencies[2]) == [t, s, p]
    requires Pipeline(a.dependencies[3]) == [t, s, p, l]
    requires Pipeline(a.dependencies[4]) == base + [x]
    ensures Pipeline(a) == [t, s, p, l, x, a.name]
  {
    var ps := [[t], [t, s], [t, s, p], [t, s, p, l], base + [x]];
    forall k | 0 <= k < 5
      ensures Pipeline(a.dependencies[k]) == ps[k]
    {
      if k == 0 {} else if k == 1 {} else if k == 2 {} else if k == 3 {} else {}
    }
    PipelineByLayers(a, ps);
    LayersFive(t, s, p, l, x, base);
  }

  /** Prerequisites with pipelines `t`, `ts`, `tsp`, `tspl`, a fifth adding
      `n` after `ts`, and a sixth adding `x` after steps already requested. */
  lemma ShapeSix(a: Annotator, t: string, s: string, p: string, l: string, n: string, x: string, base: seq<string>)
    requires s != t && p !in [t, s] && l !in [t, s, p] && n !in [t, s, p, l]
    requires x !in [t, s, p, l, n] && a.name !in [t, s, p, l, n, x]
    requires forall i :: 0 <= i < |base| ==> base[i] in [t, s, p, l, n]
    requires |a.dependencies| == 6
    requires Pipeline(a.dependencies[0]) == [t]
    requires Pipeline(a.dependencies[1]) == [t, s]
    requires Pipeline(a.dependencies[2]) == [t, s, p]
    requires Pipeline(a.dependencies[3]) == [t, s, p, l]
    requires Pipeline(a.dependencies[4]) == [t, s, n]
    requires Pipeline(a.dependencies[5]) == base + [x]
    ensures Pipeline(a) == [t, s, p, l, n, x, a.name]
  {
    var ps := [[t], [t, s], [t, s, p], [t, s, p, l], [t, s, n], base + [x]];
    forall k | 0 <= k < 6
      ensures Pipeline(a.dependencies[k]) == ps[k]
    {
      if k == 0 {} else if k == 1 {} else if k == 2 {} else if k == 3 {} else if k == 4 {} else {}
    }
    PipelineByLayers(a, ps);
    LayersSix(t, s, p, l, n, x, base);
  }

  /** The prerequisite of ssplit. */
  lemma SsplitShape(a: Annotator)
    requires |a.dependencies| == 1
    requires Pipeline(a.dependencies[0]) == ["tokenize"]
    requires a.name == "ssplit"
    ensures Pipeline(a) == ["tokenize", "ssplit"]
  {
    PipelineOverOne(a, ["tokenize"]);
  }

  /** Prerequisites tokenize and ssplit. */
  lemma ShapeTS(a: Annotator)
    requires |a.dependencies| == 2
    requires Pipeline(a.dependencies[0]) == ["tokenize"]
    requires Pipeline(a.dependencies[1]) == ["tokenize", "ssplit"]
    requires a.name != "tokenize" && a.name != "ssplit"
    ensures Pipeline(a) == ["tokenize", "ssplit", a.name]
  {
    ShapeTwo(a, "tokenize", "ssplit");
  }

  /** Prerequisites tokenize, ssplit and pos. */
  lemma ShapeTSP(a: Annotator)
    requires |a.dependencies| == 3
    requires Pipeline(a.dependencies[0]) == ["tokenize"]
    requires Pipeline(a.dependencies[1]) == ["tokenize", "ssplit"]
    requires Pipeline(a.dependencies[2]) == ["tokenize", "ssplit", "pos"]
    requires a.name != "tokenize" && a.name != "ssplit" && a.name != "pos"
    ensures Pipeline(a) == ["tokenize", "ssplit", "pos", a.name]
  {
    ShapeThree(a, "tokenize", "ssplit", "pos");
  }

  /** The prerequisites of relation. */
  lemma RelationShape(a: Annotator)
    requires |a.dependencies| == 6
    requires Pipeline(a.dependencies[0]) == ["tokenize"]
    requires Pipeline(a.dependencies[1]) == ["tokenize", "ssplit"]
    requires Pipeline(a.dependencies[2]) == ["tokenize", "ssplit", "pos"]
    requires Pipeline(a.dependencies[3]) == ["tokenize", "ssplit", "pos", "lemma"]
    requires Pipeline(a.dependencies[4]) == ["tokenize", "ssplit", "ner"]
    requires Pipeline(a.dependencies[5]) == ["tokenize", "ssplit", "pos", "depparse"]
    requires a.name == "relation"
    ensures Pipeline(a) == ["tokenize", "ssplit", "pos", "lemma", "ner", "depparse", "relation"]
  {
    ShapeSix(a, "tokenize", "ssplit", "pos", "lemma", "ner", "depparse", ["tokenize", "ssplit", "pos"]);
  }

  /** The prerequisites of dcoref. */
  lemma DcorefShape(a: Annotator)
    requires |a.dependencies| == 6
    requires Pipeline(a.dependencies[0]) == ["tokenize"]
    requires Pipeline(a.dependencies[1]) == ["tokenize", "ssplit"]
    requires Pipeline(a.dependencies[2]) == ["tokenize", "ssplit", "pos"]
    requires Pipeline(a.dependencies[3]) == ["tokenize", "ssplit", "pos", "lemma"]
    requires Pipeline(a.dependencies[4]) == ["tokenize", "ssplit", "ner"]
    requires Pipeline(a.dependencies[5]) == ["tokenize", "ssplit", "parse"]
    requires a.name == "dcoref"
    ensures Pipeline(a) == ["tokenize", "ssplit", "pos", "lemma", "ner", "parse", "dcoref"]
  {
    ShapeSix(a, "tokenize", "ssplit", "pos", "lemma", "ner", "parse", ["tokenize", "ssplit"]);
  }

  /** The prerequisites of natlog. */
  lemma NatlogShape(a: Annotator)
    requires |a.dependencies| == 5
    requires Pipeline(a.dependencies[0]) == ["tokenize"]
    requires Pipeline(a.dependencies[1]) == ["tokenize", "ssplit"]
    requires Pipeline(a.dependencies[2]) == ["tokenize", "ssplit", "pos"]
    requires Pipeline(a.dependencies[3]) == ["tokenize", "ssplit", "pos", "lemma"]
    requires Pipeline(a.dependencies[4]) == ["tokenize", "ssplit", "pos", "depparse"]
    requires a.name == "natlog"
    ensures Pipeline(a) == ["tokenize", "ssplit", "pos", "lemma", "depparse", "natlog"]
  {
    ShapeFive(a, "tokenize", "ssplit", "pos", "lemma", "depparse", ["tokenize", "ssplit", "pos"]);
  }

  /** The prerequisite of openie. */
  lemma OpenieShape(a: Annotator)
    requires |a.dependencies| == 1
    requires Pipeline(a.dependencies[0]) == ["tokenize", "ssplit", "pos", "lemma", "depparse", "natlog"]
    requires a.name == "openie"
    ensures Pipeline(a) == ["tokenize", "ssplit", "pos", "lemma", "depparse", "natlog", "openie"]
  {
    PipelineOverOne(a, ["tokenize", "ssplit", "pos", "lemma", "depparse", "natlog"]);
  }

  // ---------------------------------------------------------------------------
  // The annotators

  /** `TokenizerAnnotator`. */
  function Tokenize(o: map<string, Json>): (a: Annotator)
    ensures a.name == "tokenize" && a.dependencies == []
    ensures Configured(a, TokenizeDefaults, o)
    ensures Pipeline(a) == ["tokenize"]
  {
    var a := Annotator("tokenize", TokenizeDefaults + o, []);
    MergedOptions(a, TokenizeDefaults, o);
    PipelineByLayers(a, []);
    a
  }

  /** `WordsToSentenceAnnotator`. */
  function Ssplit(o: map<string, Json>): (a: Annotator)
    ensures a.name == "ssplit" && a.dependencies == [Tokenize(map[])]
    ensures Configured(a, SsplitDefaults, o)
    ensures Pipeline(a) == ["tokenize", "ssplit"]
  {
    var a := Annotator("ssplit", SsplitDefaults + o, [Tokenize(map[])]);
    MergedOptions(a, SsplitDefaults, o);
    SsplitShape(a);
    a
  }

  /** `POSTaggerAnnotator`. */
  function Pos(o: map<string, Json>): (a: Annotator)
    ensures a.name == "pos" && a.dependencies == [Tokenize(map[]), Ssplit(map[])]
    ensures Configured(a, map[], o)
    ensures Pipeline(a) == ["tokenize", "ssplit", "pos"]
  {
    var a := Annotator("pos", o, [Tokenize(map[]), Ssplit(map[])]);
    OwnOptions(a, o);
    ShapeTS(a);
    a
  }

  /** `MorphaAnnotator`. */
  function Lemma(o: map<string, Json>): (a: Annotator)
    ensures a.name == "lemma" && a.dependencies == [Tokenize(map[]), Ssplit(map[]), Pos(map[])]
    ensures Configured(a, map[], o)
    ensures Pipeline(a) == ["tokenize", "ssplit", "pos", "lemma"]
  {
    var a := Annotator("lemma", o, [Tokenize(map[]), Ssplit(map[]), Pos(map[])]);
    OwnOptions(a, o);
    ShapeTSP(a);
    a
  }

  /** `NERClassifierCombiner`: declares only tokenize and ssplit as
      prerequisites, so its pipeline has no pos or lemma step. */
  function Ner(o: map<string, Json>): (a: Annotator)
    ensures a.name == "ner" && a.dependencies == [Tokenize(map[]), Ssplit(map[])]
    ensures Configured(a, NerDefaults, o)
    ensures Pipeline(a) == ["tokenize", "ssplit", "ner"]
  {
    var a := Annotator("ner", NerDefaults + o, [Tokenize(map[]), Ssplit(map[])]);
    MergedOptions(a, NerDefaults, o);
    ShapeTS(a);
    a
  }

  /** `ParserAnnotator`: declares only tokenize and ssplit. */
  function Parse(o: map<string, Json>): (a: Annotator)
    ensures a.name == "parse" && a.dependencies == [Tokenize(map[]), Ssplit(map[])]
    ensures Configured(a, map[], o)
    ensures Pipeline(a) == ["tokenize", "ssplit", "parse"]
  {
    var a := Annotator("parse", o, [Tokenize(map[]), Ssplit(map[])]);
    OwnOptions(a, o);
    ShapeTS(a);
    a
  }

  /** `DependencyParseAnnotator`. */
  function Depparse(o: map<string, Json>): (a: Annotator)
    ensures a.name == "depparse" && a.dependencies == [Tokenize(map[]), Ssplit(map[]), Pos(map[])]
    ensures Configured(a, map[], o)
    ensures Pipeline(a) == ["tokenize", "ssplit", "pos", "depparse"]
  {
    var a := Annotator("depparse", o, [Tokenize(map[]), Ssplit(map[]), Pos(map[])]);
    OwnOptions(a, o);
    ShapeTSP(a);
    a
  }

  /** `RelationExtractorAnnotator`. */
  function Relation(o: map<string, Json>): (a: Annotator)
    ensures a.name == "relation"
    ensures a.dependencies ==
      [Tokenize(map[]), Ssplit(map[]), Pos(map[]), Lemma(map[]), Ner(map[]), Depparse(map[])]
    ensures Configured(a, map[], o)
    ensures Pipeline(a) == ["tokenize", "ssplit", "pos", "lemma", "ner", "depparse", "relation"]
  {
    var a := Annotator("relation", o,
      [Tokenize(map[]), Ssplit(map[]), Pos(map[]), Lemma(map[]), Ner(map[]), Depparse(map[])]);
    OwnOptions(a, o);
    RelationShape(a);
    a
  }

  /** `RegexNERAnnotator`. */
  function Regexner(o: map<string, Json>): (a: Annotator)
    ensures a.name == "regexner" && a.dependencies == [Tokenize(map[]), Ssplit(map[])]
    ensures Configured(a, RegexnerDefaults, o)
    ensures Pipeline(a) == ["tokenize", "ssplit", "regexner"]
  {
    var a := Annotator("regexner", RegexnerDefaults + o, [Tokenize(map[]), Ssplit(map[])]);
    MergedOptions(a, RegexnerDefaults, o);
    ShapeTS(a);
    a
  }

  /** `CorefAnnotator`. */
  function Coref(o: map<string, Json>): (a: Annotator)
    ensures a.name == "coref" && a.dependencies == [Tokenize(map[]), Ssplit(map[])]
    ensures Configured(a, map[], o)
    ensures Pipeline(a) == ["tokenize", "ssplit", "coref"]
  {
    var a := Annotator("coref", o, [Tokenize(map[]), Ssplit(map[])]);
    OwnOptions(a, o);
    ShapeTS(a);
    a
  }

  /** `DeterministicCorefAnnotator`. */
  function Dcoref(o: map<string, Json>): (a: Annotator)
    ensures a.name == "dcoref"
    ensures a.dependencies ==
      [Tokenize(map[]), Ssplit(map[]), Pos(map[]), Lemma(map[]), Ner(map[]), Parse(map[])]
    ensures Configured(a, map[], o)
    ensures Pipeline(a) == ["tokenize", "ssplit", "pos", "lemma", "ner", "parse", "dcoref"]
  {
    var a := Annotator("dcoref", o,
      [Tokenize(map[]), Ssplit(map[]), Pos(map[]), Lemma(map[]), Ner(map[]), Parse(map[])]);
    OwnOptions(a, o);
    DcorefShape(a);
    a
  }

  /** `NaturalLogicAnnotator`. */
  function Natlog(o: map<string, Json>): (a: Annotator)
    ensures a.name == "natlog"
    ensures a.dependencies == [Tokenize(map[]), Ssplit(map[]), Pos(map[]), Lemma(map[]), Depparse(map[])]
    ensures Configured(a, map[], o)
    ensures Pipeline(a) == ["tokenize", "ssplit", "pos", "lemma", "depparse", "natlog"]
  {
    var a := Annotator("natlog", o,
      [Tokenize(map[]), Ssplit(map[]), Pos(map[]), Lemma(map[]), Depparse(map[])]);
    OwnOptions(a, o);
    NatlogShape(a);
    a
  }

  /** `OpenIEAnnotator`: its only declared prerequisite is natlog. */
  function Openie(o: map<string, Json>): (a: Annotator)
    ensures a.name == "openie" && a.dependencies == [Natlog(map[])]
    ensures Configured(a, map[], o)
    ensures Pipeline(a) == ["tokenize", "ssplit", "pos", "lemma", "depparse", "natlog", "openie"]
  {
    var a := Annotator("openie", o, [Natlog(map[])]);
    OwnOptions(a, o);
    OpenieShape(a);
    a
  }

  /** The named entity recogniser and the constituency parser declare only
      tokenize and ssplit as dependencies, so their pipelines run neither
      the tagger nor the lemmatiser, although their tests expect
      `[tokenize, ssplit, pos, lemma, ner]` and
      `[tokenize, ssplit, pos, lemma, ner, parse]`. */
  lemma NerAndParseSkipTagging(o: map<string, Json>)
    ensures "pos" !in Pipeline(Ner(o)) && "lemma" !in Pipeline(Ner(o))
    ensures "pos" !in Pipeline(Parse(o)) && "ner" !in Pipeline(Parse(o))
    ensures Pipeline(Ner(o)) != ["tokenize", "ssplit", "pos", "lemma", "ner"]
    ensures Pipeline(Parse(o)) != ["tokenize", "ssplit", "pos", "lemma", "ner", "parse"]
  {
  }

  // ---------------------------------------------------------------------------
  // Pipeline options of the catalogue

  /** Prefixed option names under step names with different first letters
      never collide. */
  lemma PrefixedApart(n1: string, n2: string, o1: map<string, Json>, o2: map<string, Json>)
    requires |n1| > 0 && |n2| > 0 && n1[0] != n2[0]
    ensures Prefixed(n1, o1).Keys !! Prefixed(n2, o2).Keys
  {
    forall key | key in Prefixed(n1, o1)
      ensures key !in Prefixed(n2, o2)
    {
      var k1 :| k1 in o1 && key == n1 + "." + k1;
      assert key[0] == n1[0];
    }
  }

  /** The tokenizer's settings are its defaults under the caller's options. */
  lemma TokenizeOptions(o: map<string, Json>)
    ensures PipelineOptions(Tokenize(o)) == Prefixed("tokenize", TokenizeDefaults + o)
  {
    var a := Tokenize(o);
    assert a.options == TokenizeDefaults + o;
    NoDependencyOptions(a);
  }

  /** The sentence splitter sends the tokenizer's defaults and its own. */
  lemma SsplitOptions(o: map<string, Json>)
    ensures PipelineOptions(Ssplit(o)) ==
      Prefixed("tokenize", TokenizeDefaults + map[]) + Prefixed("ssplit", SsplitDefaults + o)
  {
    TokenizeOptions(map[]);
    OneDependencyOptions(Ssplit(o));
  }

  /** Options configured with no defaults are the caller's options. */
  lemma ConfiguredAsGiven(a: Annotator, o: map<string, Json>)
    requires Configured(a, map[], o)
    ensures a.options == o
  {
    forall k | k in o
      ensures a.options[k] == o[k]
    {
      assert OptionValue(a, k) == o[k];
    }
  }

  /** The tagger's `pipelineOptions()` carries every tokenize and ssplit
      default under its prefixed name, the caller's options under `pos.`,
      and nothing else. */
  lemma PosPipelineOptions(o: map<string, Json>)
    ensures forall k :: k in TokenizeDefaults ==>
      "tokenize" + "." + k in PipelineOptions(Pos(o)) && PipelineOptions(Pos(o))["tokenize" + "." + k] == TokenizeDefaults[k]
    ensures forall k :: k in SsplitDefaults ==>
      "ssplit" + "." + k in PipelineOptions(Pos(o)) && PipelineOptions(Pos(o))["ssplit" + "." + k] == SsplitDefaults[k]
    ensures forall k :: k in o ==> "pos" + "." + k in PipelineOptions(Pos(o)) && PipelineOptions(Pos(o))["pos" + "." + k] == o[k]
    ensures PipelineOptions(Pos(o)).Keys ==
      Prefixed("tokenize", TokenizeDefaults + map[]).Keys + Prefixed("ssplit", SsplitDefaults + map[]).Keys +
      Prefixed("pos", o).Keys
  {
    PosLayers(o);
    ThreeSteps(PipelineOptions(Pos(o)), "tokenize", TokenizeDefaults + map[], "ssplit", SsplitDefaults + map[], "pos", o);
  }

  /** Three steps with distinct initials, the second depending on the first
      and the third on both: every option of each is sent under its own
      prefix. */
  lemma ThreeSteps(m: map<string, Json>, n1: string, o1: map<string, Json>, n2: string, o2: map<string, Json>,
                   n3: string, o3: map<string, Json>)
    requires |n1| > 0 && |n2| > 0 && |n3| > 0 && n1[0] != n2[0] && n1[0] != n3[0] && n2[0] != n3[0]
    requires m == Prefixed(n1, o1) + (Prefixed(n1, o1) + Prefixed(n2, o2)) + Prefixed(n3, o3)
    ensures forall k :: k in o1 ==> n1 + "." + k in m && m[n1 + "." + k] == o1[k]
    ensures forall k :: k in o2 ==> n2 + "." + k in m && m[n2 + "." + k] == o2[k]
    ensures forall k :: k in o3 ==> n3 + "." + k in m && m[n3 + "." + k] == o3[k]
    ensures m.Keys == Prefixed(n1, o1).Keys + Prefixed(n2, o2).Keys + Prefixed(n3, o3).Keys
  {
    PrefixedApart(n1, n2, o1, o2);
    PrefixedApart(n1, n3, o1, o3);
    PrefixedApart(n2, n3, o2, o3);
    DisjointLayers(m, Prefixed(n1, o1), Prefixed(n2, o2), Prefixed(n3, o3));
  }

  /** The tagger merges the tokenizer's options, the splitter's (which
      repeat the tokenizer's) and its own. */
  lemma PosLayers(o: map<string, Json>)
    ensures PipelineOptions(Pos(o)) ==
      Prefixed("tokenize", TokenizeDefaults + map[]) +
      (Prefixed("tokenize", TokenizeDefaults + map[]) + Prefixed("ssplit", SsplitDefaults + map[])) +
      Prefixed("pos", o)
  {
    var a := Pos(o);
    TokenizeOptions(map[]);
    SsplitOptions(map[]);
    ConfiguredAsGiven(a, o);
    TwoDependencyOptions(a);
  }

  /** Merging `t`, then `t` and `s`, then `p`, over pairwise disjoint key
      sets keeps every entry of each. */
  lemma DisjointLayers(m: map<string, Json>, t: map<string, Json>, s: map<string, Json>, p: map<string, Json>)
    requires m == t + (t + s) + p
    requires t.Keys !! s.Keys && t.Keys !! p.Keys && s.Keys !! p.Keys
    ensures m.Keys == t.Keys + s.Keys + p.Keys
    ensures forall k :: k in t ==> m[k] == t[k]
    ensures forall k :: k in s ==> m[k] == s[k]
    ensures forall k :: k in p ==> m[k] == p[k]
  {
  }

  /** Open IE's `pipelineOptions()` are natural logic's with its own options
      added under `openie.`: every other setting is the one natlog sends. */
  lemma OpeniePipelineOptions(o: map<string, Json>)
    ensures PipelineOptions(Openie(o)).Keys == PipelineOptions(Natlog(map[])).Keys + Prefixed("openie", o).Keys
    ensures forall k :: k in o ==> PipelineOptions(Openie(o))["openie" + "." + k] == o[k]
    ensures forall key :: key in PipelineOptions(Natlog(map[])) && key !in Prefixed("openie", o) ==>
      PipelineOptions(Openie(o))[key] == PipelineOptions(Natlog(map[]))[key]
  {
    var a := Openie(o);
    ConfiguredAsGiven(a, o);
    OneDependencyOverride(a);
  }
}
