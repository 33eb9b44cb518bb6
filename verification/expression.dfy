/**
  A pattern expression (TokensRegex, Semgrex or Tregex) and its result: one
  list of matches per sentence, each match keeping the record the annotation
  engine returned, with the named nodes under keys `"_" + name`.
 */
module Expressions {
  import opened Dedup
  import opened Js
  import opened Tracking

  /** A match as `Expression.fromJson` builds it. */
  datatype Match = Match(data: Json)

  /** `label(name)`: the value under `"_" + name`. */
  function MatchLabel(m: Match, name: string): (r: Result<Json>)
    ensures r.Err? <==> Nullish(m.data)
    ensures r.Ok? ==> r.value == Get(m.data, "_" + name)
  {
    Prop(m.data, "_" + name)
  }

  /** A label reads the entry stored under its underscored key. */
  lemma MatchLabelReadsEntry(entries: seq<(string, Json)>, i: nat, name: string)
    requires OwnEntries(entries) && i < |entries| && entries[i].0 == "_" + name
    ensures MatchLabel(Match(Obj(entries)), name) == Ok(entries[i].1)
  {
    LookupUnique(entries, i);
  }

  /** `toJSON()`: a spread copy of the record. */
  function MatchToJson(m: Match): (r: Json)
    ensures r.Obj? && OwnEntries(r.entries)
  {
    Obj(Spread(m.data))
  }

  /** Reading a match back from its JSON copy gives the same record. */
  lemma MatchRoundTrip(m: Match)
    requires m.data.Obj? && OwnEntries(m.data.entries)
    ensures Match(MatchToJson(m)) == m
  {
    SpreadObject(m.data.entries);
  }

  // ---------------------------------------------------------------------------
  // Expression

  /** An expression: the annotable text, the pattern, and the matches found
      in each sentence. */
  datatype Expression = Expression(base: Annotable, pattern: Json, sentences: seq<seq<Match>>)

  /** `new Expression(text, pattern)`. */
  function NewExpression(text: Json, pattern: Json): (e: Expression)
    ensures e.base.text == text && e.base.marks == {}
    ensures e.pattern == pattern && |e.sentences| == 0
  {
    Expression(New(text), pattern, [])
  }

  /** A sentence is an array of matches, so its `toString()` is the default
      object string of each match, joined with commas. */
  function SentenceString(sent: seq<Match>): string {
    Join(seq(|sent|, _ => "[object Object]"), ",")
  }

  /** `toString()`: the text when it is truthy, else the sentences' strings
      joined with `'. '`. */
  function ExpressionToString(e: Expression): (r: Json)
    ensures Truthy(e.base.text) ==> r == e.base.text
    ensures !Truthy(e.base.text) ==> r.Str?
    ensures !Truthy(e.base.text) && |e.sentences| == 0 ==> r == Str("")
  {
    if Truthy(e.base.text) then e.base.text
    else Str(Join(seq(|e.sentences|, i requires 0 <= i < |e.sentences| => SentenceString(e.sentences[i])), ". "))
  }

  /** `c` copies of the default object string, separated by commas, built
      up one copy at a time. */
  function ObjectStrings(c: nat): string {
    if c == 0 then "" else if c == 1 then "[object Object]" else ObjectStrings(c - 1) + ",[object Object]"
  }

  /** The strings of sentences with `cs[i]` matches each, separated by
      `'. '`, built up one sentence at a time. */
  function CountsString(cs: seq<nat>): string {
    if |cs| == 0 then ""
    else if |cs| == 1 then ObjectStrings(cs[0])
    else CountsString(cs[..|cs| - 1]) + ". " + ObjectStrings(cs[|cs| - 1])
  }

  /** How many matches each sentence has. */
  function MatchCounts(e: Expression): (cs: seq<nat>)
    ensures |cs| == |e.sentences| && forall i :: 0 <= i < |cs| ==> cs[i] == |e.sentences[i]|
  {
    seq(|e.sentences|, i requires 0 <= i < |e.sentences| => |e.sentences[i]|)
  }

  /** Without a text, `toString()` writes, for each sentence, one
      `[object Object]` per match separated by commas, and separates the
      sentences with `'. '`. */
  lemma ToStringFromCounts(e: Expression)
    requires !Truthy(e.base.text)
    ensures ExpressionToString(e) == Str(CountsString(MatchCounts(e)))
  {
    var n := |e.sentences|;
    var parts := seq(|e.sentences|, i requires 0 <= i < |e.sentences| => SentenceString(e.sentences[i]));
    forall i | 0 <= i < n
      ensures parts[i] == ObjectStrings(|e.sentences[i]|)
    {
      SentenceStringCount(|e.sentences[i]|);
    }
    JoinCounts(parts, MatchCounts(e));
    assert ExpressionToString(e) == Str(Join(parts, ". "));
  }

  lemma {:induction false} SentenceStringCount(c: nat)
    ensures Join(seq(c, _ => "[object Object]"), ",") == ObjectStrings(c)
  {
    if c > 1 {
      SentenceStringCount(c - 1);
      assert seq(c, _ => "[object Object]") == seq(c - 1, _ => "[object Object]") + ["[object Object]"];
      JoinSnoc(seq(c - 1, _ => "[object Object]"), "[object Object]", ",");
    }
  }

  lemma {:induction false} JoinCounts(parts: seq<string>, cs: seq<nat>)
    requires |parts| == |cs| && forall i :: 0 <= i < |cs| ==> parts[i] == ObjectStrings(cs[i])
    ensures Join(parts, ". ") == CountsString(cs)
    decreases |cs|
  {
    if |cs| > 1 {
      var m := |cs| - 1;
      JoinCounts(parts[..m], cs[..m]);
      assert parts == parts[..m] + [parts[m]];
      JoinSnoc(parts[..m], parts[m], ". ");
    }
  }

  /** Without a text, the string form shows how many matches each sentence
      has and nothing of their content. */
  lemma ToStringShowsCountsOnly(e1: Expression, e2: Expression)
    requires !Truthy(e1.base.text) && !Truthy(e2.base.text)
    requires |e1.sentences| == |e2.sentences|
    requires forall i :: 0 <= i < |e1.sentences| ==> |e1.sentences[i]| == |e2.sentences[i]|
    ensures ExpressionToString(e1) == ExpressionToString(e2)
  {
    var p1 := seq(|e1.sentences|, i requires 0 <= i < |e1.sentences| => SentenceString(e1.sentences[i]));
    var p2 := seq(|e2.sentences|, i requires 0 <= i < |e2.sentences| => SentenceString(e2.sentences[i]));
    forall i | 0 <= i < |p1|
      ensures p1[i] == p2[i]
    {
      assert seq(|e1.sentences[i]|, _ => "[object Object]") == seq(|e2.sentences[i]|, _ => "[object Object]");
    }
    assert p1 == p2;
  }

  /** `sentence(index)`: `undefined` (`None`) outside the list. */
  function SentenceAt(e: Expression, index: int): (r: Option<seq<Match>>)
    ensures r.Some? <==> 0 <= index < |e.sentences|
    ensures r.Some? ==> r.value == e.sentences[index]
  {
    if 0 <= index < |e.sentences| then Some(e.sentences[index]) else None
  }

  /** The matches of one sentence record: one per own key other than
      `length`, in key order (the `false` the mapping leaves for `length` is
      filtered out again); reading the keys of `null` throws. */
  function MatchesOf(sent: Json): (r: Result<seq<Match>>)
    ensures r.Err? <==> Nullish(sent)
    ensures r.Ok? ==>
      var keys := ObjectKeys(sent).value;
      var p := Positions(keys, NotLength);
      |r.value| == |p| && forall i :: 0 <= i < |p| ==> r.value[i] == Match(Get(sent, keys[p[i]]))
  {
    var keys :- ObjectKeys(sent);
    var ks := Without(keys, ["length"]);
    WithoutLengthIsFilter(keys);
    Ok(seq(|ks|, i requires 0 <= i < |ks| => Match(Get(sent, ks[i]))))
  }

  /** `fromJson(data)`: a falsy `sentences` leaves the expression as it was;
      a truthy one must be an array (anything else has no `map` and throws),
      each of its elements giving one sentence. The text and pattern are not
      read from the record. */
  function ExpressionFromJson(e: Expression, data: Json): (r: Result<Expression>)
    ensures Nullish(data) ==> r == Err(TypeError)
    ensures !Nullish(data) && !Truthy(Get(data, "sentences")) ==> r == Ok(e)
    ensures !Nullish(data) && Truthy(Get(data, "sentences")) && !Get(data, "sentences").Arr? ==> r == Err(TypeError)
    ensures r.Ok? ==> r.value.base == e.base && r.value.pattern == e.pattern
    ensures !Nullish(data) && Get(data, "sentences").Arr? ==>
      var items := Get(data, "sentences").items;
      (r.Err? <==> exists i :: 0 <= i < |items| && Nullish(items[i])) &&
      (r.Ok? ==> (|r.value.sentences| == |items| &&
         forall i :: 0 <= i < |items| ==> MatchesOf(items[i]) == Ok(r.value.sentences[i])))
  {
    var sentences :- Prop(data, "sentences");
    if !Truthy(sentences) then Ok(e)
    else if !sentences.Arr? then Err(TypeError)
    else
      var ss :- MapResult(sentences.items, MatchesOf);
      Ok(e.(sentences := ss))
  }

  /** `Expression.fromJson(data)` on a fresh instance, which has neither
      text nor pattern. */
  function StaticFromJson(data: Json): (r: Result<Expression>)
    ensures r.Ok? ==> r.value.base.text == Undefined && r.value.pattern == Undefined
    ensures r.Err? <==> ExpressionFromJson(NewExpression(Undefined, Undefined), data).Err?
  {
    ExpressionFromJson(NewExpression(Undefined, Undefined), data)
  }

  /** One sentence as `JSON.stringify` writes it: an array of the matches'
      own `toJSON` copies. */
  function SentenceToJson(sent: seq<Match>): (r: Json)
    ensures r.Arr? && |r.items| == |sent|
  {
    Arr(seq(|sent|, j requires 0 <= j < |sent| => MatchToJson(sent[j])))
  }

  /** `toJSON()`: the text and the sentences. */
  function ExpressionToJson(e: Expression): (r: Json)
    ensures r.Obj? && Get(r, "text") == e.base.text
    ensures Get(r, "sentences").Arr? && |Get(r, "sentences").items| == |e.sentences|
    ensures forall i :: 0 <= i < |e.sentences| ==> Get(r, "sentences").items[i] == SentenceToJson(e.sentences[i])
  {
    var sentences := Arr(seq(|e.sentences|, i requires 0 <= i < |e.sentences| => SentenceToJson(e.sentences[i])));
    var entries := [("text", e.base.text), ("sentences", sentences)];
    assert entries[1..] == [("sentences", sentences)];
    assert Lookup(entries, "sentences") == Some(sentences);
    Obj(entries)
  }

  /** One sentence survives the trip through JSON. */
  lemma SentenceRoundTrip(sent: seq<Match>)
    requires forall j :: 0 <= j < |sent| ==> sent[j].data.Obj? && OwnEntries(sent[j].data.entries)
    ensures MatchesOf(SentenceToJson(sent)) == Ok(sent)
  {
    var v := SentenceToJson(sent);
    IndexKeysLackLength(|sent|);
    assert ObjectKeys(v).value == IndexKeys(|sent|);
    var r := MatchesOf(v).value;
    forall j | 0 <= j < |sent|
      ensures r[j] == sent[j]
    {
      GetArrayIndex(v.items, j);
      MatchRoundTrip(sent[j]);
    }
    assert r == sent;
  }

  /** Reading an expression's JSON into any expression gives it the same
      sentences and matches; its own text and pattern stay. */
  lemma ExpressionRoundTrip(e: Expression, into: Expression)
    requires forall i, j :: 0 <= i < |e.sentences| && 0 <= j < |e.sentences[i]| ==>
      e.sentences[i][j].data.Obj? && OwnEntries(e.sentences[i][j].data.entries)
    ensures ExpressionFromJson(into, ExpressionToJson(e)) == Ok(into.(sentences := e.sentences))
  {
    var v := ExpressionToJson(e);
    var items := Get(v, "sentences").items;
    forall i | 0 <= i < |items|
      ensures MatchesOf(items[i]) == Ok(e.sentences[i])
    {
      SentenceRoundTrip(e.sentences[i]);
    }
    var r := ExpressionFromJson(into, v);
    assert r.Ok?;
    assert r.value.sentences == e.sentences;
  }
}
