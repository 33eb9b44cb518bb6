/**
  Sentences and documents: annotable units hydrated from the engine's JSON
  response. Hydration marks one annotator per family of fields found in the
  record, and the guarded accessors refuse to answer until their annotator
  is marked.

  `sentence.js` imports the markers `Tokenize`, `Lemma`, `Parse` and
  `DepParse` from the annotable module, which does not export them; the
  model treats them as four annotators with distinct names.
 */
module Sentences {
  import opened Js
  import opened Annotators
  import opened Tracking
  import opened Tokens

  const TokenizeMark: Annotator := Annotator("tokenize", map[], [])
  const LemmaMark: Annotator := Annotator("lemma", map[], [])
  const ParseMark: Annotator := Annotator("parse", map[], [])
  const DepParseMark: Annotator := Annotator("depparse", map[], [])

  datatype Sentence = Sentence(
    base: Annotable,
    tokens: seq<Token>,
    governors: seq<Governor>,
    parse: Json,
    basicDependencies: Json,
    enhancedDependencies: Json,
    enhancedPlusPlusDependencies: Json)

  /** `new Sentence(text)`. */
  function NewSentence(text: Json): Sentence {
    Sentence(New(text), [], [], Undefined, Undefined, Undefined, Undefined)
  }

  /** The engine error every guarded accessor throws. */
  function Unmet(what: string): Error {
    Thrown("Asked for " + what + " on Sentence, but there are unmet annotator dependencies.")
  }

  /** `toString()`: the text when it is truthy, otherwise the tokens' string
      forms joined by a space. Tokens do not override `toString`, so each
      renders as the inherited `[object Object]`. */
  function SentenceToString(s: Sentence): (r: Json)
    ensures Truthy(s.base.text) ==> r == s.base.text
    ensures !Truthy(s.base.text) ==> r == Str(Join(seq(|s.tokens|, _ => "[object Object]"), " "))
  {
    if Truthy(s.base.text) then s.base.text
    else Str(Join(seq(|s.tokens|, _ => "[object Object]"), " "))
  }

  /** Without text, the string form depends on the number of tokens only:
      each contributes the fifteen characters of `[object Object]`, and a
      space separates neighbours. */
  lemma {:induction false} SentenceToStringLength(s: Sentence)
    requires !Truthy(s.base.text) && |s.tokens| > 0
    ensures SentenceToString(s).Str?
    ensures |SentenceToString(s).s| == 16 * |s.tokens| - 1
  {
    ObjectStringsLength(|s.tokens|);
  }

  lemma {:induction false} ObjectStringsLength(n: nat)
    requires n > 0
    ensures |Join(seq(n, _ => "[object Object]"), " ")| == 16 * n - 1
  {
    var parts := seq(n, _ => "[object Object]");
    if n > 1 {
      ObjectStringsLength(n - 1);
      assert parts[1..] == seq(n - 1, _ => "[object Object]");
    }
  }

  /** `words()`. */
  function Words(s: Sentence): (r: Result<seq<Json>>)
    ensures r.Err? <==> !HasAnnotator(s.base, TokenizeMark)
    ensures r.Err? ==> r.error == Unmet("words")
    ensures r.Ok? ==> (|r.value| == |s.tokens| &&
      forall i :: 0 <= i < |s.tokens| ==> r.value[i] == Word(s.tokens[i]))
  {
    if !HasAnnotator(s.base, TokenizeMark) then Err(Unmet("words"))
    else Ok(seq(|s.tokens|, i requires 0 <= i < |s.tokens| => Word(s.tokens[i])))
  }

  /** `word(index)`: reading past the tokens calls `word()` on `undefined`. */
  function WordAt(s: Sentence, index: int): (r: Result<Json>)
    ensures r.Err? <==> !HasAnnotator(s.base, TokenizeMark) || !(0 <= index < |s.tokens|)
    ensures r.Ok? ==> Words(s).Ok? && r.value == Words(s).value[index]
  {
    if !HasAnnotator(s.base, TokenizeMark) then Err(Unmet("a word"))
    else if 0 <= index < |s.tokens| then Ok(Word(s.tokens[index]))
    else Err(TypeError)
  }

  /** `lemmas()`. Tokens have no `lemma` method, so any token makes the
      mapping throw. */
  function Lemmas(s: Sentence): (r: Result<seq<Json>>)
    ensures !HasAnnotator(s.base, LemmaMark) ==> r == Err(Unmet("lemmas"))
    ensures HasAnnotator(s.base, LemmaMark) ==> (r.Ok? <==> |s.tokens| == 0)
    ensures r.Ok? ==> r.value == []
  {
    if !HasAnnotator(s.base, LemmaMark) then Err(Unmet("lemmas"))
    else if |s.tokens| == 0 then Ok([])
    else Err(TypeError)
  }

  /** `governors()`. */
  function Governors(s: Sentence): (r: Result<seq<Governor>>)
    ensures r.Err? <==> !HasAnnotator(s.base, DepParseMark)
    ensures r.Ok? ==> r.value == s.governors
  {
    if !HasAnnotator(s.base, DepParseMark) then Err(Unmet("governors"))
    else Ok(s.governors)
  }

  /** `governor(index)`: `undefined` past the end. */
  function GovernorAt(s: Sentence, index: int): (r: Result<Option<Governor>>)
    ensures r.Err? <==> !HasAnnotator(s.base, DepParseMark)
    ensures r.Ok? ==> (r.value.Some? <==> 0 <= index < |s.governors|)
    ensures r.Ok? && r.value.Some? ==> Governors(s).Ok? && r.value.value == Governors(s).value[index]
  {
    if !HasAnnotator(s.base, DepParseMark) then Err(Unmet("a governor"))
    else if 0 <= index < |s.governors| then Ok(Some(s.governors[index]))
    else Ok(None)
  }

  /** `token(index)` as the typings declare it: the hydrated token, or
      `undefined`. */
  function TokenAt(s: Sentence, index: int): (r: Option<Token>)
    ensures r.Some? <==> 0 <= index < |s.tokens|
    ensures r.Some? ==> r.value == s.tokens[index]
  {
    if 0 <= index < |s.tokens| then Some(s.tokens[index]) else None
  }

  // ---------------------------------------------------------------------------
  // Hydration

  /** lodash `_.head(v)`: `v[0]` when `v` is truthy with a truthy `length`. */
  function Head(v: Json): Json {
    if Truthy(v) && Truthy(Get(v, "length")) then Get(v, "0") else Undefined
  }

  /** `records.map(tok => Token.fromJson(tok))`. */
  function TokensFromJson(records: seq<Json>): (r: Result<seq<Token>>)
    ensures r.Err? <==> exists i :: 0 <= i < |records| && Nullish(records[i])
    ensures r.Ok? ==> (|r.value| == |records| &&
      forall i :: 0 <= i < |records| ==> TokenFromJson(records[i]) == Ok(r.value[i]))
    decreases |records|
  {
    if |records| == 0 then Ok([])
    else
      var t :- TokenFromJson(records[0]);
      var rest :- TokensFromJson(records[1..]);
      assert forall i :: 0 < i < |records| ==> records[i] == records[1..][i - 1];
      Ok([t] + rest)
  }

  /** One dependency edge. The constructor's second parameter is the
      dependent and its third the governor, but the record's governor
      position is passed second and its dependent position third. */
  function GovernorFromEdge(tokens: seq<Token>, edge: Json): (r: Result<Governor>)
    ensures r.Err? <==> Nullish(edge)
    ensures r.Ok? ==> r.value == Governor(Get(edge, "dep"),
      TokenAtPosition(tokens, Get(edge, "governor")),
      TokenAtPosition(tokens, Get(edge, "dependent")))
  {
    if Nullish(edge) then Err(TypeError)
    else Ok(Governor(Get(edge, "dep"),
      TokenAtPosition(tokens, Get(edge, "governor")),
      TokenAtPosition(tokens, Get(edge, "dependent"))))
  }

  function GovernorsFromJson(tokens: seq<Token>, edges: seq<Json>): (r: Result<seq<Governor>>)
    ensures r.Err? <==> exists i :: 0 <= i < |edges| && Nullish(edges[i])
    ensures r.Ok? ==> (|r.value| == |edges| &&
      forall i :: 0 <= i < |edges| ==> GovernorFromEdge(tokens, edges[i]) == Ok(r.value[i]))
  {
    MapResult(edges, e => GovernorFromEdge(tokens, e))
  }

  /** The sentence record `fromJson(data, isSentence)` reads. */
  function SentenceRecord(data: Json, isSentence: bool): (r: Result<Json>)
    ensures isSentence ==> r == Ok(data)
    ensures !isSentence ==> (r.Err? <==> Nullish(data))
  {
    if isSentence then Ok(data)
    else
      var sentences :- Prop(data, "sentences");
      Ok(Head(sentences))
  }

  /** The tokens step of `fromJson`: a truthy `tokens` marks tokenize and
      replaces the tokens with one token per record, in order. */
  function HydrateTokens(s: Sentence, tokens: Json): (r: Result<Sentence>)
    ensures !Truthy(tokens) ==> r == Ok(s)
    ensures Truthy(tokens) && r.Ok? ==>
      r.value.base == AddAnnotator(s.base, TokenizeMark) && tokens.Arr? &&
      r.value == s.(base := r.value.base, tokens := r.value.tokens) &&
      TokensFromJson(tokens.items) == Ok(r.value.tokens)
  {
    if !Truthy(tokens) then Ok(s)
    else if !tokens.Arr? then Err(TypeError)
    else
      var ts :- TokensFromJson(tokens.items);
      Ok(s.(base := AddAnnotator(s.base, TokenizeMark), tokens := ts))
  }

  /** The parse step of `fromJson`: a truthy `parse` marks parse and is kept
      as the value `parse()` returns. */
  function HydrateParse(s: Sentence, parse: Json): (r: Sentence)
    ensures !Truthy(parse) ==> r == s
    ensures Truthy(parse) ==> r == s.(base := AddAnnotator(s.base, ParseMark), parse := parse)
  {
    if Truthy(parse) then s.(base := AddAnnotator(s.base, ParseMark), parse := parse) else s
  }

  /** The dependencies step of `fromJson`: a truthy `basicDependencies`
      marks depparse and yields one governor per edge, resolved against the
      tokens as they stand after the tokens step; the three raw dependency
      lists are kept. */
  function HydrateDependencies(s: Sentence, rec: Json): (r: Result<Sentence>)
    requires !Nullish(rec)
    ensures !Truthy(Get(rec, "basicDependencies")) ==> r == Ok(s)
    ensures Truthy(Get(rec, "basicDependencies")) && r.Ok? ==>
      r.value.base == AddAnnotator(s.base, DepParseMark) &&
      Get(rec, "basicDependencies").Arr? &&
      r.value.tokens == s.tokens && r.value.parse == s.parse &&
      r.value.basicDependencies == Get(rec, "basicDependencies") &&
      GovernorsFromJson(s.tokens, Get(rec, "basicDependencies").items) == Ok(r.value.governors)
  {
    var deps := Get(rec, "basicDependencies");
    if !Truthy(deps) then Ok(s)
    else if !deps.Arr? then Err(TypeError)
    else
      var govs :- GovernorsFromJson(s.tokens, deps.items);
      Ok(s.(base := AddAnnotator(s.base, DepParseMark), governors := govs,
        basicDependencies := deps,
        enhancedDependencies := Get(rec, "enhancedDependencies"),
        enhancedPlusPlusDependencies := Get(rec, "enhancedPlusPlusDependencies")))
  }

  /** `fromJson(data, isSentence)`. */
  function FromJson(s: Sentence, data: Json, isSentence: bool): (r: Result<Sentence>)
    // hydration never removes a mark, nor touches the text or the language
    ensures r.Ok? ==> s.base.marks <= r.value.base.marks
    ensures r.Ok? ==> r.value.base.text == s.base.text && r.value.base.language == s.base.language
  {
    var rec :- SentenceRecord(data, isSentence);
    var tokens :- Prop(rec, "tokens");
    var s1 :- HydrateTokens(s, tokens);
    var s2 := HydrateParse(s1, Get(rec, "parse"));
    HydrateDependencies(s2, rec)
  }

  /** The three steps of a successful `fromJson`, in order. */
  lemma {:induction false} FromJsonSteps(s: Sentence, data: Json, isSentence: bool)
    returns (rec: Json, s1: Sentence, s2: Sentence)
    ensures FromJson(s, data, isSentence).Ok? ==>
      SentenceRecord(data, isSentence) == Ok(rec) && !Nullish(rec) &&
      HydrateTokens(s, Get(rec, "tokens")) == Ok(s1) &&
      s2 == HydrateParse(s1, Get(rec, "parse")) &&
      HydrateDependencies(s2, rec) == FromJson(s, data, isSentence)
  {
    rec, s1, s2 := Undefined, s, s;
    if FromJson(s, data, isSentence).Ok? {
      rec := SentenceRecord(data, isSentence).value;
      s1 := HydrateTokens(s, Get(rec, "tokens")).value;
      s2 := HydrateParse(s1, Get(rec, "parse"));
    }
  }

  /** The tokens family: present, it marks tokenize and replaces the tokens
      with one token per record, in order; absent, tokens and the tokenize
      mark are unchanged. */
  lemma {:induction false} FromJsonTokens(s: Sentence, data: Json, isSentence: bool)
    ensures FromJson(s, data, isSentence).Ok? ==> (
      var rec := SentenceRecord(data, isSentence).value;
      var r := FromJson(s, data, isSentence).value;
      var tokens := Get(rec, "tokens");
      (Truthy(tokens) ==>
        HasAnnotator(r.base, TokenizeMark) && tokens.Arr? &&
        TokensFromJson(tokens.items) == Ok(r.tokens)) &&
      (!Truthy(tokens) ==>
        r.tokens == s.tokens &&
        (HasAnnotator(r.base, TokenizeMark) <==> HasAnnotator(s.base, TokenizeMark))))
  {
    var rec, s1, s2 := FromJsonSteps(s, data, isSentence);
  }

  /** The parse family: present, it marks parse and `parse()` returns it. */
  lemma {:induction false} FromJsonParse(s: Sentence, data: Json, isSentence: bool)
    ensures FromJson(s, data, isSentence).Ok? ==> (
      var rec := SentenceRecord(data, isSentence).value;
      var r := FromJson(s, data, isSentence).value;
      (Truthy(Get(rec, "parse")) ==>
        HasAnnotator(r.base, ParseMark) && r.parse == Get(rec, "parse")) &&
      (!Truthy(Get(rec, "parse")) ==>
        r.parse == s.parse &&
        (HasAnnotator(r.base, ParseMark) <==> HasAnnotator(s.base, ParseMark))))
  {
    var rec, s1, s2 := FromJsonSteps(s, data, isSentence);
  }

  /** The dependencies family: present, it marks depparse and builds one
      governor per edge, in order, from the hydrated tokens. */
  lemma {:induction false} FromJsonDependencies(s: Sentence, data: Json, isSentence: bool)
    ensures FromJson(s, data, isSentence).Ok? ==> (
      var rec := SentenceRecord(data, isSentence).value;
      var r := FromJson(s, data, isSentence).value;
      var deps := Get(rec, "basicDependencies");
      (Truthy(deps) ==>
        HasAnnotator(r.base, DepParseMark) && deps.Arr? &&
        GovernorsFromJson(r.tokens, deps.items) == Ok(r.governors)) &&
      (!Truthy(deps) ==>
        r.governors == s.governors &&
        (HasAnnotator(r.base, DepParseMark) <==> HasAnnotator(s.base, DepParseMark))))
  {
    var rec, s1, s2 := FromJsonSteps(s, data, isSentence);
  }

  /** The edge orientation as written: `governor()` of a hydrated edge is
      the token at the record's dependent position, and `dependent()` the
      one at its governor position. */
  lemma GovernorOrientation(tokens: seq<Token>, entries: seq<(string, Json)>, g: int, d: int)
    requires Lookup(entries, "governor") == Some(Num(g)) && 1 <= g <= |tokens|
    requires Lookup(entries, "dependent") == Some(Num(d)) && 1 <= d <= |tokens|
    ensures GovernorFromEdge(tokens, Obj(entries)).Ok?
    ensures GovernorFromEdge(tokens, Obj(entries)).value.governor == Some(tokens[d - 1])
    ensures GovernorFromEdge(tokens, Obj(entries)).value.dependent == Some(tokens[g - 1])
  {
  }

  // ---------------------------------------------------------------------------
  // Document

  datatype Document = Document(base: Annotable, sentences: seq<Sentence>)

  /** `new Document(text)`. */
  function NewDocument(text: Json): (d: Document)
    ensures d.sentences == [] && d.base == New(text)
  {
    Document(New(text), [])
  }

  /** `sentence(index)`: unguarded, `undefined` past the end. */
  function SentenceAt(d: Document, index: int): (r: Option<Sentence>)
    ensures r.Some? <==> 0 <= index < |d.sentences|
    ensures r.Some? ==> r.value == d.sentences[index]
  {
    if 0 <= index < |d.sentences| then Some(d.sentences[index]) else None
  }

  /** `Sentence.fromJson(record, true)` on a fresh sentence. */
  function SentenceFromRecord(record: Json): Result<Sentence> {
    FromJson(NewSentence(Undefined), record, true)
  }

  function SentencesFromJson(records: seq<Json>): (r: Result<seq<Sentence>>)
    ensures r.Ok? ==> (|r.value| == |records| &&
      forall i :: 0 <= i < |records| ==> SentenceFromRecord(records[i]) == Ok(r.value[i]))
    ensures r.Err? ==> exists i :: 0 <= i < |records| && SentenceFromRecord(records[i]).Err?
    decreases |records|
  {
    if |records| == 0 then Ok([])
    else
      var x :- SentenceFromRecord(records[0]);
      var rest :- SentencesFromJson(records[1..]);
      assert forall i :: 0 < i < |records| ==> records[i] == records[1..][i - 1];
      Ok([x] + rest)
  }

  /** `fromJson(data)`: one sentence per record, in order; the document's
      own marks are left alone. */
  function DocumentFromJson(d: Document, data: Json): (r: Result<Document>)
    ensures r.Ok? ==> r.value.base == d.base
    ensures r.Ok? ==> (Get(data, "sentences").Arr? &&
      |r.value.sentences| == |Get(data, "sentences").items| &&
      forall i :: 0 <= i < |r.value.sentences| ==>
        SentenceFromRecord(Get(data, "sentences").items[i]) == Ok(r.value.sentences[i]))
    ensures Nullish(data) ==> r.Err?
  {
    var sentences :- Prop(data, "sentences");
    if !sentences.Arr? then Err(TypeError)
    else
      var ss :- SentencesFromJson(sentences.items);
      Ok(d.(sentences := ss))
  }
}
