/**
  Tokens and dependency edges (governors) as the annotation engine's
  sentence records describe them.
 */
module Tokens {
  import opened Js

  /** The fields `Token.fromJson` copies from a token record. */
  const TokenFields: set<string> := {
    "word", "originalText", "characterOffsetBegin", "characterOffsetEnd",
    "before", "after", "pos", "lemma"}

  /** A token is the set of fields written on it; a field never written reads
      as `undefined`. */
  datatype Token = Token(fields: map<string, Json>)

  function Field(t: Token, f: string): Json {
    if f in t.fields then t.fields[f] else Undefined
  }

  /** `token.word()`. */
  function Word(t: Token): Json {
    Field(t, "word")
  }

  /** `new Token(word)`: only the word is set. */
  function NewToken(w: Json): (t: Token)
    ensures Word(t) == w
    ensures forall f :: f != "word" ==> Field(t, f) == Undefined
  {
    Token(map["word" := w])
  }

  /** `Token.fromJson(data)`: a fresh token with each listed field read from
      the record; reading a field of `null` or `undefined` throws. */
  function TokenFromJson(data: Json): (r: Result<Token>)
    ensures r.Err? <==> Nullish(data)
    ensures r.Ok? ==> forall f :: f in TokenFields ==> Field(r.value, f) == Get(data, f)
    ensures r.Ok? ==> forall f :: f !in TokenFields ==> Field(r.value, f) == Undefined
  {
    if Nullish(data) then Err(TypeError)
    else Ok(Token(map f | f in TokenFields :: Get(data, f)))
  }

  /** A field the record does not have stays `undefined`: no default applies. */
  lemma MissingFieldStaysUndefined(entries: seq<(string, Json)>, f: string)
    requires f !in KeysOf(entries)
    ensures TokenFromJson(Obj(entries)).Ok?
    ensures Field(TokenFromJson(Obj(entries)).value, f) == Undefined
  {
    LookupSpec(entries, f);
  }

  /** Any field of the record outside the copied ones, `index` and `ner`
      included, is not retained: setting it yields the same token. */
  lemma {:induction false} OtherFieldsIgnored(entries: seq<(string, Json)>, k: string, v: Json)
    requires k !in TokenFields
    ensures TokenFromJson(Obj(Put(entries, k, v))) == TokenFromJson(Obj(entries))
  {
    var e' := Put(entries, k, v);
    var m1 := map f | f in TokenFields :: Get(Obj(e'), f);
    var m2 := map f | f in TokenFields :: Get(Obj(entries), f);
    assert m1 == m2 by {
      forall f | f in TokenFields
        ensures Lookup(e', f) == Lookup(entries, f)
      {
        assert f != k;
      }
    }
  }

  // ---------------------------------------------------------------------------
  // Governor

  /** A dependency edge. `dependent` is `None` when the constructor received
      `undefined`; `governor` is `None` for the `null` default, which an
      `undefined` argument also selects. */
  datatype Governor = Governor(dep: Json, dependent: Option<Token>, governor: Option<Token>)

  /** `governorGloss()`: the governor's word, `''` without a governor. */
  function GovernorGloss(g: Governor): (r: Json)
    ensures g.governor.None? ==> r == Str("")
    ensures g.governor.Some? ==> r == Word(g.governor.value)
  {
    match g.governor
    case None => Str("")
    case Some(t) => Word(t)
  }

  /** `dependentGloss()`: the dependent's word, or `''` when that word is
      falsy; a missing dependent makes the call throw. */
  function DependentGloss(g: Governor): (r: Result<Json>)
    ensures r.Err? <==> g.dependent.None?
    ensures r.Ok? ==> Truthy(r.value) == Truthy(Word(g.dependent.value))
    ensures r.Ok? && Truthy(r.value) ==> r.value == Word(g.dependent.value)
    ensures r.Ok? && !Truthy(r.value) ==> r.value == Str("")
  {
    match g.dependent
    case None => Err(TypeError)
    case Some(t) => Ok(if Truthy(Word(t)) then Word(t) else Str(""))
  }

  /** The plain object `toJSON()` returns. */
  datatype GovernorJson = GovernorJson(
    dep: Json, governor: Json, governorGloss: Json, dependent: Json, dependentGloss: Json)

  /** `toJSON()`. `token.js` gives tokens no `index` method, so the model
      takes the index accessor as a parameter. */
  function GovernorToJson(g: Governor, index: Token -> Json): (r: Result<GovernorJson>)
    ensures r.Err? <==> g.dependent.None?
    ensures r.Ok? ==> r.value.dep == g.dep
    ensures r.Ok? && g.governor.None? ==>
      r.value.governor == Num(0) && r.value.governorGloss == Str("ROOT")
    ensures r.Ok? && g.governor.Some? ==>
      r.value.governor == index(g.governor.value) && r.value.governorGloss == Word(g.governor.value)
    ensures r.Ok? ==>
      r.value.dependent == index(g.dependent.value) && r.value.dependentGloss == Word(g.dependent.value)
  {
    match g.dependent
    case None => Err(TypeError)
    case Some(d) =>
      match g.governor
      case None => Ok(GovernorJson(g.dep, Num(0), Str("ROOT"), index(d), Word(d)))
      case Some(t) => Ok(GovernorJson(g.dep, index(t), Word(t), index(d), Word(d)))
  }

  /** `toJSON()` as written: it calls `index()` on the governor token, when
      there is one, and then on the dependent token; `Token` defines no
      `index` method (and a missing dependent is `undefined`), so each path
      throws a `TypeError`. */
  function GovernorToJsonAsWritten(g: Governor): Result<GovernorJson> {
    match g.governor
    case Some(_) => Err(TypeError)
    case None =>
      match g.dependent
      case None => Err(TypeError)
      case Some(_) => Err(TypeError)
  }

  /** As written, `toJSON()` throws for every edge, including those with a
      dependent, for which the intended conversion succeeds. */
  lemma GovernorToJsonAsWrittenThrows(g: Governor, index: Token -> Json)
    ensures GovernorToJsonAsWritten(g) == Err(TypeError)
    ensures g.dependent.Some? ==> GovernorToJson(g, index).Ok?
  {
  }

  /** `Governor.fromJSON()` always throws. */
  function GovernorFromJson(): (r: Result<Governor>)
    ensures r == Err(Thrown("Not implemented"))
  {
    Err(Thrown("Not implemented"))
  }

  /** The token at 1-based position `v` of `tokens`, as `tokens[v - 1]` reads
      it: numbers are positions, `true` counts as 1, anything else finds
      nothing. */
  function TokenAtPosition(tokens: seq<Token>, v: Json): (r: Option<Token>)
    ensures v.Num? && 1 <= v.n <= |tokens| ==> r == Some(tokens[v.n - 1])
    ensures v.Num? && !(1 <= v.n <= |tokens|) ==> r.None?
  {
    match v
    case Num(n) => if 1 <= n <= |tokens| then Some(tokens[n - 1]) else None
    case Bool(b) => if b && |tokens| > 0 then Some(tokens[0]) else None
    case _ => None
  }
}
