/**
  Coreference chains and their mentions. A mention wraps the record the
  engine returns for it and can be bound to the sentence and token it
  refers to; a chain is the ordered list of its mentions, one or more of
  them flagged representative.
 */
module Coref {
  import opened Js
  import opened Tokens
  import opened Sentences

  // ---------------------------------------------------------------------------
  // Mention

  /** `_data` is whatever record `fromJSON` stored (`undefined` on a fresh
      mention); the sentence and token are absent until set. */
  datatype Mention = Mention(data: Json, sentence: Option<Sentence>, token: Option<Token>)

  /** The record fields the accessors read, one accessor each. */
  datatype MentionField =
    | Id | Text | SentNum | HeadIndex | StartIndex | EndIndex
    | IsRepresentativeMention | Animacy | Gender | Number | Type

  function FieldName(f: MentionField): string {
    match f
    case Id => "id"
    case Text => "text"
    case SentNum => "sentNum"
    case HeadIndex => "headIndex"
    case StartIndex => "startIndex"
    case EndIndex => "endIndex"
    case IsRepresentativeMention => "isRepresentativeMention"
    case Animacy => "animacy"
    case Gender => "gender"
    case Number => "number"
    case Type => "type"
  }

  /** Each accessor reads its own field. */
  lemma FieldNameInjective(f: MentionField, g: MentionField)
    ensures FieldName(f) == FieldName(g) <==> f == g
  {
  }

  /** `id()`, `text()`, … : the record's field; throws before `fromJSON`. */
  function Field(m: Mention, f: MentionField): (r: Result<Json>)
    ensures r.Err? <==> Nullish(m.data)
    ensures r.Ok? ==> r.value == Get(m.data, FieldName(f))
  {
    Prop(m.data, FieldName(f))
  }

  /** `CorefMention.fromJSON(data)`: the record is kept as given, by
      reference. */
  function MentionFromJson(data: Json): (m: Mention)
    ensures m.data == data && m.sentence.None? && m.token.None?
  {
    Mention(data, None, None)
  }

  /** `fromJSON(data)` on an existing mention: only the record changes. */
  function MentionWithData(m: Mention, data: Json): (r: Mention)
    ensures r.data == data && r.sentence == m.sentence && r.token == m.token
  {
    m.(data := data)
  }

  /** `toJSON()`: a shallow copy of the record's own fields. */
  function MentionToJson(m: Mention): (r: Json)
    ensures r.Obj? && OwnEntries(r.entries)
  {
    Obj(Spread(m.data))
  }

  /** The copy of an object record is that record: a mention read from JSON
      writes back the same JSON. */
  lemma MentionRoundTrip(entries: seq<(string, Json)>)
    requires OwnEntries(entries)
    ensures MentionToJson(MentionFromJson(Obj(entries))) == Obj(entries)
  {
    SpreadObject(entries);
  }

  /** `sentence(s)`: a truthy argument is stored; the stored sentence is
      returned. Sentences are objects, so only `undefined` (or `null`) keeps
      the old one. */
  function MentionSentence(m: Mention, arg: Option<Sentence>): (r: (Mention, Option<Sentence>))
    ensures arg.Some? ==> r.0 == m.(sentence := arg) && r.1 == arg
    ensures arg.None? ==> r.0 == m && r.1 == m.sentence
  {
    if arg.Some? then (m.(sentence := arg), arg) else (m, m.sentence)
  }

  /** `token(t)`: the same, for the token. */
  function MentionToken(m: Mention, arg: Option<Token>): (r: (Mention, Option<Token>))
    ensures arg.Some? ==> r.0 == m.(token := arg) && r.1 == arg
    ensures arg.None? ==> r.0 == m && r.1 == m.token
  {
    if arg.Some? then (m.(token := arg), arg) else (m, m.token)
  }

  /** Setting then getting returns what was set, and a getter call changes
      nothing. */
  lemma MentionSetGet(m: Mention, s: Sentence, t: Token)
    ensures MentionSentence(MentionSentence(m, Some(s)).0, None).1 == Some(s)
    ensures MentionToken(MentionToken(m, Some(t)).0, None).1 == Some(t)
    ensures MentionSentence(m, None).0 == m && MentionToken(m, None).0 == m
  {
  }

  // ---------------------------------------------------------------------------
  // Chain

  datatype Chain = Chain(mentions: seq<Mention>, document: Option<Document>)

  /** `new CorefChain(mentions)`. */
  function NewChain(mentions: seq<Mention>): (c: Chain)
    ensures c.mentions == mentions && c.document.None?
  {
    Chain(mentions, None)
  }

  /** `mention(index)`: `undefined` past the end. */
  function MentionAt(c: Chain, index: int): (r: Option<Mention>)
    ensures r.Some? <==> 0 <= index < |c.mentions|
    ensures r.Some? ==> r.value == c.mentions[index]
  {
    if 0 <= index < |c.mentions| then Some(c.mentions[index]) else None
  }

  /** `mention.isRepresentativeMention()` as the callbacks of `find` and
      `filter` test it. */
  function IsRepresentative(m: Mention): (r: Result<bool>)
    ensures r.Err? <==> Nullish(m.data)
    ensures r.Ok? ==> r.value == Truthy(Get(m.data, "isRepresentativeMention"))
  {
    var v :- Field(m, IsRepresentativeMention);
    Ok(Truthy(v))
  }

  /** `representative()`: `find` stops at the first representative mention,
      so only the mentions up to it are asked. */
  function Representative(ms: seq<Mention>): (r: Result<Option<Mention>>)
    ensures r == Ok(None) <==> forall j :: 0 <= j < |ms| ==> IsRepresentative(ms[j]) == Ok(false)
    ensures r.Ok? && r.value.Some? ==> exists i :: (0 <= i < |ms| && ms[i] == r.value.value &&
      IsRepresentative(ms[i]) == Ok(true) &&
      forall j :: 0 <= j < i ==> IsRepresentative(ms[j]) == Ok(false))
    ensures r.Err? ==> exists i :: (0 <= i < |ms| && IsRepresentative(ms[i]).Err? &&
      forall j :: 0 <= j < i ==> IsRepresentative(ms[j]) == Ok(false))
    decreases |ms|
  {
    if |ms| == 0 then Ok(None)
    else
      var rest := ms[1..];
      assert forall j :: 0 < j < |ms| ==> ms[j] == rest[j - 1];
      var flag :- IsRepresentative(ms[0]);
      if flag then Ok(Some(ms[0])) else
        var r := Representative(rest);
        if r.Ok? && r.value.Some? then
          var i :| 0 <= i < |rest| && rest[i] == r.value.value &&
            IsRepresentative(rest[i]) == Ok(true) &&
            forall j :: 0 <= j < i ==> IsRepresentative(rest[j]) == Ok(false);
          assert ms[i + 1] == rest[i];
          r
        else if r.Err? then
          var i :| 0 <= i < |rest| && IsRepresentative(rest[i]).Err? &&
            forall j :: 0 <= j < i ==> IsRepresentative(rest[j]) == Ok(false);
          assert ms[i + 1] == rest[i];
          r
        else r
  }

  /** A mention whose record says it is not the representative one. */
  predicate Unflagged(m: Mention) {
    IsRepresentative(m) == Ok(false)
  }

  /** `nonRepresentatives()`: `filter` asks every mention, and keeps the
      unflagged ones in their order, duplicates included. */
  function NonRepresentatives(ms: seq<Mention>): (r: Result<seq<Mention>>)
    ensures r.Err? <==> exists j :: 0 <= j < |ms| && Nullish(ms[j].data)
    ensures r.Ok? ==> IsFilter(r.value, ms, Unflagged)
    decreases |ms|
  {
    if |ms| == 0 then Ok([])
    else
      var rest := ms[1..];
      assert forall j :: 0 < j < |ms| ==> ms[j] == rest[j - 1];
      var flag :- IsRepresentative(ms[0]);
      var tail :- NonRepresentatives(rest);
      FilterCons(ms, Unflagged, tail);
      assert [] + tail == tail;
      Ok(if flag then tail else [ms[0]] + tail)
  }

  /** The non-representatives are exactly the unflagged mentions. */
  lemma NonRepresentativeMembers(ms: seq<Mention>, x: Mention)
    requires NonRepresentatives(ms).Ok?
    ensures x in NonRepresentatives(ms).value <==> x in ms && Unflagged(x)
  {
    var r := NonRepresentatives(ms).value;
    var p := Positions(ms, Unflagged);
    PositionsSpec(ms, Unflagged);
    if x in r {
      var k :| 0 <= k < |r| && r[k] == x;
      assert ms[p[k]] == x;
    }
    if x in ms && Unflagged(x) {
      var i :| 0 <= i < |ms| && ms[i] == x;
      var k :| 0 <= k < |p| && p[k] == i;
      assert r[k] == x;
    }
  }

  /** With exactly one flagged mention, the non-representatives are all the
      other mentions, in order: one fewer than the chain holds. */
  lemma {:induction false} OneRepresentative(ms: seq<Mention>, i: nat)
    requires i < |ms| && IsRepresentative(ms[i]) == Ok(true)
    requires forall j :: 0 <= j < |ms| && j != i ==> IsRepresentative(ms[j]) == Ok(false)
    ensures NonRepresentatives(ms) == Ok(ms[..i] + ms[i + 1..])
    ensures |NonRepresentatives(ms).value| == |ms| - 1
    decreases |ms|
  {
    var rest := ms[1..];
    assert forall j :: 0 <= j < |rest| ==> rest[j] == ms[j + 1];
    if i == 0 {
      AllUnflagged(rest);
      HeadFlagged(ms);
      assert ms[..0] + ms[1..] == rest;
    } else {
      OneRepresentative(rest, i - 1);
      HeadUnflagged(ms);
      DropAfterHead(ms, i);
    }
  }

  /** Dropping position `i > 0` keeps the head in front. */
  lemma DropAfterHead(ms: seq<Mention>, i: nat)
    requires 0 < i < |ms|
    ensures ms[..i] + ms[i + 1..] == [ms[0]] + (ms[1..][..i - 1] + ms[1..][i..])
  {
    assert ms[..i] == [ms[0]] + ms[1..][..i - 1];
    assert ms[i + 1..] == ms[1..][i..];
  }

  lemma HeadFlagged(ms: seq<Mention>)
    requires |ms| > 0 && IsRepresentative(ms[0]) == Ok(true)
    ensures NonRepresentatives(ms) == NonRepresentatives(ms[1..])
  {
  }

  lemma HeadUnflagged(ms: seq<Mention>)
    requires |ms| > 0 && Unflagged(ms[0]) && NonRepresentatives(ms[1..]).Ok?
    ensures NonRepresentatives(ms) == Ok([ms[0]] + NonRepresentatives(ms[1..]).value)
  {
  }

  /** With no flagged mention, every mention is kept. */
  lemma {:induction false} AllUnflagged(ms: seq<Mention>)
    requires forall j :: 0 <= j < |ms| ==> IsRepresentative(ms[j]) == Ok(false)
    ensures NonRepresentatives(ms) == Ok(ms)
    decreases |ms|
  {
    if |ms| > 0 {
      assert forall j :: 0 <= j < |ms| - 1 ==> ms[1..][j] == ms[j + 1];
      AllUnflagged(ms[1..]);
      assert [ms[0]] + ms[1..] == ms;
    }
  }

  /** The chain has no representative exactly when filtering out the
      representatives keeps every mention, and a representative found is
      never among the non-representatives. */
  lemma {:induction false} RepresentativePartition(ms: seq<Mention>)
    requires NonRepresentatives(ms).Ok?
    ensures Representative(ms).Ok?
    ensures Representative(ms) == Ok(None) <==> NonRepresentatives(ms).value == ms
    ensures Representative(ms).value.Some? ==>
      Representative(ms).value.value !in NonRepresentatives(ms).value
    decreases |ms|
  {
    if |ms| > 0 {
      var rest := ms[1..];
      assert ms == [ms[0]] + rest;
      RepresentativePartition(rest);
      if IsRepresentative(ms[0]) == Ok(true) {
        assert |NonRepresentatives(ms).value| == |NonRepresentatives(rest).value| <= |rest| < |ms|;
      }
    }
    if Representative(ms).value.Some? {
      NonRepresentativeMembers(ms, Representative(ms).value.value);
    }
  }

  /** `document(doc)`: a truthy argument is stored; the stored document is
      returned. */
  function ChainDocument(c: Chain, arg: Option<Document>): (r: (Chain, Option<Document>))
    ensures arg.Some? ==> r.0 == c.(document := arg) && r.1 == arg
    ensures arg.None? ==> r.0 == c && r.1 == c.document
  {
    if arg.Some? then (c.(document := arg), arg) else (c, c.document)
  }

  /** `v - 1` as an array index, for the values whose conversion to a
      number is modelled: numbers, booleans and `null`. Other values (a
      numeric string, a one-element array, `''`) also convert in
      JavaScript; here they index nothing. */
  function IndexBefore(v: Json): Option<int> {
    match v
    case Num(n) => Some(n - 1)
    case Bool(b) => Some(if b then 0 else -1)
    case Null => Some(-1)
    case _ => None
  }

  /** The body of the `forEach` in `fromDocument`: the mention's sentence is
      `doc.sentence(sentNum - 1)`, and its token that sentence's
      `token(startIndex - 1)`; a missing sentence makes the call throw. */
  function BindMention(m: Mention, doc: Document): (r: Result<Mention>)
    ensures r.Ok? ==> r.value.data == m.data && r.value.sentence.Some?
  {
    var sentNum :- Field(m, SentNum);
    var i := IndexBefore(sentNum);
    var sentence := if i.Some? then SentenceAt(doc, i.value) else None;
    if sentence.None? then Err(TypeError)
    else
      // the record was read once already, so this read cannot throw
      var j := IndexBefore(Get(m.data, FieldName(StartIndex)));
      var token := if j.Some? then TokenAt(sentence.value, j.value) else None;
      var m1 := MentionSentence(m, sentence).0;
      Ok(MentionToken(m1, token).0)
  }

  function BindMentions(ms: seq<Mention>, doc: Document): (r: Result<seq<Mention>>)
    ensures r.Err? <==> exists i :: 0 <= i < |ms| && BindMention(ms[i], doc).Err?
    ensures r.Ok? ==> (|r.value| == |ms| &&
      forall i :: 0 <= i < |ms| ==> BindMention(ms[i], doc) == Ok(r.value[i]))
    decreases |ms|
  {
    if |ms| == 0 then Ok([])
    else
      assert forall i :: 0 < i < |ms| ==> ms[i] == ms[1..][i - 1];
      var m :- BindMention(ms[0], doc);
      var rest :- BindMentions(ms[1..], doc);
      Ok([m] + rest)
  }

  /** `fromDocument(doc)`. */
  function FromDocument(c: Chain, doc: Document): (r: Result<Chain>)
    ensures r.Ok? ==> r.value.document == c.document && |r.value.mentions| == |c.mentions|
  {
    var ms :- BindMentions(c.mentions, doc);
    Ok(c.(mentions := ms))
  }

  /** The body of the `forEach` in `fromDocument` as written: after the
      sentence is looked up, `sentence.token(…)` throws a `TypeError`,
      because `Sentence` defines no `token` method (and `undefined`, for a
      missing sentence, has no properties at all). */
  function BindMentionAsWritten(m: Mention, doc: Document): Result<Mention> {
    var sentNum :- Field(m, SentNum);
    var i := IndexBefore(sentNum);
    var sentence := if i.Some? then SentenceAt(doc, i.value) else None;
    Err(TypeError)
  }

  /** `fromDocument(doc)` as written. */
  function FromDocumentAsWritten(c: Chain, doc: Document): Result<Chain> {
    var ms :- MapResult(c.mentions, m => BindMentionAsWritten(m, doc));
    Ok(c.(mentions := ms))
  }

  /** As written, `fromDocument` throws on every chain that has a mention,
      including those whose positions all name existing sentences and
      tokens, which the intended binding resolves. */
  lemma FromDocumentAsWrittenThrows(c: Chain, doc: Document)
    ensures |c.mentions| == 0 ==> FromDocumentAsWritten(c, doc) == Ok(c)
    ensures |c.mentions| > 0 ==> FromDocumentAsWritten(c, doc) == Err(TypeError)
  {
    if |c.mentions| > 0 {
      assert BindMentionAsWritten(c.mentions[0], doc).Err?;
    } else {
      assert c.(mentions := []) == c;
    }
  }

  /** `r` is the mention with record `d` bound in `doc`: its sentence is the
      one the 1-based `sentNum` names, and, when the 1-based `startIndex`
      names a token of that sentence, its token is that token. */
  predicate BoundAsNumbered(r: Mention, d: Json, doc: Document) {
    Get(d, "sentNum").Num? && 1 <= Get(d, "sentNum").n <= |doc.sentences| &&
    var s := doc.sentences[Get(d, "sentNum").n - 1];
    r.data == d && r.sentence == Some(s) &&
    (Get(d, "startIndex").Num? && 1 <= Get(d, "startIndex").n <= |s.tokens| ==>
      r.token == Some(s.tokens[Get(d, "startIndex").n - 1]))
  }

  /** With 1-based positions inside the document, every mention is bound to
      the sentence its `sentNum` names and to the token its `startIndex`
      names, and keeps its record. */
  lemma FromDocumentResolves(c: Chain, doc: Document, i: nat)
    requires FromDocument(c, doc).Ok? && i < |c.mentions|
    requires var d := c.mentions[i].data;
      !Nullish(d) && Get(d, "sentNum").Num? && 1 <= Get(d, "sentNum").n <= |doc.sentences|
    ensures BoundAsNumbered(FromDocument(c, doc).value.mentions[i], c.mentions[i].data, doc)
  {
    var ms := BindMentions(c.mentions, doc).value;
    assert BindMention(c.mentions[i], doc) == Ok(ms[i]);
    BindMentionResolves(c.mentions[i], doc);
  }

  /** One mention of `FromDocumentResolves`. */
  lemma BindMentionResolves(m: Mention, doc: Document)
    requires !Nullish(m.data) && Get(m.data, "sentNum").Num? && 1 <= Get(m.data, "sentNum").n <= |doc.sentences|
    ensures BindMention(m, doc).Ok? && BoundAsNumbered(BindMention(m, doc).value, m.data, doc)
  {
    var n := Get(m.data, "sentNum").n;
    var s := doc.sentences[n - 1];
    assert Field(m, SentNum) == Ok(Num(n));
    assert SentenceAt(doc, n - 1) == Some(s);
    if Get(m.data, "startIndex").Num? && 1 <= Get(m.data, "startIndex").n <= |s.tokens| {
      var k := Get(m.data, "startIndex").n;
      assert TokenAt(s, k - 1) == Some(s.tokens[k - 1]);
    }
  }

  /** A record whose `sentNum` names no sentence makes `fromDocument`
      throw. */
  lemma FromDocumentMissingSentence(c: Chain, doc: Document, i: nat)
    requires i < |c.mentions|
    requires var d := c.mentions[i].data;
      !Nullish(d) && Get(d, "sentNum").Num? && !(1 <= Get(d, "sentNum").n <= |doc.sentences|)
    ensures FromDocument(c, doc).Err?
  {
    assert BindMention(c.mentions[i], doc).Err?;
  }

  /** `fromJSON(data)` on an existing chain: one mention per element, in
      order; anything but an array throws. */
  function ChainWithJson(c: Chain, data: Json): (r: Result<Chain>)
    ensures r.Err? <==> !data.Arr?
    ensures r.Ok? ==> (r.value.document == c.document &&
      |r.value.mentions| == |data.items| &&
      forall i :: 0 <= i < |data.items| ==> r.value.mentions[i] == MentionFromJson(data.items[i]))
  {
    if !data.Arr? then Err(TypeError)
    else Ok(c.(mentions := seq(|data.items|, i requires 0 <= i < |data.items| =>
      MentionFromJson(data.items[i]))))
  }

  /** `CorefChain.fromJSON(data)`. */
  function ChainFromJson(data: Json): (r: Result<Chain>)
    ensures r.Ok? ==> r.value.document.None?
  {
    ChainWithJson(NewChain([]), data)
  }

  /** `toJSON()`: a shallow copy of the mention list. */
  function ChainToJson(c: Chain): (r: seq<Mention>)
    ensures |r| == |c.mentions| && forall i :: 0 <= i < |r| ==> r[i] == c.mentions[i]
  {
    c.mentions
  }

  /** A chain read from an array of object records writes back, mention by
      mention, the same records. */
  lemma ChainRoundTrip(records: seq<Json>)
    requires forall i :: 0 <= i < |records| ==> records[i].Obj? && OwnEntries(records[i].entries)
    ensures ChainFromJson(Arr(records)).Ok?
    ensures var ms := ChainToJson(ChainFromJson(Arr(records)).value);
      |ms| == |records| && forall i :: 0 <= i < |ms| ==> MentionToJson(ms[i]) == records[i]
  {
    var ms := ChainToJson(ChainFromJson(Arr(records)).value);
    forall i | 0 <= i < |ms|
      ensures MentionToJson(ms[i]) == records[i]
    {
      MentionRoundTrip(records[i].entries);
    }
  }
}
