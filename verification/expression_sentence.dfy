/**
  The sentences and matches of a TokensRegex, Semgrex or Tregex result
  (`ExpressionSentence` and `ExpressionSentenceMatch`): a match record holds
  its own begin, end and text and, under keys `"$" + label`, one record per
  labelled group; `mergeTokensFromSentence` attaches to each group the
  sentence token it covers.
 */
module ExpressionSentences {
  import opened Dedup
  import opened Js
  import opened Tokens
  import opened Sentences

  /** A group of a match: the match record itself, or the group stored under
      `"$" + label`. */
  datatype GroupKey = Main | Labelled(name: string)

  /** A match record and the tokens `mergeTokensFromSentence` has written as
      the `token` property of its groups. */
  datatype SentenceMatch = SentenceMatch(data: Json, tokens: map<GroupKey, Token>)

  /** `ExpressionSentenceMatch.fromJson(data)`. */
  function MatchFromJson(data: Json): SentenceMatch {
    SentenceMatch(data, map[])
  }

  /** `toJSON()`: a spread copy of the record. */
  function MatchToJson(m: SentenceMatch): (r: Json)
    ensures r.Obj? && OwnEntries(r.entries)
  {
    Obj(Spread(m.data))
  }

  /** Reading a match back from its JSON copy gives the same record. */
  lemma MatchRoundTrip(m: SentenceMatch)
    requires m.data.Obj? && OwnEntries(m.data.entries) && m.tokens == map[]
    ensures MatchFromJson(MatchToJson(m)) == m
  {
    SpreadObject(m.data.entries);
  }

  // ---------------------------------------------------------------------------
  // Labels and groups

  /** A key naming a labelled group: one that starts with `$`. */
  predicate IsDollarKey(k: string) {
    |k| >= 1 && k[0] == '$'
  }

  /** The keys starting with `$`, that first character removed, in order. */
  function DollarLabels(keys: seq<string>): (ls: seq<string>)
    ensures |ls| <= |keys|
  {
    if |keys| == 0 then []
    else (if IsDollarKey(keys[0]) then [keys[0][1..]] else []) + DollarLabels(keys[1..])
  }

  /** The labels are the `$`-keys, in key order, each without its `$`; so a
      label is listed exactly when `"$" + label` is one of the keys. */
  lemma {:induction false} DollarLabelsSpec(keys: seq<string>, l: string)
    ensures var ls, p := DollarLabels(keys), Positions(keys, IsDollarKey);
      |ls| == |p| && forall k :: 0 <= k < |p| ==> "$" + ls[k] == keys[p[k]]
    ensures l in DollarLabels(keys) <==> "$" + l in keys
  {
    DollarLabelsInOrder(keys);
    var ls, p := DollarLabels(keys), Positions(keys, IsDollarKey);
    PositionsSpec(keys, IsDollarKey);
    if l in ls {
      var k :| 0 <= k < |ls| && ls[k] == l;
      assert keys[p[k]] == "$" + l;
    }
    if "$" + l in keys {
      var i :| 0 <= i < |keys| && keys[i] == "$" + l;
      assert IsDollarKey(keys[i]);
      var k :| 0 <= k < |p| && p[k] == i;
      assert "$" + ls[k] == "$" + l;
      assert ls[k] == ("$" + ls[k])[1..] == ("$" + l)[1..] == l;
    }
  }

  lemma {:induction false} DollarLabelsInOrder(keys: seq<string>)
    ensures var ls, p := DollarLabels(keys), Positions(keys, IsDollarKey);
      |ls| == |p| && forall k :: 0 <= k < |p| ==> "$" + ls[k] == keys[p[k]]
    decreases |keys|
  {
    if |keys| > 0 {
      var ls, p := DollarLabels(keys), Positions(keys, IsDollarKey);
      var rest, q := DollarLabels(keys[1..]), Positions(keys[1..], IsDollarKey);
      DollarLabelsInOrder(keys[1..]);
      PositionsCons(keys, IsDollarKey);
      if IsDollarKey(keys[0]) {
        assert ls == [keys[0][1..]] + rest;
        assert "$" + keys[0][1..] == keys[0];
        forall k | 1 <= k < |p|
          ensures "$" + ls[k] == keys[p[k]]
        {
          assert ls[k] == rest[k - 1] && p[k] == q[k - 1] + 1;
          assert keys[1..][q[k - 1]] == keys[p[k]];
        }
      } else {
        assert ls == [] + rest;
        forall k | 0 <= k < |p|
          ensures "$" + ls[k] == keys[p[k]]
        {
          assert ls[k] == rest[k] && p[k] == q[k] + 1;
          assert keys[1..][q[k]] == keys[p[k]];
        }
      }
    }
  }

  /** `labels()`: reading the keys throws on a `null` or `undefined` record. */
  function Labels(m: SentenceMatch): (r: Result<seq<string>>)
    ensures r.Err? <==> Nullish(m.data)
  {
    var keys :- ObjectKeys(m.data);
    Ok(DollarLabels(keys))
  }

  /** The labels are the record's own keys that start with `$`, in key
      order, without the `$`: every such key is reported, and nothing
      else. */
  lemma LabelsSpec(m: SentenceMatch, l: string)
    requires !Nullish(m.data)
    ensures var ls, keys := Labels(m).value, ObjectKeys(m.data).value;
      var p := Positions(keys, IsDollarKey);
      |ls| == |p| && forall k :: 0 <= k < |p| ==> "$" + ls[k] == keys[p[k]]
    ensures l in Labels(m).value <==> "$" + l in ObjectKeys(m.data).value
  {
    DollarLabelsSpec(ObjectKeys(m.data).value, l);
  }

  /** `group(label)`. */
  function Group(m: SentenceMatch, name: string): (r: Result<Json>)
    ensures r.Err? <==> Nullish(m.data)
  {
    Prop(m.data, "$" + name)
  }

  /** The record a group key designates. */
  function GroupOf(data: Json, k: GroupKey): Json {
    match k
    case Main => data
    case Labelled(l) => Get(data, "$" + l)
  }

  /** The groups `groups()` lists: the match itself first, then one per
      label. */
  function GroupKeys(m: SentenceMatch): (r: Result<seq<GroupKey>>)
    ensures r.Err? <==> Nullish(m.data)
    ensures r.Ok? ==> |r.value| == 1 + |Labels(m).value| && r.value[0] == Main
    ensures r.Ok? ==> forall i :: 0 <= i < |Labels(m).value| ==> r.value[i + 1] == Labelled(Labels(m).value[i])
  {
    var ls :- Labels(m);
    Ok([Main] + seq(|ls|, i requires 0 <= i < |ls| => Labelled(ls[i])))
  }

  /** `groups()`. */
  function Groups(m: SentenceMatch): (r: Result<seq<Json>>)
    ensures r.Err? <==> Nullish(m.data)
    ensures r.Ok? ==> |r.value| == |GroupKeys(m).value|
    ensures r.Ok? ==> forall i :: 0 <= i < |r.value| ==> r.value[i] == GroupOf(m.data, GroupKeys(m).value[i])
  {
    var keys :- GroupKeys(m);
    Ok(seq(|keys|, i requires 0 <= i < |keys| => GroupOf(m.data, keys[i])))
  }

  /** The groups are the match record followed by the value of each of its
      `$`-keys, in key order. */
  lemma GroupsInKeyOrder(m: SentenceMatch)
    requires !Nullish(m.data)
    ensures var g, keys := Groups(m).value, ObjectKeys(m.data).value;
      var p := Positions(keys, IsDollarKey);
      |g| == 1 + |p| && g[0] == m.data &&
      forall k :: 0 <= k < |p| ==> g[k + 1] == Get(m.data, keys[p[k]])
  {
    var g, keys, ls := Groups(m).value, ObjectKeys(m.data).value, Labels(m).value;
    var p := Positions(keys, IsDollarKey);
    LabelsSpec(m, "");
    forall k | 0 <= k < |p|
      ensures g[k + 1] == Get(m.data, keys[p[k]])
    {
      assert GroupKeys(m).value[k + 1] == Labelled(ls[k]);
      assert g[k + 1] == Get(m.data, "$" + ls[k]);
    }
  }

  /** The groups are the match record followed by `group(label)` for each
      label: every `$`-key of the record contributes its value. */
  lemma GroupsSpec(m: SentenceMatch, k: string)
    requires !Nullish(m.data)
    requires k in ObjectKeys(m.data).value && |k| >= 1 && k[0] == '$'
    ensures Groups(m).value[0] == m.data
    ensures exists i :: 1 <= i < |Groups(m).value| && Groups(m).value[i] == Get(m.data, k)
  {
    var ls := Labels(m).value;
    assert k == "$" + k[1..];
    LabelsSpec(m, k[1..]);
    var j :| 0 <= j < |ls| && ls[j] == k[1..];
    assert GroupKeys(m).value[j + 1] == Labelled(k[1..]);
    assert Groups(m).value[j + 1] == Get(m.data, k);
  }

  // ---------------------------------------------------------------------------
  // Attaching tokens

  /** Values a property can be written on. */
  predicate IsObject(v: Json) {
    v.Obj? || v.Arr?
  }

  /** `v + 1` as JavaScript evaluates it: numbers add, strings concatenate,
      `null` and booleans count as numbers, arrays and objects concatenate
      their string form, and `undefined` gives `NaN` (`None`), which is equal
      to nothing. */
  function PlusOne(v: Json): (r: Option<Json>)
    ensures r.None? <==> v.Undefined?
    ensures r.Some? ==> r.value.Num? || r.value.Str?
  {
    match v
    case Undefined => None
    case Null => Some(Num(1))
    case Bool(b) => Some(Num(if b then 2 else 1))
    case Num(n) => Some(Num(n + 1))
    case Str(s) => Some(Str(s + "1"))
    case _ => Some(Str(Render(v) + "1"))
  }

  /** The test `findToken` applies, with `===`: the token's `index()` is the
      group's `begin` plus one and its `toString()` is the group's `text`.
      Tokens of this library have neither method, so both are parameters. */
  predicate TokenFits(t: Token, group: Json, index: Token -> Json, str: Token -> string) {
    PlusOne(Get(group, "begin")) == Some(index(t)) && Get(group, "text") == Str(str(t))
  }

  /** `Array.prototype.findIndex` with `TokenFits`. */
  function FindIndex(tokens: seq<Token>, group: Json, index: Token -> Json, str: Token -> string): (r: Option<nat>)
    ensures r.Some? ==> r.value < |tokens| && TokenFits(tokens[r.value], group, index, str)
    ensures r.Some? ==> forall j :: 0 <= j < r.value ==> !TokenFits(tokens[j], group, index, str)
    ensures r.None? ==> forall j :: 0 <= j < |tokens| ==> !TokenFits(tokens[j], group, index, str)
  {
    if |tokens| == 0 then None
    else if TokenFits(tokens[0], group, index, str) then Some(0)
    else match FindIndex(tokens[1..], group, index, str)
      case Some(i) => Some(i + 1)
      case None => None
  }

  /** `findToken(group)`: the first token that fits, if any. */
  function FindToken(tokens: seq<Token>, group: Json, index: Token -> Json, str: Token -> string): Option<Token> {
    match FindIndex(tokens, group, index, str)
    case Some(i) => Some(tokens[i])
    case None => None
  }

  /** The first fitting token is the one `findToken` returns. */
  lemma FindTokenFirst(tokens: seq<Token>, group: Json, index: Token -> Json, str: Token -> string, j: nat)
    requires j < |tokens| && TokenFits(tokens[j], group, index, str)
    requires forall i :: 0 <= i < j ==> !TokenFits(tokens[i], group, index, str)
    ensures FindToken(tokens, group, index, str) == Some(tokens[j])
  {
    var r := FindIndex(tokens, group, index, str);
    assert r.Some?;
    assert r.value == j;
  }

  /** `findToken` for the groups of one record. */
  function Finder(data: Json, tokens: seq<Token>, index: Token -> Json, str: Token -> string): GroupKey -> Option<Token> {
    k => FindToken(tokens, GroupOf(data, k), index, str)
  }

  /** The tokens found for the listed groups. */
  function Found(keys: seq<GroupKey>, find: GroupKey -> Option<Token>): map<GroupKey, Token> {
    map k | k in keys && find(k).Some? :: find(k).value
  }

  lemma FoundStep(keys: seq<GroupKey>, find: GroupKey -> Option<Token>, acc: map<GroupKey, Token>)
    requires |keys| > 0
    ensures find(keys[0]).Some? ==> acc[keys[0] := find(keys[0]).value] + Found(keys[1..], find) == acc + Found(keys, find)
    ensures find(keys[0]).None? ==> acc + Found(keys[1..], find) == acc + Found(keys, find)
  {
    assert keys == [keys[0]] + keys[1..];
  }

  /** Writes `group.token = findToken(group) || group.token` for each group in
      turn; writing on a group that is not an object throws. */
  function MergeGroups(data: Json, keys: seq<GroupKey>, acc: map<GroupKey, Token>, find: GroupKey -> Option<Token>): (r: Result<map<GroupKey, Token>>)
    ensures r.Err? <==> exists i :: 0 <= i < |keys| && !IsObject(GroupOf(data, keys[i]))
    ensures r.Ok? ==> r.value == acc + Found(keys, find)
  {
    if |keys| == 0 then
      assert Found(keys, find) == map[];
      Ok(acc)
    else
      var group := GroupOf(data, keys[0]);
      if !IsObject(group) then Err(TypeError)
      else
        var f := find(keys[0]);
        var acc' := if f.Some? then acc[keys[0] := f.value] else acc;
        var r := MergeGroups(data, keys[1..], acc', find);
        FoundStep(keys, find, acc);
        assert r.Err? ==> exists i :: 0 <= i < |keys| && !IsObject(GroupOf(data, keys[i])) by {
          if r.Err? {
            var i :| 0 <= i < |keys[1..]| && !IsObject(GroupOf(data, keys[1..][i]));
            assert keys[i + 1] == keys[1..][i];
          }
        }
        assert r.Ok? ==> forall i :: 0 <= i < |keys| ==> IsObject(GroupOf(data, keys[i])) by {
          if r.Ok? {
            forall i | 0 <= i < |keys|
              ensures IsObject(GroupOf(data, keys[i]))
            {
              if i > 0 {
                assert keys[i] == keys[1..][i - 1];
              }
            }
          }
        }
        r
  }

  /** `mergeTokensFromSentence` on one match: every group of the match takes
      the first token of the sentence that fits it and keeps its previous
      token when none fits; a `null` record or a group that is not an object
      throws. */
  function MergeMatch(m: SentenceMatch, tokens: seq<Token>, index: Token -> Json, str: Token -> string): (r: Result<SentenceMatch>)
    ensures r.Err? <==>
      Nullish(m.data) || exists i :: 0 <= i < |GroupKeys(m).value| && !IsObject(GroupOf(m.data, GroupKeys(m).value[i]))
    ensures r.Ok? ==> r.value.data == m.data
    ensures r.Ok? ==> r.value.tokens == m.tokens + Found(GroupKeys(m).value, Finder(m.data, tokens, index, str))
  {
    var keys :- GroupKeys(m);
    var merged :- MergeGroups(m.data, keys, m.tokens, Finder(m.data, tokens, index, str));
    Ok(SentenceMatch(m.data, merged))
  }

  /** The match record's own group takes the first sentence token whose
      index follows its `begin` and whose string is its `text`. */
  lemma MergeAttachesFirstFit(m: SentenceMatch, tokens: seq<Token>, index: Token -> Json, str: Token -> string,
                               b: int, w: string, j: nat)
    requires m.data.Obj? && Get(m.data, "begin") == Num(b) && Get(m.data, "text") == Str(w)
    requires j < |tokens| && index(tokens[j]) == Num(b + 1) && str(tokens[j]) == w
    requires forall i :: 0 <= i < j ==> !(index(tokens[i]) == Num(b + 1) && str(tokens[i]) == w)
    requires MergeMatch(m, tokens, index, str).Ok?
    ensures MergeMatch(m, tokens, index, str).value.tokens[Main] == tokens[j]
  {
    FindTokenFirst(tokens, m.data, index, str, j);
    assert GroupKeys(m).value[0] == Main;
  }

  /** Merging the same sentence twice attaches nothing new. */
  lemma MergeIdempotent(m: SentenceMatch, tokens: seq<Token>, index: Token -> Json, str: Token -> string)
    requires MergeMatch(m, tokens, index, str).Ok?
    ensures MergeMatch(MergeMatch(m, tokens, index, str).value, tokens, index, str) == MergeMatch(m, tokens, index, str)
  {
    var r0 := MergeMatch(m, tokens, index, str);
    var m1 := r0.value;
    assert GroupKeys(m1) == GroupKeys(m);
    var f := Found(GroupKeys(m).value, Finder(m.data, tokens, index, str));
    var r1 := MergeMatch(m1, tokens, index, str);
    assert r1.Ok? && r1.value.tokens == m1.tokens + f;
    UnionTwice(m.tokens, f);
  }

  /** Overriding with the same map a second time changes nothing. */
  lemma UnionTwice<K, V>(a: map<K, V>, f: map<K, V>)
    ensures (a + f) + f == a + f
  {
  }

  // ---------------------------------------------------------------------------
  // ExpressionSentence

  datatype ExpressionSentence = ExpressionSentence(matches: seq<SentenceMatch>)

  /** `match(index)`: `undefined` (`None`) outside the list. */
  function MatchAt(es: ExpressionSentence, index: int): (r: Option<SentenceMatch>)
    ensures r.Some? <==> 0 <= index < |es.matches|
    ensures r.Some? ==> r.value == es.matches[index]
  {
    if 0 <= index < |es.matches| then Some(es.matches[index]) else None
  }

  /** `ExpressionSentence.fromJson(data)`: one match per own key other than
      `length`, in key order; a `null` or `undefined` record throws. */
  function ExpressionSentenceFromJson(data: Json): (r: Result<ExpressionSentence>)
    ensures r.Err? <==> Nullish(data)
    ensures r.Ok? ==>
      var keys := ObjectKeys(data).value;
      var p := Positions(keys, NotLength);
      |r.value.matches| == |p| &&
      forall i :: 0 <= i < |p| ==> r.value.matches[i] == MatchFromJson(Get(data, keys[p[i]]))
  {
    var keys :- ObjectKeys(data);
    var ks := Without(keys, ["length"]);
    WithoutLengthIsFilter(keys);
    Ok(ExpressionSentence(seq(|ks|, i requires 0 <= i < |ks| => MatchFromJson(Get(data, ks[i])))))
  }

  /** `toJSON()`, with each match as `JSON.stringify` writes it (through the
      match's own `toJSON`). */
  function ExpressionSentenceToJson(es: ExpressionSentence): (r: Json)
    ensures r.Arr? && |r.items| == |es.matches|
  {
    Arr(seq(|es.matches|, i requires 0 <= i < |es.matches| => MatchToJson(es.matches[i])))
  }

  /** Reading a sentence back from its JSON array gives the same matches, in
      order. */
  lemma ExpressionSentenceRoundTrip(es: ExpressionSentence)
    requires forall i :: 0 <= i < |es.matches| ==>
      es.matches[i].data.Obj? && OwnEntries(es.matches[i].data.entries) && es.matches[i].tokens == map[]
    ensures ExpressionSentenceFromJson(ExpressionSentenceToJson(es)) == Ok(es)
  {
    var v := ExpressionSentenceToJson(es);
    var n := |es.matches|;
    IndexKeysLackLength(n);
    var r := ExpressionSentenceFromJson(v).value;
    assert ObjectKeys(v).value == IndexKeys(n);
    forall i | 0 <= i < n
      ensures r.matches[i] == es.matches[i]
    {
      GetArrayIndex(v.items, i);
      MatchRoundTrip(es.matches[i]);
    }
    assert r.matches == es.matches;
  }

  /** `mergeTokensFromSentence(sentence)`, over the sentence's `tokens()`. */
  function MergeTokensFromSentence(es: ExpressionSentence, s: Sentence, index: Token -> Json, str: Token -> string): (r: Result<ExpressionSentence>)
    ensures r.Err? <==> exists i :: 0 <= i < |es.matches| && MergeMatch(es.matches[i], s.tokens, index, str).Err?
    ensures r.Ok? ==> |r.value.matches| == |es.matches|
    ensures r.Ok? ==> forall i :: 0 <= i < |es.matches| ==>
      r.value.matches[i].data == es.matches[i].data &&
      r.value.matches[i].tokens == es.matches[i].tokens + Found(GroupKeys(es.matches[i]).value, Finder(es.matches[i].data, s.tokens, index, str))
  {
    var ms :- MapResult(es.matches, m => MergeMatch(m, s.tokens, index, str));
    Ok(ExpressionSentence(ms))
  }

  /** One match of `mergeTokensFromSentence` as written: `findToken` calls
      `sentence.tokens()`, which `Sentence` does not define, for the first
      group, the match record itself; so once the groups are listed the call
      throws a `TypeError`. */
  function MergeMatchAsWritten(m: SentenceMatch): Result<SentenceMatch> {
    var keys :- GroupKeys(m);
    Err(TypeError)
  }

  /** `mergeTokensFromSentence(sentence)` as written. */
  function MergeTokensFromSentenceAsWritten(es: ExpressionSentence): Result<ExpressionSentence> {
    var ms :- MapResult(es.matches, MergeMatchAsWritten);
    Ok(ExpressionSentence(ms))
  }

  /** As written, merging throws on every sentence that has a match, even
      one whose groups all fit the intended merge. */
  lemma MergeTokensAsWrittenThrows(es: ExpressionSentence)
    ensures |es.matches| == 0 ==> MergeTokensFromSentenceAsWritten(es) == Ok(es)
    ensures |es.matches| > 0 ==> MergeTokensFromSentenceAsWritten(es) == Err(TypeError)
  {
    if |es.matches| > 0 {
      assert MergeMatchAsWritten(es.matches[0]).Err?;
    }
  }

  /** Merging the same sentence twice is the same as merging it once. */
  lemma {:induction false} MergeTokensIdempotent(es: ExpressionSentence, s: Sentence, index: Token -> Json, str: Token -> string)
    requires MergeTokensFromSentence(es, s, index, str).Ok?
    ensures MergeTokensFromSentence(MergeTokensFromSentence(es, s, index, str).value, s, index, str)
         == MergeTokensFromSentence(es, s, index, str)
  {
    var es1 := MergeTokensFromSentence(es, s, index, str).value;
    forall i | 0 <= i < |es1.matches|
      ensures MergeMatch(es1.matches[i], s.tokens, index, str) == Ok(es1.matches[i])
    {
      MergeIdempotent(es.matches[i], s.tokens, index, str);
    }
    var r := MapResult(es1.matches, m => MergeMatch(m, s.tokens, index, str));
    assert r.Ok?;
    assert r.value == es1.matches;
  }
}
