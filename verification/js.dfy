/**
  The JavaScript value semantics the client library relies on: JSON-shaped
  values as the annotation engine returns them, truthiness, property reads
  that throw on `null`/`undefined`, `Object.keys` enumeration, template-literal
  string conversion, and `Array.prototype.join`.
 */
module Js {
  import opened Dedup

  datatype Option<+T> = None | Some(value: T) {
    function GetOr(default: T): T {
      match this
      case Some(v) => v
      case None => default
    }
  }

  /** What a JavaScript call throws: a `TypeError` raised by the engine itself
      (a property read on `undefined`, a call of a missing method), or an
      `Error` the library throws with its own message. */
  datatype Error = TypeError | Thrown(message: string)

  datatype Result<+T> = Ok(value: T) | Err(error: Error) {
    predicate IsFailure() { Err? }
    function PropagateFailure<U>(): Result<U>
      requires Err?
    {
      Err(error)
    }
    function Extract(): T
      requires Ok?
    {
      value
    }
  }

  /** A JavaScript value as found in a parsed engine response. Numbers are
      integers here; objects are their own enumerable entries, which for an
      object the program can hold are in `Object.keys` order (`OwnEntries`). */
  datatype Json =
    | Undefined
    | Null
    | Bool(b: bool)
    | Num(n: int)
    | Str(s: string)
    | Arr(items: seq<Json>)
    | Obj(entries: seq<(string, Json)>)

  predicate Nullish(v: Json) {
    v.Undefined? || v.Null?
  }

  /** JavaScript truthiness: `undefined`, `null`, `false`, `0` and `''` are falsy,
      every array and object is truthy. */
  predicate Truthy(v: Json) {
    match v
    case Undefined => false
    case Null => false
    case Bool(b) => b
    case Num(n) => n != 0
    case Str(s) => s != ""
    case Arr(_) => true
    case Obj(_) => true
  }

  // ---------------------------------------------------------------------------
  // Ordered entry lists (the own enumerable properties of a plain object)

  function KeysOf<V>(entries: seq<(string, V)>): (ks: seq<string>)
    ensures |ks| == |entries|
  {
    if |entries| == 0 then [] else [entries[0].0] + KeysOf(entries[1..])
  }

  lemma {:induction false} KeysOfIndex<V>(entries: seq<(string, V)>, i: nat)
    requires i < |entries|
    ensures KeysOf(entries)[i] == entries[i].0
  {
    if i > 0 {
      KeysOfIndex(entries[1..], i - 1);
    }
  }

  predicate UniqueKeys<V>(entries: seq<(string, V)>) {
    NoDuplicates(KeysOf(entries))
  }

  /** The value stored under `k`, if `k` is an own key (the first entry
      with that key). */
  function Lookup<V>(entries: seq<(string, V)>, k: string): Option<V> {
    if |entries| == 0 then None
    else if entries[0].0 == k then Some(entries[0].1)
    else Lookup(entries[1..], k)
  }

  lemma {:induction false} LookupSpec<V>(entries: seq<(string, V)>, k: string)
    ensures Lookup(entries, k).None? <==> k !in KeysOf(entries)
    ensures Lookup(entries, k).Some? ==>
      exists i :: 0 <= i < |entries| && entries[i] == (k, Lookup(entries, k).value)
  {
    if |entries| > 0 {
      LookupSpec(entries[1..], k);
      assert KeysOf(entries) == [entries[0].0] + KeysOf(entries[1..]);
      if entries[0].0 != k && Lookup(entries, k).Some? {
        var i :| 0 <= i < |entries[1..]| && entries[1..][i] == (k, Lookup(entries, k).value);
        assert entries[i + 1] == entries[1..][i];
      }
    }
  }

  lemma {:induction false} LookupUnique<V>(entries: seq<(string, V)>, i: nat)
    requires UniqueKeys(entries) && i < |entries|
    ensures Lookup(entries, entries[i].0) == Some(entries[i].1)
  {
    NoDuplicatesByIndex(KeysOf(entries));
    if i > 0 {
      assert KeysOf(entries[1..]) == KeysOf(entries)[1..];
      NoDuplicatesByIndex(KeysOf(entries[1..]));
      LookupUnique(entries[1..], i - 1);
      KeysOfIndex(entries, 0);
      KeysOfIndex(entries, i);
      assert KeysOf(entries)[0] != KeysOf(entries)[i];
      assert entries[1..][i - 1] == entries[i];
    }
  }

  /** The digits of `s` read as a decimal number, if `s` is a non-empty run
      of digits. */
  function ParseDigits(s: string): Option<nat> {
    if |s| == 0 || !('0' <= s[|s| - 1] <= '9') then None
    else
      var d := s[|s| - 1] as int - '0' as int;
      if |s| == 1 then Some(d)
      else
        match ParseDigits(s[..|s| - 1])
        case None => None
        case Some(p) => Some(p * 10 + d)
  }

  /** An array index key: the canonical decimal string of an integer below
      2^32 - 1, the keys an object enumerates before all others. */
  predicate IsIndexKey(k: string) {
    var n := ParseDigits(k);
    n.Some? && n.value < 0xFFFF_FFFF && NatToString(n.value) == k
  }

  /** The number an array index key stands for. */
  function IndexValue(k: string): nat
    requires IsIndexKey(k)
  {
    ParseDigits(k).value
  }

  /** Two array index keys with the same number are the same key. */
  lemma IndexValueInjective(a: string, b: string)
    requires IsIndexKey(a) && IsIndexKey(b) && IndexValue(a) == IndexValue(b)
    ensures a == b
  {
  }

  /** Where a new key `k` is placed relative to an existing key `e`: an array
      index key goes before every other key and before larger indices. */
  predicate GoesBefore(k: string, e: string) {
    IsIndexKey(k) && (!IsIndexKey(e) || IndexValue(k) < IndexValue(e))
  }

  /** The order of `Object.keys` on an ordinary object: array index keys first,
      in ascending numeric order; the other keys after them (those keep the
      order of their creation, which the entry list records). */
  predicate KeyOrdered<V>(entries: seq<(string, V)>) {
    forall i, j :: 0 <= i < j < |entries| && IsIndexKey(entries[j].0) ==>
      IsIndexKey(entries[i].0) && IndexValue(entries[i].0) < IndexValue(entries[j].0)
  }

  /** The entries a JavaScript object can have: each key once, in
      `Object.keys` order. */
  predicate OwnEntries<V>(entries: seq<(string, V)>) {
    UniqueKeys(entries) && KeyOrdered(entries)
  }

  /** `obj[k] = v`: an existing key keeps its position; a new key is placed
      where `Object.keys` lists it, after the other keys unless it is an
      array index. */
  function Put<V>(entries: seq<(string, V)>, k: string, v: V): (r: seq<(string, V)>)
    ensures k in KeysOf(entries) ==> KeysOf(r) == KeysOf(entries)
    ensures !IsIndexKey(k) ==> KeysOf(r) == KeysOf(entries) + (if k in KeysOf(entries) then [] else [k])
    ensures k in KeysOf(r) && Without(KeysOf(r), [k]) == Without(KeysOf(entries), [k])
    ensures Lookup(r, k) == Some(v)
    ensures forall k' :: k' != k ==> Lookup(r, k') == Lookup(entries, k')
  {
    if |entries| == 0 then
      assert KeysOf([(k, v)]) == [k];
      WithoutCons(k, [], [k]);
      [(k, v)]
    else
      var e := entries[0];
      assert KeysOf(entries) == [e.0] + KeysOf(entries[1..]);
      WithoutCons(e.0, KeysOf(entries[1..]), [k]);
      if e.0 == k then
        var r := [(k, v)] + entries[1..];
        assert r[1..] == entries[1..];
        assert KeysOf(r) == [k] + KeysOf(entries[1..]);
        r
      else if k !in KeysOf(entries) && GoesBefore(k, e.0) then
        var r := [(k, v)] + entries;
        assert r[1..] == entries;
        assert KeysOf(r) == [k] + KeysOf(entries);
        WithoutCons(k, KeysOf(entries), [k]);
        r
      else
        var rest := Put(entries[1..], k, v);
        var r := [e] + rest;
        assert r[1..] == rest;
        assert KeysOf(r) == [e.0] + KeysOf(rest);
        WithoutCons(e.0, KeysOf(rest), [k]);
        r
  }

  /** Writing a property never creates a second entry for a key. */
  lemma {:induction false} PutKeepsUniqueKeys<V>(entries: seq<(string, V)>, k: string, v: V)
    requires UniqueKeys(entries)
    ensures UniqueKeys(Put(entries, k, v))
  {
    if |entries| > 0 {
      var e := entries[0];
      var ks := KeysOf(entries);
      assert ks == [e.0] + KeysOf(entries[1..]);
      if e.0 == k {
        assert KeysOf(Put(entries, k, v)) == ks;
      } else if k !in ks && GoesBefore(k, e.0) {
        NoDuplicatesCons(k, ks);
      } else {
        NoDuplicatesCons(e.0, KeysOf(entries[1..]));
        PutKeepsUniqueKeys(entries[1..], k, v);
        PutConsUnique(e, entries[1..], k, v);
      }
    }
  }

  /** A key that is neither written nor in the tail stays unique in front
      of the written tail. */
  lemma PutConsUnique<V>(e: (string, V), tail: seq<(string, V)>, k: string, v: V)
    requires e.0 != k && e.0 !in KeysOf(tail) && UniqueKeys(Put(tail, k, v))
    ensures UniqueKeys([e] + Put(tail, k, v))
  {
    var rest := Put(tail, k, v);
    assert KeysOf([e] + rest) == [e.0] + KeysOf(rest) by {
      assert ([e] + rest)[1..] == rest;
    }
    assert e.0 !in KeysOf(rest) by {
      WithoutMembers(KeysOf(rest), [k], e.0);
      WithoutMembers(KeysOf(tail), [k], e.0);
    }
    NoDuplicatesCons(e.0, KeysOf(rest));
  }


  lemma KeyOrderedTail<V>(entries: seq<(string, V)>)
    requires |entries| > 0 && KeyOrdered(entries)
    ensures KeyOrdered(entries[1..])
  {
    forall i, j | 0 <= i < j < |entries| - 1 && IsIndexKey(entries[1..][j].0)
      ensures IsIndexKey(entries[1..][i].0) && IndexValue(entries[1..][i].0) < IndexValue(entries[1..][j].0)
    {
      assert entries[1..][i] == entries[i + 1] && entries[1..][j] == entries[j + 1];
    }
  }

  lemma KeyOrderedCons<V>(e: (string, V), rest: seq<(string, V)>)
    requires KeyOrdered(rest)
    requires forall j :: 0 <= j < |rest| && IsIndexKey(rest[j].0) ==>
      IsIndexKey(e.0) && IndexValue(e.0) < IndexValue(rest[j].0)
    ensures KeyOrdered([e] + rest)
  {
    var r := [e] + rest;
    forall i, j | 0 <= i < j < |r| && IsIndexKey(r[j].0)
      ensures IsIndexKey(r[i].0) && IndexValue(r[i].0) < IndexValue(r[j].0)
    {
      assert r[j] == rest[j - 1];
      if i > 0 {
        assert r[i] == rest[i - 1];
      }
    }
  }

  /** Writing a property keeps the keys in `Object.keys` order. */
  lemma {:induction false} PutKeepsOrder<V>(entries: seq<(string, V)>, k: string, v: V)
    requires KeyOrdered(entries)
    ensures KeyOrdered(Put(entries, k, v))
  {
    if |entries| > 0 {
      var e := entries[0];
      assert KeysOf(entries) == [e.0] + KeysOf(entries[1..]);
      KeyOrderedTail(entries);
      if e.0 == k {
        KeyOrderedCons((k, v), entries[1..]);
        assert forall j :: 0 <= j < |entries| - 1 ==> entries[1..][j] == entries[j + 1];
      } else if k !in KeysOf(entries) && GoesBefore(k, e.0) {
        forall j | 0 <= j < |entries| && IsIndexKey(entries[j].0)
          ensures IndexValue(k) < IndexValue(entries[j].0)
        {
          if j > 0 {
            assert IsIndexKey(entries[0].0) && IndexValue(entries[0].0) < IndexValue(entries[j].0);
          }
        }
        KeyOrderedCons((k, v), entries);
      } else {
        PutKeepsOrder(entries[1..], k, v);
        PutPastFirst(entries, k, v);
        FirstBeforeWrittenRest(entries, k, v);
        KeyOrderedCons(e, Put(entries[1..], k, v));
      }
    }
  }

  /** When the key is written past the first entry, the first entry still
      comes before every array index key of the written rest. */
  lemma FirstBeforeWrittenRest<V>(entries: seq<(string, V)>, k: string, v: V)
    requires |entries| > 0 && KeyOrdered(entries)
    requires entries[0].0 != k && !(k !in KeysOf(entries) && GoesBefore(k, entries[0].0))
    ensures var e, rest := entries[0], Put(entries[1..], k, v);
      forall j :: 0 <= j < |rest| && IsIndexKey(rest[j].0) ==>
        IsIndexKey(e.0) && IndexValue(e.0) < IndexValue(rest[j].0)
  {
    var e := entries[0];
    var rest := Put(entries[1..], k, v);
    assert KeysOf(entries) == [e.0] + KeysOf(entries[1..]);
    forall j | 0 <= j < |rest| && IsIndexKey(rest[j].0)
      ensures IsIndexKey(e.0) && IndexValue(e.0) < IndexValue(rest[j].0)
    {
      PutEntryOrigin(entries[1..], k, v, j);
      if rest[j].0 == k {
        if k in KeysOf(entries[1..]) {
          var i := KeyPosition(entries[1..], k);
          assert entries[i + 1].0 == k;
        } else {
          assert !GoesBefore(k, e.0);
          IndexValueNotEqual(k, e.0);
        }
      } else {
        var i :| 0 <= i < |entries[1..]| && entries[1..][i].0 == rest[j].0;
        assert entries[i + 1].0 == rest[j].0;
      }
    }
  }

  lemma IndexValueNotEqual(a: string, b: string)
    requires a != b && IsIndexKey(a) && IsIndexKey(b)
    ensures IndexValue(a) != IndexValue(b)
  {
    if IndexValue(a) == IndexValue(b) {
      IndexValueInjective(a, b);
    }
  }

  /** Every key of a written entry list is the written key or an old one. */
  lemma PutEntryOrigin<V>(entries: seq<(string, V)>, k: string, v: V, j: nat)
    requires j < |Put(entries, k, v)|
    ensures Put(entries, k, v)[j].0 == k ||
      exists i :: 0 <= i < |entries| && entries[i].0 == Put(entries, k, v)[j].0
  {
    var r := Put(entries, k, v);
    KeysOfIndex(r, j);
    if r[j].0 != k {
      assert r[j].0 in KeysOf(r);
      WithoutMembers(KeysOf(r), [k], r[j].0);
      WithoutMembers(KeysOf(entries), [k], r[j].0);
      var i := KeyPosition(entries, r[j].0);
    }
  }

  /** The position of a key that is present. */
  lemma {:induction false} KeyPosition<V>(entries: seq<(string, V)>, k: string) returns (i: nat)
    requires k in KeysOf(entries)
    ensures i < |entries| && entries[i].0 == k
  {
    assert KeysOf(entries) == [entries[0].0] + KeysOf(entries[1..]);
    if entries[0].0 == k {
      i := 0;
    } else {
      var i' := KeyPosition(entries[1..], k);
      i := i' + 1;
    }
  }

  /** Writing a property keeps the entries those of a JavaScript object. */
  lemma PutKeepsOwnEntries<V>(entries: seq<(string, V)>, k: string, v: V)
    requires OwnEntries(entries)
    ensures OwnEntries(Put(entries, k, v))
  {
    PutKeepsUniqueKeys(entries, k, v);
    PutKeepsOrder(entries, k, v);
  }

  // ---------------------------------------------------------------------------
  // Property reads

  /** Array index keys are the canonical decimal strings of the indices. */
  function IndexKeys(n: nat): (ks: seq<string>)
    ensures |ks| == n
    ensures forall i :: 0 <= i < n ==> ks[i] == NatToString(i)
  {
    seq(n, i requires 0 <= i < n => NatToString(i))
  }

  /** The index `i < n` whose decimal string is `k`, if any. */
  function IndexOfKey(k: string, n: nat): (r: Option<nat>)
    ensures r.Some? ==> r.value < n && NatToString(r.value) == k
    ensures r.None? ==> forall i :: 0 <= i < n ==> NatToString(i) != k
  {
    if n == 0 then None
    else if NatToString(n - 1) == k then Some(n - 1)
    else IndexOfKey(k, n - 1)
  }

  /** `v[k]` on a value that is not `null` or `undefined`: own properties of
      objects, arrays and strings (including `length`), `undefined` otherwise.
      Members inherited from a prototype are not part of this reading; where
      the library reads one, the caller says so. */
  function Get(v: Json, k: string): Json {
    match v
    case Obj(entries) => Lookup(entries, k).GetOr(Undefined)
    case Arr(items) =>
      if k == "length" then Num(|items|)
      else (
        match IndexOfKey(k, |items|)
        case Some(i) => items[i]
        case None => Undefined)
    case Str(s) =>
      if k == "length" then Num(|s|)
      else (
        match IndexOfKey(k, |s|)
        case Some(i) => Str([s[i]])
        case None => Undefined)
    case _ => Undefined
  }

  /** The members every plain object inherits from `Object.prototype`; a
      property read with one of these names finds a function (or, for
      `__proto__`, the prototype object), both truthy. */
  const InheritedMembers: set<string> := {
    "constructor", "hasOwnProperty", "isPrototypeOf", "propertyIsEnumerable",
    "toLocaleString", "toString", "valueOf", "__proto__",
    "__defineGetter__", "__defineSetter__", "__lookupGetter__", "__lookupSetter__"}

  /** `v.k`, which throws a `TypeError` on `null` and `undefined`. */
  function Prop(v: Json, k: string): (r: Result<Json>)
    ensures r.Err? <==> Nullish(v)
    ensures r.Ok? ==> r.value == Get(v, k)
  {
    if Nullish(v) then Err(TypeError) else Ok(Get(v, k))
  }

  /** `Object.keys(v)`: the own enumerable keys, in order; throws on `null`
      and `undefined`. */
  function ObjectKeys(v: Json): (r: Result<seq<string>>)
    ensures r.Err? <==> Nullish(v)
  {
    match v
    case Undefined => Err(TypeError)
    case Null => Err(TypeError)
    case Obj(entries) => Ok(KeysOf(entries))
    case Arr(items) => Ok(IndexKeys(|items|))
    case Str(s) => Ok(IndexKeys(|s|))
    case _ => Ok([])
  }

  /** The own enumerable entries of `v`, as `{ ...v }` copies them: later
      writes of a key overwrite earlier ones in place. */
  function Spread(v: Json): (r: seq<(string, Json)>)
    ensures OwnEntries(r)
  {
    var own := match v
      case Obj(entries) => entries
      case Arr(items) => seq(|items|, i requires 0 <= i < |items| => (NatToString(i), items[i]))
      case Str(s) => seq(|s|, i requires 0 <= i < |s| => (NatToString(i), Str([s[i]])))
      case _ => [];
    PutAllUnique([], own);
    PutAll([], own)
  }

  /** Writing the entries one after the other, as an object spread does. */
  function PutAll<V>(acc: seq<(string, V)>, entries: seq<(string, V)>): seq<(string, V)>
    decreases |entries|
  {
    if |entries| == 0 then acc else PutAll(Put(acc, entries[0].0, entries[0].1), entries[1..])
  }

  lemma {:induction false} PutAllUnique<V>(acc: seq<(string, V)>, entries: seq<(string, V)>)
    requires OwnEntries(acc)
    ensures OwnEntries(PutAll(acc, entries))
    decreases |entries|
  {
    if |entries| > 0 {
      PutKeepsOwnEntries(acc, entries[0].0, entries[0].1);
      PutAllUnique(Put(acc, entries[0].0, entries[0].1), entries[1..]);
    }
  }

  lemma {:induction false} KeysOfAppend<V>(a: seq<(string, V)>, b: seq<(string, V)>)
    ensures KeysOf(a + b) == KeysOf(a) + KeysOf(b)
  {
    if |a| > 0 {
      assert (a + b)[1..] == a[1..] + b;
      KeysOfAppend(a[1..], b);
    } else {
      assert a + b == b;
    }
  }

  /** Writing a key that is not yet present, and that `Object.keys` lists
      after every present key, appends it. */
  lemma {:induction false} PutNew<V>(entries: seq<(string, V)>, k: string, v: V)
    requires k !in KeysOf(entries) && KeyOrdered(entries + [(k, v)])
    ensures Put(entries, k, v) == entries + [(k, v)]
  {
    if |entries| > 0 {
      var e := entries[0];
      assert KeysOf(entries) == [e.0] + KeysOf(entries[1..]);
      AppendedAfterFirst(entries, k, v);
      PutPastFirst(entries, k, v);
      PutNew(entries[1..], k, v);
      ConsSnoc(entries, (k, v));
    }
  }

  lemma ConsSnoc<T>(a: seq<T>, x: T)
    requires |a| > 0
    ensures [a[0]] + (a[1..] + [x]) == a + [x]
  {
    assert a == [a[0]] + a[1..];
  }

  /** A key that is not the first and does not go before it is written
      into the rest of the entries. */
  lemma PutPastFirst<V>(entries: seq<(string, V)>, k: string, v: V)
    requires |entries| > 0 && entries[0].0 != k && !(k !in KeysOf(entries) && GoesBefore(k, entries[0].0))
    ensures Put(entries, k, v) == [entries[0]] + Put(entries[1..], k, v)
  {
  }

  /** A key listed after every present key does not go before the first,
      and stays listed after the rest. */
  lemma AppendedAfterFirst<V>(entries: seq<(string, V)>, k: string, v: V)
    requires |entries| > 0 && KeyOrdered(entries + [(k, v)])
    ensures !GoesBefore(k, entries[0].0)
    ensures KeyOrdered(entries[1..] + [(k, v)])
  {
    var s := entries + [(k, v)];
    assert s[0] == entries[0] && s[|entries|] == (k, v);
    assert s[1..] == entries[1..] + [(k, v)];
    KeyOrderedTail(s);
  }

  /** Spreading the entries of a JavaScript object copies them unchanged. */
  lemma {:induction false} PutAllOfUnique<V>(acc: seq<(string, V)>, entries: seq<(string, V)>)
    requires OwnEntries(acc + entries)
    ensures PutAll(acc, entries) == acc + entries
    decreases |entries|
  {
    if |entries| == 0 {
      assert acc + entries == acc;
    } else {
      PutAllStep(acc, entries);
      MoveFirst(acc, entries);
      PutAllOfUnique(acc + [entries[0]], entries[1..]);
    }
  }

  lemma MoveFirst<T>(a: seq<T>, b: seq<T>)
    requires |b| > 0
    ensures (a + [b[0]]) + b[1..] == a + b
  {
    assert b == [b[0]] + b[1..];
  }

  lemma {:induction false} PutAllStep<V>(acc: seq<(string, V)>, entries: seq<(string, V)>)
    requires OwnEntries(acc + entries) && |entries| > 0
    ensures Put(acc, entries[0].0, entries[0].1) == acc + [entries[0]]
  {
    FreshFirstKey(acc, entries);
    var s := acc + entries;
    assert (acc + [entries[0]]) == s[..|acc| + 1];
    KeyOrderedPrefix(s, |acc| + 1);
    PutNew(acc, entries[0].0, entries[0].1);
  }

  lemma KeyOrderedPrefix<V>(entries: seq<(string, V)>, n: nat)
    requires n <= |entries| && KeyOrdered(entries)
    ensures KeyOrdered(entries[..n])
  {
    forall i, j | 0 <= i < j < n && IsIndexKey(entries[..n][j].0)
      ensures IsIndexKey(entries[..n][i].0) && IndexValue(entries[..n][i].0) < IndexValue(entries[..n][j].0)
    {
      assert entries[..n][i] == entries[i] && entries[..n][j] == entries[j];
    }
  }

  lemma {:induction false} FreshFirstKey<V>(acc: seq<(string, V)>, entries: seq<(string, V)>)
    requires UniqueKeys(acc + entries) && |entries| > 0
    ensures entries[0].0 !in KeysOf(acc)
  {
    KeysOfAppend(acc, entries);
    assert KeysOf(entries) == [entries[0].0] + KeysOf(entries[1..]);
    NoDuplicatesSplit(KeysOf(acc), entries[0].0, KeysOf(entries[1..]));
  }

  /** `{ ...obj }` of a plain object is an equal copy. */
  lemma SpreadObject(entries: seq<(string, Json)>)
    requires OwnEntries(entries)
    ensures Spread(Obj(entries)) == entries
  {
    assert [] + entries == entries;
    PutAllOfUnique([], entries);
  }

  lemma NatToStringNonEmpty(n: nat)
    ensures |NatToString(n)| >= 1
    ensures n >= 10 ==> |NatToString(n)| >= 2
  {
  }

  lemma {:induction false} NatToStringInjective(a: nat, b: nat)
    requires NatToString(a) == NatToString(b)
    ensures a == b
  {
    NatToStringNonEmpty(a);
    NatToStringNonEmpty(b);
    if a >= 10 && b >= 10 {
      var sa, sb := NatToString(a / 10), NatToString(b / 10);
      assert NatToString(a) == sa + [Digit(a % 10)];
      assert NatToString(b) == sb + [Digit(b % 10)];
      assert sa == NatToString(a)[..|NatToString(a)| - 1];
      assert sb == NatToString(b)[..|NatToString(b)| - 1];
      NatToStringInjective(a / 10, b / 10);
      assert Digit(a % 10) == Digit(b % 10);
    }
  }

  /** Reading the key `"i"` of an array yields its `i`-th element. */
  lemma GetArrayIndex(items: seq<Json>, i: nat)
    requires i < |items|
    ensures Get(Arr(items), NatToString(i)) == items[i]
  {
    var k := NatToString(i);
    NatToStringNonEmpty(i);
    DigitsOnly(i);
    assert k[0] in "0123456789";
    assert k != "length";
    match IndexOfKey(k, |items|)
    case Some(j) => NatToStringInjective(i, j);
    case None =>
  }

  lemma DigitsOnly(n: nat)
    ensures forall c :: c in NatToString(n) ==> c in "0123456789"
  {
  }

  // ---------------------------------------------------------------------------
  // String conversion

  function Digit(d: nat): char
    requires d < 10
  {
    "0123456789"[d]
  }

  function NatToString(n: nat): (s: string)
    decreases n
  {
    if n < 10 then [Digit(n)] else NatToString(n / 10) + [Digit(n % 10)]
  }

  function IntToString(n: int): string {
    if n < 0 then "-" + NatToString(-n) else NatToString(n)
  }

  /** `Array.prototype.join`. */
  function Join(parts: seq<string>, sep: string): (r: string)
    ensures |parts| == 0 ==> r == ""
    ensures |parts| == 1 ==> r == parts[0]
  {
    if |parts| == 0 then ""
    else if |parts| == 1 then parts[0]
    else parts[0] + sep + Join(parts[1..], sep)
  }

  /** Joining one more part adds a separator and that part at the end. */
  lemma {:induction false} JoinSnoc(parts: seq<string>, x: string, sep: string)
    requires |parts| >= 1
    ensures Join(parts + [x], sep) == Join(parts, sep) + sep + x
  {
    if |parts| == 1 {
      assert (parts + [x])[1..] == [x];
    } else {
      assert (parts + [x])[1..] == parts[1..] + [x];
      JoinSnoc(parts[1..], x, sep);
    }
  }

  /** `String(v)` and `${v}`: the string a template literal or `join` produces. */
  function Render(v: Json): string
    decreases v, 0
  {
    match v
    case Undefined => "undefined"
    case Null => "null"
    case Bool(b) => if b then "true" else "false"
    case Num(n) => IntToString(n)
    case Str(s) => s
    case Arr(items) =>
      Join(seq(|items|, i requires 0 <= i < |items| => RenderElement(items[i])), ",")
    case Obj(_) => "[object Object]"
  }

  /** `join` writes `null` and `undefined` elements as the empty string. */
  function RenderElement(v: Json): string
    decreases v, 1
  {
    if Nullish(v) then "" else Render(v)
  }

  /** `s.split(sep)` for a one-character separator. */
  function Split(s: string, sep: char): (parts: seq<string>)
    ensures |parts| >= 1
  {
    if |s| == 0 then [""]
    else
      var rest := Split(s[1..], sep);
      if s[0] == sep then [""] + rest
      else [[s[0]] + rest[0]] + rest[1..]
  }

  lemma {:induction false} SplitNoSeparator(s: string, sep: char)
    requires sep !in s
    ensures Split(s, sep) == [s]
  {
    if |s| > 0 {
      SplitNoSeparator(s[1..], sep);
      assert [s[0]] + s[1..] == s;
    }
  }

  lemma {:induction false} SplitAppend(a: string, sep: char, b: string)
    requires sep !in a
    ensures Split(a + [sep] + b, sep) == [a] + Split(b, sep)
  {
    if |a| == 0 {
      assert a + [sep] + b == [sep] + b;
      assert ([sep] + b)[1..] == b;
    } else {
      assert (a + [sep] + b)[1..] == a[1..] + [sep] + b;
      SplitAppend(a[1..], sep, b);
      assert [a[0]] + a[1..] == a;
    }
  }

  /** Splitting a join on its separator gives the parts back, provided no part
      contains the separator. */
  lemma {:induction false} SplitJoin(parts: seq<string>, sep: char)
    requires |parts| >= 1
    requires forall i :: 0 <= i < |parts| ==> sep !in parts[i]
    ensures Split(Join(parts, [sep]), sep) == parts
  {
    if |parts| == 1 {
      SplitNoSeparator(parts[0], sep);
    } else {
      SplitJoin(parts[1..], sep);
      SplitAppend(parts[0], sep, Join(parts[1..], [sep]));
      assert [parts[0]] + parts[1..] == parts;
    }
  }
  /** The positions of `s` whose elements `keep` accepts, in ascending
      order: the elements `xs.filter(keep)` returns are those at these
      positions (`PositionsSpec`). */
  function Positions<T>(s: seq<T>, keep: T -> bool): (idx: seq<nat>)
    ensures |idx| <= |s|
    ensures forall k :: 0 <= k < |idx| ==> idx[k] < |s|
  {
    PositionsFrom(s, keep, 0)
  }

  /** `Positions`, counted from `base`. */
  function PositionsFrom<T>(s: seq<T>, keep: T -> bool, base: nat): (idx: seq<nat>)
    ensures |idx| <= |s|
    ensures forall k :: 0 <= k < |idx| ==> base <= idx[k] < base + |s|
    decreases |s|
  {
    if |s| == 0 then []
    else
      var rest := PositionsFrom(s[1..], keep, base + 1);
      if keep(s[0]) then [base] + rest else rest
  }

  lemma {:induction false} PositionsFromBase<T>(s: seq<T>, keep: T -> bool, base: nat)
    ensures |PositionsFrom(s, keep, base)| == |Positions(s, keep)|
    ensures forall k :: 0 <= k < |Positions(s, keep)| ==>
      PositionsFrom(s, keep, base)[k] == Positions(s, keep)[k] + base
    decreases |s|
  {
    if |s| > 0 {
      PositionsFromBase(s[1..], keep, base + 1);
      PositionsFromBase(s[1..], keep, 1);
    }
  }

  /** The positions of a non-empty list, from those of its tail. */
  lemma PositionsCons<T>(s: seq<T>, keep: T -> bool)
    requires |s| > 0
    ensures var p, q := Positions(s, keep), Positions(s[1..], keep);
      keep(s[0]) ==> |p| == |q| + 1 && p[0] == 0 && forall k :: 0 <= k < |q| ==> p[k + 1] == q[k] + 1
    ensures var p, q := Positions(s, keep), Positions(s[1..], keep);
      !keep(s[0]) ==> |p| == |q| && forall k :: 0 <= k < |q| ==> p[k] == q[k] + 1
  {
    PositionsFromBase(s[1..], keep, 1);
  }

  /** `r` is `s.filter(keep)`: the elements at the accepted positions, in
      order. */
  ghost predicate IsFilter<T>(r: seq<T>, s: seq<T>, keep: T -> bool) {
    var p := Positions(s, keep);
    |r| == |p| && forall k :: 0 <= k < |p| ==> r[k] == s[p[k]]
  }

  /** A filter of the tail, with the head put in front when it is accepted,
      is a filter of the whole list. */
  lemma FilterCons<T>(s: seq<T>, keep: T -> bool, tail: seq<T>)
    requires |s| > 0 && IsFilter(tail, s[1..], keep)
    ensures IsFilter((if keep(s[0]) then [s[0]] else []) + tail, s, keep)
  {
    PositionsCons(s, keep);
    var p, q := Positions(s, keep), Positions(s[1..], keep);
    var r := (if keep(s[0]) then [s[0]] else []) + tail;
    if keep(s[0]) {
      forall k | 0 <= k < |p|
        ensures r[k] == s[p[k]]
      {
        if k > 0 {
          assert r[k] == tail[k - 1] == s[1..][q[k - 1]];
        }
      }
    } else {
      forall k | 0 <= k < |p|
        ensures r[k] == s[p[k]]
      {
        assert r[k] == tail[k] == s[1..][q[k]];
      }
    }
  }

  /** `Positions` lists, in strictly ascending order, every accepted position
      and nothing else. */
  lemma PositionsSpec<T>(s: seq<T>, keep: T -> bool)
    ensures forall k :: 0 <= k < |Positions(s, keep)| ==> keep(s[Positions(s, keep)[k]])
    ensures forall k, l :: 0 <= k < l < |Positions(s, keep)| ==> Positions(s, keep)[k] < Positions(s, keep)[l]
    ensures forall i :: 0 <= i < |s| && keep(s[i]) ==> i in Positions(s, keep)
  {
    var p := Positions(s, keep);
    forall k | 0 <= k < |p|
      ensures keep(s[p[k]])
    {
      PositionAccepted(s, keep, 0, k);
    }
    forall k, l | 0 <= k < l < |p|
      ensures p[k] < p[l]
    {
      PositionAscending(s, keep, 0, k, l);
    }
    forall i | 0 <= i < |s| && keep(s[i])
      ensures i in p
    {
      PositionComplete(s, keep, 0, i);
    }
  }

  lemma {:induction false} PositionAccepted<T>(s: seq<T>, keep: T -> bool, base: nat, k: nat)
    requires k < |PositionsFrom(s, keep, base)|
    ensures keep(s[PositionsFrom(s, keep, base)[k] - base])
    decreases |s|
  {
    var q := PositionsFrom(s[1..], keep, base + 1);
    if keep(s[0]) {
      if k > 0 {
        PositionAccepted(s[1..], keep, base + 1, k - 1);
        assert s[1..][q[k - 1] - (base + 1)] == s[q[k - 1] - base];
      }
    } else {
      PositionAccepted(s[1..], keep, base + 1, k);
      assert s[1..][q[k] - (base + 1)] == s[q[k] - base];
    }
  }

  lemma {:induction false} PositionAscending<T>(s: seq<T>, keep: T -> bool, base: nat, k: nat, l: nat)
    requires k < l < |PositionsFrom(s, keep, base)|
    ensures PositionsFrom(s, keep, base)[k] < PositionsFrom(s, keep, base)[l]
    decreases |s|
  {
    if keep(s[0]) {
      if k > 0 {
        PositionAscending(s[1..], keep, base + 1, k - 1, l - 1);
      }
    } else {
      PositionAscending(s[1..], keep, base + 1, k, l);
    }
  }

  lemma {:induction false} PositionComplete<T>(s: seq<T>, keep: T -> bool, base: nat, i: nat)
    requires i < |s| && keep(s[i])
    ensures base + i in PositionsFrom(s, keep, base)
    decreases |s|
  {
    if i > 0 {
      assert s[1..][i - 1] == s[i];
      PositionComplete(s[1..], keep, base + 1, i - 1);
    }
  }

  /** When every element is accepted, every position is listed. */
  lemma PositionsAll<T>(s: seq<T>, keep: T -> bool)
    requires forall i :: 0 <= i < |s| ==> keep(s[i])
    ensures Positions(s, keep) == seq(|s|, i requires 0 <= i < |s| => i)
  {
    PositionsSpec(s, keep);
    var p := Positions(s, keep);
    PositionsCount(s, keep, 0);
    forall k | 0 <= k < |s|
      ensures p[k] == k
    {
      AscendingIsIdentity(p, |s|, k);
    }
  }

  /** With every element accepted, every position is listed once. */
  lemma {:induction false} PositionsCount<T>(s: seq<T>, keep: T -> bool, base: nat)
    requires forall i :: 0 <= i < |s| ==> keep(s[i])
    ensures |PositionsFrom(s, keep, base)| == |s|
    decreases |s|
  {
    if |s| > 0 {
      assert keep(s[0]);
      assert forall i :: 0 <= i < |s| - 1 ==> s[1..][i] == s[i + 1];
      PositionsCount(s[1..], keep, base + 1);
    }
  }

  /** `n` strictly ascending numbers below `n` are `0, 1, ..., n - 1`. */
  lemma {:induction false} AscendingIsIdentity(p: seq<nat>, n: nat, k: nat)
    requires |p| == n && k < n
    requires forall j :: 0 <= j < n ==> p[j] < n
    requires forall j, l :: 0 <= j < l < n ==> p[j] < p[l]
    ensures p[k] == k
  {
    AscendingLowerBound(p, n, k);
    AscendingUpperBound(p, n, k);
  }

  lemma {:induction false} AscendingLowerBound(p: seq<nat>, n: nat, k: nat)
    requires |p| == n && k < n
    requires forall j, l :: 0 <= j < l < n ==> p[j] < p[l]
    ensures p[k] >= k
    decreases k
  {
    if k > 0 {
      AscendingLowerBound(p, n, k - 1);
      assert p[k - 1] < p[k];
    }
  }

  lemma {:induction false} AscendingUpperBound(p: seq<nat>, n: nat, k: nat)
    requires |p| == n && k < n
    requires forall j :: 0 <= j < n ==> p[j] < n
    requires forall j, l :: 0 <= j < l < n ==> p[j] < p[l]
    ensures p[k] <= k
    decreases n - k
  {
    if k < n - 1 {
      AscendingUpperBound(p, n, k + 1);
      assert p[k] < p[k + 1];
    }
  }

  /** `xs.map(f)` where `f` may throw: the first element that throws ends the
      walk. */
  function MapResult<A, B>(xs: seq<A>, f: A -> Result<B>): (r: Result<seq<B>>)
    ensures r.Err? <==> exists i :: 0 <= i < |xs| && f(xs[i]).Err?
    ensures r.Ok? ==> |r.value| == |xs|
    ensures r.Ok? ==> forall i :: 0 <= i < |xs| ==> f(xs[i]) == Ok(r.value[i])
  {
    if |xs| == 0 then Ok([])
    else
      match f(xs[0])
      case Err(e) => Err(e)
      case Ok(first) =>
        var rest := MapResult(xs[1..], f);
        assert forall i :: 1 <= i < |xs| ==> xs[i] == xs[1..][i - 1];
        match rest
        case Err(e) => Err(e)
        case Ok(tail) => Ok([first] + tail)
  }

  /** The keys `filter(k => k !== 'length')` keeps. */
  predicate NotLength(k: string) {
    k != "length"
  }

  /** Dropping `length` from a key list is that filter. */
  lemma {:induction false} WithoutLengthIsFilter(s: seq<string>)
    ensures IsFilter(Without(s, ["length"]), s, NotLength)
    decreases |s|
  {
    if |s| > 0 {
      WithoutLengthIsFilter(s[1..]);
      FilterCons(s, NotLength, Without(s[1..], ["length"]));
      WithoutCons(s[0], s[1..], ["length"]);
      assert [s[0]] + s[1..] == s;
    }
  }

  /** Array index keys are digit strings, so `length` is never one of them. */
  lemma IndexKeysLackLength(n: nat)
    ensures "length" !in IndexKeys(n)
    ensures Without(IndexKeys(n), ["length"]) == IndexKeys(n)
  {
    forall i | 0 <= i < n
      ensures IndexKeys(n)[i] != "length"
    {
      NatToStringNonEmpty(i);
      DigitsOnly(i);
      assert NatToString(i)[0] in NatToString(i);
    }
    WithoutNone(IndexKeys(n), ["length"]);
  }
}
