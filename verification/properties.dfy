/**
  The pipeline's property set: a plain object of settings, read with a
  default, and written out as a Java-style properties file.
 */
module PropertySets {
  import opened Dedup
  import opened Js

  /** The own entries of the `_props` object, in `Object.keys` order. */
  datatype Properties = Properties(props: seq<(string, Json)>)

  /** A plain object never holds a key twice, and enumerates its keys in
      `Object.keys` order. */
  predicate Valid(p: Properties) {
    OwnEntries(p.props)
  }

  /** `new Properties(props)`: a spread copy of the argument; `undefined`
      and `null` give an empty set. */
  function NewProperties(props: Json): (p: Properties)
    ensures Valid(p)
    ensures Nullish(props) ==> p.props == []
  {
    Properties(Spread(props))
  }

  /** Building from a plain object keeps its entries as they are. */
  lemma NewFromObject(entries: seq<(string, Json)>)
    requires OwnEntries(entries)
    ensures NewProperties(Obj(entries)).props == entries
  {
    SpreadObject(entries);
  }

  /** `setProperty(name, value)`: an existing name keeps its place; a new
      name goes last unless it is an array index, which `Object.keys` lists
      among the other indices ahead of every other name (see
      `SetKeepsValid`); no other property changes, nor does the order of the
      other names. */
  function SetProperty(p: Properties, name: string, value: Json): (q: Properties)
    ensures Lookup(q.props, name) == Some(value)
    ensures forall k :: k != name ==> Lookup(q.props, k) == Lookup(p.props, k)
    ensures name in KeysOf(p.props) ==> KeysOf(q.props) == KeysOf(p.props)
    ensures !IsIndexKey(name) ==> KeysOf(q.props) == KeysOf(p.props) + (if name in KeysOf(p.props) then [] else [name])
    ensures Without(KeysOf(q.props), [name]) == Without(KeysOf(p.props), [name])
  {
    Properties(Put(p.props, name, value))
  }

  /** Setting a property keeps the set a plain object, keys in
      `Object.keys` order. */
  lemma SetKeepsValid(p: Properties, name: string, value: Json)
    requires Valid(p)
    ensures Valid(SetProperty(p, name, value))
  {
    PutKeepsOwnEntries(p.props, name, value);
  }

  /** Setting the array index name `7` on `{ b: 1 }` writes it out first. */
  lemma SetIndexNameGoesFirst()
    ensures FileContent(SetProperty(NewProperties(Obj([("b", Num(1))])), "7", Num(2))) == "7 = 2\nb = 1"
  {
    var entries := [("b", Num(1))];
    OneEntryIsPlainObject("b", Num(1));
    NewFromObject(entries);
    PutIndexBeforeName();
    var q := Properties([("7", Num(2)), ("b", Num(1))]);
    TwoLines(q);
  }

  lemma OneEntryIsPlainObject(k: string, v: Json)
    ensures KeysOf([(k, v)]) == [k]
    ensures OwnEntries([(k, v)])
  {
    assert KeysOf([(k, v)][1..]) == [];
    assert NoDuplicates([k]) by {
      assert [k][..0] == [];
    }
  }

  lemma PutIndexBeforeName()
    ensures Put([("b", Num(1))], "7", Num(2)) == [("7", Num(2)), ("b", Num(1))]
  {
    OneEntryIsPlainObject("b", Num(1));
    assert ParseDigits("7") == Some(7);
    assert NatToString(7) == "7";
    assert IsIndexKey("7");
    assert ParseDigits("b") == None;
    assert GoesBefore("7", "b");
  }

  lemma TwoLines(q: Properties)
    requires q.props == [("7", Num(2)), ("b", Num(1))]
    ensures FileContent(q) == "7 = 2\nb = 1"
  {
    var keys := KeysOf(q.props);
    assert q.props[1..] == [("b", Num(1))];
    OneEntryIsPlainObject("b", Num(1));
    assert keys == ["7", "b"];
    var lines := seq(|keys|, i requires 0 <= i < |keys| => Line(keys[i], Get(Obj(q.props), keys[i])));
    assert NatToString(1) == "1" && NatToString(2) == "2";
    assert lines[0] == "7 = 2";
    assert Get(Obj(q.props), "b") == Num(1) by {
      assert Lookup(q.props[1..], "b") == Some(Num(1));
    }
    assert lines[1] == "b = 1";
    assert lines == ["7 = 2", "b = 1"];
    assert Join(lines, "\n") == "7 = 2" + "\n" + Join(lines[1..], "\n");
  }

  /** What a property read can find: a value, or a member inherited from
      `Object.prototype` (a function, or the prototype for `__proto__`). */
  datatype Found = Value(value: Json) | InheritedMember(name: string)

  /** `getProperty(name, defaultValue)` as written: `typeof _props[name]`
      also sees inherited members, so a name such as `toString` that is not
      set returns the inherited function instead of the default. */
  function GetPropertyAsWritten(p: Properties, name: string, defaultValue: Json): (r: Found)
    ensures name !in KeysOf(p.props) && name in InheritedMembers ==> r == InheritedMember(name)
    ensures name !in InheritedMembers ==> r.Value?
  {
    LookupSpec(p.props, name);
    match Lookup(p.props, name)
    case Some(v) => if v != Undefined then Value(v) else Value(defaultValue)
    case None => if name in InheritedMembers then InheritedMember(name) else Value(defaultValue)
  }

  /** `getProperty(name, defaultValue)` as documented: the own value when it
      is not `undefined`, the default otherwise. */
  function GetProperty(p: Properties, name: string, defaultValue: Json): (r: Json)
    ensures name !in KeysOf(p.props) || Lookup(p.props, name) == Some(Undefined) ==> r == defaultValue
    ensures name in KeysOf(p.props) && Lookup(p.props, name) != Some(Undefined) ==> Lookup(p.props, name) == Some(r)
  {
    LookupSpec(p.props, name);
    match Lookup(p.props, name)
    case Some(v) => if v != Undefined then v else defaultValue
    case None => defaultValue
  }

  /** A property that was set reads back, unless it was set to `undefined`,
      which reads as the default; setting one name leaves every other
      name's reading alone. */
  lemma SetThenGet(p: Properties, name: string, value: Json, other: string, defaultValue: Json)
    ensures value != Undefined ==> GetProperty(SetProperty(p, name, value), name, defaultValue) == value
    ensures value == Undefined ==> GetProperty(SetProperty(p, name, value), name, defaultValue) == defaultValue
    ensures other != name ==>
      GetProperty(SetProperty(p, name, value), other, defaultValue) == GetProperty(p, other, defaultValue)
  {
  }

  /** Outside the inherited names, the read as written is the documented
      one. */
  lemma AsWrittenAgreesOffInherited(p: Properties, name: string, defaultValue: Json)
    requires name !in InheritedMembers
    ensures GetPropertyAsWritten(p, name, defaultValue) == Value(GetProperty(p, name, defaultValue))
  {
  }

  /** An empty set asked for `toString` with a default of `''` answers with
      the inherited function rather than `''`. */
  lemma InheritedNameShadowsDefault()
    ensures GetPropertyAsWritten(NewProperties(Undefined), "toString", Str("")) == InheritedMember("toString")
    ensures GetProperty(NewProperties(Undefined), "toString", Str("")) == Str("")
  {
    assert "toString" in InheritedMembers;
  }

  /** `getProperties()` and `toJson()`: a spread copy, equal to the stored
      entries. */
  function GetProperties(p: Properties): (r: Json)
    requires Valid(p)
    ensures r == Obj(p.props)
  {
    SpreadObject(p.props);
    Obj(Spread(Obj(p.props)))
  }

  // ---------------------------------------------------------------------------
  // Properties file

  /** One line of the file: `${name} = ${value}`. */
  function Line(name: string, value: Json): string {
    name + " = " + Render(value)
  }

  /** `toPropertiessFileContent()`: one line per own key, in `Object.keys`
      order, joined with newlines. */
  function FileContent(p: Properties): (r: string)
    ensures |p.props| == 0 ==> r == ""
  {
    var keys := KeysOf(p.props);
    Join(seq(|keys|, i requires 0 <= i < |keys| => Line(keys[i], Get(Obj(p.props), keys[i]))), "\n")
  }

  /** Splitting the file on newlines gives one line per property, naming it
      and its value, when no name or value contains a newline. */
  lemma {:induction false} FileContentLines(p: Properties)
    requires Valid(p) && |p.props| >= 1
    requires forall i :: 0 <= i < |p.props| ==> '\n' !in p.props[i].0 && '\n' !in Render(p.props[i].1)
    ensures |Split(FileContent(p), '\n')| == |p.props|
    ensures forall i :: 0 <= i < |p.props| ==> Split(FileContent(p), '\n')[i] == Line(p.props[i].0, p.props[i].1)
  {
    var keys := KeysOf(p.props);
    var lines := seq(|keys|, i requires 0 <= i < |keys| => Line(keys[i], Get(Obj(p.props), keys[i])));
    forall i | 0 <= i < |p.props|
      ensures lines[i] == Line(p.props[i].0, p.props[i].1)
      ensures '\n' !in lines[i]
    {
      KeysOfIndex(p.props, i);
      LookupUnique(p.props, i);
    }
    SplitJoin(lines, '\n');
  }

  /** The library's own example: `{ test: 123, bar: 'foo' }` is written as
      two lines. */
  lemma FileContentExample()
    ensures FileContent(NewProperties(Obj(ExampleEntries))) == "test = 123\nbar = foo"
  {
    ExampleIsPlainObject();
    NewFromObject(ExampleEntries);
    var q := NewProperties(Obj(ExampleEntries));
    FileOfTwo(q);
    ExampleLines();
    assert FileContent(q) == "test = 123" + "\n" + "bar = foo";
    ExampleJoined();
  }

  lemma ExampleJoined()
    ensures "test = 123" + "\n" + "bar = foo" == "test = 123\nbar = foo"
  {
  }

  /** The file of a two-entry set is its two lines joined by a newline. */
  lemma FileOfTwo(q: Properties)
    requires |q.props| == 2
    ensures var keys := KeysOf(q.props);
      FileContent(q) == Line(keys[0], Get(Obj(q.props), keys[0])) + "\n" + Line(keys[1], Get(Obj(q.props), keys[1]))
  {
    var keys := KeysOf(q.props);
    var lines := seq(|keys|, i requires 0 <= i < |keys| => Line(keys[i], Get(Obj(q.props), keys[i])));
    assert Join(lines, "\n") == lines[0] + "\n" + Join(lines[1..], "\n");
  }

  const ExampleEntries: seq<(string, Json)> := [("test", Num(123)), ("bar", Str("foo"))]

  lemma ExampleIsPlainObject()
    ensures KeysOf(ExampleEntries) == ["test", "bar"]
    ensures OwnEntries(ExampleEntries)
  {
    assert KeysOf(ExampleEntries[1..]) == ["bar"];
    assert NoDuplicates(["test"]) by {
      assert ["test"][..0] == [];
    }
    assert ["test", "bar"][..1] == ["test"];
  }

  lemma ExampleLines()
    ensures Line("test", Get(Obj(ExampleEntries), "test")) == "test = 123"
    ensures Line("bar", Get(Obj(ExampleEntries), "bar")) == "bar = foo"
  {
    assert NatToString(12) == "12";
    assert NatToString(123) == "123";
    assert ExampleEntries[1..][0] == ("bar", Str("foo"));
  }
}
