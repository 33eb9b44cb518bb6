/**
  The annotator dependency graph and the pipeline compiler: an annotator is a
  name, a map of its own options (without the name prefix) and an ordered list
  of prerequisite annotators. `Pipeline` flattens the graph into the list of
  step names sent to the engine; `PipelineOptions` merges every option of the
  graph under `"<name>.<key>"`.

  Annotators are values, so the graph is finite and acyclic by construction;
  the recursion that a cyclic object graph would send into a stack overflow
  cannot arise here.
 */
module Annotators {
  import opened Js
  import opened Dedup

  datatype Annotator = Annotator(name: string, options: map<string, Json>, dependencies: seq<Annotator>)

  /** `new Annotator(name)`: the constructor's defaults are no options and no
      dependencies. */
  function Bare(name: string): (a: Annotator)
    ensures Pipeline(a) == [name]
    ensures PipelineOptions(a) == map[]
  {
    var a := Annotator(name, map[], []);
    assert Flatten(a.dependencies) == [];
    assert Merged(a.dependencies) == map[];
    assert Uniq([name]) == [name];
    a
  }

  /** `toString()`: the name. */
  function ToString(a: Annotator): string {
    a.name
  }

  /** `equalsTo(b)`: shallow comparison of the name with `b.toString()`. */
  predicate EqualsTo(a: Annotator, b: Annotator) {
    a.name == ToString(b)
  }

  /** Two annotators are the same step exactly when their names agree;
      options and dependencies play no part, and the relation is an
      equivalence. */
  lemma EqualsToIsByName(a: Annotator, b: Annotator, c: Annotator)
    ensures EqualsTo(a, b) <==> a.name == b.name
    ensures forall o, ds :: EqualsTo(a, Annotator(a.name, o, ds))
    ensures EqualsTo(a, a)
    ensures EqualsTo(a, b) ==> EqualsTo(b, a)
    ensures EqualsTo(a, b) && EqualsTo(b, c) ==> EqualsTo(a, c)
  {
  }

  /** `option(key)`: the stored value, `undefined` when the key is absent. */
  function OptionValue(a: Annotator, key: string): Json {
    if key in a.options then a.options[key] else Undefined
  }

  /** What `this._options[key]` finds: a stored value, or, for a name the
      option map does not hold, a member the plain object inherits from
      `Object.prototype`. */
  datatype OptionRead = Stored(value: Json) | InheritedMember(name: string)

  /** `option(key)` as written: the bracket read also finds inherited
      members, so `option('toString')` on an annotator without that option is
      `Object.prototype.toString`, not `undefined`. */
  function OptionValueAsWritten(a: Annotator, key: string): (r: OptionRead)
    ensures r.InheritedMember? <==> key !in a.options && key in InheritedMembers
    ensures r.InheritedMember? ==> r.name == key
    ensures r.Stored? ==> r.value == OptionValue(a, key)
  {
    if key in a.options then Stored(a.options[key])
    else if key in InheritedMembers then InheritedMember(key)
    else Stored(Undefined)
  }

  /** The as-written read agrees with `OptionValue` on every name that is not
      an inherited member, and on every name the annotator sets. */
  lemma OptionAsWrittenAgreesOffInherited(a: Annotator, key: string)
    ensures key !in InheritedMembers || key in a.options ==>
      OptionValueAsWritten(a, key) == Stored(OptionValue(a, key))
  {
  }

  /** A bare annotator asked for its `toString` option gets the inherited
      method, where the own-key reading gives `undefined`. */
  lemma InheritedOptionName(name: string)
    ensures OptionValueAsWritten(Bare(name), "toString") == InheritedMember("toString")
    ensures OptionValue(Bare(name), "toString") == Undefined
  {
  }

  /** `option(key, value)`: `null` (or an omitted value) reads the option;
      any other value is stored under `key` and returned. */
  function SetOption(a: Annotator, key: string, value: Json): (r: (Annotator, Json))
    ensures Nullish(value) ==> r.0 == a && r.1 == OptionValue(a, key)
    ensures !Nullish(value) ==> r.1 == value && OptionValue(r.0, key) == value
    ensures forall k :: k != key ==> OptionValue(r.0, k) == OptionValue(a, k)
    ensures r.0.options.Keys == a.options.Keys + (if Nullish(value) then {} else {key})
    ensures r.0.name == a.name && r.0.dependencies == a.dependencies
  {
    if Nullish(value) then (a, OptionValue(a, key))
    else (a.(options := a.options[key := value]), value)
  }

  // ---------------------------------------------------------------------------
  // Pipeline

  /** `pipeline()`: the dependencies' pipelines concatenated in declared order,
      then the own name, with only the first occurrence of each name kept. */
  function Pipeline(a: Annotator): seq<string>
    decreases a, 1
  {
    Uniq(Flatten(a.dependencies) + [a.name])
  }

  /** The dependencies' pipelines, concatenated in declared order. */
  function Flatten(ds: seq<Annotator>): seq<string>
    decreases ds, 0
  {
    if |ds| == 0 then [] else Pipeline(ds[0]) + Flatten(ds[1..])
  }

  lemma {:induction false} FlattenMembers(ds: seq<Annotator>, x: string)
    ensures x in Flatten(ds) <==> exists i :: 0 <= i < |ds| && x in Pipeline(ds[i])
  {
    if |ds| > 0 {
      FlattenMembers(ds[1..], x);
      if x in Flatten(ds[1..]) {
        var i :| 0 <= i < |ds[1..]| && x in Pipeline(ds[1..][i]);
        assert x in Pipeline(ds[i + 1]);
      }
      if exists i :: 0 <= i < |ds| && x in Pipeline(ds[i]) {
        var i :| 0 <= i < |ds| && x in Pipeline(ds[i]);
        if i > 0 {
          assert ds[1..][i - 1] == ds[i];
        }
      }
    }
  }

  /** The pipeline lists every step exactly once: the own name and every name
      of every dependency's pipeline, and nothing else. */
  lemma PipelineIsExactStepSet(a: Annotator, x: string)
    ensures NoDuplicates(Pipeline(a))
    ensures x in Pipeline(a) <==>
      x == a.name || exists i :: 0 <= i < |a.dependencies| && x in Pipeline(a.dependencies[i])
  {
    UniqSpec(Flatten(a.dependencies) + [a.name]);
    FlattenMembers(a.dependencies, x);
  }

  /** When no dependency already requests the own name, the pipeline is the
      deduplicated dependency steps followed by the own name, which is last. */
  lemma PipelineEndsWithOwnName(a: Annotator)
    requires a.name !in Flatten(a.dependencies)
    ensures Pipeline(a) == Uniq(Flatten(a.dependencies)) + [a.name]
    ensures Pipeline(a)[|Pipeline(a)| - 1] == a.name
    ensures forall i :: 0 <= i < |a.dependencies| ==>
      forall x :: x in Pipeline(a.dependencies[i]) ==> x in Pipeline(a)[..|Pipeline(a)| - 1]
  {
    var f := Flatten(a.dependencies);
    UniqSnoc(f, a.name);
    UniqSpec(f);
    assert Pipeline(a)[..|Pipeline(a)| - 1] == Uniq(f);
    forall i, x | 0 <= i < |a.dependencies| && x in Pipeline(a.dependencies[i])
      ensures x in Pipeline(a)[..|Pipeline(a)| - 1]
    {
      FlattenMembers(a.dependencies, x);
    }
  }

  /** The first dependency's pipeline is, unchanged, a prefix of the pipeline. */
  lemma PipelineStartsWithFirstDependency(a: Annotator)
    requires |a.dependencies| > 0
    ensures |Pipeline(a.dependencies[0])| <= |Pipeline(a)|
    ensures Pipeline(a)[..|Pipeline(a.dependencies[0])|] == Pipeline(a.dependencies[0])
  {
    var d := a.dependencies[0];
    var p0 := Pipeline(d);
    var rest := Flatten(a.dependencies[1..]) + [a.name];
    assert Flatten(a.dependencies) + [a.name] == p0 + rest;
    UniqAppendPrefix(p0, rest);
    UniqSpec(Flatten(d.dependencies) + [d.name]);
    UniqOfUnique(p0);
  }

  /** Deduplicated concatenation computed one list at a time: each list
      contributes the elements no earlier list held. */
  function Layers(u: seq<string>, ps: seq<seq<string>>): seq<string>
    decreases |ps|
  {
    if |ps| == 0 then u else Layers(u + Without(ps[0], u), ps[1..])
  }

  /** One step of `Layers`, for computing it on given lists. */
  lemma LayersCons(u: seq<string>, p: seq<string>, rest: seq<seq<string>>, u': seq<string>)
    requires u' == u + Without(p, u)
    ensures Layers(u, [p] + rest) == Layers(u', rest)
  {
    assert ([p] + rest)[1..] == rest;
  }

  /** A list made of names already collected followed by new distinct
      ones contributes exactly the new ones. */
  lemma LayersExtend(u: seq<string>, p: seq<string>, seen: seq<string>, added: seq<string>, rest: seq<seq<string>>, u': seq<string>)
    requires p == seen + added && u' == u + added
    requires forall i :: 0 <= i < |seen| ==> seen[i] in u
    requires forall i :: 0 <= i < |added| ==> added[i] !in u
    ensures Layers(u, [p] + rest) == Layers(u', rest)
  {
    WithoutSeenPrefix(seen, added, u);
    WithoutNone(added, u);
    LayersCons(u, p, rest, u');
  }

  /** A list that repeats everything collected and adds one new name
      contributes that name. */
  lemma LayersGrow(u: seq<string>, x: string, rest: seq<seq<string>>)
    requires x !in u
    ensures Layers(u, [u + [x]] + rest) == Layers(u + [x], rest)
  {
    LayersExtend(u, u + [x], u, [x], rest, u + [x]);
  }

  function Concat(ps: seq<seq<string>>): seq<string> {
    if |ps| == 0 then [] else ps[0] + Concat(ps[1..])
  }

  /** The flattened pipelines of `ds`, given that they are `ps`. */
  lemma {:induction false} FlattenIs(ds: seq<Annotator>, ps: seq<seq<string>>)
    requires |ps| == |ds|
    requires forall k :: 0 <= k < |ds| ==> Pipeline(ds[k]) == ps[k]
    ensures Flatten(ds) == Concat(ps)
  {
    if |ds| > 0 {
      FlattenIs(ds[1..], ps[1..]);
    }
  }

  predicate AllUnique(ps: seq<seq<string>>) {
    forall k :: 0 <= k < |ps| ==> NoDuplicates(ps[k])
  }

  lemma AllUniqueTail(ps: seq<seq<string>>)
    requires |ps| > 0 && AllUnique(ps)
    ensures NoDuplicates(ps[0]) && AllUnique(ps[1..])
  {
    assert forall k :: 0 <= k < |ps[1..]| ==> ps[1..][k] == ps[k + 1];
  }

  /** One layer: the new elements of `p` appended to the duplicate-free `u`. */
  lemma LayerStep(u: seq<string>, p: seq<string>)
    requires NoDuplicates(u) && NoDuplicates(p)
    ensures u + Without(p, u) == Uniq(u + p)
    ensures NoDuplicates(u + Without(p, u))
  {
    UniqConcatUnique(u, p);
    UniqSpec(u + p);
  }

  lemma {:induction false} LayersIsUniq(u: seq<string>, ps: seq<seq<string>>)
    requires NoDuplicates(u) && AllUnique(ps)
    ensures Layers(u, ps) == Uniq(u + Concat(ps))
    decreases |ps|
  {
    if |ps| == 0 {
      assert u + Concat(ps) == u;
      UniqOfUnique(u);
    } else {
      var p, rest := ps[0], ps[1..];
      AllUniqueTail(ps);
      LayerStep(u, p);
      LayersIsUniq(u + Without(p, u), rest);
      UniqAbsorb(u + p, Concat(rest));
      assert Concat(ps) == p + Concat(rest);
      AppendAssoc(u, p, Concat(rest));
    }
  }

  /** The pipeline computed one dependency at a time: each dependency
      contributes the steps no earlier dependency requested, and the own name
      comes last unless some dependency already requested it. */
  lemma PipelineByLayers(a: Annotator, ps: seq<seq<string>>)
    requires |ps| == |a.dependencies|
    requires forall k :: 0 <= k < |ps| ==> Pipeline(a.dependencies[k]) == ps[k]
    ensures var u := Layers([], ps);
      Pipeline(a) == if a.name in u then u else u + [a.name]
  {
    FlattenIs(a.dependencies, ps);
    var c := Concat(ps);
    forall k | 0 <= k < |ps|
      ensures NoDuplicates(ps[k])
    {
      var d := a.dependencies[k];
      UniqSpec(Flatten(d.dependencies) + [d.name]);
    }
    assert AllUnique(ps);
    LayersIsUniq([], ps);
    assert [] + c == c;
    UniqAbsorb(c, [a.name]);
    UniqSpec(c);
    UniqSnocUnique(Uniq(c), a.name);
  }

  /** Two distinct single-step layers. */
  lemma LayersSingles(x: string, y: string)
    requires x != y
    ensures Layers([], [[x], [y]]) == [x, y]
  {
    assert [] + [x] == [x] && [] + [y] == [y] && [x] + [y] == [x, y];
    assert [[x], [y]] == [[] + [x]] + [[y]];
    LayersGrow([], x, [[y]]);
    assert [[y]] == [[y]] + [];
    LayersExtend([x], [y], [], [y], [], [x, y]);
  }

  /** An annotator over two bare dependencies, `x` then `y`. */
  lemma PipelineOverBare(q: string, x: string, y: string)
    requires x != y
    ensures var u := [x, y];
      Pipeline(Annotator(q, map[], [Bare(x), Bare(y)])) == if q in u then u else u + [q]
  {
    var a := Annotator(q, map[], [Bare(x), Bare(y)]);
    var ps := [[x], [y]];
    forall k | 0 <= k < 2
      ensures Pipeline(a.dependencies[k]) == ps[k]
    {
      if k == 0 {} else {}
    }
    PipelineByLayers(a, ps);
    LayersSingles(x, y);
  }

  /** Deduplication happens after the own name is appended: a dependency that
      already requests the own name keeps it at its first position, so the
      pipeline need not end with the own name. */
  lemma OwnNameNotAlwaysLast(x: string, y: string)
    requires x != y
    ensures Pipeline(Annotator(x, map[], [Bare(x), Bare(y)])) == [x, y]
  {
    PipelineOverBare(x, x, y);
  }

  /** An annotator over two bare, distinct dependencies runs them in the
      declared order, then itself. */
  lemma PipelineOfTwoBare(q: string, b: string, a: string)
    requires a != b && a != q && b != q
    ensures Pipeline(Annotator(q, map[], [Bare(b), Bare(a)])) == [b, a, q]
  {
    PipelineOverBare(q, b, a);
  }

  /** Only the first dependency's pipeline is guaranteed to survive intact: a
      later dependency whose steps were already requested in another order
      is not a subsequence of the result. */
  lemma LaterDependencyNotASubsequence(a: string, b: string, q: string, z: string)
    requires a != b && a != q && a != z && b != q && b != z && q != z
    ensures var top := Annotator(z, map[], [Bare(a), Annotator(q, map[], [Bare(b), Bare(a)])]);
      Pipeline(top.dependencies[1]) == [b, a, q] &&
      Pipeline(top) == [a, b, q, z]
  {
    var qa := Annotator(q, map[], [Bare(b), Bare(a)]);
    var top := Annotator(z, map[], [Bare(a), qa]);
    PipelineOfTwoBare(q, b, a);
    var ps := [[a], [b, a, q]];
    forall k | 0 <= k < 2
      ensures Pipeline(top.dependencies[k]) == ps[k]
    {
      if k == 0 {} else {}
    }
    PipelineByLayers(top, ps);
    LaterDependencyLayers(a, b, q);
  }

  lemma LaterDependencyLayers(a: string, b: string, q: string)
    requires a != b && a != q && b != q
    ensures Layers([], [[a], [b, a, q]]) == [a, b, q]
  {
    WithoutCons(a, [], []);
    LayersCons([], [a], [[b, a, q]], [a]);
    WithoutCons(q, [], [a]);
    WithoutCons(a, [q], [a]);
    WithoutCons(b, [a, q], [a]);
    assert [b, a, q] == [b] + [a, q] && [a, q] == [a] + [q];
    LayersCons([a], [b, a, q], [], [a, b, q]);
  }

  /** A single layer contributes all of its names. */
  lemma LayersOne(p: seq<string>)
    ensures Layers([], [p]) == p
  {
    assert [p] == [p] + [];
    LayersExtend([], p, [], p, [], p);
  }

  /** One dependency: its pipeline, then the own name. */
  lemma PipelineOverOne(a: Annotator, p: seq<string>)
    requires |a.dependencies| == 1 && Pipeline(a.dependencies[0]) == p
    requires a.name !in p
    ensures Pipeline(a) == p + [a.name]
  {
    PipelineByLayers(a, [p]);
    LayersOne(p);
  }

  /** Whatever its options, an annotator without dependencies runs alone. */
  lemma PipelineOfLeaf(name: string, o: map<string, Json>)
    ensures Pipeline(Annotator(name, o, [])) == [name]
  {
    assert Flatten([]) == [];
    assert Uniq([name]) == [name];
  }

  /** A chain of single dependencies runs deepest first. */
  lemma NestedBranch(b: string, c: string, d: string, o: map<string, Json>)
    requires b != c && b != d && c != d
    ensures Pipeline(Annotator(b, o, [Annotator(c, o, [Annotator(d, o, [])])])) == [d, c, b]
  {
    var cn := Annotator(c, o, [Annotator(d, o, [])]);
    PipelineOfLeaf(d, o);
    PipelineOverOne(cn, [d]);
    assert [d] + [c] == [d, c];
    PipelineOverOne(Annotator(b, o, [cn]), [d, c]);
    assert [d, c] + [b] == [d, c, b];
  }

  /** The nested example of the annotator's tests: a first dependency `a`
      without dependencies of its own, and a second `b` that depends on `c`,
      which depends on `d`. The deepest name comes first within its branch,
      and the own name `q` comes last. */
  lemma NestedPipeline(q: string, a: string, b: string, c: string, d: string,
                       own: map<string, Json>, o: map<string, Json>)
    requires a != b && a != c && a != d && a != q
    requires b != c && b != d && b != q && c != d && c != q && d != q
    ensures Pipeline(Annotator(q, own, [
      Annotator(a, o, []),
      Annotator(b, o, [Annotator(c, o, [Annotator(d, o, [])])])])) == [a, d, c, b, q]
  {
    var bn := Annotator(b, o, [Annotator(c, o, [Annotator(d, o, [])])]);
    var top := Annotator(q, own, [Annotator(a, o, []), bn]);
    PipelineOfLeaf(a, o);
    NestedBranch(b, c, d, o);
    var ps := [[a], [d, c, b]];
    forall k | 0 <= k < 2
      ensures Pipeline(top.dependencies[k]) == ps[k]
    {
      if k == 0 {} else {}
    }
    PipelineByLayers(top, ps);
    assert ps == [[a]] + [[d, c, b]];
    LayersExtend([], [a], [], [a], [[d, c, b]], [a]);
    assert [[d, c, b]] == [[d, c, b]] + [];
    LayersExtend([a], [d, c, b], [], [d, c, b], [], [a, d, c, b]);
    assert Layers([a, d, c, b], []) == [a, d, c, b];
  }

  // ---------------------------------------------------------------------------
  // Pipeline options

  /** The own options renamed to `"<name>.<key>"`. */
  function Prefixed(name: string, options: map<string, Json>): (m: map<string, Json>)
    ensures forall k :: k in options <==> name + "." + k in m
    ensures forall k :: k in options ==> m[name + "." + k] == options[k]
    ensures forall key :: key in m ==> exists k :: k in options && key == name + "." + k
  {
    forall k1, k2 | name + "." + k1 == name + "." + k2
      ensures k1 == k2
    {
      assert (name + "." + k1)[|name| + 1..] == k1;
      assert (name + "." + k2)[|name| + 1..] == k2;
    }
    map k | k in options :: name + "." + k := options[k]
  }

  /** `pipelineOptions()`: the dependencies' merged options, then the own
      prefixed options; on a clash the later entry wins. */
  function PipelineOptions(a: Annotator): map<string, Json>
    decreases a, 1
  {
    Merged(a.dependencies) + Prefixed(a.name, a.options)
  }

  /** The left-to-right merge of the dependencies' `pipelineOptions()`
      (`{...ac, ...option}`). Right-biased union is associative, so merging
      from the right gives the same map as the source's left fold. */
  function Merged(ds: seq<Annotator>): map<string, Json>
    decreases ds, 0
  {
    if |ds| == 0 then map[] else PipelineOptions(ds[0]) + Merged(ds[1..])
  }

  /** `ds[i]` defines option `k` and no later entry of `ds` does. */
  predicate LastDefining(ds: seq<Annotator>, k: string, i: int) {
    0 <= i < |ds| && k in PipelineOptions(ds[i]) &&
    forall j :: i < j < |ds| ==> k !in PipelineOptions(ds[j])
  }

  /** A key of the merged dependency options is exactly a key some
      dependency defines. */
  lemma {:induction false} MergedKeys(ds: seq<Annotator>, k: string)
    ensures k in Merged(ds) <==> exists i :: 0 <= i < |ds| && k in PipelineOptions(ds[i])
  {
    if |ds| > 0 {
      MergedKeys(ds[1..], k);
      if k in Merged(ds[1..]) {
        var i :| 0 <= i < |ds[1..]| && k in PipelineOptions(ds[1..][i]);
        assert ds[1..][i] == ds[i + 1];
      }
      forall i | 0 <= i < |ds| && k in PipelineOptions(ds[i])
        ensures k in Merged(ds)
      {
        if i > 0 { assert ds[1..][i - 1] == ds[i]; }
      }
    }
  }

  /** The merged value of a key is that of the LAST dependency defining it. */
  lemma {:induction false} MergedLastWins(ds: seq<Annotator>, k: string, i: int)
    ensures LastDefining(ds, k, i) ==> k in Merged(ds) && Merged(ds)[k] == PipelineOptions(ds[i])[k]
  {
    if !LastDefining(ds, k, i) {
    } else if i > 0 {
      LastDefiningTail(ds, k, i);
      MergedLastWins(ds[1..], k, i - 1);
    } else {
      NoneDefiningTail(ds, k);
      MergedKeys(ds[1..], k);
    }
  }

  /** The last definer past the head is also the last definer of the tail. */
  lemma LastDefiningTail(ds: seq<Annotator>, k: string, i: int)
    requires LastDefining(ds, k, i) && i > 0
    ensures LastDefining(ds[1..], k, i - 1) && ds[1..][i - 1] == ds[i]
  {
    forall j | i - 1 < j < |ds[1..]|
      ensures k !in PipelineOptions(ds[1..][j])
    {
      assert ds[1..][j] == ds[j + 1];
    }
  }

  /** When the head is the last definer, no entry of the tail defines the key. */
  lemma NoneDefiningTail(ds: seq<Annotator>, k: string)
    requires LastDefining(ds, k, 0)
    ensures forall j :: 0 <= j < |ds[1..]| ==> k !in PipelineOptions(ds[1..][j])
  {
    forall j | 0 <= j < |ds[1..]|
      ensures k !in PipelineOptions(ds[1..][j])
    {
      assert ds[1..][j] == ds[j + 1];
    }
  }

  /** `pipelineOptions()` of an annotator without dependencies. */
  lemma NoDependencyOptions(a: Annotator)
    requires a.dependencies == []
    ensures PipelineOptions(a) == Prefixed(a.name, a.options)
  {
    assert Merged(a.dependencies) == map[];
  }

  /** `pipelineOptions()` of an annotator with one dependency. */
  lemma OneDependencyOptions(a: Annotator)
    requires |a.dependencies| == 1
    ensures PipelineOptions(a) == PipelineOptions(a.dependencies[0]) + Prefixed(a.name, a.options)
  {
    var ds := a.dependencies;
    MergedOne(ds);
  }

  /** Over one dependency, the own options are added to the dependency's
      and every other setting is the dependency's. */
  lemma OneDependencyOverride(a: Annotator)
    requires |a.dependencies| == 1
    ensures PipelineOptions(a).Keys == PipelineOptions(a.dependencies[0]).Keys + Prefixed(a.name, a.options).Keys
    ensures forall k :: k in a.options ==> PipelineOptions(a)[a.name + "." + k] == a.options[k]
    ensures forall key :: key in PipelineOptions(a.dependencies[0]) && key !in Prefixed(a.name, a.options) ==>
      PipelineOptions(a)[key] == PipelineOptions(a.dependencies[0])[key]
  {
    OneDependencyOptions(a);
  }

  lemma MergedOne(ds: seq<Annotator>)
    requires |ds| == 1
    ensures Merged(ds) == PipelineOptions(ds[0])
  {
    assert Merged(ds[1..]) == map[];
    var m := PipelineOptions(ds[0]);
    assert m + map[] == m;
  }

  /** `pipelineOptions()` of an annotator with two dependencies. */
  lemma TwoDependencyOptions(a: Annotator)
    requires |a.dependencies| == 2
    ensures PipelineOptions(a) ==
      PipelineOptions(a.dependencies[0]) + PipelineOptions(a.dependencies[1]) + Prefixed(a.name, a.options)
  {
    var ds := a.dependencies;
    MergedOne(ds[1..]);
    assert Merged(ds) == PipelineOptions(ds[0]) + Merged(ds[1..]);
  }

  /** Every option of the graph appears under its prefixed key: the own
      options win over anything a dependency declares, and among dependencies
      the later-declared one wins. */
  lemma PipelineOptionsOverride(a: Annotator, k: string)
    ensures k in PipelineOptions(a) <==>
      (exists o :: o in a.options && k == a.name + "." + o) ||
      (exists i :: 0 <= i < |a.dependencies| && k in PipelineOptions(a.dependencies[i]))
    ensures forall o :: o in a.options ==> PipelineOptions(a)[a.name + "." + o] == a.options[o]
    ensures (forall o :: o in a.options ==> k != a.name + "." + o) ==>
      forall i :: LastDefining(a.dependencies, k, i) ==> PipelineOptions(a)[k] == PipelineOptions(a.dependencies[i])[k]
  {
    MergedKeys(a.dependencies, k);
    forall i | LastDefining(a.dependencies, k, i)
      ensures (forall o :: o in a.options ==> k != a.name + "." + o) ==>
        PipelineOptions(a)[k] == PipelineOptions(a.dependencies[i])[k]
    {
      MergedLastWins(a.dependencies, k, i);
    }
  }
}
