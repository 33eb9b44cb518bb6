/**
  The annotation-state tracker every unit of text carries: its raw text, the
  language ISO code the pipeline recorded, and the set of annotators whose
  results it already holds ("met dependencies"). Annotators are keyed by
  their string form, so two annotators with the same name are the same mark.
 */
module Tracking {
  import opened Js
  import opened Annotators

  /** The annotator map is kept as the set of its own keys: every value
      stored in it is an annotator object, and objects are truthy. */
  datatype Annotable = Annotable(text: Json, language: Json, marks: set<string>)

  /** `new Annotable(text)`. */
  function New(text: Json): Annotable {
    Annotable(text, Undefined, {})
  }

  function SetLanguageISO(x: Annotable, iso: Json): (y: Annotable)
    ensures GetLanguageISO(y) == iso
    ensures y.text == x.text && y.marks == x.marks
  {
    x.(language := iso)
  }

  function GetLanguageISO(x: Annotable): Json {
    x.language
  }

  /** `addAnnotator(a)`: `_annotators[a.toString()] = a`. */
  function AddAnnotator(x: Annotable, a: Annotator): (y: Annotable)
    ensures HasAnnotator(y, a)
    ensures forall b :: HasAnnotator(x, b) ==> HasAnnotator(y, b)
    ensures y.text == x.text && y.language == x.language
  {
    x.(marks := x.marks + {ToString(a)})
  }

  /** `addAnnotators(list)`: `forEach` of `addAnnotator`, in order. */
  function AddAnnotators(x: Annotable, list: seq<Annotator>): (y: Annotable)
    ensures y.marks == x.marks + set i | 0 <= i < |list| :: ToString(list[i])
    ensures y.text == x.text && y.language == x.language
    decreases |list|
  {
    if |list| == 0 then x
    else
      var y := AddAnnotators(AddAnnotator(x, list[0]), list[1..]);
      assert forall i :: 0 < i < |list| ==> list[i] == list[1..][i - 1];
      assert forall j :: 0 <= j < |list| - 1 ==> list[1..][j] == list[j + 1];
      y
  }

  /** `removeAnnotator(a)`: `delete _annotators[a.toString()]`. */
  function RemoveAnnotator(x: Annotable, a: Annotator): (y: Annotable)
    ensures !HasAnnotator(y, a)
    ensures forall b :: HasAnnotator(y, b) ==> HasAnnotator(x, b)
    ensures y.text == x.text && y.language == x.language
  {
    x.(marks := x.marks - {ToString(a)})
  }

  /** `hasAnnotator(a)` as written: `!!_annotators[a.toString()]`. The read
      also finds the members inherited from `Object.prototype`. */
  predicate HasAnnotatorAsWritten(x: Annotable, a: Annotator) {
    ToString(a) in x.marks || ToString(a) in InheritedMembers
  }

  /** `hasAnnotator(a)` as its documentation states it: whether `a` is a met
      dependency, i.e. an own key of the annotator map. */
  predicate HasAnnotator(x: Annotable, a: Annotator) {
    ToString(a) in x.marks
  }

  /** `hasAnyAnnotator(list)`: `some` element's string form is among
      `Object.keys(_annotators)`. */
  function HasAnyAnnotator(x: Annotable, list: seq<Annotator>): (r: bool)
    ensures r <==> exists i :: 0 <= i < |list| && ToString(list[i]) in x.marks
    decreases |list|
  {
    if |list| == 0 then false
    else
      var r := ToString(list[0]) in x.marks || HasAnyAnnotator(x, list[1..]);
      assert forall j :: 0 <= j < |list| - 1 ==> list[1..][j] == list[j + 1];
      r
  }

  // ---------------------------------------------------------------------------
  // Properties

  /** A new annotable holds its text and no mark. */
  lemma NewHoldsNothing(text: Json, a: Annotator, list: seq<Annotator>)
    ensures New(text).text == text
    ensures !HasAnnotator(New(text), a)
    ensures !HasAnyAnnotator(New(text), list)
  {
  }

  /** After adding `a`, every annotator with the same string form is met,
      and every other name keeps its membership. */
  lemma AddThenHas(x: Annotable, a: Annotator, b: Annotator)
    ensures ToString(b) == ToString(a) ==> HasAnnotator(AddAnnotator(x, a), b)
    ensures ToString(b) != ToString(a) ==>
      (HasAnnotator(AddAnnotator(x, a), b) <==> HasAnnotator(x, b))
  {
  }

  /** `equalsTo` is the tracker's notion of sameness: on fresh text, adding
      `b` makes `a` met exactly when `a` equals `b`, and two equal annotators
      are met or unmet together on any text. */
  lemma EqualsToIsSameMark(x: Annotable, a: Annotator, b: Annotator)
    ensures HasAnnotator(AddAnnotator(New(x.text), b), a) <==> EqualsTo(a, b)
    ensures EqualsTo(a, b) ==> (HasAnnotator(x, a) <==> HasAnnotator(x, b))
    ensures EqualsTo(a, b) ==> !HasAnnotator(RemoveAnnotator(x, b), a)
  {
  }

  /** Adding the same annotator twice changes nothing more. */
  lemma AddIdempotent(x: Annotable, a: Annotator)
    ensures AddAnnotator(AddAnnotator(x, a), a) == AddAnnotator(x, a)
  {
  }

  /** After removing `a`, it is no longer met, and every other name keeps its
      membership. */
  lemma RemoveThenHas(x: Annotable, a: Annotator, b: Annotator)
    ensures !HasAnnotator(RemoveAnnotator(x, a), a)
    ensures ToString(b) != ToString(a) ==>
      (HasAnnotator(RemoveAnnotator(x, a), b) <==> HasAnnotator(x, b))
  {
  }

  /** Adding a list is adding its elements one after the other. */
  lemma {:induction false} AddAnnotatorsSnoc(x: Annotable, list: seq<Annotator>, a: Annotator)
    ensures AddAnnotators(x, list + [a]) == AddAnnotator(AddAnnotators(x, list), a)
  {
    var l := list + [a];
    assert forall i :: 0 <= i < |list| ==> l[i] == list[i];
    assert l[|list|] == a;
    assert (set i | 0 <= i < |l| :: ToString(l[i]))
      == (set i | 0 <= i < |list| :: ToString(list[i])) + {ToString(a)};
  }

  /** With the own-key reading, asking for one annotator and asking whether
      any of a one-element list is met agree. */
  lemma HasAnnotatorIsSingleHasAny(x: Annotable, a: Annotator)
    ensures HasAnnotator(x, a) <==> HasAnyAnnotator(x, [a])
  {
    assert [a][0] == a;
  }

  /** The as-written read differs from the own-key reading only on inherited
      member names. */
  lemma AsWrittenDiffersOnlyOnInherited(x: Annotable, a: Annotator)
    ensures ToString(a) !in InheritedMembers ==> (HasAnnotatorAsWritten(x, a) <==> HasAnnotator(x, a))
  {
  }

  /** A fresh annotable reports an annotator named `constructor` as met,
      while `hasAnyAnnotator` of the same one-element list says it is not. */
  lemma InheritedNameReportedMet(text: Json, a: Annotator)
    requires ToString(a) == "constructor"
    ensures HasAnnotatorAsWritten(New(text), a)
    ensures !HasAnyAnnotator(New(text), [a])
  {
  }
}
