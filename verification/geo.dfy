/**
  Boundary features and the three drill-down levels they are drawn at.
 */
module Geo {
  import opened Js

  /** The drill-down granularity, ordered from the root: state, district, city. */
  datatype Level = State | District | City

  /** Position of a level in the hierarchy; the root is 0. */
  function Depth(l: Level): nat {
    match l
    case State => 0
    case District => 1
    case City => 2
  }

  /**
    One boundary feature, reduced to the hierarchical name properties
    NAME_1 (state), NAME_2 (district) and NAME_3 (city). The geometry is
    only ever handed to the renderer and is not part of this model.
   */
  datatype Feature = Feature(name1: Name, name2: Name, name3: Name) {
    function At(field: NameField): Name {
      match field
      case Name1 => name1
      case Name2 => name2
      case Name3 => name3
    }
  }

  /** Which of the three name properties a filter compares. */
  datatype NameField = Name1 | Name2 | Name3

  /** `features.filter(f => f.properties.<field> === name)`. */
  function Select(features: seq<Feature>, field: NameField, name: Name): (r: seq<Feature>)
    ensures |r| <= |features|
    ensures forall f :: f in r <==> f in features && f.At(field) == name
  {
    if |features| == 0 then []
    else
      var init := Select(features[..|features| - 1], field, name);
      var last := features[|features| - 1];
      assert features == features[..|features| - 1] + [last];
      if last.At(field) == name then init + [last] else init
  }

  /**
    The filter commutes with concatenation. Together with its effect on a
    single feature this pins it down: it keeps the matching features in
    their original order.
   */
  lemma {:induction false} SelectAppend(a: seq<Feature>, b: seq<Feature>, field: NameField, name: Name)
    ensures Select(a + b, field, name) == Select(a, field, name) + Select(b, field, name)
  {
    if |b| > 0 {
      var b' := b[..|b| - 1];
      assert (a + b)[..|a + b| - 1] == a + b';
      assert (a + b)[|a + b| - 1] == b[|b| - 1];
      SelectAppend(a, b', field, name);
    } else {
      assert a + b == a;
    }
  }

  /** A single feature is kept exactly when its property matches. */
  lemma SelectSingle(f: Feature, field: NameField, name: Name)
    ensures Select([f], field, name) == if f.At(field) == name then [f] else []
  {
    assert [f][..0] == [];
  }

  /** A filter that no feature matches yields the empty sequence. */
  lemma SelectNoMatch(features: seq<Feature>, field: NameField, name: Name)
    requires forall i :: 0 <= i < |features| ==> features[i].At(field) != name
    ensures Select(features, field, name) == []
  {
  }
}
