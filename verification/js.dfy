/**
  The few JavaScript value semantics the dashboard relies on: optional
  properties, truthiness (`x || y`), and plain objects used as string-keyed
  dictionaries.
 */
module Js {

  /** A property that may be missing (`undefined` or `null`). */
  datatype Option<+T> = None | Some(value: T)

  /** A name property of a boundary feature or a list entry. */
  type Name = Option<string>

  /** JavaScript truthiness of a string-valued property: missing and `""` are falsy. */
  predicate Truthy(n: Name) {
    n.Some? && n.value != ""
  }

  /** JavaScript truthiness of a count-valued property: missing and `0` are falsy. */
  predicate TruthyCount(v: Option<nat>) {
    v.Some? && v.value != 0
  }

  /** `v || 0`: the count, or zero when the property is falsy. */
  function OrZero(v: Option<nat>): (r: nat)
    ensures v.None? ==> r == 0
    ensures v.Some? ==> r == v.value
    ensures r == 0 <==> !TruthyCount(v)
  {
    if TruthyCount(v) then v.value else 0
  }

  /** The property key a name converts to when used as `obj[name]`: a missing name reads key "undefined". */
  function Key(n: Name): (k: string)
    ensures n.Some? ==> k == n.value
    ensures n.None? ==> k == "undefined"
  {
    match n
    case Some(s) => s
    case None => "undefined"
  }

  /** No key occurs twice: what makes an association list a JavaScript object. */
  ghost predicate DistinctKeys<V>(entries: seq<(string, V)>) {
    forall i, j :: 0 <= i < j < |entries| ==> entries[i].0 != entries[j].0
  }

  /** A plain object, as its entries in `Object.keys` order. */
  type Obj<V> = entries: seq<(string, V)> | DistinctKeys(entries) witness []

  /** `obj[key]`: the value stored under `key`, or `undefined`. */
  function Get<V(==)>(entries: seq<(string, V)>, key: string): (r: Option<V>)
    ensures r.None? <==> forall i :: 0 <= i < |entries| ==> entries[i].0 != key
    ensures r.Some? ==> exists i :: 0 <= i < |entries| && entries[i].0 == key && entries[i].1 == r.value
  {
    if |entries| == 0 then None
    else if entries[0].0 == key then Some(entries[0].1)
    else
      var r := Get(entries[1..], key);
      assert forall i :: 1 <= i < |entries| ==> entries[i] == entries[1..][i - 1];
      r
  }

  /** In an object, the value found under the key of entry `i` is that entry's value. */
  lemma {:induction false} GetEntry<V>(o: Obj<V>, i: nat)
    requires i < |o|
    ensures Get(o, o[i].0) == Some(o[i].1)
  {
    if i > 0 {
      assert o[0].0 != o[i].0;
      var rest: seq<(string, V)> := o[1..];
      assert DistinctKeys(rest) by {
        forall a, b | 0 <= a < b < |rest| ensures rest[a].0 != rest[b].0 {
          assert rest[a] == o[a + 1] && rest[b] == o[b + 1];
        }
      }
      assert rest[i - 1] == o[i];
      GetEntry(rest, i - 1);
    }
  }

  /** The values of an object, in key order (`Object.values`). */
  function Values<V>(entries: seq<(string, V)>): (vs: seq<V>)
    ensures |vs| == |entries|
    ensures forall i :: 0 <= i < |entries| ==> vs[i] == entries[i].1
  {
    seq(|entries|, i requires 0 <= i < |entries| => entries[i].1)
  }
}
