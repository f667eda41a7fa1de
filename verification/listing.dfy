/**
  The list panel's contents: one row per region at the current level,
  derived from the loaded boundary and statistics documents, de-duplicated
  by name.
 */
module Listing {
  import opened Js
  import opened Geo
  import opened Covid

  /** A displayed statistic: a non-zero count, or the "XX" placeholder. */
  datatype Stat = Count(n: nat) | Unknown

  /** One list entry. */
  datatype Row = Row(name: Name, confirmed: Stat, recovered: Stat, deceased: Stat) {
    function At(m: Metric): Stat {
      match m
      case Confirmed => confirmed
      case Recovered => recovered
      case Deceased => deceased
    }
  }

  /**
    `value || 'XX'`: a missing value and a zero both display as "XX", so a
    region with no cases is indistinguishable from one with no data.
   */
  function Display(v: Option<nat>): (s: Stat)
    ensures s == Unknown <==> v.None? || v.value == 0
    ensures s.Count? ==> s.n > 0 && v == Some(s.n)
  {
    if TruthyCount(v) then Count(v.value) else Unknown
  }

  /** The loaded documents; each stays None until its fetch completes. */
  datatype Store = Store(stateGeo: Option<seq<Feature>>, districtGeo: Option<seq<Feature>>, covid: Option<Obj<StateStats>>)

  /** `covidData?.[state]`: missing before the document loads or when the state has no entry. */
  function StateEntry(covid: Option<Obj<StateStats>>, state: Name): (r: Option<StateStats>)
    ensures covid.None? ==> r.None?
    ensures covid.Some? ==> (r.None? <==> forall i :: 0 <= i < |covid.value| ==> covid.value[i].0 != Key(state))
    ensures r.Some? ==> covid.Some? && exists i :: 0 <= i < |covid.value| && covid.value[i].0 == Key(state) && covid.value[i].1 == r.value
  {
    match covid
    case None => None
    case Some(data) => Get(data, Key(state))
  }

  /** `covidData?.[state]?.total?.<m>`: missing when the document, the state or its total is. */
  function StateTotal(covid: Option<Obj<StateStats>>, state: Name, m: Metric): (r: Option<nat>)
    ensures covid.None? ==> r.None?
    ensures var e := StateEntry(covid, state);
      r.Some? <==> e.Some? && e.value.total.Some?
    ensures var e := StateEntry(covid, state);
      r.Some? ==> r.value == e.value.total.value.At(m)
  {
    match StateEntry(covid, state)
    case None => None
    case Some(st) =>
      match st.total
      case None => None
      case Some(t) => Some(t.At(m))
  }

  /**
    `covidData?.[state]?.districtData?.[district]?.<m>`: missing when the
    document, the state, its `districtData`, the district or the field is.
   */
  function DistrictValue(covid: Option<Obj<StateStats>>, state: Name, district: Name, m: Metric): (r: Option<nat>)
    ensures covid.None? ==> r.None?
    ensures var e := StateEntry(covid, state);
      e.None? || e.value.districtData.None? ==> r.None?
    ensures var e := StateEntry(covid, state);
      e.Some? && e.value.districtData.Some? && Get(e.value.districtData.value, Key(district)).None? ==> r.None?
    ensures var e := StateEntry(covid, state);
      e.Some? && e.value.districtData.Some? && Get(e.value.districtData.value, Key(district)).Some? ==>
        r == Get(e.value.districtData.value, Key(district)).value.At(m)
    ensures var e := StateEntry(covid, state);
      r.Some? ==>
        && e.Some? && e.value.districtData.Some? && Get(e.value.districtData.value, Key(district)).Some?
        && r == Get(e.value.districtData.value, Key(district)).value.At(m)
  {
    match StateEntry(covid, state)
    case None => None
    case Some(st) =>
      match st.districtData
      case None => None
      case Some(dd) =>
        match Get(dd, Key(district))
        case None => None
        case Some(d) => d.At(m)
  }

  /** The state list's entry for a feature: its NAME_1 and that state's totals; all "XX" before the statistics load. */
  function StateRow(covid: Option<Obj<StateStats>>, f: Feature): (r: Row)
    ensures r.name == f.name1
    ensures forall m :: r.At(m) == Display(StateTotal(covid, f.name1, m))
    ensures covid.None? ==> forall m :: r.At(m) == Unknown
  {
    Row(f.name1,
        Display(StateTotal(covid, f.name1, Confirmed)),
        Display(StateTotal(covid, f.name1, Recovered)),
        Display(StateTotal(covid, f.name1, Deceased)))
  }

  /** The district list's entry for a feature: its NAME_2 and that district's own figures under `state`. */
  function DistrictRow(covid: Option<Obj<StateStats>>, state: Name, f: Feature): (r: Row)
    ensures r.name == f.name2
    ensures forall m :: r.At(m) == Display(DistrictValue(covid, state, f.name2, m))
    ensures covid.None? ==> forall m :: r.At(m) == Unknown
  {
    Row(f.name2,
        Display(DistrictValue(covid, state, f.name2, Confirmed)),
        Display(DistrictValue(covid, state, f.name2, Recovered)),
        Display(DistrictValue(covid, state, f.name2, Deceased)))
  }

  /** There are no city-level statistics: every city row shows "XX". */
  function CityRow(f: Feature): (r: Row)
    ensures r.name == f.name3
    ensures forall m :: r.At(m) == Unknown
  {
    Row(f.name3, Unknown, Unknown, Unknown)
  }

  function Names(rows: seq<Row>): (ns: seq<Name>)
    ensures |ns| == |rows|
    ensures forall k :: 0 <= k < |rows| ==> ns[k] == rows[k].name
  {
    seq(|rows|, k requires 0 <= k < |rows| => rows[k].name)
  }

  ghost predicate DistinctNames(rows: seq<Row>) {
    forall k, l :: 0 <= k < l < |rows| ==> rows[k].name != rows[l].name
  }

  /** `rows.findIndex(t => t.name === name)`: a position holding `name` (the first, see FindIndexFirst), or -1. */
  function FindIndex(rows: seq<Row>, name: Name): (r: int)
    ensures -1 <= r < |rows|
    ensures r >= 0 ==> rows[r].name == name
  {
    if |rows| == 0 then -1
    else if rows[0].name == name then 0
    else
      var k := FindIndex(rows[1..], name);
      if k < 0 then -1 else k + 1
  }

  /** `findIndex` finds the first row holding the name, and answers -1 exactly when no row holds it. */
  lemma {:induction false} FindIndexFirst(rows: seq<Row>, name: Name)
    ensures FindIndex(rows, name) >= 0 ==> forall j :: 0 <= j < FindIndex(rows, name) ==> rows[j].name != name
    ensures FindIndex(rows, name) == -1 <==> forall j :: 0 <= j < |rows| ==> rows[j].name != name
  {
    if |rows| > 0 && rows[0].name != name {
      var rest := rows[1..];
      FindIndexFirst(rest, name);
      assert forall j :: 1 <= j < |rows| ==> rows[j] == rest[j - 1];
    }
  }

  /**
    `u` is what filtering the first `n` rows by `index === findIndex(name)`
    must give: distinct names, each the first row with its name and within
    the prefix, in input order, and every name of the prefix present.
   */
  ghost predicate FirstOccurrences(rows: seq<Row>, n: nat, u: seq<Row>) {
    && n <= |rows|
    && |u| <= n
    && DistinctNames(u)
    && (forall k :: 0 <= k < |u| ==> 0 <= FindIndex(rows, u[k].name) < n)
    && (forall k :: 0 <= k < |u| ==> u[k] == rows[FindIndex(rows, u[k].name)])
    && (forall k, l :: 0 <= k < l < |u| ==> FindIndex(rows, u[k].name) < FindIndex(rows, u[l].name))
    && (forall i :: 0 <= i < n ==> rows[i].name in Names(u))
  }

  /** Row `n` is the first with its name: appending it extends the first occurrences by one row. */
  lemma KeepStep(rows: seq<Row>, n: nat, u: seq<Row>)
    requires n < |rows| && FirstOccurrences(rows, n, u)
    requires FindIndex(rows, rows[n].name) == n
    ensures FirstOccurrences(rows, n + 1, u + [rows[n]])
  {
    var u' := u + [rows[n]];
    assert Names(u') == Names(u) + [rows[n].name];
    forall k | 0 <= k < |u| ensures u'[k].name != rows[n].name {
      assert FindIndex(rows, u[k].name) < n;
    }
  }

  /** Row `n` repeats an earlier name: the first occurrences of the longer prefix are unchanged. */
  lemma SkipStep(rows: seq<Row>, n: nat, u: seq<Row>)
    requires n < |rows| && FirstOccurrences(rows, n, u)
    requires FindIndex(rows, rows[n].name) != n
    ensures FirstOccurrences(rows, n + 1, u)
  {
    var j := FindIndex(rows, rows[n].name);
    FindIndexFirst(rows, rows[n].name);
    assert 0 <= j < n;
    assert rows[j].name == rows[n].name;
  }

  /** The first `n` rows filtered by `index === findIndex(name)`. */
  function UniqueUpTo(rows: seq<Row>, n: nat): (u: seq<Row>)
    requires n <= |rows|
    ensures FirstOccurrences(rows, n, u)
  {
    if n == 0 then []
    else
      var u := UniqueUpTo(rows, n - 1);
      var last := rows[n - 1];
      if FindIndex(rows, last.name) == n - 1 then
        KeepStep(rows, n - 1, u);
        u + [last]
      else
        SkipStep(rows, n - 1, u);
        u
  }

  /**
    `getUniqueList`: drops every row whose name occurred earlier. The result
    has no repeated name, every input name survives, each survivor is the
    first row with its name, and survivors keep their input order.
   */
  function GetUniqueList(rows: seq<Row>): (u: seq<Row>)
    ensures |u| <= |rows|
    ensures DistinctNames(u)
    ensures forall k :: 0 <= k < |u| ==> 0 <= FindIndex(rows, u[k].name) && u[k] == rows[FindIndex(rows, u[k].name)]
    ensures forall k, l :: 0 <= k < l < |u| ==> FindIndex(rows, u[k].name) < FindIndex(rows, u[l].name)
    ensures forall i :: 0 <= i < |rows| ==> rows[i].name in Names(u)
  {
    UniqueUpTo(rows, |rows|)
  }

  /** Rows whose names are already distinct pass through unchanged. */
  lemma {:induction false} UniqueOfDistinct(rows: seq<Row>)
    requires DistinctNames(rows)
    ensures GetUniqueList(rows) == rows
  {
    var n := 0;
    while n < |rows|
      invariant n <= |rows|
      invariant UniqueUpTo(rows, n) == rows[..n]
    {
      var r := FindIndex(rows, rows[n].name);
      FindIndexFirst(rows, rows[n].name);
      assert r == n;
      assert rows[..n + 1] == rows[..n] + [rows[n]];
      n := n + 1;
    }
    assert rows[..|rows|] == rows;
  }

  /** De-duplicating twice is the same as de-duplicating once. */
  lemma UniqueIdempotent(rows: seq<Row>)
    ensures GetUniqueList(GetUniqueList(rows)) == GetUniqueList(rows)
  {
    UniqueOfDistinct(GetUniqueList(rows));
  }

  function StateRows(features: seq<Feature>, covid: Option<Obj<StateStats>>): seq<Row> {
    seq(|features|, i requires 0 <= i < |features| => StateRow(covid, features[i]))
  }

  function DistrictRows(features: seq<Feature>, covid: Option<Obj<StateStats>>, state: Name): seq<Row> {
    var children := Select(features, Name1, state);
    seq(|children|, i requires 0 <= i < |children| => DistrictRow(covid, state, children[i]))
  }

  function CityRows(features: seq<Feature>, district: Name): seq<Row> {
    var children := Select(features, Name2, district);
    seq(|children|, i requires 0 <= i < |children| => CityRow(children[i]))
  }

  /** updateList's state branch: one row per state feature, de-duplicated by name. */
  function StateList(features: seq<Feature>, covid: Option<Obj<StateStats>>): (r: seq<Row>)
    ensures DistinctNames(r) && |r| <= |features|
  {
    GetUniqueList(StateRows(features, covid))
  }

  /** updateList's district branch: one row per feature of `state`, de-duplicated by name. */
  function DistrictList(features: seq<Feature>, covid: Option<Obj<StateStats>>, state: Name): (r: seq<Row>)
    ensures DistinctNames(r) && |r| <= |features|
  {
    GetUniqueList(DistrictRows(features, covid, state))
  }

  /** updateList's city branch: one row per feature of `district`, de-duplicated by name. */
  function CityList(features: seq<Feature>, district: Name): (r: seq<Row>)
    ensures DistinctNames(r) && |r| <= |features|
  {
    GetUniqueList(CityRows(features, district))
  }

  /** The list is stale (left as it was) when its documents are missing or no parent is selected. */
  predicate Stale(level: Level, selectedName: Name, store: Store) {
    match level
    case State => store.stateGeo.None?
    case District => store.districtGeo.None? || !Truthy(selectedName)
    case City => store.districtGeo.None? || !Truthy(selectedName)
  }

  /**
    `updateList`: the list for the current level, or the previous list
    unchanged when no branch applies.
   */
  function UpdateList(level: Level, selectedName: Name, current: seq<Row>, store: Store): (items: seq<Row>)
    ensures Stale(level, selectedName, store) ==> items == current
    ensures !Stale(level, selectedName, store) ==> DistinctNames(items)
    ensures level == State && store.stateGeo.Some? ==> items == StateList(store.stateGeo.value, store.covid)
    ensures level == District && !Stale(level, selectedName, store) ==>
      items == DistrictList(store.districtGeo.value, store.covid, selectedName)
    ensures level == City && !Stale(level, selectedName, store) ==>
      items == CityList(store.districtGeo.value, selectedName)
  {
    if level == State && store.stateGeo.Some? then
      StateList(store.stateGeo.value, store.covid)
    else if level == District && store.districtGeo.Some? && Truthy(selectedName) then
      DistrictList(store.districtGeo.value, store.covid, selectedName)
    else if level == City && store.districtGeo.Some? && Truthy(selectedName) then
      CityList(store.districtGeo.value, selectedName)
    else
      current
  }

  /**
    The state list names every state feature's NAME_1 once and nothing else,
    and shows each state's totals, "XX" where a total is missing or zero.
   */
  lemma StateListSpec(features: seq<Feature>, covid: Option<Obj<StateStats>>)
    ensures forall i :: 0 <= i < |features| ==> features[i].name1 in Names(StateList(features, covid))
    ensures forall k :: 0 <= k < |StateList(features, covid)| ==>
      exists i :: 0 <= i < |features| && features[i].name1 == StateList(features, covid)[k].name
    ensures forall k, m :: 0 <= k < |StateList(features, covid)| ==>
      StateList(features, covid)[k].At(m) == Display(StateTotal(covid, StateList(features, covid)[k].name, m))
  {
    var rows := StateRows(features, covid);
    var u := StateList(features, covid);
    forall i | 0 <= i < |features| ensures features[i].name1 in Names(u) {
      assert rows[i].name == features[i].name1;
    }
    forall k | 0 <= k < |u|
      ensures exists i :: 0 <= i < |features| && features[i].name1 == u[k].name
      ensures forall m :: u[k].At(m) == Display(StateTotal(covid, u[k].name, m))
    {
      var j := FindIndex(rows, u[k].name);
      assert u[k] == StateRow(covid, features[j]);
    }
  }

  /** With one feature per state, the state list has exactly one row per feature, in feature order. */
  lemma StateListOfDistinct(features: seq<Feature>, covid: Option<Obj<StateStats>>)
    requires forall i, j :: 0 <= i < j < |features| ==> features[i].name1 != features[j].name1
    ensures StateList(features, covid) == StateRows(features, covid)
    ensures |StateList(features, covid)| == |features|
  {
    UniqueOfDistinct(StateRows(features, covid));
  }

  /** The district list of `state` names the NAME_2 of every feature whose NAME_1 is `state`. */
  lemma DistrictListCovers(features: seq<Feature>, covid: Option<Obj<StateStats>>, state: Name)
    ensures forall i :: 0 <= i < |features| && features[i].name1 == state ==>
      features[i].name2 in Names(DistrictList(features, covid, state))
  {
    var children := Select(features, Name1, state);
    var rows := DistrictRows(features, covid, state);
    var u := DistrictList(features, covid, state);
    forall i | 0 <= i < |features| && features[i].name1 == state ensures features[i].name2 in Names(u) {
      assert features[i] in children;
      var j :| 0 <= j < |children| && children[j] == features[i];
      assert rows[j].name == features[i].name2;
    }
  }

  /** Every row of the district list of `state` is the NAME_2 of a feature whose NAME_1 is `state`. */
  lemma DistrictListOnlyChildren(features: seq<Feature>, covid: Option<Obj<StateStats>>, state: Name)
    ensures forall k :: 0 <= k < |DistrictList(features, covid, state)| ==>
      exists i :: 0 <= i < |features| && features[i].name1 == state && features[i].name2 == DistrictList(features, covid, state)[k].name
  {
    var children := Select(features, Name1, state);
    var rows := DistrictRows(features, covid, state);
    var u := DistrictList(features, covid, state);
    forall k | 0 <= k < |u|
      ensures exists i :: 0 <= i < |features| && features[i].name1 == state && features[i].name2 == u[k].name
    {
      var j := FindIndex(rows, u[k].name);
      assert u[k].name == children[j].name2;
      assert children[j] in features;
    }
  }

  /** Each district row shows that district's own figures, "XX" where one is missing or zero. */
  lemma DistrictListStats(features: seq<Feature>, covid: Option<Obj<StateStats>>, state: Name)
    ensures forall k, m :: 0 <= k < |DistrictList(features, covid, state)| ==>
      DistrictList(features, covid, state)[k].At(m) == Display(DistrictValue(covid, state, DistrictList(features, covid, state)[k].name, m))
  {
    var children := Select(features, Name1, state);
    var rows := DistrictRows(features, covid, state);
    var u := DistrictList(features, covid, state);
    forall k, m | 0 <= k < |u|
      ensures u[k].At(m) == Display(DistrictValue(covid, state, u[k].name, m))
    {
      var j := FindIndex(rows, u[k].name);
      assert u[k] == DistrictRow(covid, state, children[j]);
    }
  }

  /** A state with no district features gets an empty list, not an error. */
  lemma DistrictListEmpty(features: seq<Feature>, covid: Option<Obj<StateStats>>, state: Name)
    requires forall i :: 0 <= i < |features| ==> features[i].name1 != state
    ensures DistrictList(features, covid, state) == []
  {
    SelectNoMatch(features, Name1, state);
  }

  /**
    The city list of `district` names the NAME_3 of every feature whose
    NAME_2 is `district`, once each, and nothing else; every figure is "XX".
   */
  lemma CityListSpec(features: seq<Feature>, district: Name)
    ensures forall i :: 0 <= i < |features| && features[i].name2 == district ==>
      features[i].name3 in Names(CityList(features, district))
    ensures forall k :: 0 <= k < |CityList(features, district)| ==>
      exists i :: 0 <= i < |features| && features[i].name2 == district && features[i].name3 == CityList(features, district)[k].name
    ensures forall k, m :: 0 <= k < |CityList(features, district)| ==> CityList(features, district)[k].At(m) == Unknown
  {
    var children := Select(features, Name2, district);
    var rows := CityRows(features, district);
    var u := CityList(features, district);
    forall i | 0 <= i < |features| && features[i].name2 == district ensures features[i].name3 in Names(u) {
      assert features[i] in children;
      var j :| 0 <= j < |children| && children[j] == features[i];
      assert rows[j].name == features[i].name3;
    }
    forall k | 0 <= k < |u|
      ensures exists i :: 0 <= i < |features| && features[i].name2 == district && features[i].name3 == u[k].name
      ensures forall m :: u[k].At(m) == Unknown
    {
      var j := FindIndex(rows, u[k].name);
      assert u[k] == CityRow(children[j]);
      assert children[j] in features;
    }
  }

  /** A district with no city features gets an empty list. */
  lemma CityListEmpty(features: seq<Feature>, district: Name)
    requires forall i :: 0 <= i < |features| ==> features[i].name2 != district
    ensures CityList(features, district) == []
  {
    SelectNoMatch(features, Name2, district);
  }

  /**
    Once the statistics document is loaded, a state's figure shows "XX"
    exactly when the state is absent from the document or none of its
    districts reports a truthy value; a state without `districtData` shows
    "XX" everywhere because its totals are 0.
   */
  lemma StateStatUnknownIff(raw: Obj<StateStats>, state: Name, m: Metric)
    ensures Get(raw, Key(state)).None? ==> Display(StateTotal(Some(Aggregate(raw)), state, m)) == Unknown
    ensures Get(raw, Key(state)).Some? ==>
      (Display(StateTotal(Some(Aggregate(raw)), state, m)) == Unknown <==>
       AllFalsy(Districts(Get(raw, Key(state)).value.districtData), m))
  {
    AggregateGet(raw, Key(state));
    if Get(raw, Key(state)).Some? {
      SumZeroIff(Districts(Get(raw, Key(state)).value.districtData), m);
    }
  }
}
