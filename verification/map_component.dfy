/**
  The map component's selection logic: which name a click resolves to, which
  level it reports, which polygons it redraws, and which feature a list
  click zooms to. Drawing, colouring and the zoom transform's geometry are
  left to the renderer; the viewport is recorded only as the feature it is
  zoomed to.
 */
module MapComponent {
  import opened Js
  import opened Geo

  /** The viewport: the identity transform, or zoomed onto one feature. */
  datatype Zoom = Identity | ZoomedTo(feature: Feature)

  /**
    The component's state: the state-boundary document once loaded, the
    polygons currently drawn, the last clicked feature and the viewport.
   */
  datatype MapState = MapState(geo: Option<seq<Feature>>, drawn: seq<Feature>, selected: Option<Feature>, zoom: Zoom)

  /** The `levelSelected` event raised on a click. */
  datatype LevelSelected = LevelSelected(level: Level, name: Name)

  /** Nothing is drawn before the boundary document has arrived. */
  ghost predicate Valid(m: MapState) {
    m.geo.None? ==> m.drawn == []
  }

  /** The component right after initialisation, before its fetch completes. */
  function Init(): (m: MapState)
    ensures Valid(m)
    ensures m.geo.None? && m.drawn == [] && m.selected.None? && m.zoom == Identity
  {
    MapState(None, [], None, Identity)
  }

  /** The fetch callback of `loadStateGeoJson`: keep the document and draw every feature in it. */
  function OnStateGeoLoaded(m: MapState, doc: seq<Feature>): (r: MapState)
    ensures Valid(r)
    ensures r.geo == Some(doc) && r.drawn == doc
    ensures r.selected == m.selected && r.zoom == m.zoom
  {
    m.(geo := Some(doc), drawn := doc)
  }

  /** JavaScript's `a || b || c`: the first truthy operand, or the last one when none is truthy. */
  function FirstTruthy(operands: seq<Name>): Name
    requires |operands| > 0
  {
    if |operands| == 1 || Truthy(operands[0]) then operands[0]
    else FirstTruthy(operands[1..])
  }

  /**
    The name a click resolves to: NAME_1, else NAME_2, else NAME_3. When all
    three are falsy it is NAME_3 as it stands, possibly missing or empty.
   */
  function ClickedName(f: Feature): (n: Name)
    ensures Truthy(n) <==> Truthy(f.name1) || Truthy(f.name2) || Truthy(f.name3)
    ensures n == f.name1 || n == f.name2 || n == f.name3
  {
    if Truthy(f.name1) then f.name1
    else if Truthy(f.name2) then f.name2
    else f.name3
  }

  /** The resolved name is exactly what the `||` chain over the three properties evaluates to. */
  lemma ClickedNameIsOrChain(f: Feature)
    ensures ClickedName(f) == FirstTruthy([f.name1, f.name2, f.name3])
  {
    var operands := [f.name1, f.name2, f.name3];
    assert operands[1..] == [f.name2, f.name3];
    assert [f.name2, f.name3][1..] == [f.name3];
    if !Truthy(f.name1) {
      assert FirstTruthy(operands) == FirstTruthy([f.name2, f.name3]);
      if !Truthy(f.name2) {
        assert FirstTruthy([f.name2, f.name3]) == FirstTruthy([f.name3]);
      }
    }
  }

  /** `getLevelFromFeature`: a feature with a NAME_2 is a district, any other a state. */
  function LevelOf(f: Feature): (l: Level)
    ensures l == District <==> Truthy(f.name2)
    ensures l == State <==> !Truthy(f.name2)
  {
    if Truthy(f.name2) then District else State
  }

  /**
    The reported level agrees with the reported name: a district click
    always carries a truthy name, its NAME_1 when that is truthy and
    otherwise its NAME_2; a state click carries NAME_1, or NAME_3 when
    NAME_1 is falsy.
   */
  lemma LevelOfClickedName(f: Feature)
    ensures LevelOf(f) == District ==> Truthy(ClickedName(f))
    ensures LevelOf(f) == District && !Truthy(f.name1) ==> ClickedName(f) == f.name2
    ensures LevelOf(f) == State ==> ClickedName(f) == if Truthy(f.name1) then f.name1 else f.name3
  {
  }

  /** `showCities`: redraw with exactly the loaded features whose NAME_2 is `district`. */
  function ShowCities(m: MapState, district: Name): (r: MapState)
    requires m.geo.Some?
    ensures forall g :: g in r.drawn <==> g in m.geo.value && g.name2 == district
    ensures r.drawn == Select(m.geo.value, Name2, district)
    ensures r.geo == m.geo && r.selected == m.selected && r.zoom == m.zoom
  {
    m.(drawn := Select(m.geo.value, Name2, district))
  }

  /**
    `handleClick` on a drawn polygon: select it, zoom onto it, show the
    cities when it has a NAME_2, and report the resolved name together with
    the feature's level. `showCities` receives the resolved name, which is
    NAME_1 whenever NAME_1 is truthy.
   */
  function HandleClick(m: MapState, f: Feature): (r: (MapState, LevelSelected))
    requires Valid(m)
    requires f in m.drawn
    ensures r.1 == LevelSelected(LevelOf(f), ClickedName(f))
    ensures r.1.level != City
    ensures r.0.selected == Some(f) && r.0.zoom == ZoomedTo(f) && r.0.geo == m.geo
    ensures Truthy(f.name2) ==> forall g :: g in r.0.drawn <==> g in m.geo.value && g.name2 == ClickedName(f)
    ensures Truthy(f.name2) ==> r.0.drawn == Select(m.geo.value, Name2, ClickedName(f))
    ensures !Truthy(f.name2) ==> r.0.drawn == m.drawn
    ensures Valid(r.0)
  {
    var name := ClickedName(f);
    var zoomed := m.(selected := Some(f), zoom := ZoomedTo(f));
    var shown := if Truthy(f.name2) then ShowCities(zoomed, name) else zoomed;
    (shown, LevelSelected(LevelOf(f), name))
  }

  /** The search predicate of `highlightFromList`: NAME_1 or NAME_2 equals `name`; NAME_3 is not looked at. */
  predicate Matches(f: Feature, name: Name): (b: bool)
    ensures name == f.name3 && name != f.name1 && name != f.name2 ==> !b
    ensures (Truthy(f.name1) || Truthy(f.name2)) && name == ClickedName(f) ==> b
  {
    f.name1 == name || f.name2 == name
  }

  /** `features.find(...)` with that predicate, as the position of the first match. */
  function FindMatch(features: seq<Feature>, name: Name): (r: Option<nat>)
    ensures r.Some? ==> r.value < |features| && Matches(features[r.value], name)
    ensures r.Some? ==> forall j :: 0 <= j < r.value ==> !Matches(features[j], name)
    ensures r.None? <==> forall j :: 0 <= j < |features| ==> !Matches(features[j], name)
  {
    if |features| == 0 then None
    else if Matches(features[0], name) then Some(0)
    else
      match FindMatch(features[1..], name)
      case None => None
      case Some(k) => Some(k + 1)
  }

  /** What a list click did to the map. */
  datatype Highlight = Highlighted(feature: Feature) | NotFound | NotLoaded

  /**
    `highlightFromList`: zoom onto the first loaded feature whose NAME_1 or
    NAME_2 is `name`. When none matches the lookup failure is reported and
    nothing changes; before the document has loaded the lookup throws, which
    likewise leaves the map unchanged. The level argument is not used.
   */
  function HighlightFromList(m: MapState, name: Name, level: Level): (r: (MapState, Highlight))
    ensures r.1 == NotLoaded <==> m.geo.None?
    ensures r.1 == NotFound <==> m.geo.Some? && forall j :: 0 <= j < |m.geo.value| ==> !Matches(m.geo.value[j], name)
    ensures !r.1.Highlighted? ==> r.0 == m
    ensures r.1.Highlighted? ==> m.geo.Some?
    ensures r.1.Highlighted? ==>
      (exists i :: 0 <= i < |m.geo.value| && m.geo.value[i] == r.1.feature && Matches(r.1.feature, name) &&
         forall j :: 0 <= j < i ==> !Matches(m.geo.value[j], name))
    ensures r.1.Highlighted? ==> r.0 == m.(zoom := ZoomedTo(r.1.feature))
  {
    match m.geo
    case None => (m, NotLoaded)
    case Some(features) =>
      match FindMatch(features, name)
      case None => (m, NotFound)
      case Some(i) => (m.(zoom := ZoomedTo(features[i])), Highlighted(features[i]))
  }

  /**
    `resetZoom` (also the background click): back to the identity transform,
    and once the state boundaries are fetched again, all of them are drawn.
    `fetched` is the outcome of that fetch. The selected feature is kept.
   */
  function ResetZoom(m: MapState, fetched: Option<seq<Feature>>): (r: MapState)
    ensures r.zoom == Identity && r.selected == m.selected
    ensures fetched.Some? ==> r.geo == fetched && r.drawn == fetched.value
    ensures fetched.None? ==> r.geo == m.geo && r.drawn == m.drawn
    ensures Valid(m) ==> Valid(r)
  {
    var reset := m.(zoom := Identity);
    match fetched
    case None => reset
    case Some(doc) => OnStateGeoLoaded(reset, doc)
  }

  /**
    A district feature whose NAME_1 is also set resolves to its NAME_1, so
    the city redraw keeps the features whose NAME_2 equals that state name.
   */
  lemma ClickWithStateNameFiltersByStateName(m: MapState, f: Feature)
    requires Valid(m) && f in m.drawn
    requires Truthy(f.name1) && Truthy(f.name2)
    ensures HandleClick(m, f).1 == LevelSelected(District, f.name1)
    ensures forall g :: g in HandleClick(m, f).0.drawn <==> g in m.geo.value && g.name2 == f.name1
  {
  }
}
