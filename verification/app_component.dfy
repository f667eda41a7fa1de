/**
  The root view's navigation controller: the drill-down level, the selected
  parent name and the list shown beside the map, driven by map clicks, list
  clicks, the back button and the three document loads.
 */
module AppComponent {
  import opened Js
  import opened Geo
  import opened Covid
  import opened Listing
  import opened MapComponent

  /** The navigation cursor and the list it currently shows. */
  datatype Nav = Nav(level: Level, selectedName: Name, selectedItems: seq<Row>)

  /** The cursor when the view is created: state level, empty name, empty list. */
  function InitialNav(): (nav: Nav)
    ensures nav.level == State && !Truthy(nav.selectedName) && nav.selectedItems == []
  {
    Nav(State, Some(""), [])
  }

  /** One level further down; the city level is the floor. */
  function Down(l: Level): (r: Level)
    ensures Depth(r) == if Depth(l) == 2 then 2 else Depth(l) + 1
  {
    match l
    case State => District
    case District => City
    case City => City
  }

  /** One level further up; the state level is the ceiling. */
  function Up(l: Level): (r: Level)
    ensures Depth(r) == if Depth(l) == 0 then 0 else Depth(l) - 1
  {
    match l
    case City => District
    case District => State
    case State => State
  }

  /** What the controller asks of the map component after a transition. */
  datatype MapCommand = NoCommand | ResetZoomCommand | HighlightCommand(name: Name, level: Level)

  datatype Step = Step(nav: Nav, command: MapCommand)

  /**
    `onLevelSelected`: go one level down, select the event's name and
    recompute the list. The event's own level plays no part.
   */
  function OnLevelSelected(nav: Nav, store: Store, ev: LevelSelected): (r: Nav)
    ensures r.level == Down(nav.level)
    ensures r.selectedName == ev.name
    ensures r.selectedItems == UpdateList(r.level, ev.name, nav.selectedItems, store)
  {
    var level := Down(nav.level);
    Nav(level, ev.name, UpdateList(level, ev.name, nav.selectedItems, store))
  }

  /**
    `onBack`: go one level up, clear the selected name, recompute the list,
    and ask for a zoom reset exactly when the new level is the state level.
   */
  function OnBack(nav: Nav, store: Store): (r: Step)
    ensures r.nav.level == Up(nav.level)
    ensures r.nav.selectedName == Some("")
    ensures r.command == ResetZoomCommand <==> r.nav.level == State
    ensures r.command == NoCommand <==> r.nav.level != State
    ensures r.nav.level != State ==> r.nav.selectedItems == nav.selectedItems
    ensures r.nav.selectedItems == UpdateList(r.nav.level, Some(""), nav.selectedItems, store)
    ensures store.stateGeo.None? ==> r.nav.selectedItems == nav.selectedItems
    ensures r.nav.level == State && store.stateGeo.Some? ==>
      r.nav.selectedItems == StateList(store.stateGeo.value, store.covid)
  {
    var level := Up(nav.level);
    var cleared := Some("");
    var next := Nav(level, cleared, UpdateList(level, cleared, nav.selectedItems, store));
    Step(next, if level == State then ResetZoomCommand else NoCommand)
  }

  /**
    `onListItemClick`: the same transition as a selection carrying the
    current level, followed by a request to highlight the name at the new
    level.
   */
  function OnListItemClick(nav: Nav, store: Store, name: Name): (r: Step)
    ensures r.nav.level == Down(nav.level) && r.nav.selectedName == name
    ensures r.nav == OnLevelSelected(nav, store, LevelSelected(nav.level, name))
    ensures r.command == HighlightCommand(name, r.nav.level)
  {
    var next := OnLevelSelected(nav, store, LevelSelected(nav.level, name));
    Step(next, HighlightCommand(name, next.level))
  }

  /** The event's level never influences the transition: only its name does. */
  lemma EventLevelIgnored(nav: Nav, store: Store, name: Name, l1: Level, l2: Level)
    ensures OnLevelSelected(nav, store, LevelSelected(l1, name)) == OnLevelSelected(nav, store, LevelSelected(l2, name))
  {
  }

  /**
    Back after a selection returns to the starting level from the state and
    district levels; from the city level it ends at the district level. The
    selected name is empty either way.
   */
  lemma BackAfterSelect(nav: Nav, store: Store, ev: LevelSelected)
    ensures nav.level != City ==> OnBack(OnLevelSelected(nav, store, ev), store).nav.level == nav.level
    ensures nav.level == City ==> OnBack(OnLevelSelected(nav, store, ev), store).nav.level == District
    ensures !Truthy(OnBack(OnLevelSelected(nav, store, ev), store).nav.selectedName)
  {
  }

  /**
    Going back from the city level lands on the district level with an empty
    name, so `updateList` matches no branch and the city list stays on show.
   */
  lemma BackFromCityKeepsList(nav: Nav, store: Store)
    requires nav.level == City
    ensures OnBack(nav, store).nav.level == District
    ensures OnBack(nav, store).nav.selectedItems == nav.selectedItems
    ensures OnBack(nav, store).command == NoCommand
  {
  }

  /** The whole dashboard: the cursor, the loaded documents and the map component once it exists. */
  datatype App = App(nav: Nav, store: Store, view: Option<MapState>)

  /** The dashboard at construction: nothing loaded, the map component not yet created. */
  function InitialApp(): (app: App)
    ensures app.nav.level == State && !Truthy(app.nav.selectedName) && app.nav.selectedItems == []
    ensures app.store.stateGeo.None? && app.store.districtGeo.None? && app.store.covid.None?
    ensures app.view.None?
  {
    App(InitialNav(), Store(None, None, None), None)
  }

  /**
    Carries out a map command on the map component if it exists. `fetched`
    is the outcome of the state-boundary fetch a zoom reset issues.
   */
  function Dispatch(cmd: MapCommand, view: Option<MapState>, fetched: Option<seq<Feature>>): (r: Option<MapState>)
    ensures view.None? ==> r.None?
    ensures cmd.NoCommand? ==> r == view
    ensures view.Some? && cmd.ResetZoomCommand? ==> r == Some(ResetZoom(view.value, fetched))
    ensures view.Some? && cmd.HighlightCommand? ==> r == Some(HighlightFromList(view.value, cmd.name, cmd.level).0)
  {
    match view
    case None => None
    case Some(m) =>
      match cmd
      case NoCommand => view
      case ResetZoomCommand => Some(ResetZoom(m, fetched))
      case HighlightCommand(name, level) => Some(HighlightFromList(m, name, level).0)
  }

  /** The back button. */
  function Back(app: App, fetched: Option<seq<Feature>>): (r: App)
    ensures r.nav == OnBack(app.nav, app.store).nav && r.store == app.store
    ensures r.nav.level == State && app.view.Some? ==> r.view == Some(ResetZoom(app.view.value, fetched))
    ensures r.nav.level != State ==> r.view == app.view
    ensures app.view.None? ==> r.view.None?
    ensures r.view == Dispatch(OnBack(app.nav, app.store).command, app.view, fetched)
  {
    var step := OnBack(app.nav, app.store);
    app.(nav := step.nav, view := Dispatch(step.command, app.view, fetched))
  }

  /**
    A click on the map's background: the map component resets its zoom and
    redraws all states, but the controller is not told, so its level, name
    and list stay where they were.
   */
  function BackgroundClick(app: App, fetched: Option<seq<Feature>>): (r: App)
    ensures r.nav == app.nav && r.store == app.store
    ensures app.view.Some? ==> r.view.Some? && r.view.value.zoom == Identity && r.view.value.selected == app.view.value.selected
    ensures app.view.Some? && fetched.Some? ==> r.view.value.drawn == fetched.value
    ensures app.view.Some? ==> r.view == Some(ResetZoom(app.view.value, fetched))
    ensures app.view.None? ==> r.view.None?
  {
    app.(view := Dispatch(ResetZoomCommand, app.view, fetched))
  }

  /** A click on a list entry: select it, then zoom the map onto the first feature bearing that name. */
  function ListItemClick(app: App, name: Name): (r: App)
    ensures r.nav.level == Down(app.nav.level) && r.nav.selectedName == name && r.store == app.store
    ensures app.view.Some? ==> r.view == Some(HighlightFromList(app.view.value, name, r.nav.level).0)
    ensures app.view.None? ==> r.view.None?
    ensures r.nav == OnListItemClick(app.nav, app.store, name).nav
  {
    var step := OnListItemClick(app.nav, app.store, name);
    app.(nav := step.nav, view := Dispatch(step.command, app.view, None))
  }

  /**
    A click on a drawn polygon: the map component handles it and raises
    `levelSelected` with the resolved name and the feature's level; the
    controller then advances with that name.
   */
  function MapClick(app: App, f: Feature): (r: App)
    requires app.view.Some? && Valid(app.view.value) && f in app.view.value.drawn
    ensures r.nav.level == Down(app.nav.level)
    ensures r.nav.selectedName == ClickedName(f)
    ensures r.view.Some? && Valid(r.view.value)
    ensures r.view.value.selected == Some(f) && r.view.value.zoom == ZoomedTo(f)
    ensures r.store == app.store
    ensures r.nav == OnLevelSelected(app.nav, app.store, HandleClick(app.view.value, f).1)
    ensures r.view == Some(HandleClick(app.view.value, f).0)
  {
    var (m, ev) := HandleClick(app.view.value, f);
    app.(nav := OnLevelSelected(app.nav, app.store, ev), view := Some(m))
  }

  /** The map component is created and starts its own fetch of the state boundaries. */
  function MapCreated(app: App): (r: App)
    ensures r.view.Some? && Valid(r.view.value) && r.view.value.zoom == Identity
    ensures r.view.value.geo.None? && r.view.value.drawn == [] && r.view.value.selected.None?
    ensures r.nav == app.nav && r.store == app.store
  {
    app.(view := Some(Init()))
  }

  /** The map component's state-boundary fetch completes. */
  function MapGeoLoaded(app: App, doc: seq<Feature>): (r: App)
    ensures app.view.Some? ==> r.view.Some? && r.view.value.drawn == doc && Valid(r.view.value)
    ensures r.nav == app.nav && r.store == app.store
    ensures r.view == if app.view.Some? then Some(OnStateGeoLoaded(app.view.value, doc)) else None
    ensures app.view.Some? ==> r.view.value.geo == Some(doc) && r.view.value.selected == app.view.value.selected && r.view.value.zoom == app.view.value.zoom
  {
    match app.view
    case None => app
    case Some(m) => app.(view := Some(OnStateGeoLoaded(m, doc)))
  }

  /** The controller's state-boundary fetch completes: store it and recompute the list. */
  function StateGeoLoaded(app: App, doc: seq<Feature>): (r: App)
    ensures r.store.stateGeo == Some(doc)
    ensures app.nav.level == State ==> r.nav.selectedItems == StateList(doc, app.store.covid)
    ensures r.nav.level == app.nav.level && r.nav.selectedName == app.nav.selectedName
    ensures r.store == app.store.(stateGeo := Some(doc)) && r.view == app.view
    ensures r.nav.selectedItems == UpdateList(app.nav.level, app.nav.selectedName, app.nav.selectedItems, r.store)
  {
    var store := app.store.(stateGeo := Some(doc));
    app.(store := store, nav := app.nav.(selectedItems := UpdateList(app.nav.level, app.nav.selectedName, app.nav.selectedItems, store)))
  }

  /** The district/city boundary fetch completes; the list is not recomputed. */
  function DistrictGeoLoaded(app: App, doc: seq<Feature>): (r: App)
    ensures r.store.districtGeo == Some(doc) && r.nav == app.nav
    ensures r == app.(store := app.store.(districtGeo := Some(doc)))
  {
    app.(store := app.store.(districtGeo := Some(doc)))
  }

  /** The statistics fetch completes: totals are attached; the list is not recomputed. */
  function CovidLoaded(app: App, raw: Obj<StateStats>): (r: App)
    ensures r.store.covid.Some? && r.nav == app.nav
    ensures r == app.(store := app.store.(covid := Some(Aggregate(raw))))
    ensures forall i :: 0 <= i < |raw| ==> Get(r.store.covid.value, raw[i].0) == Some(raw[i].1.(total := Some(Totals(raw[i].1.districtData))))
  {
    var data := Aggregate(raw);
    assert forall i :: 0 <= i < |raw| ==> Get(data, raw[i].0) == Some(raw[i].1.(total := Some(Totals(raw[i].1.districtData)))) by {
      forall i | 0 <= i < |raw| ensures Get(data, raw[i].0) == Some(raw[i].1.(total := Some(Totals(raw[i].1.districtData)))) {
        GetEntry(data, i);
      }
    }
    app.(store := app.store.(covid := Some(data)))
  }
}
