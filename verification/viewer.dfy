/** The page state and its transitions (src/pages/Index.tsx): the initial
    state, time stepping clamped to the map's years, choosing a map, going
    back, the slider, the dialog callbacks, and what the page puts on screen
    for a state. `maps` and `mapData` are the static catalog, taken as
    inputs. */
module Viewer {
  import opened MapTypes
  import opened Resolution
  import opened EventViews
  import opened Panels
  import opened HistoricalMap

  datatype Direction = Forward | Backward

  datatype MapStyle = Roadmap | Satellite | Terrain

  datatype State = State(
    selectedMap: Option<string>,
    currentDate: int,
    timeUnit: TimeUnit,
    selectedObject: Option<MapObject>,
    selectedEvent: Option<Event>,
    showRelatedEvents: bool,
    eventFilter: FilterMode,
    selectedCategory: string,
    mapStyle: MapStyle)

  const INITIAL_DATE: int := 1600
  const SLIDER_MIN_FALLBACK: int := 1540
  const SLIDER_MAX_FALLBACK: int := 1955

  const Initial: State :=
    State(None, INITIAL_DATE, Year, None, None, false, AllEvents, ALL_CATEGORIES, Satellite)

  /** The map viewer, rather than the list of maps, is on screen: the
      selected map id is set and non-empty. */
  predicate Viewing(s: State) {
    s.selectedMap.Some? && s.selectedMap.value != ""
  }

  /** The objects and events of the selected map. */
  function CurrentData(s: State, mapData: map<string, MapData>): (d: MapData)
    ensures !Viewing(s) ==> d == MapData([], [])
    ensures Viewing(s) && s.selectedMap.value !in mapData ==> d == MapData([], [])
    ensures Viewing(s) && s.selectedMap.value in mapData ==> d == mapData[s.selectedMap.value]
  {
    if Viewing(s) && s.selectedMap.value in mapData then mapData[s.selectedMap.value]
    else MapData([], [])
  }

  /** `maps.find(m => m.id === id)`: the first map with the id. */
  function FindMap(maps: seq<MapInfo>, id: Option<string>): (r: Option<MapInfo>)
    ensures r.None? <==> id.None? || forall i :: 0 <= i < |maps| ==> maps[i].id != id.value
    ensures r.Some? ==> exists i :: 0 <= i < |maps| && maps[i] == r.value && maps[i].id == id.value
                                    && forall j :: 0 <= j < i ==> maps[j].id != id.value
  {
    if id.None? || |maps| == 0 then None
    else if maps[0].id == id.value then Some(maps[0])
    else
      var r := FindMap(maps[1..], id);
      assert forall i :: 1 <= i < |maps| ==> maps[i] == maps[1..][i - 1];
      if r.Some? then
        assert exists i :: 0 <= i < |maps| && maps[i] == r.value && maps[i].id == id.value
                           && forall j :: 0 <= j < i ==> maps[j].id != id.value by {
          var k :| 0 <= k < |maps[1..]| && maps[1..][k] == r.value && maps[1..][k].id == id.value
                   && forall j :: 0 <= j < k ==> maps[1..][j].id != id.value;
          assert forall j :: 1 <= j < k + 1 ==> maps[j] == maps[1..][j - 1];
        }
        r
      else r
  }

  /** When ids are unique, looking up the id of a listed map finds it. */
  lemma FindListedMap(maps: seq<MapInfo>, i: int)
    requires 0 <= i < |maps|
    requires forall j, k :: 0 <= j < k < |maps| ==> maps[j].id != maps[k].id
    ensures FindMap(maps, Some(maps[i].id)) == Some(maps[i])
  {
  }

  /** Years per step for the four units the time controls offer. */
  function StepSize(u: TimeUnit): (n: int)
    requires u.Steppable()
    ensures n > 0
    ensures u == Year ==> n == 1
    ensures u == Decade ==> n == 10
    ensures u == FiftyYears ==> n == 50
    ensures u == Century ==> n == 100
  {
    match u
    case Year => 1
    case Decade => 10
    case FiftyYears => 50
    case Century => 100
  }

  function Target(s: State, dir: Direction): int
    requires s.timeUnit.Steppable()
  {
    if dir == Forward then s.currentDate + StepSize(s.timeUnit) else s.currentDate - StepSize(s.timeUnit)
  }

  /** `Math.max(lo, Math.min(hi, x))`. */
  function Clamp(lo: int, hi: int, x: int): int {
    var below := if hi < x then hi else x;
    if lo < below then below else lo
  }

  /** One step of the forward/backward buttons. */
  function TimeStep(s: State, maps: seq<MapInfo>, dir: Direction): (r: State)
    requires s.timeUnit.Steppable()
    ensures r.(currentDate := s.currentDate) == s
    ensures FindMap(maps, s.selectedMap).None? ==> r == s
    ensures FindMap(maps, s.selectedMap).Some? ==>
      var m := FindMap(maps, s.selectedMap).value;
      var t := Target(s, dir);
      && (m.minYear <= m.maxYear ==> m.minYear <= r.currentDate <= m.maxYear)
      && (m.minYear <= t <= m.maxYear ==> r.currentDate == t)
      && (t < m.minYear ==> r.currentDate == m.minYear)
      && (m.minYear <= m.maxYear < t ==> r.currentDate == m.maxYear)
      && (m.maxYear < m.minYear ==> r.currentDate == m.minYear)
  {
    match FindMap(maps, s.selectedMap)
    case None => s
    case Some(m) => s.(currentDate := Clamp(m.minYear, m.maxYear, Target(s, dir)))
  }

  /** A step back undoes a step forward that the map's range did not cut
      short. */
  lemma StepBackUndoesStepForward(s: State, maps: seq<MapInfo>)
    requires s.timeUnit.Steppable()
    requires FindMap(maps, s.selectedMap).Some?
    requires var m := FindMap(maps, s.selectedMap).value;
      m.minYear <= s.currentDate && s.currentDate + StepSize(s.timeUnit) <= m.maxYear
    ensures TimeStep(TimeStep(s, maps, Forward), maps, Backward) == s
  {
  }

  /** Choosing a map: it becomes the selected one and the date jumps to the
      year passed along; the selections and filters stay as they were. */
  function SelectMap(s: State, id: string, minYear: int): (r: State)
    ensures r.selectedMap == Some(id) && r.currentDate == minYear
    ensures r.(selectedMap := s.selectedMap, currentDate := s.currentDate) == s
  {
    s.(selectedMap := Some(id), currentDate := minYear)
  }

  /** Back to the list of maps: map, object and event are cleared; date,
      unit, filters and the related-events toggle are kept. */
  function Back(s: State): (r: State)
    ensures r.selectedMap.None? && r.selectedObject.None? && r.selectedEvent.None?
    ensures r.(selectedMap := s.selectedMap, selectedObject := s.selectedObject,
               selectedEvent := s.selectedEvent) == s
    ensures !Viewing(r)
  {
    s.(selectedMap := None, selectedObject := None, selectedEvent := None)
  }

  /** The slider's value is stored as given; the page itself does not clamp. */
  function SetDate(s: State, date: int): (r: State)
    ensures r.currentDate == date
    ensures r.(currentDate := s.currentDate) == s
  {
    s.(currentDate := date)
  }

  /** The slider's bounds: the map's years, where a year of 0 counts as
      missing and is replaced by a fixed default. */
  function SliderMin(s: State, maps: seq<MapInfo>): (lo: int)
    ensures FindMap(maps, s.selectedMap).Some? && FindMap(maps, s.selectedMap).value.minYear != 0 ==>
      lo == FindMap(maps, s.selectedMap).value.minYear
    ensures FindMap(maps, s.selectedMap).None? || FindMap(maps, s.selectedMap).value.minYear == 0 ==>
      lo == SLIDER_MIN_FALLBACK
  {
    match FindMap(maps, s.selectedMap)
    case Some(m) => if m.minYear != 0 then m.minYear else SLIDER_MIN_FALLBACK
    case None => SLIDER_MIN_FALLBACK
  }

  function SliderMax(s: State, maps: seq<MapInfo>): (hi: int)
    ensures FindMap(maps, s.selectedMap).Some? && FindMap(maps, s.selectedMap).value.maxYear != 0 ==>
      hi == FindMap(maps, s.selectedMap).value.maxYear
    ensures FindMap(maps, s.selectedMap).None? || FindMap(maps, s.selectedMap).value.maxYear == 0 ==>
      hi == SLIDER_MAX_FALLBACK
  {
    match FindMap(maps, s.selectedMap)
    case Some(m) => if m.maxYear != 0 then m.maxYear else SLIDER_MAX_FALLBACK
    case None => SLIDER_MAX_FALLBACK
  }

  /** Closing the object dialog clears the object and folds the related
      events away. */
  function CloseObjectDialog(s: State): (r: State)
    ensures r.selectedObject.None? && !r.showRelatedEvents
    ensures r.(selectedObject := s.selectedObject, showRelatedEvents := s.showRelatedEvents) == s
  {
    s.(selectedObject := None, showRelatedEvents := false)
  }

  function ToggleRelatedEvents(s: State): (r: State)
    ensures r.showRelatedEvents != s.showRelatedEvents
    ensures r.(showRelatedEvents := s.showRelatedEvents) == s
  {
    s.(showRelatedEvents := !s.showRelatedEvents)
  }

  /** Choosing one of the object's related events opens it and closes the
      object dialog. */
  function OpenRelatedEvent(s: State, e: Event): (r: State)
    ensures r.selectedEvent == Some(e)
    ensures r.selectedObject.None? && !r.showRelatedEvents
    ensures r.(selectedEvent := s.selectedEvent, selectedObject := s.selectedObject,
               showRelatedEvents := s.showRelatedEvents) == s
  {
    CloseObjectDialog(s.(selectedEvent := Some(e)))
  }

  /** Choosing a place in the event dialog selects that object and closes
      the event dialog. */
  function OpenPlace(s: State, o: MapObject): (r: State)
    ensures r.selectedObject == Some(o) && r.selectedEvent.None?
    ensures r.(selectedObject := s.selectedObject, selectedEvent := s.selectedEvent) == s
  {
    s.(selectedObject := Some(o), selectedEvent := None)
  }

  /** Everything a user can do on the page. */
  datatype Action =
    | ChooseMap(index: nat)
    | StepTime(dir: Direction)
    | Slide(date: int)
    | ChooseUnit(unit: TimeUnit)
    | ChooseStyle(style: MapStyle)
    | GoBack
    | ChooseObject(obj: MapObject)
    | ChooseEvent(event: Event)
    | ChooseFilter(mode: FilterMode)
    | ChooseCategory(category: string)
    | CloseObject
    | ToggleRelated
    | PickRelatedEvent(event: Event)
    | CloseEvent
    | PickPlace(obj: MapObject)

  /** Whether the control for the action is on screen in state `s`: the
      map list only while no map is shown, the time controls and sidebar only
      while one is, the unit menu only with its four entries, the slider only
      between its bounds, the dialog controls only while their dialog is
      open. */
  predicate Enabled(s: State, maps: seq<MapInfo>, a: Action) {
    match a
    case ChooseMap(i) => !Viewing(s) && i < |maps|
    case StepTime(_) => Viewing(s) && s.timeUnit.Steppable()
    case Slide(v) => Viewing(s) && SliderMin(s, maps) <= v <= SliderMax(s, maps)
    case ChooseUnit(u) => Viewing(s) && u.Steppable()
    case ChooseStyle(_) => Viewing(s)
    case GoBack => Viewing(s)
    case ChooseObject(_) => Viewing(s)
    case ChooseEvent(_) => Viewing(s)
    case ChooseFilter(_) => Viewing(s)
    case ChooseCategory(_) => Viewing(s) && s.eventFilter == ByCategory
    case CloseObject => s.selectedObject.Some?
    case ToggleRelated => s.selectedObject.Some?
    case PickRelatedEvent(_) => s.selectedObject.Some? && s.showRelatedEvents
    case CloseEvent => s.selectedEvent.Some?
    case PickPlace(_) => s.selectedEvent.Some?
  }

  /** Whether the object, event or category the action names is one the
      screen lists: objects from the map or the objects tab, events from
      the events tab, places and related events from their dialogs. */
  predicate Listed(s: State, mapData: map<string, MapData>, a: Action) {
    var data := CurrentData(s, mapData);
    match a
    case ChooseObject(o) => o in ActiveObjects(data.objects, s.currentDate)
    case ChooseEvent(e) => e in EventList(data.events, s.eventFilter, s.selectedCategory)
    case ChooseCategory(c) => c == ALL_CATEGORIES || c in Categories(data.events)
    case ToggleRelated => |RelatedEvents(data.events, s.selectedObject)| > 0
    case PickRelatedEvent(e) => e in RelatedEvents(data.events, s.selectedObject)
    case PickPlace(o) => s.selectedEvent.Some? && o in RelatedObjects(s.selectedEvent.value, data.objects)
    case _ => true
  }

  /** Whether the page offers the action in state `s`. */
  predicate Offered(s: State, maps: seq<MapInfo>, mapData: map<string, MapData>, a: Action) {
    Enabled(s, maps, a) && Listed(s, mapData, a)
  }

  /** The page's response to one action. Each setter changes its own
      field only, and each field has a fixed set of actions that can change
      it. */
  function Apply(s: State, maps: seq<MapInfo>, a: Action): (r: State)
    requires a.StepTime? ==> s.timeUnit.Steppable()
    requires a.ChooseMap? ==> a.index < |maps|
    ensures a.ChooseUnit? ==> r.timeUnit == a.unit && r.(timeUnit := s.timeUnit) == s
    ensures a.ChooseStyle? ==> r.mapStyle == a.style && r.(mapStyle := s.mapStyle) == s
    ensures a.ChooseObject? ==> r.selectedObject == Some(a.obj) && r.(selectedObject := s.selectedObject) == s
    ensures a.ChooseEvent? ==> r.selectedEvent == Some(a.event) && r.(selectedEvent := s.selectedEvent) == s
    ensures a.ChooseFilter? ==> r.eventFilter == a.mode && r.(eventFilter := s.eventFilter) == s
    ensures a.ChooseCategory? ==> r.selectedCategory == a.category && r.(selectedCategory := s.selectedCategory) == s
    ensures a.CloseEvent? ==> r.selectedEvent.None? && r.(selectedEvent := s.selectedEvent) == s
    ensures a.ChooseMap? ==> r == SelectMap(s, maps[a.index].id, maps[a.index].minYear)
    ensures a.StepTime? ==> r == TimeStep(s, maps, a.dir)
    ensures a.Slide? ==> r == SetDate(s, a.date)
    ensures a.GoBack? ==> r == Back(s)
    ensures a.CloseObject? ==> r == CloseObjectDialog(s)
    ensures a.ToggleRelated? ==> r == ToggleRelatedEvents(s)
    ensures a.PickRelatedEvent? ==> r == OpenRelatedEvent(s, a.event)
    ensures a.PickPlace? ==> r == OpenPlace(s, a.obj)
    ensures r.selectedMap != s.selectedMap ==> a.ChooseMap? || a.GoBack?
    ensures r.currentDate != s.currentDate ==> a.ChooseMap? || a.StepTime? || a.Slide?
    ensures r.timeUnit != s.timeUnit ==> a.ChooseUnit?
    ensures r.mapStyle != s.mapStyle ==> a.ChooseStyle?
    ensures r.eventFilter != s.eventFilter ==> a.ChooseFilter?
    ensures r.selectedCategory != s.selectedCategory ==> a.ChooseCategory?
    ensures r.showRelatedEvents != s.showRelatedEvents ==> a.ToggleRelated? || a.CloseObject? || a.PickRelatedEvent?
    ensures r.selectedObject != s.selectedObject ==>
      a.ChooseObject? || a.CloseObject? || a.PickRelatedEvent? || a.PickPlace? || a.GoBack?
    ensures r.selectedEvent != s.selectedEvent ==>
      a.ChooseEvent? || a.CloseEvent? || a.PickRelatedEvent? || a.PickPlace? || a.GoBack?
  {
    match a
    case ChooseMap(i) => SelectMap(s, maps[i].id, maps[i].minYear)
    case StepTime(dir) => TimeStep(s, maps, dir)
    case Slide(v) => SetDate(s, v)
    case ChooseUnit(u) => s.(timeUnit := u)
    case ChooseStyle(st) => s.(mapStyle := st)
    case GoBack => Back(s)
    case ChooseObject(o) => s.(selectedObject := Some(o))
    case ChooseEvent(e) => s.(selectedEvent := Some(e))
    case ChooseFilter(mode) => s.(eventFilter := mode)
    case ChooseCategory(c) => s.(selectedCategory := c)
    case CloseObject => CloseObjectDialog(s)
    case ToggleRelated => ToggleRelatedEvents(s)
    case PickRelatedEvent(e) => OpenRelatedEvent(s, e)
    case CloseEvent => s.(selectedEvent := None)
    case PickPlace(o) => OpenPlace(s, o)
  }

  /** The state after a sequence of actions, or `None` when one of them is
      not on offer at its point. */
  function Run(s: State, maps: seq<MapInfo>, mapData: map<string, MapData>, actions: seq<Action>): Option<State>
    decreases |actions|
  {
    if |actions| == 0 then Some(s)
    else if Offered(s, maps, mapData, actions[0]) then
      Run(Apply(s, maps, actions[0]), maps, mapData, actions[1..])
    else None
  }

  /** The catalog the page is given: years in order, a final year that is
      not 0 (which the slider would replace), and distinct map ids. */
  predicate WellFormedMaps(maps: seq<MapInfo>) {
    && (forall i :: 0 <= i < |maps| ==> maps[i].minYear <= maps[i].maxYear && maps[i].maxYear != 0)
    && (forall i, j :: 0 <= i < j < |maps| ==> maps[i].id != maps[j].id)
  }

  predicate DateInRange(s: State, maps: seq<MapInfo>) {
    match FindMap(maps, s.selectedMap)
    case None => true
    case Some(m) => m.minYear <= s.currentDate <= m.maxYear
  }

  /** What holds in every state the page can reach: the unit has a step
      size, the date lies within the selected map's years, and nothing is
      selected while the map list is shown. */
  predicate Consistent(s: State, maps: seq<MapInfo>) {
    && s.timeUnit.Steppable()
    && DateInRange(s, maps)
    && (!Viewing(s) ==> s.selectedObject.None? && s.selectedEvent.None?)
  }

  lemma ApplyKeepsConsistent(s: State, maps: seq<MapInfo>, a: Action)
    requires WellFormedMaps(maps)
    requires Consistent(s, maps)
    requires Enabled(s, maps, a)
    ensures Consistent(Apply(s, maps, a), maps)
  {
    var r := Apply(s, maps, a);
    match a
    case ChooseMap(i) =>
      FindListedMap(maps, i);
    case StepTime(dir) =>
      if FindMap(maps, s.selectedMap).Some? {
        var i :| 0 <= i < |maps| && maps[i] == FindMap(maps, s.selectedMap).value;
      }
    case Slide(v) =>
      if FindMap(maps, s.selectedMap).Some? {
        var i :| 0 <= i < |maps| && maps[i] == FindMap(maps, s.selectedMap).value;
      }
    case ChooseUnit(_) =>
    case GoBack =>
    case _ =>
      assert r.selectedMap == s.selectedMap && r.currentDate == s.currentDate && r.timeUnit == s.timeUnit;
  }

  lemma {:induction false} RunKeepsConsistent(s: State, maps: seq<MapInfo>, mapData: map<string, MapData>,
                                              actions: seq<Action>)
    requires WellFormedMaps(maps)
    requires Consistent(s, maps)
    ensures Run(s, maps, mapData, actions).Some? ==> Consistent(Run(s, maps, mapData, actions).value, maps)
    decreases |actions|
  {
    if |actions| > 0 && Offered(s, maps, mapData, actions[0]) {
      ApplyKeepsConsistent(s, maps, actions[0]);
      RunKeepsConsistent(Apply(s, maps, actions[0]), maps, mapData, actions[1..]);
    }
  }

  /** Every state reachable from the initial one is consistent; in
      particular the step buttons never meet a unit without a step size and
      the date never leaves the selected map's years. */
  lemma ReachableStatesAreConsistent(maps: seq<MapInfo>, mapData: map<string, MapData>, actions: seq<Action>)
    requires WellFormedMaps(maps)
    ensures Run(Initial, maps, mapData, actions).Some? ==>
      Consistent(Run(Initial, maps, mapData, actions).value, maps)
  {
    RunKeepsConsistent(Initial, maps, mapData, actions);
  }

  /** What the page shows for a state. */
  datatype MainView =
    | MapList(maps: seq<MapInfo>)
    | MapView(sliderMin: int, sliderMax: int, sidebar: SidebarView, markers: seq<Marker>, layers: seq<Layer>)

  datatype Screen = Screen(
    main: MainView,
    objectDialog: Option<ObjectDialogView>,
    eventDialog: Option<EventDialogView>)

  /** What the page shows for a state: the map list while no map is
      chosen, otherwise the slider, the sidebar and the map for the map's
      data at the current date; each dialog is open exactly while its item
      is selected. */
  function Render(s: State, maps: seq<MapInfo>, mapData: map<string, MapData>): (r: Screen)
    ensures r.main.MapList? <==> !Viewing(s)
    ensures r.main.MapList? ==> r.main.maps == maps
    ensures r.main.MapView? ==>
      var data := CurrentData(s, mapData);
      && r.main.sliderMin == SliderMin(s, maps)
      && r.main.sliderMax == SliderMax(s, maps)
      && r.main.sidebar == Sidebar(s.currentDate, data.objects, data.events, s.eventFilter,
                                   s.selectedCategory, Categories(data.events))
      && r.main.markers == Markers(data.objects, s.currentDate, s.selectedObject)
      && r.main.layers == Layers(r.main.markers)
    ensures r.objectDialog.Some? <==> s.selectedObject.Some?
    ensures r.objectDialog == ObjectDialog(s.selectedObject, s.currentDate,
                                           RelatedEvents(CurrentData(s, mapData).events, s.selectedObject),
                                           s.showRelatedEvents)
    ensures r.eventDialog.Some? <==> s.selectedEvent.Some?
    ensures r.eventDialog == EventDialog(s.selectedEvent, CurrentData(s, mapData).objects)
  {
    var data := CurrentData(s, mapData);
    var main :=
      if !Viewing(s) then MapList(maps)
      else
        var markers := Markers(data.objects, s.currentDate, s.selectedObject);
        MapView(
          SliderMin(s, maps), SliderMax(s, maps),
          Sidebar(s.currentDate, data.objects, data.events, s.eventFilter, s.selectedCategory,
                  Categories(data.events)),
          markers, Layers(markers));
    Screen(
      main,
      ObjectDialog(s.selectedObject, s.currentDate, RelatedEvents(data.events, s.selectedObject),
                   s.showRelatedEvents),
      EventDialog(s.selectedEvent, data.objects))
  }

  /** The page opens on the map list, with no dialog, in a state that
      satisfies the invariant: year 1600, steps of a year, all events, the
      satellite view. */
  lemma InitialScreen(maps: seq<MapInfo>, mapData: map<string, MapData>)
    ensures Initial.currentDate == INITIAL_DATE && Initial.timeUnit == Year && Initial.mapStyle == Satellite
    ensures Initial.eventFilter == AllEvents && Initial.selectedCategory == ALL_CATEGORIES
    ensures !Initial.showRelatedEvents
    ensures Consistent(Initial, maps)
    ensures Render(Initial, maps, mapData) == Screen(MapList(maps), None, None)
  {
  }

  /** Without a non-zero final year the invariant fails: the slider's upper
      bound falls back to 1955, so a map whose years end at 0 lets the date
      move past them. */
  lemma ZeroLastYearLeavesRange(mapData: map<string, MapData>)
    ensures var maps := [MapInfo("m", "m", "", -100, 0, "", None)];
      var run := Run(Initial, maps, mapData, [ChooseMap(0), Slide(SLIDER_MAX_FALLBACK)]);
      && maps[0].minYear <= maps[0].maxYear
      && run.Some?
      && !DateInRange(run.value, maps)
  {
    var maps := [MapInfo("m", "m", "", -100, 0, "", None)];
    var chosen := Apply(Initial, maps, ChooseMap(0));
    assert Offered(Initial, maps, mapData, ChooseMap(0));
    assert FindMap(maps, chosen.selectedMap) == Some(maps[0]);
    assert Offered(chosen, maps, mapData, Slide(SLIDER_MAX_FALLBACK));
    var slid := Apply(chosen, maps, Slide(SLIDER_MAX_FALLBACK));
    var actions := [ChooseMap(0), Slide(SLIDER_MAX_FALLBACK)];
    assert actions[1..] == [Slide(SLIDER_MAX_FALLBACK)];
    assert [Slide(SLIDER_MAX_FALLBACK)][1..] == [];
    assert Run(Initial, maps, mapData, actions) == Run(chosen, maps, mapData, actions[1..]);
    assert Run(chosen, maps, mapData, actions[1..]) == Run(slid, maps, mapData, []);
    assert FindMap(maps, slid.selectedMap) == Some(maps[0]);
  }

  /** The map and the objects tab show the same objects in the same order,
      and the map draws a marker and a label for each. */
  lemma MapAndListAgree(s: State, maps: seq<MapInfo>, mapData: map<string, MapData>)
    requires Viewing(s)
    ensures Render(s, maps, mapData).main.MapView?
    ensures var v := Render(s, maps, mapData).main;
      && |v.markers| == |v.sidebar.objects|
      && |v.layers| == 2 * |v.sidebar.objects|
      && forall i :: 0 <= i < |v.markers| ==>
        && v.markers[i].id == v.sidebar.objects[i].obj.id
        && v.layers[2 * i] == MarkerLayer(v.markers[i])
        && IsActive(v.sidebar.objects[i].obj, s.currentDate)
  {
  }
}
