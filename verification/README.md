# History map builder — a Dafny model of the viewer's core

The history map builder is a single-page viewer of historical maps of the
Don region. The user picks a map from a list, moves through the years with
step buttons or a slider, and sees the settlements that existed in that year.
They appear as markers with labels on the map and as rows in a sidebar. The
sidebar's second tab lists the map's events, optionally filtered by
category and always sorted by date. Clicking an object opens a dialog with its
name in that year, its dates, an image, a description and its related events.
Clicking an event opens a dialog that links back to the places it names.

This project models that behaviour as pure functions over immutable data:

- `types.dfy` (`MapTypes`): the catalog records: objects, events, maps,
  name changes and time units. It also holds the fixed identifiers and names
  the components special-case.
- `sequences.dfy` (`Sequences`): generic list operations with their
  specifications. These are filtering, a stable sort by an integer key, and
  order-preserving de-duplication. They stand in for `Array.filter`,
  `Array.sort` and `Array.from(new Set(…))`.
- `resolution.dfy` (`Resolution`): whether an object exists in a year, and
  which name it has then. This covers both the simple rule the map uses and
  the `nameChanges` rule the sidebar and dialog use. It also gives the
  dialog's date line.
- `event_views.dfy` (`EventViews`): the category filter, the date order and
  the category menu. It also gives both directions of the object/event
  relation.
- `panels.dfy` (`Panels`): what the sidebar, the object dialog and the event
  dialog display.
- `historical_map.dfy` (`HistoricalMap`): the markers and labels drawn for a
  year.
- `viewer.dfy` (`Viewer`): the page state, every user action, and the
  screen a state renders to. It also proves that every reachable state keeps
  the page's invariants.

The catalog (`maps`, `mapData`) is static data in the program. Here it is a
parameter of the functions that use it.

Three behaviours of the code are worth stating outright:

- Several name changes can share the latest applicable year. The code keeps
  the one listed first, because `Array.sort` is stable and the code takes the
  head of the list sorted by year descending.
- Choosing a map sets only the map and the date. The selected object, the
  selected event, the unit, the filter and the category stay as they were.
- The date slider's value is stored as given, and the page does not clamp it.
  Only the step buttons clamp to the map's years.

The two directions of the object/event relation agree for every object with a
non-empty id. For an object whose id is `""` they do not. The object's related
events include an event whose scalar `objectId` is `""`, but the event dialog
treats that id as missing and lists no place (`EventViews.EmptyIdBreaksSymmetry`).

## Model

| member | source | states |
|---|---|---|
| Sequences.SortBy | src/components/MapSidebar.tsx:124-125 | the sort the page relies on: ascending by key, a permutation of its input, and elements with equal keys keep their relative order |
| Sequences.SortedStableUnique | src/components/MapSidebar.tsx:124-125 | a sorted, stable permutation is unique, so any stable sort produces the same list as the one modelled |
| Sequences.Distinct | src/pages/Index.tsx:24 | `Array.from(new Set(…))`: each value of the input exactly once, no duplicates, in order of first occurrence |
| Resolution.ActiveObjects | src/components/HistoricalMap.tsx:27-29 | an object is shown exactly when the year lies in its inclusive activity interval; shown objects keep catalog order and multiplicity |
| Resolution.BaseDisplayName | src/components/HistoricalMap.tsx:128 | the map's name: Старочеркасская exactly when the object is don-2 and the year is 1805 or later, the catalog name otherwise |
| Resolution.LatestIndex | src/components/ObjectDialog.tsx:32-38 | reference reading of "the latest change wins", by a single scan: -1 exactly when every change lies after the date, otherwise an entry that has taken effect, with no later one, and no earlier-listed one of the same year |
| Resolution.LatestIsUnique | src/components/ObjectDialog.tsx:32-38 | at most one entry meets that rule, so the rule fixes the name even when years tie |
| Resolution.ApplicableChange | src/components/ObjectDialog.tsx:32-38 | no change applies iff every change's year is after the date; otherwise the change chosen is the one the reference scan picks: the latest year not after the date, the first listed among equal years |
| Resolution.FirstOfSortedIsLatest | src/components/ObjectDialog.tsx:33-35 | filtering by date, sorting stably by year descending and taking the head gives nothing exactly when the scan finds nothing, and otherwise exactly the entry the scan finds |
| Resolution.SortedHeadIsLatest | src/components/ObjectDialog.tsx:33-35 | no change that has taken effect by the date is later than the first one after sorting by year descending |
| Resolution.SortedHeadIsFirstOfItsYear | src/components/ObjectDialog.tsx:33-35 | the first change after sorting is the first-listed change of its year, because the sort is stable |
| Resolution.DisplayName | src/components/MapSidebar.tsx:55-66 | the name in the object list and dialog: the new name of the latest applicable change as the reference scan finds it, and the map's base name when no change has taken effect |
| Resolution.DescribeDates | src/components/ObjectDialog.tsx:49 | the dialog's date line: the object's custom date text if present, the fixed first-mention text for don-5, else its activity interval |
| EventViews.FilterEvents | src/components/MapSidebar.tsx:33-37 | with the filter off or category "all" every event is listed; otherwise exactly the events of that category, with their multiplicity and order |
| EventViews.SortByDate | src/components/MapSidebar.tsx:124-125 | events ascending by date, same events, events of one date in their original order |
| EventViews.EventList | src/components/MapSidebar.tsx:124-138 | the events tab shows the filtered events in date order, and no others |
| EventViews.Categories | src/pages/Index.tsx:24 | the category menu holds every category of an event of the map and nothing else, once each, in order of first appearance in the list of events it is given |
| EventViews.CategoriesOfSortedEvents | src/components/MapSidebar.tsx:124-125 | reordering the catalog's events by date never changes which categories the menu offers |
| EventViews.SortingReordersCategories | src/components/MapSidebar.tsx:124-125 | after the in-place date sort the menu can list the same categories in a different order: first appearance in date order |
| EventViews.RelatedObjects | src/components/EventDialog.tsx:16-21 | the places of an event: no place for a missing or empty id; otherwise exactly the catalog objects whose id the event names, in catalog order |
| EventViews.RelatedEvents | src/pages/Index.tsx:127-132 | the events of the selected object: those whose scalar id equals the object's id or whose id list contains it; with no object, those without an id or whose list contains "" |
| EventViews.RelationIsSymmetric | src/pages/Index.tsx:127-132 | for an object with a non-empty id, it is a place of an event exactly when the event is among its related events |
| EventViews.EmptyIdBreaksSymmetry | src/components/EventDialog.tsx:17-19 | for an object with id "", an event whose scalar id is "" counts as related but does not name the object as a place |
| Panels.ObjectsTab | src/components/MapSidebar.tsx:52-81 | one row per object that exists at the date, in catalog order, named as the name-change rule gives and carrying the object's first and last year |
| Panels.Sidebar | src/components/MapSidebar.tsx:52-125 | the objects tab lists the active objects with their dated names and their years; the events tab lists the filtered events by date, with events of the same date in catalog order; the category menu, headed by "all", shows only in category mode |
| Panels.ObjectDialog | src/components/ObjectDialog.tsx:26-115 | the dialog is open iff an object is selected; it shows its dated name, its date line, its image only when present and the caption only when present; the related part is absent for no events, a count while folded, and the date-sorted events when unfolded |
| Panels.DialogTitleMatchesSidebar | src/components/ObjectDialog.tsx:28-39 | the dialog's title for an object is the name the objects tab shows for it at the same date |
| Panels.EventDialog | src/components/EventDialog.tsx:14-67 | the dialog is open iff an event is selected; it shows the event's fields, its image (alt text the title) only when present with the caption only when present, and one link per place, labelled with the catalog name |
| HistoricalMap.MarkerColor | src/components/HistoricalMap.tsx:125-126 | an object's own colour wins; otherwise the darker colour marks the selected object |
| HistoricalMap.MarkerFor | src/components/HistoricalMap.tsx:124-179 | a marker sits at the object's position; don-13 alone gets the Azov picture badge; the popup shows the map name, the interval, the info, and a picture only for don-5 (the Razdorskaya picture) and don-13 (the Azov siege plan with its caption) |
| HistoricalMap.MarkerIgnoresNameChanges | src/components/HistoricalMap.tsx:128 | the map's markers do not depend on `nameChanges` |
| HistoricalMap.Markers | src/components/HistoricalMap.tsx:124-196 | one marker per active object, in catalog order |
| HistoricalMap.Layers | src/components/HistoricalMap.tsx:185-195 | each marker is followed by a permanent label at the same position carrying the marker's name |
| Viewer.CurrentData | src/pages/Index.tsx:22-23 | objects and events are those of the selected map, and empty when no map is selected or the id is unknown |
| Viewer.FindMap | src/pages/Index.tsx:35 | `maps.find`: none iff no map has the id, otherwise the first map that has it |
| Viewer.FindListedMap | src/pages/Index.tsx:53 | with distinct ids, looking up a listed map's id finds that map |
| Viewer.StepSize | src/pages/Index.tsx:27-33 | the four step units advance by 1, 10, 50 and 100 years; every step size is positive |
| Viewer.TimeStep | src/pages/Index.tsx:26-40 | a step changes only the date: nothing happens without a known map; otherwise the date moves by the unit and is held within the map's years |
| Viewer.StepBackUndoesStepForward | src/pages/Index.tsx:34-37 | a backward step undoes a forward step that stayed within the map's years |
| Viewer.SelectMap | src/pages/Index.tsx:42-45 | choosing a map sets the map and jumps to the year given; everything else stays |
| Viewer.Back | src/pages/Index.tsx:47-51 | going back shows the map list and clears object and event; date, unit, filters and style stay |
| Viewer.SetDate | src/pages/Index.tsx:87 | the slider's value becomes the date unchanged, and nothing else changes |
| Viewer.SliderMin | src/pages/Index.tsx:84 | the slider starts at the map's first year, or at 1540 when there is no map or that year is 0 |
| Viewer.SliderMax | src/pages/Index.tsx:85 | the slider ends at the map's last year, or at 1955 when there is no map or that year is 0 |
| Viewer.CloseObjectDialog | src/pages/Index.tsx:134-137 | closing the object dialog clears the object and folds the related events, changing nothing else |
| Viewer.ToggleRelatedEvents | src/pages/Index.tsx:138 | the toggle flips whether related events are shown, changing nothing else |
| Viewer.OpenRelatedEvent | src/components/ObjectDialog.tsx:99-102 | choosing a related event opens it and closes the object dialog |
| Viewer.OpenPlace | src/pages/Index.tsx:146-149 | choosing a place selects that object and closes the event dialog |
| Viewer.Apply | src/pages/Index.tsx:81-149 | each control's handler: choosing a map selects it at its first year, the step, slider and back controls and the dialog callbacks run their handlers, the unit, style, object, event, filter and category setters change their own field only; the map changes only by choosing one or going back, the date only by choosing a map, stepping or sliding, and the dialogs' selections only through their own controls |
| Viewer.Render | src/pages/Index.tsx:55-152 | the map list shows exactly while no map is chosen; otherwise the slider bounds, the sidebar and the markers with their labels come from the chosen map's data at the current date; each dialog is open exactly while its item is selected and gets the map's events or objects |
| Viewer.InitialScreen | src/pages/Index.tsx:12-20 | the page starts at 1600 with year steps, all events, category "all" and the satellite view, on the map list with no dialog, in a state that keeps the invariant |
| Viewer.ZeroLastYearLeavesRange | src/pages/Index.tsx:85 | with a map whose last year is 0, the slider's fallback bound of 1955 lets the date leave the map's years, so the invariant needs a non-zero last year |
| Viewer.ApplyKeepsConsistent | src/pages/Index.tsx:26-51 | for a catalog with distinct ids, first years no later than last years and no last year of 0, every action the page offers keeps the invariant: a unit with a step size, the date within the selected map's years, and no selection while the map list shows |
| Viewer.RunKeepsConsistent | src/pages/Index.tsx:12-51 | for the same catalogs, any sequence of offered actions keeps the invariant |
| Viewer.ReachableStatesAreConsistent | src/pages/Index.tsx:12-20 | every state reachable from the initial one satisfies the invariant, given a catalog with distinct ids, first years no later than last years, and no last year of 0 |
| Viewer.MapAndListAgree | src/pages/Index.tsx:94-117 | the map and the objects tab show the same objects in the same order, and each marker is drawn with its label |

## Left out

- The map library itself: tile layers, the legend, the reset-zoom button and
  the map's centre and zoom. These are floating-point geometry and drawing,
  not logic the rest of the page depends on.
- Markup, styling, the header and the responsive breakpoint
  (`window.innerWidth`). They are presentation only.
- The map list and the time controls as widgets (MapSelector.tsx,
  TimeControls.tsx). They appear only as the actions they offer (`Viewer.Offered`).
  The slider's own clamping is the widget's, so `Viewer.SetDate` stores any
  value, and `Viewer.Offered` only offers values within the slider's bounds.
- The catalog data in src/data/maps is not part of this model. It is a
  parameter. The invariant assumes distinct map ids, first years no later
  than last years, and no last year of 0. The last condition is needed
  because the slider's upper bound is `maxYear || 1955` (src/pages/Index.tsx:85):
  for a map whose last year is 0 the slider reaches 1955 and the date leaves
  the map's years (`Viewer.ZeroLastYearLeavesRange`).
- The `day` and `month` units. They are in the type, but the page has no step
  size for them, and stepping with one would set the date to NaN. They are
  not offered, `Viewer.TimeStep` requires a unit with a step size, and
  `Viewer.ReachableStatesAreConsistent` shows the page never holds any other.
- The in-place sort in the events tab. Unless the list is filtered to a
  category other than "all", it sorts the catalog's own event array, so later catalog-order lists (related
  events, category menu) see the date order. The model keeps the catalog
  order. `EventViews.CategoriesOfSortedEvents` shows the set of menu
  categories is unaffected, but after that sort the menu the user sees is
  ordered by first appearance in date order, which can differ
  (`EventViews.SortingReordersCategories`).
- Text formatting of numbers and the `—` separator in intervals. The
  interval is kept as two integers (`Resolution.DateDescription`).
- A missing `nameChanges` list and an empty one are the same here, as in the
  code, where an empty list finds no applicable change.
- Modal behaviour of the dialogs. `Viewer.Offered` allows sidebar actions
  while a dialog is open, which is more than the page allows. The invariant
  holds for that larger set too.
