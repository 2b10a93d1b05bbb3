/** The records the viewer works on (src/types/map.ts), with years as
    unbounded integers and coordinates as reals that are only passed
    through. Optional fields are `Option`s; the components test most of them
    for truthiness, so `Present` says what "set and non-empty" means. */
module MapTypes {

  datatype Option<+T> = None | Some(value: T)

  /** True when an optional string is set and non-empty, i.e. when the
      components' `if (x)` / `x || …` would take it. */
  predicate Present(s: Option<string>) {
    s.Some? && s.value != ""
  }

  /** The six units of src/types/map.ts:1; only the last four have a step. */
  datatype TimeUnit = Day | Month | Year | Decade | FiftyYears | Century {
    predicate Steppable() {
      !Day? && !Month?
    }
  }

  /** One entry of an object's `nameChanges` list: from `year` on, the
      object is called `newName`. The field is read by the sidebar and the
      object dialog but is not declared in src/types/map.ts. */
  datatype NameChange = NameChange(year: int, newName: string)

  datatype MapObject = MapObject(
    id: string,
    name: string,
    lat: real,
    lng: real,
    info: string,
    activeFrom: int,
    activeTo: int,
    color: Option<string>,
    image: Option<string>,
    imageCaption: Option<string>,
    customDate: Option<string>,
    nameChanges: seq<NameChange>)

  /** The `objectId?: string | string[]` field of an event. */
  datatype ObjectRef = Absent | Single(id: string) | Many(ids: seq<string>)

  /** An event; `imageCaption` is read by the event dialog although the
      declared type lacks it. */
  datatype Event = Event(
    id: string,
    date: int,
    title: string,
    description: string,
    category: string,
    objectId: ObjectRef,
    image: Option<string>,
    imageCaption: Option<string>)

  datatype MapInfo = MapInfo(
    id: string,
    name: string,
    period: string,
    minYear: int,
    maxYear: int,
    image: string,
    description: Option<string>)

  /** One entry of the `mapData` catalog: the objects and events of a map. */
  datatype MapData = MapData(objects: seq<MapObject>, events: seq<Event>)

  // Identifiers and literals that the components compare against.
  const DON_2: string := "don-2"
  const DON_5: string := "don-5"
  const DON_13: string := "don-13"
  const RENAME_YEAR: int := 1805
  const STAROCHERKASSKAYA: string := "Старочеркасская"
  const FIRST_MENTION: string := "Первое упоминание: 1571 г."
  const ALL_CATEGORIES: string := "all"
}
