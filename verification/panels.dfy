/** The sidebar's two tabs (src/components/MapSidebar.tsx) and the two
    dialogs (src/components/ObjectDialog.tsx, src/components/EventDialog.tsx),
    as the data they display. Markup and styling are not modelled. */
module Panels {
  import opened MapTypes
  import opened Sequences
  import opened Resolution
  import opened EventViews

  /** One row of the objects tab: the object, the name shown for it and its
      activity interval. */
  datatype ObjectEntry = ObjectEntry(obj: MapObject, name: string, from: int, to: int)

  datatype SidebarView = SidebarView(
    objects: seq<ObjectEntry>,
    events: seq<Event>,
    categoryMenu: Option<seq<string>>)

  function Entry(date: int): MapObject -> ObjectEntry {
    (o: MapObject) => ObjectEntry(o, DisplayName(o, date), o.activeFrom, o.activeTo)
  }

  /** The rows of the objects tab. */
  function ObjectsTab(date: int, objects: seq<MapObject>): (r: seq<ObjectEntry>)
    ensures |r| == |ActiveObjects(objects, date)|
    ensures forall i :: 0 <= i < |r| ==>
      && r[i].obj == ActiveObjects(objects, date)[i]
      && IsActive(r[i].obj, date)
      && r[i].name == DisplayName(r[i].obj, date)
      && r[i].from == r[i].obj.activeFrom && r[i].to == r[i].obj.activeTo
  {
    var active := ActiveObjects(objects, date);
    var r := MapSeq(active, Entry(date));
    forall i | 0 <= i < |r|
      ensures r[i].obj == active[i] && IsActive(active[i], date)
      ensures r[i].name == DisplayName(active[i], date)
      ensures r[i].from == active[i].activeFrom && r[i].to == active[i].activeTo
    {
      assert active[i] in active;
      assert r[i] == Entry(date)(active[i]);
    }
    r
  }

  function Sidebar(date: int, objects: seq<MapObject>, events: seq<Event>, mode: FilterMode,
                   category: string, categories: seq<string>): (r: SidebarView)
    ensures |r.objects| == |ActiveObjects(objects, date)|
    ensures forall i :: 0 <= i < |r.objects| ==>
      && r.objects[i].obj == ActiveObjects(objects, date)[i]
      && IsActive(r.objects[i].obj, date)
      && r.objects[i].name == DisplayName(r.objects[i].obj, date)
      && r.objects[i].from == r.objects[i].obj.activeFrom && r.objects[i].to == r.objects[i].obj.activeTo
    ensures forall i, j :: 0 <= i < j < |r.events| ==> r.events[i].date <= r.events[j].date
    ensures mode == AllEvents || category == ALL_CATEGORIES ==> multiset(r.events) == multiset(events)
    ensures mode == ByCategory && category != ALL_CATEGORIES ==>
      forall e :: multiset(r.events)[e] == if e.category == category then multiset(events)[e] else 0
    ensures forall d :: WithKey(r.events, DateOf, d) == WithKey(FilterEvents(events, mode, category), DateOf, d)
    ensures r.categoryMenu.Some? <==> mode == ByCategory
    ensures r.categoryMenu.Some? ==> r.categoryMenu.value == [ALL_CATEGORIES] + categories
  {
    SidebarView(
      ObjectsTab(date, objects),
      EventList(events, mode, category),
      if mode == ByCategory then Some([ALL_CATEGORIES] + categories) else None)
  }

  /** An image with its alternative text and, when present, its caption. */
  datatype ImageBlock = ImageBlock(src: string, alt: string, caption: Option<string>)

  /** The related-events part of the object dialog: a button giving their
      number, or the list itself. */
  datatype RelatedSection = ShowButton(count: nat) | EventLinks(events: seq<Event>)

  datatype ObjectDialogView = ObjectDialogView(
    title: string,
    dates: DateDescription,
    image: Option<ImageBlock>,
    info: string,
    related: Option<RelatedSection>)

  function ImageOf(image: Option<string>, alt: string, caption: Option<string>): Option<ImageBlock> {
    if Present(image) then
      Some(ImageBlock(image.value, alt, if Present(caption) then caption else None))
    else None
  }

  function ObjectDialog(selected: Option<MapObject>, date: int, related: seq<Event>, showRelated: bool)
    : (r: Option<ObjectDialogView>)
    ensures r.None? <==> selected.None?
    ensures r.Some? ==> r.value.title == DisplayName(selected.value, date)
    ensures r.Some? ==> r.value.dates == DescribeDates(selected.value)
    ensures r.Some? ==> r.value.info == selected.value.info
    ensures r.Some? ==> (r.value.image.Some? <==> Present(selected.value.image))
    ensures r.Some? && r.value.image.Some? ==>
      && r.value.image.value.src == selected.value.image.value
      && r.value.image.value.alt == selected.value.name
      && (r.value.image.value.caption.Some? <==> Present(selected.value.imageCaption))
      && (r.value.image.value.caption.Some? ==> r.value.image.value.caption == selected.value.imageCaption)
    ensures r.Some? ==> (r.value.related.Some? <==> |related| > 0)
    ensures r.Some? && |related| > 0 && !showRelated ==> r.value.related == Some(ShowButton(|related|))
    ensures r.Some? && |related| > 0 && showRelated ==>
      && r.value.related.Some? && r.value.related.value.EventLinks?
      && var links := r.value.related.value.events;
      && (forall i, j :: 0 <= i < j < |links| ==> links[i].date <= links[j].date)
      && multiset(links) == multiset(related)
      && (forall d :: WithKey(links, DateOf, d) == WithKey(related, DateOf, d))
  {
    match selected
    case None => None
    case Some(o) =>
      Some(ObjectDialogView(
        DisplayName(o, date),
        DescribeDates(o),
        ImageOf(o.image, o.name, o.imageCaption),
        o.info,
        if |related| == 0 then None
        else if showRelated then Some(EventLinks(SortByDate(related)))
        else Some(ShowButton(|related|))))
  }

  /** The dialog's title is the name the objects tab shows for the same
      object at the same date. */
  lemma DialogTitleMatchesSidebar(date: int, objects: seq<MapObject>, related: seq<Event>, showRelated: bool)
    ensures var rows := ObjectsTab(date, objects);
      forall i :: 0 <= i < |rows| ==>
        ObjectDialog(Some(rows[i].obj), date, related, showRelated).value.title == rows[i].name
  {
  }

  /** A place button of the event dialog: the object it selects and its
      label, which is the catalog name, not the name at the current date. */
  datatype PlaceLink = PlaceLink(obj: MapObject, text: string)

  datatype EventDialogView = EventDialogView(
    title: string,
    date: int,
    category: string,
    image: Option<ImageBlock>,
    description: string,
    places: seq<PlaceLink>)

  function Place(o: MapObject): PlaceLink {
    PlaceLink(o, o.name)
  }

  function EventDialog(event: Option<Event>, objects: seq<MapObject>): (r: Option<EventDialogView>)
    ensures r.None? <==> event.None?
    ensures r.Some? ==>
      && r.value.title == event.value.title
      && r.value.date == event.value.date
      && r.value.category == event.value.category
      && r.value.description == event.value.description
    ensures r.Some? ==> (r.value.image.Some? <==> Present(event.value.image))
    ensures r.Some? && r.value.image.Some? ==>
      && r.value.image.value.src == event.value.image.value
      && r.value.image.value.alt == event.value.title
      && (r.value.image.value.caption.Some? <==> Present(event.value.imageCaption))
      && (r.value.image.value.caption.Some? ==> r.value.image.value.caption == event.value.imageCaption)
    ensures r.Some? ==>
      && |r.value.places| == |RelatedObjects(event.value, objects)|
      && forall i :: 0 <= i < |r.value.places| ==>
        && r.value.places[i].obj == RelatedObjects(event.value, objects)[i]
        && r.value.places[i].obj in objects
        && r.value.places[i].text == r.value.places[i].obj.name
  {
    match event
    case None => None
    case Some(e) =>
      var related := RelatedObjects(e, objects);
      assert forall i :: 0 <= i < |related| ==> related[i] in related;
      Some(EventDialogView(
        e.title, e.date, e.category,
        ImageOf(e.image, e.title, e.imageCaption),
        e.description,
        MapSeq(related, Place)))
  }
}
