/** The event lists: the sidebar's category filter and date order
    (src/components/MapSidebar.tsx:33-37,124-125), the category menu
    (src/pages/Index.tsx:24), and the two directions of the event/object
    relation: the events of a selected object (src/pages/Index.tsx:127-132)
    and the places of an event (src/components/EventDialog.tsx:16-21). */
module EventViews {
  import opened MapTypes
  import opened Sequences

  datatype FilterMode = AllEvents | ByCategory

  function InCategory(category: string): Event -> bool {
    (e: Event) => e.category == category
  }

  /** The events the sidebar lists, before sorting. */
  function FilterEvents(events: seq<Event>, mode: FilterMode, category: string): (r: seq<Event>)
    ensures mode == AllEvents || category == ALL_CATEGORIES ==> r == events
    ensures mode == ByCategory && category != ALL_CATEGORIES ==>
      && (forall e :: e in r <==> e in events && e.category == category)
      && (forall e :: multiset(r)[e] == if e.category == category then multiset(events)[e] else 0)
      && IsSubsequence(r, events)
  {
    if mode == AllEvents then events
    else if category == ALL_CATEGORIES then events
    else Filter(events, InCategory(category))
  }

  function DateOf(e: Event): int {
    e.date
  }

  /** Events ascending by date; events of the same date keep their order. */
  function SortByDate(events: seq<Event>): (r: seq<Event>)
    ensures forall i, j :: 0 <= i < j < |r| ==> r[i].date <= r[j].date
    ensures multiset(r) == multiset(events)
    ensures forall d :: WithKey(r, DateOf, d) == WithKey(events, DateOf, d)
  {
    var r := SortBy(events, DateOf);
    assert SortedBy(r, DateOf);
    r
  }

  /** The list the events tab shows. */
  function EventList(events: seq<Event>, mode: FilterMode, category: string): (r: seq<Event>)
    ensures forall i, j :: 0 <= i < j < |r| ==> r[i].date <= r[j].date
    ensures mode == AllEvents || category == ALL_CATEGORIES ==> multiset(r) == multiset(events)
    ensures mode == ByCategory && category != ALL_CATEGORIES ==>
      forall e :: multiset(r)[e] == if e.category == category then multiset(events)[e] else 0
    ensures forall d :: WithKey(r, DateOf, d) == WithKey(FilterEvents(events, mode, category), DateOf, d)
  {
    SortByDate(FilterEvents(events, mode, category))
  }

  function CategoryList(events: seq<Event>): (r: seq<string>)
    ensures |r| == |events|
    ensures forall i :: 0 <= i < |events| ==> r[i] == events[i].category
  {
    seq(|events|, i requires 0 <= i < |events| => events[i].category)
  }

  /** The categories offered by the filter menu: each category once, in
      order of first occurrence. */
  function Categories(events: seq<Event>): (r: seq<string>)
    ensures forall i :: 0 <= i < |events| ==> events[i].category in r
    ensures forall c :: c in r ==> exists i :: 0 <= i < |events| && events[i].category == c
    ensures forall c :: c in r <==> c in CategoryList(events)
    ensures NoDuplicates(r)
    ensures forall i, j :: 0 <= i < j < |r| ==>
      FirstIndex(CategoryList(events), r[i]) < FirstIndex(CategoryList(events), r[j])
  {
    var cs := CategoryList(events);
    var r := Distinct(cs);
    assert forall i :: 0 <= i < |events| ==> cs[i] in cs;
    r
  }

  /** Reordering the events (as the sidebar's in-place sort does to the
      catalog) may reorder the categories but never changes which ones are
      offered. */
  lemma CategoriesOfSortedEvents(events: seq<Event>)
    ensures forall c :: c in Categories(SortByDate(events)) <==> c in Categories(events)
  {
    var sorted := SortByDate(events);
    forall c | c in Categories(sorted)
      ensures c in Categories(events)
    {
      CategoryMoves(sorted, events, c);
    }
    forall c | c in Categories(events)
      ensures c in Categories(sorted)
    {
      CategoryMoves(events, sorted, c);
    }
  }

  /** The order can change, though: once the events are sorted by date, the
      menu follows the order of first appearance in date order. */
  lemma SortingReordersCategories()
    ensures var late := Event("1", 1700, "", "", "B", Absent, None, None);
      var early := Event("2", 1600, "", "", "A", Absent, None, None);
      && Categories([late, early]) == ["B", "A"]
      && Categories(SortByDate([late, early])) == ["A", "B"]
  {
    var late := Event("1", 1700, "", "", "B", Absent, None, None);
    var early := Event("2", 1600, "", "", "A", Absent, None, None);
    var sorted := SortByDate([late, early]);
    assert sorted == [early, late] by {
      assert sorted[0].date <= sorted[1].date;
      assert multiset(sorted) == multiset([late, early]);
      assert late in multiset(sorted) && early in multiset(sorted);
    }
    TwoCategories(late, early);
    TwoCategories(early, late);
  }

  lemma TwoCategories(x: Event, y: Event)
    requires x.category != y.category
    ensures Categories([x, y]) == [x.category, y.category]
  {
    var cs := CategoryList([x, y]);
    assert cs == [x.category, y.category];
    assert cs[..1] == [x.category];
    assert [x.category][..0] == [];
    assert Distinct([x.category]) == [x.category];
  }

  lemma CategoryMoves(a: seq<Event>, b: seq<Event>, c: string)
    requires multiset(a) == multiset(b)
    requires c in Categories(a)
    ensures c in Categories(b)
  {
    var i :| 0 <= i < |a| && a[i].category == c;
    assert a[i] in multiset(b);
    var j :| 0 <= j < |b| && b[j] == a[i];
  }

  /** The ids an event points at, as the event dialog reads `objectId`: a
      missing or empty scalar gives none, a scalar is a one-element list. */
  function AnchorIds(ref: ObjectRef): seq<string> {
    match ref
    case Absent => []
    case Single(id) => if id == "" then [] else [id]
    case Many(ids) => ids
  }

  function AnchoredAt(ids: seq<string>): MapObject -> bool {
    (o: MapObject) => o.id in ids
  }

  /** The places of an event: catalog objects whose id the event names, in
      catalog order, whatever the year. */
  function RelatedObjects(e: Event, objects: seq<MapObject>): (r: seq<MapObject>)
    ensures e.objectId.Absent? ==> r == []
    ensures e.objectId.Single? && e.objectId.id == "" ==> r == []
    ensures e.objectId.Single? && e.objectId.id != "" ==>
      forall o :: o in r <==> o in objects && o.id == e.objectId.id
    ensures e.objectId.Many? ==>
      forall o :: o in r <==> o in objects && o.id in e.objectId.ids
    ensures forall o :: o in r ==> multiset(r)[o] == multiset(objects)[o]
    ensures IsSubsequence(r, objects)
  {
    var p := AnchoredAt(AnchorIds(e.objectId));
    var r := Filter(objects, p);
    forall o | o in r
      ensures multiset(r)[o] == multiset(objects)[o]
    {
      assert p(o);
    }
    assert |r| > 0 ==> r[0] in r;
    r
  }

  /** Whether an event belongs to the selected object, as the page tests it
      (with no object selected, `undefined` and `''` stand in for the id). */
  predicate Mentions(ref: ObjectRef, selected: Option<MapObject>) {
    match ref
    case Many(ids) => (if selected.Some? then selected.value.id else "") in ids
    case Single(id) => selected.Some? && id == selected.value.id
    case Absent => selected.None?
  }

  function MentionsObject(selected: Option<MapObject>): Event -> bool {
    (e: Event) => Mentions(e.objectId, selected)
  }

  /** The events of the selected object, in catalog order. */
  function RelatedEvents(events: seq<Event>, selected: Option<MapObject>): (r: seq<Event>)
    ensures selected.Some? ==> forall e :: e in r <==>
      (&& e in events
       && ((e.objectId.Single? && e.objectId.id == selected.value.id) ||
           (e.objectId.Many? && selected.value.id in e.objectId.ids)))
    ensures selected.None? ==> forall e :: e in r <==>
      (e in events && (e.objectId.Absent? || (e.objectId.Many? && "" in e.objectId.ids)))
    ensures forall e :: e in r ==> multiset(r)[e] == multiset(events)[e]
    ensures IsSubsequence(r, events)
  {
    Filter(events, MentionsObject(selected))
  }

  /** The two directions of the relation agree: an object is a place of an
      event exactly when the event is among the object's events, for every
      object with a non-empty id. */
  lemma RelationIsSymmetric(o: MapObject, e: Event, objects: seq<MapObject>, events: seq<Event>)
    requires o in objects && e in events
    requires o.id != ""
    ensures o in RelatedObjects(e, objects) <==> e in RelatedEvents(events, Some(o))
  {
  }

  /** For an object whose id is empty the directions disagree: a scalar
      `objectId` of `''` counts for the object's events but names no place. */
  lemma EmptyIdBreaksSymmetry()
    ensures var o := MapObject("", "", 0.0, 0.0, "", 0, 0, None, None, None, None, []);
      var e := Event("", 0, "", "", "", Single(""), None, None);
      && o !in RelatedObjects(e, [o])
      && e in RelatedEvents([e], Some(o))
  {
  }
}
