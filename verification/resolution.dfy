/** What an object looks like in a given year: whether it exists, and the
    name the object list and the object dialog give it
    (src/components/MapSidebar.tsx:52-66, src/components/ObjectDialog.tsx:28-39),
    the simpler name the map labels use (src/components/HistoricalMap.tsx:128),
    and the dialog's date line (src/components/ObjectDialog.tsx:49). */
module Resolution {
  import opened MapTypes
  import opened Sequences

  /** Both bounds are inclusive. */
  predicate IsActive(o: MapObject, date: int) {
    o.activeFrom <= date <= o.activeTo
  }

  function ActiveAt(date: int): MapObject -> bool {
    (o: MapObject) => IsActive(o, date)
  }

  /** The objects that exist at `date`, in catalog order. */
  function ActiveObjects(objects: seq<MapObject>, date: int): (r: seq<MapObject>)
    ensures forall o :: o in r <==> o in objects && o.activeFrom <= date <= o.activeTo
    ensures forall o {:trigger multiset(r)[o]} :: multiset(r)[o] == if o.activeFrom <= date <= o.activeTo then multiset(objects)[o] else 0
    ensures IsSubsequence(r, objects)
  {
    Filter(objects, ActiveAt(date))
  }

  /** The name before `nameChanges` are consulted, which is also the whole
      rule for the labels on the map: `don-2` is called Старочеркасская from
      1805 on, every other object by its `name`. */
  function BaseDisplayName(o: MapObject, date: int): (r: string)
    ensures o.id == DON_2 && date >= RENAME_YEAR ==> r == STAROCHERKASSKAYA
    ensures !(o.id == DON_2 && date >= RENAME_YEAR) ==> r == o.name
  {
    if o.id == DON_2 && date >= RENAME_YEAR then STAROCHERKASSKAYA else o.name
  }

  function Applies(date: int): NameChange -> bool {
    (c: NameChange) => date >= c.year
  }

  /** Sort key that orders name changes by year, latest first. */
  function NegYear(c: NameChange): int {
    -c.year
  }

  /** Entry `i` is the one the "latest change wins" rule picks: it has
      taken effect by `date`, no entry that has taken effect is later, and
      every earlier-listed entry that has taken effect is strictly older. */
  ghost predicate IsLatestApplicable(changes: seq<NameChange>, date: int, i: int) {
    && 0 <= i < |changes|
    && changes[i].year <= date
    && (forall j :: 0 <= j < |changes| && changes[j].year <= date ==> changes[j].year <= changes[i].year)
    && (forall j :: 0 <= j < i && changes[j].year <= date ==> changes[j].year < changes[i].year)
  }

  /** The reference reading of "the latest change wins", by one scan
      through the list: the index of the first-listed change with the latest
      year not after `date`, or -1 when every change is still to come. */
  function LatestIndex(changes: seq<NameChange>, date: int): (i: int)
    ensures -1 <= i < |changes|
    ensures i == -1 <==> forall j :: 0 <= j < |changes| ==> changes[j].year > date
    ensures i >= 0 ==> IsLatestApplicable(changes, date, i)
    decreases |changes|
  {
    if |changes| == 0 then -1
    else
      var n := |changes| - 1;
      var prefix := changes[..n];
      var rest := LatestIndex(prefix, date);
      assert forall j :: 0 <= j < n ==> prefix[j] == changes[j];
      if changes[n].year <= date && (rest == -1 || prefix[rest].year < changes[n].year) then n
      else rest
  }

  /** At most one entry satisfies the rule. */
  lemma LatestIsUnique(changes: seq<NameChange>, date: int, i: int, j: int)
    requires IsLatestApplicable(changes, date, i) && IsLatestApplicable(changes, date, j)
    ensures i == j
  {
  }

  /** The first entry of the entries that have taken effect, once sorted
      by year descending with a stable sort. */
  function ApplicableChange(changes: seq<NameChange>, date: int): (r: Option<NameChange>)
    ensures r.None? <==> forall j :: 0 <= j < |changes| ==> changes[j].year > date
    ensures r.Some? ==> r.value == changes[LatestIndex(changes, date)]
  {
    var sorted := SortBy(Filter(changes, Applies(date)), NegYear);
    FirstOfSortedIsLatest(changes, date);
    if |sorted| == 0 then None else Some(sorted[0])
  }

  /** Sorting the changes that have taken effect by year, latest first, with
      a stable sort, and taking the head, picks exactly the reference entry. */
  lemma {:induction false} FirstOfSortedIsLatest(changes: seq<NameChange>, date: int)
    ensures var sorted := SortBy(Filter(changes, Applies(date)), NegYear);
      && (|sorted| == 0 <==> LatestIndex(changes, date) == -1)
      && (|sorted| > 0 ==> sorted[0] == changes[LatestIndex(changes, date)])
  {
    var q := Filter(changes, Applies(date));
    var sorted := SortBy(q, NegYear);
    assert |sorted| == |multiset(sorted)| == |multiset(q)| == |q|;
    if |sorted| == 0 {
      forall j | 0 <= j < |changes|
        ensures changes[j].year > date
      {
        assert changes[j] in changes;
      }
    } else {
      SortedHeadApplies(changes, date);
      SortedHeadIsLatest(changes, date);
      var i := SortedHeadIsFirstOfItsYear(changes, date);
      assert IsLatestApplicable(changes, date, i);
      LatestIsUnique(changes, date, i, LatestIndex(changes, date));
    }
  }

  /** The head of the sorted list is a change that has taken effect. */
  lemma SortedHeadApplies(changes: seq<NameChange>, date: int)
    requires |SortBy(Filter(changes, Applies(date)), NegYear)| > 0
    ensures var sorted := SortBy(Filter(changes, Applies(date)), NegYear);
      sorted[0] in changes && sorted[0].year <= date
  {
    var q := Filter(changes, Applies(date));
    var sorted := SortBy(q, NegYear);
    assert sorted[0] in multiset(sorted);
    assert sorted[0] in q;
  }

  /** The head of the sorted list is the first-listed change of its year,
      because the sort is stable and the filter keeps every change of that
      year. */
  lemma SortedHeadIsFirstOfItsYear(changes: seq<NameChange>, date: int) returns (i: int)
    requires |SortBy(Filter(changes, Applies(date)), NegYear)| > 0
    ensures var sorted := SortBy(Filter(changes, Applies(date)), NegYear);
      && 0 <= i < |changes| && changes[i] == sorted[0]
      && forall j :: 0 <= j < i ==> changes[j].year != sorted[0].year
  {
    var q := Filter(changes, Applies(date));
    var sorted := SortBy(q, NegYear);
    SortedHeadApplies(changes, date);
    var c := sorted[0];
    var k := NegYear(c);
    var w :| 0 <= w < |changes| && changes[w] == c;
    assert NegYear(changes[w]) == k;
    i := FirstWithKey(changes, NegYear, k);
    WithKeyHead(changes, NegYear, k, i);
    forall x | NegYear(x) == k
      ensures Applies(date)(x)
    {
      assert x.year == c.year;
    }
    FilterWithKey(changes, Applies(date), NegYear, k);
    assert WithKey(sorted, NegYear, k) == WithKey(q, NegYear, k);
    WithKeyHead(sorted, NegYear, k, 0);
    forall j | 0 <= j < i
      ensures changes[j].year != c.year
    {
      assert NegYear(changes[j]) != k;
    }
  }

  /** No change that has taken effect is later than the head of the sorted
      list. */
  lemma SortedHeadIsLatest(changes: seq<NameChange>, date: int)
    requires |SortBy(Filter(changes, Applies(date)), NegYear)| > 0
    ensures var sorted := SortBy(Filter(changes, Applies(date)), NegYear);
      forall j :: 0 <= j < |changes| && changes[j].year <= date ==> changes[j].year <= sorted[0].year
  {
    var q := Filter(changes, Applies(date));
    var sorted := SortBy(q, NegYear);
    forall j | 0 <= j < |changes| && changes[j].year <= date
      ensures changes[j].year <= sorted[0].year
    {
      assert changes[j] in q;
      assert changes[j] in multiset(sorted);
      var p :| 0 <= p < |sorted| && sorted[p] == changes[j];
      if p > 0 {
        assert NegYear(sorted[0]) <= NegYear(sorted[p]);
      }
    }
  }

  /** The name the object list and the object dialog show: the latest
      applicable `nameChanges` entry, and the base name when none applies. */
  function DisplayName(o: MapObject, date: int): (r: string)
    ensures LatestIndex(o.nameChanges, date) == -1 ==> r == BaseDisplayName(o, date)
    ensures LatestIndex(o.nameChanges, date) >= 0 ==>
      r == o.nameChanges[LatestIndex(o.nameChanges, date)].newName
  {
    match ApplicableChange(o.nameChanges, date)
    case Some(c) => c.newName
    case None => BaseDisplayName(o, date)
  }

  /** The date line under the object dialog's title. */
  datatype DateDescription = Text(text: string) | Interval(from: int, to: int)

  function DescribeDates(o: MapObject): (r: DateDescription)
    ensures Present(o.customDate) ==> r == Text(o.customDate.value)
    ensures !Present(o.customDate) && o.id == DON_5 ==> r == Text(FIRST_MENTION)
    ensures !Present(o.customDate) && o.id != DON_5 ==> r == Interval(o.activeFrom, o.activeTo)
  {
    if Present(o.customDate) then Text(o.customDate.value)
    else if o.id == DON_5 then Text(FIRST_MENTION)
    else Interval(o.activeFrom, o.activeTo)
  }
}
