/** The markers and labels the map draws for one year
    (src/components/HistoricalMap.tsx:27-29,122-195): which objects get one,
    its fill colour, its icon, its popup, and the layer list that is removed
    again on the next redraw. The map library itself is not modelled. */
module HistoricalMap {
  import opened MapTypes
  import opened Sequences
  import opened Resolution

  const SELECTED_COLOR: string := "#2C3E50"
  const UNSELECTED_COLOR: string := "#34495E"
  const AZOV_BADGE_SRC: string := "https://cdn.poehali.dev/files/f9f9b854-e9cc-4060-9735-11dd3f038112.png"
  const RAZDORSKAYA_SRC: string := "https://cdn.poehali.dev/files/4133b53a-a3be-4b7d-9e4f-0d7eb349b779.png"
  const RAZDORSKAYA_ALT: string := "Раздорская"
  const AZOV_PLAN_SRC: string := "https://cdn.poehali.dev/files/c8ffa25a-804c-4271-aeb2-b4f8566591e8.png"
  const AZOV_PLAN_ALT: string := "План осады и покорения Азова"
  const AZOV_PLAN_CAPTION: string := "План осады и покорения Азова русской армией в 1695 и 1696 годах"

  /** The marker's look: a fixed picture, or two concentric circles filled
      with a colour. */
  datatype Icon = ImageBadge(src: string) | Circle(fill: string)

  datatype PopupImage = NoImage | Picture(src: string, alt: string) | CaptionedPicture(src: string, alt: string, caption: string)

  datatype Popup = Popup(title: string, from: int, to: int, image: PopupImage, info: string)

  datatype Marker = Marker(id: string, lat: real, lng: real, icon: Icon, popup: Popup)

  /** What is added to the map: a marker, or the permanent label under it. */
  datatype Layer = MarkerLayer(marker: Marker) | LabelLayer(lat: real, lng: real, text: string)

  predicate IsSelected(o: MapObject, selected: Option<MapObject>) {
    selected.Some? && selected.value.id == o.id
  }

  function MarkerColor(o: MapObject, selected: bool): (r: string)
    ensures Present(o.color) ==> r == o.color.value
    ensures !Present(o.color) && selected ==> r == SELECTED_COLOR
    ensures !Present(o.color) && !selected ==> r == UNSELECTED_COLOR
  {
    if Present(o.color) then o.color.value
    else if selected then SELECTED_COLOR else UNSELECTED_COLOR
  }

  function MarkerIcon(o: MapObject, color: string): Icon {
    if o.id == DON_13 then ImageBadge(AZOV_BADGE_SRC) else Circle(color)
  }

  function PopupImageOf(o: MapObject): PopupImage {
    if o.id == DON_5 then Picture(RAZDORSKAYA_SRC, RAZDORSKAYA_ALT)
    else if o.id == DON_13 then CaptionedPicture(AZOV_PLAN_SRC, AZOV_PLAN_ALT, AZOV_PLAN_CAPTION)
    else NoImage
  }

  function MarkerFor(o: MapObject, date: int, selected: Option<MapObject>): (m: Marker)
    ensures m.id == o.id && m.lat == o.lat && m.lng == o.lng
    ensures m.icon.ImageBadge? <==> o.id == DON_13
    ensures o.id == DON_13 ==> m.icon == ImageBadge(AZOV_BADGE_SRC)
    ensures o.id != DON_13 ==> m.icon == Circle(MarkerColor(o, IsSelected(o, selected)))
    ensures m.popup.title == BaseDisplayName(o, date)
    ensures m.popup.from == o.activeFrom && m.popup.to == o.activeTo && m.popup.info == o.info
    ensures m.popup.image.Picture? <==> o.id == DON_5
    ensures m.popup.image.CaptionedPicture? <==> o.id == DON_13
    ensures m.popup.image.NoImage? <==> o.id != DON_5 && o.id != DON_13
    ensures o.id == DON_5 ==> m.popup.image == Picture(RAZDORSKAYA_SRC, RAZDORSKAYA_ALT)
    ensures o.id == DON_13 ==> m.popup.image == CaptionedPicture(AZOV_PLAN_SRC, AZOV_PLAN_ALT, AZOV_PLAN_CAPTION)
  {
    var color := MarkerColor(o, IsSelected(o, selected));
    Marker(o.id, o.lat, o.lng, MarkerIcon(o, color),
           Popup(BaseDisplayName(o, date), o.activeFrom, o.activeTo, PopupImageOf(o), o.info))
  }

  /** The map's names ignore `nameChanges`: two objects that differ only in
      them get the same marker. */
  lemma MarkerIgnoresNameChanges(o: MapObject, changes: seq<NameChange>, date: int, selected: Option<MapObject>)
    ensures MarkerFor(o.(nameChanges := changes), date, selected) == MarkerFor(o, date, selected)
  {
  }

  function MarkerAt(date: int, selected: Option<MapObject>): MapObject -> Marker {
    (o: MapObject) => MarkerFor(o, date, selected)
  }

  /** One marker per object that exists at `date`, in catalog order. */
  function Markers(objects: seq<MapObject>, date: int, selected: Option<MapObject>): (r: seq<Marker>)
    ensures |r| == |ActiveObjects(objects, date)|
    ensures forall i :: 0 <= i < |r| ==> r[i] == MarkerFor(ActiveObjects(objects, date)[i], date, selected)
  {
    MapSeq(ActiveObjects(objects, date), MarkerAt(date, selected))
  }

  /** The layers added for the markers, each marker followed by its label. */
  function Layers(markers: seq<Marker>): (r: seq<Layer>)
    ensures |r| == 2 * |markers|
    ensures forall i :: 0 <= i < |markers| ==>
      && r[2 * i] == MarkerLayer(markers[i])
      && r[2 * i + 1] == LabelLayer(markers[i].lat, markers[i].lng, markers[i].popup.title)
  {
    if |markers| == 0 then []
    else
      var m := markers[0];
      var rest := Layers(markers[1..]);
      var r := [MarkerLayer(m), LabelLayer(m.lat, m.lng, m.popup.title)] + rest;
      assert forall i :: 1 <= i < |markers| ==> markers[1..][i - 1] == markers[i];
      assert forall j :: 0 <= j < |rest| ==> r[j + 2] == rest[j];
      r
  }
}
