/** Markers and what each one displays. The popup text and the icon HTML
    are formatted from the vehicle; the formatting itself is left abstract,
    so each is represented by the vehicle fields it is built from. */
module Markers {
  import opened Vehicles

  datatype LatLng = LatLng(lat: real, lon: real)

  /** `vehiclePopupHtml`: shows id, speed, direction and position. */
  datatype Popup = VehiclePopup(id: real, speed: real, direction: real, lat: real, lon: real)

  /** `vehicleDivIcon`: a fixed glyph rotated by `direction` degrees and
      labelled with the id. */
  datatype Icon = VehicleIcon(id: real, rotation: real)

  function PositionOf(v: VehicleState): LatLng
  {
    LatLng(v.lat, v.lon)
  }

  function PopupFor(v: VehicleState): (r: Popup)
    ensures r.id == v.id && r.speed == v.speed && r.direction == v.direction
    ensures r.lat == v.lat && r.lon == v.lon
  {
    VehiclePopup(v.id, v.speed, v.direction, v.lat, v.lon)
  }

  function IconFor(v: VehicleState): (r: Icon)
    ensures r.id == v.id && r.rotation == v.direction
  {
    VehicleIcon(v.id, v.direction)
  }

  /** The icon depends on the id and the heading only: position and speed
      changes leave it as it was. */
  lemma IconShowsIdAndHeading(v: VehicleState, w: VehicleState)
    ensures IconFor(v) == IconFor(w) <==> v.id == w.id && v.direction == w.direction
  {
  }

  /** `payload.map((v) => [v.lat, v.lon])`, the points handed to the fit. */
  function Positions(p: seq<VehicleState>): (r: seq<LatLng>)
    ensures |r| == |p|
    ensures forall i :: 0 <= i < |p| ==> r[i].lat == p[i].lat && r[i].lon == p[i].lon
  {
    seq(|p|, i requires 0 <= i < |p| => PositionOf(p[i]))
  }

  /** A marker on the map. `uid` tells one created marker object from
      another; `onClick` is the vehicle value the click handler closed over
      when the marker was created. */
  datatype Marker = Marker(uid: nat, position: LatLng, popup: Popup, icon: Icon, onClick: VehicleState)

  /** The marker's position, popup and icon all come from `v`. */
  predicate Shows(m: Marker, v: VehicleState)
  {
    m.position == PositionOf(v) && m.popup == PopupFor(v) && m.icon == IconFor(v)
  }

  /** `L.marker(...)`, `bindPopup` and `on("click", () => setSelected(v))`. */
  function NewMarker(uid: nat, v: VehicleState): (m: Marker)
    ensures m.uid == uid && m.onClick == v && Shows(m, v)
  {
    Marker(uid, PositionOf(v), PopupFor(v), IconFor(v), v)
  }

  /** `setLatLng`, `setPopupContent` and `setIcon` on an existing marker:
      the same object, now showing `v`, its click handler untouched. */
  function Refreshed(m: Marker, v: VehicleState): (m': Marker)
    ensures m'.uid == m.uid && m'.onClick == m.onClick && Shows(m', v)
  {
    m.(position := PositionOf(v), popup := PopupFor(v), icon := IconFor(v))
  }

  /** Creating a marker and refreshing one build position, popup and icon
      from the vehicle alone, so both show the same thing for the same
      vehicle whatever the marker showed before. */
  lemma SameDisplayOnCreateAndUpdate(m: Marker, uid: nat, v: VehicleState)
    ensures Refreshed(m, v).position == NewMarker(uid, v).position
    ensures Refreshed(m, v).popup == NewMarker(uid, v).popup
    ensures Refreshed(m, v).icon == NewMarker(uid, v).icon
  {
  }

  /** A marker is determined by its identity, its click value and what it
      shows, so refreshing a marker with the value it already shows changes
      nothing. */
  lemma ShowsDetermines(m1: Marker, m2: Marker, v: VehicleState)
    requires Shows(m1, v) && Shows(m2, v)
    requires m1.uid == m2.uid && m1.onClick == m2.onClick
    ensures m1 == m2
  {
  }
}
