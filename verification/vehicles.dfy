/** The payload validator (`isVehicleStateArray`) and the typed view of an
    accepted payload. */
module Vehicles {
  import opened Wrappers
  import opened JsonValues

  /** One vehicle as the data endpoint reports it. The five fields are
      JavaScript numbers; the engine only copies them. */
  datatype VehicleState = VehicleState(id: real, lat: real, lon: real, speed: real, direction: real)

  /** Reading `value.key`: only objects carry named properties, so an
      array, a number or a string reads as `undefined` here. */
  function Property(value: Json, key: string): Option<Json>
  {
    if value.Object? && key in value.fields then Some(value.fields[key]) else None
  }

  /** `typeof p === "number"` for the result of a property read. */
  predicate IsNumber(p: Option<Json>)
  {
    p.Some? && p.value.Num?
  }

  /** `typeof v === "object" && v !== null`, which also holds for arrays. */
  predicate IsNonNullObject(value: Json)
  {
    value.Object? || value.Array?
  }

  /** The test `every` applies to one element of the payload. */
  predicate HasVehicleShape(value: Json)
    ensures HasVehicleShape(value) ==> value.Object?
  {
    && IsNonNullObject(value)
    && IsNumber(Property(value, "id"))
    && IsNumber(Property(value, "lat"))
    && IsNumber(Property(value, "lon"))
    && IsNumber(Property(value, "speed"))
    && IsNumber(Property(value, "direction"))
  }

  /** `isVehicleStateArray`: an array all of whose elements pass. */
  predicate IsVehicleStateArray(value: Json)
    ensures IsVehicleStateArray(value) ==>
              value.Array? && forall i :: 0 <= i < |value.elems| ==> value.elems[i].Object?
  {
    value.Array? && forall i :: 0 <= i < |value.elems| ==> HasVehicleShape(value.elems[i])
  }

  /** The five fields every accepted element carries. */
  const FieldNames: seq<string> := ["id", "lat", "lon", "speed", "direction"]

  /** An element passes exactly when it is a (non-array) object whose five
      fields are all present and numeric: an array element is rejected
      because it has none of the named properties. */
  lemma ShapeIsObjectWithNumericFields(value: Json)
    ensures HasVehicleShape(value) <==>
              value.Object? && forall k :: k in FieldNames ==> k in value.fields && value.fields[k].Num?
  {
  }

  /** The typed view of an element that passed; extra fields are dropped,
      as the engine never reads them. */
  function AsVehicle(value: Json): VehicleState
    requires HasVehicleShape(value)
  {
    VehicleState(value.fields["id"].n, value.fields["lat"].n, value.fields["lon"].n,
                 value.fields["speed"].n, value.fields["direction"].n)
  }

  /** Checks the elements front to back, as `every` does, and collects
      their typed views; one failing element fails the whole list. */
  function DecodeAll(elems: seq<Json>): (r: Option<seq<VehicleState>>)
    ensures r.Some? <==> forall i :: 0 <= i < |elems| ==> HasVehicleShape(elems[i])
    ensures r.Some? ==> |r.value| == |elems|
    ensures r.Some? ==> forall i :: 0 <= i < |elems| ==> r.value[i] == AsVehicle(elems[i])
  {
    if |elems| == 0 then Some([])
    else if !HasVehicleShape(elems[0]) then None
    else
      match DecodeAll(elems[1..])
      case None => None
      case Some(rest) => Some([AsVehicle(elems[0])] + rest)
  }

  /** The validator together with the typed payload it admits: `Some`
      exactly when `isVehicleStateArray` holds, and then one vehicle per
      element, in order. */
  function Validate(value: Json): (r: Option<seq<VehicleState>>)
    ensures r.Some? <==> IsVehicleStateArray(value)
    ensures r.Some? ==> |r.value| == |value.elems|
    ensures r.Some? ==> forall i :: 0 <= i < |value.elems| ==> r.value[i] == AsVehicle(value.elems[i])
  {
    if value.Array? then DecodeAll(value.elems) else None
  }

  /** The JSON object the data endpoint sends for one vehicle. */
  function Encode(v: VehicleState): Json
  {
    Object(map["id" := Num(v.id), "lat" := Num(v.lat), "lon" := Num(v.lon),
               "speed" := Num(v.speed), "direction" := Num(v.direction)])
  }

  /** The JSON array the data endpoint sends for a list of vehicles. */
  function EncodeAll(vs: seq<VehicleState>): Json
  {
    Array(seq(|vs|, i requires 0 <= i < |vs| => Encode(vs[i])))
  }

  /** Every well-formed payload passes the validator, and the typed view of
      it is exactly the list that was sent. */
  lemma EncodeAllValidates(vs: seq<VehicleState>)
    ensures Validate(EncodeAll(vs)) == Some(vs)
  {
    var j := EncodeAll(vs);
    forall i | 0 <= i < |vs|
      ensures HasVehicleShape(j.elems[i]) && AsVehicle(j.elems[i]) == vs[i]
    {
      assert j.elems[i] == Encode(vs[i]);
    }
    var r := Validate(j);
    assert r.Some?;
    assert r.value == vs;
  }

  /** A single bad element (here: one field that is not a number) rejects
      the whole payload, whatever the other elements are. */
  lemma OneBadElementRejects(elems: seq<Json>, i: nat)
    requires i < |elems|
    requires !HasVehicleShape(elems[i])
    ensures Validate(Array(elems)) == None
  {
  }

  /** The validation boundary: a numeric payload passes and yields one
      vehicle; the same payload with `lat` sent as a string is rejected. */
  lemma ValidationBoundary()
    ensures Validate(Array([Object(map["id" := Num(1.0), "lat" := Num(48.1), "lon" := Num(9.1),
                                       "speed" := Num(10.0), "direction" := Num(90.0)])]))
            == Some([VehicleState(1.0, 48.1, 9.1, 10.0, 90.0)])
    ensures Validate(Array([Object(map["id" := Num(1.0), "lat" := Str("48.1"), "lon" := Num(9.1),
                                       "speed" := Num(10.0), "direction" := Num(90.0)])]))
            == None
  {
    var good := Object(map["id" := Num(1.0), "lat" := Num(48.1), "lon" := Num(9.1),
                            "speed" := Num(10.0), "direction" := Num(90.0)]);
    assert HasVehicleShape(good);
    assert AsVehicle(good) == VehicleState(1.0, 48.1, 9.1, 10.0, 90.0);
    var r := Validate(Array([good]));
    assert r.Some? && |r.value| == 1 && r.value[0] == AsVehicle(good);
    assert r.value == [VehicleState(1.0, 48.1, 9.1, 10.0, 90.0)];
    var bad := Object(map["id" := Num(1.0), "lat" := Str("48.1"), "lon" := Num(9.1),
                           "speed" := Num(10.0), "direction" := Num(90.0)]);
    assert !IsNumber(Property(bad, "lat"));
  }
}
