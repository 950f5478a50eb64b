/** Facts about one validated snapshot: the ids it mentions and where each
    id first and last occurs (a payload may repeat an id). */
module Snapshots {
  import opened Vehicles

  /** The `seen` set the reconcile loop builds. */
  function Ids(p: seq<VehicleState>): set<real>
  {
    set v | v in p :: v.id
  }

  lemma IdsSnoc(p: seq<VehicleState>)
    requires |p| > 0
    ensures Ids(p) == Ids(p[..|p|-1]) + {p[|p|-1].id}
  {
    assert p == p[..|p|-1] + [p[|p|-1]];
  }

  lemma InIds(p: seq<VehicleState>, i: nat)
    requires i < |p|
    ensures p[i].id in Ids(p)
  {
    assert p[i] in p;
  }

  /** The position of the last occurrence of `id`. */
  function LastIndexOf(p: seq<VehicleState>, id: real): (i: nat)
    requires id in Ids(p)
    ensures i < |p| && p[i].id == id
    ensures forall j :: i < j < |p| ==> p[j].id != id
  {
    IdsSnoc(p);
    if p[|p|-1].id == id then |p| - 1 else LastIndexOf(p[..|p|-1], id)
  }

  /** The position of the first occurrence of `id`. */
  function FirstIndexOf(p: seq<VehicleState>, id: real): (i: nat)
    requires id in Ids(p)
    ensures i < |p| && p[i].id == id
    ensures forall j :: 0 <= j < i ==> p[j].id != id
  {
    IdsSnoc(p);
    if id in Ids(p[..|p|-1]) then FirstIndexOf(p[..|p|-1], id) else NotInIdsPrefix(p, id); |p| - 1
  }

  lemma NotInIdsPrefix(p: seq<VehicleState>, id: real)
    requires |p| > 0 && id !in Ids(p[..|p|-1])
    ensures forall j :: 0 <= j < |p| - 1 ==> p[j].id != id
  {
    forall j | 0 <= j < |p| - 1
      ensures p[j].id != id
    {
      InIds(p[..|p|-1], j);
    }
  }
}
