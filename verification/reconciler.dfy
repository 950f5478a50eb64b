/** The reconcile step of `refresh`: the upsert loop over the payload, then
    the sweep over the registry, with the selection updates they make. */
module Reconciler {
  import opened Wrappers
  import opened Vehicles
  import opened Markers
  import opened Snapshots

  /** The marker registry, `markersRef`: vehicle id to marker. */
  type Registry = map<real, Marker>

  /** Markers carry distinct uids below the next one to hand out, and each
      marker's click value is the vehicle of its own key. */
  ghost predicate WellFormed(registry: Registry, nextUid: nat)
  {
    && (forall id :: id in registry ==> registry[id].uid < nextUid && registry[id].onClick.id == id)
    && (forall id1, id2 :: id1 in registry && id2 in registry && id1 != id2 ==>
          registry[id1].uid != registry[id2].uid)
  }

  /** A selection refers to a vehicle that has a marker. */
  ghost predicate Coherent(registry: Registry, selected: Option<VehicleState>)
  {
    selected.Some? ==> selected.value.id in registry
  }

  function SelectedId(selected: Option<VehicleState>): Option<real>
  {
    if selected.Some? then Some(selected.value.id) else None
  }

  /** The state the upsert loop threads through the payload; `selected` is
      the value the last `setSelected` call left. */
  datatype Pass = Pass(registry: Registry, nextUid: nat, selected: Option<VehicleState>, created: set<real>)

  /** One iteration of the upsert loop. `selectedId` is `selectedIdRef`,
      which keeps its value for the whole refresh. */
  function ApplyOne(a: Pass, selectedId: Option<real>, v: VehicleState): (r: Pass)
    ensures r.registry.Keys == a.registry.Keys + {v.id}
    ensures v.id in r.registry && Shows(r.registry[v.id], v)
    ensures forall id :: id in a.registry && id != v.id ==> r.registry[id] == a.registry[id]
    ensures v.id in a.registry ==>
              && r.registry[v.id].uid == a.registry[v.id].uid
              && r.registry[v.id].onClick == a.registry[v.id].onClick
              && r.nextUid == a.nextUid && r.created == a.created
    ensures v.id !in a.registry ==>
              && r.registry[v.id].uid == a.nextUid && r.registry[v.id].onClick == v
              && r.nextUid == a.nextUid + 1 && r.created == a.created + {v.id}
    ensures r.selected == (if v.id in a.registry && selectedId == Some(v.id) then Some(v) else a.selected)
  {
    if v.id in a.registry then
      a.(registry := a.registry[v.id := Refreshed(a.registry[v.id], v)],
         selected := if selectedId == Some(v.id) then Some(v) else a.selected)
    else
      a.(registry := a.registry[v.id := NewMarker(a.nextUid, v)],
         nextUid := a.nextUid + 1,
         created := a.created + {v.id})
  }

  /** The upsert loop over the whole payload, in order. */
  function UpsertAll(a: Pass, selectedId: Option<real>, p: seq<VehicleState>): (r: Pass)
    ensures r.registry.Keys == a.registry.Keys + Ids(p)
    decreases |p|
  {
    if |p| == 0 then a
    else
      IdsSnoc(p);
      ApplyOne(UpsertAll(a, selectedId, p[..|p|-1]), selectedId, p[|p|-1])
  }

  /** Ids the payload does not mention keep their marker untouched. */
  lemma {:induction false} UpsertKeepsUnseen(a: Pass, selectedId: Option<real>, p: seq<VehicleState>)
    ensures forall id :: id in a.registry && id !in Ids(p) ==>
              UpsertAll(a, selectedId, p).registry[id] == a.registry[id]
    decreases |p|
  {
    if |p| > 0 {
      IdsSnoc(p);
      UpsertKeepsUnseen(a, selectedId, p[..|p|-1]);
    }
  }

  /** A marker that existed before the loop keeps its uid and click value. */
  lemma {:induction false} UpsertKeepsIdentity(a: Pass, selectedId: Option<real>, p: seq<VehicleState>)
    ensures forall id :: id in a.registry ==>
              && UpsertAll(a, selectedId, p).registry[id].uid == a.registry[id].uid
              && UpsertAll(a, selectedId, p).registry[id].onClick == a.registry[id].onClick
    decreases |p|
  {
    if |p| > 0 {
      UpsertKeepsIdentity(a, selectedId, p[..|p|-1]);
    }
  }

  /** Every mentioned id ends up showing its last occurrence in the payload. */
  lemma {:induction false} UpsertShowsLast(a: Pass, selectedId: Option<real>, p: seq<VehicleState>)
    ensures forall id :: id in Ids(p) ==>
              Shows(UpsertAll(a, selectedId, p).registry[id], p[LastIndexOf(p, id)])
    decreases |p|
  {
    if |p| > 0 {
      var q := p[..|p|-1];
      IdsSnoc(p);
      UpsertShowsLast(a, selectedId, q);
      forall id | id in Ids(p)
        ensures Shows(UpsertAll(a, selectedId, p).registry[id], p[LastIndexOf(p, id)])
      {
        if id != p[|p|-1].id {
          assert LastIndexOf(p, id) == LastIndexOf(q, id);
        }
      }
    }
  }

  /** `created` collects exactly the ids that were new to the registry. */
  lemma {:induction false} UpsertCollectsCreated(a: Pass, selectedId: Option<real>, p: seq<VehicleState>)
    ensures UpsertAll(a, selectedId, p).created == a.created + (Ids(p) - a.registry.Keys)
    decreases |p|
  {
    if |p| > 0 {
      var q := p[..|p|-1];
      IdsSnoc(p);
      UpsertCollectsCreated(a, selectedId, q);
    }
  }

  /** One uid is used per id that was new to the registry. */
  lemma {:induction false} UpsertCountsUids(a: Pass, selectedId: Option<real>, p: seq<VehicleState>)
    ensures UpsertAll(a, selectedId, p).nextUid == a.nextUid + |Ids(p) - a.registry.Keys|
    decreases |p|
  {
    if |p| > 0 {
      var q := p[..|p|-1];
      var x := p[|p|-1];
      IdsSnoc(p);
      UpsertCountsUids(a, selectedId, q);
      var b := UpsertAll(a, selectedId, q);
      NewIdsStep(Ids(q), a.registry.Keys, x.id, x.id in b.registry);
    }
  }

  lemma NewIdsStep(seen: set<real>, existing: set<real>, id: real, known: bool)
    requires known <==> id in existing + seen
    ensures |(seen + {id}) - existing| == |seen - existing| + (if known then 0 else 1)
  {
    if known {
      assert (seen + {id}) - existing == seen - existing;
    } else {
      assert (seen + {id}) - existing == (seen - existing) + {id};
    }
  }

  /** A marker made by the loop carries a uid from the range the loop
      handed out. */
  lemma {:induction false} UpsertFreshUids(a: Pass, selectedId: Option<real>, p: seq<VehicleState>)
    ensures forall id :: id in Ids(p) && id !in a.registry ==>
              a.nextUid <= UpsertAll(a, selectedId, p).registry[id].uid < UpsertAll(a, selectedId, p).nextUid
    decreases |p|
  {
    if |p| > 0 {
      var q := p[..|p|-1];
      IdsSnoc(p);
      UpsertFreshUids(a, selectedId, q);
      UpsertGrowsUid(a, selectedId, q);
      var b := UpsertAll(a, selectedId, q);
      assert UpsertAll(a, selectedId, p) == ApplyOne(b, selectedId, p[|p|-1]);
    }
  }

  /** A marker made by the loop keeps, in its click handler, the id's first
      occurrence in the payload. */
  lemma {:induction false} UpsertClickFirst(a: Pass, selectedId: Option<real>, p: seq<VehicleState>)
    ensures forall id :: id in Ids(p) && id !in a.registry ==>
              UpsertAll(a, selectedId, p).registry[id].onClick == p[FirstIndexOf(p, id)]
    decreases |p|
  {
    if |p| > 0 {
      var q := p[..|p|-1];
      IdsSnoc(p);
      UpsertClickFirst(a, selectedId, q);
      var b := UpsertAll(a, selectedId, q);
      var r := ApplyOne(b, selectedId, p[|p|-1]);
      assert UpsertAll(a, selectedId, p) == r;
      forall id | id in Ids(p) && id !in a.registry
        ensures r.registry[id].onClick == p[FirstIndexOf(p, id)]
      {
        if id in Ids(q) {
          assert FirstIndexOf(p, id) == FirstIndexOf(q, id);
        }
      }
    }
  }

  /** A marker made by the loop carries a uid from the range the loop
      handed out, and its click value is the id's first occurrence. */
  lemma UpsertCreatesFresh(a: Pass, selectedId: Option<real>, p: seq<VehicleState>)
    ensures forall id :: id in Ids(p) && id !in a.registry ==>
              && a.nextUid <= UpsertAll(a, selectedId, p).registry[id].uid < UpsertAll(a, selectedId, p).nextUid
              && UpsertAll(a, selectedId, p).registry[id].onClick == p[FirstIndexOf(p, id)]
  {
    UpsertFreshUids(a, selectedId, p);
    UpsertClickFirst(a, selectedId, p);
  }

  lemma {:induction false} UpsertGrowsUid(a: Pass, selectedId: Option<real>, p: seq<VehicleState>)
    ensures a.nextUid <= UpsertAll(a, selectedId, p).nextUid
    decreases |p|
  {
    if |p| > 0 {
      UpsertGrowsUid(a, selectedId, p[..|p|-1]);
    }
  }

  /** One iteration keeps uids distinct and below the next free uid, and
      every click value belongs to its own key. */
  lemma ApplyOnePreservesWellFormed(b: Pass, selectedId: Option<real>, x: VehicleState)
    requires WellFormed(b.registry, b.nextUid)
    ensures WellFormed(ApplyOne(b, selectedId, x).registry, ApplyOne(b, selectedId, x).nextUid)
  {
    var r := ApplyOne(b, selectedId, x);
    if x.id in b.registry {
      forall id | id in r.registry
        ensures r.registry[id].uid == b.registry[id].uid && r.registry[id].onClick == b.registry[id].onClick
      {
      }
    } else {
      forall id | id in r.registry && id != x.id
        ensures r.registry[id] == b.registry[id]
      {
      }
    }
  }

  /** The loop keeps uids distinct and below the next free uid, and every
      click value belongs to its own key. */
  lemma {:induction false} UpsertPreservesWellFormed(a: Pass, selectedId: Option<real>, p: seq<VehicleState>)
    requires WellFormed(a.registry, a.nextUid)
    ensures WellFormed(UpsertAll(a, selectedId, p).registry, UpsertAll(a, selectedId, p).nextUid)
    decreases |p|
  {
    if |p| > 0 {
      UpsertPreservesWellFormed(a, selectedId, p[..|p|-1]);
      ApplyOnePreservesWellFormed(UpsertAll(a, selectedId, p[..|p|-1]), selectedId, p[|p|-1]);
    }
  }

  /** What the loop leaves in the selection: a selected id the payload does
      not mention is not touched; otherwise the selection becomes the last
      occurrence, unless the id had no marker and occurs only once (the one
      occurrence takes the create path, which does not select). */
  lemma {:induction false} UpsertSelection(a: Pass, s: real, p: seq<VehicleState>)
    ensures var r := UpsertAll(a, Some(s), p);
            && (s !in Ids(p) ==> r.selected == a.selected)
            && (s in Ids(p) && s in a.registry ==> r.selected == Some(p[LastIndexOf(p, s)]))
            && (s in Ids(p) && s !in a.registry ==>
                  r.selected == if FirstIndexOf(p, s) == LastIndexOf(p, s) then a.selected
                                else Some(p[LastIndexOf(p, s)]))
    decreases |p|
  {
    if |p| > 0 {
      var q := p[..|p|-1];
      var x := p[|p|-1];
      IdsSnoc(p);
      UpsertSelection(a, s, q);
      var b := UpsertAll(a, Some(s), q);
      assert UpsertAll(a, Some(s), p) == ApplyOne(b, Some(s), x);
      if x.id != s {
        assert UpsertAll(a, Some(s), p).selected == b.selected;
        if s in Ids(p) {
          assert LastIndexOf(p, s) == LastIndexOf(q, s);
          assert FirstIndexOf(p, s) == FirstIndexOf(q, s);
        }
      } else {
        assert LastIndexOf(p, s) == |p| - 1;
        if s in Ids(q) {
          assert s in b.registry;
          assert FirstIndexOf(p, s) == FirstIndexOf(q, s);
        } else {
          assert FirstIndexOf(p, s) == |p| - 1;
        }
      }
    }
  }

  /** With no selection the loop never selects anything. */
  lemma {:induction false} UpsertNoSelection(a: Pass, p: seq<VehicleState>)
    ensures UpsertAll(a, None, p).selected == a.selected
    decreases |p|
  {
    if |p| > 0 {
      UpsertNoSelection(a, p[..|p|-1]);
    }
  }

  /** The result of one reconcile. */
  datatype Reconciled = Reconciled(registry: Registry, selected: Option<VehicleState>, nextUid: nat,
                                   created: set<real>, removed: set<real>)

  /** The sweep over the registry after the upsert loop: every entry whose
      id was not seen is removed, clearing the selection when it was the
      selected id. */
  function Sweep(u: Pass, selectedId: Option<real>, seen: set<real>): (r: Reconciled)
    ensures r.registry.Keys == u.registry.Keys * seen
    ensures forall id :: id in r.registry ==> r.registry[id] == u.registry[id]
    ensures r.removed == u.registry.Keys - seen
  {
    var removed := u.registry.Keys - seen;
    Reconciled(map id | id in u.registry && id in seen :: u.registry[id],
               if selectedId.Some? && selectedId.value in removed then None else u.selected,
               u.nextUid,
               u.created,
               removed)
  }

  /** The upsert loop followed by the sweep. */
  function Reconcile(registry: Registry, selected: Option<VehicleState>, nextUid: nat,
                     p: seq<VehicleState>): (r: Reconciled)
    ensures r.registry.Keys == Ids(p)
  {
    Sweep(UpsertAll(Pass(registry, nextUid, selected, {}), SelectedId(selected), p), SelectedId(selected), Ids(p))
  }

  /** Only ids new to the registry get a marker created, and only ids the
      payload no longer mentions lose theirs. */
  lemma ReconcileCreatesAndRemoves(registry: Registry, selected: Option<VehicleState>, nextUid: nat,
                                   p: seq<VehicleState>)
    ensures var r := Reconcile(registry, selected, nextUid, p);
            && r.created == Ids(p) - registry.Keys
            && r.removed == registry.Keys - Ids(p)
  {
    UpsertCollectsCreated(Pass(registry, nextUid, selected, {}), SelectedId(selected), p);
  }

  /** One uid is used per created marker. */
  lemma ReconcileCountsUids(registry: Registry, selected: Option<VehicleState>, nextUid: nat,
                            p: seq<VehicleState>)
    ensures var r := Reconcile(registry, selected, nextUid, p);
            r.nextUid == nextUid + |Ids(p) - registry.Keys|
  {
    UpsertCountsUids(Pass(registry, nextUid, selected, {}), SelectedId(selected), p);
  }

  /** A vehicle that already had a marker keeps that marker (same uid, same
      click value) and the marker now shows the vehicle's last occurrence. */
  lemma ReconcileUpdatesInPlace(registry: Registry, selected: Option<VehicleState>, nextUid: nat,
                                p: seq<VehicleState>, id: real)
    requires id in registry && id in Ids(p)
    ensures var r := Reconcile(registry, selected, nextUid, p);
            && r.registry[id].uid == registry[id].uid
            && r.registry[id].onClick == registry[id].onClick
            && Shows(r.registry[id], p[LastIndexOf(p, id)])
  {
    var a := Pass(registry, nextUid, selected, {});
    UpsertKeepsIdentity(a, SelectedId(selected), p);
    UpsertShowsLast(a, SelectedId(selected), p);
  }

  /** A vehicle without a marker gets a new one: a uid never handed out
      before, a click handler holding the id's first occurrence, and the
      content of its last occurrence. */
  lemma ReconcileCreatesFresh(registry: Registry, selected: Option<VehicleState>, nextUid: nat,
                              p: seq<VehicleState>, id: real)
    requires id !in registry && id in Ids(p)
    ensures var r := Reconcile(registry, selected, nextUid, p);
            && nextUid <= r.registry[id].uid < r.nextUid
            && r.registry[id].onClick == p[FirstIndexOf(p, id)]
            && Shows(r.registry[id], p[LastIndexOf(p, id)])
  {
    var a := Pass(registry, nextUid, selected, {});
    UpsertCreatesFresh(a, SelectedId(selected), p);
    UpsertShowsLast(a, SelectedId(selected), p);
  }

  /** With a coherent selection, a selected vehicle the payload mentions is
      replaced by its last occurrence, and one it does not mention is
      cleared. */
  lemma ReconcileSelection(registry: Registry, selected: Option<VehicleState>, nextUid: nat,
                           p: seq<VehicleState>)
    requires Coherent(registry, selected)
    ensures var r := Reconcile(registry, selected, nextUid, p);
            && (selected.None? ==> r.selected.None?)
            && (selected.Some? && selected.value.id in Ids(p) ==>
                  r.selected == Some(p[LastIndexOf(p, selected.value.id)]))
            && (selected.Some? && selected.value.id !in Ids(p) ==> r.selected.None?)
  {
    var a := Pass(registry, nextUid, selected, {});
    if selected.Some? {
      UpsertSelection(a, selected.value.id, p);
    } else {
      UpsertNoSelection(a, p);
    }
  }

  /** Reconcile keeps the registry well formed and the selection coherent. */
  lemma ReconcilePreservesInvariant(registry: Registry, selected: Option<VehicleState>, nextUid: nat,
                                    p: seq<VehicleState>)
    requires WellFormed(registry, nextUid) && Coherent(registry, selected)
    ensures var r := Reconcile(registry, selected, nextUid, p);
            WellFormed(r.registry, r.nextUid) && Coherent(r.registry, r.selected)
  {
    var a := Pass(registry, nextUid, selected, {});
    UpsertPreservesWellFormed(a, SelectedId(selected), p);
    ReconcileSelection(registry, selected, nextUid, p);
  }

  /** One marker after a second reconcile of the same snapshot: equal to
      the marker after the first. */
  lemma ReconcileIdempotentAt(registry: Registry, selected: Option<VehicleState>, nextUid: nat,
                              p: seq<VehicleState>, id: real)
    requires id in Ids(p)
    ensures var r1 := Reconcile(registry, selected, nextUid, p);
            var r2 := Reconcile(r1.registry, r1.selected, r1.nextUid, p);
            r2.registry[id] == r1.registry[id]
  {
    var r1 := Reconcile(registry, selected, nextUid, p);
    var r2 := Reconcile(r1.registry, r1.selected, r1.nextUid, p);
    ReconcileUpdatesInPlace(r1.registry, r1.selected, r1.nextUid, p, id);
    if id in registry {
      ReconcileUpdatesInPlace(registry, selected, nextUid, p, id);
    } else {
      ReconcileCreatesFresh(registry, selected, nextUid, p, id);
    }
    ShowsDetermines(r2.registry[id], r1.registry[id], p[LastIndexOf(p, id)]);
  }

  /** The registry after a second reconcile of the same snapshot is the
      registry after the first. */
  lemma ReconcileIdempotentRegistry(registry: Registry, selected: Option<VehicleState>, nextUid: nat,
                                    p: seq<VehicleState>)
    ensures var r1 := Reconcile(registry, selected, nextUid, p);
            Reconcile(r1.registry, r1.selected, r1.nextUid, p).registry == r1.registry
  {
    var r1 := Reconcile(registry, selected, nextUid, p);
    var r2 := Reconcile(r1.registry, r1.selected, r1.nextUid, p);
    forall id | id in r1.registry
      ensures r2.registry[id] == r1.registry[id]
    {
      ReconcileIdempotentAt(registry, selected, nextUid, p, id);
    }
  }

  /** Reconciling the same snapshot a second time creates and removes
      nothing and leaves registry, selection and uid counter as they were. */
  lemma ReconcileIdempotent(registry: Registry, selected: Option<VehicleState>, nextUid: nat,
                            p: seq<VehicleState>)
    requires Coherent(registry, selected)
    ensures var r1 := Reconcile(registry, selected, nextUid, p);
            var r2 := Reconcile(r1.registry, r1.selected, r1.nextUid, p);
            && r2.created == {} && r2.removed == {}
            && r2.registry == r1.registry
            && r2.selected == r1.selected
            && r2.nextUid == r1.nextUid
  {
    var r1 := Reconcile(registry, selected, nextUid, p);
    ReconcileCreatesAndRemoves(r1.registry, r1.selected, r1.nextUid, p);
    ReconcileCountsUids(r1.registry, r1.selected, r1.nextUid, p);
    assert Ids(p) - r1.registry.Keys == {};
    ReconcileSelection(registry, selected, nextUid, p);
    ReconcileSelection(r1.registry, r1.selected, r1.nextUid, p);
    ReconcileIdempotentRegistry(registry, selected, nextUid, p);
  }
}
