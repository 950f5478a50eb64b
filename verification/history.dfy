/** Sequences of refresh cycles and marker clicks, as the component sees
    them over its lifetime. */
module History {
  import opened Wrappers
  import opened JsonValues
  import opened Vehicles
  import opened Markers
  import opened Snapshots
  import opened Reconciler
  import opened Engine

  datatype Event = Refresh(outcome: FetchOutcome, mapReady: bool) | ClickMarker(id: real)

  function Apply(e: EngineState, ev: Event): Transition
  {
    match ev
    case Refresh(outcome, mapReady) => Step(e, outcome, mapReady)
    case ClickMarker(id) => Transition(Click(e, id), NoEffects)
  }

  /** The final state and every viewport fit emitted on the way, in order. */
  datatype Trace = Trace(state: EngineState, fits: seq<seq<LatLng>>)

  function FitsOf(effects: Effects): seq<seq<LatLng>>
  {
    if effects.fit.Some? then [effects.fit.value] else []
  }

  /** The events in order from `e`: a fit flag once set stays set, and
      each event emits at most one fit. */
  function Run(e: EngineState, evs: seq<Event>): (r: Trace)
    ensures |r.fits| <= |evs|
    ensures e.firstFitDone ==> r.state.firstFitDone && r.fits == []
    decreases |evs|
  {
    if |evs| == 0 then Trace(e, [])
    else
      var before := Run(e, evs[..|evs|-1]);
      var t := Apply(before.state, evs[|evs|-1]);
      Trace(t.state, before.fits + FitsOf(t.effects))
  }

  /** A refresh that reconciles the markers: valid payload, map ready. */
  predicate Reconciles(ev: Event)
  {
    ev.Refresh? && ev.mapReady && ev.outcome.Payload? && IsVehicleStateArray(ev.outcome.body)
  }

  function SnapshotOf(ev: Event): seq<VehicleState>
    requires Reconciles(ev)
  {
    Validate(ev.outcome.body).value
  }

  /** A refresh that reconciles a non-empty snapshot. */
  predicate Triggers(ev: Event)
  {
    Reconciles(ev) && |ev.outcome.body.elems| > 0
  }

  /** A click or a refresh emits a fit exactly when the flag is down and it
      is a trigger; only then is the flag raised. */
  lemma ApplyFit(e: EngineState, ev: Event)
    ensures var t := Apply(e, ev);
            && (t.effects.fit.Some? <==> !e.firstFitDone && Triggers(ev))
            && (t.effects.fit.Some? ==> t.effects.fit.value == Positions(SnapshotOf(ev)))
            && t.state.firstFitDone == (e.firstFitDone || Triggers(ev))
  {
  }

  /** The flag ends up raised exactly when it was up already or some
      refresh of the run reconciled a non-empty snapshot. */
  lemma {:induction false} RunFitFlag(e: EngineState, evs: seq<Event>)
    ensures Run(e, evs).state.firstFitDone == (e.firstFitDone || exists i :: 0 <= i < |evs| && Triggers(evs[i]))
    decreases |evs|
  {
    if |evs| > 0 {
      var q := evs[..|evs|-1];
      RunFitFlag(e, q);
      ApplyFit(Run(e, q).state, evs[|evs|-1]);
      assert forall i :: 0 <= i < |q| ==> q[i] == evs[i];
      if exists i :: 0 <= i < |evs| && Triggers(evs[i]) {
        var i :| 0 <= i < |evs| && Triggers(evs[i]);
        if i < |q| {
          assert Triggers(q[i]);
        }
      }
    }
  }

  /** At most one fit per run, none once the flag is up, and a run that
      fitted leaves the flag up. */
  lemma {:induction false} RunFitsBounded(e: EngineState, evs: seq<Event>)
    ensures var r := Run(e, evs);
            && |r.fits| <= 1
            && (r.fits != [] ==> r.state.firstFitDone)
            && (e.firstFitDone ==> r.fits == [] && r.state.firstFitDone)
    decreases |evs|
  {
    if |evs| > 0 {
      var q := evs[..|evs|-1];
      RunFitsBounded(e, q);
      ApplyFit(Run(e, q).state, evs[|evs|-1]);
    }
  }

  /** With the flag down, the run fits exactly when some refresh reconciles
      a non-empty snapshot. */
  lemma {:induction false} RunFitsIffTrigger(e: EngineState, evs: seq<Event>)
    requires !e.firstFitDone
    ensures Run(e, evs).fits == [] <==> forall i :: 0 <= i < |evs| ==> !Triggers(evs[i])
    decreases |evs|
  {
    if |evs| > 0 {
      var q := evs[..|evs|-1];
      RunFitsIffTrigger(e, q);
      RunFitFlag(e, q);
      RunFitsBounded(e, q);
      ApplyFit(Run(e, q).state, evs[|evs|-1]);
      assert forall i :: 0 <= i < |q| ==> q[i] == evs[i];
      if Run(e, evs).fits == [] {
        assert Run(e, q).fits == [];
      }
    }
  }

  /** With the flag down, the fit of a run covers the first snapshot that
      is reconciled non-empty. */
  lemma {:induction false} RunFitsFirstTrigger(e: EngineState, evs: seq<Event>, i: nat)
    requires !e.firstFitDone
    requires i < |evs| && Triggers(evs[i])
    requires forall j :: 0 <= j < i ==> !Triggers(evs[j])
    ensures Run(e, evs).fits == [Positions(SnapshotOf(evs[i]))]
    decreases |evs|
  {
    var q := evs[..|evs|-1];
    assert forall k :: 0 <= k < |q| ==> q[k] == evs[k];
    var before := Run(e, q);
    if i < |q| {
      RunFitsFirstTrigger(e, q, i);
      RunFitsBounded(e, q);
      ApplyFit(before.state, evs[|evs|-1]);
    } else {
      RunFitsIffTrigger(e, q);
      RunFitFlag(e, q);
      ApplyFit(before.state, evs[|evs|-1]);
    }
  }

  /** Over any run the viewport is fitted at most once: never if the flag
      was already up, otherwise exactly when some refresh reconciles a
      non-empty snapshot, and then to the positions of the first such
      snapshot. The flag ends up raised exactly when a fit happened or it
      was up already. */
  lemma RunFitsAtMostOnce(e: EngineState, evs: seq<Event>)
    ensures var r := Run(e, evs);
            && |r.fits| <= 1
            && (e.firstFitDone ==> r.fits == [] && r.state.firstFitDone)
            && (!e.firstFitDone ==> (r.fits == [] <==> forall i :: 0 <= i < |evs| ==> !Triggers(evs[i])))
            && (!e.firstFitDone ==>
                  forall i :: 0 <= i < |evs| && Triggers(evs[i]) && (forall j :: 0 <= j < i ==> !Triggers(evs[j])) ==>
                    r.fits == [Positions(SnapshotOf(evs[i]))])
            && r.state.firstFitDone == (e.firstFitDone || exists i :: 0 <= i < |evs| && Triggers(evs[i]))
  {
    RunFitFlag(e, evs);
    RunFitsBounded(e, evs);
    if !e.firstFitDone {
      RunFitsIffTrigger(e, evs);
      forall i | 0 <= i < |evs| && Triggers(evs[i]) && (forall j :: 0 <= j < i ==> !Triggers(evs[j]))
        ensures Run(e, evs).fits == [Positions(SnapshotOf(evs[i]))]
      {
        RunFitsFirstTrigger(e, evs, i);
      }
    }
  }

  /** Failed, aborted and map-less refreshes and clicks leave the marker
      registry as it was. */
  lemma ApplyKeepsRegistry(e: EngineState, ev: Event)
    requires !Reconciles(ev)
    ensures Apply(e, ev).state.registry == e.registry
  {
  }

  /** A run without any reconcile leaves the registry untouched. */
  lemma {:induction false} RunWithoutReconcileKeepsRegistry(e: EngineState, evs: seq<Event>)
    requires forall i :: 0 <= i < |evs| ==> !Reconciles(evs[i])
    ensures Run(e, evs).state.registry == e.registry
    decreases |evs|
  {
    if |evs| > 0 {
      var q := evs[..|evs|-1];
      assert forall i :: 0 <= i < |q| ==> q[i] == evs[i];
      RunWithoutReconcileKeepsRegistry(e, q);
      ApplyKeepsRegistry(Run(e, q).state, evs[|evs|-1]);
    }
  }

  /** The registry's key set is the id set of the last snapshot that was
      reconciled, whatever came before it and whatever failed after it. */
  lemma {:induction false} RunRegistryMatchesLastSnapshot(e: EngineState, evs: seq<Event>, i: nat)
    requires i < |evs| && Reconciles(evs[i])
    requires forall j :: i < j < |evs| ==> !Reconciles(evs[j])
    ensures Run(e, evs).state.registry.Keys == Ids(SnapshotOf(evs[i]))
    decreases |evs|
  {
    var q := evs[..|evs|-1];
    var x := evs[|evs|-1];
    var before := Run(e, q);
    if i == |evs| - 1 {
      StepRegistryMatchesSnapshot(before.state, x.outcome.body);
    } else {
      assert forall k :: 0 <= k < |q| ==> q[k] == evs[k];
      RunRegistryMatchesLastSnapshot(e, q, i);
      ApplyKeepsRegistry(before.state, x);
    }
  }

  lemma ApplyPreservesInv(e: EngineState, ev: Event)
    requires Inv(e)
    ensures Inv(Apply(e, ev).state)
  {
    match ev
    case Refresh(outcome, mapReady) => StepPreservesInv(e, outcome, mapReady);
    case ClickMarker(id) => ClickPreservesInv(e, id);
  }

  /** Every state reachable from mount keeps the invariant: distinct marker
      identities, click values matching their keys, and a selection that
      always refers to a vehicle on the map. */
  lemma {:induction false} RunPreservesInv(e: EngineState, evs: seq<Event>)
    requires Inv(e)
    ensures Inv(Run(e, evs).state)
    decreases |evs|
  {
    if |evs| > 0 {
      RunPreservesInv(e, evs[..|evs|-1]);
      ApplyPreservesInv(Run(e, evs[..|evs|-1]).state, evs[|evs|-1]);
    }
  }

  // ---- Scenarios ----

  /** The endpoint's encoding of a list of vehicles, delivered with the
      map ready, reconciles exactly that list. */
  lemma EncodedRefresh(vs: seq<VehicleState>)
    ensures Reconciles(Refresh(Payload(EncodeAll(vs)), true))
    ensures SnapshotOf(Refresh(Payload(EncodeAll(vs)), true)) == vs
    ensures Triggers(Refresh(Payload(EncodeAll(vs)), true)) <==> |vs| > 0
  {
    EncodeAllValidates(vs);
  }

  /** An empty first snapshot, then two vehicles, then three: the viewport
      is fitted exactly once, to the two vehicles of the second snapshot. */
  lemma OneShotFitScenario(v1: VehicleState, v2: VehicleState, v3: VehicleState)
    ensures Run(Init(), [Refresh(Payload(EncodeAll([])), true),
                         Refresh(Payload(EncodeAll([v1, v2])), true),
                         Refresh(Payload(EncodeAll([v1, v2, v3])), true)]).fits
            == [[PositionOf(v1), PositionOf(v2)]]
  {
    var e0 := Refresh(Payload(EncodeAll([])), true);
    var e1 := Refresh(Payload(EncodeAll([v1, v2])), true);
    var e2 := Refresh(Payload(EncodeAll([v1, v2, v3])), true);
    EncodedRefresh([]);
    EncodedRefresh([v1, v2]);
    var evs := [e0, e1, e2];
    RunFitsAtMostOnce(Init(), evs);
    assert evs[0] == e0 && evs[1] == e1;
    assert Positions([v1, v2]) == [PositionOf(v1), PositionOf(v2)];
  }

  /** Poll 1 of the end-to-end scenario: vehicles 1 and 2 get markers, and
      clicking marker 1 selects vehicle 1. */
  lemma FirstPoll(a: VehicleState, b: VehicleState)
    requires a.id == 1.0 && b.id == 2.0
    ensures var s1 := Step(Init(), Payload(EncodeAll([a, b])), true).state;
            && Inv(s1)
            && s1.registry.Keys == {1.0, 2.0}
            && Click(s1, 1.0).selected == Some(a)
  {
    var p1 := [a, b];
    EncodeAllValidates(p1);
    InIds(p1, 0);
    InIds(p1, 1);
    assert Ids(p1) == {1.0, 2.0};
    InitInv();
    StepPreservesInv(Init(), Payload(EncodeAll(p1)), true);
    StepRegistryMatchesSnapshot(Init(), EncodeAll(p1));
    StepMarkerIdentity(Init(), EncodeAll(p1), 1.0);
    assert FirstIndexOf(p1, 1.0) == 0;
  }

  /** Poll 2 of the end-to-end scenario, from any reachable state holding
      markers 1 and 2 with vehicle 1 selected: what is created, removed and
      selected. */
  lemma SecondPollSets(s: EngineState, b': VehicleState, c: VehicleState)
    requires Inv(s) && s.registry.Keys == {1.0, 2.0}
    requires s.selected.Some? && s.selected.value.id == 1.0
    requires b'.id == 2.0 && c.id == 3.0
    ensures var t := Step(s, Payload(EncodeAll([b', c])), true);
            && t.state.registry.Keys == {2.0, 3.0}
            && t.effects.removed == {1.0}
            && t.effects.created == {3.0}
            && t.state.selected == None
  {
    var p2 := [b', c];
    EncodeAllValidates(p2);
    InIds(p2, 0);
    InIds(p2, 1);
    assert Ids(p2) == {2.0, 3.0};
    StepRegistryMatchesSnapshot(s, EncodeAll(p2));
    StepSelection(s, EncodeAll(p2));
  }

  /** Poll 2 of the end-to-end scenario: marker 2 is kept and refreshed,
      marker 3 gets an identity no earlier marker had. */
  lemma SecondPollMarkers(s: EngineState, b': VehicleState, c: VehicleState)
    requires Inv(s) && s.registry.Keys == {1.0, 2.0}
    requires b'.id == 2.0 && c.id == 3.0
    ensures var t := Step(s, Payload(EncodeAll([b', c])), true);
            && 2.0 in t.state.registry && 3.0 in t.state.registry
            && t.state.registry[2.0].uid == s.registry[2.0].uid
            && Shows(t.state.registry[2.0], b')
            && t.state.registry[3.0].uid != s.registry[1.0].uid
            && t.state.registry[3.0].uid != s.registry[2.0].uid
  {
    var p2 := [b', c];
    EncodeAllValidates(p2);
    InIds(p2, 0);
    InIds(p2, 1);
    StepMarkerIdentity(s, EncodeAll(p2), 2.0);
    StepMarkerIdentity(s, EncodeAll(p2), 3.0);
    assert LastIndexOf(p2, 2.0) == 0;
    assert s.registry[1.0].uid < s.nextUid && s.registry[2.0].uid < s.nextUid;
  }

  /** Poll 1 reports vehicles 1 and 2, the user clicks vehicle 1, poll 2
      reports vehicles 2 and 3: marker 1 is removed and the selection
      cleared, marker 2 is the same marker now showing the new value, and
      marker 3 is new. */
  lemma EndToEndScenario(a: VehicleState, b: VehicleState, b': VehicleState, c: VehicleState)
    requires a.id == 1.0 && b.id == 2.0 && b'.id == 2.0 && c.id == 3.0
    ensures var s1 := Step(Init(), Payload(EncodeAll([a, b])), true).state;
            var s2 := Click(s1, 1.0);
            var t3 := Step(s2, Payload(EncodeAll([b', c])), true);
            && s1.registry.Keys == {1.0, 2.0}
            && s2.selected == Some(a)
            && t3.state.registry.Keys == {2.0, 3.0}
            && t3.effects.removed == {1.0}
            && t3.effects.created == {3.0}
            && t3.state.registry[2.0].uid == s1.registry[2.0].uid
            && Shows(t3.state.registry[2.0], b')
            && t3.state.registry[3.0].uid != s1.registry[1.0].uid
            && t3.state.registry[3.0].uid != s1.registry[2.0].uid
            && t3.state.selected == None
  {
    FirstPoll(a, b);
    var s1 := Step(Init(), Payload(EncodeAll([a, b])), true).state;
    ClickPreservesInv(s1, 1.0);
    SecondPollSets(Click(s1, 1.0), b', c);
    SecondPollMarkers(Click(s1, 1.0), b', c);
  }

  /** The click handler keeps the value from marker creation: after vehicle
      2 moves, its marker shows the new value, but clicking it selects the
      old one until the next refresh replaces the selection. */
  lemma StaleClickScenario(b: VehicleState, b': VehicleState, b'': VehicleState)
    requires b.id == 2.0 && b'.id == 2.0 && b''.id == 2.0
    ensures var s1 := Step(Init(), Payload(EncodeAll([b])), true).state;
            var s2 := Step(s1, Payload(EncodeAll([b'])), true).state;
            var s3 := Click(s2, 2.0);
            var s4 := Step(s3, Payload(EncodeAll([b''])), true).state;
            && 2.0 in s2.registry
            && Shows(s2.registry[2.0], b')
            && s3.selected == Some(b)
            && s4.selected == Some(b'')
  {
    EncodeAllValidates([b]);
    EncodeAllValidates([b']);
    EncodeAllValidates([b'']);
    InIds([b], 0);
    InIds([b'], 0);
    InIds([b''], 0);
    var s1 := Step(Init(), Payload(EncodeAll([b])), true).state;
    StepMarkerIdentity(Init(), EncodeAll([b]), 2.0);
    var s2 := Step(s1, Payload(EncodeAll([b'])), true).state;
    StepMarkerIdentity(s1, EncodeAll([b']), 2.0);
    var s3 := Click(s2, 2.0);
    InitInv();
    StepPreservesInv(Init(), Payload(EncodeAll([b])), true);
    StepPreservesInv(s1, Payload(EncodeAll([b'])), true);
    ClickPreservesInv(s2, 2.0);
    StepSelection(s3, EncodeAll([b'']));
  }
}
