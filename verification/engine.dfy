/** One refresh cycle of `VehiclesMap` as a transition over the engine's
    state, plus the marker click handler. */
module Engine {
  import opened Wrappers
  import opened JsonValues
  import opened Vehicles
  import opened Markers
  import opened Snapshots
  import opened Reconciler

  /** What went wrong in a refresh. The status line shows a fixed
      "server unreachable or loading failed" text wrapping the cause and
      announcing a retry in 5 seconds; the text itself is left abstract. */
  datatype Cause =
    | HttpStatus(status: int, statusText: string)  // `HTTP ${res.status} ${res.statusText}`
    | UnexpectedFormat                             // the validator rejected the body
    | Thrown(message: string)                      // fetch or `res.json()` threw

  /** How the fetch of one refresh cycle ended. `Aborted` is a cycle that
      threw after the shared abort signal was raised. */
  datatype FetchOutcome =
    | HttpError(status: int, statusText: string)
    | Failed(message: string)
    | Aborted
    | Payload(body: Json)

  /** The refs and state variables of the component that the refresh reads
      and writes. `lastUpdated` counts successful refreshes in place of the
      timestamp; `nextUid` is the identity the next created marker gets. */
  datatype EngineState = EngineState(
    registry: Registry,
    selected: Option<VehicleState>,
    firstFitDone: bool,
    error: Option<Cause>,
    count: nat,
    lastUpdated: nat,
    nextUid: nat)

  /** Marker side effects of one transition and the viewport fit, if any,
      with the points it must cover. */
  datatype Effects = Effects(created: set<real>, removed: set<real>, fit: Option<seq<LatLng>>)

  const NoEffects := Effects({}, {}, None)

  datatype Transition = Transition(state: EngineState, effects: Effects)

  /** The state when the component mounts. */
  function Init(): EngineState
  {
    EngineState(map[], None, false, None, 0, 0, 0)
  }

  /** The state invariant every reachable state keeps. */
  ghost predicate Inv(e: EngineState)
  {
    WellFormed(e.registry, e.nextUid) && Coherent(e.registry, e.selected)
  }

  /** A failed cycle: the error is shown, nothing else changes. */
  function Fail(e: EngineState, cause: Cause): Transition
  {
    Transition(e.(error := Some(cause)), NoEffects)
  }

  /** The one-shot viewport fit after a reconcile. */
  function MaybeFit(firstFitDone: bool, p: seq<VehicleState>): (r: (bool, Option<seq<LatLng>>))
    ensures r.1.Some? <==> !firstFitDone && |p| > 0
    ensures r.1.Some? ==> r.1.value == Positions(p)
    ensures r.0 == (firstFitDone || |p| > 0)
  {
    if !firstFitDone && |p| > 0 then (true, Some(Positions(p))) else (firstFitDone, None)
  }

  /** One `refresh` cycle. `mapReady` says whether the map (and with it
      Leaflet) exists when the payload arrives. */
  function Step(e: EngineState, outcome: FetchOutcome, mapReady: bool): (t: Transition)
    ensures outcome.Aborted? ==> t == Transition(e, NoEffects)
    ensures !outcome.Aborted? ==>
              (t.state.error.None? <==> outcome.Payload? && IsVehicleStateArray(outcome.body))
    ensures !(mapReady && outcome.Payload? && IsVehicleStateArray(outcome.body)) ==>
              && t.state.registry == e.registry && t.state.selected == e.selected
              && t.state.firstFitDone == e.firstFitDone && t.effects == NoEffects
    ensures e.firstFitDone ==> t.state.firstFitDone && t.effects.fit.None?
  {
    match outcome
    case Aborted => Transition(e, NoEffects)
    case HttpError(status, statusText) => Fail(e, HttpStatus(status, statusText))
    case Failed(message) => Fail(e, Thrown(message))
    case Payload(body) =>
      match Validate(body)
      case None => Fail(e, UnexpectedFormat)
      case Some(p) =>
        var e1 := e.(error := None, lastUpdated := e.lastUpdated + 1, count := |p|);
        if !mapReady then Transition(e1, NoEffects)
        else
          var r := Reconcile(e.registry, e.selected, e.nextUid, p);
          var fit := MaybeFit(e.firstFitDone, p);
          Transition(e1.(registry := r.registry, selected := r.selected, nextUid := r.nextUid,
                         firstFitDone := fit.0),
                     Effects(r.created, r.removed, fit.1))
  }

  /** The click handler of the marker for `id`: it selects the vehicle value
      the handler captured when that marker was created. Only a marker on
      the map can be clicked. */
  function Click(e: EngineState, id: real): (r: EngineState)
    ensures r.registry == e.registry && r.nextUid == e.nextUid && r.firstFitDone == e.firstFitDone
    ensures r.error == e.error && r.count == e.count && r.lastUpdated == e.lastUpdated
    ensures id in e.registry ==> r.selected == Some(e.registry[id].onClick)
    ensures id !in e.registry ==> r == e
  {
    if id in e.registry then e.(selected := Some(e.registry[id].onClick)) else e
  }

  // ---- Failure paths ----

  /** A non-ok HTTP status, a thrown fetch, or a payload the validator
      rejects shows an error and leaves markers, selection, fit flag, count
      and timestamp as they were. */
  lemma StepFailureKeepsMarkers(e: EngineState, outcome: FetchOutcome, mapReady: bool)
    requires outcome.HttpError? || outcome.Failed? || (outcome.Payload? && !IsVehicleStateArray(outcome.body))
    ensures var t := Step(e, outcome, mapReady);
            && t.state.registry == e.registry
            && t.state.selected == e.selected
            && t.state.firstFitDone == e.firstFitDone
            && t.state.count == e.count
            && t.state.lastUpdated == e.lastUpdated
            && t.state.nextUid == e.nextUid
            && t.effects == NoEffects
            && t.state.error == Some(match outcome
                                     case HttpError(s, txt) => HttpStatus(s, txt)
                                     case Failed(m) => Thrown(m)
                                     case _ => UnexpectedFormat)
  {
  }

  /** An aborted cycle changes nothing at all, not even the status. */
  lemma StepAbortChangesNothing(e: EngineState, mapReady: bool)
    ensures Step(e, Aborted, mapReady) == Transition(e, NoEffects)
  {
  }

  // ---- Success paths ----

  /** A valid payload with no map yet updates count, timestamp and error,
      and touches no marker, selection or fit flag. */
  lemma StepWithoutMap(e: EngineState, body: Json)
    requires IsVehicleStateArray(body)
    ensures var t := Step(e, Payload(body), false);
            && t.state.error == None
            && t.state.count == |body.elems|
            && t.state.lastUpdated == e.lastUpdated + 1
            && t.state.registry == e.registry
            && t.state.selected == e.selected
            && t.state.firstFitDone == e.firstFitDone
            && t.state.nextUid == e.nextUid
            && t.effects == NoEffects
  {
  }

  /** After a successful cycle with the map ready, the registry holds one
      marker for each id of the payload and no other. */
  lemma StepRegistryMatchesSnapshot(e: EngineState, body: Json)
    requires IsVehicleStateArray(body)
    ensures var t := Step(e, Payload(body), true);
            && t.state.registry.Keys == Ids(Validate(body).value)
            && t.state.error == None
            && t.state.count == |body.elems|
            && t.effects.created == Ids(Validate(body).value) - e.registry.Keys
            && t.effects.removed == e.registry.Keys - Ids(Validate(body).value)
  {
    var p := Validate(body).value;
    var r := Reconcile(e.registry, e.selected, e.nextUid, p);
    ReconcileCreatesAndRemoves(e.registry, e.selected, e.nextUid, p);
    var t := Step(e, Payload(body), true);
    assert t.state.registry == r.registry && t.effects.created == r.created && t.effects.removed == r.removed;
  }

  /** The fit is emitted only when the flag is still down and the payload is
      non-empty; it covers the payload's positions and raises the flag. */
  lemma StepFitsOnce(e: EngineState, body: Json)
    requires IsVehicleStateArray(body)
    ensures var t := Step(e, Payload(body), true);
            && (t.effects.fit.Some? <==> !e.firstFitDone && |body.elems| > 0)
            && (t.effects.fit.Some? ==> t.effects.fit.value == Positions(Validate(body).value))
            && t.state.firstFitDone == (e.firstFitDone || |body.elems| > 0)
  {
  }

  /** A transition never emits a fit once the flag is raised, and never
      lowers it. */
  lemma StepFitFlagMonotone(e: EngineState, outcome: FetchOutcome, mapReady: bool)
    ensures var t := Step(e, outcome, mapReady);
            && (e.firstFitDone ==> t.state.firstFitDone && t.effects.fit.None?)
            && (t.effects.fit.Some? ==> !e.firstFitDone && t.state.firstFitDone)
  {
  }

  // ---- The invariant ----

  lemma InitInv()
    ensures Inv(Init())
  {
  }

  /** Every refresh outcome keeps the state invariant. */
  lemma StepPreservesInv(e: EngineState, outcome: FetchOutcome, mapReady: bool)
    requires Inv(e)
    ensures Inv(Step(e, outcome, mapReady).state)
  {
    if outcome.Payload? && mapReady {
      var v := Validate(outcome.body);
      if v.Some? {
        ReconcilePreservesInvariant(e.registry, e.selected, e.nextUid, v.value);
      }
    }
  }

  /** A click keeps the invariant and selects a vehicle that has a marker. */
  lemma ClickPreservesInv(e: EngineState, id: real)
    requires Inv(e)
    ensures Inv(Click(e, id))
    ensures id in e.registry ==> Click(e, id).selected.Some? && Click(e, id).selected.value.id == id
  {
  }

  // ---- Marker identity and selection over a refresh ----

  /** A refresh with the map ready updates an existing marker in place
      (same uid, same captured click value, content from the id's last
      occurrence) and creates a marker with a fresh uid only for a new id. */
  lemma StepMarkerIdentity(e: EngineState, body: Json, id: real)
    requires IsVehicleStateArray(body)
    requires id in Ids(Validate(body).value)
    ensures var p := Validate(body).value;
            var m := Step(e, Payload(body), true).state.registry[id];
            && Shows(m, p[LastIndexOf(p, id)])
            && (id in e.registry ==> m.uid == e.registry[id].uid && m.onClick == e.registry[id].onClick)
            && (id !in e.registry ==> m.uid >= e.nextUid && m.onClick == p[FirstIndexOf(p, id)])
  {
    var p := Validate(body).value;
    if id in e.registry {
      ReconcileUpdatesInPlace(e.registry, e.selected, e.nextUid, p, id);
    } else {
      ReconcileCreatesFresh(e.registry, e.selected, e.nextUid, p, id);
    }
  }

  /** The selection follows the payload: a selected vehicle the payload
      mentions is replaced by its last occurrence there, one it omits is
      cleared. */
  lemma StepSelection(e: EngineState, body: Json)
    requires Inv(e)
    requires IsVehicleStateArray(body)
    ensures var p := Validate(body).value;
            var t := Step(e, Payload(body), true);
            && (e.selected.None? ==> t.state.selected.None?)
            && (e.selected.Some? && e.selected.value.id in Ids(p) ==>
                  t.state.selected == Some(p[LastIndexOf(p, e.selected.value.id)]))
            && (e.selected.Some? && e.selected.value.id !in Ids(p) ==> t.state.selected.None?)
  {
    ReconcileSelection(e.registry, e.selected, e.nextUid, Validate(body).value);
  }

  /** Refreshing twice with the same valid payload: the second refresh
      creates, removes and fits nothing and changes only the timestamp. */
  lemma StepIdempotent(e: EngineState, body: Json)
    requires Inv(e)
    requires IsVehicleStateArray(body)
    ensures var t1 := Step(e, Payload(body), true);
            var t2 := Step(t1.state, Payload(body), true);
            && t2.effects == NoEffects
            && t2.state == t1.state.(lastUpdated := t1.state.lastUpdated + 1)
  {
    var p := Validate(body).value;
    ReconcileIdempotent(e.registry, e.selected, e.nextUid, p);
  }

  /** Clicking the marker of a vehicle that was updated in place selects the
      value captured when the marker was created, not the one it shows. */
  lemma ClickSelectsCreationValue(e: EngineState, body: Json, id: real)
    requires IsVehicleStateArray(body)
    requires id in e.registry && id in Ids(Validate(body).value)
    ensures Click(Step(e, Payload(body), true).state, id).selected == Some(e.registry[id].onClick)
  {
    StepMarkerIdentity(e, body, id);
  }
}
