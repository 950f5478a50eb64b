# Live vehicle map: reconciliation engine

This project models the live-state reconciliation engine of the vehicle map
component `VehiclesMap`. Every 5 seconds the component fetches a snapshot of
vehicle positions and checks it with `isVehicleStateArray`. It then reconciles
the snapshot against its registry of map markers:

- a vehicle that already has a marker gets that marker updated in place;
- a new vehicle gets a new marker, with a click handler that selects it;
- every marker whose vehicle is missing from the snapshot is removed;
- the selected vehicle is refreshed or cleared to match;
- the first non-empty snapshot fits the viewport, once.

A failed cycle shows an error and leaves the markers alone. A cycle aborted
at teardown does nothing.

The model is functional. One refresh cycle is `Engine.Step(state, outcome,
mapReady)`. The outcome is `HttpError`, `Failed` (fetch or `res.json()`
threw), `Aborted` or `Payload(json)`. `mapReady` says whether the Leaflet map
exists when the payload arrives. A marker click is `Engine.Click`. Sequences
of cycles and clicks are `History.Run`.

Modules:

- `JsonValues`: the decoded JSON value.
- `Vehicles`: the validator, the typed view of an accepted payload, and the
  endpoint's encoding of one.
- `Markers`: markers and what they display. Popup and icon are shown as the
  vehicle fields they are built from. Each marker has a creation `uid`, which
  tracks identity, and the value its click handler captured.
- `Snapshots`: the ids of a snapshot and the first and last occurrence of
  each.
- `Reconciler`: the upsert loop, the sweep, and their properties.
- `Engine`: the engine state, the refresh dispatch, the one-shot fit, the
  click handler and the state invariant.
- `History`: runs of events, the at-most-once fit, and concrete scenarios:
  poll {1,2} then {2,3}, and snapshots [], [v1,v2], [v1,v2,v3].

Modelling choices that follow the code:

- Ids and coordinates are JavaScript numbers, so they are modelled as `real`.
  The validator accepts any number as an id (1.5, say), so the registry is
  `map<real, Marker>`. JSON decoding yields no `NaN`, so map-key equality is
  real equality.
- `typeof v === "object"` also holds for arrays. An array element is still
  rejected, because it has no `id`, `lat`, … properties.
- `selectedIdRef` is read, not written, during a refresh. So `Reconcile` takes
  the selected id as it was at the start of the cycle. Within one cycle the
  last `setSelected` call wins. The ref is synced from `selected` by an effect that runs
  after a render, and the model assumes it has caught up before each event.
  Two deliveries inside one render gap could read a stale ref, which needs
  overlapping fetches (see "## Left out").
- Duplicate ids in a payload are created and then updated. The marker shows
  the LAST occurrence. Its click handler keeps the FIRST occurrence. The
  selection is refreshed on every update-path occurrence, so the second
  occurrence of a newly seen, already selected id refreshes it too.
- A click selects the value captured when the marker was created, not the
  value the marker shows now. The next refresh replaces the selection with
  the live value (`History.StaleClickScenario`).
- The sweep walks the registry. It clears the selection only when the
  selected id had a marker. Selection properties therefore assume the state
  invariant `Engine.Inv`, which says a selected vehicle has a marker.
  `Engine.InitInv`, `Engine.StepPreservesInv`, `Engine.ClickPreservesInv` and
  `History.RunPreservesInv` prove that every reachable state keeps it.

## Model

| member | source | states |
|---|---|---|
| Vehicles.HasVehicleShape | app/components/VehiclesMap.tsx:32-40 | The per-element test. An element that passes is a genuine object, never an array; `Vehicles.ShapeIsObjectWithNumericFields` states the full condition. |
| Vehicles.IsVehicleStateArray | app/components/VehiclesMap.tsx:29-42 | `isVehicleStateArray`. A payload that passes is an array whose every element is an object; `Vehicles.Validate` and `Vehicles.OneBadElementRejects` state what it accepts. |
| Vehicles.Validate | app/components/VehiclesMap.tsx:29-42 | Yields a typed snapshot exactly when `isVehicleStateArray` holds. The snapshot has one vehicle per element, in order, read from that element's five numeric fields. |
| Vehicles.DecodeAll | app/components/VehiclesMap.tsx:31-41 | Succeeds iff every element passes the per-element test (`every`). On success it returns, per element, that element's fields. |
| Vehicles.ShapeIsObjectWithNumericFields | app/components/VehiclesMap.tsx:32-40 | An element passes iff it is a non-array object whose `id`, `lat`, `lon`, `speed` and `direction` all exist and are numbers. |
| Vehicles.OneBadElementRejects | app/components/VehiclesMap.tsx:31-41 | One failing element rejects the whole payload. |
| Vehicles.EncodeAllValidates | app/components/VehiclesMap.tsx:29-42 | Round trip: the endpoint's encoding of any vehicle list passes, and its typed view is that same list. |
| Vehicles.ValidationBoundary | app/components/VehiclesMap.tsx:34-40 | A numeric one-vehicle payload yields that vehicle. The same payload with `lat` as a string is rejected. |
| Markers.PopupFor | app/components/VehiclesMap.tsx:44-54 | The popup is built from the vehicle's id, speed, direction, latitude and longitude. `Markers.SameDisplayOnCreateAndUpdate` shows that create and update build it alike. |
| Markers.IconFor | app/components/VehiclesMap.tsx:56-74 | The icon carries the vehicle's id and is rotated by its direction. `Markers.IconShowsIdAndHeading` states what it depends on. |
| Markers.IconShowsIdAndHeading | app/components/VehiclesMap.tsx:56-74 | Two vehicles share an icon iff they agree on id and direction; position and speed do not affect it. |
| Markers.Positions | app/components/VehiclesMap.tsx:199 | The fit's point list holds, for each payload element in order, that element's latitude and longitude. `History.RunFitsFirstTrigger` uses it for the fit of a run. |
| Markers.NewMarker | app/components/VehiclesMap.tsx:183-185 | A created marker has the given identity, shows `v`, and its click handler holds `v`. `Reconciler.UpsertClickFirst` and `Engine.ClickSelectsCreationValue` build on it. |
| Markers.Refreshed | app/components/VehiclesMap.tsx:176-178 | An update keeps the marker's identity and click value and makes it show the new vehicle. `Markers.ShowsDetermines` and `Reconciler.ReconcileIdempotent` build on it. |
| Markers.SameDisplayOnCreateAndUpdate | app/components/VehiclesMap.tsx:174-185 | Updating a marker with `v` and creating one for `v` give the same position, popup and icon, whatever the marker showed before. |
| Markers.ShowsDetermines | app/components/VehiclesMap.tsx:174-178 | A marker is determined by its identity, click value and shown vehicle, so re-showing the same vehicle changes nothing. |
| Reconciler.ApplyOne | app/components/VehiclesMap.tsx:172-187 | One loop iteration adds the vehicle's id to the registry and leaves other ids' markers alone. It refreshes a known marker, keeping its uid and click value and re-selecting it when it is the selected id. For an unknown id it creates a marker with the next uid that holds `v` in its click handler. |
| Reconciler.UpsertAll | app/components/VehiclesMap.tsx:170-188 | After the upsert loop the registry keys are the old keys plus every payload id. |
| Reconciler.UpsertKeepsUnseen | app/components/VehiclesMap.tsx:171-188 | The loop leaves the marker of an id the payload does not mention untouched. |
| Reconciler.UpsertKeepsIdentity | app/components/VehiclesMap.tsx:174-180 | A marker that existed before the loop keeps its uid and its click value. |
| Reconciler.UpsertShowsLast | app/components/VehiclesMap.tsx:174-187 | Every payload id ends up showing its last occurrence in the payload. |
| Reconciler.UpsertCollectsCreated | app/components/VehiclesMap.tsx:183-187 | Markers are created for exactly the payload ids that were not in the registry. |
| Reconciler.UpsertCountsUids | app/components/VehiclesMap.tsx:183-187 | Exactly one new marker identity is used per id new to the registry. |
| Reconciler.UpsertCreatesFresh | app/components/VehiclesMap.tsx:183-187 | A marker made by the loop has a uid not handed out before, and its click value is the id's first occurrence. |
| Reconciler.UpsertFreshUids | app/components/VehiclesMap.tsx:183-187 | A marker made by the loop has a uid from the range the loop handed out, so no earlier marker has it. |
| Reconciler.UpsertClickFirst | app/components/VehiclesMap.tsx:183-185 | A marker made by the loop keeps, in its click handler, the id's first occurrence in the payload. |
| Reconciler.UpsertPreservesWellFormed | app/components/VehiclesMap.tsx:174-187 | The loop keeps marker uids distinct, and each click value's id equal to its key. |
| Reconciler.ApplyOnePreservesWellFormed | app/components/VehiclesMap.tsx:174-187 | One loop iteration keeps marker uids distinct and below the next free uid, and each click value's id equal to its key. |
| Reconciler.UpsertSelection | app/components/VehiclesMap.tsx:174-187 | The loop does not touch a selected id the payload omits. It sets a selected id that already had a marker to its last occurrence. An id without a marker is refreshed only by a second or later occurrence. |
| Reconciler.UpsertNoSelection | app/components/VehiclesMap.tsx:179 | With nothing selected, the loop never selects anything. |
| Reconciler.Sweep | app/components/VehiclesMap.tsx:190-196 | The sweep keeps exactly the seen entries, unchanged, and reports the unseen ones as removed. |
| Reconciler.Reconcile | app/components/VehiclesMap.tsx:170-196 | After reconciling, the registry's key set equals the snapshot's id set. |
| Reconciler.ReconcileCreatesAndRemoves | app/components/VehiclesMap.tsx:170-196 | It creates markers for exactly the new ids and removes exactly the ids the snapshot omits. |
| Reconciler.ReconcileCountsUids | app/components/VehiclesMap.tsx:183-187 | A reconcile uses exactly one new marker identity per id new to the registry. |
| Reconciler.ReconcileUpdatesInPlace | app/components/VehiclesMap.tsx:174-180 | An id already in the registry keeps its marker (same uid, same click value), which now shows the id's last occurrence. |
| Reconciler.ReconcileCreatesFresh | app/components/VehiclesMap.tsx:183-187 | An absent id gets a marker with a fresh uid. Its click handler holds the first occurrence and it shows the last. |
| Reconciler.ReconcileSelection | app/components/VehiclesMap.tsx:174-195 | With a coherent selection, a selected id in the snapshot becomes its last occurrence there. A selected id the snapshot omits is cleared. With no selection, none results. |
| Reconciler.ReconcilePreservesInvariant | app/components/VehiclesMap.tsx:170-196 | Reconcile keeps marker identities distinct and the selection coherent. |
| Reconciler.ReconcileIdempotentAt | app/components/VehiclesMap.tsx:174-187 | After a second reconcile of the same snapshot, each payload id's marker equals the one after the first. |
| Reconciler.ReconcileIdempotentRegistry | app/components/VehiclesMap.tsx:170-196 | A second reconcile of the same snapshot leaves the registry equal to the one after the first. |
| Reconciler.ReconcileIdempotent | app/components/VehiclesMap.tsx:170-196 | Reconciling the same snapshot again creates and removes nothing, and leaves registry, selection and uid counter equal. |
| Engine.MaybeFit | app/components/VehiclesMap.tsx:198-202 | A fit is emitted iff the flag is down and the snapshot is non-empty. It carries the snapshot's positions, and the flag is then up. `History.RunFitsAtMostOnce` lifts it to whole runs. |
| Engine.Step | app/components/VehiclesMap.tsx:145-209 | An aborted cycle changes nothing. Otherwise the error is cleared iff the payload is valid. Markers, selection, fit flag and effects change only when a valid payload meets a ready map. Once the fit flag is up it stays up and no fit is emitted. The lemmas `Engine.Step*` below state each branch in full. |
| Engine.Click | app/components/VehiclesMap.tsx:185 | A click on a marker's id selects the value that marker's handler holds. A click on an id with no marker changes nothing. A click changes nothing but the selection. `Engine.ClickPreservesInv` and `Engine.ClickSelectsCreationValue` are its partners. |
| Engine.StepFailureKeepsMarkers | app/components/VehiclesMap.tsx:153-209 | An HTTP error, a thrown fetch, or an invalid payload sets the matching error. It leaves registry, selection, fit flag, count and timestamp unchanged and has no marker effects. |
| Engine.StepAbortChangesNothing | app/components/VehiclesMap.tsx:203-204 | An aborted cycle leaves the whole state, status included, unchanged and has no effects. |
| Engine.StepWithoutMap | app/components/VehiclesMap.tsx:162-168 | A valid payload with no map clears the error, sets count to the payload length and bumps the timestamp. It touches no marker, selection or flag. |
| Engine.StepRegistryMatchesSnapshot | app/components/VehiclesMap.tsx:162-196 | With the map ready, a valid payload leaves exactly one marker per payload id. It creates the new ids, removes the omitted ones and clears the error. |
| Engine.StepFitsOnce | app/components/VehiclesMap.tsx:198-202 | A successful cycle fits iff the flag was down and the payload non-empty. The fit covers the payload's positions, and the flag is then up. |
| Engine.StepFitFlagMonotone | app/components/VehiclesMap.tsx:198-202 | No cycle lowers the fit flag or fits while it is up. |
| Engine.InitInv | app/components/VehiclesMap.tsx:88-93 | The mount state satisfies the invariant. |
| Engine.StepPreservesInv | app/components/VehiclesMap.tsx:145-209 | Every refresh outcome keeps the invariant. |
| Engine.ClickPreservesInv | app/components/VehiclesMap.tsx:185 | A click keeps the invariant and selects the vehicle of the clicked marker's id. |
| Engine.StepMarkerIdentity | app/components/VehiclesMap.tsx:174-187 | Each payload id's marker shows its last occurrence. It is the old marker if one existed, otherwise a fresh uid holding the first occurrence. |
| Engine.StepSelection | app/components/VehiclesMap.tsx:174-195 | In a reachable state, a selected vehicle the payload mentions becomes its last occurrence there. One the payload omits is cleared. |
| Engine.StepIdempotent | app/components/VehiclesMap.tsx:162-202 | A second refresh with the same valid payload has no effects and changes only the timestamp. |
| Engine.ClickSelectsCreationValue | app/components/VehiclesMap.tsx:185 | After an in-place update, clicking the marker selects the value captured at its creation. |
| History.Run | app/components/VehiclesMap.tsx:145-213 | A run emits at most one fit per event, and none once the flag is up; `History.RunFitsAtMostOnce` and `History.RunRegistryMatchesLastSnapshot` state its fit and registry behaviour. |
| History.ApplyFit | app/components/VehiclesMap.tsx:198-202 | An event fits iff the flag is down and it reconciles a non-empty snapshot. |
| History.RunFitFlag | app/components/VehiclesMap.tsx:198-202 | After a run the flag is up iff it was up already or some event reconciled a non-empty snapshot. |
| History.RunFitsBounded | app/components/VehiclesMap.tsx:198-202 | A run emits at most one fit, and none if the flag was already up. |
| History.RunFitsIffTrigger | app/components/VehiclesMap.tsx:198-202 | With the flag down, a run fits iff some event reconciles a non-empty snapshot. |
| History.RunFitsFirstTrigger | app/components/VehiclesMap.tsx:198-202 | With the flag down, the run's fit covers the positions of the first event that reconciles a non-empty snapshot. |
| History.RunFitsAtMostOnce | app/components/VehiclesMap.tsx:198-202 | Over any run: at most one fit, none once the flag is up, otherwise exactly the first non-empty reconciled snapshot's positions. |
| History.ApplyKeepsRegistry | app/components/VehiclesMap.tsx:153-168 | Failed, aborted and map-less refreshes and clicks leave the registry unchanged. |
| History.RunWithoutReconcileKeepsRegistry | app/components/VehiclesMap.tsx:153-168 | A run with no reconcile leaves the registry exactly as it was. |
| History.RunRegistryMatchesLastSnapshot | app/components/VehiclesMap.tsx:170-196 | After any run, the registry's key set is the id set of the last reconciled snapshot. |
| History.ApplyPreservesInv | app/components/VehiclesMap.tsx:145-209 | Every event keeps the invariant. |
| History.RunPreservesInv | app/components/VehiclesMap.tsx:145-213 | Every state reachable by a run keeps the invariant. |
| History.EncodedRefresh | app/components/VehiclesMap.tsx:29-42 | A delivered encoding of a list reconciles that list. It triggers the fit iff the list is non-empty. |
| History.OneShotFitScenario | app/components/VehiclesMap.tsx:198-202 | Snapshots [], [v1,v2], [v1,v2,v3] fit the viewport exactly once, to v1 and v2. |
| History.FirstPoll | app/components/VehiclesMap.tsx:170-187 | Poll {1,2} creates markers 1 and 2. Clicking 1 then selects vehicle 1. |
| History.SecondPollSets | app/components/VehiclesMap.tsx:170-196 | Poll {2,3} after that creates 3, removes 1 and clears the selection of 1. |
| History.SecondPollMarkers | app/components/VehiclesMap.tsx:174-187 | In poll {2,3}, marker 2 keeps its uid and shows the new value. Marker 3's uid differs from every earlier marker's. |
| History.EndToEndScenario | app/components/VehiclesMap.tsx:170-196 | The full scenario: poll {1,2}, click 1, poll {2,3}. Marker 1 is removed and the selection cleared, 2 is updated in place, 3 is created. |
| History.StaleClickScenario | app/components/VehiclesMap.tsx:174-185 | After vehicle 2 moves, its marker shows the new value but a click selects the old one. The next refresh replaces it with the live value. |

## Left out

- Rendering: React hooks, JSX, the header and details panel, and the fixed-precision `details` formatting. These are UI.
- Markers.PopupFor: the popup keeps the unrounded numbers. The source rounds them with `toFixed` (speed to 2, direction to 1, position to 6 decimals), so two vehicles that differ only below those digits show the same popup text. The model does not claim popups tell vehicles apart.
- Popup and icon text: `vehiclePopupHtml`, the `toFixed` formatting and the icon HTML/CSS are represented only by the vehicle fields they are built from. Formatting numbers to strings is not modelled.
- Error text: the status line wraps the cause in a fixed German message that announces a retry in 5 seconds. The model keeps the cause as a structured value and not the text.
- `lastUpdated`: the `new Date()` timestamp is modelled as a counter of successful refreshes, because the clock is not modelled.
- Engine.Step: Leaflet calls inside a refresh (`setLatLng`, `setIcon`, `L.marker`, `addTo`, `remove`, `latLngBounds`, `fitBounds`) are assumed not to throw. If one did throw, the catch would set the error after the error was cleared and the count and timestamp were set, and the registry could be left partly reconciled. The model does not represent that path, because Leaflet is a foreign library.
- Fetching and timing: `fetch`, `setInterval`/`clearInterval`, the 5000 ms cadence, `AbortController` and overlapping in-flight cycles are I/O and timing. Each delivered cycle is one `Step` on the state at delivery time. Abort is only the `Aborted` outcome.
- Map setup: `waitForLeaflet` (wall-clock polling for a global library) and map construction are reduced to the `mapReady` flag. So is the "Leaflet could not be loaded" error.
- Leaflet geometry: `latLngBounds` and `fitBounds` with their padding are a foreign library. The fit is an emitted event carrying the point list.
- Teardown: the teardown effect that removes every marker and the map is plumbing over Leaflet objects. The model ends at the engine's last state.
- Infinite numbers: a JSON number too large for a double decodes to `Infinity` in JavaScript. The model's unbounded reals do not represent that.
- `next.config.ts` is a proxy rewrite configuration with no logic to verify.
