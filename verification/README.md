# HueBridge light-state diff engine, in Dafny

This project models the core of `HueBridge` in `devices.py`: a bridge that
keeps the last snapshot of its lights (id → name, brightness, on). At
construction it reports every light. On each poll it compares the kept
snapshot with a freshly fetched one. It then emits one object per changed
attribute of every light kept, one `{"id", "on": false}` per light that
vanished, and one array holding every new light. Finally it keeps the
fetched snapshot.

The model is functional:

- A fetched snapshot is an input (`Snapshot = map<string, Light>`).
- Emitting an object means appending an `Event` to the sequence a step
  returns. `Events.Render` gives the JSON-shaped dictionary the source
  writes for each event.
- The order in which Python iterates the three id sets of a poll is not
  specified by the language, so it is an input too. `Devices.Orders`
  holds three sequences, and `Devices.ValidOrders` demands that each one
  lists its set exactly once. Every property holds for every such order.
- The same holds for the order of the lights in the construction array
  (the order of the fetched dictionary).

Modules:

- `Lights` (`lights.dfy`): light state, the attribute list and attribute values.
- `Events` (`events.dfy`): events and their dictionary/array rendering.
- `Devices` (`devices.dfy`): `Init`, `Poll` and the pieces of `poll`.
- `DeviceProperties` (`properties.dfy`): lemmas relating several calls.
- `PollLoops` (`poll_loops.dfy`): `poll` and `output_difference` written as
  the loops of the source, each proved equal to the functional model.
- `Scenarios` (`scenarios.dfy`): the fixture runs of the test suite.

Facts about the code that shape the model:

- Within a poll, attribute changes come first, then removals, then one
  array of new lights, emitted only when some id is new (devices.py:46-53).
- Construction always emits exactly one array, `[]` when there are no
  lights (devices.py:22, 62-63).
- A poll keeps the fetched snapshot as it is, so a removed light is
  forgotten entirely; if it reappears, it is listed as new (devices.py:55).

## Model

| member | source | states |
|---|---|---|
| Lights.Rank | devices.py:12-16 | each attribute sits at one position of the compared list name, brightness, on |
| Lights.LightStateAttrsComplete | devices.py:12-16 | the compared list holds every attribute of a light state, each once, in the order name, brightness, on |
| Lights.LightEqualIffNoAttrDiffers | devices.py:30-34 | two light states are equal exactly when none of the three attributes differs, so whole-state equality and per-attribute comparison agree |
| Lights.AttrKeysDistinct | devices.py:60 | attribute keys are distinct and never "id", so a change object always has exactly two keys |
| Events.LightFields | devices.py:30-34 | a light state is the dictionary with exactly the keys name, brightness, on holding its values |
| Events.LightObject | devices.py:63 | the object of one new light has exactly the keys id, name, brightness, on, with its id and its three values |
| Events.Render | devices.py:57-66 | a change renders as the two-key object {id, attribute: new value}; a removal renders as {id, on: false}; a list of new lights renders as an array of their full objects, of the same length |
| Events.RemovalRendersAsSwitchOff | devices.py:65-66 | the object written for a removed light is identical to the one written when that light is switched off |
| Events.RenderAttrChangedInjective | devices.py:60 | two change events that render to the same object are the same event, so the id, the attribute and the value can be read back |
| Devices.DiffAttrsSound | devices.py:58-60 | every event of the attribute loop reports an attribute of the list whose value differs, with the light's id and the attribute's new value |
| Devices.DiffAttrsComplete | devices.py:58-60 | every attribute of the list whose value differs is reported by the attribute loop |
| Devices.DiffAttrsOrdered | devices.py:58-60 | for a list in the order name, brightness, on, the attribute loop reports attributes in list order, each at most once |
| Devices.DiffLight | devices.py:57-60 | `output_difference` reports attribute a exactly when a differs, carrying its new value; each attribute at most once, in the order name, brightness, on; it emits nothing exactly when the two states are equal |
| Devices.ChangeEvents | devices.py:46-47 | the first loop of `poll` emits only attribute changes of kept ids, each a real difference against the kept state carrying the fetched value |
| Devices.RemovalEvents | devices.py:49-50 | the second loop emits one event per listed id: the k-th event is the removal of the k-th id |
| Devices.NewLightsEntries | devices.py:62-63 | the list of new lights has one entry per listed id, and holds the pair (id, state) exactly when id is listed with that fetched state |
| Devices.Reconcile | devices.py:39-53 | the events of a differing poll come in the order changes, removals, new lights, with at most one array, placed last; every change is a real difference against the pre-poll state |
| Devices.Init | devices.py:18-22 | construction keeps the initial snapshot and emits exactly one array, with one entry per light (none when there are no lights), holding exactly the pairs of the snapshot |
| Devices.Poll | devices.py:36-55 | after a poll the kept snapshot is the fetched one; an unchanged snapshot emits nothing; events are grouped changes, removals, new-lights array; changes are measured against the pre-poll state |
| DeviceProperties.RemovalEventsCount | devices.py:49-50 | the second loop reports the removal of an id exactly as often as the id is listed |
| DeviceProperties.EnumeratedOnce | devices.py:42-44 | an iteration order of an id set visits each id of the set once and no other id |
| DeviceProperties.ChangeEventsProjection | devices.py:44-47 | the change events the first loop emits for one kept id are exactly that light's `output_difference`, undisturbed by the other ids; an id not iterated gets none |
| DeviceProperties.ChangeEventsAgreeing | devices.py:46-47 | when every kept light is unchanged, the first loop emits nothing |
| DeviceProperties.GuardIsUnobservable | devices.py:38-53 | running the diff body on equal snapshots would emit nothing, so the equality guard changes no output |
| DeviceProperties.ReconcileNotEmpty | devices.py:39-53 | the diff of two different snapshots is never empty: a light was removed, added or changed |
| DeviceProperties.PollSilentIffUnchanged | devices.py:36-55 | a poll emits nothing if and only if the fetched snapshot equals the kept one |
| DeviceProperties.PollChangesOfLight | devices.py:46-47 | for a light kept in both snapshots, the change events of a poll for its id are exactly its `output_difference` against the pre-poll state |
| DeviceProperties.ReconcileChangesOfLight | devices.py:46-47 | in the diff, the change events for a light kept in both snapshots are exactly its `output_difference`; removals and the new-lights array contribute none |
| DeviceProperties.PollNoChangesOutsideKept | devices.py:44-47 | a poll emits no change event for an id missing from either snapshot |
| DeviceProperties.PollRemovedOnce | devices.py:42-50 | a poll emits Removed(id) exactly once if id vanished and never otherwise |
| DeviceProperties.ReconcileRemovedCount | devices.py:49-50 | the diff reports the removal of an id exactly as often as the removal order lists it |
| DeviceProperties.ReconcileWithoutNewLights | devices.py:52-53 | with no new id, the diff emits no array |
| DeviceProperties.ReconcileWithNewLights | devices.py:52-53 | with some new id, the diff ends with exactly one array listing exactly the new lights with their fetched states |
| DeviceProperties.ReconcileAddedList | devices.py:52-53 | the diff holds an array if and only if some id is new; any array is last and lists exactly the new lights |
| DeviceProperties.PollAddedList | devices.py:52-53 | a poll emits an array if and only if some id is new; any array is the last event and lists exactly the new ids, once each, with their fetched states |
| DeviceProperties.SingleAttributeChange | devices.py:57-60 | changing exactly one attribute yields exactly one event carrying the id, that attribute and its new value |
| DeviceProperties.AllAttributesChange | tests/test.py:133-151 | changing all three attributes yields exactly three events: name, brightness, on, in that order |
| DeviceProperties.PollOnlyRemovals | devices.py:49-50 | a poll that only drops lights emits exactly one removal per dropped id and nothing else |
| DeviceProperties.ReconcileOnlyRemovals | devices.py:49-50 | the diff against a snapshot that only lost lights is exactly one removal per lost light |
| DeviceProperties.PollOnlyAdditions | devices.py:52-53 | a poll that only adds lights emits exactly one array and nothing else |
| DeviceProperties.ReconcileOnlyAdditions | devices.py:52-53 | the diff against a snapshot that only gained lights is exactly one array of them |
| DeviceProperties.PollOneLightChanged | devices.py:46-47 | a poll in which one light changes emits exactly that light's `output_difference` |
| DeviceProperties.PollOneAttributeOfOneLight | devices.py:57-60 | a poll in which one attribute of one light changes emits exactly one event, and keeps the fetched snapshot |
| PollLoops.OutputDifference | devices.py:57-60 | the attribute loop computes exactly `Devices.DiffLight` |
| PollLoops.OutputChanges | devices.py:46-47 | the loop over kept ids computes exactly `Devices.ChangeEvents` |
| PollLoops.OutputRemovals | devices.py:49-50 | the loop over dropped ids computes exactly `Devices.RemovalEvents` |
| PollLoops.PollOnce | devices.py:36-55 | the three loops and the final assignment produce exactly the events and state of `Devices.Poll` |
| Scenarios.InitOnFixture | tests/test.py:43-65 | construction on the two-light fixture, in every order of its ids, keeps it and emits exactly one array holding its two lights and nothing else |
| Scenarios.PollNameChange | tests/test.py:69-85 | renaming light "1" emits only {id: "1", name: new name} and keeps the new name |
| Scenarios.PollBrightnessChange | tests/test.py:89-107 | raising light "1" to brightness 101 emits only {id: "1", brightness: 101} |
| Scenarios.PollOnOffChange | tests/test.py:111-129 | switching light "1" off emits only {id: "1", on: false}, the same object its removal would emit |
| Scenarios.PollAllAttributesOfOneLight | tests/test.py:133-151 | changing all attributes of light "2" emits exactly three events, name, brightness, on |
| Scenarios.PollRemovesLight | tests/test.py:174-188 | dropping light "1" from the fixture emits exactly {id: "1", on: false} |
| Scenarios.PollAddsLight | devices.py:52-53 | a light appearing on a bridge with none is emitted in an array of its own, with its full state |
| Scenarios.DisappearThenReappear | devices.py:42-55 | a light that vanishes is reported removed once; when it reappears later it is listed as new with its current state |

## Left out

- Fetching (`fetch_resource`, `fetch_lights`, `fetch_light_state`): HTTP requests. The fetched snapshot is an input of `Devices.Init` and `Devices.Poll`.
- Process exit on a fetch error (`exit()` in `fetch_resource`): the model has no failing fetch.
- Missing keys in the bridge's reply: `fetch_light_state` reads each value with `.get` and so may store `None`. The model's `Light` always has a name, a brightness and an on flag.
- `output_object`: JSON text and printing. The model appends the event; `Events.Render` gives the dictionary or array that would be serialised. Key order is irrelevant because the objects are written with sorted keys.
- `get_endpoint` and the `ip` and `port` fields: URL assembly only. They take no part in the diff.
- The polling loop of `hue_listen.py`, the connectivity probe, `settings.py` and `utils.py`: drivers and configuration outside the diff engine.
- Devices.Poll: the order across ids within each group is a parameter, not Python's set iteration order, which the language does not fix. Every property holds for every order.
- Scenarios.PollRemovesLight: the test at tests/test.py:153-188 is not runnable as written. It lacks the `print_mock` parameter and `light_id`, and its first half expects a light "3" that its data never contains. Only its removal expectation and its check that the kept state equals the fetched one are modelled.
- Scenarios.PollAddsLight: for the same reason, the added-light expectation of that test is modelled on a bridge that starts empty, not on the test's data.
