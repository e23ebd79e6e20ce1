# RWE SmartHome bridge — a Dafny model of its translation layer

The adapter connects an RWE SmartHome hub to an ioBroker-style platform. Its
only logic sits in `main.js`: a classifier that turns each hub device into the
`common` descriptor of a platform state object, a path builder that names that
object after the device's room and name, and two forwarding rules. Hub change
events are written to the platform acknowledged. Non-acknowledged platform
writes are passed to the device's setter.

The model is six modules of pure functions plus one method:

- `Wrappers` — the `Option` type used for lookups that can fail.
- `Strings` — `capitalize` and the literal, global `replaceAll` that the
  adapter installs on `String.prototype`.
- `Devices` — hub devices, rooms, the descriptor record and `Classify`. It
  covers the `initSmartHome` switch together with the nine `add*` builders.
  It also holds `FindDevice`, which stands in for `getDeviceById`.
- `Paths` — `Normalize` (the three replace passes) and `DeviceName`
  (`getDeviceName`).
- `Bridge` — the platform store (objects and states keyed by path). It models
  the calls the handlers make as `Action`s and gives their effect with `Apply`.
  It holds `AddDevice`, `OnHubChange`, `OnStateChange` (`statusChanged`) and
  the enumeration loop `InitSmartHome`.
- `Scenarios` — a worked example: a switch named "Ceiling  Lamp" in room
  "livingROOM".

Parameters stand in for what the vendor library does. A device carries the
value `getState()` returns. The value the device setter returns is an argument
of `OnStateChange`. Rooms are a map from id to room (`getRoomById`).
`getDeviceName` throws when the room is missing. So the functions that
build the path of one given device require its room. Enumeration requires
the room only for the devices it registers. `OnStateChange` requires
nothing: when the resolved device's room is missing, it stops after the
setter call, as `statusChanged` does when `getDeviceName` throws.

The model follows the code as written:

- a switch actuator leaves `write` unset;
- roller shutters are `level.blind` and writable with a 0–100 bound;
- humidity is `sensor.humidity`;
- numeric generic actuators are writable;
- window/door sensors are booleans labelled OPEN/CLOSED, and the raw
  `getState()` value is written (there is no "friendly state");
- alarms carry the ALARM/NO ALARM labels;
- paths are name-based, not id-based.

## Model

| member | source | states |
|---|---|---|
| Strings.Capitalize | main.js:3-5 | the result is capitalized (first character not lower-case, later ones not upper-case) and equals the input up to letter case; "" stays "" |
| Strings.LemmaCapitalizeUnique | main.js:3-5 | `capitalize` returns the only capitalized string that equals the input up to case |
| Strings.LemmaCapitalizeFixpoint | main.js:3-5 | a string is unchanged by `capitalize` exactly when it is already capitalized; `capitalize` is idempotent |
| Strings.ReplaceAll | main.js:7-10 | every character of the result comes from the input or the replacement; a replacement no longer than the pattern never lengthens the string |
| Strings.LemmaReplaceAllUnchanged | main.js:7-10 | with a shorter replacement, the string is left unchanged exactly when the pattern does not occur in it |
| Strings.LemmaReplaceAllForeign | main.js:7-10 | a string lacking the pattern's first character is left unchanged |
| Strings.LemmaReplaceAllAppend | main.js:7-10 | replacement distributes over a concatenation whose seam no occurrence can cross |
| Strings.LemmaReplaceCharIsMap | main.js:7-10 | a one-character pattern with a one-character replacement maps the string character by character |
| Devices.FindDevice | main.js:42 | a found device is among the hub's devices and carries the id; nothing is found exactly when no device carries it |
| Devices.Classify | main.js:108-154 | ignored types register and log nothing, and only they do; unlisted types register nothing and log one unknown-type line; a supported device is declined only for an unknown generic property; `write: true` exactly for roller shutters, room temperature actuators and boolean/numeric generic actuators, `write` unset exactly for switches; min 0 and max 100 with unit % exactly for roller shutter, humidity and luminance; °C and no bounds for temperatures; labelled descriptors are boolean |
| Devices.LemmaSwitch | main.js:178-198 | a switch actuator is a boolean `switch` labelled ON/OFF whatever its actuator class, logging nothing |
| Devices.LemmaGenericActuator | main.js:200-237 | BooleanProperty gives boolean/`switch`/writable; StringProperty gives string/`indicator`/read-only; NumericProperty gives number/`indicator`/writable; DateTimeProperty gives object/`indicator`/read-only; any other property registers nothing and logs one line |
| Devices.LemmaFixedRoles | main.js:239-333 | kind and role of alarm (`sensor.fire`, read-only, ALARM/NO ALARM), roller shutter, room temperature actuator and sensor, humidity and luminance sensors |
| Devices.LemmaWindowDoor | main.js:296-321 | a window/door sensor is a read-only boolean labelled OPEN/CLOSED; its role is `sensor.window`, `sensor.door` or `switch` by installation; it logs exactly when the installation is neither Window nor Door |
| Paths.Normalize | main.js:158 | the three replace passes leave no space in the name and never lengthen it |
| Paths.LemmaShortHyphenRun | main.js:158 | the second and third passes fold a run of one to four hyphens into one |
| Paths.LemmaShortSpaceRun | main.js:158 | a maximal run of one to four spaces with no hyphen beside it becomes exactly one hyphen, and the text on either side is normalized on its own |
| Paths.LemmaFiveSpaces | main.js:158 | five spaces become two hyphens, so longer runs are not fully folded |
| Paths.DeviceName | main.js:156-159 | the path is the room name capitalized (same letters up to case), a dot at the room name's length, then the normalized device name, which has no spaces |
| Bridge.Apply | main.js:167-175 | `setObjectNotExists` adds the object only at a free path and never touches an existing object or any state; `setState` replaces the state at its path and nothing else; a device setter call leaves the platform store unchanged |
| Bridge.AddDevice | main.js:161-176 | registration calls no device setter and every value it writes is acknowledged |
| Bridge.LemmaRegister | main.js:161-176 | after registration the path holds an object; an existing object is left as it was, otherwise a `state` object with `native.id` = device id is created; the state is the device's current value, acknowledged; no other path changes |
| Bridge.OnHubChange | main.js:86-95 | a hub change writes exactly when the object exists, and then writes the device's current value, acknowledged, and nothing else |
| Bridge.LemmaRegisteredDeviceForwards | main.js:86-95 | once registered, reading back gives the value reported at registration, and a later hub change stores the new value acknowledged |
| Bridge.OnStateChange | main.js:36-57 | an absent or acknowledged state never reaches the hub; a missing object or an unresolved `native.id` does nothing; otherwise the setter is called exactly once with the requested value, and an acknowledged echo is written exactly when the returned value differs and the device's room exists (a missing room makes `getDeviceName` throw after the setter call) |
| Bridge.LemmaUserWriteForwarded | main.js:36-57 | for any registered device of a hub with unique ids, a non-acknowledged write to its fresh path calls that device's setter exactly once with the written value, and writes the returned value acknowledged to the same path exactly when it differs |
| Bridge.LemmaClassifyUnknownLines | main.js:150-151 | classifying a device writes one unknown-type line if its type is unlisted and none otherwise |
| Bridge.FirstAt | main.js:111-153 | over the per-device path sequence: a position below `i` holding the path, or none exactly when no position does |
| Bridge.LastAt | main.js:111-153 | over the per-device path sequence: a position below `i` holding the path, or none exactly when no position does |
| Bridge.LemmaFirstAtIsFirst | main.js:111-153 | no position before the one `FirstAt` finds holds the path |
| Bridge.LemmaLastAtIsLast | main.js:111-153 | no position after the one `LastAt` finds, below `i`, holds the path |
| Bridge.LemmaFirstAtIs | main.js:111-153 | a position holding the path with none before it is the one `FirstAt` finds |
| Bridge.LemmaLastAtIs | main.js:111-153 | a position holding the path with none after it below `i` is the one `LastAt` finds |
| Bridge.FirstWriter | main.js:111-153 | an accepted device among the first `i` that is registered at the path, or none exactly when no such device exists |
| Bridge.LastWriter | main.js:111-153 | an accepted device among the first `i` that is registered at the path, or none exactly when no such device exists |
| Bridge.LemmaFirstWriterIsFirst | main.js:111-153 | no device before the first writer is registered at its path |
| Bridge.LemmaLastWriterIsLast | main.js:111-153 | no device after the last writer, among the first `i`, is registered at its path |
| Bridge.LemmaFirstWriterIs | main.js:111-153 | a device registered at a path that no earlier device is registered at is the first writer there |
| Bridge.LemmaLastWriterIs | main.js:111-153 | a device registered at a path that no later device among the first `i` is registered at is the last writer there |
| Bridge.LemmaRegisterStep | main.js:111-153 | registering one more device keeps, at every path, the enumeration invariant: a path has an object exactly when it had one before or some accepted device so far maps to it, and that object is the old one or the first such device's `state` object; a path has a state exactly when it had one or some accepted device maps to it, and the state is the last such device's `getState()` value, acknowledged, or the old state |
| Bridge.InitSmartHome | main.js:108-154 | after enumeration, a path has an object exactly when it had one before or some accepted device maps to it. That object is the old one or the first such device's `state` object. A path has a state exactly when it had one or some accepted device maps to it, and the state is the last such device's `getState()` value, acknowledged, or else the old state. Declined devices change nothing. There are as many unknown-type lines as unlisted devices |
| Bridge.AcceptedPaths | main.js:111-153 | a path is in the set exactly when some accepted device among the first `i` is registered at it |
| Bridge.LemmaEnumerationKeys | main.js:108-154 | after enumeration the objects and the states exist exactly at the old paths plus the accepted devices' paths |
| Bridge.LemmaEnumerationFirstObject | main.js:108-176 | after enumeration, an accepted device that no earlier device shares a path with has its own `state` object there, unless an object existed before |
| Bridge.LemmaEnumerationLastState | main.js:108-176 | after enumeration, an accepted device that no later device shares a path with has its own `getState()` value, acknowledged, at its path |
| Bridge.LemmaEnumerationValue | main.js:108-154 | after enumeration, an accepted device whose path no other device maps to has an object there: the old one if it existed, otherwise its own `state` object. The state there is its own `getState()` value, acknowledged |
| Scenarios.LemmaTwoWords | main.js:158 | two plain words separated by two spaces are joined by one hyphen |
| Scenarios.LemmaLampPath | main.js:156-158 | a device "Ceiling  Lamp" in room "livingROOM" has the path "Livingroom.Ceiling-Lamp" |
| Scenarios.LemmaLampForward | main.js:36-57 | a user write of `true` to the registered lamp calls its setter once; no echo follows when the device returns `true`, and an acknowledged `false` follows when it returns `false` |

## Left out

- Adapter lifecycle: the `unload`, `ready` and `message` handlers, the configuration checks, login, `init`, the Debug stream and `subscribeStates` (main.js:19-28, 59-106). They are platform and hub I/O. The model starts from an enumerated hub.
- The `objectChange` subscription into `statusChanged` (main.js:31). Its payload is an object, not a state.
- Bridge.OnStateChange: `getForeignObject` and the handler receive full ids (`<adapter>.<instance>.<path>`), while `setObjectNotExists` and `setState` take ids relative to the adapter. The model keys every object and state by the relative path and leaves the namespace prefix out.
- Bridge.InitSmartHome: when an accepted device's room is missing, `getDeviceName` throws and ends the enumeration part-way. The model requires those rooms to exist and does not model the aborted run.
- Vendor library behaviour. `getState` is a field of the device. The setter's return value is a parameter. The setter's effect on the hub is not modelled. `getDeviceById` is modelled as the first enumerated device with the id. `getRoomById` is a map lookup.
- Asynchrony. The handlers' platform calls are applied in the order they are issued. In the adapter they are asynchronous, so a `setState` could land before `setObjectNotExists` completes.
- Bridge.OnStateChange: a platform lookup error is logged and a missing object makes the callback throw. Both are modelled as "no action", and the error log line is not modelled.
- Log text and `console.log`. Logs are modelled as typed events (unknown device type, unknown generic property, unusual installation), and only their number and kind are stated.
- Strings.Capitalize: case mapping covers ASCII letters only. Every non-ASCII letter is left as it is, so "KÜCHE" becomes "KÜche" in the model but "Küche" in JavaScript. Mappings that change length (such as ß) are out of scope too.
- General regular-expression semantics of `new RegExp(search, 'g')`. Only the literal patterns " ", "---" and "--" are used, and they contain no metacharacters.
- JavaScript values. A device value is null, a boolean, an integer or a string. Floating-point numbers and object values (a DateTime property) are not modelled. `!==` is modelled as inequality of these values.
- The `type` argument of `addDevice` is never passed, so every object is a `"state"`.
- A generic actuator without a nested `State.State` would throw. The model assumes the property type is present.
