/** The hub-side device model and the device classifier: `initSmartHome`'s
    dispatch on `device.Type` (main.js:108-154) together with the `add*`
    builders (main.js:178-333), each of which turns a hub device into the
    `common` part of a platform state object. */
module Devices {

  import opened Wrappers

  /** A value a device reports through `getState()` or accepts in `setState`. */
  datatype Value = Null | Bool(b: bool) | Number(n: int) | Text(s: string)

  /** A hub device, reduced to the fields the bridge reads. `propertyType` is
      `State.State.PropertyType` (read for generic actuators only), `state` is
      what `getState()` currently returns. */
  datatype Device = Device(
    id: string,
    name: string,
    typ: string,
    lcid: string,
    actCls: string,
    propertyType: string,
    installation: string,
    state: Value)

  datatype Room = Room(id: string, name: string)

  /** The hub session after enumeration: its devices in the hub's own order and
      its rooms keyed by id (`getRoomById`). */
  datatype Hub = Hub(devices: seq<Device>, rooms: map<string, Room>)

  /** `getDeviceById`: the first enumerated device carrying the id. */
  function FindDevice(devices: seq<Device>, id: string): (r: Option<Device>)
    ensures r.Some? ==> r.value in devices && r.value.id == id
    ensures r.None? <==> forall d :: d in devices ==> d.id != id
  {
    if |devices| == 0 then None
    else if devices[0].id == id then Some(devices[0])
    else FindDevice(devices[1..], id)
  }

  // Device type tags dispatched on by initSmartHome.
  const SwitchActuator := "SwitchActuator"
  const GenericActuator := "GenericActuator"
  const AlarmActuator := "AlarmActuator"
  const RoomTemperatureActuator := "RoomTemperatureActuator"
  const RollerShutterActuator := "RollerShutterActuator"
  const RoomHumiditySensor := "RoomHumiditySensor"
  const RoomTemperatureSensor := "RoomTemperatureSensor"
  const WindowDoorSensor := "WindowDoorSensor"
  const LuminanceSensor := "LuminanceSensor"

  const SupportedTypes: set<string> := {
    SwitchActuator, GenericActuator, AlarmActuator, RoomTemperatureActuator,
    RollerShutterActuator, RoomHumiditySensor, RoomTemperatureSensor,
    WindowDoorSensor, LuminanceSensor }

  /** Types that are skipped without a log line. */
  const IgnoredTypes: set<string> := {
    "GenericSensor", "HumiditySensor", "TemperatureSensor", "PushButtonSensor",
    "SmokeDetectorSensor", "ValveActuator", "ThermostatActuator",
    "MotionDetectionSensor" }

  // Property type tags of a generic actuator's nested state.
  const BooleanProperty := "BooleanProperty"
  const StringProperty := "StringProperty"
  const NumericProperty := "NumericProperty"
  const DateTimeProperty := "DateTimeProperty"

  const PropertyTypes: set<string> := {
    BooleanProperty, StringProperty, NumericProperty, DateTimeProperty }

  /** The `common.type` of a platform state object. */
  datatype ValueKind = BooleanKind | StringKind | NumberKind | ObjectKind

  /** The `common.states` labels of a boolean object. */
  datatype Labels = Labels(onTrue: string, onFalse: string)

  /** The `common` record handed to `setObjectNotExists`. A field the builder
      does not set is `None`. */
  datatype Descriptor = Descriptor(
    name: string,
    kind: ValueKind,
    role: string,
    write: Option<bool>,
    unit: Option<string>,
    min: Option<int>,
    max: Option<int>,
    states: Option<Labels>)

  /** The diagnostics the classifier can emit. */
  datatype LogEvent =
    | UnknownDeviceType(typ: string, name: string)
    | UnknownProperty(propertyType: string)
    | UnusualInstallation(installation: string)

  /** What classifying one device produces: the descriptor to register, if any,
      and the log lines written on the way. */
  datatype Classification = Classification(desc: Option<Descriptor>, logs: seq<LogEvent>)

  function Accept(desc: Descriptor): Classification {
    Classification(Some(desc), [])
  }

  const Percent := "%"
  const Celsius := "°C"

  function SwitchCommon(d: Device): Descriptor {
    // Both arms of the ActCls switch ("Light" and any other class) choose the
    // same role, so the class does not matter.
    Descriptor(d.name, BooleanKind, "switch", None, None, None, None, Some(Labels("ON", "OFF")))
  }

  function GenericActuatorClass(d: Device): Classification {
    var p := d.propertyType;
    if p == BooleanProperty then
      Accept(Descriptor(d.name, BooleanKind, "switch", Some(true), None, None, None, None))
    else if p == StringProperty then
      Accept(Descriptor(d.name, StringKind, "indicator", Some(false), None, None, None, None))
    else if p == NumericProperty then
      Accept(Descriptor(d.name, NumberKind, "indicator", Some(true), None, None, None, None))
    else if p == DateTimeProperty then
      Accept(Descriptor(d.name, ObjectKind, "indicator", Some(false), None, None, None, None))
    else
      Classification(None, [UnknownProperty(p)])
  }

  function AlarmCommon(d: Device): Descriptor {
    Descriptor(d.name, BooleanKind, "sensor.fire", Some(false), None, None, None,
      Some(Labels("ALARM", "NO ALARM")))
  }

  function RollerShutterCommon(d: Device): Descriptor {
    Descriptor(d.name, NumberKind, "level.blind", Some(true), Some(Percent), Some(0), Some(100), None)
  }

  function RoomTemperatureActuatorCommon(d: Device): Descriptor {
    Descriptor(d.name, NumberKind, "level.temperature", Some(true), Some(Celsius), None, None, None)
  }

  function RoomHumidityCommon(d: Device): Descriptor {
    Descriptor(d.name, NumberKind, "sensor.humidity", Some(false), Some(Percent), Some(0), Some(100), None)
  }

  function RoomTemperatureSensorCommon(d: Device): Descriptor {
    Descriptor(d.name, NumberKind, "sensor.temperature", Some(false), Some(Celsius), None, None, None)
  }

  function WindowDoorClass(d: Device): Classification {
    var role :=
      if d.installation == "Window" then "sensor.window"
      else if d.installation == "Door" then "sensor.door"
      else "switch";
    var logs := if d.installation in {"Window", "Door"} then [] else [UnusualInstallation(d.installation)];
    Classification(
      Some(Descriptor(d.name, BooleanKind, role, Some(false), None, None, None, Some(Labels("OPEN", "CLOSED")))),
      logs)
  }

  function LuminanceCommon(d: Device): Descriptor {
    Descriptor(d.name, NumberKind, "sensor.luminance", Some(false), Some(Percent), Some(0), Some(100), None)
  }

  /** Devices registered with a 0..100 bound. */
  const BoundedTypes: set<string> := {RollerShutterActuator, RoomHumiditySensor, LuminanceSensor}

  /** Devices registered with unit degrees Celsius. */
  const TemperatureTypes: set<string> := {RoomTemperatureActuator, RoomTemperatureSensor}

  /** Devices registered with `write: true`. */
  predicate WritableDevice(d: Device) {
    d.typ in {RollerShutterActuator, RoomTemperatureActuator}
    || (d.typ == GenericActuator && d.propertyType in {BooleanProperty, NumericProperty})
  }

  /** The device is neither supported nor on the ignore list. */
  predicate Unlisted(d: Device) {
    d.typ !in SupportedTypes && d.typ !in IgnoredTypes
  }

  /** The classifier: the switch over `device.Type` in initSmartHome together
      with the builder it calls. */
  function Classify(d: Device): (c: Classification)
    // Ignored types register nothing and log nothing, and only they do.
    ensures c.desc.None? && c.logs == [] <==> d.typ in IgnoredTypes
    // Unlisted types register nothing and log exactly one unknown-type line.
    ensures Unlisted(d) ==> c == Classification(None, [UnknownDeviceType(d.typ, d.name)])
    ensures forall e :: e in c.logs && e.UnknownDeviceType? ==> Unlisted(d)
    ensures |c.logs| <= 1
    // A supported device is declined only for an unknown generic property.
    ensures c.desc.None? <==>
      d.typ !in SupportedTypes || (d.typ == GenericActuator && d.propertyType !in PropertyTypes)
    ensures c.desc.Some? ==> c.desc.value.name == d.name
    // Writability: true for exactly the writable devices, unset only for switches.
    ensures c.desc.Some? ==>
      && (c.desc.value.write == Some(true) <==> WritableDevice(d))
      && (c.desc.value.write.None? <==> d.typ == SwitchActuator)
    // Bounds: 0 <= 100 with unit % for exactly the bounded devices.
    ensures c.desc.Some? ==>
      && (c.desc.value.min.Some? <==> d.typ in BoundedTypes)
      && (c.desc.value.max.Some? <==> d.typ in BoundedTypes)
      && (d.typ in BoundedTypes ==>
            c.desc.value.min == Some(0) && c.desc.value.max == Some(100)
            && c.desc.value.unit == Some(Percent))
    // Temperatures carry degrees Celsius and no bounds.
    ensures c.desc.Some? && d.typ in TemperatureTypes ==>
      c.desc.value.unit == Some(Celsius) && c.desc.value.min.None? && c.desc.value.max.None?
    // Labelled descriptors are boolean.
    ensures c.desc.Some? && c.desc.value.states.Some? ==> c.desc.value.kind == BooleanKind
  {
    var t := d.typ;
    if t == SwitchActuator then Accept(SwitchCommon(d))
    else if t == GenericActuator then GenericActuatorClass(d)
    else if t == AlarmActuator then Accept(AlarmCommon(d))
    else if t == RoomTemperatureActuator then Accept(RoomTemperatureActuatorCommon(d))
    else if t == RollerShutterActuator then Accept(RollerShutterCommon(d))
    else if t == RoomHumiditySensor then Accept(RoomHumidityCommon(d))
    else if t == RoomTemperatureSensor then Accept(RoomTemperatureSensorCommon(d))
    else if t == WindowDoorSensor then WindowDoorClass(d)
    else if t == LuminanceSensor then Accept(LuminanceCommon(d))
    else if t in IgnoredTypes then Classification(None, [])
    else Classification(None, [UnknownDeviceType(t, d.name)])
  }

  /** The nested dispatch of a generic actuator on its property type. */
  lemma LemmaGenericActuator(d: Device)
    requires d.typ == GenericActuator
    ensures var c := Classify(d);
      && (d.propertyType == BooleanProperty ==>
            c.desc.Some? && c.desc.value.kind == BooleanKind && c.desc.value.role == "switch"
            && c.desc.value.write == Some(true))
      && (d.propertyType == StringProperty ==>
            c.desc.Some? && c.desc.value.kind == StringKind && c.desc.value.role == "indicator"
            && c.desc.value.write == Some(false))
      && (d.propertyType == NumericProperty ==>
            c.desc.Some? && c.desc.value.kind == NumberKind && c.desc.value.role == "indicator"
            && c.desc.value.write == Some(true))
      && (d.propertyType == DateTimeProperty ==>
            c.desc.Some? && c.desc.value.kind == ObjectKind && c.desc.value.role == "indicator"
            && c.desc.value.write == Some(false))
      && (d.propertyType !in PropertyTypes ==>
            c.desc.None? && c.logs == [UnknownProperty(d.propertyType)])
  {
  }

  /** A window/door sensor is a read-only boolean labelled OPEN/CLOSED whose role
      follows its installation. */
  lemma LemmaWindowDoor(d: Device)
    requires d.typ == WindowDoorSensor
    ensures var c := Classify(d);
      && c.desc.Some?
      && c.desc.value.kind == BooleanKind
      && c.desc.value.write == Some(false)
      && c.desc.value.states == Some(Labels("OPEN", "CLOSED"))
      && c.desc.value.role ==
           (if d.installation == "Window" then "sensor.window"
            else if d.installation == "Door" then "sensor.door"
            else "switch")
      && (c.logs == [] <==> d.installation in {"Window", "Door"})
  {
  }

  /** A switch actuator is a boolean `switch` labelled ON/OFF whatever its
      actuator class. */
  lemma LemmaSwitch(d: Device)
    requires d.typ == SwitchActuator
    ensures var c := Classify(d);
      && c.desc.Some?
      && c.desc.value.kind == BooleanKind
      && c.desc.value.role == "switch"
      && c.desc.value.states == Some(Labels("ON", "OFF"))
      && c.logs == []
  {
  }

  /** The remaining fixed rows of the table: kind and role per type. */
  lemma LemmaFixedRoles(d: Device)
    requires d.typ in SupportedTypes - {SwitchActuator, GenericActuator, WindowDoorSensor}
    ensures var c := Classify(d);
      && c.desc.Some? && c.logs == []
      && (d.typ == AlarmActuator ==>
            c.desc.value.kind == BooleanKind && c.desc.value.role == "sensor.fire"
            && c.desc.value.write == Some(false) && c.desc.value.states == Some(Labels("ALARM", "NO ALARM")))
      && (d.typ == RollerShutterActuator ==>
            c.desc.value.kind == NumberKind && c.desc.value.role == "level.blind")
      && (d.typ == RoomTemperatureActuator ==>
            c.desc.value.kind == NumberKind && c.desc.value.role == "level.temperature")
      && (d.typ == RoomHumiditySensor ==>
            c.desc.value.kind == NumberKind && c.desc.value.role == "sensor.humidity")
      && (d.typ == RoomTemperatureSensor ==>
            c.desc.value.kind == NumberKind && c.desc.value.role == "sensor.temperature")
      && (d.typ == LuminanceSensor ==>
            c.desc.value.kind == NumberKind && c.desc.value.role == "sensor.luminance")
  {
  }
}
