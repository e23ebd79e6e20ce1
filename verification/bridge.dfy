/** The forwarding rules between the hub and the platform: registration of a
    classified device (`addDevice`, main.js:161-176), the hub change handler
    (main.js:86-95), the platform state-change handler (`statusChanged`,
    main.js:36-57) and the enumeration loop of `initSmartHome`
    (main.js:108-154). Every handler returns the platform and hub calls it
    makes as a list of actions; `Apply` gives their effect on the platform
    store. */
module Bridge {

  import opened Wrappers
  import opened Devices
  import opened Paths

  /** A platform state value with its acknowledgement flag. */
  datatype State = State(val: Value, ack: bool)

  /** A platform object: its `type`, its `common` descriptor and the hub device
      id kept in `native.id`. */
  datatype Obj = Obj(typ: string, common: Descriptor, nativeId: string)

  /** The platform's object tree and state tree, both keyed by path. */
  datatype Store = Store(objects: map<string, Obj>, states: map<string, State>)

  /** A call the bridge makes: `setObjectNotExists`, a platform `setState`, or
      a device's `setState`. */
  datatype Action =
    | CreateIfAbsent(path: string, obj: Obj)
    | WriteState(path: string, state: State)
    | CallSetter(deviceId: string, val: Value)

  /** The effect of one action on the platform store: `setObjectNotExists`
      only ever adds an object at a free path, a platform `setState` replaces
      the state at its path, and a device setter call leaves the store alone. */
  function Apply(st: Store, a: Action): (r: Store)
    ensures a.CreateIfAbsent? ==>
      && r.states == st.states
      && r.objects.Keys == st.objects.Keys + {a.path}
      && (forall q :: q in st.objects ==> r.objects[q] == st.objects[q])
      && (a.path !in st.objects ==> r.objects[a.path] == a.obj)
    ensures a.WriteState? ==>
      && r.objects == st.objects
      && r.states.Keys == st.states.Keys + {a.path}
      && r.states[a.path] == a.state
      && (forall q :: q in st.states && q != a.path ==> r.states[q] == st.states[q])
    ensures a.CallSetter? ==> r == st
  {
    match a
    case CreateIfAbsent(p, o) =>
      if p in st.objects then st else st.(objects := st.objects[p := o])
    case WriteState(p, s) => st.(states := st.states[p := s])
    case CallSetter(_, _) => st
  }

  function ApplyAll(st: Store, acts: seq<Action>): Store
    decreases |acts|
  {
    if |acts| == 0 then st else ApplyAll(Apply(st, acts[0]), acts[1..])
  }

  /** Every platform write among the actions is acknowledged. */
  predicate AllAcked(acts: seq<Action>) {
    forall i :: 0 <= i < |acts| && acts[i].WriteState? ==> acts[i].state.ack
  }

  /** The number of device setter calls among the actions. */
  function SetterCalls(acts: seq<Action>): (n: nat)
    ensures n <= |acts|
    ensures n == 0 <==> forall i :: 0 <= i < |acts| ==> !acts[i].CallSetter?
  {
    if |acts| == 0 then 0
    else (if acts[0].CallSetter? then 1 else 0) + SetterCalls(acts[1..])
  }

  /** `addDevice`: create the object if its path is free, then write the
      device's current value, acknowledged. */
  function AddDevice(rooms: map<string, Room>, d: Device, common: Descriptor): (acts: seq<Action>)
    requires d.lcid in rooms
    ensures AllAcked(acts)
    ensures SetterCalls(acts) == 0
  {
    var path := DeviceName(rooms, d);
    [ CreateIfAbsent(path, Obj("state", common, d.id)),
      WriteState(path, State(d.state, true)) ]
  }

  /** Registering a device leaves an existing object's descriptor alone,
      creates a `state` object remembering the device id otherwise, and always
      stores the device's current value, acknowledged; no other path changes. */
  lemma LemmaRegister(st: Store, rooms: map<string, Room>, d: Device, common: Descriptor)
    requires d.lcid in rooms
    ensures var path := DeviceName(rooms, d);
      var st' := ApplyAll(st, AddDevice(rooms, d, common));
      && path in st'.objects
      && st'.objects ==
           (if path in st.objects then st.objects else st.objects[path := Obj("state", common, d.id)])
      && st'.states == st.states[path := State(d.state, true)]
  {
    var acts := AddDevice(rooms, d, common);
    var s1 := Apply(st, acts[0]);
    var s2 := Apply(s1, acts[1]);
    assert acts[1..][1..] == [];
    assert ApplyAll(s1, acts[1..]) == ApplyAll(s2, []) == s2;
  }

  /** The hub change handler: when the device's object exists, write the
      device's current value to it, acknowledged; otherwise do nothing. */
  function OnHubChange(st: Store, rooms: map<string, Room>, d: Device): (acts: seq<Action>)
    requires d.lcid in rooms
    ensures AllAcked(acts)
    ensures SetterCalls(acts) == 0
    ensures acts != [] <==> DeviceName(rooms, d) in st.objects
    ensures acts != [] ==> acts == [WriteState(DeviceName(rooms, d), State(d.state, true))]
  {
    var path := DeviceName(rooms, d);
    if path in st.objects then [WriteState(path, State(d.state, true))] else []
  }

  /** `statusChanged` for a platform object at `id`: a non-acknowledged state
      is forwarded to the device named by the object's `native.id`, and the
      value the setter hands back (`returned`) is written back, acknowledged,
      when it differs from the requested one. A missing object, a missing
      state, an acknowledged state or an unknown device yield nothing. The
      echo's path needs the device's room: when the room is missing,
      `getDeviceName` throws after the setter call, so nothing follows it. */
  function OnStateChange(st: Store, hub: Hub, id: string, state: Option<State>, returned: Value)
    : (acts: seq<Action>)
    ensures AllAcked(acts)
    // Acknowledged or absent states never reach the hub.
    ensures state.None? || state.value.ack ==> acts == []
    // Nothing happens unless the object exists and names a known device.
    ensures id !in st.objects || FindDevice(hub.devices, st.objects[id].nativeId).None? ==> acts == []
    // Otherwise the setter is called exactly once, first, with the requested value.
    ensures id in st.objects && state.Some? && !state.value.ack
            && FindDevice(hub.devices, st.objects[id].nativeId).Some? ==>
      var d := FindDevice(hub.devices, st.objects[id].nativeId).value;
      && SetterCalls(acts) == 1
      && acts[0] == CallSetter(d.id, state.value.val)
      && d.id == st.objects[id].nativeId
      // An echo is written exactly when the device returned another value
      // and its room is known.
      && (|acts| == 2 <==> returned != state.value.val && d.lcid in hub.rooms)
      && (|acts| == 2 ==> acts[1] == WriteState(DeviceName(hub.rooms, d), State(returned, true)))
    ensures |acts| <= 2
  {
    if id !in st.objects then []
    else match state
      case None => []
      case Some(s) =>
        if s.ack then []
        else match FindDevice(hub.devices, st.objects[id].nativeId)
          case None => []
          case Some(d) =>
            [CallSetter(d.id, s.val)]
            + (if returned != s.val && d.lcid in hub.rooms
               then [WriteState(DeviceName(hub.rooms, d), State(returned, true))]
               else [])
  }

  /** No two enumerated devices share an id. */
  predicate UniqueIds(devices: seq<Device>) {
    forall j, k :: 0 <= j < |devices| && 0 <= k < |devices| && devices[j].id == devices[k].id ==> j == k
  }

  /** A user write to the object freshly registered for a device reaches that
      device's setter exactly once, with the written value; an acknowledged
      echo follows exactly when the device hands back another value. */
  lemma LemmaUserWriteForwarded(st: Store, hub: Hub, i: nat, common: Descriptor, v: Value, returned: Value)
    requires i < |hub.devices| && UniqueIds(hub.devices)
    requires hub.devices[i].lcid in hub.rooms
    requires DeviceName(hub.rooms, hub.devices[i]) !in st.objects
    ensures var d := hub.devices[i];
      var path := DeviceName(hub.rooms, d);
      var acts := OnStateChange(ApplyAll(st, AddDevice(hub.rooms, d, common)), hub, path,
                                Some(State(v, false)), returned);
      && SetterCalls(acts) == 1
      && acts[0] == CallSetter(d.id, v)
      && (|acts| == 2 <==> returned != v)
      && (|acts| == 2 ==> acts[1] == WriteState(path, State(returned, true)))
  {
    var d := hub.devices[i];
    LemmaRegister(st, hub.rooms, d, common);
    var found := FindDevice(hub.devices, d.id);
    assert d in hub.devices;
    var k :| 0 <= k < |hub.devices| && hub.devices[k] == found.value;
    assert found.value == d;
  }

  /** Once registered, a device's hub changes always reach its object. */
  lemma LemmaRegisteredDeviceForwards(st: Store, rooms: map<string, Room>, d: Device, common: Descriptor, later: Value)
    requires d.lcid in rooms
    ensures var st' := ApplyAll(st, AddDevice(rooms, d, common));
      var d' := d.(state := later);
      var st'' := ApplyAll(st', OnHubChange(st', rooms, d'));
      && DeviceName(rooms, d) in st'.states
      && st'.states[DeviceName(rooms, d)] == State(d.state, true)
      && DeviceName(rooms, d) in st''.states
      && st''.states[DeviceName(rooms, d)] == State(later, true)
  {
    LemmaRegister(st, rooms, d, common);
    var st' := ApplyAll(st, AddDevice(rooms, d, common));
    var d' := d.(state := later);
    assert DeviceName(rooms, d') == DeviceName(rooms, d);
    var acts := OnHubChange(st', rooms, d');
    assert ApplyAll(st', acts) == ApplyAll(Apply(st', acts[0]), []);
  }

  /** The device is registered by the enumeration. */
  predicate Accepted(d: Device) {
    Classify(d).desc.Some?
  }

  /** The number of "UNKNOWN DEVICE TYPE" lines in a log. */
  function UnknownTypeLines(logs: seq<LogEvent>): nat
    decreases |logs|
  {
    if |logs| == 0 then 0
    else UnknownTypeLines(logs[..|logs| - 1]) + (if logs[|logs| - 1].UnknownDeviceType? then 1 else 0)
  }

  /** The number of devices whose type is neither supported nor ignored. */
  function UnlistedCount(devices: seq<Device>): nat
    decreases |devices|
  {
    if |devices| == 0 then 0
    else UnlistedCount(devices[..|devices| - 1]) + (if Unlisted(devices[|devices| - 1]) then 1 else 0)
  }

  lemma {:induction false} LemmaUnknownTypeLinesAppend(a: seq<LogEvent>, b: seq<LogEvent>)
    ensures UnknownTypeLines(a + b) == UnknownTypeLines(a) + UnknownTypeLines(b)
    decreases |b|
  {
    if |b| > 0 {
      var b' := b[..|b| - 1];
      assert (a + b)[..|a + b| - 1] == a + b';
      LemmaUnknownTypeLinesAppend(a, b');
    } else {
      assert a + b == a;
    }
  }

  /** Classifying one device writes one "UNKNOWN DEVICE TYPE" line when the
      device is unlisted and none otherwise. */
  lemma LemmaClassifyUnknownLines(d: Device)
    ensures UnknownTypeLines(Classify(d).logs) == (if Unlisted(d) then 1 else 0)
  {
  }

  /** Every accepted device's room exists: `getDeviceName` is called for
      exactly these devices during enumeration. */
  predicate RoomsForAccepted(hub: Hub) {
    forall j :: 0 <= j < |hub.devices| && Accepted(hub.devices[j]) ==> hub.devices[j].lcid in hub.rooms
  }

  /** One step of the enumeration: register the device if it is accepted. */
  function Register(rooms: map<string, Room>, r: Store, d: Device): Store
    requires Accepted(d) ==> d.lcid in rooms
  {
    match Classify(d).desc
    case Some(desc) => ApplyAll(r, AddDevice(rooms, d, desc))
    case None => r
  }

  /** The path the enumeration registers device `j` at, if it registers it. */
  function Target(hub: Hub, j: nat): Option<string>
    requires RoomsForAccepted(hub) && j < |hub.devices|
  {
    if Accepted(hub.devices[j]) then Some(DeviceName(hub.rooms, hub.devices[j])) else None
  }

  /** Every device's target, in enumeration order. */
  function Targets(hub: Hub): (ts: seq<Option<string>>)
    requires RoomsForAccepted(hub)
    ensures |ts| == |hub.devices|
    ensures forall j :: 0 <= j < |ts| ==> ts[j] == Target(hub, j)
  {
    seq(|hub.devices|, j requires 0 <= j < |hub.devices| => Target(hub, j))
  }

  /** The device `j` writes to path `p` during enumeration. */
  predicate WritesAt(hub: Hub, j: nat, p: string)
    requires RoomsForAccepted(hub) && j < |hub.devices|
  {
    Targets(hub)[j] == Some(p)
  }

  /** The first of the first `i` targets that is `p`. */
  function FirstAt(ts: seq<Option<string>>, p: string, i: nat): (w: Option<nat>)
    requires i <= |ts|
    ensures w.Some? ==> w.value < i && ts[w.value] == Some(p)
    ensures w.None? <==> forall j :: 0 <= j < i ==> ts[j] != Some(p)
  {
    if i == 0 then None
    else match FirstAt(ts, p, i - 1)
      case Some(j) => Some(j)
      case None => if ts[i - 1] == Some(p) then Some(i - 1) else None
  }

  /** The last of the first `i` targets that is `p`. */
  function LastAt(ts: seq<Option<string>>, p: string, i: nat): (w: Option<nat>)
    requires i <= |ts|
    ensures w.Some? ==> w.value < i && ts[w.value] == Some(p)
    ensures w.None? <==> forall j :: 0 <= j < i ==> ts[j] != Some(p)
  {
    if i == 0 then None
    else if ts[i - 1] == Some(p) then Some(i - 1)
    else LastAt(ts, p, i - 1)
  }

  /** `FirstAt` finds the earliest match: no target before it is `p`. */
  lemma {:induction false} LemmaFirstAtIsFirst(ts: seq<Option<string>>, p: string, i: nat, k: nat)
    requires i <= |ts| && FirstAt(ts, p, i).Some? && k < FirstAt(ts, p, i).value
    ensures ts[k] != Some(p)
  {
    if FirstAt(ts, p, i - 1).Some? {
      LemmaFirstAtIsFirst(ts, p, i - 1, k);
    }
  }

  /** `LastAt` finds the latest match: no target after it, below `i`, is `p`. */
  lemma {:induction false} LemmaLastAtIsLast(ts: seq<Option<string>>, p: string, i: nat, k: nat)
    requires i <= |ts| && LastAt(ts, p, i).Some? && LastAt(ts, p, i).value < k < i
    ensures ts[k] != Some(p)
  {
    if ts[i - 1] != Some(p) && k < i - 1 {
      LemmaLastAtIsLast(ts, p, i - 1, k);
    }
  }

  /** No device among the first `i` writes to `p` exactly when no target
      among the first `i` is `p`. */
  lemma LemmaNoWriter(hub: Hub, p: string, i: nat)
    requires RoomsForAccepted(hub) && i <= |hub.devices|
    ensures (forall j :: 0 <= j < i ==> !WritesAt(hub, j, p)) <==> (forall j :: 0 <= j < i ==> Targets(hub)[j] != Some(p))
  {
    forall j | 0 <= j < i
      ensures WritesAt(hub, j, p) <==> Targets(hub)[j] == Some(p)
    {
    }
  }

  /** A match with no match before it is what `FirstAt` finds. */
  lemma {:induction false} LemmaFirstAtIs(ts: seq<Option<string>>, p: string, i: nat, j: nat)
    requires j < i <= |ts| && ts[j] == Some(p)
    requires forall k :: 0 <= k < j ==> ts[k] != Some(p)
    ensures FirstAt(ts, p, i) == Some(j)
  {
    if i - 1 != j {
      LemmaFirstAtIs(ts, p, i - 1, j);
    } else {
      assert FirstAt(ts, p, j).None?;
    }
  }

  /** A match with no match after it below `i` is what `LastAt` finds. */
  lemma {:induction false} LemmaLastAtIs(ts: seq<Option<string>>, p: string, i: nat, j: nat)
    requires j < i <= |ts| && ts[j] == Some(p)
    requires forall k :: j < k < i ==> ts[k] != Some(p)
    ensures LastAt(ts, p, i) == Some(j)
  {
    if i - 1 != j {
      LemmaLastAtIs(ts, p, i - 1, j);
    }
  }

  /** The first of the first `i` devices that writes to `p`: its object is the
      one `setObjectNotExists` keeps. */
  function FirstWriter(hub: Hub, p: string, i: nat): (w: Option<nat>)
    requires RoomsForAccepted(hub) && i <= |hub.devices|
    ensures w.Some? ==> w.value < i && WritesAt(hub, w.value, p)
    ensures w.None? <==> forall j :: 0 <= j < i ==> !WritesAt(hub, j, p)
  {
    LemmaNoWriter(hub, p, i);
    FirstAt(Targets(hub), p, i)
  }

  /** The last of the first `i` devices that writes to `p`: its value is the
      one the state keeps. */
  function LastWriter(hub: Hub, p: string, i: nat): (w: Option<nat>)
    requires RoomsForAccepted(hub) && i <= |hub.devices|
    ensures w.Some? ==> w.value < i && WritesAt(hub, w.value, p)
    ensures w.None? <==> forall j :: 0 <= j < i ==> !WritesAt(hub, j, p)
  {
    LemmaNoWriter(hub, p, i);
    LastAt(Targets(hub), p, i)
  }

  /** `FirstWriter` is the earliest writer: no device before it writes to `p`. */
  lemma LemmaFirstWriterIsFirst(hub: Hub, p: string, i: nat, k: nat)
    requires RoomsForAccepted(hub) && i <= |hub.devices|
    requires FirstWriter(hub, p, i).Some? && k < FirstWriter(hub, p, i).value
    ensures !WritesAt(hub, k, p)
  {
    LemmaFirstAtIsFirst(Targets(hub), p, i, k);
  }

  /** `LastWriter` is the latest writer: no device after it, among the first
      `i`, writes to `p`. */
  lemma LemmaLastWriterIsLast(hub: Hub, p: string, i: nat, k: nat)
    requires RoomsForAccepted(hub) && i <= |hub.devices|
    requires LastWriter(hub, p, i).Some? && LastWriter(hub, p, i).value < k < i
    ensures !WritesAt(hub, k, p)
  {
    LemmaLastAtIsLast(Targets(hub), p, i, k);
  }

  /** A writer that no earlier device precedes is the first writer. */
  lemma LemmaFirstWriterIs(hub: Hub, p: string, i: nat, j: nat)
    requires RoomsForAccepted(hub) && j < i <= |hub.devices| && WritesAt(hub, j, p)
    requires forall k :: 0 <= k < j ==> !WritesAt(hub, k, p)
    ensures FirstWriter(hub, p, i) == Some(j)
  {
    var ts := Targets(hub);
    forall k | 0 <= k < j
      ensures ts[k] != Some(p)
    {
      assert !WritesAt(hub, k, p);
    }
    LemmaFirstAtIs(ts, p, i, j);
  }

  /** A writer that no later device among the first `i` follows is the last
      writer. */
  lemma LemmaLastWriterIs(hub: Hub, p: string, i: nat, j: nat)
    requires RoomsForAccepted(hub) && j < i <= |hub.devices| && WritesAt(hub, j, p)
    requires forall k :: j < k < i ==> !WritesAt(hub, k, p)
    ensures LastWriter(hub, p, i) == Some(j)
  {
    var ts := Targets(hub);
    forall k | j < k < i
      ensures ts[k] != Some(p)
    {
      assert !WritesAt(hub, k, p);
    }
    LemmaLastAtIs(ts, p, i, j);
  }

  /** The object registration creates for the device at index `j`. */
  function ObjectOf(hub: Hub, j: nat): Obj
    requires j < |hub.devices| && Accepted(hub.devices[j])
  {
    Obj("state", Classify(hub.devices[j]).desc.value, hub.devices[j].id)
  }

  /** The store `r` after registering the first `i` devices, relative to the
      store `st` the enumeration started from. */
  ghost predicate Registered(hub: Hub, st: Store, r: Store, i: nat)
    requires RoomsForAccepted(hub) && i <= |hub.devices|
  {
    ObjectsRegistered(hub, st, r, i) && StatesRegistered(hub, st, r, i)
  }

  /** Objects exist exactly at the old paths and the accepted devices' paths;
      an old object is kept, and a new one is that of the first device to
      write to its path. */
  ghost predicate ObjectsRegistered(hub: Hub, st: Store, r: Store, i: nat)
    requires RoomsForAccepted(hub) && i <= |hub.devices|
  {
    forall p :: ObjectRegisteredAt(hub, st, r, i, p)
  }

  predicate ObjectRegisteredAt(hub: Hub, st: Store, r: Store, i: nat, p: string)
    requires RoomsForAccepted(hub) && i <= |hub.devices|
  {
    && (p in r.objects <==> p in st.objects || FirstWriter(hub, p, i).Some?)
    && (p in r.objects ==>
          if p in st.objects then r.objects[p] == st.objects[p]
          else r.objects[p] == ObjectOf(hub, FirstWriter(hub, p, i).value))
  }

  /** States exist exactly at the old paths and the accepted devices' paths;
      a path no device writes to keeps its old state, any other holds the
      value of the last device written to it, acknowledged. */
  ghost predicate StatesRegistered(hub: Hub, st: Store, r: Store, i: nat)
    requires RoomsForAccepted(hub) && i <= |hub.devices|
  {
    forall p :: StateRegisteredAt(hub, st, r, i, p)
  }

  predicate StateRegisteredAt(hub: Hub, st: Store, r: Store, i: nat, p: string)
    requires RoomsForAccepted(hub) && i <= |hub.devices|
  {
    && (p in r.states <==> p in st.states || LastWriter(hub, p, i).Some?)
    && (p in r.states ==>
          match LastWriter(hub, p, i)
          case Some(j) => r.states[p] == State(hub.devices[j].state, true)
          case None => r.states[p] == st.states[p])
  }

  lemma LemmaRegisterStep(hub: Hub, st: Store, r: Store, i: nat)
    requires RoomsForAccepted(hub) && i < |hub.devices|
    requires Registered(hub, st, r, i)
    ensures Accepted(hub.devices[i]) ==> hub.devices[i].lcid in hub.rooms
    ensures Registered(hub, st, Register(hub.rooms, r, hub.devices[i]), i + 1)
  {
    var d, next := hub.devices[i], i + 1;
    if Accepted(d) {
      var r' := Register(hub.rooms, r, d);
      LemmaRegister(r, hub.rooms, d, Classify(d).desc.value);
      forall p ensures ObjectRegisteredAt(hub, st, r', next, p) && StateRegisteredAt(hub, st, r', next, p) {
        assert ObjectRegisteredAt(hub, st, r, i, p) && StateRegisteredAt(hub, st, r, i, p);
        LemmaObjectStepAt(hub, st, r, r', i, p);
        LemmaStateStepAt(hub, st, r, r', i, p);
      }
    } else {
      forall p ensures ObjectRegisteredAt(hub, st, r, next, p) && StateRegisteredAt(hub, st, r, next, p) {
        assert ObjectRegisteredAt(hub, st, r, i, p) && StateRegisteredAt(hub, st, r, i, p);
        assert FirstWriter(hub, p, i + 1) == FirstWriter(hub, p, i);
        assert LastWriter(hub, p, i + 1) == LastWriter(hub, p, i);
      }
    }
  }

  lemma LemmaObjectStepAt(hub: Hub, st: Store, r: Store, r': Store, i: nat, p: string)
    requires RoomsForAccepted(hub) && i < |hub.devices| && Accepted(hub.devices[i])
    requires ObjectRegisteredAt(hub, st, r, i, p)
    requires var path := DeviceName(hub.rooms, hub.devices[i]);
      r'.objects == (if path in r.objects then r.objects else r.objects[path := ObjectOf(hub, i)])
    ensures ObjectRegisteredAt(hub, st, r', i + 1, p)
  {
    var path := DeviceName(hub.rooms, hub.devices[i]);
    var fw := FirstWriter(hub, p, i);
    if p == path {
      assert WritesAt(hub, i, p);
      assert FirstWriter(hub, p, i + 1) == if fw.Some? then fw else Some(i);
    } else {
      assert !WritesAt(hub, i, p);
      assert FirstWriter(hub, p, i + 1) == fw;
    }
  }

  lemma LemmaStateStepAt(hub: Hub, st: Store, r: Store, r': Store, i: nat, p: string)
    requires RoomsForAccepted(hub) && i < |hub.devices| && Accepted(hub.devices[i])
    requires StateRegisteredAt(hub, st, r, i, p)
    requires var path := DeviceName(hub.rooms, hub.devices[i]);
      r'.states == r.states[path := State(hub.devices[i].state, true)]
    ensures StateRegisteredAt(hub, st, r', i + 1, p)
  {
    var path := DeviceName(hub.rooms, hub.devices[i]);
    if p == path {
      assert WritesAt(hub, i, p);
    } else {
      assert !WritesAt(hub, i, p);
      assert LastWriter(hub, p, i + 1) == LastWriter(hub, p, i);
    }
  }

  /** The paths the accepted devices among the first `i` are registered at. */
  function AcceptedPaths(hub: Hub, i: nat): (ps: set<string>)
    requires RoomsForAccepted(hub) && i <= |hub.devices|
    ensures forall p :: p in ps <==> LastWriter(hub, p, i).Some?
  {
    if i == 0 then {}
    else
      var here := if Accepted(hub.devices[i - 1]) then {DeviceName(hub.rooms, hub.devices[i - 1])} else {};
      AcceptedPaths(hub, i - 1) + here
  }

  /** After enumeration, objects and states exist exactly at the old paths and
      at the accepted devices' paths. */
  lemma LemmaEnumerationKeys(hub: Hub, st: Store, r: Store)
    requires RoomsForAccepted(hub) && Registered(hub, st, r, |hub.devices|)
    ensures r.objects.Keys == st.objects.Keys + AcceptedPaths(hub, |hub.devices|)
    ensures r.states.Keys == st.states.Keys + AcceptedPaths(hub, |hub.devices|)
  {
    var n := |hub.devices|;
    forall p ensures p in r.objects <==> p in st.objects || p in AcceptedPaths(hub, n) {
      assert ObjectRegisteredAt(hub, st, r, n, p);
      assert FirstWriter(hub, p, n).Some? <==> LastWriter(hub, p, n).Some?;
    }
    forall p ensures p in r.states <==> p in st.states || p in AcceptedPaths(hub, n) {
      assert StateRegisteredAt(hub, st, r, n, p);
    }
  }

  /** After enumeration, an accepted device whose path no other device is
      registered at holds its own `getState()` value, acknowledged, there. */
  lemma LemmaEnumerationValue(hub: Hub, st: Store, r: Store, j: nat)
    requires RoomsForAccepted(hub) && Registered(hub, st, r, |hub.devices|)
    requires j < |hub.devices| && Accepted(hub.devices[j])
    requires forall k :: 0 <= k < |hub.devices| && k != j ==> !WritesAt(hub, k, DeviceName(hub.rooms, hub.devices[j]))
    ensures var path := DeviceName(hub.rooms, hub.devices[j]);
      path in r.objects && r.objects[path] == (if path in st.objects then st.objects[path] else ObjectOf(hub, j))
    ensures var path := DeviceName(hub.rooms, hub.devices[j]);
      path in r.states && r.states[path] == State(hub.devices[j].state, true)
  {
    var n := |hub.devices|;
    var path := DeviceName(hub.rooms, hub.devices[j]);
    assert WritesAt(hub, j, path);
    assert ObjectRegisteredAt(hub, st, r, n, path) && StateRegisteredAt(hub, st, r, n, path);
  }

  /** After enumeration, the state at an accepted device's path is its own
      `getState()` value, acknowledged, as long as no later device is
      registered at that path: the last `setState` wins. */
  lemma LemmaEnumerationLastState(hub: Hub, st: Store, r: Store, j: nat)
    requires RoomsForAccepted(hub) && Registered(hub, st, r, |hub.devices|)
    requires j < |hub.devices| && Accepted(hub.devices[j])
    requires forall k :: j < k < |hub.devices| ==> !WritesAt(hub, k, DeviceName(hub.rooms, hub.devices[j]))
    ensures var path := DeviceName(hub.rooms, hub.devices[j]);
      path in r.states && r.states[path] == State(hub.devices[j].state, true)
  {
    var n := |hub.devices|;
    var path := DeviceName(hub.rooms, hub.devices[j]);
    assert WritesAt(hub, j, path);
    assert StateRegisteredAt(hub, st, r, n, path);
    LemmaLastWriterIs(hub, path, n, j);
  }

  /** After enumeration, an accepted device that no earlier device shares a
      path with owns the object there, unless one existed before: the first
      `setObjectNotExists` wins. */
  lemma LemmaEnumerationFirstObject(hub: Hub, st: Store, r: Store, j: nat)
    requires RoomsForAccepted(hub) && Registered(hub, st, r, |hub.devices|)
    requires j < |hub.devices| && Accepted(hub.devices[j])
    requires forall k :: 0 <= k < j ==> !WritesAt(hub, k, DeviceName(hub.rooms, hub.devices[j]))
    ensures var path := DeviceName(hub.rooms, hub.devices[j]);
      path in r.objects && r.objects[path] == (if path in st.objects then st.objects[path] else ObjectOf(hub, j))
  {
    var n := |hub.devices|;
    var path := DeviceName(hub.rooms, hub.devices[j]);
    assert WritesAt(hub, j, path);
    assert ObjectRegisteredAt(hub, st, r, n, path);
    LemmaFirstWriterIs(hub, path, n, j);
  }

  /** Classifying one more device keeps one unknown-type line per unlisted
      device seen so far. */
  lemma LemmaLogStep(devices: seq<Device>, i: nat, logs: seq<LogEvent>)
    requires i < |devices| && UnknownTypeLines(logs) == UnlistedCount(devices[..i])
    ensures UnknownTypeLines(logs + Classify(devices[i]).logs) == UnlistedCount(devices[..i + 1])
  {
    LemmaUnknownTypeLinesAppend(logs, Classify(devices[i]).logs);
    LemmaClassifyUnknownLines(devices[i]);
    assert devices[..i + 1][..i] == devices[..i];
  }

  /** `initSmartHome`: classify every enumerated device in order, register the
      accepted ones and collect the log lines. */
  method InitSmartHome(hub: Hub, st: Store) returns (r: Store, logs: seq<LogEvent>)
    requires RoomsForAccepted(hub)
    ensures Registered(hub, st, r, |hub.devices|)
    // One unknown-type line per unlisted device.
    ensures UnknownTypeLines(logs) == UnlistedCount(hub.devices)
  {
    var devices := hub.devices;
    r, logs := st, [];
    var i := 0;
    while i < |devices|
      invariant 0 <= i <= |devices|
      invariant Registered(hub, st, r, i)
      invariant UnknownTypeLines(logs) == UnlistedCount(devices[..i])
    {
      var d := devices[i];
      var c := Classify(d);
      LemmaRegisterStep(hub, st, r, i);
      r := Register(hub.rooms, r, d);
      LemmaLogStep(devices, i, logs);
      logs := logs + c.logs;
      i := i + 1;
    }
    assert devices[..i] == devices;
  }
}
