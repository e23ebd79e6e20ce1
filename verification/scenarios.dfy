/** Concrete walk-throughs of the bridge on small inputs. */
module Scenarios {

  import opened Wrappers
  import opened Strings
  import opened Devices
  import opened Paths
  import opened Bridge

  const Rooms := map["r1" := Room("r1", "livingROOM")]

  const CeilingLamp := Device("d1", "Ceiling  Lamp", SwitchActuator, "r1", "Light", "", "", Bool(false))

  /** A word without spaces or hyphens is its own normalized form. */
  lemma LemmaPlainWord(w: string)
    requires ' ' !in w && '-' !in w
    ensures Normalize(w) == w
  {
    LemmaReplaceAllForeign(w, " ", "-");
    LemmaReplaceAllForeign(w, "---", "-");
    LemmaReplaceAllForeign(w, "--", "-");
  }

  lemma LemmaLivingRoom()
    ensures Capitalize("livingROOM") == "Livingroom"
  {
    var r := Capitalize("livingROOM");
    assert r == [ToUpper('l')] + LowerString("livingROOM")[1..];
    assert LowerString("livingROOM")[1..] == "ivingroom";
  }

  /** Two plain words separated by two spaces are joined by one hyphen. */
  lemma LemmaTwoWords(a: string, b: string)
    requires ' ' !in a && '-' !in a && |a| > 0
    requires ' ' !in b && '-' !in b && |b| > 0
    ensures Normalize(a + "  " + b) == a + "-" + b
  {
    assert Run(' ', 2) == "  ";
    assert a[|a| - 1] in a && b[0] in b;
    LemmaShortSpaceRun(a, 2, b);
    LemmaPlainWord(a);
    LemmaPlainWord(b);
  }

  lemma LemmaCeilingLamp()
    ensures Normalize("Ceiling" + "  " + "Lamp") == "Ceiling-Lamp"
  {
    assert ' ' !in "Ceiling" && '-' !in "Ceiling";
    assert ' ' !in "Lamp" && '-' !in "Lamp";
    LemmaTwoWords("Ceiling", "Lamp");
  }

  /** A device called "Ceiling  Lamp" in a room called "livingROOM" lives at
      "Livingroom.Ceiling-Lamp". */
  lemma LemmaLampPath(rooms: map<string, Room>, d: Device)
    requires d.lcid in rooms && rooms[d.lcid].name == "livingROOM"
    requires d.name == "Ceiling" + "  " + "Lamp"
    ensures DeviceName(rooms, d) == "Livingroom.Ceiling-Lamp"
  {
    assert Capitalize(rooms[d.lcid].name) == "Livingroom" by { LemmaLivingRoom(); }
    assert Normalize(d.name) == "Ceiling-Lamp" by { LemmaCeilingLamp(); }
  }

  /** After registration, a user write of `true` to the lamp's object is
      forwarded to its setter once; no echo follows when the device reports
      the value it was given, and an acknowledged echo of `false` follows when
      it reports `false`. */
  lemma LemmaLampForward()
    ensures var hub := Hub([CeilingLamp], Rooms);
      var st := ApplyAll(Store(map[], map[]), AddDevice(Rooms, CeilingLamp, Classify(CeilingLamp).desc.value));
      var path := DeviceName(Rooms, CeilingLamp);
      && OnStateChange(st, hub, path, Some(State(Bool(true), false)), Bool(true))
           == [CallSetter("d1", Bool(true))]
      && OnStateChange(st, hub, path, Some(State(Bool(true), false)), Bool(false))
           == [CallSetter("d1", Bool(true)), WriteState(path, State(Bool(false), true))]
  {
  }
}
