/** `getDeviceName` (main.js:156-159): the platform object path of a device is
    its room's name, capitalized, a dot, and the device name with spaces turned
    into hyphens and repeated hyphens partly folded. */
module Paths {

  import opened Strings
  import opened Devices

  /** The device-name part of the path: three literal replace-all passes.
      The result never contains a space and is never longer than the name. */
  function Normalize(name: string): (r: string)
    ensures ' ' !in r
    ensures |r| <= |name|
  {
    var s1 := ReplaceAll(name, " ", "-");
    LemmaReplaceCharIsMap(name, " ", "-");
    assert ' ' !in s1 by {
      forall i | 0 <= i < |s1| ensures s1[i] != ' ' {
      }
    }
    ReplaceAll(ReplaceAll(s1, "---", "-"), "--", "-")
  }

  /** The object path of a device; the room must exist. The path is the room
      name, capitalized, a dot right after it, and the normalized device name
      after the dot. */
  function DeviceName(rooms: map<string, Room>, d: Device): (p: string)
    requires d.lcid in rooms
    ensures var room := rooms[d.lcid].name;
      && |p| > |room|
      && p[|room|] == '.'
      && IsCapitalized(p[..|room|]) && SameUpToCase(p[..|room|], room)
      && ' ' !in p[|room| + 1..]
      && p[|room| + 1..] == Normalize(d.name)
  {
    var room := rooms[d.lcid].name;
    var p := Capitalize(room) + "." + Normalize(d.name);
    assert p[..|room|] == Capitalize(room);
    assert p[|room| + 1..] == Normalize(d.name);
    p
  }

  /** `k` copies of the character `c`. */
  function Run(c: char, k: nat): (r: string)
    ensures |r| == k && forall i :: 0 <= i < k ==> r[i] == c
  {
    if k == 0 then "" else [c] + Run(c, k - 1)
  }

  /** The run of spaces may only be preceded by a character that is neither a
      space nor a hyphen. */
  predicate CleanEnd(a: string) {
    |a| == 0 || a[|a| - 1] !in " -"
  }

  predicate CleanStart(b: string) {
    |b| == 0 || b[0] !in " -"
  }

  /** Runs of one to four hyphens fold to a single hyphen under the second and
      third passes. */
  lemma LemmaShortHyphenRun(k: nat)
    requires 1 <= k <= 4
    ensures ReplaceAll(ReplaceAll(Run('-', k), "---", "-"), "--", "-") == "-"
  {
  }

  /** A maximal run of one to four spaces, with no hyphen on either side,
      becomes exactly one hyphen, and the text around it is normalized as if
      on its own. */
  lemma LemmaShortSpaceRun(a: string, k: nat, b: string)
    requires 1 <= k <= 4
    requires CleanEnd(a) && CleanStart(b)
    ensures Normalize(a + Run(' ', k) + b) == Normalize(a) + "-" + Normalize(b)
  {
    // First pass: spaces to hyphens.
    var a1, b1 := ReplaceAll(a, " ", "-"), ReplaceAll(b, " ", "-");
    LemmaCleanPass(a, Run(' ', k), b, " ");
    LemmaReplaceCharIsMap(Run(' ', k), " ", "-");
    assert ReplaceAll(Run(' ', k), " ", "-") == Run('-', k);
    // Second pass: "---" to "-".
    var a2, b2 := ReplaceAll(a1, "---", "-"), ReplaceAll(b1, "---", "-");
    LemmaCleanPass(a1, Run('-', k), b1, "---");
    // Third pass: "--" to "-".
    LemmaCleanPass(a2, ReplaceAll(Run('-', k), "---", "-"), b2, "--");
    LemmaShortHyphenRun(k);
  }

  /** One pass of `Normalize` over a run framed by clean text works on the
      three pieces apart and leaves the frame clean. */
  lemma LemmaCleanPass(a: string, h: string, b: string, pat: string)
    requires pat in {" ", "---", "--"}
    requires CleanEnd(a) && CleanStart(b)
    ensures ReplaceAll(a + h + b, pat, "-") == ReplaceAll(a, pat, "-") + ReplaceAll(h, pat, "-") + ReplaceAll(b, pat, "-")
    ensures CleanEnd(ReplaceAll(a, pat, "-")) && CleanStart(ReplaceAll(b, pat, "-"))
  {
    LemmaPassSplit(a, h, b, pat, "-");
  }

  /** Longer runs are not folded completely: five spaces become two hyphens. */
  lemma LemmaFiveSpaces()
    ensures Normalize(Run(' ', 5)) == "--"
  {
    var s1 := ReplaceAll(Run(' ', 5), " ", "-");
    LemmaReplaceCharIsMap(Run(' ', 5), " ", "-");
    assert s1 == "-----";
    assert s1[..3] == "---" && s1[3..] == "--";
    var s2 := ReplaceAll(s1, "---", "-");
    assert s2 == "-" + ReplaceAll("--", "---", "-") == "---";
    assert s2[..2] == "--" && s2[2..] == "-";
    assert ReplaceAll(s2, "--", "-") == "-" + ReplaceAll("-", "--", "-") == "--";
  }
}
