/** mount-manager/device-utils.go: reading a disk's serial number from the output of the udev tools. */
module DeviceSerial {
  import opened Wrappers

  /** The class `\s` of the patterns. */
  predicate IsSpace(c: char) {
    c == ' ' || c == '\t' || c == '\n' || c == '\r' || c == 12 as char
  }

  predicate AllSpace(s: string) {
    forall c | c in s :: IsSpace(c)
  }

  predicate NoSpace(s: string) {
    forall c | c in s :: !IsSpace(c)
  }

  // The pattern ID_SERIAL_SHORT=([\S]+)\s*, which is not anchored

  const KEY := "ID_SERIAL_SHORT="

  predicate KeyAt(s: string, i: nat) {
    i + |KEY| <= |s| && s[i..i + |KEY|] == KEY
  }

  /** The pattern matches at `i` with the group ending at `j`. */
  predicate NvmeMatch(s: string, i: nat, j: nat) {
    KeyAt(s, i) && i + |KEY| < j <= |s| && NoSpace(s[i + |KEY|..j])
  }

  /** The match a search reports: the leftmost, and of those at its place the longest. */
  ghost predicate NvmeFound(s: string, i: nat, j: nat) {
    && NvmeMatch(s, i, j)
    && (forall i', j' | 0 <= i' < i :: !NvmeMatch(s, i', j'))
    && (forall j' | j' > j :: !NvmeMatch(s, i, j'))
  }

  /** The serial the pattern extracts. */
  ghost function NvmeSerial(s: string): Option<string> {
    if exists i: nat, j: nat :: NvmeFound(s, i, j) then
      var i: nat, j: nat :| NvmeFound(s, i, j); Some(s[i + |KEY|..j])
    else None
  }

  lemma NvmeFoundOnce(s: string, i: nat, j: nat, i': nat, j': nat)
    requires NvmeFound(s, i, j) && NvmeFound(s, i', j')
    ensures i == i' && j == j'
  {
  }

  lemma NvmeSerialIs(s: string, i: nat, j: nat)
    requires NvmeFound(s, i, j)
    ensures NvmeSerial(s) == Some(s[i + |KEY|..j])
  {
    var i': nat, j': nat :| NvmeFound(s, i', j') && NvmeSerial(s) == Some(s[i' + |KEY|..j']);
    NvmeFoundOnce(s, i, j, i', j');
  }

  lemma MatchNeedsLetter(s: string, i: nat, j: nat)
    requires NvmeMatch(s, i, j)
    ensures i + |KEY| < |s| && !IsSpace(s[i + |KEY|])
  {
    assert s[i + |KEY|] in s[i + |KEY|..j];
  }

  /** A scan from left to right finds that match, or there is none: no key is followed by a non-space. */
  method ParseNvmeSerial(s: string) returns (r: Option<string>)
    ensures r == NvmeSerial(s)
    ensures r.None? <==> forall i | 0 <= i < |s| - |KEY| :: KeyAt(s, i) ==> IsSpace(s[i + |KEY|])
  {
    var i := 0;
    while i + |KEY| < |s|
      invariant i + |KEY| <= |s| || i == 0
      invariant forall i' | 0 <= i' < i :: KeyAt(s, i') ==> i' + |KEY| < |s| && IsSpace(s[i' + |KEY|])
      decreases |s| - i
    {
      if s[i..i + |KEY|] == KEY && !IsSpace(s[i + |KEY|]) {
        var j := i + |KEY| + 1;
        while j < |s| && !IsSpace(s[j])
          invariant i + |KEY| < j <= |s|
          invariant NoSpace(s[i + |KEY|..j])
        {
          assert s[i + |KEY|..j + 1] == s[i + |KEY|..j] + [s[j]];
          j := j + 1;
        }
        NvmeStops(s, i, j);
        NvmeSerialIs(s, i, j);
        return Some(s[i + |KEY|..j]);
      }
      i := i + 1;
    }
    NvmeNowhere(s);
    return None;
  }

  lemma NvmeStops(s: string, i: nat, j: nat)
    requires NvmeMatch(s, i, j) && (j == |s| || IsSpace(s[j]))
    requires forall i' | 0 <= i' < i :: KeyAt(s, i') ==> i' + |KEY| < |s| && IsSpace(s[i' + |KEY|])
    ensures NvmeFound(s, i, j)
  {
    forall i', j' | 0 <= i' < i ensures !NvmeMatch(s, i', j') {
      if NvmeMatch(s, i', j') {
        MatchNeedsLetter(s, i', j');
      }
    }
    forall j' | j' > j ensures !NvmeMatch(s, i, j') {
      if j' <= |s| {
        assert s[j] in s[i + |KEY|..j'];
      }
    }
  }

  lemma NvmeNowhere(s: string)
    requires forall i | 0 <= i < |s| - |KEY| :: KeyAt(s, i) ==> IsSpace(s[i + |KEY|])
    ensures NvmeSerial(s) == None
  {
    forall i: nat, j: nat ensures !NvmeFound(s, i, j) {
      if NvmeMatch(s, i, j) {
        MatchNeedsLetter(s, i, j);
      }
    }
  }

  ghost predicate Contains(s: string) {
    exists i :: 0 <= i <= |s| && KeyAt(s, i)
  }

  /** The key does not overlap itself: its last character occurs in it only once. */
  lemma KeyHasNoBorder(p: string, rest: string, i: nat)
    requires i < |p| && KeyAt(p + KEY + rest, i)
    ensures KeyAt(p, i)
  {
    var s := p + KEY + rest;
    var last := i + |KEY| - 1;
    assert s[i..i + |KEY|][|KEY| - 1] == KEY[|KEY| - 1] == '=';
    assert s[last] == '=';
    if last >= |p| {
      assert last - |p| < |KEY| - 1;
      assert s[last] == KEY[last - |p|];
      assert forall k | 0 <= k < 15 :: KEY[k] != '=';
      assert false;
    }
    assert s[i..i + |KEY|] == p[i..i + |KEY|];
  }

  /** Whatever the tool prints before and after, the first line with the key gives its value back. */
  lemma NvmeRoundTrip(p: string, name: string, rest: string)
    requires !Contains(p) && name != "" && NoSpace(name) && (rest == "" || IsSpace(rest[0]))
    ensures NvmeSerial(p + KEY + name + rest) == Some(name)
  {
    var s := p + KEY + name + rest;
    var i, j := |p|, |p| + |KEY| + |name|;
    assert s == p + KEY + (name + rest);
    forall i' | 0 <= i' < i ensures !KeyAt(s, i') {
      if KeyAt(s, i') {
        KeyHasNoBorder(p, name + rest, i');
      }
    }
    assert s[i..i + |KEY|] == KEY;
    assert s[i + |KEY|..j] == name;
    NvmeStops(s, i, j);
    NvmeSerialIs(s, i, j);
  }

  // The pattern ^0Google\s+PersistentDisk\s+([\S]+)\s*$, which is anchored at both ends

  const VENDOR := "0Google"
  const MODEL := "PersistentDisk"

  /** `s` from `i` up to `j` is all spaces, or all other characters. */
  predicate Run(s: string, i: nat, j: nat, spaces: bool) {
    i <= j <= |s| && forall k | i <= k < j :: IsSpace(s[k]) == spaces
  }

  /** The pattern matches with the model at `a` and the group from `b` up to `c`. */
  predicate ScsiMatch(s: string, a: nat, b: nat, c: nat) {
    && VENDOR <= s && |VENDOR| < a && Run(s, |VENDOR|, a, true)
    && ModelAt(s, a) && a + |MODEL| < b && Run(s, a + |MODEL|, b, true)
    && b < c && Run(s, b, c, false) && Run(s, c, |s|, true)
  }

  predicate ModelAt(s: string, a: nat) {
    a + |MODEL| <= |s| && s[a..a + |MODEL|] == MODEL
  }

  /** The serial the pattern extracts. */
  ghost function ScsiSerial(s: string): Option<string> {
    if exists a: nat, b: nat, c: nat :: ScsiMatch(s, a, b, c) then
      var a: nat, b: nat, c: nat :| ScsiMatch(s, a, b, c); Some(s[b..c])
    else None
  }

  /** A run that something else follows ends in one place only. */
  lemma RunEndsOnce(s: string, i: nat, j: nat, k: nat, spaces: bool)
    requires Run(s, i, j, spaces) && (j < |s| ==> IsSpace(s[j]) != spaces)
    requires Run(s, i, k, spaces) && (k < |s| ==> IsSpace(s[k]) != spaces)
    ensures j == k
  {
  }

  lemma ModelStarts(s: string, a: nat)
    requires ModelAt(s, a)
    ensures !IsSpace(s[a])
  {
    assert s[a] == s[a..a + |MODEL|][0] == MODEL[0];
  }

  /** Where the runs of a match end is fixed by the text alone. */
  lemma ScsiMatchOnce(s: string, a: nat, b: nat, c: nat, a': nat, b': nat, c': nat)
    requires ScsiMatch(s, a, b, c) && ScsiMatch(s, a', b', c')
    ensures a == a' && b == b' && c == c'
  {
    ModelStarts(s, a);
    ModelStarts(s, a');
    RunEndsOnce(s, |VENDOR|, a, a', true);
    RunEndsOnce(s, a + |MODEL|, b, b', true);
    RunEndsOnce(s, b, c, c', false);
  }

  lemma ScsiSerialIs(s: string, a: nat, b: nat, c: nat)
    requires ScsiMatch(s, a, b, c)
    ensures ScsiSerial(s) == Some(s[b..c])
  {
    var a': nat, b': nat, c': nat :| ScsiMatch(s, a', b', c') && ScsiSerial(s) == Some(s[b'..c']);
    ScsiMatchOnce(s, a, b, c, a', b', c');
  }

  /** `parseScsiSerial` as a scan, each run skipped once and never tried shorter; None is an error. */
  method ParseScsiSerial(s: string) returns (r: Option<string>)
    ensures r == ScsiSerial(s)
  {
    if !(VENDOR <= s) {
      return None;
    }
    var a := Skip(s, |VENDOR|, true);
    if a == |VENDOR| || |s| < a + |MODEL| || s[a..a + |MODEL|] != MODEL {
      ScsiStuckAtModel(s, a);
      return None;
    }
    ModelStarts(s, a);
    var b := Skip(s, a + |MODEL|, true);
    var c := Skip(s, b, false);
    var d := Skip(s, c, true);
    if b == a + |MODEL| || c == b || d != |s| {
      ScsiStuckAtName(s, a, b, c, d);
      return None;
    }
    ScsiSerialIs(s, a, b, c);
    return Some(s[b..c]);
  }

  method Skip(s: string, i: nat, spaces: bool) returns (j: nat)
    requires i <= |s|
    ensures Run(s, i, j, spaces) && (j < |s| ==> IsSpace(s[j]) != spaces)
  {
    j := i;
    while j < |s| && IsSpace(s[j]) == spaces
      invariant Run(s, i, j, spaces)
    {
      j := j + 1;
    }
  }

  lemma ScsiStuckAtModel(s: string, a: nat)
    requires VENDOR <= s && Run(s, |VENDOR|, a, true) && (a < |s| ==> !IsSpace(s[a]))
    requires a == |VENDOR| || !ModelAt(s, a)
    ensures ScsiSerial(s) == None
  {
    forall a': nat, b: nat, c: nat ensures !ScsiMatch(s, a', b, c) {
      if ScsiMatch(s, a', b, c) {
        ModelStarts(s, a');
      }
    }
  }

  lemma ScsiStuckAtName(s: string, a: nat, b: nat, c: nat, d: nat)
    requires VENDOR <= s && Run(s, |VENDOR|, a, true) && ModelAt(s, a)
    requires Run(s, a + |MODEL|, b, true) && (b < |s| ==> !IsSpace(s[b]))
    requires Run(s, b, c, false) && (c < |s| ==> IsSpace(s[c]))
    requires Run(s, c, d, true) && (d < |s| ==> !IsSpace(s[d]))
    requires b == a + |MODEL| || c == b || d != |s|
    ensures ScsiSerial(s) == None
  {
    ModelStarts(s, a);
    forall a': nat, b': nat, c': nat ensures !ScsiMatch(s, a', b', c') {
      if ScsiMatch(s, a', b', c') {
        ModelStarts(s, a');
        RunEndsOnce(s, |VENDOR|, a, a', true);
        RunEndsOnce(s, a + |MODEL|, b, b', true);
        RunEndsOnce(s, b, c, c', false);
      }
    }
  }

  /** `s` read as the pattern, the group being `name`. */
  ghost predicate ScsiParts(s: string, x: string, y: string, name: string, z: string) {
    && s == VENDOR + x + MODEL + y + name + z
    && x != "" && AllSpace(x) && y != "" && AllSpace(y)
    && name != "" && NoSpace(name) && AllSpace(z)
  }

  /** Text put together this way parses back to the name in it. */
  lemma ScsiRoundTrip(s: string, x: string, y: string, name: string, z: string)
    requires ScsiParts(s, x, y, name, z)
    ensures ScsiMatch(s, |VENDOR + x|, |VENDOR + x + MODEL + y|, |VENDOR + x + MODEL + y + name|)
    ensures ScsiSerial(s) == Some(name)
  {
    var a, b, c := |VENDOR + x|, |VENDOR + x + MODEL + y|, |VENDOR + x + MODEL + y + name|;
    RunOf(s, VENDOR, x, MODEL + y + name + z, true);
    RunOf(s, VENDOR + x + MODEL, y, name + z, true);
    RunOf(s, VENDOR + x + MODEL + y, name, z, false);
    RunOf(s, VENDOR + x + MODEL + y + name, z, "", true);
    assert s[a..a + |MODEL|] == MODEL;
    assert s[b..c] == name;
    ScsiSerialIs(s, a, b, c);
  }

  lemma RunOf(s: string, p: string, run: string, rest: string, spaces: bool)
    requires s == p + run + rest && forall c | c in run :: IsSpace(c) == spaces
    ensures Run(s, |p|, |p| + |run|, spaces)
  {
    forall k | |p| <= k < |p| + |run| ensures IsSpace(s[k]) == spaces {
      assert s[k] == run[k - |p|];
    }
  }

  /** What is accepted was put together this way, and in one way only. */
  lemma ScsiDecomposition(s: string)
    requires ScsiSerial(s).Some?
    ensures exists x, y, z :: ScsiParts(s, x, y, ScsiSerial(s).value, z)
    ensures forall x, y, name, z, x', y', name', z' | ScsiParts(s, x, y, name, z) && ScsiParts(s, x', y', name', z') ::
      x == x' && y == y' && name == name' && z == z'
  {
    var a: nat, b: nat, c: nat :| ScsiMatch(s, a, b, c);
    ScsiSerialIs(s, a, b, c);
    ScsiSplit(s, a, b, c);
    forall x, y, name, z, x', y', name', z' | ScsiParts(s, x, y, name, z) && ScsiParts(s, x', y', name', z')
      ensures x == x' && y == y' && name == name' && z == z'
    {
      ScsiPartsAre(s, a, b, c, x, y, name, z);
      ScsiPartsAre(s, a, b, c, x', y', name', z');
    }
  }

  lemma ScsiSplit(s: string, a: nat, b: nat, c: nat)
    requires ScsiMatch(s, a, b, c)
    ensures ScsiParts(s, s[|VENDOR|..a], s[a + |MODEL|..b], s[b..c], s[c..])
  {
    assert s == s[..|VENDOR|] + s[|VENDOR|..a] + s[a..a + |MODEL|] + s[a + |MODEL|..b] + s[b..c] + s[c..];
  }

  lemma ScsiPartsAre(s: string, a: nat, b: nat, c: nat, x: string, y: string, name: string, z: string)
    requires ScsiMatch(s, a, b, c) && ScsiParts(s, x, y, name, z)
    ensures x == s[|VENDOR|..a] && y == s[a + |MODEL|..b] && name == s[b..c] && z == s[c..]
  {
    ScsiRoundTrip(s, x, y, name, z);
    ScsiMatchOnce(s, a, b, c, |VENDOR + x|, |VENDOR + x + MODEL + y|, |VENDOR + x + MODEL + y + name|);
  }

  // What the tools print

  /** The text reads vendor, spaces, model, spaces, `name`, spaces. */
  ghost predicate PrintsScsi(text: string, name: string) {
    exists x, y, z :: ScsiParts(text, x, y, name, z)
  }

  /** `name` is all that follows the first key that anything follows. */
  ghost predicate PrintsNvme(text: string, name: string) {
    exists p, rest :: NvmeParts(text, p, name, rest)
  }

  ghost predicate NvmeParts(text: string, p: string, name: string, rest: string) {
    && text == p + KEY + name + rest && name != "" && NoSpace(name) && (rest == "" || IsSpace(rest[0]))
    && forall i | 0 <= i < |p| :: KeyAt(text, i) ==> IsSpace(text[i + |KEY|])
  }

  lemma ScsiReads(text: string, name: string)
    ensures ScsiSerial(text) == Some(name) <==> PrintsScsi(text, name)
  {
    if ScsiSerial(text) == Some(name) {
      ScsiDecomposition(text);
    }
    forall x, y, z | ScsiParts(text, x, y, name, z) ensures ScsiSerial(text) == Some(name) {
      ScsiRoundTrip(text, x, y, name, z);
    }
  }

  lemma NvmeReads(text: string, name: string)
    ensures NvmeSerial(text) == Some(name) <==> PrintsNvme(text, name)
  {
    if NvmeSerial(text) == Some(name) {
      var i: nat, j: nat :| NvmeFound(text, i, j) && text[i + |KEY|..j] == name;
      NvmeSplit(text, i, j);
    }
    forall p, rest | NvmeParts(text, p, name, rest) ensures NvmeSerial(text) == Some(name) {
      NvmeJoin(text, p, name, rest);
    }
  }

  lemma MatchGrows(text: string, i: nat, j: nat)
    requires i + |KEY| <= j < |text| && KeyAt(text, i) && !IsSpace(text[j]) && NoSpace(text[i + |KEY|..j])
    ensures NvmeMatch(text, i, j + 1)
  {
    assert text[i + |KEY|..j + 1] == text[i + |KEY|..j] + [text[j]];
  }

  lemma NvmeSplit(text: string, i: nat, j: nat)
    requires NvmeFound(text, i, j)
    ensures NvmeParts(text, text[..i], text[i + |KEY|..j], text[j..])
  {
    assert text == text[..i] + text[i..i + |KEY|] + text[i + |KEY|..j] + text[j..];
    if j < |text| && !IsSpace(text[j]) {
      MatchGrows(text, i, j);
    }
    forall k | 0 <= k < i && KeyAt(text, k) ensures IsSpace(text[k + |KEY|]) {
      if !IsSpace(text[k + |KEY|]) {
        MatchGrows(text, k, k + |KEY|);
      }
    }
  }

  lemma NvmeJoin(text: string, p: string, name: string, rest: string)
    requires NvmeParts(text, p, name, rest)
    ensures NvmeSerial(text) == Some(name)
  {
    var i, j := |p|, |p| + |KEY| + |name|;
    assert text[i..i + |KEY|] == KEY && text[i + |KEY|..j] == name;
    NvmeStops(text, i, j);
    NvmeSerialIs(text, i, j);
  }

  /** The characters that end a name. */
  lemma SpacesAre(c: char)
    ensures IsSpace(c) <==> c in " \t\n\r" || c == 12 as char
  {
  }

  ghost predicate PlainName(name: string) {
    name != "" && forall c | c in name :: c !in " \t\n\r" && c != 12 as char
  }

  /** One line of either tool, with its line end. */
  lemma LineReads(name: string, before: string, after: string)
    requires PlainName(name) && !Contains(before)
    ensures ScsiSerial("0Google PersistentDisk " + name + "\n") == Some(name)
    ensures NvmeSerial(before + "ID_SERIAL_SHORT=" + name + "\n" + after) == Some(name)
  {
    var s := "0Google PersistentDisk " + name + "\n";
    assert "0Google PersistentDisk " == VENDOR + " " + MODEL + " ";
    assert s == VENDOR + " " + MODEL + " " + name + "\n";
    ScsiRoundTrip(s, " ", " ", name, "\n");
    var rest := "\n" + after;
    assert before + KEY + name + "\n" + after == before + KEY + name + rest;
    NvmeRoundTrip(before, name, rest);
  }
}
