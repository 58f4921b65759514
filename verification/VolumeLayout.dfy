/** Where the filesystem backend keeps each volume: the path functions of storage/filesystem.go. */
module VolumeLayout {
  import opened PathTree

  /** The pieces of a string between slashes. */
  function Split(s: string): seq<string> {
    if s == "" then [""]
    else
      var rest := Split(s[1..]);
      if s[0] == '/' then [""] + rest else [[s[0]] + rest[0]] + rest[1..]
  }

  /** Walks from an absolute path: empty pieces and dots stay, a double dot goes up. */
  function Walk(from: Path, pieces: seq<string>): Path
    decreases |pieces|
  {
    if pieces == [] then from
    else if pieces[0] == "" || pieces[0] == "." then Walk(from, pieces[1..])
    else if pieces[0] == ".." then Walk(if from == [] then [] else Parent(from), pieces[1..])
    else Walk(from + [pieces[0]], pieces[1..])
  }

  /** `filepath.Join` of a cleaned absolute path and a name. */
  function Join(base: Path, name: string): Path {
    Walk(base, Split(name))
  }

  /** Joining a fixed ordinary name is appending it; see `JoinOrdinary`. */
  function TempfsPath(baseDir: Path): Path {
    baseDir + ["inmemfs"]
  }

  function VolumePath(baseDir: Path, id: string): Path {
    Join(TempfsPath(baseDir), id)
  }

  function MetadataPath(baseDir: Path, id: string): Path {
    VolumePath(baseDir, id) + ["metadata.json"]
  }

  function DataPath(baseDir: Path, id: string): Path {
    VolumePath(baseDir, id) + ["data"]
  }

  /** A single path component that is not a dot or a double dot. */
  predicate Ordinary(id: string) {
    id != "" && id != "." && id != ".." && '/' !in id
  }

  lemma {:induction false} SplitWhole(s: string)
    requires '/' !in s
    ensures Split(s) == [s]
  {
    if s != "" {
      SplitWhole(s[1..]);
      assert [s[0]] + s[1..] == s;
    }
  }

  lemma JoinOrdinary(base: Path, name: string)
    requires Ordinary(name)
    ensures Join(base, name) == base + [name]
  {
    SplitWhole(name);
    assert Walk(base + [name], [name][1..]) == base + [name];
  }

  /** The paths of an ordinary volume, spelled out. */
  lemma Spelled(baseDir: Path, id: string)
    requires Ordinary(id)
    ensures VolumePath(baseDir, id) == baseDir + ["inmemfs", id]
    ensures MetadataPath(baseDir, id) == baseDir + ["inmemfs", id, "metadata.json"]
    ensures DataPath(baseDir, id) == baseDir + ["inmemfs", id, "data"]
  {
    JoinOrdinary(TempfsPath(baseDir), id);
  }

  /**
   * Two ordinary volumes live in different subtrees, neither inside the other, and a record is never in a data
   * directory.
   */
  lemma VolumesApart(baseDir: Path, a: string, b: string, p: Path, q: Path)
    requires Ordinary(a) && Ordinary(b)
    requires VolumePath(baseDir, a) <= p && VolumePath(baseDir, b) <= q
    ensures p == q ==> a == b
    ensures a != b ==> !(p <= q) && !(q <= p)
    ensures !(DataPath(baseDir, a) <= MetadataPath(baseDir, b)) && !(MetadataPath(baseDir, b) <= DataPath(baseDir, a))
  {
    Spelled(baseDir, a);
    Spelled(baseDir, b);
    var n := |baseDir| + 1;
    assert p[n] == VolumePath(baseDir, a)[n] == a;
    assert q[n] == VolumePath(baseDir, b)[n] == b;
    var d, m := DataPath(baseDir, a), MetadataPath(baseDir, b);
    assert d[n + 1] == "data" && m[n + 1] == "metadata.json";
  }

  /** Splitting at the first slash. */
  lemma {:induction false} SplitAt(a: string, b: string)
    requires '/' !in a
    ensures Split(a + "/" + b) == [a] + Split(b)
  {
    if a == "" {
      assert (a + "/" + b)[1..] == b;
    } else {
      SplitAt(a[1..], b);
      assert (a + "/" + b)[1..] == a[1..] + "/" + b;
      assert [a[0]] + a[1..] == a;
    }
  }

  ghost predicate NoSlash(p: Path) {
    forall c | c in p :: '/' !in c
  }

  lemma {:induction false} PiecesHoldNoSlash(s: string)
    ensures NoSlash(Split(s))
  {
    if s != "" {
      PiecesHoldNoSlash(s[1..]);
      var rest := Split(s[1..]);
      assert rest[0] in rest && forall c | c in rest[1..] :: c in rest;
    }
  }

  lemma {:induction false} WalkKeepsNoSlash(from: Path, pieces: seq<string>)
    requires NoSlash(from) && NoSlash(pieces)
    ensures NoSlash(Walk(from, pieces))
    decreases |pieces|
  {
    if pieces != [] {
      assert pieces[0] in pieces && forall c | c in pieces[1..] :: c in pieces;
      if pieces[0] == "" || pieces[0] == "." {
        WalkKeepsNoSlash(from, pieces[1..]);
      } else if pieces[0] == ".." {
        WalkKeepsNoSlash(if from == [] then [] else Parent(from), pieces[1..]);
      } else {
        WalkKeepsNoSlash(from + [pieces[0]], pieces[1..]);
      }
    }
  }

  /** A volume gets the directory named by its ID if and only if the ID is one ordinary component. */
  lemma OrdinaryExactly(baseDir: Path, id: string)
    requires NoSlash(baseDir)
    ensures VolumePath(baseDir, id) == TempfsPath(baseDir) + [id] <==> Ordinary(id)
  {
    var t := TempfsPath(baseDir);
    if Ordinary(id) {
      JoinOrdinary(t, id);
    } else if '/' in id {
      PiecesHoldNoSlash(id);
      WalkKeepsNoSlash(t, Split(id));
      assert id in t + [id];
    } else {
      SplitWhole(id);
      var up := if id == ".." then Parent(t) else t;
      assert Walk(up, [id][1..]) == up == VolumePath(baseDir, id);
      assert |up| <= |t|;
    }
  }

  /** What else can become of an ID: a slash aliases or nests volumes, a double dot or the empty ID leave them. */
  lemma OddVolumesCollide(baseDir: Path, a: string, b: string)
    requires Ordinary(a) && Ordinary(b)
    ensures VolumePath(baseDir, a + "/") == VolumePath(baseDir, a)
    ensures VolumePath(baseDir, a + "/" + b) == VolumePath(baseDir, a) + [b]
    ensures VolumePath(baseDir, "..") == baseDir
    ensures VolumePath(baseDir, "") == TempfsPath(baseDir)
  {
    var t := TempfsPath(baseDir);
    JoinOrdinary(t, a);
    SplitAt(a, "");
    SplitAt(a, b);
    SplitWhole(b);
    SplitWhole("..");
    assert a + "/" + "" == a + "/";
    assert Parent(t) == baseDir;
    JoinPieces(t, a, "");
    JoinPieces(t, a, b);
    assert Walk(t, [".."]) == baseDir;
  }

  lemma JoinPieces(t: Path, a: string, b: string)
    requires Ordinary(a) && (b == "" || Ordinary(b))
    ensures Walk(t, [a] + [b]) == if b == "" then t + [a] else t + [a] + [b]
  {
    assert ([a] + [b])[1..] == [b];
    assert Walk(t + [a], [b]) == if b == "" then t + [a] else t + [a] + [b] by {
      assert [b][1..] == [];
      assert Walk(t + [a], []) == t + [a] && Walk(t + [a] + [b], []) == t + [a] + [b];
    }
  }
}
