/** The two backends answer every run of operations alike. */
module StoreSimulation {
  import opened Wrappers
  import opened Documents
  import opened PathTree
  import opened VolumeLayout
  import opened MemoryStore
  import opened DirectoryStore
  import Kernel

  /** One call on the storage interface. */
  datatype Op =
    | Register(meta: Metadata)
    | Read(id: string)
    | Write(id: string, meta: Metadata)
    | Remove(id: string)
    | ListAll

  /** What the caller gets to see. */
  datatype Answer =
    | Registered(r: Result<bool, MemoryStore.StoreError>)
    | Meta(m: Result<Metadata, MemoryStore.StoreError>)
    | Written(ok: bool)
    | Removed
    | Listed(ids: Option<set<string>>)

  function MemoryStep(v: Volumes, op: Op): (Volumes, Answer) {
    match op
    case Register(meta) => var (v', r) := RegisterIn(v, meta); (v', Registered(r))
    case Read(id) => (v, Meta(ReadIn(v, id)))
    case Write(id, meta) => var (v', ok) := WriteIn(v, id, meta); (v', Written(ok))
    case Remove(id) => (v - {id}, Removed)
    case ListAll => (v, Listed(Some(v.Keys)))
  }

  function DirectoryStep(rooted: bool, baseDir: Path, t: Tree, op: Op): (Tree, Answer) {
    match op
    case Register(meta) => var (t', r) := RegisterTo(rooted, baseDir, t, meta); (t', Registered(r))
    case Read(id) => (t, Meta(ReadFrom(rooted, baseDir, t, id)))
    case Write(id, meta) => var (t', ok) := WriteTo(baseDir, t, id, meta); (t', Written(ok))
    case Remove(id) => (RemoveFrom(baseDir, t, id), Removed)
    case ListAll => (t, Listed(ListFrom(rooted, baseDir, t)))
  }

  function MemoryRun(v: Volumes, ops: seq<Op>): (Volumes, seq<Answer>)
    decreases |ops|
  {
    if ops == [] then (v, [])
    else
      var (v', a) := MemoryStep(v, ops[0]);
      var (v'', rest) := MemoryRun(v', ops[1..]);
      (v'', [a] + rest)
  }

  function DirectoryRun(rooted: bool, baseDir: Path, t: Tree, ops: seq<Op>): (Tree, seq<Answer>)
    decreases |ops|
  {
    if ops == [] then (t, [])
    else
      var (t', a) := DirectoryStep(rooted, baseDir, t, ops[0]);
      var (t'', rest) := DirectoryRun(rooted, baseDir, t', ops[1..]);
      (t'', [a] + rest)
  }

  /** IDs are ordinary, a record is written under its own ID, and each ID keeps the target path `home` gives it. */
  ghost predicate Allowed(home: string -> string, op: Op) {
    match op
    case Register(meta) => Ordinary(meta.volumeID) && meta.targetPath == home(meta.volumeID)
    case Read(id) => Ordinary(id)
    case Write(id, meta) => Ordinary(id) && meta.volumeID == id && meta.targetPath == home(id)
    case Remove(id) => Ordinary(id)
    case ListAll => true
  }

  /** Every volume holds exactly one decodable record, its own. */
  ghost predicate WellKept(home: string -> string, v: Volumes) {
    forall id | id in v ::
      && Ordinary(id) && v[id].Keys == {METADATA_FILE}
      && Kept(home, id, v[id][METADATA_FILE])
  }

  ghost predicate Kept(home: string -> string, id: string, text: Text) {
    text.Json? && text.meta.volumeID == id && text.meta.targetPath == home(id) && Normalise(text.meta) == text.meta
  }

  /** The node that the volumes `v` give a path below the store directory. */
  function Image(baseDir: Path, v: Volumes, q: Path): Option<Node>
    requires TempfsPath(baseDir) < q
  {
    var n := |baseDir| + 1;
    if q[n] !in v then None
    else if |q| == n + 1 then Some(Dir)
    else if |q| == n + 2 && q[n + 1] == "data" then Some(Dir)
    else if |q| == n + 2 && q[n + 1] == METADATA_FILE && METADATA_FILE in v[q[n]] then
      Some(File(v[q[n]][METADATA_FILE]))
    else None
  }

  /** The store directory and everything above it exist. */
  ghost predicate Ready(baseDir: Path, t: Tree) {
    forall k | 0 <= k <= |baseDir| + 1 :: IsDir(t, TempfsPath(baseDir)[..k])
  }

  /** The tree below the store directory is the image of `v`, nothing missing and nothing else. */
  ghost predicate Stores(baseDir: Path, v: Volumes, t: Tree) {
    Ready(baseDir, t) && forall q | TempfsPath(baseDir) < q :: Lookup(t, q) == Image(baseDir, v, q)
  }

  ghost predicate Alike(baseDir: Path, home: string -> string, v: Volumes, t: Tree) {
    WellKept(home, v) && Stores(baseDir, v, t)
  }

  lemma PathsBelow(baseDir: Path, id: string)
    requires Ordinary(id)
    ensures var n := |baseDir| + 1;
            var p := TempfsPath(baseDir);
            && p < VolumePath(baseDir, id) && p < MetadataPath(baseDir, id) && p < DataPath(baseDir, id)
            && |VolumePath(baseDir, id)| == n + 1 && VolumePath(baseDir, id)[n] == id
            && |MetadataPath(baseDir, id)| == n + 2 && MetadataPath(baseDir, id)[n] == id &&
                 MetadataPath(baseDir, id)[n + 1] == METADATA_FILE
            && |DataPath(baseDir, id)| == n + 2 && DataPath(baseDir, id)[n] == id &&
                 DataPath(baseDir, id)[n + 1] == "data"
            && Parent(VolumePath(baseDir, id)) == p && Parent(MetadataPath(baseDir, id)) == VolumePath(baseDir, id) &&
                 Parent(DataPath(baseDir, id)) == VolumePath(baseDir, id)
  {
    Spelled(baseDir, id);
  }

  /** A path below the store directory is determined by its length and its last components. */
  lemma PathIs(baseDir: Path, id: string, q: Path)
    requires Ordinary(id) && TempfsPath(baseDir) < q && q[|baseDir| + 1] == id
    ensures |q| == |baseDir| + 2 ==> q == VolumePath(baseDir, id)
    ensures |q| == |baseDir| + 3 && q[|baseDir| + 2] == METADATA_FILE ==> q == MetadataPath(baseDir, id)
    ensures |q| == |baseDir| + 3 && q[|baseDir| + 2] == "data" ==> q == DataPath(baseDir, id)
    ensures VolumePath(baseDir, id) <= q
  {
    PathsBelow(baseDir, id);
  }

  /** The three nodes of a volume. */
  lemma NodesOf(baseDir: Path, v: Volumes, t: Tree, id: string)
    requires Stores(baseDir, v, t) && Ordinary(id)
    ensures Lookup(t, VolumePath(baseDir, id)) == if id in v then Some(Dir) else None
    ensures Lookup(t, DataPath(baseDir, id)) == if id in v then Some(Dir) else None
    ensures Lookup(t, MetadataPath(baseDir, id)) == if id in v && METADATA_FILE in v[id] then
            Some(File(v[id][METADATA_FILE])) else None
  {
    PathsBelow(baseDir, id);
  }

  lemma ReadAlike(rooted: bool, baseDir: Path, home: string -> string, v: Volumes, t: Tree, id: string)
    requires Alike(baseDir, home, v, t) && Ordinary(id)
    ensures ReadFrom(rooted, baseDir, t, id) == if rooted then Failure(NotFound) else ReadIn(v, id)
  {
    NodesOf(baseDir, v, t, id);
  }

  /** Writing a record in place of the old one. */
  lemma WriteAlike(baseDir: Path, home: string -> string, v: Volumes, t: Tree, id: string, meta: Metadata)
    requires Alike(baseDir, home, v, t) && Ordinary(id) && meta.volumeID == id && meta.targetPath == home(id)
    ensures WriteTo(baseDir, t, id, meta).1 == WriteIn(v, id, meta).1 == (id in v)
    ensures Alike(baseDir, home, WriteIn(v, id, meta).0, WriteTo(baseDir, t, id, meta).0)
  {
    NodesOf(baseDir, v, t, id);
    PathsBelow(baseDir, id);
    if id in v {
      var v', t' := WriteIn(v, id, meta).0, WriteTo(baseDir, t, id, meta).0;
      WriteImage(baseDir, v, t, id, Encode(meta));
      assert v'[id].Keys == {METADATA_FILE};
    }
  }

  lemma WriteImage(baseDir: Path, v: Volumes, t: Tree, id: string, text: Text)
    requires Stores(baseDir, v, t) && Ordinary(id) && id in v
    ensures Stores(baseDir, v[id := v[id][METADATA_FILE := text]], t[MetadataPath(baseDir, id) := File(text)])
  {
    PathsBelow(baseDir, id);
    var p := MetadataPath(baseDir, id);
    var v', t' := v[id := v[id][METADATA_FILE := text]], t[p := File(text)];
    forall q | TempfsPath(baseDir) < q
      ensures Lookup(t', q) == Image(baseDir, v', q)
    {
      assert Lookup(t, q) == Image(baseDir, v, q);
      if q[|baseDir| + 1] == id {
        PathIs(baseDir, id, q);
      }
    }
    AboveStays(baseDir, t, p, File(text));
  }

  /** A change below the store directory leaves the directories above in place. */
  lemma AboveStays(baseDir: Path, t: Tree, p: Path, n: Node)
    requires Ready(baseDir, t) && TempfsPath(baseDir) < p
    ensures Ready(baseDir, t[p := n])
  {
    forall k | 0 <= k <= |baseDir| + 1
      ensures IsDir(t[p := n], TempfsPath(baseDir)[..k])
    {
      assert IsDir(t, TempfsPath(baseDir)[..k]);
      assert |TempfsPath(baseDir)[..k]| < |p|;
    }
  }

  lemma {:induction false} MkdirReady(t: Tree, p: Path)
    requires forall k | 0 <= k <= |p| :: IsDir(t, p[..k])
    ensures MkdirAll(t, p) == (t, true)
  {
    if p != [] {
      var up := Parent(p);
      forall k | 0 <= k <= |up| ensures IsDir(t, up[..k]) {
        assert up[..k] == p[..k];
      }
      MkdirReady(t, up);
      assert p[..|p|] == p;
    }
  }

  /** The directories of a volume, whether or not some of them are already there. */
  lemma EnsureIs(baseDir: Path, t: Tree, id: string)
    requires Ready(baseDir, t) && Ordinary(id)
    requires Lookup(t, VolumePath(baseDir, id)) in {None, Some(Dir)} &&
             Lookup(t, DataPath(baseDir, id)) in {None, Some(Dir)}
    ensures EnsureDirectory(baseDir, t, id) == (t[VolumePath(baseDir, id) := Dir][DataPath(baseDir, id) := Dir], true)
  {
    PathsBelow(baseDir, id);
    var p, q := VolumePath(baseDir, id), DataPath(baseDir, id);
    MkdirReady(t, TempfsPath(baseDir));
    assert p in t ==> t[p := Dir] == t;
    assert MkdirAll(t, p) == (t[p := Dir], true);
    var u := t[p := Dir];
    AboveStays(baseDir, t, p, Dir);
    MkdirReady(u, TempfsPath(baseDir));
    assert MkdirAll(u, p) == (u, true);
    assert q in u ==> u[q := Dir] == u;
    assert MkdirAll(u, q) == (u[q := Dir], true);
  }

  /** Adding the directories and the record of a volume. */
  lemma CreateImage(baseDir: Path, v: Volumes, t: Tree, id: string, text: Text)
    requires Stores(baseDir, v, t) && Ordinary(id)
    ensures Stores(baseDir, v[id := map[METADATA_FILE := text]],
                   t[VolumePath(baseDir, id) := Dir][DataPath(baseDir, id) := Dir]
                    [MetadataPath(baseDir, id) := File(text)])
  {
    PathsBelow(baseDir, id);
    var p, d, m := VolumePath(baseDir, id), DataPath(baseDir, id), MetadataPath(baseDir, id);
    var v', t' := v[id := map[METADATA_FILE := text]], t[p := Dir][d := Dir][m := File(text)];
    forall q | TempfsPath(baseDir) < q
      ensures Lookup(t', q) == Image(baseDir, v', q)
    {
      assert Lookup(t, q) == Image(baseDir, v, q);
      if q[|baseDir| + 1] == id {
        PathIs(baseDir, id, q);
      }
    }
    AboveStays(baseDir, t, p, Dir);
    AboveStays(baseDir, t[p := Dir], d, Dir);
    AboveStays(baseDir, t[p := Dir][d := Dir], m, File(text));
  }

  lemma StoreIs(baseDir: Path, t: Tree, id: string, meta: Metadata)
    requires Ready(baseDir, t) && Ordinary(id)
    requires Lookup(t, VolumePath(baseDir, id)) in {None, Some(Dir)} &&
             Lookup(t, DataPath(baseDir, id)) in {None, Some(Dir)}
    requires MetadataPath(baseDir, id) in t ==> t[MetadataPath(baseDir, id)].File?
    ensures Store(baseDir, t, id, id, meta)
         == (t[VolumePath(baseDir, id) := Dir][DataPath(baseDir, id) := Dir]
              [MetadataPath(baseDir, id) := File(Encode(meta))], Success(true))
  {
    EnsureIs(baseDir, t, id);
    PathsBelow(baseDir, id);
  }

  /** Storing a record leaves the volume with just that record. */
  function Refreshed(v: Volumes, meta: Metadata): Volumes {
    v[meta.volumeID := map[METADATA_FILE := Encode(meta)]]
  }

  lemma StoreAlike(baseDir: Path, home: string -> string, v: Volumes, t: Tree, meta: Metadata)
    requires Alike(baseDir, home, v, t) && Ordinary(meta.volumeID) && meta.targetPath == home(meta.volumeID)
    ensures var (u, r) := Store(baseDir, t, meta.volumeID, meta.volumeID, meta);
            r == Success(true) && Alike(baseDir, home, Refreshed(v, meta), u)
  {
    NodesOf(baseDir, v, t, meta.volumeID);
    StoreIs(baseDir, t, meta.volumeID, meta);
    CreateImage(baseDir, v, t, meta.volumeID, Encode(meta));
  }

  /** A kept record whose context is that of a new one for the same volume is that new one. */
  lemma SameRecord(home: string -> string, text: Text, meta: Metadata)
    requires Kept(home, meta.volumeID, text) && meta.targetPath == home(meta.volumeID)
    requires SameContext(text.meta.context, meta.context)
    ensures text == Encode(meta)
  {
  }

  /** So in memory a register always comes to that, even when it does not write. */
  lemma RegisterInIs(home: string -> string, v: Volumes, meta: Metadata)
    requires WellKept(home, v) && meta.targetPath == home(meta.volumeID)
    ensures RegisterIn(v, meta).0 == Refreshed(v, meta)
    ensures RegisterIn(v, meta).1 ==
              Success(meta.volumeID !in v || !SameContext(v[meta.volumeID][METADATA_FILE].meta.context, meta.context))
  {
    var id := meta.volumeID;
    if id in v {
      SingleFile(v[id], Encode(meta));
      if SameContext(v[id][METADATA_FILE].meta.context, meta.context) {
        SameRecord(home, v[id][METADATA_FILE], meta);
        assert v[id := v[id]] == v;
      }
    } else {
      SingleFile(map[METADATA_FILE := Encode(meta)], Encode(meta));
      assert map[][METADATA_FILE := Encode(meta)] == map[METADATA_FILE := Encode(meta)];
    }
  }

  lemma SingleFile(vol: map<string, Text>, text: Text)
    requires vol.Keys == {METADATA_FILE}
    ensures vol[METADATA_FILE := text] == map[METADATA_FILE := text] && vol == map[METADATA_FILE := vol[METADATA_FILE]]
  {
  }

  /** What a register does depends on the old record and on what storing a new one does. */
  lemma RegisterFrom(rooted: bool, baseDir: Path, t: Tree, meta: Metadata)
    ensures var was, o := ReadFrom(rooted, baseDir, t, meta.volumeID), meta.volumeID;
            && (was == Failure(NotFound) ==> RegisterTo(rooted, baseDir, t, meta) == Store(baseDir, t, o, o, meta))
            && (was.Success? ==>
                  RegisterTo(rooted, baseDir, t, meta) ==
                  if SameContext(was.value.context, meta.context) then (t, Success(false))
                  else Store(baseDir, t, o, was.value.volumeID, was.value.(context := meta.context)))
  {
  }

  /** The target path condition is what makes keeping the old record and storing the new one the same. */
  lemma RegisterAlike(rooted: bool, baseDir: Path, home: string -> string, v: Volumes, t: Tree, meta: Metadata)
    requires Alike(baseDir, home, v, t) && Ordinary(meta.volumeID) && meta.targetPath == home(meta.volumeID)
    ensures RegisterTo(rooted, baseDir, t, meta).1 == if rooted then Success(true) else RegisterIn(v, meta).1
    ensures Alike(baseDir, home, RegisterIn(v, meta).0, RegisterTo(rooted, baseDir, t, meta).0)
  {
    ReadAlike(rooted, baseDir, home, v, t, meta.volumeID);
    RegisterFrom(rooted, baseDir, t, meta);
    StoreAlike(baseDir, home, v, t, meta);
    RegisterInIs(home, v, meta);
    if meta.volumeID in v {
      var text := v[meta.volumeID][METADATA_FILE];
      assert text.meta.(context := meta.context) == meta;
      if SameContext(text.meta.context, meta.context) {
        SameRecord(home, text, meta);
        assert v[meta.volumeID] == map[METADATA_FILE := text];
        assert Refreshed(v, meta) == v;
      }
    }
  }

  lemma RemoveTreeIs(t: Tree, p: Path, q: Path)
    ensures Lookup(RemoveTree(t, p), q) == if p <= q then None else Lookup(t, q)
  {
    var w := Kernel.World(t, []);
    assert Kernel.Deletable(w, p, q) <==> p <= q;
  }

  lemma RemoveAlike(baseDir: Path, home: string -> string, v: Volumes, t: Tree, id: string)
    requires Alike(baseDir, home, v, t) && Ordinary(id)
    ensures Alike(baseDir, home, v - {id}, RemoveFrom(baseDir, t, id))
  {
    var p, t' := VolumePath(baseDir, id), RemoveFrom(baseDir, t, id);
    PathsBelow(baseDir, id);
    forall q | TempfsPath(baseDir) < q
      ensures Lookup(t', q) == Image(baseDir, v - {id}, q)
    {
      RemoveTreeIs(t, p, q);
      if q[|baseDir| + 1] == id {
        PathIs(baseDir, id, q);
      }
    }
    forall k | 0 <= k <= |baseDir| + 1
      ensures IsDir(t', TempfsPath(baseDir)[..k])
    {
      RemoveTreeIs(t, p, TempfsPath(baseDir)[..k]);
      assert IsDir(t, TempfsPath(baseDir)[..k]);
    }
  }

  /** Listing succeeds and names exactly the registered volumes. */
  lemma ListAlike(rooted: bool, baseDir: Path, home: string -> string, v: Volumes, t: Tree)
    requires Alike(baseDir, home, v, t)
    ensures ListFrom(rooted, baseDir, t) == if rooted then None else Some(v.Keys)
  {
    var top := TempfsPath(baseDir);
    assert IsDir(t, top) by {
      assert top[..|baseDir| + 1] == top;
    }
    forall n ensures n in ChildNames(t, top) <==> n in v {
      if n in ChildNames(t, top) {
        var q :| q in t && |q| == |top| + 1 && top < q && q[|top|] == n;
        assert Lookup(t, q) == Image(baseDir, v, q);
      }
      if n in v {
        NodesOf(baseDir, v, t, n);
        PathsBelow(baseDir, n);
        assert VolumePath(baseDir, n) in t;
      }
    }
    assert ChildNames(t, top) == v.Keys;
    forall n | n in v ensures HasRecord(baseDir, t, n) {
      assert METADATA_FILE in v[n].Keys;
      NodesOf(baseDir, v, t, n);
    }
  }

  /** The answer of memory as a filesystem backend gives it: with a rooted base directory it never sees a record. */
  function Seen(rooted: bool, op: Op, answer: Answer): Answer {
    if !rooted then answer
    else
      match op
      case Register(_) => Registered(Success(true))
      case Read(_) => Meta(Failure(NotFound))
      case ListAll => Listed(None)
      case _ => answer
  }

  lemma StepAlike(rooted: bool, baseDir: Path, home: string -> string, v: Volumes, t: Tree, op: Op)
    requires Alike(baseDir, home, v, t) && Allowed(home, op)
    ensures DirectoryStep(rooted, baseDir, t, op).1 == Seen(rooted, op, MemoryStep(v, op).1)
    ensures Alike(baseDir, home, MemoryStep(v, op).0, DirectoryStep(rooted, baseDir, t, op).0)
  {
    match op
    case Register(meta) => RegisterAlike(rooted, baseDir, home, v, t, meta);
    case Read(id) => ReadAlike(rooted, baseDir, home, v, t, id);
    case Write(id, meta) => WriteAlike(baseDir, home, v, t, id, meta);
    case Remove(id) => RemoveAlike(baseDir, home, v, t, id);
    case ListAll => ListAlike(rooted, baseDir, home, v, t);
  }

  ghost predicate AllAllowed(home: string -> string, ops: seq<Op>) {
    forall i | 0 <= i < |ops| :: Allowed(home, ops[i])
  }

  /**
   * Over every run of allowed operations the stores stay alike, and each answer is memory's as such a backend sees it.
   */
  lemma {:induction false} BackendsAgree(
      rooted: bool, baseDir: Path, home: string -> string, v: Volumes, t: Tree, ops: seq<Op>)
    requires Alike(baseDir, home, v, t) && AllAllowed(home, ops)
    ensures Alike(baseDir, home, MemoryRun(v, ops).0, DirectoryRun(rooted, baseDir, t, ops).0)
    ensures var mem, dir := MemoryRun(v, ops).1, DirectoryRun(rooted, baseDir, t, ops).1;
            |mem| == |dir| == |ops| && forall i | 0 <= i < |ops| :: dir[i] == Seen(rooted, ops[i], mem[i])
    decreases |ops|
  {
    if ops != [] {
      StepAlike(rooted, baseDir, home, v, t, ops[0]);
      BackendsAgree(
        rooted, baseDir, home, MemoryStep(v, ops[0]).0, DirectoryStep(rooted, baseDir, t, ops[0]).0, ops[1..]);
    }
  }

  /**
   * So a run gives the same answers on both if and only if the base directory is not rooted or no operation of the run
   * would have seen a record; and all runs do if and only if it is not rooted.
   */
  lemma BackendsAgreeIff(rooted: bool, baseDir: Path, home: string -> string, v: Volumes, t: Tree)
    requires Alike(baseDir, home, v, t)
    ensures forall ops | AllAllowed(home, ops) ::
              var mem := MemoryRun(v, ops).1;
              |mem| == |ops| &&
              (mem == DirectoryRun(rooted, baseDir, t, ops).1 <==>
                !rooted || forall i | 0 <= i < |ops| :: Seen(true, ops[i], mem[i]) == mem[i])
    ensures (forall ops | AllAllowed(home, ops) :: MemoryRun(v, ops).1 == DirectoryRun(rooted, baseDir, t, ops).1)
            <==> !rooted
  {
    forall ops | AllAllowed(home, ops)
      ensures var mem := MemoryRun(v, ops).1;
              |mem| == |ops| &&
              (mem == DirectoryRun(rooted, baseDir, t, ops).1 <==>
                !rooted || forall i | 0 <= i < |ops| :: Seen(true, ops[i], mem[i]) == mem[i])
    {
      BackendsAgree(rooted, baseDir, home, v, t, ops);
    }
    var list := [ListAll];
    assert AllAllowed(home, list);
    BackendsAgree(rooted, baseDir, home, v, t, list);
    assert list[1..] == [] && MemoryRun(v, list).1 == [Listed(Some(v.Keys))];
  }

  /** An empty store directory is alike to an empty memory. */
  lemma EmptyStoresAlike(baseDir: Path, home: string -> string, t: Tree)
    requires Ready(baseDir, t) && !HasChild(t, TempfsPath(baseDir))
    ensures Alike(baseDir, home, map[], t)
  {
    forall q | TempfsPath(baseDir) < q
      ensures Lookup(t, q) == None
    {
      assert q !in t;
    }
  }

  /**
   * From an empty store, ListVolumes succeeds after every run and names exactly the volumes the run left registered, if
   * and only if the base directory is not rooted; with a rooted one it never succeeds.
   */
  lemma ListingNeverFails(rooted: bool, baseDir: Path, home: string -> string, t: Tree, ops: seq<Op>)
    requires Ready(baseDir, t) && !HasChild(t, TempfsPath(baseDir)) && AllAllowed(home, ops)
    ensures ListFrom(rooted, baseDir, DirectoryRun(rooted, baseDir, t, ops).0) ==
              if rooted then None else Some(MemoryRun(map[], ops).0.Keys)
  {
    EmptyStoresAlike(baseDir, home, t);
    BackendsAgree(rooted, baseDir, home, map[], t, ops);
    ListAlike(rooted, baseDir, home, MemoryRun(map[], ops).0, DirectoryRun(rooted, baseDir, t, ops).0);
  }

  /** A register that stopped after creating `depth` directories of the volume. */
  function Interrupted(baseDir: Path, t: Tree, id: string, depth: nat): Tree {
    if depth == 0 then t
    else
      var u := MkdirAll(t, VolumePath(baseDir, id)).0;
      if depth == 1 then u else MkdirAll(u, DataPath(baseDir, id)).0
  }

  /** What an interrupted first register leaves behind. */
  function Litter(baseDir: Path, t: Tree, id: string, depth: nat): Tree {
    if depth == 1 then t[VolumePath(baseDir, id) := Dir]
    else t[VolumePath(baseDir, id) := Dir][DataPath(baseDir, id) := Dir]
  }

  lemma InterruptedIs(baseDir: Path, v: Volumes, t: Tree, id: string, depth: nat)
    requires Stores(baseDir, v, t) && Ordinary(id) && id !in v && 1 <= depth <= 2
    ensures Interrupted(baseDir, t, id, depth) == Litter(baseDir, t, id, depth)
  {
    var p, d := VolumePath(baseDir, id), DataPath(baseDir, id);
    NodesOf(baseDir, v, t, id);
    PathsBelow(baseDir, id);
    MkdirReady(t, TempfsPath(baseDir));
    assert MkdirAll(t, p) == (t[p := Dir], true);
    EnsureIs(baseDir, t, id);
  }

  lemma LitterReady(baseDir: Path, t: Tree, id: string, depth: nat)
    requires Ready(baseDir, t) && Ordinary(id) && 1 <= depth <= 2
    ensures Ready(baseDir, Litter(baseDir, t, id, depth))
  {
    PathsBelow(baseDir, id);
    AboveStays(baseDir, t, VolumePath(baseDir, id), Dir);
    AboveStays(baseDir, t[VolumePath(baseDir, id) := Dir], DataPath(baseDir, id), Dir);
  }

  /** A volume directory without a record makes every listing fail. */
  lemma ListingStops(rooted: bool, baseDir: Path, t: Tree, id: string)
    requires Ordinary(id) && VolumePath(baseDir, id) in t && MetadataPath(baseDir, id) !in t
    ensures ListFrom(rooted, baseDir, t) == None
  {
    PathsBelow(baseDir, id);
    assert id in ChildNames(t, TempfsPath(baseDir)) && !HasRecord(baseDir, t, id);
  }

  /** The operation is not on this volume. */
  predicate Elsewhere(id: string, op: Op) {
    match op
    case Register(meta) => meta.volumeID != id
    case Read(o) => o != id
    case Write(o, _) => o != id
    case Remove(o) => o != id
    case ListAll => true
  }

  /** The nodes of other volumes are as without the litter. */
  lemma LitterElsewhere(baseDir: Path, t: Tree, id: string, depth: nat, o: string, q: Path)
    requires Ordinary(id) && Ordinary(o) && o != id && VolumePath(baseDir, o) <= q
    ensures Lookup(Litter(baseDir, t, id, depth), q) == Lookup(t, q)
    ensures q != VolumePath(baseDir, id) && q != DataPath(baseDir, id)
  {
    PathsBelow(baseDir, id);
    PathsBelow(baseDir, o);
  }

  lemma LitterCommutes(baseDir: Path, t: Tree, id: string, depth: nat, q: Path, n: Node)
    requires q != VolumePath(baseDir, id) && q != DataPath(baseDir, id)
    ensures Litter(baseDir, t, id, depth)[q := n] == Litter(baseDir, t[q := n], id, depth)
  {
  }

  /** All that a volume's operations look at. */
  lemma LitterNodes(baseDir: Path, v: Volumes, t: Tree, id: string, depth: nat, o: string)
    requires Stores(baseDir, v, t) && Ordinary(id) && Ordinary(o) && o != id
    ensures var u := Litter(baseDir, t, id, depth);
            && Lookup(u, VolumePath(baseDir, o)) == Lookup(t, VolumePath(baseDir, o))
            && Lookup(u, DataPath(baseDir, o)) == Lookup(t, DataPath(baseDir, o))
            && Lookup(u, MetadataPath(baseDir, o)) == Lookup(t, MetadataPath(baseDir, o))
  {
    PathsBelow(baseDir, o);
    LitterElsewhere(baseDir, t, id, depth, o, VolumePath(baseDir, o));
    LitterElsewhere(baseDir, t, id, depth, o, DataPath(baseDir, o));
    LitterElsewhere(baseDir, t, id, depth, o, MetadataPath(baseDir, o));
  }

  lemma ReadAround(rooted: bool, baseDir: Path, v: Volumes, t: Tree, id: string, depth: nat, o: string)
    requires Stores(baseDir, v, t) && Ordinary(id) && Ordinary(o) && o != id
    ensures ReadFrom(rooted, baseDir, Litter(baseDir, t, id, depth), o) == ReadFrom(rooted, baseDir, t, o)
  {
    NodesOf(baseDir, v, t, o);
    LitterNodes(baseDir, v, t, id, depth, o);
  }

  lemma WriteAround(baseDir: Path, v: Volumes, t: Tree, id: string, depth: nat, o: string, meta: Metadata)
    requires Stores(baseDir, v, t) && Ordinary(id) && Ordinary(o) && o != id
    ensures var (u', ok) := WriteTo(baseDir, Litter(baseDir, t, id, depth), o, meta);
            var (t', ok') := WriteTo(baseDir, t, o, meta);
            ok == ok' && u' == Litter(baseDir, t', id, depth)
  {
    PathsBelow(baseDir, o);
    LitterNodes(baseDir, v, t, id, depth, o);
    LitterElsewhere(baseDir, t, id, depth, o, MetadataPath(baseDir, o));
    LitterCommutes(baseDir, t, id, depth, MetadataPath(baseDir, o), File(Encode(meta)));
  }

  lemma StoreAround(baseDir: Path, v: Volumes, t: Tree, id: string, depth: nat, o: string, meta: Metadata)
    requires Stores(baseDir, v, t) && Ordinary(id) && Ordinary(o) && o != id && 1 <= depth <= 2
    ensures Store(baseDir, Litter(baseDir, t, id, depth), o, o, meta)
         == (Litter(baseDir, Store(baseDir, t, o, o, meta).0, id, depth), Store(baseDir, t, o, o, meta).1)
  {
    var u := Litter(baseDir, t, id, depth);
    var p, d, r := VolumePath(baseDir, o), DataPath(baseDir, o), MetadataPath(baseDir, o);
    NodesOf(baseDir, v, t, o);
    LitterNodes(baseDir, v, t, id, depth, o);
    LitterReady(baseDir, t, id, depth);
    StoreIs(baseDir, t, o, meta);
    StoreIs(baseDir, u, o, meta);
    PathsBelow(baseDir, o);
    LitterElsewhere(baseDir, t, id, depth, o, p);
    LitterElsewhere(baseDir, t, id, depth, o, d);
    LitterElsewhere(baseDir, t, id, depth, o, r);
    LitterCommutes(baseDir, t, id, depth, p, Dir);
    LitterCommutes(baseDir, t[p := Dir], id, depth, d, Dir);
    LitterCommutes(baseDir, t[p := Dir][d := Dir], id, depth, r, File(Encode(meta)));
  }

  lemma RegisterAround(
      rooted: bool, baseDir: Path, home: string -> string, v: Volumes, t: Tree, id: string, depth: nat, meta: Metadata)
    requires Alike(baseDir, home, v, t) && Ordinary(id) && Ordinary(meta.volumeID) && meta.volumeID != id
    requires 1 <= depth <= 2
    ensures RegisterTo(rooted, baseDir, Litter(baseDir, t, id, depth), meta)
         == (Litter(baseDir, RegisterTo(rooted, baseDir, t, meta).0, id, depth), RegisterTo(rooted, baseDir, t, meta).1)
  {
    var o := meta.volumeID;
    ReadAround(rooted, baseDir, v, t, id, depth, o);
    ReadAlike(rooted, baseDir, home, v, t, o);
    RegisterFrom(rooted, baseDir, t, meta);
    RegisterFrom(rooted, baseDir, Litter(baseDir, t, id, depth), meta);
    if o in v && !rooted {
      StoreAround(baseDir, v, t, id, depth, o, v[o][METADATA_FILE].meta.(context := meta.context));
    } else {
      StoreAround(baseDir, v, t, id, depth, o, meta);
    }
  }

  lemma RemoveAround(baseDir: Path, t: Tree, id: string, depth: nat, o: string)
    requires Ordinary(id) && Ordinary(o) && o != id
    ensures RemoveFrom(baseDir, Litter(baseDir, t, id, depth), o)
            == Litter(baseDir, RemoveFrom(baseDir, t, o), id, depth)
  {
    var p, u := VolumePath(baseDir, o), Litter(baseDir, t, id, depth);
    PathsBelow(baseDir, id);
    PathsBelow(baseDir, o);
    forall q ensures Lookup(RemoveFrom(baseDir, u, o), q)
      == Lookup(Litter(baseDir, RemoveFrom(baseDir, t, o), id, depth), q) {
      RemoveTreeIs(u, p, q);
      RemoveTreeIs(t, p, q);
    }
    SameTree(RemoveFrom(baseDir, u, o), Litter(baseDir, RemoveFrom(baseDir, t, o), id, depth));
  }

  lemma SameTree(t: Tree, u: Tree)
    requires forall q :: Lookup(t, q) == Lookup(u, q)
    ensures t == u
  {
    forall q ensures q in t <==> q in u {
      assert Lookup(t, q) == Lookup(u, q);
    }
    forall q | q in t ensures t[q] == u[q] {
      assert Lookup(t, q) == Lookup(u, q);
    }
  }

  /** What the caller gets to see while the litter lies about. */
  function LitteredAnswer(op: Op, answer: Answer): Answer {
    if op.ListAll? then Listed(None) else answer
  }

  /** An operation on another volume goes as without the litter, only that no listing succeeds. */
  lemma StepAround(
      rooted: bool, baseDir: Path, home: string -> string, v: Volumes, t: Tree, id: string, depth: nat, op: Op)
    requires Alike(baseDir, home, v, t) && Ordinary(id) && id !in v && 1 <= depth <= 2
    requires Allowed(home, op) && Elsewhere(id, op)
    ensures var (t', answer) := DirectoryStep(rooted, baseDir, t, op);
            DirectoryStep(rooted, baseDir, Litter(baseDir, t, id, depth), op)
              == (Litter(baseDir, t', id, depth), LitteredAnswer(op, answer))
    ensures id !in MemoryStep(v, op).0
  {
    match op
    case Register(meta) => RegisterAround(rooted, baseDir, home, v, t, id, depth, meta);
    case Read(o) => ReadAround(rooted, baseDir, v, t, id, depth, o);
    case Write(o, meta) => WriteAround(baseDir, v, t, id, depth, o, meta);
    case Remove(o) => RemoveAround(baseDir, t, id, depth, o);
    case ListAll =>
      NodesOf(baseDir, v, t, id);
      PathsBelow(baseDir, id);
      ListingStops(rooted, baseDir, Litter(baseDir, t, id, depth), id);
  }

  lemma {:induction false} RunAround(
      rooted: bool, baseDir: Path, home: string -> string, v: Volumes, t: Tree, id: string, depth: nat, ops: seq<Op>)
    requires Alike(baseDir, home, v, t) && Ordinary(id) && id !in v && 1 <= depth <= 2
    requires forall i | 0 <= i < |ops| :: Allowed(home, ops[i]) && Elsewhere(id, ops[i])
    ensures var (t', answers) := DirectoryRun(rooted, baseDir, t, ops);
            var (u', littered) := DirectoryRun(rooted, baseDir, Litter(baseDir, t, id, depth), ops);
            && u' == Litter(baseDir, t', id, depth) && |littered| == |answers| == |ops|
            && forall i | 0 <= i < |ops| :: littered[i] == LitteredAnswer(ops[i], answers[i])
    ensures id !in MemoryRun(v, ops).0
    decreases |ops|
  {
    if ops != [] {
      StepAround(rooted, baseDir, home, v, t, id, depth, ops[0]);
      StepAlike(rooted, baseDir, home, v, t, ops[0]);
      RunAround(rooted, baseDir, home, MemoryStep(v, ops[0]).0, DirectoryStep(rooted, baseDir, t, ops[0]).0, id, depth,
        ops[1..]);
    }
  }

  lemma RegisterClears(
      rooted: bool, baseDir: Path, home: string -> string, v: Volumes, t: Tree, depth: nat, meta: Metadata)
    requires Alike(baseDir, home, v, t) && Ordinary(meta.volumeID) && meta.targetPath == home(meta.volumeID)
    requires meta.volumeID !in v && 1 <= depth <= 2
    ensures var u := Litter(baseDir, t, meta.volumeID, depth);
            && ListFrom(rooted, baseDir, u) == None
            && RegisterTo(rooted, baseDir, u, meta) == RegisterTo(rooted, baseDir, t, meta)
            && RegisterTo(rooted, baseDir, u, meta).1 == Success(true)
            && ListFrom(rooted, baseDir, RegisterTo(rooted, baseDir, u, meta).0) ==
                 if rooted then None else Some(v.Keys + {meta.volumeID})
  {
    var id := meta.volumeID;
    var u := Litter(baseDir, t, id, depth);
    NodesOf(baseDir, v, t, id);
    PathsBelow(baseDir, id);
    LitterReady(baseDir, t, id, depth);
    var p, d := VolumePath(baseDir, id), DataPath(baseDir, id);
    assert u[p := Dir][d := Dir] == t[p := Dir][d := Dir];
    ListingStops(rooted, baseDir, u, id);
    StoreIs(baseDir, u, id, meta);
    StoreIs(baseDir, t, id, meta);
    ListsNew(rooted, baseDir, home, v, t, meta);
  }

  /**
   * After an interrupted first register, whatever is done to other volumes goes as if nothing had happened, except that
   * every listing fails. The next complete register of that volume answers true, leaves exactly the tree that it would
   * have left without the interruption, and listing names all volumes again.
   */
  lemma RegisterRecovers(
      rooted: bool, baseDir: Path, home: string -> string, v: Volumes, t: Tree, meta: Metadata, depth: nat,
        ops: seq<Op>)
    requires Alike(baseDir, home, v, t) && Ordinary(meta.volumeID) && meta.targetPath == home(meta.volumeID)
    requires meta.volumeID !in v && 1 <= depth <= 2
    requires forall i | 0 <= i < |ops| :: Allowed(home, ops[i]) && Elsewhere(meta.volumeID, ops[i])
    ensures var (t', answers) := DirectoryRun(rooted, baseDir, t, ops);
            var (u', littered) := DirectoryRun(rooted, baseDir, Interrupted(baseDir, t, meta.volumeID, depth), ops);
            && |littered| == |answers| == |ops|
            && (forall i | 0 <= i < |ops| :: littered[i] == LitteredAnswer(ops[i], answers[i]))
            && ListFrom(rooted, baseDir, u') == None
            && RegisterTo(rooted, baseDir, u', meta) == RegisterTo(rooted, baseDir, t', meta)
            && RegisterTo(rooted, baseDir, u', meta).1 == Success(true)
            && ListFrom(rooted, baseDir, RegisterTo(rooted, baseDir, u', meta).0) ==
                 if rooted then None else Some(MemoryRun(v, ops).0.Keys + {meta.volumeID})
  {
    var id := meta.volumeID;
    InterruptedIs(baseDir, v, t, id, depth);
    RunAround(rooted, baseDir, home, v, t, id, depth, ops);
    BackendsAgree(rooted, baseDir, home, v, t, ops);
    RegisterClears(rooted, baseDir, home, MemoryRun(v, ops).0, DirectoryRun(rooted, baseDir, t, ops).0, depth, meta);
  }

  lemma NewKey(v: Volumes, meta: Metadata)
    requires meta.volumeID !in v
    ensures RegisterIn(v, meta).0.Keys == v.Keys + {meta.volumeID}
  {
  }

  lemma ListsNew(rooted: bool, baseDir: Path, home: string -> string, v: Volumes, t: Tree, meta: Metadata)
    requires Alike(baseDir, home, v, t) && Ordinary(meta.volumeID) && meta.targetPath == home(meta.volumeID) &&
             meta.volumeID !in v
    ensures ListFrom(rooted, baseDir, RegisterTo(rooted, baseDir, t, meta).0) ==
              if rooted then None else Some(v.Keys + {meta.volumeID})
  {
    RegisterAlike(rooted, baseDir, home, v, t, meta);
    NewKey(v, meta);
    ListAlike(rooted, baseDir, home, RegisterIn(v, meta).0, RegisterTo(rooted, baseDir, t, meta).0);
  }

  /** Following links from `q` comes to `x` or below it. */
  predicate Through(t: Tree, q: Path, hops: nat, x: Path)
    decreases hops
  {
    x <= q || (hops > 0 && q in t && t[q].Link? && Through(t, t[q].dest, hops - 1, x))
  }

  /** Without the subtree at `x` a path leads where it led, unless its links came through there. */
  lemma {:induction false} ResolveWithout(t: Tree, u: Tree, q: Path, hops: nat, x: Path)
    requires forall y :: Lookup(u, y) == if x <= y then None else Lookup(t, y)
    ensures Resolve(u, q, hops) == if Through(t, q, hops, x) then None else Resolve(t, q, hops)
    ensures Resolve(u, q, hops).Some? ==> !(x <= Resolve(u, q, hops).value)
    decreases hops
  {
    if !(x <= q) && q in t && t[q].Link? && hops > 0 {
      ResolveWithout(t, u, t[q].dest, hops - 1, x);
    }
  }

  /**
   * RemoveVolume takes away exactly the volume's subtree. Every other volume reads back as before, unless its record is
   * a link that leads through that subtree; then it is not found.
   */
  lemma RemoveIsExact(rooted: bool, baseDir: Path, t: Tree, a: string, b: string)
    requires Ordinary(a) && Ordinary(b)
    ensures forall q ::
              Lookup(RemoveFrom(baseDir, t, a), q) == if VolumePath(baseDir, a) <= q then None else Lookup(t, q)
    ensures ReadFrom(rooted, baseDir, RemoveFrom(baseDir, t, a), b) ==
              if a == b || Through(t, MetadataPath(baseDir, b), KERNEL_LINKS, VolumePath(baseDir, a))
              then Failure(NotFound) else ReadFrom(rooted, baseDir, t, b)
  {
    var u := RemoveFrom(baseDir, t, a);
    forall q ensures Lookup(u, q) == if VolumePath(baseDir, a) <= q then None else Lookup(t, q) {
      RemoveTreeIs(t, VolumePath(baseDir, a), q);
    }
    PathsBelow(baseDir, a);
    ResolveWithout(t, u, MetadataPath(baseDir, b), KERNEL_LINKS, VolumePath(baseDir, a));
    ReadWithout(rooted, baseDir, t, u, b);
  }

  lemma ReadWithout(rooted: bool, baseDir: Path, t: Tree, u: Tree, b: string)
    requires Resolve(u, MetadataPath(baseDir, b), KERNEL_LINKS).Some? ==>
               var q := Resolve(u, MetadataPath(baseDir, b), KERNEL_LINKS).value;
               Resolve(t, MetadataPath(baseDir, b), KERNEL_LINKS) == Some(q) && Lookup(u, q) == Lookup(t, q)
    ensures ReadFrom(rooted, baseDir, u, b) ==
              if Resolve(u, MetadataPath(baseDir, b), KERNEL_LINKS).None? then Failure(NotFound)
              else ReadFrom(rooted, baseDir, t, b)
  {
  }
}
