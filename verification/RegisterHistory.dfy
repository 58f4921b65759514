/** What a series of registers of one volume answers and leaves, on each backend. */
module RegisterHistory {
  import opened Wrappers
  import opened Documents
  import opened PathTree
  import opened VolumeLayout
  import opened MemoryStore
  import opened DirectoryStore
  import opened StoreSimulation

  function MemoryRegisters(v: Volumes, ms: seq<Metadata>): (Volumes, seq<Result<bool, MemoryStore.StoreError>>) {
    if ms == [] then (v, [])
    else
      var n := |ms| - 1;
      var (v', rs) := MemoryRegisters(v, ms[..n]);
      var (v'', r) := RegisterIn(v', ms[n]);
      (v'', rs + [r])
  }

  function DirectoryRegisters(
      rooted: bool, baseDir: Path, t: Tree, ms: seq<Metadata>): (Tree, seq<Result<bool, MemoryStore.StoreError>>)
  {
    if ms == [] then (t, [])
    else
      var n := |ms| - 1;
      var (t', rs) := DirectoryRegisters(rooted, baseDir, t, ms[..n]);
      var (t'', r) := RegisterTo(rooted, baseDir, t', ms[n]);
      (t'', rs + [r])
  }

  /** The k-th register is the first, or its context is not that of the one before. */
  predicate Changed(ms: seq<Metadata>, k: nat)
    requires k < |ms|
  {
    k == 0 || !SameContext(ms[k].context, ms[k - 1].context)
  }

  /** The last register that changed something. */
  function LastChange(ms: seq<Metadata>): (k: nat)
    requires ms != []
    ensures k < |ms| && Changed(ms, k) && forall j | k < j < |ms| :: !Changed(ms, j)
  {
    var n := |ms| - 1;
    if Changed(ms, n) then n
    else
      var k := LastChange(ms[..n]);
      assert forall j | k < j < n :: Changed(ms[..n], j) == Changed(ms, j);
      k
  }

  ghost predicate AllFor(id: string, ms: seq<Metadata>) {
    forall k | 0 <= k < |ms| :: ms[k].volumeID == id
  }

  /** The record a history amounts to: the target path of one register, the context of the last. */
  function Outcome(ms: seq<Metadata>, k: nat): Metadata
    requires k < |ms|
  {
    Normalise(ms[k].(context := ms[|ms| - 1].context))
  }

  lemma LastChangeStep(ms: seq<Metadata>)
    requires |ms| > 1
    ensures LastChange(ms) == if Changed(ms, |ms| - 1) then |ms| - 1 else LastChange(ms[..|ms| - 1])
  {
  }

  /** The record of a history compared with that of the history before the last register. */
  lemma OutcomeStep(ms: seq<Metadata>, k: nat)
    requires |ms| > 1 && k < |ms| - 1
    ensures var n, before := |ms| - 1, Outcome(ms[..|ms| - 1], k);
            && (SameContext(before.context, ms[n].context) <==> !Changed(ms, n))
            && (!Changed(ms, n) ==> Outcome(ms, k) == before)
            && Outcome(ms, k) == Normalise(before.(context := ms[n].context))
            && Outcome(ms, n) == Normalise(ms[n])
  {
  }

  lemma MemoryFirst(v: Volumes, meta: Metadata)
    requires meta.volumeID !in v
    ensures RegisterIn(v, meta).1 == Success(true) &&
            ReadIn(RegisterIn(v, meta).0, meta.volumeID) == Success(Normalise(meta))
  {
  }

  lemma MemoryNext(v: Volumes, meta: Metadata, stored: Metadata)
    requires ReadIn(v, meta.volumeID) == Success(stored)
    ensures RegisterIn(v, meta).1 == Success(!SameContext(stored.context, meta.context))
    ensures ReadIn(RegisterIn(v, meta).0, meta.volumeID)
            == Success(if SameContext(stored.context, meta.context) then stored else Normalise(meta))
  {
  }

  /**
   * In memory: each register answers true exactly when it is the first or its context differs from the previous one,
   * nil and empty being equal; a read then returns the last context and the target path of the last true answer.
   */
  lemma {:induction false} MemoryDetectsChange(v: Volumes, id: string, ms: seq<Metadata>)
    requires id !in v && AllFor(id, ms) && ms != []
    ensures var (v', rs) := MemoryRegisters(v, ms);
            && |rs| == |ms| && (forall k | 0 <= k < |ms| :: rs[k] == Success(Changed(ms, k)))
            && ReadIn(v', id) == Success(Outcome(ms, LastChange(ms)))
    decreases |ms|
  {
    var n := |ms| - 1;
    var prefix := ms[..n];
    if n == 0 {
      assert MemoryRegisters(v, prefix) == (v, []);
      MemoryFirst(v, ms[0]);
    } else {
      MemoryDetectsChange(v, id, prefix);
      assert forall k | 0 <= k < n :: Changed(prefix, k) == Changed(ms, k);
      LastChangeStep(ms);
      var k := LastChange(prefix);
      OutcomeStep(ms, k);
      MemoryNext(MemoryRegisters(v, prefix).0, ms[n], Outcome(prefix, k));
    }
  }

  /** The volume's directories and its record, all in place. */
  ghost predicate Holds(baseDir: Path, t: Tree, id: string, text: Text) {
    && Ready(baseDir, t)
    && Lookup(t, VolumePath(baseDir, id)) == Some(Dir) && Lookup(t, DataPath(baseDir, id)) == Some(Dir)
    && Lookup(t, MetadataPath(baseDir, id)) == Some(File(text))
  }

  ghost predicate Absent(baseDir: Path, t: Tree, id: string) {
    && Ready(baseDir, t)
    && VolumePath(baseDir, id) !in t && DataPath(baseDir, id) !in t && MetadataPath(baseDir, id) !in t
  }

  lemma StoreHolds(baseDir: Path, t: Tree, id: string, meta: Metadata)
    requires Ordinary(id) && (Absent(baseDir, t, id) || exists text :: Holds(baseDir, t, id, text))
    ensures Store(baseDir, t, id, id, meta).1 == Success(true) &&
            Holds(baseDir, Store(baseDir, t, id, id, meta).0, id, Encode(meta))
  {
    var p, d, m := VolumePath(baseDir, id), DataPath(baseDir, id), MetadataPath(baseDir, id);
    StoreIs(baseDir, t, id, meta);
    PathsBelow(baseDir, id);
    AboveStays(baseDir, t, p, Dir);
    AboveStays(baseDir, t[p := Dir], d, Dir);
    AboveStays(baseDir, t[p := Dir][d := Dir], m, File(Encode(meta)));
  }

  /**
   * A filesystem backend answers true to the k-th register; with a rooted base directory it never sees the old record.
   */
  predicate Tells(rooted: bool, ms: seq<Metadata>, k: nat)
    requires k < |ms|
  {
    rooted || Changed(ms, k)
  }

  /** The record that a filesystem backend ends up with, whether or not it can read it. */
  function Left(rooted: bool, ms: seq<Metadata>): Metadata
    requires ms != []
  {
    Outcome(ms, if rooted then |ms| - 1 else 0)
  }

  lemma DirectoryFirst(rooted: bool, baseDir: Path, t: Tree, meta: Metadata)
    requires Ordinary(meta.volumeID) && Absent(baseDir, t, meta.volumeID)
    ensures RegisterTo(rooted, baseDir, t, meta).1 == Success(true)
    ensures Holds(baseDir, RegisterTo(rooted, baseDir, t, meta).0, meta.volumeID, Json(Normalise(meta)))
  {
    StoreHolds(baseDir, t, meta.volumeID, meta);
  }

  lemma DirectoryNext(baseDir: Path, t: Tree, meta: Metadata, stored: Metadata)
    requires Ordinary(meta.volumeID) && Holds(baseDir, t, meta.volumeID, Json(stored))
    requires stored.volumeID == meta.volumeID
    ensures RegisterTo(false, baseDir, t, meta).1 == Success(!SameContext(stored.context, meta.context))
    ensures Holds(baseDir, RegisterTo(false, baseDir, t, meta).0, meta.volumeID,
                  Json(if SameContext(stored.context, meta.context) then stored
                    else Normalise(stored.(context := meta.context))))
  {
    StoreHolds(baseDir, t, meta.volumeID, stored.(context := meta.context));
  }

  /**
   * With a rooted base directory nothing that was registered is found again: the read that follows fails, the listing
   * too, and registering the very same record answers true once more.
   */
  lemma RootedForgets(baseDir: Path, t: Tree, meta: Metadata)
    requires Ordinary(meta.volumeID)
    requires Absent(baseDir, t, meta.volumeID) || exists text :: Holds(baseDir, t, meta.volumeID, text)
    ensures var (t', r) := RegisterTo(true, baseDir, t, meta);
            && r == Success(true) && Holds(baseDir, t', meta.volumeID, Encode(meta))
            && ReadFrom(true, baseDir, t', meta.volumeID) == Failure(NotFound) && ListFrom(true, baseDir, t') == None
            && RegisterTo(true, baseDir, t', meta).1 == Success(true)
  {
    StoreHolds(baseDir, t, meta.volumeID, meta);
    StoreHolds(baseDir, Store(baseDir, t, meta.volumeID, meta.volumeID, meta).0, meta.volumeID, meta);
  }

  /** One more register of a volume whose history is recorded. */
  lemma DirectoryGoesOn(rooted: bool, baseDir: Path, t: Tree, id: string, ms: seq<Metadata>)
    requires Ordinary(id) && |ms| > 1 && AllFor(id, ms)
    requires Holds(baseDir, t, id, Json(Left(rooted, ms[..|ms| - 1])))
    ensures RegisterTo(rooted, baseDir, t, ms[|ms| - 1]).1 == Success(Tells(rooted, ms, |ms| - 1))
    ensures Holds(baseDir, RegisterTo(rooted, baseDir, t, ms[|ms| - 1]).0, id, Json(Left(rooted, ms)))
  {
    var meta := ms[|ms| - 1];
    OutcomeStep(ms, 0);
    if rooted {
      RootedForgets(baseDir, t, meta);
    } else {
      DirectoryNext(baseDir, t, meta, Outcome(ms[..|ms| - 1], 0));
    }
  }

  /** The answers of a history are those of the history before the last register, and one more. */
  lemma AnswersGrow(rooted: bool, ms: seq<Metadata>, rs: seq<Result<bool, MemoryStore.StoreError>>)
    requires |ms| > 1 && |rs| == |ms| - 1
    requires forall k | 0 <= k < |rs| :: rs[k] == Success(Tells(rooted, ms[..|ms| - 1], k))
    ensures forall k | 0 <= k < |ms| ::
              (rs + [Success(Tells(rooted, ms, |ms| - 1))])[k] == Success(Tells(rooted, ms, k))
  {
    assert forall k | 0 <= k < |rs| :: Changed(ms[..|ms| - 1], k) == Changed(ms, k);
  }

  /**
   * On the filesystem the answers are the same, but the record keeps the target path of the first register. With a
   * rooted base directory every answer is true, and the record is the last one.
   */
  lemma {:induction false} DirectoryDetectsChange(rooted: bool, baseDir: Path, t: Tree, id: string, ms: seq<Metadata>)
    requires Ordinary(id) && Absent(baseDir, t, id) && AllFor(id, ms) && ms != []
    ensures var (t', rs) := DirectoryRegisters(rooted, baseDir, t, ms);
            && |rs| == |ms| && (forall k | 0 <= k < |ms| :: rs[k] == Success(Tells(rooted, ms, k)))
            && Holds(baseDir, t', id, Json(Left(rooted, ms)))
    decreases |ms|
  {
    var n := |ms| - 1;
    if n == 0 {
      assert DirectoryRegisters(rooted, baseDir, t, ms[..n]) == (t, []);
      DirectoryFirst(rooted, baseDir, t, ms[0]);
    } else {
      DirectoryDetectsChange(rooted, baseDir, t, id, ms[..n]);
      var (u, rs) := DirectoryRegisters(rooted, baseDir, t, ms[..n]);
      AnswersGrow(rooted, ms, rs);
      DirectoryGoesOn(rooted, baseDir, u, id, ms);
    }
  }

  /**
   * So after any history the two backends have answered alike if and only if the base directory is not rooted or every
   * register was a change, and they read back the same record if and only if it is not rooted and those two target
   * paths are equal.
   */
  lemma BackendsReadAlikeIff(rooted: bool, baseDir: Path, v: Volumes, t: Tree, id: string, ms: seq<Metadata>)
    requires Ordinary(id) && id !in v && Absent(baseDir, t, id) && AllFor(id, ms) && ms != []
    ensures MemoryRegisters(v, ms).1 == DirectoryRegisters(rooted, baseDir, t, ms).1
            <==> !rooted || forall k | 0 <= k < |ms| :: Changed(ms, k)
    ensures ReadIn(MemoryRegisters(v, ms).0, id)
              == ReadFrom(rooted, baseDir, DirectoryRegisters(rooted, baseDir, t, ms).0, id)
            <==> !rooted && ms[LastChange(ms)].targetPath == ms[0].targetPath
  {
    MemoryDetectsChange(v, id, ms);
    DirectoryDetectsChange(rooted, baseDir, t, id, ms);
    SameAnswersIff(rooted, ms, MemoryRegisters(v, ms).1, DirectoryRegisters(rooted, baseDir, t, ms).1);
  }

  lemma SameAnswersIff(
      rooted: bool, ms: seq<Metadata>, mem: seq<Result<bool, MemoryStore.StoreError>>,
      dir: seq<Result<bool, MemoryStore.StoreError>>)
    requires |mem| == |dir| == |ms| && forall k | 0 <= k < |ms| :: mem[k] == Success(Changed(ms, k))
    requires forall k | 0 <= k < |ms| :: dir[k] == Success(Tells(rooted, ms, k))
    ensures mem == dir <==> !rooted || forall k | 0 <= k < |ms| :: Changed(ms, k)
  {
    if mem == dir && rooted {
      forall k | 0 <= k < |ms| ensures Changed(ms, k) {
        assert mem[k] == dir[k];
      }
    }
  }

  /** The empty ID names the store directory itself. */
  lemma EmptyIdPaths(baseDir: Path)
    ensures VolumePath(baseDir, "") == TempfsPath(baseDir) &&
            MetadataPath(baseDir, "") == TempfsPath(baseDir) + [METADATA_FILE]
    ensures Parent(TempfsPath(baseDir) + [METADATA_FILE]) == TempfsPath(baseDir)
  {
    assert Split("") == [""] && [""][1..] == [];
  }

  lemma StrayRecord(baseDir: Path, t: Tree, id: string, junk: string, meta: Metadata)
    requires Ordinary(id) && Holds(baseDir, t, id, Bytes(junk)) && TempfsPath(baseDir) + [METADATA_FILE] !in t
    ensures Store(baseDir, t, id, "", meta) == (t[TempfsPath(baseDir) + [METADATA_FILE] := File(Encode(meta))],
            Success(true))
  {
    EmptyIdPaths(baseDir);
    EnsureIs(baseDir, t, id);
    assert t[VolumePath(baseDir, id) := Dir][DataPath(baseDir, id) := Dir] == t;
    assert TempfsPath(baseDir)[..|baseDir| + 1] == TempfsPath(baseDir);
  }

  /** A file among the volume directories leaves the volumes' own records alone but blocks every listing. */
  lemma StrayFile(baseDir: Path, t: Tree, id: string, name: string, text: Text)
    requires Ordinary(id) && Ordinary(name) && TempfsPath(baseDir) + [name, METADATA_FILE] !in t
    ensures var t' := t[TempfsPath(baseDir) + [name] := File(text)];
            Lookup(t', MetadataPath(baseDir, id)) == Lookup(t, MetadataPath(baseDir, id)) &&
              ListFrom(false, baseDir, t') == None
  {
    Spelled(baseDir, id);
    Spelled(baseDir, name);
    assert VolumePath(baseDir, name) == TempfsPath(baseDir) + [name];
    assert MetadataPath(baseDir, name) == TempfsPath(baseDir) + [name, METADATA_FILE];
    ListingStops(false, baseDir, t[TempfsPath(baseDir) + [name] := File(text)], name);
  }

  /** A record that does not decode reads as an empty one, and is told apart from it by no register. */
  lemma CorruptIsEmpty(baseDir: Path, t: Tree, meta: Metadata, junk: string)
    requires Ordinary(meta.volumeID) && Holds(baseDir, t, meta.volumeID, Bytes(junk))
    ensures ReadFrom(false, baseDir, t, meta.volumeID) == Failure(InvalidJSON)
    ensures RegisterTo(false, baseDir, t, meta) ==
              if Entries(meta.context) == map[] then (t, Success(false))
              else Store(baseDir, t, meta.volumeID, "", Metadata("", "", meta.context))
  {
  }

  /**
   * A stored record that does not decode is never repaired on a filesystem that can read it: register answers true
   * exactly when the new context has entries, yet the record still does not decode, the new one lands in the store
   * directory itself, and from then on every listing fails. With a rooted base directory it is overwritten, unread.
   */
  lemma CorruptRecordStays(rooted: bool, baseDir: Path, t: Tree, meta: Metadata, junk: string)
    requires Ordinary(meta.volumeID) && Holds(baseDir, t, meta.volumeID, Bytes(junk))
    requires TempfsPath(baseDir) + [METADATA_FILE] !in t && TempfsPath(baseDir) + [METADATA_FILE, METADATA_FILE] !in t
    ensures var (t', r) := RegisterTo(rooted, baseDir, t, meta);
            if rooted then r == Success(true) && Holds(baseDir, t', meta.volumeID, Encode(meta))
            else
              && r == Success(Entries(meta.context) != map[])
              && ReadFrom(false, baseDir, t', meta.volumeID) == Failure(InvalidJSON)
              && (r == Success(false) ==> t' == t)
              && (r == Success(true) ==>
                    && t' == t[TempfsPath(baseDir) + [METADATA_FILE] := File(Encode(Metadata("", "", meta.context)))]
                    && ListFrom(false, baseDir, t') == None)
  {
    if rooted {
      RootedForgets(baseDir, t, meta);
    } else {
      CorruptIsEmpty(baseDir, t, meta, junk);
      if Entries(meta.context) != map[] {
        var stray := Metadata("", "", meta.context);
        StrayRecord(baseDir, t, meta.volumeID, junk, stray);
        StrayFile(baseDir, t, meta.volumeID, METADATA_FILE, Encode(stray));
      }
    }
  }

  /** An obstacle where the volume's directory should be makes a first register fail, and nothing changes. */
  lemma RegisterBlocked(rooted: bool, baseDir: Path, t: Tree, meta: Metadata, obstacle: Text)
    requires Ordinary(meta.volumeID) && Ready(baseDir, t)
    requires Lookup(t, VolumePath(baseDir, meta.volumeID)) == Some(File(obstacle))
    requires MetadataPath(baseDir, meta.volumeID) !in t
    ensures RegisterTo(rooted, baseDir, t, meta) == (t, Failure(OtherError))
  {
    var p := VolumePath(baseDir, meta.volumeID);
    PathsBelow(baseDir, meta.volumeID);
    RegisterFrom(rooted, baseDir, t, meta);
    assert ReadFrom(rooted, baseDir, t, meta.volumeID) == Failure(NotFound);
    assert p != [] && Resolve(t, p, KERNEL_LINKS) == Some(p);
    assert MkdirAll(t, p) == (t, false);
  }

  /** A record that is a link is written through to the file it leads to; a directory there cannot be written. */
  lemma WriteThroughLink(baseDir: Path, t: Tree, id: string, meta: Metadata, to: Path)
    requires Ordinary(id) && Lookup(t, MetadataPath(baseDir, id)) == Some(Link(to))
    ensures to != [] && to in t && t[to].File? && (Parent(to) == [] || Lookup(t, Parent(to)) == Some(Dir)) ==>
              WriteTo(baseDir, t, id, meta) == (t[to := File(Encode(meta))], true)
    ensures Lookup(t, to) == Some(Dir) ==> WriteTo(baseDir, t, id, meta) == (t, false)
  {
  }

  /** Each answer of a read: the record, no record to open, or something there that is no record. */
  lemma ReadAnswers(rooted: bool, baseDir: Path, t: Tree, id: string)
    ensures var r, to := ReadFrom(rooted, baseDir, t, id), Resolve(t, MetadataPath(baseDir, id), KERNEL_LINKS);
            && (r == Failure(NotFound) <==> rooted || to.None?)
            && (forall meta :: r == Success(meta)
                 <==> !rooted && to.Some? && Lookup(t, to.value) == Some(File(Json(meta))))
            && (r.Failure? ==> r.error != OtherError)
  {
  }
}
