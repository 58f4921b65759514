/** storage/memory.go: a map of maps, the inner maps being heap objects. */
module MemoryStore {
  import opened Wrappers
  import opened Documents

  const METADATA_FILE := "metadata.json"

  datatype StoreError = NotFound | InvalidJSON | OtherError

  /** What the store holds, read off the heap. */
  type Volumes = map<string, map<string, Text>>

  function ReadIn(v: Volumes, id: string): Result<Metadata, StoreError> {
    if id !in v || METADATA_FILE !in v[id] then Failure(NotFound)
    else match Decode(v[id][METADATA_FILE])
      case Some(m) => Success(m)
      case None => Failure(InvalidJSON)
  }

  function WriteIn(v: Volumes, id: string, meta: Metadata): (Volumes, bool) {
    if id !in v then (v, false)
    else (v[id := v[id][METADATA_FILE := Encode(meta)]], true)
  }

  /** The volume exists afterwards even when the stored record does not decode. */
  function RegisterIn(v: Volumes, meta: Metadata): (Volumes, Result<bool, StoreError>) {
    var id := meta.volumeID;
    var vol := if id in v then v[id] else map[];
    if METADATA_FILE in vol && Decode(vol[METADATA_FILE]) == None then (v[id := vol], Failure(OtherError))
    else if METADATA_FILE in vol && SameContext(Decode(vol[METADATA_FILE]).value.context, meta.context) then
      (v[id := vol], Success(false))
    else (v[id := vol[METADATA_FILE := Encode(meta)]], Success(true))
  }

  /** One volume's files: a Go map, shared by reference. */
  class Volume {
    var files: map<string, Text>

    constructor ()
      ensures files == map[]
    {
      files := map[];
    }

    /** Copies every entry of `data` in, one by one. */
    method Merge(data: map<string, Text>)
      modifies this
      ensures files == old(files) + data
    {
      var rest := data.Keys;
      while rest != {}
        invariant rest <= data.Keys
        invariant files == old(files) + map k | k in data && k !in rest :: data[k]
        decreases |rest|
      {
        var k :| k in rest;
        files := files[k := data[k]];
        rest := rest - {k};
      }
      assert (map k | k in data && k !in rest :: data[k]) == data;
    }
  }

  class MemoryFS {
    var files: map<string, Volume>

    constructor ()
      ensures Valid() && Contents() == map[] && Inner() == {}
    {
      files := map[];
    }

    ghost function Inner(): set<Volume>
      reads this
    {
      set id | id in files :: files[id]
    }

    /** No two volumes share an inner map. */
    ghost predicate Valid()
      reads this
    {
      forall a, b | a in files && b in files && a != b :: files[a] != files[b]
    }

    ghost function Contents(): Volumes
      reads this, Inner()
    {
      map id | id in files :: files[id].files
    }

    /** What every update keeps: isolation, and inner maps that are old ones in their old place or new. */
    twostate predicate Isolated()
      reads this
    {
      && Valid()
      && (forall id | id in files && id in old(files) :: files[id] == old(files[id]))
      && (forall id | id in files && id !in old(files) :: fresh(files[id]))
    }

    /** When the inner map of one volume was updated, the contents changed there and nowhere else. */
    twostate lemma OnlyOneChanged(id: string)
      requires old(Valid()) && files == old(files) && id in files
      requires forall a | a in files && a != id :: files[a].files == old(files[a].files)
      ensures Contents() == old(Contents())[id := files[id].files]
    {
    }

    method RemoveVolume(volumeID: string)
      requires Valid()
      modifies this
      ensures Isolated() && Contents() == old(Contents()) - {volumeID}
    {
      files := files - {volumeID};
    }

    method ReadMetadata(volumeID: string) returns (r: Result<Metadata, StoreError>)
      requires Valid()
      ensures r == ReadIn(Contents(), volumeID)
    {
      if volumeID !in files {
        return Failure(NotFound);
      }
      var vol := files[volumeID];
      if METADATA_FILE !in vol.files {
        return Failure(NotFound);
      }
      var meta := Decode(vol.files[METADATA_FILE]);
      if meta.None? {
        return Failure(InvalidJSON);
      }
      return Success(meta.value);
    }

    /** Each key once, in no particular order. */
    method ListVolumes() returns (vols: seq<string>)
      requires Valid()
      ensures (forall i, j | 0 <= i < j < |vols| :: vols[i] != vols[j])
      ensures forall id :: id in vols <==> id in Contents()
    {
      vols := [];
      var rest := files.Keys;
      while rest != {}
        invariant rest <= files.Keys
        invariant forall id :: id in vols <==> id in files.Keys - rest
        invariant forall i, j | 0 <= i < j < |vols| :: vols[i] != vols[j]
        decreases |rest|
      {
        var vol :| vol in rest;
        assert vol !in vols;
        vols := vols + [vol];
        rest := rest - {vol};
      }
    }

    method WriteMetadata(volumeID: string, meta: Metadata) returns (ok: bool)
      requires Valid()
      modifies Inner()
      ensures Isolated() && (Contents(), ok) == WriteIn(old(Contents()), volumeID, meta)
    {
      if volumeID !in files {
        return false;
      }
      var vol := files[volumeID];
      vol.files := vol.files[METADATA_FILE := Encode(meta)];
      OnlyOneChanged(volumeID);
      return true;
    }

    method RegisterMetadata(meta: Metadata) returns (r: Result<bool, StoreError>)
      requires Valid()
      modifies this, Inner()
      ensures Isolated() && (Contents(), r) == RegisterIn(old(Contents()), meta)
    {
      if meta.volumeID !in files {
        var created := new Volume();
        files := files[meta.volumeID := created];
      }
      var vol := files[meta.volumeID];
      ghost var v, id := old(Contents()), meta.volumeID;
      assert Contents() == v[id := if id in v then v[id] else map[]];
      label created:
      if METADATA_FILE in vol.files {
        var existing := Decode(vol.files[METADATA_FILE]);
        if existing.None? {
          return Failure(OtherError);
        }
        if SameContext(existing.value.context, meta.context) {
          return Success(false);
        }
      }
      vol.files := vol.files[METADATA_FILE := Encode(meta)];
      OnlyOneChanged@created(meta.volumeID);
      assert Contents() == v[id := vol.files];
      return Success(true);
    }

    method WriteFiles(meta: Metadata, data: map<string, Text>) returns (ok: bool)
      requires Valid()
      modifies Inner()
      ensures Isolated() && ok == (meta.volumeID in old(files))
      ensures Contents() == if ok then old(Contents())[meta.volumeID := old(Contents()[meta.volumeID]) + data]
              else old(Contents())
    {
      if meta.volumeID !in files {
        return false;
      }
      files[meta.volumeID].Merge(data);
      OnlyOneChanged(meta.volumeID);
      return true;
    }

    /** A fresh copy: no later update of the store can reach its bindings. */
    method ReadFiles(volumeID: string) returns (copy: Option<Volume>)
      requires Valid()
      ensures copy.Some? <==> volumeID in files
      ensures copy.Some? ==> fresh(copy.value) && copy.value !in Inner() && copy.value.files == Contents()[volumeID]
    {
      if volumeID !in files {
        return None;
      }
      var cpy := new Volume();
      cpy.Merge(files[volumeID].files);
      assert map[] + files[volumeID].files == files[volumeID].files;
      return Some(cpy);
    }
  }
}
