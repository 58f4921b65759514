/** What the memory backend keeps of a volume's files, whatever is registered, written or removed in between. */
module MemoryFiles {
  import opened Wrappers
  import opened Documents
  import opened MemoryStore

  /** Volume `id` holds the file `name` in both or in neither, with the same text. */
  ghost predicate SameFile(v: Volumes, v': Volumes, id: string, name: string) {
    && id in v && id in v' && (name in v[id] <==> name in v'[id])
    && (name in v[id] ==> v'[id][name] == v[id][name])
  }

  /** The text that stores a record: an empty context is stored as none. */
  ghost predicate Stores(text: Text, meta: Metadata) {
    && text.Json? && text.meta.volumeID == meta.volumeID && text.meta.targetPath == meta.targetPath
    && text.meta.context == if meta.context == Some(map[]) then None else meta.context
  }

  lemma EncodeStores(meta: Metadata)
    ensures Stores(Encode(meta), meta) && Decode(Encode(meta)) == Some(Encode(meta).meta)
  {
  }

  /** A register changes no file but the record of its own volume. */
  lemma RegisterKeepsFiles(v: Volumes, meta: Metadata, id: string, name: string)
    requires id in v && (id != meta.volumeID || name != "metadata.json")
    ensures SameFile(v, RegisterIn(v, meta).0, id, name)
    ensures RegisterIn(v, meta).0.Keys == v.Keys + {meta.volumeID}
  {
  }

  /** Nor does a write, and it does nothing for an unknown volume. */
  lemma WriteKeepsFiles(v: Volumes, volumeID: string, meta: Metadata, id: string, name: string)
    requires id in v && (id != volumeID || name != "metadata.json")
    ensures SameFile(v, WriteIn(v, volumeID, meta).0, id, name)
    ensures WriteIn(v, volumeID, meta).1 <==> volumeID in v
    ensures WriteIn(v, volumeID, meta).0.Keys == v.Keys && (volumeID !in v ==> WriteIn(v, volumeID, meta).0 == v)
    ensures volumeID in v ==>
              "metadata.json" in WriteIn(v, volumeID, meta).0[volumeID] &&
              Stores(WriteIn(v, volumeID, meta).0[volumeID]["metadata.json"], meta)
  {
  }

  /** Each answer of a register, and the record it leaves. */
  lemma RegisterAnswers(v: Volumes, meta: Metadata)
    ensures var (v', r), id := RegisterIn(v, meta), meta.volumeID;
            && id in v'
            && if id !in v || "metadata.json" !in v[id] then
                 r == Success(true) && "metadata.json" in v'[id] && Stores(v'[id]["metadata.json"], meta)
               else
                 match v[id]["metadata.json"]
                 case Bytes(_) => r == Failure(OtherError) && v' == v
                 case Json(was) =>
                   if SameEntries(was.context, meta.context) then r == Success(false) && v' == v
                   else r == Success(true) && "metadata.json" in v'[id] && Stores(v'[id]["metadata.json"], meta)
    ensures meta.volumeID !in v ==> RegisterIn(v, meta).0[meta.volumeID].Keys == {"metadata.json"}
  {
    var id := meta.volumeID;
    if id in v {
      assert v[id := v[id]] == v;
      if "metadata.json" in v[id] && v[id]["metadata.json"].Json? {
        SameContextIs(v[id]["metadata.json"].meta.context, meta.context);
      }
    }
  }

  /** Each answer of a read. */
  lemma ReadAnswers(v: Volumes, id: string)
    ensures ReadIn(v, id) == Failure(NotFound) <==> id !in v || "metadata.json" !in v[id]
    ensures forall meta :: ReadIn(v, id) == Success(meta) <==>
              (id in v && "metadata.json" in v[id] && v[id]["metadata.json"] == Json(meta))
    ensures ReadIn(v, id).Failure? ==> ReadIn(v, id).error != OtherError
  {
  }

  /** Registering the same record again answers false; registering it with another entry answers true. */
  lemma RegisterAgain(v: Volumes, meta: Metadata, next: Metadata)
    requires RegisterIn(v, meta).1 == Success(true) && next.volumeID == meta.volumeID
    ensures RegisterIn(RegisterIn(v, meta).0, next).1 == Success(!SameEntries(meta.context, next.context))
  {
    var v' := RegisterIn(v, meta).0;
    RegisterAnswers(v, meta);
    RegisterAnswers(v', next);
    SameContextIs(meta.context, next.context);
    SameContextIs(v'[meta.volumeID]["metadata.json"].meta.context, next.context);
  }

  // Runs

  datatype FileOp =
    | Register(meta: Metadata)
    | Write(id: string, meta: Metadata)
    | Put(id: string, data: map<string, Text>)
    | Remove(id: string)

  function FileStep(v: Volumes, op: FileOp): Volumes {
    match op
    case Register(meta) => RegisterIn(v, meta).0
    case Write(id, meta) => WriteIn(v, id, meta).0
    case Put(id, data) => if id in v then v[id := v[id] + data] else v
    case Remove(id) => v - {id}
  }

  function FileRun(v: Volumes, ops: seq<FileOp>): Volumes {
    if ops == [] then v else FileStep(FileRun(v, ops[..|ops| - 1]), ops[|ops| - 1])
  }

  /** The volume was there at the start or has been registered, and has not been removed since. */
  predicate Known(v: Volumes, ops: seq<FileOp>, id: string) {
    if ops == [] then id in v
    else
      var before := Known(v, ops[..|ops| - 1], id);
      match ops[|ops| - 1]
      case Register(meta) => meta.volumeID == id || before
      case Remove(o) => o != id && before
      case _ => before
  }

  /** What was last put into the file while the volume was known; None once the volume is removed. */
  function LastPut(v: Volumes, ops: seq<FileOp>, id: string, name: string): Option<Text> {
    if ops == [] then if id in v && name in v[id] then Some(v[id][name]) else None
    else
      var init := ops[..|ops| - 1];
      match ops[|ops| - 1]
      case Put(o, data) => if o == id && name in data && Known(v, init, id) then Some(data[name])
        else LastPut(v, init, id, name)
      case Remove(o) => if o == id then None else LastPut(v, init, id, name)
      case _ => LastPut(v, init, id, name)
  }

  /**
   * Over every run of registers, writes, file writes and removes: a volume is there exactly while it is known, and each
   * of its files other than the record reads back as last put there, whatever registers and writes came in between.
   */
  lemma {:induction false} FilesReadBack(v: Volumes, ops: seq<FileOp>, id: string, name: string)
    requires name != "metadata.json"
    ensures id in FileRun(v, ops) <==> Known(v, ops, id)
    ensures LastPut(v, ops, id, name)
         == if id in FileRun(v, ops) && name in FileRun(v, ops)[id] then Some(FileRun(v, ops)[id][name]) else None
  {
    if ops != [] {
      var init, last := ops[..|ops| - 1], ops[|ops| - 1];
      var before := FileRun(v, init);
      FilesReadBack(v, init, id, name);
      match last
      case Register(meta) =>
        RegisterAnswers(before, meta);
        if id in before {
          RegisterKeepsFiles(before, meta, id, name);
        }
      case Write(o, meta) =>
        if id in before {
          WriteKeepsFiles(before, o, meta, id, name);
        }
      case _ =>
    }
  }
}
