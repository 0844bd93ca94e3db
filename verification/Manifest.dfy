/** The manifest, the store that holds its versions, and the clients that fence one another.

    Every version of the manifest is an object of its own, named by its id and written only if
    no object has that id. A client keeps the last version it read or wrote.
 */
module Manifests {
  import opened Tables

  /** An SST as a reader sees it: its id and its rows. */
  datatype Sst = Sst(id: nat, rows: Table)

  /** A sorted run: SSTs over disjoint key ranges. */
  datatype Run = Run(id: nat, ssts: seq<Sst>)

  /** The part of the database state that the manifest records. L0 and the runs are newest first. */
  datatype Core = Core(
    l0LastCompacted: Option<nat>,
    l0: seq<Sst>,
    compacted: seq<Run>,
    nextWal: nat,
    lastCompactedWal: nat)

  const NewCore := Core(None, [], [], 1, 0)

  datatype Manifest = Manifest(core: Core, writerEpoch: nat, compactorEpoch: nat) {
    function Epoch(kind: Kind): nat {
      if kind.WriterKind? then writerEpoch else compactorEpoch
    }

    function Bump(kind: Kind): Manifest {
      if kind.WriterKind? then this.(writerEpoch := writerEpoch + 1)
      else this.(compactorEpoch := compactorEpoch + 1)
    }
  }

  datatype Kind = WriterKind | CompactorKind

  type Files = map<nat, Manifest>

  datatype Status = Ok | Fenced | VersionExists | InvalidState | Panic

  // ---------------------------------------------------------------- one client

  /** A client: the version it holds and, once it has fenced its rivals, its own epoch. */
  datatype Client =
    | Loaded(id: nat, manifest: Manifest)
    | Live(kind: Kind, epoch: nat, id: nat, manifest: Manifest)

  function CheckEpoch(c: Client): Status
    requires c.Live?
  {
    if c.epoch < c.manifest.Epoch(c.kind) then Fenced
    else if c.epoch > c.manifest.Epoch(c.kind) then Panic
    else Ok
  }

  datatype Result = Result(files: Files, client: Client, status: Status)

  /** Write the next version after the one held; fails when another client has written it. */
  function UpdateManifest(files: Files, c: Client, m: Manifest): Result {
    if c.id + 1 in files then Result(files, c, VersionExists)
    else Result(files[c.id + 1 := m], c.(id := c.id + 1, manifest := m), Ok)
  }

  /** Raise the epoch of the client's kind, which fences every older client of that kind. The
      copy is raised in place, so it stays raised when the write fails. */
  function Fence(files: Files, c: Client, kind: Kind): Result {
    var m := c.manifest.Bump(kind);
    var r := UpdateManifest(files, c, m);
    if r.status.Ok? then r.(client := Live(kind, m.Epoch(kind), r.client.id, m))
    else r.(client := r.client.(manifest := m))
  }

  /** Write a new database state, unless the client knows that it has been fenced. */
  function UpdateDbState(files: Files, c: Client, core: Core): Result
    requires c.Live?
  {
    if CheckEpoch(c) != Ok then Result(files, c, CheckEpoch(c))
    else UpdateManifest(files, c, c.manifest.(core := core))
  }

  /** Read the latest version; the copy is replaced even when the client finds itself fenced. */
  ghost function RefreshClient(files: Files, c: Client): Result
    requires c.Live?
  {
    if files == map[] then Result(files, c, InvalidState)
    else
      var c' := c.(id := MaxKey(files), manifest := files[MaxKey(files)]);
      Result(files, c', CheckEpoch(c'))
  }

  // ---------------------------------------------------------------- the classes

  class ManifestStore {
    var files: Files

    constructor ()
      ensures files == map[]
    {
      files := map[];
    }

    /** The conditional put, as one atomic step. */
    method WriteManifest(id: nat, m: Manifest) returns (status: Status)
      modifies this
      ensures status == if id in old(files) then VersionExists else Ok
      ensures files == if id in old(files) then old(files) else old(files)[id := m]
    {
      if id in files {
        return VersionExists;
      }
      files := files[id := m];
      return Ok;
    }

    method ReadLatestManifest() returns (r: Option<(nat, Manifest)>)
      ensures r == if files == map[] then None else Some((MaxKey(files), files[MaxKey(files)]))
    {
      if files == map[] {
        return None;
      }
      MaxKeyExists(files);
      var id: nat :| id in files.Keys && forall j :: j in files.Keys ==> j <= id;
      assert id == MaxKey(files);
      return Some((id, files[id]));
    }
  }

  /** StoredManifest and FenceableManifest in one object: the version held and the local epoch. */
  class FenceableManifest {
    const store: ManifestStore
    const kind: Kind
    var id: nat
    var manifest: Manifest
    var localEpoch: nat
    var live: bool

    /** The client as a value. */
    ghost function Value(): Client
      reads this
    {
      if live then Live(kind, localEpoch, id, manifest) else Loaded(id, manifest)
    }

    constructor (store: ManifestStore, kind: Kind, id: nat, manifest: Manifest)
      ensures this.store == store && this.kind == kind
      ensures Value() == Loaded(id, manifest)
    {
      this.store, this.kind, this.id, this.manifest := store, kind, id, manifest;
      localEpoch, live := 0, false;
    }

    method UpdateStored(m: Manifest) returns (status: Status)
      modifies this, store
      ensures Result(store.files, Value(), status) == UpdateManifest(old(store.files), old(Value()), m)
      ensures localEpoch == old(localEpoch) && live == old(live)
    {
      var newId := id + 1;
      status := store.WriteManifest(newId, m);
      if status.Ok? {
        manifest := m;
        id := newId;
      }
    }

    method Init() returns (status: Status)
      requires !live
      modifies this, store
      ensures Result(store.files, Value(), status) == Fence(old(store.files), old(Value()), kind)
    {
      var m := manifest.Bump(kind);
      manifest := m;
      status := UpdateStored(m);
      if status.Ok? {
        localEpoch := m.Epoch(kind);
        live := true;
      }
    }

    method UpdateCore(core: Core) returns (status: Status)
      requires live
      modifies this, store
      ensures Result(store.files, Value(), status) == UpdateDbState(old(store.files), old(Value()), core)
    {
      if localEpoch < manifest.Epoch(kind) {
        return Fenced;
      }
      if localEpoch > manifest.Epoch(kind) {
        return Panic;
      }
      status := UpdateStored(manifest.(core := core));
    }

    method Refresh() returns (status: Status)
      requires live
      modifies this
      ensures Result(store.files, Value(), status) == RefreshClient(old(store.files), old(Value()))
    {
      var stored := store.ReadLatestManifest();
      match stored
      case None => return InvalidState;
      case Some((latest, m)) =>
        id, manifest := latest, m;
        status := if localEpoch < m.Epoch(kind) then Fenced
                  else if localEpoch > m.Epoch(kind) then Panic else Ok;
    }
  }
}
