/** The database as objects: the writer's and the compactor's state, their manifest clients, the manifest
    store and the stored files. Every method is one action of the machine with files, so whatever is
    called, the objects are in the state that the machine reaches by that run.
 */
module Databases {
  import opened Tables
  import opened Keys
  import opened Rows
  import opened Formats
  import opened Blocks
  import opened Bloom
  import opened SstFormat
  import opened SstBuilders
  import opened SstIterators
  import opened SortedRuns
  import opened Executors
  import opened KvTables
  import M = Manifests
  import opened WriterState
  import opened CompactorStates
  import opened Lsm
  import opened LsmTheorems
  import opened LsmGuarantees
  import opened StoredLsm
  import opened StoredInvariant
  import opened Reads

  // ---------------------------------------------------------------- steps of a run

  lemma ExecSnoc(conf: Config, max: nat, run: seq<StoredAction>, a: StoredAction)
    ensures StoredExec(conf, max, run + [a]) == StoredNext(conf, max, StoredExec(conf, max, run), a)
  {
    assert (run + [a])[..|run|] == run;
  }

  /** An action without an upload steps the machine on tables and leaves files and ids alone. */
  lemma PlainSnoc(conf: Config, max: nat, run: seq<StoredAction>, b: Action)
    requires !b.FlushWal? && !b.FlushMemtable? && !b.CompactorFinish?
    ensures var s, s' := StoredExec(conf, max, run), StoredExec(conf, max, run + [Plain(b)]);
            && s'.st.sys == Step(s.st.sys, b) && s'.disk == s.disk && s'.st.sys.ids == s.st.sys.ids
            && s'.st.history == StepHistory(s.st.history, b, s.st.sys.writer.Some?)
  {
    hide Step, StoredExec;
    ExecSnoc(conf, max, run, Plain(b));
    PlainKeepsIds(StoredExec(conf, max, run).st.sys, b);
  }

  lemma PlainKeepsIds(s: System, b: Action)
    requires !b.FlushMemtable? && !b.CompactorFinish?
    ensures Step(s, b).ids == s.ids
  {
    hide Recover, Schedule, M.Fence, M.RefreshClient, M.UpdateDbState;
  }

  // ---------------------------------------------------------------- tables and files

  /** The KV table with these rows. */
  method TableWith(rows: Table) returns (t: KvTable)
    ensures fresh(t) && t.Valid() && t.Rows() == rows
  {
    hide KvTable.Valid, KvTable.Rows;
    t := new KvTable();
    var todo := rows.Keys;
    while todo != {}
      invariant fresh(t) && t.Valid() && todo <= rows.Keys
      invariant t.Rows() == map k | k in rows && k !in todo :: rows[k]
      decreases |todo|
    {
      var k :| k in todo;
      t.PutValue(k, rows[k]);
      todo := todo - {k};
    }
  }

  /** The ids of the stored WALs above `lo`, ascending. */
  method ListWals(wals: Files, lo: nat) returns (ids: seq<nat>)
    ensures ids == IdsBetween(wals, lo, if wals == map[] then 0 else MaxKey(wals))
  {
    if wals == map[] {
      return [];
    }
    MaxKeyExists(wals);
    var hi: nat :| hi in wals.Keys && forall j :: j in wals.Keys ==> j <= hi;
    assert hi == MaxKey(wals);
    return IdsBetween(wals, lo, hi);
  }

  lemma {:induction false} SameIds(files: Files, wals: map<nat, Table>, lo: nat, hi: nat)
    requires files.Keys == wals.Keys
    ensures IdsBetween(files, lo, hi) == IdsBetween(wals, lo, hi)
  {
    if hi > lo {
      SameIds(files, wals, lo, hi - 1);
    }
  }

  lemma SameMax(files: Files, wals: map<nat, Table>)
    requires files.Keys == wals.Keys && files != map[]
    ensures wals != map[] && MaxKey(files) == MaxKey(wals)
  {
    assert IsMaxKey(files, MaxKey(files)) && IsMaxKey(wals, MaxKey(wals));
  }

  /** Open the listed WALs and read their rows. */
  method ReadWals(conf: Config, wals: Files, ids: seq<nat>, ghost tables: map<nat, Table>)
    returns (stored: map<nat, Table>)
    requires WalsStored(conf, wals, tables)
    requires forall i :: 0 <= i < |ids| ==> ids[i] in tables && ids[i] in wals && |wals[ids[i]].file| < UINT32
    ensures forall i :: 0 <= i < |ids| ==> ids[i] in stored && stored[ids[i]] == tables[ids[i]]
  {
    hide Stores, Listing, TableOf, ReadInfo;
    stored := map[];
    for i := 0 to |ids|
      invariant forall j :: 0 <= j < i ==> ids[j] in stored && stored[ids[j]] == tables[ids[j]]
    {
      var t := wals[ids[i]];
      assert WalStored(conf, t, tables[ids[i]]);
      var info := ReadInfo(conf.formats, t.file);
      var rows := ReadAll(conf.formats, StoredSst(info.value, t.file), conf, Listing(tables[ids[i]]));
      stored := stored[ids[i] := TableOf(rows)];
    }
  }

  lemma {:induction false} ReplayAgrees(
    db: Db, ids: seq<nat>, a: map<nat, Table>, b: map<nat, Table>, full: Table -> bool)
    requires forall i :: 0 <= i < |ids| ==> ids[i] in a && ids[i] in b && a[ids[i]] == b[ids[i]]
    ensures db.Replay(ids, a, full) == db.Replay(ids, b, full)
  {
    if ids != [] {
      ReplayAgrees(db, ids[..|ids| - 1], a, b, full);
    }
  }

  /** Ids are handed out in ascending order. */
  ghost predicate Below(ids: set<nat>, next: nat) {
    forall id :: id in ids ==> id < next
  }

  lemma BelowNext(ids: set<nat>, next: nat)
    requires Below(ids, next)
    ensures next !in ids && Below(ids + {next}, next + 1)
  {}

  // ---------------------------------------------------------------- the objects

  class Database {
    const conf: Config
    const maxSstSize: nat
    const manifests: M.ManifestStore
    var wals: Files
    var ssts: Files
    var nextId: nat
    var db: DbState?
    var writerClient: M.FenceableManifest?
    var state: CompactorState?
    var compactorClient: M.FenceableManifest?
    var jobs: map<nat, Job>
    ghost var run: seq<StoredAction>

    ghost function Reached(): StoredState
      reads this`run
    {
      StoredExec(conf, maxSstSize, run)
    }

    ghost predicate Objects()
      reads this, writerClient, compactorClient
    {
      && (db == null <==> writerClient == null) && (state == null <==> compactorClient == null)
      && (writerClient != null ==> writerClient.store == manifests && writerClient.kind == M.WriterKind)
      && (compactorClient != null ==> compactorClient.store == manifests && compactorClient.kind == M.CompactorKind)
    }

    ghost function Writer(): Option<WriterProcess>
      reads this, db, writerClient
    {
      if db == null || writerClient == null then None else Some(WriterProcess(db.Value(), writerClient.Value()))
    }

    ghost function Compacting(): Option<CompactorProcess>
      reads this, state, compactorClient
    {
      if state == null || compactorClient == null then None
      else Some(CompactorProcess(state.Value(), compactorClient.Value(), jobs))
    }

    /** The objects are in the state that the run reaches. */
    ghost predicate Valid()
      reads this, manifests, db, writerClient, state, compactorClient
    {
      && Objects()
      && var s := Reached();
         && manifests.files == s.st.sys.files && Disk(ssts, wals) == s.disk
         && Writer() == s.st.sys.writer && Compacting() == s.st.sys.compactor
         && Below(s.st.sys.ids, nextId)
    }

    constructor (conf: Config, maxSstSize: nat)
      ensures Valid() && run == [] && fresh(manifests) && this.conf == conf && this.maxSstSize == maxSstSize
    {
      this.conf, this.maxSstSize := conf, maxSstSize;
      manifests := new M.ManifestStore();
      wals, ssts, nextId, jobs, run := map[], map[], 0, map[], [];
      db, writerClient, state, compactorClient := null, null, null, null;
    }

    // -------------------------------------------------------------- the writer

    /** Create the first manifest version where there is none. */
    method Create()
      requires Valid()
      modifies this`run, manifests
      ensures Valid() && run == old(run) + [Plain(CreateDb)]
    {
      hide StoredExec, Below;
      PlainSnoc(conf, maxSstSize, run, CreateDb);
      var latest := manifests.ReadLatestManifest();
      if latest.None? {
        var _ := manifests.WriteManifest(1, M.Manifest(M.NewCore, 0, 0));
      }
      run := run + [Plain(CreateDb)];
    }

    method Put(key: bytes, data: bytes)
      requires Valid() && db != null && key != []
      modifies this`run, db
      ensures Valid() && run == old(run) + [Plain(WriteKey(key, Present(data)))]
    {
      hide StoredExec, Below;
      PlainSnoc(conf, maxSstSize, run, WriteKey(key, Present(data)));
      db.PutKvToWal(key, data);
      run := run + [Plain(WriteKey(key, Present(data)))];
    }

    method Delete(key: bytes)
      requires Valid() && db != null && key != []
      modifies this`run, db
      ensures Valid() && run == old(run) + [Plain(WriteKey(key, Tombstone))]
    {
      hide StoredExec, Below;
      PlainSnoc(conf, maxSstSize, run, WriteKey(key, Tombstone));
      db.DeleteKvFromWal(key);
      run := run + [Plain(WriteKey(key, Tombstone))];
    }

    method FreezeWal()
      requires Valid() && db != null
      modifies this`run, db
      ensures Valid() && run == old(run) + [Plain(Action.FreezeWal)]
    {
      hide StoredExec, Below;
      PlainSnoc(conf, maxSstSize, run, Action.FreezeWal);
      var _ := db.FreezeWal();
      run := run + [Plain(Action.FreezeWal)];
    }

    /** Freeze the memtable, unless no WAL has reached it. */
    method FreezeMemtable()
      requires Valid() && db != null
      modifies this`run, db
      ensures Valid() && run == old(run) + [Plain(Action.FreezeMemtable)]
    {
      hide StoredExec, Below;
      PlainSnoc(conf, maxSstSize, run, Action.FreezeMemtable);
      if db.memtable.lastWal.Some? {
        db.FreezeMemtable(db.memtable.lastWal.value);
      }
      run := run + [Plain(Action.FreezeMemtable)];
    }

    method CrashWriter()
      requires Valid()
      modifies this`run, this`db, this`writerClient
      ensures Valid() && run == old(run) + [Plain(Action.CrashWriter)] && db == null
    {
      hide StoredExec, Below;
      PlainSnoc(conf, maxSstSize, run, Action.CrashWriter);
      db, writerClient := null, null;
      run := run + [Plain(Action.CrashWriter)];
    }

    /** loadManifest of the memtable flusher. */
    method WriterLoad()
      requires Valid() && db != null
      modifies this`run, db, writerClient
      ensures Valid() && run == old(run) + [Plain(Action.WriterLoad)]
    {
      hide StoredExec, Below;
      PlainSnoc(conf, maxSstSize, run, Action.WriterLoad);
      if writerClient.live {
        var status := writerClient.Refresh();
        if status.Ok? {
          db.RefreshDbState(writerClient.manifest.core);
        }
      }
      run := run + [Plain(Action.WriterLoad)];
    }

    /** writeManifest of the memtable flusher. */
    method WriterWrite()
      requires Valid() && db != null
      modifies this`run, writerClient, manifests
      ensures Valid() && run == old(run) + [Plain(Action.WriterWrite)]
    {
      hide StoredExec, Below;
      PlainSnoc(conf, maxSstSize, run, Action.WriterWrite);
      if writerClient.live {
        var _ := writerClient.UpdateCore(db.core);
      }
      run := run + [Plain(Action.WriterWrite)];
    }

    /** Fence the rivals, then replay the stored WALs over the latest manifest. The writer is up exactly if
        the closing assertion of the replay holds. */
    method OpenWriter(full: Table -> bool)
      requires Valid() && Readable() && db == null
      requires forall id :: id in wals ==> |wals[id].file| < UINT32
      modifies this`run, this`db, this`writerClient, manifests
      ensures Valid() && run == old(run) + [Plain(Action.OpenWriter(full))]
      ensures db != null ==> fresh(db) && fresh(writerClient)
    {
      hide StoredExec, Below, Open, WalStored, ConfigOk, EntriesFit, DbState.Value, CompactorState.Value,
           M.FenceableManifest.Value;
      PlainSnoc(conf, maxSstSize, run, Action.OpenWriter(full));
      ghost var sys := Reached().st.sys;
      RunsAreStored(conf, maxSstSize, run);
      var latest := manifests.ReadLatestManifest();
      if latest.Some? {
        var newDb, client, ok := Reopen(latest.value.0, latest.value.1, full, sys);
        if ok {
          db, writerClient := newDb, client;
        }
      }
      run := run + [Plain(Action.OpenWriter(full))];
    }

    method Reopen(id: nat, latest: M.Manifest, full: Table -> bool, ghost sys: System)
      returns (newDb: DbState, client: M.FenceableManifest, ok: bool)
      requires manifests.files == sys.files && sys.files != map[] && id == MaxKey(sys.files) && latest == sys.files[id]
      requires WalsStored(conf, wals, sys.wals) && forall id :: id in wals ==> |wals[id].file| < UINT32
      modifies manifests
      ensures fresh(newDb) && fresh(client) && client.store == manifests && client.kind == M.WriterKind
      ensures manifests.files == Open(sys, full).files && Open(sys, full).compactor == sys.compactor
      ensures Open(sys, full).writer
              == if ok then Some(WriterProcess(newDb.Value(), client.Value())) else None
    {
      hide Open, Recover, M.Fence, WalStored, DbState.Value;
      client := new M.FenceableManifest(manifests, M.WriterKind, id, latest);
      var _ := client.Init();
      newDb, ok := ReplayWals(client.manifest.core, full, sys.wals);
      OpenIs(sys, full);
    }

    /** newDB and replayWAL, on the stored WALs. */
    method ReplayWals(core: M.Core, full: Table -> bool, ghost tables: map<nat, Table>)
      returns (newDb: DbState, ok: bool)
      requires WalsStored(conf, wals, tables)
      requires forall id :: id in wals ==> |wals[id].file| < UINT32
      ensures fresh(newDb) && (newDb.Value(), ok) == Recover(core, tables, full)
    {
      hide WalStored;
      newDb := new DbState(core);
      var ids := ListWals(wals, core.lastCompactedWal);
      if wals != map[] {
        SameMax(wals, tables);
      }
      SameIds(wals, tables, core.lastCompactedWal, if wals == map[] then 0 else MaxKey(wals));
      var stored := ReadWals(conf, wals, ids, tables);
      ReplayAgrees(NewDb(core), ids, stored, tables, full);
      ok := newDb.ReplayWal(ids, stored, full);
    }

    /** The durable writes fit the row format, and the library formats are lossless. */
    ghost predicate Readable()
      reads this`run
    {
      ConfigOk(conf) && EntriesFit(Reached().st.history.DurableWrites())
    }

    /** One round of flushImmWALs: upload the oldest frozen WAL, pop it and apply it. A filter that cannot
        be built kills the process. */
    method FlushWal(full: Table -> bool) returns (ghost a: StoredAction)
      requires Valid() && db != null && db.immWals != []
      modifies this`run, this`wals, this`db, this`writerClient, db
      ensures Valid() && run == old(run) + [a]
      ensures db == null <==> FilterFails(conf, Listing(Persist(old(db.immWals[|db.immWals| - 1].rows))))
      ensures a == Plain(Action.CrashWriter) || (a.UploadWal? && a.full == full)
      ensures db == null <==> a == Plain(Action.CrashWriter)
      ensures db != null ==> db == old(db) && writerClient == old(writerClient)
                             && db.immWals == old(db.immWals[..|db.immWals| - 1])
    {
      hide StoredExec, Below, FilterFails, Listing, Persist, KvTable.Valid, KvTable.Rows, Uploads,
           CompactorState.Value, M.FenceableManifest.Value;
      var oldest := db.immWals[|db.immWals| - 1];
      ghost var sys := Reached().st.sys;
      OldestWalKeys(conf, maxSstSize, run, full);
      var t := TableWith(oldest.rows);
      var r := FlushImmTable(conf, t);
      if r.Panic? {
        CrashWriter();
        return Plain(Action.CrashWriter);
      }
      var sst := StoredSst(r.value.1, r.value.0);
      a := UploadWal(full, sst);
      Uploaded(conf, sst, oldest.rows, r.value.2);
      WalSnoc(conf, maxSstSize, run, full, sst);
      wals := wals[oldest.id := sst];
      db.FlushOldestWal(full);
      run := run + [a];
    }

    /** flushImmWALs: flush every frozen WAL, oldest first, one action each. */
    method FlushImmWals(full: Table -> bool)
      requires Valid() && db != null
      modifies this`run, this`wals, this`db, this`writerClient, db
      ensures Valid() && old(run) <= run
      ensures db == null || (db == old(db) && db.immWals == [] && |run| == |old(run)| + |old(db.immWals)|)
      ensures db != null ==> forall i :: |old(run)| <= i < |run| ==> run[i].UploadWal? && run[i].full == full
    {
      hide StoredExec;
      while db != null && |db.immWals| > 0
        invariant Valid() && old(run) <= run
        invariant db != null ==> db == old(db) && |run| + |db.immWals| == |old(run)| + |old(db.immWals)|
        invariant db != null ==> forall i :: |old(run)| <= i < |run| ==> run[i].UploadWal? && run[i].full == full
        decreases if db == null then 0 else 1 + |db.immWals|
      {
        var _ := FlushWal(full);
      }
    }

    /** One round of flushImmMemtablesToL0: upload the oldest frozen memtable and list it in L0. */
    method FlushMemtable() returns (ghost a: StoredAction)
      requires Valid() && db != null && db.immMemtables != []
      modifies this`run, this`ssts, this`nextId, this`db, this`writerClient, db
      ensures Valid() && run == old(run) + [a]
      ensures db == null <==> FilterFails(conf, Listing(Persist(old(db.immMemtables[|db.immMemtables| - 1].rows))))
      ensures a == Plain(Action.CrashWriter) || (a.UploadMemtable? && a.id == old(nextId))
      ensures db == null <==> a == Plain(Action.CrashWriter)
    {
      hide StoredExec, Below, FilterFails, Listing, Persist, KvTable.Valid, KvTable.Rows, Uploads,
           CompactorState.Value, M.FenceableManifest.Value;
      var oldest := db.immMemtables[|db.immMemtables| - 1];
      ghost var sys := Reached().st.sys;
      OldestMemtableKeys(conf, maxSstSize, run);
      var t := TableWith(oldest.rows);
      var r := FlushImmTable(conf, t);
      if r.Panic? {
        CrashWriter();
        return Plain(Action.CrashWriter);
      }
      var sst := StoredSst(r.value.1, r.value.0);
      a := UploadMemtable(nextId, sst);
      Uploaded(conf, sst, oldest.rows, r.value.2);
      BelowNext(sys.ids, nextId);
      MemtableSnoc(conf, maxSstSize, run, nextId, sst);
      ssts := ssts[nextId := sst];
      db.MoveImmMemtableToL0(M.Sst(nextId, Persist(oldest.rows)));
      nextId := nextId + 1;
      run := run + [a];
    }

    // -------------------------------------------------------------- the compactor

    method StartCompactor()
      requires Valid() && state == null
      modifies this`run, this`state, this`compactorClient, this`jobs, manifests
      ensures Valid() && run == old(run) + [Plain(Action.StartCompactor)]
      ensures state != null ==> fresh(state) && fresh(compactorClient)
    {
      hide StoredExec, Below, DbState.Value, CompactorState.Value, M.FenceableManifest.Value, M.Fence, Step;
      PlainSnoc(conf, maxSstSize, run, Action.StartCompactor);
      StartIs(Reached().st.sys);
      var latest := manifests.ReadLatestManifest();
      if latest.Some? {
        state, compactorClient := FenceAndLoad(latest.value.0, latest.value.1);
        jobs := map[];
      }
      run := run + [Plain(Action.StartCompactor)];
    }

    /** Fence the rival compactors and take the core of the version stored by that. */
    method FenceAndLoad(id: nat, latest: M.Manifest) returns (state: CompactorState, client: M.FenceableManifest)
      modifies manifests
      ensures fresh(state) && fresh(client) && client.store == manifests && client.kind == M.CompactorKind
      ensures var r := M.Fence(old(manifests.files), M.Loaded(id, latest), M.CompactorKind);
              && manifests.files == r.files && client.Value() == r.client
              && state.Value() == Compactor(r.client.manifest.core, map[])
    {
      hide M.Fence;
      client := new M.FenceableManifest(manifests, M.CompactorKind, id, latest);
      var _ := client.Init();
      state := new CompactorState(client.manifest.core);
    }

    method CrashCompactor()
      requires Valid()
      modifies this`run, this`state, this`compactorClient
      ensures Valid() && run == old(run) + [Plain(Action.CrashCompactor)] && state == null
      ensures Reached().st.history == old(Reached().st.history)
    {
      hide StoredExec, Below;
      PlainSnoc(conf, maxSstSize, run, Action.CrashCompactor);
      state, compactorClient := null, null;
      run := run + [Plain(Action.CrashCompactor)];
    }

    /** loadManifest of the orchestrator, without the scheduling that follows it. */
    method CompactorLoad()
      requires Valid() && state != null
      modifies this`run, state, compactorClient
      ensures Valid() && run == old(run) + [Plain(Action.CompactorLoad)]
    {
      hide StoredExec, Below;
      PlainSnoc(conf, maxSstSize, run, Action.CompactorLoad);
      if compactorClient.live {
        var status := compactorClient.Refresh();
        if status.Ok? {
          state.RefreshDbState(compactorClient.manifest.core);
        }
      }
      run := run + [Plain(Action.CompactorLoad)];
    }

    method CompactorWrite()
      requires Valid() && state != null
      modifies this`run, compactorClient, manifests
      ensures Valid() && run == old(run) + [Plain(Action.CompactorWrite)]
    {
      hide StoredExec, Below;
      PlainSnoc(conf, maxSstSize, run, Action.CompactorWrite);
      if compactorClient.live {
        var _ := compactorClient.UpdateCore(state.core);
      }
      run := run + [Plain(Action.CompactorWrite)];
    }

    /** maybeScheduleCompactions: submit what the scheduler asks for and start the job. */
    method CompactorSchedule()
      requires Valid() && state != null
      modifies this`run, this`jobs, this`state, this`compactorClient, state
      ensures Valid() && run == old(run) + [Plain(Action.CompactorSchedule)]
    {
      hide StoredExec, Below, DbState.Value, CompactorState.Value, M.FenceableManifest.Value, Schedule;
      PlainSnoc(conf, maxSstSize, run, Action.CompactorSchedule);
      ScheduleWanted();
      run := run + [Plain(Action.CompactorSchedule)];
    }

    method ScheduleWanted()
      requires Objects() && Compacting().Some?
      modifies this`jobs, this`state, this`compactorClient, state
      ensures Objects() && Writer() == old(Writer()) && Compacting() == Schedule(old(Compacting().value))
    {
      hide Scheduled, Compactor.Accepts, Compactor.JobFor, DbState.Value, M.FenceableManifest.Value;
      var wanted := MaybeScheduleCompaction(state.core);
      if |wanted| > 0 {
        ghost var before := state.Value();
        var accepted := state.SubmitCompaction(wanted[0]);
        JobOfCore(before, state.Value(), wanted[0]);
        if accepted {
          var job := state.StartCompaction(wanted[0]);
          if job.Some? {
            jobs := jobs[wanted[0].destination := job.value];
          } else {
            state, compactorClient := null, null;
          }
        }
      }
    }

    /** A job's end: run the executor on the stored inputs, store what it delivers, and finish the
        compaction. A filter that cannot be built kills the process. */
    method CompactorFinish(d: nat) returns (ghost a: StoredAction)
      requires Valid() && Readable() && state != null && d in state.compactions
      modifies this`run, this`ssts, this`nextId, this`jobs, this`state, this`compactorClient, state
      ensures Valid() && Readable() && run == old(run) + [a]
      ensures d in old(jobs)
      ensures if SomeFilterFails(conf, Outputs(SstRows(old(jobs)[d].ssts), maxSstSize))
              then a == Plain(Action.CrashCompactor) && state == null
              else a.UploadRun? && a.d == d && (state == null <==> d >= MAX_UINT32)
    {
      hide StoredExec, Below, ConfigOk, EntriesFit, SomeFilterFails, Outputs, UploadsAll, FilesOf, Lists, Store,
           StoresEach, Compactor.Finish, Compactor.FinishAsserts, SstsOf, FreshIds, NewIdsFrom;
      ghost var sys := Reached().st.sys;
      JobReady(conf, maxSstSize, run, d);
      var r := RunJob(conf, maxSstSize, ssts, jobs[d].ssts, nextId);
      if r.Panic? {
        CrashCompactor();
        return Plain(Action.CrashCompactor);
      }
      var (ts, ids, listed) := r.value;
      a := UploadRun(d, ids, ts);
      FreshFrom(nextId, ids, Outputs(SstRows(jobs[d].ssts), maxSstSize), sys.ids);
      InstallRun(d, ts, ids, listed);
    }

    /** Store the outputs of a job under fresh ids and finish its compaction. */
    method InstallRun(d: nat, ts: seq<StoredSst>, ids: seq<nat>, listed: seq<M.Sst>)
      requires Valid() && Enabled(conf, maxSstSize, Reached().st.sys, UploadRun(d, ids, ts))
      requires |ids| == |ts| && listed == SstsOf(ids, JobOutputs(Reached().st.sys, d, maxSstSize))
      requires Below(Reached().st.sys.ids + (set t | t in listed :: t.id), nextId + |ts|)
      modifies this`run, this`ssts, this`nextId, this`jobs, this`state, this`compactorClient, state
      ensures Valid() && run == old(run) + [UploadRun(d, ids, ts)]
      ensures Reached().st.history == old(Reached().st.history)
      ensures state == null
              <==> !old(Reached().st.sys.compactor.value.state.FinishAsserts(M.Run(d, listed)))
    {
      hide StoredExec, Below, JobOutputs, UploadsAll, Store, Compactor.Finish, Compactor.FinishAsserts, SstsOf,
           FreshIds, Enabled, DbState.Value, M.FenceableManifest.Value;
      RunSnoc(conf, maxSstSize, run, d, ids, ts, listed);
      RunWritesNothing(conf, maxSstSize, run, UploadRun(d, ids, ts));
      ssts := StoreAll(ssts, ids, ts);
      FinishJob(d, M.Run(d, listed));
      nextId := nextId + |ts|;
      run := run + [UploadRun(d, ids, ts)];
    }

    /** Finish a compaction; a failed assertion kills the process. */
    method FinishJob(d: nat, out: M.Run)
      requires Objects() && Compacting().Some? && out.id == d && d in Compacting().value.state.compactions
      modifies this`jobs, this`state, this`compactorClient, state
      ensures Objects() && Writer() == old(Writer())
      ensures var c := old(Compacting().value);
              Compacting() == if c.state.FinishAsserts(out)
                              then Some(c.(state := c.state.Finish(out), jobs := c.jobs - {d})) else None
    {
      hide Compactor.Finish, Compactor.FinishAsserts, DbState.Value, M.FenceableManifest.Value;
      var ok := state.FinishCompaction(out);
      jobs := jobs - {d};
      if !ok {
        state, compactorClient := null, null;
      }
    }

    // -------------------------------------------------------------- reads

    /** GetWithOptions: whatever has been called, the answer is the latest write to the key as it is kept,
        and it is that write exactly if that is no empty value from an SST. */
    method Get(key: bytes, uncommitted: bool) returns (r: Answer)
      requires Valid() && Readable() && db != null
      ensures var h := Reached().st.history; var k := InSsts(db.Value(), h);
              && k <= |h.flushed|
              && var n := |Concat(h.flushed[..k])|; var ws := if uncommitted then h.Writes() else h.DurableWrites();
              && Answers(r, ws, n, key)
              && (r == LatestAnswer(ws, key) <==> !EmptyInSst(ws, n, key))
    {
      hide StoredExec, Answers, LatestAnswer, EmptyInSst, InSsts, Concat, ConfigOk, EntriesFit;
      r := GetInRun(conf, maxSstSize, run, Db(db.wal, db.immWals, db.memtable, db.immMemtables, db.core), ssts,
                    key, uncommitted);
    }
  }

  // ---------------------------------------------------------------- what the methods use

  /** A job in flight: its inputs are stored, and there is at least one. */
  lemma JobReady(conf: Config, max: nat, run: seq<StoredAction>, d: nat)
    requires ConfigOk(conf) && EntriesFit(StoredExec(conf, max, run).st.history.DurableWrites())
    requires var s := StoredExec(conf, max, run).st.sys;
             s.compactor.Some? && d in s.compactor.value.state.compactions
    ensures var s := StoredExec(conf, max, run); var c := s.st.sys.compactor.value;
            && d in c.jobs && c.jobs[d].ssts != [] && c.jobs[d].runs == []
            && (forall i :: 0 <= i < |c.jobs[d].ssts| ==> c.jobs[d].ssts[i].id in s.disk.ssts)
            && StoresEach(conf, FilesOf(s.disk.ssts, c.jobs[d].ssts), Lists(c.jobs[d].ssts))
            && forall ssts :: c.state.FinishAsserts(M.Run(d, ssts)) <==> d < MAX_UINT32
  {
    hide StoredExec, Exec, Stores, Listing, SystemStored, EntriesFit, ConfigOk, WalsStored, Compactor.FinishAsserts,
         Compactor.Finished, Descending, NextRunId, L0Sources;
    RunsAreStored(conf, max, run);
    JobStored(conf, max, run, d);
    RunsOnTables(conf, max, run);
    SchedulerInvariant(Abstract(conf, max, run));
    var s := StoredExec(conf, max, run);
    var c := s.st.sys.compactor.value;
    forall i | 0 <= i < |c.jobs[d].ssts|
      ensures c.jobs[d].ssts[i].id in s.disk.ssts
      ensures Stores(conf, s.disk.ssts[c.jobs[d].ssts[i].id], Listing(c.jobs[d].ssts[i].rows))
    {
      assert SstStored(conf, s.disk.ssts, c.jobs[d].ssts[i]);
    }
    forall ssts ensures c.state.FinishAsserts(M.Run(d, ssts)) <==> d < MAX_UINT32 {
      FinishTakesTheSources(Abstract(conf, max, run), d, ssts);
    }
  }

  /** Run the executor on stored L0 SSTs: the files it delivers, their ids and their handles. */
  method RunJob(conf: Config, max: nat, files: Files, ssts: seq<M.Sst>, first: nat)
    returns (r: Decoded<(seq<StoredSst>, seq<nat>, seq<M.Sst>)>)
    requires ConfigOk(conf) && ssts != [] && forall i :: 0 <= i < |ssts| ==> ssts[i].id in files
    requires StoresEach(conf, FilesOf(files, ssts), Lists(ssts))
    ensures var outs := Outputs(SstRows(ssts), max);
            && (r == Panic <==> SomeFilterFails(conf, outs)) && (r.Ok? <==> !SomeFilterFails(conf, outs))
            && (r.Ok? ==>
                  && UploadsAll(conf, r.value.0, outs) && |r.value.0| == |outs|
                  && r.value.1 == NewIdsFrom(first, |outs|) && |r.value.1| == |outs|
                  && r.value.2 == SstsOf(r.value.1, outs))
  {
    hide ConfigOk, SomeFilterFails, Outputs, UploadsAll, Stores, StoresRun, Lists, SstsOf;
    var written := ExecuteCompaction(conf, max, FilesOf(files, ssts), [], Lists(ssts), []);
    InputTables(ssts);
    if written.Panic? {
      return Panic;
    }
    UploadsLen(conf, written.value, Outputs(SstRows(ssts), max));
    var ids := NewIdsFrom(first, |written.value|);
    var listed := ListOutputs(conf, written.value, ids, Outputs(SstRows(ssts), max));
    return Ok((written.value, ids, listed));
  }

  lemma InputTables(ssts: seq<M.Sst>)
    ensures TablesOf(Lists(ssts)) + RunTables([]) == SstRows(ssts)
  {
    hide Listing, TableOf;
  }

  function NewIdsFrom(first: nat, n: nat): seq<nat> {
    seq(n, i requires 0 <= i < n => first + i)
  }

  lemma FreshFrom(first: nat, ids: seq<nat>, outs: seq<seq<Entry>>, used: set<nat>)
    requires ids == NewIdsFrom(first, |outs|) && Below(used, first)
    ensures FreshIds(SstsOf(ids, outs), used)
    ensures Below(used + (set t | t in SstsOf(ids, outs) :: t.id), first + |outs|)
  {
    hide TableOf;
    var ssts := SstsOf(ids, outs);
    forall t | t in ssts ensures t.id < first + |outs| {
      var i :| 0 <= i < |ssts| && ssts[i] == t;
    }
  }

  /** The handles of the outputs. */
  method ListOutputs(conf: Config, ts: seq<StoredSst>, ids: seq<nat>, ghost outs: seq<seq<Entry>>)
    returns (listed: seq<M.Sst>)
    requires |ids| == |ts| == |outs| && StoresRun(conf, ts, outs)
    ensures listed == SstsOf(ids, outs)
  {
    hide Stores, Concat, Sorted, TableOf;
    listed := [];
    for i := 0 to |ids|
      invariant |listed| == i && forall j :: 0 <= j < i ==> listed[j] == M.Sst(ids[j], TableOf(outs[j]))
    {
      var rows := ReadAll(conf.formats, ts[i], conf, outs[i]);
      listed := listed + [M.Sst(ids[i], TableOf(rows))];
    }
  }

  method StoreAll(files: Files, ids: seq<nat>, ts: seq<StoredSst>) returns (files': Files)
    requires |ids| == |ts|
    ensures files' == Store(files, ids, ts)
  {
    files' := files;
    for i := 0 to |ids|
      invariant files' == Store(files, ids[..i], ts[..i])
    {
      assert ids[..i + 1][..i] == ids[..i] && ts[..i + 1][..i] == ts[..i];
      files' := files'[ids[i] := ts[i]];
    }
    assert ids[..|ids|] == ids && ts[..|ids|] == ts;
  }

  lemma RunSnoc(conf: Config, max: nat, run: seq<StoredAction>, d: nat, ids: seq<nat>, ts: seq<StoredSst>,
                listed: seq<M.Sst>)
    requires Enabled(conf, max, StoredExec(conf, max, run).st.sys, UploadRun(d, ids, ts))
    requires listed == SstsOf(ids, JobOutputs(StoredExec(conf, max, run).st.sys, d, max))
    ensures |ids| == |ts| && StoredExec(conf, max, run).st.sys.compactor.Some?
    ensures var s, s' := StoredExec(conf, max, run), StoredExec(conf, max, run + [UploadRun(d, ids, ts)]);
            var c := s.st.sys.compactor.value; var out := M.Run(d, listed);
            && s'.st.sys.files == s.st.sys.files && s'.st.sys.writer == s.st.sys.writer
            && s'.st.sys.ids == s.st.sys.ids + (set t | t in listed :: t.id)
            && s'.st.sys.compactor
               == (if c.state.FinishAsserts(out)
                   then Some(c.(state := c.state.Finish(out), jobs := c.jobs - {d})) else None)
            && s'.disk == Disk(Store(s.disk.ssts, ids, ts), s.disk.wals)
            && d in c.state.compactions
  {
    hide StoredExec, Step, SstsOf, JobOutputs, FreshIds, UploadsAll, Store, Compactor.Finish, Compactor.FinishAsserts;
    RunAccepted(conf, max, StoredExec(conf, max, run).st.sys, d, ids, ts);
    ExecSnoc(conf, max, run, UploadRun(d, ids, ts));
  }

  lemma RunWritesNothing(conf: Config, max: nat, run: seq<StoredAction>, a: StoredAction)
    requires a.UploadRun?
    ensures StoredExec(conf, max, run + [a]).st.history == StoredExec(conf, max, run).st.history
  {
    hide StoredExec, Enabled, Step, SstsOf, JobOutputs;
    ExecSnoc(conf, max, run, a);
  }

  lemma JobOfCore(a: Compactor, b: Compactor, c: Compaction)
    requires a.core == b.core
    ensures a.JobFor(c) == b.JobFor(c)
  {}

  lemma StartIs(s: System)
    requires s.compactor.None?
    ensures Step(s, StartCompactor)
         == if s.files == map[] then s
            else
              var r := M.Fence(s.files, M.Loaded(MaxKey(s.files), s.files[MaxKey(s.files)]), M.CompactorKind);
              s.(files := r.files,
                 compactor := Some(CompactorProcess(Compactor(r.client.manifest.core, map[]), r.client, map[])))
  {
    hide M.Fence;
  }

  lemma OpenIs(s: System, full: Table -> bool)
    requires s.files != map[]
    ensures var r := M.Fence(s.files, M.Loaded(MaxKey(s.files), s.files[MaxKey(s.files)]), M.WriterKind);
            var (db, ok) := Recover(r.client.manifest.core, s.wals, full);
            && Open(s, full).files == r.files && Open(s, full).compactor == s.compactor
            && Open(s, full).writer == if ok then Some(WriterProcess(db, r.client)) else None
  {
    hide Recover, M.Fence;
  }

  lemma Uploaded(conf: Config, t: StoredSst, rows: Table, filter: Option<Filter>)
    requires Uploads(conf, Listing(Persist(rows)), t.file, t.info, filter)
    ensures UploadOfTable(conf, t, rows)
  {}

  lemma OldestWalKeys(conf: Config, max: nat, run: seq<StoredAction>, full: Table -> bool)
    requires var s := StoredExec(conf, max, run).st.sys; s.writer.Some? && s.writer.value.db.immWals != []
    ensures forall k :: k in StoredExec(conf, max, run).st.sys.writer.value.db.OldestWal().rows ==> k != []
  {
    hide StoredExec, Exec, TableOf, HaveKeys, Next;
    RunsOnTables(conf, max, run);
    var onTables := Abstract(conf, max, run);
    OldestWalRows(onTables, full);
    WritesHaveKeys(onTables);
    KeysOfTable(Exec(onTables).history.frozen[0], Exec(onTables).history.Writes());
  }

  lemma OldestMemtableKeys(conf: Config, max: nat, run: seq<StoredAction>)
    requires var s := StoredExec(conf, max, run).st.sys; s.writer.Some? && s.writer.value.db.immMemtables != []
    ensures forall k :: k in StoredExec(conf, max, run).st.sys.writer.value.db.OldestMemtable().rows ==> k != []
  {
    hide StoredExec, Exec, TableOf, HaveKeys, Concat;
    RunsOnTables(conf, max, run);
    var onTables := Abstract(conf, max, run);
    var es := OldestMemtableRows(onTables);
    WritesHaveKeys(onTables);
    KeysOfTable(es, Exec(onTables).history.Writes());
    assert forall k :: k in Exec(onTables).sys.writer.value.db.OldestMemtable().rows ==> k in Persist(TableOf(es));
  }

  lemma WalSnoc(conf: Config, max: nat, run: seq<StoredAction>, full: Table -> bool, t: StoredSst)
    requires Enabled(conf, max, StoredExec(conf, max, run).st.sys, UploadWal(full, t))
    ensures var s, s' := StoredExec(conf, max, run), StoredExec(conf, max, run + [UploadWal(full, t)]);
            var w := s.st.sys.writer.value;
            && s'.st.sys.files == s.st.sys.files && s'.st.sys.ids == s.st.sys.ids
            && s'.st.sys.compactor == s.st.sys.compactor
            && s'.st.sys.writer == Some(w.(db := w.db.FlushOldestWal(full)))
            && s'.disk == Disk(s.disk.ssts, s.disk.wals[w.db.OldestWal().id := t])
  {
    hide StoredExec, UploadOfTable, Persist, Db.FlushOldestWal;
    ExecSnoc(conf, max, run, UploadWal(full, t));
  }

  lemma MemtableSnoc(conf: Config, max: nat, run: seq<StoredAction>, id: nat, t: StoredSst)
    requires Enabled(conf, max, StoredExec(conf, max, run).st.sys, UploadMemtable(id, t))
    ensures var s, s' := StoredExec(conf, max, run), StoredExec(conf, max, run + [UploadMemtable(id, t)]);
            var w := s.st.sys.writer.value;
            && s'.st.sys.files == s.st.sys.files && s'.st.sys.ids == s.st.sys.ids + {id}
            && s'.st.sys.compactor == s.st.sys.compactor
            && s'.st.sys.writer
               == Some(w.(db := w.db.MoveToL0(M.Sst(id, Persist(w.db.OldestMemtable().rows)))))
            && s'.disk == Disk(s.disk.ssts[id := t], s.disk.wals)
  {
    hide StoredExec, UploadOfTable, Persist, Db.MoveToL0;
    ExecSnoc(conf, max, run, UploadMemtable(id, t));
  }
}
