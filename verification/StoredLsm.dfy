/** The database machine with its files: every SST and every WAL is a stored file, written by the flush
    of a table or by a compaction. Its runs are runs of the machine on tables, and in every run the
    files found by id hold the tables.
 */
module StoredLsm {
  import opened Tables
  import opened Keys
  import opened Rows
  import opened Formats
  import opened Blocks
  import opened SstFormat
  import opened SstIterators
  import opened SortedRuns
  import opened Executors
  import M = Manifests
  import opened WriterState
  import opened CompactorStates
  import opened Lsm
  import opened LsmGuarantees

  type Files = map<nat, StoredSst>

  /** Stored SSTs by id, and stored WALs by id. */
  datatype Disk = Disk(ssts: Files, wals: Files)

  datatype StoredState = StoredState(st: State, disk: Disk)

  /** An action with the files that it uploads. The run's SSTs get the ids in order. */
  datatype StoredAction =
    | Plain(a: Action)
    | UploadWal(full: Table -> bool, t: StoredSst)
    | UploadMemtable(id: nat, t: StoredSst)
    | UploadRun(d: nat, ids: seq<nat>, ts: seq<StoredSst>)

  // ---------------------------------------------------------------- the steps

  /** The upload of a table, as flushImmTable delivers it. */
  ghost predicate UploadOfTable(conf: Config, t: StoredSst, rows: Table) {
    UploadOf(conf, t, Listing(Persist(rows)))
  }

  ghost function SstsOf(ids: seq<nat>, outs: seq<seq<Entry>>): seq<M.Sst>
    requires |ids| == |outs|
  {
    seq(|ids|, i requires 0 <= i < |ids| => M.Sst(ids[i], TableOf(outs[i])))
  }

  ghost function Store(files: Files, ids: seq<nat>, ts: seq<StoredSst>): Files
    requires |ids| == |ts|
  {
    if ids == [] then files else Store(files, ids[..|ids| - 1], ts[..|ids| - 1])[ids[|ids| - 1] := ts[|ids| - 1]]
  }

  ghost function JobOutputs(sys: System, d: nat, max: nat): seq<seq<Entry>>
    requires sys.compactor.Some? && d in sys.compactor.value.jobs
  {
    Outputs(SstRows(sys.compactor.value.jobs[d].ssts), max)
  }

  ghost predicate Enabled(conf: Config, max: nat, sys: System, a: StoredAction) {
    match a
    case Plain(b) => !b.FlushWal? && !b.FlushMemtable? && !b.CompactorFinish?
    case UploadWal(_, t) =>
      && sys.writer.Some? && sys.writer.value.db.immWals != []
      && UploadOfTable(conf, t, sys.writer.value.db.OldestWal().rows)
    case UploadMemtable(id, t) =>
      && sys.writer.Some? && sys.writer.value.db.immMemtables != [] && id !in sys.ids
      && UploadOfTable(conf, t, sys.writer.value.db.OldestMemtable().rows)
    case UploadRun(d, ids, ts) =>
      && sys.compactor.Some? && d in sys.compactor.value.jobs && sys.compactor.value.jobs[d].runs == []
      && d in sys.compactor.value.state.compactions
      && var outs := JobOutputs(sys, d, max);
         && |ids| == |outs| && FreshIds(SstsOf(ids, outs), sys.ids) && UploadsAll(conf, ts, outs)
  }

  /** What an action is on tables. */
  ghost function OnTables(conf: Config, max: nat, sys: System, a: StoredAction): Action
    requires Enabled(conf, max, sys, a)
  {
    match a
    case Plain(b) => b
    case UploadWal(full, _) => FlushWal(full)
    case UploadMemtable(id, _) => FlushMemtable(id)
    case UploadRun(d, ids, _) => CompactorFinish(d, SstsOf(ids, JobOutputs(sys, d, max)))
  }

  ghost function StepDisk(conf: Config, max: nat, sys: System, disk: Disk, a: StoredAction): Disk
    requires Enabled(conf, max, sys, a)
  {
    match a
    case Plain(_) => disk
    case UploadWal(_, t) => disk.(wals := disk.wals[sys.writer.value.db.OldestWal().id := t])
    case UploadMemtable(id, t) => disk.(ssts := disk.ssts[id := t])
    case UploadRun(_, ids, ts) => disk.(ssts := Store(disk.ssts, ids, ts))
  }

  ghost function StoredNext(conf: Config, max: nat, s: StoredState, a: StoredAction): StoredState {
    if !Enabled(conf, max, s.st.sys, a) then s
    else StoredState(Next(s.st, OnTables(conf, max, s.st.sys, a)), StepDisk(conf, max, s.st.sys, s.disk, a))
  }

  ghost function StoredExec(conf: Config, max: nat, run: seq<StoredAction>): StoredState {
    if run == [] then StoredState(State(EmptySystem, NoHistory), Disk(map[], map[]))
    else StoredNext(conf, max, StoredExec(conf, max, run[..|run| - 1]), run[|run| - 1])
  }

  // ---------------------------------------------------------------- runs on tables

  /** The actions on tables of a run with files. */
  ghost function Abstract(conf: Config, max: nat, run: seq<StoredAction>): seq<Action> {
    if run == [] then []
    else
      var n := |run| - 1;
      var sys := StoredExec(conf, max, run[..n]).st.sys;
      Abstract(conf, max, run[..n]) + if Enabled(conf, max, sys, run[n]) then [OnTables(conf, max, sys, run[n])] else []
  }

  /** A run with files is a run on tables. */
  lemma {:induction false} RunsOnTables(conf: Config, max: nat, run: seq<StoredAction>)
    ensures StoredExec(conf, max, run).st == Exec(Abstract(conf, max, run))
  {
    hide Enabled, OnTables, StepDisk, Next;
    if run != [] {
      var n := |run| - 1;
      RunsOnTables(conf, max, run[..n]);
      var sys := StoredExec(conf, max, run[..n]).st.sys;
      if Enabled(conf, max, sys, run[n]) {
        ExecNext(Abstract(conf, max, run[..n]), OnTables(conf, max, sys, run[n]));
      } else {
        assert Abstract(conf, max, run[..n]) + [] == Abstract(conf, max, run[..n]);
      }
    }
  }
}
