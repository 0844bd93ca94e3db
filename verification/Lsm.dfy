/** The database as a state machine: one writer process, one compactor process, the manifest
    versions and the WAL objects, with crashes and restarts of either process at any point.

    Each action is one critical section, one flush iteration or one object-store request. A run is
    any sequence of actions; an action that is not possible leaves the state as it is. Beside the
    system runs its specification: the list of the writes themselves.
 */
module Lsm {
  import opened Tables
  import opened Manifests
  import opened WriterState
  import opened CompactorStates

  datatype WriterProcess = WriterProcess(db: Db, client: Client)

  datatype CompactorProcess = CompactorProcess(state: Compactor, client: Client, jobs: map<nat, Job>)

  /** `ids` are the SST ids handed out so far. */
  datatype System = System(
    files: Files,
    wals: map<nat, Table>,
    ids: set<nat>,
    writer: Option<WriterProcess>,
    compactor: Option<CompactorProcess>)

  const EmptySystem := System(map[], map[], {}, None, None)

  datatype Action =
    | CreateDb
    | OpenWriter(full: Table -> bool)
    | CrashWriter
    | WriteKey(key: bytes, value: Value)
    | FreezeWal
    | FlushWal(full: Table -> bool)
    | FreezeMemtable
    | FlushMemtable(sstId: nat)
    | WriterLoad
    | WriterWrite
    | StartCompactor
    | CrashCompactor
    | CompactorLoad
    | CompactorSchedule
    | CompactorFinish(destination: nat, ssts: seq<Sst>)
    | CompactorWrite

  // ---------------------------------------------------------------- the writer

  /** The state rebuilt from a manifest and the stored WALs, and the outcome of the assertion that
      closes the replay. */
  ghost function Recover(core: Core, wals: map<nat, Table>, full: Table -> bool): (Db, bool) {
    var start := NewDb(core);
    var ids := IdsBetween(wals, core.lastCompactedWal, if wals == map[] then 0 else MaxKey(wals));
    var db := start.Replay(ids, wals, full);
    (db, start.LastReplayed(ids) + 1 == db.core.nextWal)
  }

  /** Fence, then replay. The raised epoch is stored even when the replay's assertion fails. */
  ghost function Open(s: System, full: Table -> bool): System
    requires s.files != map[]
  {
    var r := Fence(s.files, Loaded(MaxKey(s.files), s.files[MaxKey(s.files)]), WriterKind);
    var (db, ok) := Recover(r.client.manifest.core, s.wals, full);
    s.(files := r.files, writer := if ok then Some(WriterProcess(db, r.client)) else None)
  }

  ghost function StepWriter(s: System, a: Action): System
    requires s.writer.Some?
  {
    var w := s.writer.value;
    match a
    case CrashWriter => s.(writer := None)
    case WriteKey(key, value) =>
      if key == [] then s else s.(writer := Some(w.(db := w.db.Write(key, value))))
    case FreezeWal => s.(writer := Some(w.(db := w.db.FreezeWal())))
    case FlushWal(full) =>
      if w.db.immWals == [] then s
      else s.(wals := s.wals[w.db.OldestWal().id := Persist(w.db.OldestWal().rows)],
              writer := Some(w.(db := w.db.FlushOldestWal(full))))
    case FreezeMemtable =>
      if w.db.memtable.lastWal.None? then s
      else s.(writer := Some(w.(db := w.db.FreezeMemtable(w.db.memtable.lastWal.value))))
    case FlushMemtable(id) =>
      if w.db.immMemtables == [] || id in s.ids then s
      else s.(ids := s.ids + {id},
              writer := Some(w.(db := w.db.MoveToL0(Sst(id, Persist(w.db.OldestMemtable().rows))))))
    case WriterLoad =>
      if !w.client.Live? then s
      else
        var r := RefreshClient(s.files, w.client);
        s.(writer := Some(WriterProcess(
                            if r.status == Ok then w.db.Refresh(r.client.manifest.core) else w.db, r.client)))
    case WriterWrite =>
      if !w.client.Live? then s
      else
        var r := UpdateDbState(s.files, w.client, w.db.core);
        s.(files := r.files, writer := Some(w.(client := r.client)))
    case _ => s
  }

  // ---------------------------------------------------------------- the compactor

  /** What the executor delivers for a job whose inputs are `inputs`, newest first. */
  ghost predicate Compacts(inputs: seq<Table>, outputs: seq<Table>) {
    Layers(outputs) == Persist(Layers(inputs))
  }

  ghost predicate FreshIds(ssts: seq<Sst>, ids: set<nat>) {
    && (forall i :: 0 <= i < |ssts| ==> ssts[i].id !in ids)
    && (forall i, j :: 0 <= i < j < |ssts| ==> ssts[i].id != ssts[j].id)
  }

  /** Submit what the scheduler asks for and start the job. */
  ghost function Schedule(c: CompactorProcess): Option<CompactorProcess> {
    var wanted := Scheduled(c.state.core);
    if wanted == [] || !c.state.Accepts(wanted[0]) then Some(c)
    else
      var job := c.state.JobFor(wanted[0]);
      if job.None? then None
      else Some(c.(state := c.state.Submit(wanted[0]), jobs := c.jobs[wanted[0].destination := job.value]))
  }

  ghost function StepCompactor(s: System, a: Action): System
    requires s.compactor.Some?
  {
    var c := s.compactor.value;
    match a
    case CrashCompactor => s.(compactor := None)
    case CompactorLoad =>
      if !c.client.Live? then s
      else
        var r := RefreshClient(s.files, c.client);
        s.(compactor := Some(c.(state := if r.status == Ok then c.state.Refresh(r.client.manifest.core) else c.state,
                                client := r.client)))
    case CompactorSchedule => s.(compactor := Schedule(c))
    case CompactorFinish(d, ssts) =>
      if d in c.jobs && c.jobs[d].runs == [] && d in c.state.compactions && FreshIds(ssts, s.ids)
         && Compacts(SstRows(c.jobs[d].ssts), SstRows(ssts))
      then
        s.(ids := s.ids + (set t | t in ssts :: t.id),
           compactor := if c.state.FinishAsserts(Run(d, ssts))
                        then Some(c.(state := c.state.Finish(Run(d, ssts)), jobs := c.jobs - {d}))
                        else None)
      else s
    case CompactorWrite =>
      if !c.client.Live? then s
      else
        var r := UpdateDbState(s.files, c.client, c.state.core);
        s.(files := r.files, compactor := Some(c.(client := r.client)))
    case _ => s
  }

  ghost predicate IsCompactorAction(a: Action) {
    a.CrashCompactor? || a.CompactorLoad? || a.CompactorSchedule? || a.CompactorFinish? || a.CompactorWrite?
  }

  ghost function Step(s: System, a: Action): System {
    match a
    case CreateDb => if s.files == map[] then s.(files := map[1 := Manifest(NewCore, 0, 0)]) else s
    case OpenWriter(full) => if s.files != map[] && s.writer.None? then Open(s, full) else s
    case StartCompactor =>
      if s.files != map[] && s.compactor.None?
      then
        var r := Fence(s.files, Loaded(MaxKey(s.files), s.files[MaxKey(s.files)]), CompactorKind);
        s.(files := r.files,
           compactor := Some(CompactorProcess(Compactor(r.client.manifest.core, map[]), r.client, map[])))
      else s
    case _ =>
      if IsCompactorAction(a)
      then if s.compactor.Some? then StepCompactor(s, a) else s
      else if s.writer.Some? then StepWriter(s, a) else s
  }

  // ---------------------------------------------------------------- the specification

  /** The writes, in order: grouped by uploaded WAL, grouped by frozen WAL, and not yet frozen.
      `recovered` is the number of WALs that were uploaded when the database was last opened. */
  datatype History = History(
    flushed: seq<seq<Entry>>, frozen: seq<seq<Entry>>, open: seq<Entry>, recovered: nat) {

    /** Every write that a reader may still see, in order. */
    ghost function Writes(): seq<Entry> {
      Concat(flushed) + Concat(frozen) + open
    }

    /** The writes of uploaded WALs, in order. */
    ghost function DurableWrites(): seq<Entry> {
      Concat(flushed)
    }
  }

  const NoHistory := History([], [], [], 0)

  /** A write is appended; a freeze closes a group; a flush makes the oldest group durable; a crash
      loses what is not durable; opening notes how much is recovered. Nothing else changes the writes. */
  ghost function StepHistory(h: History, a: Action, up: bool): History {
    if !up then (if a.OpenWriter? then h.(recovered := |h.flushed|) else h) else
    match a
    case WriteKey(key, value) => if key == [] then h else h.(open := h.open + [Entry(key, value)])
    case FreezeWal => if h.open == [] then h else h.(frozen := h.frozen + [h.open], open := [])
    case FlushWal(_) =>
      if h.frozen == [] then h else h.(flushed := h.flushed + [h.frozen[0]], frozen := h.frozen[1..])
    case CrashWriter => h.(frozen := [], open := [])
    case _ => h
  }

  datatype State = State(sys: System, history: History)

  ghost function Next(st: State, a: Action): State {
    State(Step(st.sys, a), StepHistory(st.history, a, st.sys.writer.Some?))
  }

  ghost function Exec(run: seq<Action>): State {
    if run == [] then State(EmptySystem, NoHistory)
    else Next(Exec(run[..|run| - 1]), run[|run| - 1])
  }
}
