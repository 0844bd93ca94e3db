/** What the steps accomplish, in every run: memtables that are full are frozen, flushes make writes durable and
    bring them to L0, compactions are scheduled and installed, and what a process has done reaches the
    manifest.
 */
module LsmProgress {
  import opened Tables
  import opened Manifests
  import opened WriterState
  import opened CompactorStates
  import opened Lsm
  import opened LsmFacts
  import opened LsmInvariant
  import opened LsmWriterSteps
  import opened LsmManifestSteps
  import opened LsmCompactorSteps
  import opened LsmTheorems
  import opened LsmGuarantees

  // ---------------------------------------------------------------- full memtables

  /** After every flush of a WAL the mutable memtable is not full. */
  lemma FlushLeavesRoom(run: seq<Action>, full: Table -> bool)
    requires Exec(run).sys.writer.Some? && Exec(run).sys.writer.value.db.immWals != [] && !full(map[])
    ensures var s' := Step(Exec(run).sys, FlushWal(full));
            s'.writer.Some? && !full(s'.writer.value.db.memtable.rows)
  {
    hide Exec, Persist;
    FlushFreezes(Exec(run).sys.writer.value.db, full);
  }

  /** After every opening of the database the mutable memtable is not full. */
  lemma OpenLeavesRoom(run: seq<Action>, full: Table -> bool)
    requires Exec(run).sys.writer.None? && !full(map[])
    ensures var s' := Step(Exec(run).sys, OpenWriter(full));
            s'.writer.Some? ==> !full(s'.writer.value.db.memtable.rows)
  {
    hide Exec, Fence, Db.Replay;
    var s := Exec(run).sys;
    if s.files != map[] {
      var core := Fence(s.files, Loaded(MaxKey(s.files), s.files[MaxKey(s.files)]), WriterKind).client.manifest.core;
      var ids := IdsBetween(s.wals, core.lastCompactedWal, if s.wals == map[] then 0 else MaxKey(s.wals));
      ReplayLeavesRoom(NewDb(core), ids, s.wals, full);
    }
  }

  /** The run compares the memtable with one limit. */
  ghost predicate OneLimit(run: seq<Action>, full: Table -> bool) {
    forall i :: 0 <= i < |run| && (run[i].FlushWal? || run[i].OpenWriter?) ==> run[i].full == full
  }

  /** In every run the mutable memtable is never full. */
  lemma {:induction false} MemtableNeverFull(run: seq<Action>, full: Table -> bool)
    requires OneLimit(run, full) && !full(map[])
    ensures Exec(run).sys.writer.Some? ==> !full(Exec(run).sys.writer.value.db.memtable.rows)
  {
    hide Exec, Step;
    if run == [] {
      NobodyUp();
    } else {
      var n := |run| - 1;
      var s := Exec(run[..n]).sys;
      assert run == run[..n] + [run[n]];
      ExecNext(run[..n], run[n]);
      MemtableNeverFull(run[..n], full);
      if run[n].FlushWal? && s.writer.Some? && s.writer.value.db.immWals != [] {
        FlushLeavesRoom(run[..n], full);
      } else if run[n].OpenWriter? && s.writer.None? {
        OpenLeavesRoom(run[..n], full);
      } else {
        MemtableStays(s, run[n]);
      }
    }
  }

  lemma NobodyUp()
    ensures Exec([]).sys.writer.None?
  {}

  lemma MemtableStays(s: System, a: Action)
    requires !(a.FlushWal? && s.writer.Some? && s.writer.value.db.immWals != [])
    requires !(a.OpenWriter? && s.writer.None?)
    ensures Step(s, a).writer.Some? ==>
              && s.writer.Some?
              && Step(s, a).writer.value.db.memtable
                 in {s.writer.value.db.memtable, Memtable(map[], None)}
  {
    hide Recover, Schedule, Compacts, FreshIds, Persist, Fence, UpdateDbState, RefreshClient, Compactor.Finish,
         Compactor.FinishAsserts, Compactor.Refresh, Cut;
  }

  // ---------------------------------------------------------------- writes become durable

  ghost function Times(a: Action, n: nat): seq<Action> {
    seq(n, _ => a)
  }

  lemma TimesSnoc(a: Action, n: nat)
    ensures Times(a, n + 1) == Times(a, n) + [a]
  {}

  lemma {:induction false} FlushesDrain(run: seq<Action>, full: Table -> bool, n: nat)
    requires Exec(run).sys.writer.Some? && n <= |Exec(run).history.frozen|
    ensures var h, st := Exec(run).history, Exec(run + Times(FlushWal(full), n));
            && st.sys.writer.Some?
            && st.history == h.(flushed := h.flushed + h.frozen[..n], frozen := h.frozen[n..])
  {
    hide Exec, Step;
    if n == 0 {
      assert run + Times(FlushWal(full), 0) == run;
    } else {
      FlushesDrain(run, full, n - 1);
      TimesSnoc(FlushWal(full), n - 1);
      var before := run + Times(FlushWal(full), n - 1);
      assert run + Times(FlushWal(full), n) == before + [FlushWal(full)];
      ExecNext(before, FlushWal(full));
      WriterStaysUp(Exec(before).sys, FlushWal(full));
      var h := Exec(run).history;
      assert h.flushed + h.frozen[..n] == h.flushed + h.frozen[..n - 1] + [h.frozen[n - 1]];
    }
  }

  lemma WriterStaysUp(s: System, a: Action)
    requires s.writer.Some? && !a.CrashWriter?
    ensures Step(s, a).writer.Some?
  {
    hide Recover, Schedule, Compacts, FreshIds, Persist, Fence, UpdateDbState, RefreshClient, Compactor.Finish,
         Compactor.FinishAsserts, Compactor.Refresh;
  }

  /** FlushWAL: freezing the WAL and flushing every frozen one makes all writes durable, in their order, and
      leaves no WAL behind. */
  lemma FlushMakesDurable(run: seq<Action>, full: Table -> bool)
    requires Exec(run).sys.writer.Some?
    ensures var h := Exec(run).history; var n := |h.frozen| + (if h.open == [] then 0 else 1);
            var st := Exec(run + [Action.FreezeWal] + Times(FlushWal(full), n));
            && st.sys.writer.Some? && st.sys.writer.value.db.wal == map[] && st.sys.writer.value.db.immWals == []
            && st.history.DurableWrites() == h.Writes() == st.history.Writes()
  {
    hide Exec, Step, Created, CoreOk, FlushedOk, DbOk, Concat;
    var h := Exec(run).history;
    var frozen := run + [Action.FreezeWal];
    ExecNext(run, Action.FreezeWal);
    WriterStaysUp(Exec(run).sys, Action.FreezeWal);
    var n := |Exec(frozen).history.frozen|;
    FlushesDrain(frozen, full, n);
    var st := Exec(frozen + Times(FlushWal(full), n));
    var x := DbOfRun(frozen + Times(FlushWal(full), n));
    QueueEmptiness(st.sys.writer.value.db, st.history);
    GroupsJoin(h);
  }

  lemma GroupsJoin(h: History)
    ensures var groups := if h.open == [] then h.frozen else h.frozen + [h.open];
            Concat(h.flushed + groups[..|groups|]) == h.Writes() && Concat<Entry>([]) == []
  {
    var groups := if h.open == [] then h.frozen else h.frozen + [h.open];
    assert groups[..|groups|] == groups;
    ConcatAppend(h.flushed, groups);
    assert h.open != [] ==> groups[..|h.frozen|] == h.frozen;
  }

  // ---------------------------------------------------------------- memtables reach L0

  ghost function Flushes(ids: seq<nat>): seq<Action> {
    seq(|ids|, i requires 0 <= i < |ids| => FlushMemtable(ids[i]))
  }

  /** Ids that are new and differ. */
  ghost predicate NewIds(ids: seq<nat>, used: set<nat>) {
    && (forall i :: 0 <= i < |ids| ==> ids[i] !in used)
    && (forall i, j :: 0 <= i < j < |ids| ==> ids[i] != ids[j])
  }

  /** One flush: the oldest frozen memtable becomes the newest SST of L0. */
  lemma FlushedToL0(s: System, id: nat)
    requires s.writer.Some? && s.writer.value.db.immMemtables != [] && id !in s.ids
    ensures var s' := Step(s, FlushMemtable(id)); var w, w' := s.writer.value, s'.writer.value;
            var n := |w.db.immMemtables| - 1; var oldest := w.db.immMemtables[n];
            && s'.writer.Some? && s' == s.(ids := s.ids + {id}, writer := s'.writer) && w' == w.(db := w'.db)
            && w'.db == w.db.(immMemtables := w.db.immMemtables[..n], core := w'.db.core)
            && w'.db.core == w.db.core.(l0 := [Sst(id, Persist(oldest.rows))] + w.db.core.l0,
                                        lastCompactedWal := oldest.lastWal)
  {}

  lemma {:induction false} FlushesReachL0(run: seq<Action>, ids: seq<nat>)
    requires Exec(run).sys.writer.Some? && NewIds(ids, Exec(run).sys.ids)
    requires |ids| <= |Exec(run).sys.writer.value.db.immMemtables|
    ensures var st, st' := Exec(run), Exec(run + Flushes(ids));
            && st'.sys.writer.Some? && st'.history == st.history
            && st'.sys.ids == st.sys.ids + (set id | id in ids)
            && var db, db' := st.sys.writer.value.db, st'.sys.writer.value.db; var n := |db.immMemtables| - |ids|;
            && db'.memtable == db.memtable && db'.immMemtables == db.immMemtables[..n]
            && (ids != [] ==> db'.core.lastCompactedWal == db.immMemtables[n].lastWal)
  {
    hide Exec, Step, Persist;
    if ids == [] {
      assert run + Flushes(ids) == run;
    } else {
      var k := |ids| - 1;
      FlushesReachL0(run, ids[..k]);
      var before := run + Flushes(ids[..k]);
      assert run + Flushes(ids) == before + [FlushMemtable(ids[k])];
      ExecNext(before, FlushMemtable(ids[k]));
      assert ids[k] !in ids[..k];
      FlushedToL0(Exec(before).sys, ids[k]);
      assert ids == ids[..k] + [ids[k]];
    }
  }

  // ---------------------------------------------------------------- the manifest

  /** A load by the writer: it holds the latest version, has that version's runs and mark, and cuts its own L0
      at the mark; nothing else changes. */
  lemma WriterLoadTakesOver(run: seq<Action>)
    requires Exec(run).sys.writer.Some?
    ensures var s := Exec(run).sys; var n := |s.files|; var s' := Step(s, WriterLoad);
            && n in s.files && s'.writer.Some? && s' == s.(writer := s'.writer)
            && var w, w', m := s.writer.value, s'.writer.value, s.files[n];
            && w.client.Live? && w'.client == Live(WriterKind, w.client.epoch, n, m)
            && w'.db == w.db.(core := w'.db.core)
            && w'.db.core == w.db.core.(l0LastCompacted := m.core.l0LastCompacted, compacted := m.core.compacted,
                                        l0 := Cut(w.db.core.l0, m.core.l0LastCompacted))
  {
    hide Exec, Created, Cut, DbOk, CoreOk, FlushedOk, Consecutive;
    var s := Exec(run).sys;
    var x := DbOfRun(run);
    UpClients(s, Exec(run).history, x);
    RefreshOutcome(s.files, s.writer.value.client, WriterKind);
  }

  /** Both processes of a run hold versions that are stored, with the epoch of the latest. */
  lemma UpClients(s: System, h: History, x: Trace)
    requires Created(s, h, x)
    ensures FilesOk(s.files)
    ensures s.writer.Some? ==> ClientOk(s.files, s.writer.value.client, WriterKind)
    ensures s.compactor.Some? ==> ClientOk(s.files, s.compactor.value.client, CompactorKind)
  {
    hide WalsOk, FlushedOk, Consecutive, DbOk, ClientOk, CoreOk, InFlightOk;
  }

  /** A write by the writer: it adds the next version, with the writer's state, exactly if the writer holds the
      latest; otherwise nothing changes. */
  lemma WriterWriteExact(run: seq<Action>)
    requires Exec(run).sys.writer.Some?
    ensures var s := Exec(run).sys; var n := |s.files|; var s' := Step(s, WriterWrite); var w := s.writer.value;
            && n in s.files && n + 1 !in s.files && w.client.Live?
            && var m := s.files[n].(core := w.db.core);
               s' == if w.client.id == n
                     then s.(files := s.files[n + 1 := m],
                             writer := Some(w.(client := Live(WriterKind, w.client.epoch, n + 1, m))))
                     else s
  {
    hide Exec, Created, DbOk, CoreOk, FlushedOk, Consecutive;
    var s := Exec(run).sys;
    var x := DbOfRun(run);
    UpClients(s, Exec(run).history, x);
    UpdateOutcome(s.files, s.writer.value.client, WriterKind, s.writer.value.db.core);
    AppendVersion(s.files, Latest(s.files).(core := s.writer.value.db.core));
  }

  /** A load and a write always publish the writer's state. */
  lemma WriterPublishes(run: seq<Action>)
    requires Exec(run).sys.writer.Some?
    ensures var s, s' := Exec(run).sys, Exec(run + [WriterLoad, WriterWrite]).sys; var n := |s.files|;
            && n in s.files && n + 1 !in s.files
            && s'.writer.Some? && s'.writer.value.db == Step(s, WriterLoad).writer.value.db
            && s'.files == s.files[n + 1 := s.files[n].(core := s'.writer.value.db.core)]
  {
    hide Exec, Step;
    assert run + [WriterLoad, WriterWrite] == run + [WriterLoad] + [WriterWrite];
    ExecNext(run, WriterLoad);
    ExecNext(run + [WriterLoad], WriterWrite);
    WriterLoadTakesOver(run);
    WriterWriteExact(run + [WriterLoad]);
  }

  /** FlushMemtableToL0, once a WAL has reached the memtable: after freezing it, flushing every frozen memtable
      and publishing, the latest version counts every uploaded WAL as compacted, and its SSTs alone hold
      all durable writes. */
  lemma FlushToL0Publishes(run: seq<Action>, ids: seq<nat>)
    requires Exec(run).sys.writer.Some? && Exec(run).sys.writer.value.db.memtable.lastWal.Some?
    requires |ids| == |Exec(run).sys.writer.value.db.immMemtables| + 1 && NewIds(ids, Exec(run).sys.ids)
    ensures var st := Exec(run);
            var st' := Exec(run + [Action.FreezeMemtable] + Flushes(ids) + [WriterLoad, WriterWrite]);
            && st'.history == st.history && |st'.sys.files| in st'.sys.files
            && var core := st'.sys.files[|st'.sys.files|].core;
            && core.lastCompactedWal == |st.history.flushed|
            && Layers(SstRows(core.l0) + RunRows(core.compacted)) == Persist(TableOf(st.history.DurableWrites()))
  {
    hide Exec, Step, Persist, Layers, TableOf, NewIds, Created, DbOk, CoreOk, FlushedOk, Cut;
    var frozen := run + [Action.FreezeMemtable];
    var flushed := frozen + Flushes(ids);
    FrozenMemtable(run);
    FlushesReachL0(frozen, ids);
    WriterPublishes(flushed);
    WriterLoadTakesOver(flushed);
    var last := flushed + [WriterLoad, WriterWrite];
    assert last == flushed + [WriterLoad] + [WriterWrite];
    ExecNext(flushed, WriterLoad);
    ExecNext(flushed + [WriterLoad], WriterWrite);
    OneMoreVersion(Exec(flushed).sys.files, Exec(last).sys.files);
    LatestHolds(last);
  }

  lemma OneMoreVersion(files: Files, files': Files)
    requires |files| + 1 !in files && |files| + 1 in files' && files' == files[|files| + 1 := files'[|files| + 1]]
    ensures |files'| == |files| + 1
  {}

  lemma FrozenMemtable(run: seq<Action>)
    requires Exec(run).sys.writer.Some? && Exec(run).sys.writer.value.db.memtable.lastWal.Some?
    ensures var st, st' := Exec(run), Exec(run + [Action.FreezeMemtable]);
            && st'.history == st.history && st'.sys.ids == st.sys.ids && st'.sys.writer.Some?
            && st'.sys.writer.value.db.immMemtables
               == [ImmMemtable(st.sys.writer.value.db.memtable.rows, |st.history.flushed|)]
                  + st.sys.writer.value.db.immMemtables
  {
    hide Exec, Created, CoreOk, FlushedOk, QueueOk, Covers, Kept;
    ExecNext(run, Action.FreezeMemtable);
    var x := DbOfRun(run);
    KeptLen(Exec(run).history.flushed, Exec(run).history.recovered);
  }

  /** The latest version's SSTs hold the writes up to its last compacted WAL. */
  lemma LatestHolds(run: seq<Action>)
    requires Exec(run).sys.files != map[]
    ensures var st := Exec(run);
            && |st.sys.files| in st.sys.files
            && var core := st.sys.files[|st.sys.files|].core;
            && core.lastCompactedWal <= |st.history.flushed|
            && Layers(SstRows(core.l0) + RunRows(core.compacted))
               == Persist(Fold(st.history.flushed, 0, core.lastCompactedWal))
            && Fold(st.history.flushed, 0, |st.history.flushed|) == TableOf(st.history.DurableWrites())
  {
    hide Exec, WalsOk, FlushedOk, CoreOk, DbOk, WriterOk, CompactorOk, Consecutive, Persist, Fold, TableOf, Layers;
    var x := RunKeepsInv(run);
    var st := Exec(run);
    SstsHold(Latest(st.sys.files).core, x.all, x.marks, st.history.flushed, st.sys.ids, x.manifestLo, x.manifestHi);
    WholeFold(st.history.flushed);
  }

  // ---------------------------------------------------------------- the compactor

  /** Starting a compactor adds a version that raises the compactor epoch and nothing else; the compactor has
      that epoch, the state of the manifest, and nothing in flight. */
  lemma StartCompactorFences(run: seq<Action>)
    requires Exec(run).sys.files != map[] && Exec(run).sys.compactor.None?
    ensures var s := Exec(run).sys; var n := |s.files|;
            && n in s.files && n + 1 !in s.files
            && var epoch := s.files[n].compactorEpoch + 1; var m := s.files[n].(compactorEpoch := epoch);
               Step(s, StartCompactor)
               == s.(files := s.files[n + 1 := m],
                     compactor := Some(CompactorProcess(Compactor(m.core, map[]),
                                                        Live(CompactorKind, epoch, n + 1, m), map[])))
  {
    hide Exec, Created;
    var s := Exec(run).sys;
    var x := RunKeepsInv(run);
    UpClients(s, Exec(run).history, x);
    FenceOutcome(s.files, CompactorKind);
    AppendVersion(s.files, Latest(s.files).Bump(CompactorKind));
  }

  /** Opening the database adds a version that raises the writer epoch and nothing else. A writer that comes up
      has that epoch and the SSTs of the manifest. */
  lemma OpenWriterFences(run: seq<Action>, full: Table -> bool)
    requires Exec(run).sys.files != map[] && Exec(run).sys.writer.None?
    ensures var s, s' := Exec(run).sys, Step(Exec(run).sys, OpenWriter(full)); var n := |s.files|;
            && n in s.files && n + 1 !in s.files
            && var epoch := s.files[n].writerEpoch + 1; var m := s.files[n].(writerEpoch := epoch);
            && s' == s.(files := s.files[n + 1 := m], writer := s'.writer)
            && (s'.writer.Some? ==>
                  && s'.writer.value.client == Live(WriterKind, epoch, n + 1, m)
                  && s'.writer.value.db.core == m.core.(nextWal := |Exec(run).history.flushed| + 1))
  {
    hide Exec, WalsOk, FlushedOk, CoreOk, ClientOk, Consecutive, DbOk, WriterOk, CompactorOk, MemtablesOk, Kept;
    var s, h := Exec(run).sys, Exec(run).history;
    var x := RunKeepsInv(run);
    FenceOutcome(s.files, WriterKind);
    AppendVersion(s.files, Latest(s.files).Bump(WriterKind));
    var core := Latest(s.files).core;
    CoreBounds(core, x.all, x.marks, s.ids, x.manifestLo, x.manifestHi);
    MarkBounds(x.all, x.marks, h.flushed, s.ids, x.manifestHi);
    RecoverOutcome(core, s.wals, h.flushed, full);
  }

  /** A load by the compactor: it holds the latest version, has that version's WAL ids and, of its L0, the SSTs
      in front of the compactor's own mark; its runs, its mark and its jobs stay. */
  lemma CompactorLoadTakesOver(run: seq<Action>)
    requires Exec(run).sys.compactor.Some?
    ensures var s := Exec(run).sys; var n := |s.files|; var s' := Step(s, CompactorLoad);
            && n in s.files && s'.compactor.Some? && s' == s.(compactor := s'.compactor)
            && var c, c', m := s.compactor.value, s'.compactor.value, s.files[n];
            && c.client.Live? && c'.client == Live(CompactorKind, c.client.epoch, n, m)
            && c'.jobs == c.jobs && c'.state.compactions == c.state.compactions
            && c'.state.core == c.state.core.(l0 := Cut(m.core.l0, c.state.core.l0LastCompacted),
                                              nextWal := m.core.nextWal, lastCompactedWal := m.core.lastCompactedWal)
  {
    hide Exec, Created, Cut, Consecutive;
    var s := Exec(run).sys;
    var x := RunKeepsInv(run);
    UpClients(s, Exec(run).history, x);
    RefreshOutcome(s.files, s.compactor.value.client, CompactorKind);
  }

  /** A write by the compactor, as by the writer. */
  lemma CompactorWriteExact(run: seq<Action>)
    requires Exec(run).sys.compactor.Some?
    ensures var s := Exec(run).sys; var n := |s.files|; var s' := Step(s, CompactorWrite); var c := s.compactor.value;
            && n in s.files && n + 1 !in s.files && c.client.Live?
            && var m := s.files[n].(core := c.state.core);
               s' == if c.client.id == n
                     then s.(files := s.files[n + 1 := m],
                             compactor := Some(c.(client := Live(CompactorKind, c.client.epoch, n + 1, m))))
                     else s
  {
    hide Exec, Created, Consecutive;
    var s := Exec(run).sys;
    var x := RunKeepsInv(run);
    UpClients(s, Exec(run).history, x);
    UpdateOutcome(s.files, s.compactor.value.client, CompactorKind, s.compactor.value.state.core);
    AppendVersion(s.files, Latest(s.files).(core := s.compactor.value.state.core));
  }

  /** A load and a write always publish the compactor's state. */
  lemma CompactorPublishes(run: seq<Action>)
    requires Exec(run).sys.compactor.Some?
    ensures var s, s' := Exec(run).sys, Exec(run + [CompactorLoad, CompactorWrite]).sys; var n := |s.files|;
            && n in s.files && n + 1 !in s.files
            && s'.compactor.Some? && s'.compactor.value.state == Step(s, CompactorLoad).compactor.value.state
            && s'.files == s.files[n + 1 := s.files[n].(core := s'.compactor.value.state.core)]
  {
    hide Exec, Step;
    assert run + [CompactorLoad, CompactorWrite] == run + [CompactorLoad] + [CompactorWrite];
    ExecNext(run, CompactorLoad);
    ExecNext(run + [CompactorLoad], CompactorWrite);
    CompactorLoadTakesOver(run);
    CompactorWriteExact(run + [CompactorLoad]);
  }

  /** Scheduling: with nothing in flight and at least four SSTs in L0 it puts the compaction of all of L0, in
      order, into the next run id in flight, with its job; otherwise nothing changes. */
  lemma ScheduleTakesL0(run: seq<Action>)
    requires Exec(run).sys.compactor.Some?
    ensures var s := Exec(run).sys; var c := s.compactor.value; var s' := Step(s, CompactorSchedule);
            var l0, runs := c.state.core.l0, c.state.core.compacted; var d := if runs == [] then 0 else runs[0].id + 1;
            if |l0| >= 4 && c.state.compactions == map[]
            then && s'.compactor.Some? && s' == s.(compactor := s'.compactor)
                 && s'.compactor.value.client == c.client && s'.compactor.value.state.core == c.state.core
                 && s'.compactor.value.jobs == c.jobs[d := Job(d, l0, [])]
                 && s'.compactor.value.state.compactions.Keys == {d}
                 && var wanted := s'.compactor.value.state.compactions[d];
                    && wanted.destination == d && |wanted.sources| == |l0|
                    && forall i :: 0 <= i < |l0| ==> wanted.sources[i] == SstSource(l0[i].id)
            else s' == s
  {
    hide Exec, Scheduled, Compactor.JobFor, Compactor.Accepts, InFlightOk;
    var s := Exec(run).sys;
    var c := s.compactor.value;
    var x := CompactorOfRun(run);
    ScheduledExact(c.state.core);
    NextIdOf(c.state.core.compacted);
    AcceptsOutcome(c, x.all, x.compactorLo, x.end, x.compactorHi);
    JobsAreComplete(run);
    if |c.state.core.l0| >= 4 {
      ScheduledIs(c.state.core);
    }
  }

  lemma ScheduledIs(core: Core)
    requires |core.l0| >= 4
    ensures Scheduled(core) == [Compaction(L0Sources(core.l0), NextRunId(core.compacted))]
  {}

  lemma NextIdOf(runs: seq<Run>)
    requires Descending(runs, MAX_UINT32)
    ensures NextRunId(runs) == if runs == [] then 0 else runs[0].id + 1
  {}

  /** The end of a job: under fresh ids, and if the SSTs compact its inputs, the output becomes the newest run,
      the newest source the mark, and only the SSTs newer than the sources stay in L0. */
  lemma FinishInstallsRun(run: seq<Action>, d: nat, ssts: seq<Sst>)
    requires Exec(run).sys.compactor.Some? && d in Exec(run).sys.compactor.value.state.compactions && d < MAX_UINT32
    requires FreshIds(ssts, Exec(run).sys.ids)
    requires var c := Exec(run).sys.compactor.value;
             d in c.jobs && Compacts(SstRows(c.jobs[d].ssts), SstRows(ssts))
    ensures var s := Exec(run).sys; var c := s.compactor.value; var s' := Step(s, CompactorFinish(d, ssts));
            && s'.compactor.Some? && s'.files == s.files && s'.writer == s.writer && s'.wals == s.wals
            && var c', core, core' := s'.compactor.value, c.state.core, s'.compactor.value.state.core;
            && c'.client == c.client && c'.state.compactions == map[] && c'.jobs == c.jobs - {d}
            && exists k :: 0 <= k < |core.l0| && c.jobs[d].ssts == core.l0[k..]
                 && core' == core.(l0 := core.l0[..k], l0LastCompacted := Some(core.l0[k].id),
                                   compacted := [Run(d, ssts)] + core.compacted)
  {
    hide Exec, Compactor.FinishAsserts, Compactor.Finished, Compactor.Finish, FreshIds, Compacts, L0Sources, Step;
    var s := Exec(run).sys;
    var k := FinishedAt(run, d, ssts);
    FinishTakesTheSources(run, d, ssts);
    FinishStep(s, d, ssts);
    FinishIs(s.compactor.value.state, Run(d, ssts));
  }

  lemma FinishStep(s: System, d: nat, ssts: seq<Sst>)
    requires s.compactor.Some? && FreshIds(ssts, s.ids)
    requires var c := s.compactor.value;
             && d in c.state.compactions && c.state.FinishAsserts(Run(d, ssts))
             && d in c.jobs && c.jobs[d].runs == [] && Compacts(SstRows(c.jobs[d].ssts), SstRows(ssts))
    ensures var c := s.compactor.value;
            Step(s, CompactorFinish(d, ssts))
            == s.(ids := s.ids + (set t | t in ssts :: t.id),
                  compactor := Some(c.(state := c.state.Finish(Run(d, ssts)), jobs := c.jobs - {d})))
  {
    hide FreshIds, Compacts, Compactor.FinishAsserts, Compactor.Finish;
  }

  lemma FinishIs(c: Compactor, out: Run)
    requires out.id in c.compactions && c.FinishAsserts(out)
    ensures c.Finish(out) == Compactor(c.Finished(out), c.compactions - {out.id})
    ensures c.Finished(out) == c.core.(l0 := c.Finished(out).l0, compacted := c.Finished(out).compacted,
                                       l0LastCompacted := c.Finished(out).l0LastCompacted)
  {
    hide Compactor.FinishAsserts, KeepL0, InsertRun;
  }

  /** Where the sources of the compaction in flight begin in L0. */
  lemma FinishedAt(run: seq<Action>, d: nat, ssts: seq<Sst>) returns (k: nat)
    requires Exec(run).sys.compactor.Some? && d in Exec(run).sys.compactor.value.state.compactions
    ensures var c := Exec(run).sys.compactor.value; var core, out := c.state.core, Run(d, ssts);
            && k < |core.l0| && d in c.jobs && c.jobs[d] == Job(d, core.l0[k..], [])
            && c.state.compactions - {d} == map[]
            && c.state.compactions[d].sources == L0Sources(core.l0[k..])
            && c.state.Finished(out).l0 == core.l0[..k]
            && c.state.Finished(out).l0LastCompacted == Some(core.l0[k].id)
            && c.state.Finished(out).compacted == [out] + core.compacted
  {
    hide Exec, Compactor.FinishAsserts, Compactor.Finished, L0Sources, Descending, NextRunId;
    var c := Exec(run).sys.compactor.value;
    FinishTakesTheSources(run, d, ssts);
    SchedulerInvariant(run);
    OneInFlight(c.state.compactions, d);
    var j :| 0 <= j <= |c.state.core.l0| - 4
             && c.state.compactions[d] == Compaction(L0Sources(c.state.core.l0[j..]), d)
             && d in c.jobs && c.jobs[d] == Job(d, c.state.core.l0[j..], []);
    k :| 0 <= k < |c.state.core.l0|
         && c.state.compactions[d].sources == L0Sources(c.state.core.l0[k..])
         && c.state.Finished(Run(d, ssts)).l0 == c.state.core.l0[..k]
         && c.state.Finished(Run(d, ssts)).l0LastCompacted == Some(c.state.core.l0[k].id)
         && c.state.Finished(Run(d, ssts)).compacted == [Run(d, ssts)] + c.state.core.compacted;
    SourcesLen(c.state.core.l0[j..]);
    SourcesLen(c.state.core.l0[k..]);
  }

  lemma SourcesLen(l0: seq<Sst>)
    ensures |L0Sources(l0)| == |l0|
  {}

  lemma OneInFlight(m: map<nat, Compaction>, d: nat)
    requires d in m && |m| <= 1
    ensures m - {d} == map[]
  {
    assert |m.Keys - {d}| == |m.Keys| - 1;
  }

  /** A whole round of the compactor: scheduling, finishing with SSTs that compact L0, and publishing. The next
      version of the manifest has the output as its newest run, and of the SSTs in L0 only those flushed
      since. */
  lemma CompactionRound(run: seq<Action>, ssts: seq<Sst>)
    requires Exec(run).sys.compactor.Some? && Exec(run).sys.compactor.value.state.compactions == map[]
    requires FreshIds(ssts, Exec(run).sys.ids)
    requires var core := Exec(run).sys.compactor.value.state.core;
             && |core.l0| >= 4 && (core.compacted == [] || core.compacted[0].id + 1 < MAX_UINT32)
             && Compacts(SstRows(core.l0), SstRows(ssts))
    ensures var s := Exec(run).sys; var n := |s.files|; var core := s.compactor.value.state.core;
            var d := if core.compacted == [] then 0 else core.compacted[0].id + 1;
            var s' := Exec(run + [CompactorSchedule, CompactorFinish(d, ssts), CompactorLoad, CompactorWrite]).sys;
            && n in s.files && n + 1 !in s.files
            && var m := s.files[n]; var mark := Some(core.l0[0].id);
               s'.files == s.files[n + 1 := m.(core := m.core.(l0LastCompacted := mark, l0 := Cut(m.core.l0, mark),
                                                               compacted := [Run(d, ssts)] + core.compacted))]
  {
    hide Exec, Step, FreshIds, Compacts, Cut, SstRows;
    var core := Exec(run).sys.compactor.value.state.core;
    var d := if core.compacted == [] then 0 else core.compacted[0].id + 1;
    var scheduled := run + [CompactorSchedule];
    var finished := scheduled + [CompactorFinish(d, ssts)];
    assert run + [CompactorSchedule, CompactorFinish(d, ssts), CompactorLoad, CompactorWrite]
        == finished + [CompactorLoad, CompactorWrite];
    ScheduleTakesL0(run);
    ExecNext(run, CompactorSchedule);
    ExecNext(scheduled, CompactorFinish(d, ssts));
    FinishInstallsRun(scheduled, d, ssts);
    CompactorPublishes(finished);
    CompactorLoadTakesOver(finished);
  }
}
