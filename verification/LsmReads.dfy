/** Background work and what a reader sees: data moves between tiers, answers stay the same. The one
    exception, an empty value that reaches an SST, is delimited exactly. */
module LsmReads {
  import opened Tables
  import opened Manifests
  import opened WriterState
  import opened CompactorStates
  import opened Lsm
  import opened LsmFacts
  import opened LsmInvariant
  import opened LsmWriterSteps
  import opened LsmManifestSteps
  import opened LsmTheorems
  import opened LsmGuarantees

  // ---------------------------------------------------------------- tiers that mean the same

  lemma SameAnswers(ts: seq<Table>, ts': seq<Table>, key: bytes)
    requires Layers(ts) == Layers(ts')
    ensures CheckValue(Search(ts, key)) == CheckValue(Search(ts', key))
  {
    SearchIsLookup(ts, key);
    SearchIsLookup(ts', key);
  }

  lemma UncommittedSplit(db: Db)
    ensures Layers(db.UncommittedTiers())
         == Layers(db.CommittedTiers()) + Layers(WalRows(db.immWals)) + db.wal
  {
    assert db.UncommittedTiers() == [db.wal] + (WalRows(db.immWals) + db.CommittedTiers());
    LayersCons(db.wal, WalRows(db.immWals) + db.CommittedTiers());
    LayersConcat(WalRows(db.immWals), db.CommittedTiers());
  }

  lemma FreezeWalKeepsTiers(db: Db)
    ensures Layers(db.FreezeWal().UncommittedTiers()) == Layers(db.UncommittedTiers())
    ensures db.FreezeWal().CommittedTiers() == db.CommittedTiers()
  {
    hide Layers, Db.CommittedTiers, Db.UncommittedTiers;
    var db' := db.FreezeWal();
    assert db'.CommittedTiers() == db.CommittedTiers() by { CommittedOnly(db, db'); }
    if db.wal != map[] {
      UncommittedSplit(db);
      UncommittedSplit(db');
      assert WalRows(db'.immWals) == [db.wal] + WalRows(db.immWals);
      LayersCons(db.wal, WalRows(db.immWals));
    }
  }

  lemma CommittedOnly(db: Db, db': Db)
    requires db'.memtable == db.memtable && db'.immMemtables == db.immMemtables
    requires db'.core.l0 == db.core.l0 && db'.core.compacted == db.core.compacted
    ensures db'.CommittedTiers() == db.CommittedTiers()
  {}

  lemma FreezeMemtableKeepsTiers(db: Db, walId: nat)
    ensures Layers(db.FreezeMemtable(walId).CommittedTiers()) == Layers(db.CommittedTiers())
    ensures Layers(db.FreezeMemtable(walId).UncommittedTiers()) == Layers(db.UncommittedTiers())
  {
    hide Layers, Db.CommittedTiers, Db.UncommittedTiers;
    var db' := db.FreezeMemtable(walId);
    CommittedSplit(db);
    CommittedSplit(db');
    assert MemtableRows(db'.immMemtables) == [db.memtable.rows] + MemtableRows(db.immMemtables);
    LayersCons(db.memtable.rows, MemtableRows(db.immMemtables));
    UncommittedSplit(db);
    UncommittedSplit(db');
  }

  lemma FlushKeepsTiers(db: Db, full: Table -> bool)
    requires db.immWals != []
    ensures Layers(db.FlushOldestWal(full).UncommittedTiers()) == Layers(db.UncommittedTiers())
  {
    hide Layers, Db.CommittedTiers, Db.UncommittedTiers;
    var n, oldest := |db.immWals| - 1, db.OldestWal();
    var db' := db.(immWals := db.immWals[..n],
                   memtable := Memtable(db.memtable.rows + oldest.rows, Some(oldest.id)));
    AppliedToMemtable(db, db', oldest.rows);
    UncommittedSplit(db);
    UncommittedSplit(db');
    assert WalRows(db.immWals) == WalRows(db'.immWals) + [oldest.rows];
    LayersConcat(WalRows(db'.immWals), [oldest.rows]);
    LayersOne(oldest.rows);
    OverlayAssociates(Layers(db.CommittedTiers()), oldest.rows, Layers(WalRows(db'.immWals)));
    FreezeMemtableKeepsTiers(db', oldest.id);
  }

  lemma AppliedToMemtable(db: Db, db': Db, rows: Table)
    requires db'.immMemtables == db.immMemtables && db'.core == db.core
    requires db'.memtable.rows == db.memtable.rows + rows
    ensures Layers(db'.CommittedTiers()) == Layers(db.CommittedTiers()) + rows
  {
    hide Layers, Db.CommittedTiers, Db.UncommittedTiers;
    CommittedSplit(db);
    CommittedSplit(db');
    var ssts := Layers(SstRows(db.core.l0) + RunRows(db.core.compacted));
    var imms := Layers(MemtableRows(db.immMemtables));
    OverlayAssociates(imms, db.memtable.rows, rows);
    OverlayAssociates(ssts, imms + db.memtable.rows, rows);
  }

  lemma LayersOne(t: Table)
    ensures Layers([t]) == t
  {
    assert [t] == [t] + [];
    LayersCons(t, []);
  }

  /** Taking over the compactor's runs and cutting L0 at its mark changes no answer. */
  lemma LoadKeepsTiers(s: System, h: History, x: Trace)
    requires Created(s, h, x) && s.writer.Some?
    ensures var db := s.writer.value.db; var s' := Step(s, WriterLoad);
            && s'.writer.Some?
            && Layers(s'.writer.value.db.CommittedTiers()) == Layers(db.CommittedTiers())
            && Layers(s'.writer.value.db.UncommittedTiers()) == Layers(db.UncommittedTiers())
  {
    hide WalsOk, CoreOk, ClientOk, Consecutive, DbOk, CompactorOk, Layers, FlushedOk,
         Db.CommittedTiers, Db.UncommittedTiers;
    var w := s.writer.value;
    ClientLive(s.files, w.client, WriterKind);
    RefreshOutcome(s.files, w.client, WriterKind);
    var db' := w.db.Refresh(Latest(s.files).core);
    FlushedDistinct(x.all, x.marks, h.flushed, s.ids);
    RefreshKeepsCore(w.db.core, Latest(s.files).core, x.all, x.marks, s.ids, x.writerLo, x.manifestLo, x.manifestHi);
    SstsHold(w.db.core, x.all, x.marks, h.flushed, s.ids, x.writerLo, |x.all|);
    SstsHold(db'.core, x.all, x.marks, h.flushed, s.ids, x.manifestLo, |x.all|);
    CommittedSplit(w.db);
    CommittedSplit(db');
    UncommittedSplit(w.db);
    UncommittedSplit(db');
  }

  lemma FlushedDistinct(all: seq<Sst>, marks: seq<nat>, flushed: seq<seq<Entry>>, ids: set<nat>)
    requires FlushedOk(all, marks, flushed, ids)
    ensures Distinct(all)
  {}

  lemma OtherStepsKeepReads(run: seq<Action>, a: Action, key: bytes)
    requires Exec(run).sys.writer.Some?
    requires !a.WriteKey? && !a.CrashWriter? && !a.FlushMemtable?
    ensures var s := Exec(run).sys; var s' := Step(s, a);
            && s'.writer.Some?
            && s'.writer.value.db.GetUncommitted(key) == s.writer.value.db.GetUncommitted(key)
            && (!a.FlushWal? ==> s'.writer.value.db.GetCommitted(key) == s.writer.value.db.GetCommitted(key))
  {
    hide Exec, Created, Layers, Search, Open, StepCompactor, RefreshClient, UpdateDbState,
         Db.CommittedTiers, Db.UncommittedTiers;
    var s := Exec(run).sys;
    var db := s.writer.value.db;
    var x := RunKeepsInv(run);
    var s' := Step(s, a);
    if a.FreezeWal? {
      FreezeWalKeepsTiers(db);
    } else if a.FlushWal? && db.immWals != [] {
      FlushKeepsTiers(db, a.full);
    } else if a.FreezeMemtable? && db.memtable.lastWal.Some? {
      FreezeMemtableKeepsTiers(db, db.memtable.lastWal.value);
    } else if a.WriterLoad? {
      LoadKeepsTiers(s, Exec(run).history, x);
    } else {
      CompactorKeepsWriter(s, a);
    }
    SameAnswers(s'.writer.value.db.UncommittedTiers(), db.UncommittedTiers(), key);
    if !a.FlushWal? {
      SameAnswers(s'.writer.value.db.CommittedTiers(), db.CommittedTiers(), key);
    }
  }

  lemma CompactorKeepsWriter(s: System, a: Action)
    requires s.writer.Some?
    ensures IsCompactorAction(a) || a.StartCompactor? ==> Step(s, a).writer == s.writer
  {}

  // ---------------------------------------------------------------- empty values

  /** The empty value of `key` in the oldest frozen memtable is what a reader of these newer tiers,
      then of the memtable, gets to see. */
  ghost predicate ShowsEmpty(db: Db, newer: seq<Table>, key: bytes)
    requires db.immMemtables != []
  {
    Lookup(db.OldestMemtable().rows, key) == Some(Present([])) && Search(newer, key) == None
  }

  ghost function NewerMemtables(db: Db): seq<Table>
    requires db.immMemtables != []
  {
    [db.memtable.rows] + MemtableRows(db.immMemtables[..|db.immMemtables| - 1])
  }

  lemma PersistedTier(newer: seq<Table>, t: Table, older: seq<Table>, key: bytes)
    ensures CheckValue(Search(newer + [Persist(t)] + older, key)) == CheckValue(Search(newer + [t] + older, key))
            <==> !(Lookup(t, key) == Some(Present([])) && Search(newer, key) == None)
  {
    SearchConcat(newer + [t], older, key);
    SearchConcat(newer, [t], key);
    SearchConcat(newer + [Persist(t)], older, key);
    SearchConcat(newer, [Persist(t)], key);
  }

  /** Flushing the oldest frozen memtable to L0 keeps the answer to a key exactly when the key is not
      one whose empty value that memtable shows: writing an SST turns an empty value into a
      tombstone. */
  lemma FlushMemtableReads(db: Db, id: nat, key: bytes)
    requires db.immMemtables != []
    ensures var db' := db.MoveToL0(Sst(id, Persist(db.OldestMemtable().rows)));
            && (db'.GetCommitted(key) == db.GetCommitted(key) <==> !ShowsEmpty(db, NewerMemtables(db), key))
            && (db'.GetUncommitted(key) == db.GetUncommitted(key)
                <==> !ShowsEmpty(db, [db.wal] + WalRows(db.immWals) + NewerMemtables(db), key))
  {
    hide Search, Persist, NewerMemtables, OlderTiers, WalRows, Db.CommittedTiers, Db.UncommittedTiers, Db.MoveToL0;
    var t := db.OldestMemtable().rows;
    TiersOfOldest(db);
    MovedTiers(db, Sst(id, Persist(t)));
    PersistedTier(NewerMemtables(db), t, OlderTiers(db), key);
    PersistedTier([db.wal] + WalRows(db.immWals) + NewerMemtables(db), t, OlderTiers(db), key);
  }

  ghost function OlderTiers(db: Db): seq<Table> {
    SstRows(db.core.l0) + RunRows(db.core.compacted)
  }

  lemma TiersOfOldest(db: Db)
    requires db.immMemtables != []
    ensures var t := db.OldestMemtable().rows;
            && db.CommittedTiers() == NewerMemtables(db) + [t] + OlderTiers(db)
            && db.UncommittedTiers() == [db.wal] + WalRows(db.immWals) + NewerMemtables(db) + [t] + OlderTiers(db)
  {
    hide WalRows, SstRows, RunRows;
    var n := |db.immMemtables| - 1;
    assert MemtableRows(db.immMemtables) == MemtableRows(db.immMemtables[..n]) + [db.immMemtables[n].rows];
  }

  lemma MovedTiers(db: Db, sst: Sst)
    requires db.immMemtables != []
    ensures var db' := db.MoveToL0(sst);
            && db'.CommittedTiers() == NewerMemtables(db) + [sst.rows] + OlderTiers(db)
            && db'.UncommittedTiers()
               == [db.wal] + WalRows(db.immWals) + NewerMemtables(db) + [sst.rows] + OlderTiers(db)
  {
    hide WalRows, RunRows, MemtableRows;
    assert SstRows([sst] + db.core.l0) == [sst.rows] + SstRows(db.core.l0);
  }

  // ---------------------------------------------------------------- every background step

  /** The step uploads the oldest frozen memtable. */
  ghost predicate FlushesMemtable(s: System, a: Action)
    requires s.writer.Some?
  {
    a.FlushMemtable? && s.writer.value.db.immMemtables != [] && a.sstId !in s.ids
  }

  /** In every run, with a writer up, a background step of either process leaves the Uncommitted answer to
      a key as it is, except when it flushes a memtable that shows an empty value of the key. So it is
      with the Committed answer, where the flush of a WAL, which makes writes durable, is set aside. */
  lemma BackgroundKeepsReads(run: seq<Action>, a: Action, key: bytes)
    requires Exec(run).sys.writer.Some?
    requires !a.WriteKey? && !a.CrashWriter?
    ensures var s := Exec(run).sys; var s' := Step(s, a);
            && s'.writer.Some?
            && var db, db' := s.writer.value.db, s'.writer.value.db;
            && (db'.GetUncommitted(key) == db.GetUncommitted(key)
                <==> !(FlushesMemtable(s, a)
                       && ShowsEmpty(db, [db.wal] + WalRows(db.immWals) + NewerMemtables(db), key)))
            && (!a.FlushWal? ==>
                  (db'.GetCommitted(key) == db.GetCommitted(key)
                   <==> !(FlushesMemtable(s, a) && ShowsEmpty(db, NewerMemtables(db), key))))
  {
    hide Exec, ShowsEmpty, NewerMemtables, WalRows, Db.GetCommitted, Db.GetUncommitted, Persist, StepCompactor, Open,
         RefreshClient, UpdateDbState;
    if a.FlushMemtable? {
      var s := Exec(run).sys;
      if FlushesMemtable(s, a) {
        FlushMemtableReads(s.writer.value.db, a.sstId, key);
      }
    } else {
      OtherStepsKeepReads(run, a, key);
    }
  }

  // ---------------------------------------------------------------- two runs that fall short

  ghost function NeverFull(): Table -> bool {
    (t: Table) => false
  }

  const FirstManifest := Manifest(NewCore, 0, 0)

  ghost function OpenedState(): State {
    var m := FirstManifest.Bump(WriterKind);
    State(System(map[1 := FirstManifest, 2 := m], map[], {},
                 Some(WriterProcess(NewDb(NewCore), Live(WriterKind, 1, 2, m))), None), NoHistory)
  }

  lemma OpenedRun(full: Table -> bool)
    ensures Exec([CreateDb, OpenWriter(full)]) == OpenedState()
  {
    ExecNext([], CreateDb);
    assert [] + [CreateDb] == [CreateDb];
    assert [CreateDb, OpenWriter(full)] == [CreateDb] + [OpenWriter(full)];
    ExecNext([CreateDb], OpenWriter(full));
    var s := Exec([CreateDb]).sys;
    assert s.files == map[1 := FirstManifest] && |s.files| == 1;
    FenceOutcome(s.files, WriterKind);
    assert IdsBetween(s.wals, 0, 0) == [];
    assert Recover(NewCore, s.wals, full) == (NewDb(NewCore), true);
  }

  ghost function WriteThenFreeze(key: bytes, value: Value): seq<Action> {
    [CreateDb, OpenWriter(NeverFull()), WriteKey(key, value), Action.FreezeWal]
  }

  lemma WriteThenFreezeRun(key: bytes, value: Value)
    requires key != []
    ensures Exec(WriteThenFreeze(key, value)).sys
         == OpenedState().sys.(writer := Some(OpenedState().sys.writer.value.(
              db := NewDb(NewCore).Write(key, value).FreezeWal())))
  {
    var start := [CreateDb, OpenWriter(NeverFull())];
    OpenedRun(NeverFull());
    ExecNext(start, WriteKey(key, value));
    assert WriteThenFreeze(key, value) == start + [WriteKey(key, value)] + [Action.FreezeWal];
    ExecNext(start + [WriteKey(key, value)], Action.FreezeWal);
  }

  /** The exact condition of CrashRecovery can fail. Freeze a WAL, write a manifest version before the
      WAL is uploaded, and crash: the database cannot be opened again. */
  lemma ManifestAheadOfWals(key: bytes, value: Value, full: Table -> bool)
    requires key != []
    ensures Exec(WriteThenFreeze(key, value) + [WriterWrite, CrashWriter, OpenWriter(full)]).sys.writer == None
  {
    hide Exec, Layers, TableOf, WalFold, Persist;
    var run := WriteThenFreeze(key, value) + [WriterWrite];
    WriteThenFreezeRun(key, value);
    ExecNext(WriteThenFreeze(key, value), WriterWrite);
    var s := Exec(WriteThenFreeze(key, value)).sys;
    assert |s.files| == 2 && 3 !in s.files;
    assert |Exec(run).sys.files| == 3 && Exec(run).sys.wals == map[];
    CrashRecovery(run, full);
    assert WriteThenFreeze(key, value) + [WriterWrite, CrashWriter, OpenWriter(full)]
        == run + [CrashWriter, OpenWriter(full)];
  }

  ghost function EmptyValueFrozen(key: bytes): Db {
    NewDb(NewCore).Write(key, Present([])).FreezeWal()
  }

  lemma EmptyValueDb(key: bytes, sstId: nat)
    ensures EmptyValueFrozen(key).immWals != []
    ensures var flushed := EmptyValueFrozen(key).FlushOldestWal(NeverFull());
            && flushed.memtable.lastWal == Some(1)
            && var db := flushed.FreezeMemtable(1);
               && db.immMemtables != [] && db.GetCommitted(key) == Found([])
               && db.MoveToL0(Sst(sstId, Persist(db.OldestMemtable().rows))).GetCommitted(key) == KeyNotFound
  {
    var table: Table := map[key := Present([])];
    assert key in table;
    var flushed := EmptyValueFrozen(key).FlushOldestWal(NeverFull());
    assert flushed.memtable == Memtable(table, Some(1)) by {
      assert map[][key := Present([])] == table && map[] + table == table;
    }
    var db := flushed.FreezeMemtable(1);
    var db' := db.MoveToL0(Sst(sstId, Persist(table)));
    var lost: Table := map[key := Tombstone];
    assert Persist(table) == lost;
    assert db.CommittedTiers() == [map[], table];
    assert db'.CommittedTiers() == [map[], lost];
    assert [map[], table][1..] == [table] && [map[], lost][1..] == [lost];
    assert Search([table], key) == Some(Present([])) && Search([lost], key) == Some(Tombstone);
  }

  /** An empty value is readable until its memtable is flushed to L0, and missing afterwards. */
  lemma EmptyValueIsLost(key: bytes, sstId: nat)
    requires key != []
    ensures var run := WriteThenFreeze(key, Present([])) + [FlushWal(NeverFull()), Action.FreezeMemtable];
            && Exec(run).sys.writer.Some? && Exec(run + [FlushMemtable(sstId)]).sys.writer.Some?
            && Exec(run).sys.writer.value.db.GetCommitted(key) == Found([])
            && Exec(run + [FlushMemtable(sstId)]).sys.writer.value.db.GetCommitted(key) == KeyNotFound
  {
    hide Exec, Persist, Db.GetCommitted, Db.FlushOldestWal, Db.FreezeMemtable, Db.MoveToL0, WriteThenFreeze;
    var start := WriteThenFreeze(key, Present([]));
    var run := start + [FlushWal(NeverFull()), Action.FreezeMemtable];
    WriteThenFreezeRun(key, Present([]));
    ExecNext(start, FlushWal(NeverFull()));
    assert run == start + [FlushWal(NeverFull())] + [Action.FreezeMemtable];
    ExecNext(start + [FlushWal(NeverFull())], Action.FreezeMemtable);
    ExecNext(run, FlushMemtable(sstId));
    EmptyValueDb(key, sstId);
  }

  lemma EmptyValueFlushed(key: bytes)
    requires key != []
    ensures var st := Exec(WriteThenFreeze(key, Present([])) + [FlushWal(NeverFull())]);
            && st.sys.writer.Some? && st.sys.writer.value.db.GetCommitted(key) == Found([])
            && st.sys.wals == map[1 := map[key := Tombstone]]
            && st.sys.files == OpenedState().sys.files
  {
    hide Exec, WriteThenFreeze;
    var start := WriteThenFreeze(key, Present([]));
    WriteThenFreezeRun(key, Present([]));
    ExecNext(start, FlushWal(NeverFull()));
    var table: Table := map[key := Present([])];
    assert map[][key := Present([])] == table && map[] + table == table;
    var db := Exec(start + [FlushWal(NeverFull())]).sys.writer.value.db;
    assert db.memtable.rows == table && db.CommittedTiers() == [table];
    assert key in table;
    assert Search([table], key) == Some(Present([]));
    assert Persist(table) == map[key := Tombstone];
  }

  /** An empty value is readable after its WAL is uploaded, and missing after a crash: the replay reads
      it from an SST. No memtable is flushed. */
  lemma EmptyValueLostInCrash(key: bytes, full: Table -> bool)
    requires key != []
    ensures var run := WriteThenFreeze(key, Present([])) + [FlushWal(NeverFull())];
            var reopened := run + [CrashWriter, OpenWriter(full)];
            && Exec(run).sys.writer.Some? && Exec(reopened).sys.writer.Some?
            && Exec(run).sys.writer.value.db.GetCommitted(key) == Found([])
            && Exec(reopened).sys.writer.value.db.GetCommitted(key) == KeyNotFound
  {
    hide Exec, WriteThenFreeze, Layers, TableOf, Persist, Search, Db.CommittedTiers;
    var run := WriteThenFreeze(key, Present([])) + [FlushWal(NeverFull())];
    EmptyValueFlushed(key);
    var s := Exec(run).sys;
    assert |s.files| == 2 && |s.wals| == 1;
    CrashRecovery(run, full);
    var lost: Table := map[key := Tombstone];
    assert WalFold(s.wals, 1) == WalFold(s.wals, 0) + s.wals[1] == map[] + lost == lost;
    SearchIsLookup(Exec(run + [CrashWriter, OpenWriter(full)]).sys.writer.value.db.CommittedTiers(), key);
    assert key in lost;
  }
}
