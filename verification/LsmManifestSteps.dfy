/** Manifest reads and writes, the recovery of a writer and the compactor's actions keep the
    invariant. */
module LsmManifestSteps {
  import opened Tables
  import opened Manifests
  import opened WriterState
  import opened CompactorStates
  import opened Lsm
  import opened LsmFacts
  import opened LsmInvariant
  import opened LsmWriterSteps

  // ---------------------------------------------------------------- versions

  lemma AppendVersion(files: Files, m: Manifest)
    requires FilesOk(files)
    ensures |files| + 1 !in files && MaxKey(files) == |files|
    ensures FilesOk(files[|files| + 1 := m]) && |files[|files| + 1 := m]| == |files| + 1
    ensures Latest(files[|files| + 1 := m]) == m
  {
    MaxKeyIsCount(files);
  }

  lemma ClientKeepsVersion(files: Files, c: Client, kind: Kind, m: Manifest)
    requires FilesOk(files) && ClientOk(files, c, kind) && m.Epoch(kind) == Latest(files).Epoch(kind)
    ensures FilesOk(files[|files| + 1 := m]) && ClientOk(files[|files| + 1 := m], c, kind)
    ensures c.id <= |files|
  {
    AppendVersion(files, m);
  }

  /** A client can write exactly when it holds the latest version; it is never found fenced here. */
  lemma UpdateOutcome(files: Files, c: Client, kind: Kind, core: Core)
    requires FilesOk(files) && ClientOk(files, c, kind)
    ensures var r := UpdateDbState(files, c, core); var m := Latest(files).(core := core);
            if c.id == |files|
            then r == Result(files[|files| + 1 := m], c.(id := |files| + 1, manifest := m), Ok)
                 && FilesOk(r.files) && ClientOk(r.files, r.client, kind)
            else r == Result(files, c, VersionExists)
  {
    AppendVersion(files, Latest(files).(core := core));
    assert c.id + 1 in files <==> 1 <= c.id + 1 <= |files|;
  }

  lemma RefreshOutcome(files: Files, c: Client, kind: Kind)
    requires FilesOk(files) && ClientOk(files, c, kind)
    ensures RefreshClient(files, c) == Result(files, c.(id := |files|, manifest := Latest(files)), Ok)
    ensures ClientOk(files, RefreshClient(files, c).client, kind)
  {
    MaxKeyIsCount(files);
  }

  lemma FenceOutcome(files: Files, kind: Kind)
    requires FilesOk(files)
    ensures files != map[] && MaxKey(files) == |files|
    ensures var m := Latest(files).Bump(kind);
            var r := Fence(files, Loaded(|files|, Latest(files)), kind);
            && r == Result(files[|files| + 1 := m], Live(kind, m.Epoch(kind), |files| + 1, m), Ok)
            && FilesOk(r.files) && |r.files| == |files| + 1 && Latest(r.files) == m
            && ClientOk(r.files, r.client, kind)
  {
    AppendVersion(files, Latest(files).Bump(kind));
  }

  // ---------------------------------------------------------------- the writer and the manifest

  lemma RefreshKeepsCore(core: Core, read: Core, all: seq<Sst>, marks: seq<nat>, ids: set<nat>, lo: nat, lo': nat,
                         hi: nat)
    requires CoreOk(core, all, marks, ids, lo, |all|) && CoreOk(read, all, marks, ids, lo', hi)
    requires lo <= lo' && Distinct(all)
    ensures CoreOk(core.(l0LastCompacted := read.l0LastCompacted, l0 := Cut(core.l0, read.l0LastCompacted),
                         compacted := read.compacted), all, marks, ids, lo', |all|)
  {
    hide RunsOk, Distinct;
    CutRange(all, lo, lo', |all|);
  }

  lemma WriterLoadKeeps(s: System, h: History, x: Trace)
    requires Created(s, h, x) && s.writer.Some?
    ensures Created(Step(s, WriterLoad), h, x.(writerLo := x.manifestLo))
  {
    hide WalsOk, CoreOk, ClientOk, Consecutive, QueueOk, MemtablesOk, CompactorOk, Fold, Layers, Distinct;
    var w := s.writer.value;
    assert w.client.Live? by { ClientLive(s.files, w.client, WriterKind); }
    RefreshOutcome(s.files, w.client, WriterKind);
    RefreshKeepsCore(w.db.core, Latest(s.files).core, x.all, x.marks, s.ids, x.writerLo, x.manifestLo, x.manifestHi);
    if s.compactor.Some? {
      CompactorIgnoresWriter(s.compactor.value, s.files, s.ids, x, x.(writerLo := x.manifestLo));
    }
  }

  lemma ClientLive(files: Files, c: Client, kind: Kind)
    requires |files| in files && ClientOk(files, c, kind)
    ensures c.Live? && c.id in files
  {}

  lemma CompactorIgnoresWriter(c: CompactorProcess, files: Files, ids: set<nat>, x: Trace, x': Trace)
    requires |files| in files && CompactorOk(c, files, ids, x) && x' == x.(writerLo := x'.writerLo)
    ensures CompactorOk(c, files, ids, x')
  {}

  /** A version written by the writer, seen by the compactor. */
  lemma CompactorKeepsWrite(c: CompactorProcess, files: Files, ids: set<nat>, x: Trace, m: Manifest)
    requires FilesOk(files) && CompactorOk(c, files, ids, x)
    requires m.Epoch(CompactorKind) == Latest(files).Epoch(CompactorKind)
    ensures x.manifestHi <= |x.all| ==>
              && FilesOk(files[|files| + 1 := m])
              && CompactorOk(c, files[|files| + 1 := m], ids, x.(manifestHi := |x.all|))
    ensures FilesOk(files[|files| + 1 := m]) && CompactorOk(c, files[|files| + 1 := m], ids, x)
  {
    hide CoreOk, InFlightOk, Consecutive;
    AppendVersion(files, m);
    ClientKeepsVersion(files, c.client, CompactorKind, m);
    assert CoreOk(c.state.core, x.all, x.marks, ids, x.compactorLo, x.compactorHi);
    CoreBounds(c.state.core, x.all, x.marks, ids, x.compactorLo, x.compactorHi);
  }

  lemma WriterWriteKeeps(s: System, h: History, x: Trace)
    requires Created(s, h, x) && s.writer.Some?
    ensures var x' := if s.writer.value.client.id == |s.files| then x.(manifestHi := |x.all|) else x;
            Created(Step(s, WriterWrite), h, x')
  {
    hide WalsOk, FlushedOk, CoreOk, ClientOk, Consecutive, DbOk, CompactorOk;
    var w := s.writer.value;
    ClientLive(s.files, w.client, WriterKind);
    UpdateOutcome(s.files, w.client, WriterKind, w.db.core);
    if w.client.id == |s.files| {
      var m := Latest(s.files).(core := w.db.core);
      AppendVersion(s.files, m);
      CoreBounds(Latest(s.files).core, x.all, x.marks, s.ids, x.manifestLo, x.manifestHi);
      if s.compactor.Some? {
        CompactorKeepsWrite(s.compactor.value, s.files, s.ids, x, m);
      }
    }
  }

  // ---------------------------------------------------------------- recovery

  /** What the replay has rebuilt after the WALs up to m; `stored` are their groups as SSTs keep them. */
  ghost predicate Replayed(db: Db, core: Core, stored: seq<seq<Entry>>, m: nat)
    requires m <= |stored|
  {
    && db.wal == map[] && db.immWals == []
    && db.memtable.lastWal.None?
    && db.core == core.(nextWal := if core.nextWal <= m then m + 1 else core.nextWal)
    && MemtablesOk(db.memtable, db.immMemtables, stored[..m], core.lastCompactedWal)
  }

  lemma ReplayedStart(core: Core, stored: seq<seq<Entry>>)
    requires core.lastCompactedWal <= |stored| && core.lastCompactedWal < core.nextWal
    ensures Replayed(NewDb(core), core, stored, core.lastCompactedWal)
  {
    CoversNothing(stored[..core.lastCompactedWal]);
  }

  lemma PersistEmpty()
    ensures Persist(map[]) == map[]
  {}

  lemma ReplayedNext(db: Db, core: Core, stored: seq<seq<Entry>>, m: nat, full: Table -> bool)
    requires core.lastCompactedWal <= m < |stored| && core.lastCompactedWal < core.nextWal
    requires Replayed(db, core, stored, m)
    ensures Replayed(db.ReplayOne(m + 1, TableOf(stored[m]), full), core, stored, m + 1)
  {
    hide MemtablesOk, TableOf;
    var rows := TableOf(stored[m]);
    var applied := db.(memtable := db.memtable.(rows := db.memtable.rows + rows));
    assert stored[..m + 1] == stored[..m] + [stored[m]];
    FlushKeepsMemtables(db.memtable, db.immMemtables, stored[..m], core.lastCompactedWal, stored[m], rows, None);
    FreezeKeepsMemtables(applied.memtable, applied.immMemtables, stored[..m + 1], core.lastCompactedWal);
  }

  /** The stored WALs are these groups. */
  ghost predicate WalsHold(wals: map<nat, Table>, stored: seq<seq<Entry>>) {
    && (forall i :: i in wals <==> 1 <= i <= |stored|)
    && (forall i :: 1 <= i <= |stored| ==> wals[i] == TableOf(stored[i - 1]))
  }

  lemma WalHeld(wals: map<nat, Table>, stored: seq<seq<Entry>>, i: nat)
    requires WalsHold(wals, stored) && 1 <= i <= |stored|
    ensures i in wals && wals[i] == TableOf(stored[i - 1])
  {}

  lemma {:induction false} ReplayIsReplayed(
    core: Core, wals: map<nat, Table>, stored: seq<seq<Entry>>, m: nat, full: Table -> bool)
    requires WalsHold(wals, stored)
    requires core.lastCompactedWal <= m <= |stored| && core.lastCompactedWal < core.nextWal
    ensures var ids := IdsBetween(wals, core.lastCompactedWal, m);
            && Replayed(NewDb(core).Replay(ids, wals, full), core, stored, m)
            && NewDb(core).LastReplayed(ids) == m
    decreases m
  {
    hide Replayed, TableOf, WalsHold, Db.ReplayOne;
    var lo := core.lastCompactedWal;
    if m == lo {
      ReplayedStart(core, stored);
    } else {
      ReplayIsReplayed(core, wals, stored, m - 1, full);
      var front := IdsBetween(wals, lo, m - 1);
      WalHeld(wals, stored, m);
      assert IdsBetween(wals, lo, m) == front + [m];
      assert (front + [m])[..|front|] == front;
      ReplayedNext(NewDb(core).Replay(front, wals, full), core, stored, m - 1, full);
    }
  }

  /** Replay rebuilds the writes above the manifest's last compacted WAL. Its closing assertion holds
      exactly when the manifest does not count a WAL that was never uploaded. */
  lemma RecoverOutcome(core: Core, wals: map<nat, Table>, flushed: seq<seq<Entry>>, full: Table -> bool)
    requires WalsOk(wals, flushed)
    requires core.lastCompactedWal <= |flushed| && core.lastCompactedWal < core.nextWal
    ensures var (db, ok) := Recover(core, wals, full);
            && |Kept(flushed, |flushed|)| == |flushed|
            && Replayed(db, core, Kept(flushed, |flushed|), |flushed|)
            && (ok <==> core.nextWal <= |flushed| + 1)
  {
    hide MemtablesOk, Persist, TableOf;
    if wals == map[] {
      assert |flushed| !in wals;
    } else {
      assert |flushed| in wals;
      assert MaxKey(wals) == |flushed|;
    }
    var stored := Kept(flushed, |flushed|);
    forall i | 1 <= i <= |flushed| ensures wals[i] == TableOf(stored[i - 1]) {
      StoredTable(flushed[i - 1]);
    }
    ReplayIsReplayed(core, wals, stored, |flushed|, full);
  }

  lemma ReplayedIsOk(db: Db, core: Core, flushed: seq<seq<Entry>>)
    requires |Kept(flushed, |flushed|)| == |flushed|
    requires Replayed(db, core, Kept(flushed, |flushed|), |flushed|) && core.nextWal <= |flushed| + 1
    ensures DbOk(db, History(flushed, [], [], |flushed|))
  {
    hide MemtablesOk;
    var stored := Kept(flushed, |flushed|);
    assert stored[..|flushed|] == stored;
  }

  lemma MarkBounds(all: seq<Sst>, marks: seq<nat>, flushed: seq<seq<Entry>>, ids: set<nat>, i: nat)
    requires FlushedOk(all, marks, flushed, ids) && i <= |all|
    ensures marks[i] <= |flushed|
  {
    assert MarkOk(all, i, marks[i], flushed);
  }

  lemma CoreWithNextWal(core: Core, all: seq<Sst>, marks: seq<nat>, ids: set<nat>, lo: nat, hi: nat, n: nat)
    requires CoreOk(core, all, marks, ids, lo, hi) && core.lastCompactedWal < n
    ensures CoreOk(core.(nextWal := n), all, marks, ids, lo, hi)
  {}

  lemma OpenKeeps(s: System, h: History, x: Trace, full: Table -> bool)
    requires Created(s, h, x) && s.writer.None?
    ensures Created(Step(s, OpenWriter(full)), h.(recovered := |h.flushed|), x.(writerLo := x.manifestLo))
  {
    hide WalsOk, FlushedOk, CoreOk, ClientOk, Consecutive, DbOk, CompactorOk, Replayed;
    FenceOutcome(s.files, WriterKind);
    var core := Latest(s.files).core;
    var m := Latest(s.files).Bump(WriterKind);
    CoreBounds(core, x.all, x.marks, s.ids, x.manifestLo, x.manifestHi);
    MarkBounds(x.all, x.marks, h.flushed, s.ids, x.manifestHi);
    RecoverOutcome(core, s.wals, h.flushed, full);
    var (db, ok) := Recover(core, s.wals, full);
    if ok {
      ReplayedIsOk(db, core, h.flushed);
      ReplayedCore(db, core, Kept(h.flushed, |h.flushed|));
      CoreWithNextWal(core, x.all, x.marks, s.ids, x.manifestLo, x.manifestHi, db.core.nextWal);
    }
    if s.compactor.Some? {
      CompactorKeepsWrite(s.compactor.value, s.files, s.ids, x, m);
      CompactorIgnoresWriter(s.compactor.value, s.files[|s.files| + 1 := m], s.ids, x, x.(writerLo := x.manifestLo));
    }
  }

  lemma ReplayedCore(db: Db, core: Core, flushed: seq<seq<Entry>>)
    requires Replayed(db, core, flushed, |flushed|) && core.lastCompactedWal < core.nextWal
    ensures db.core == core.(nextWal := db.core.nextWal) && core.lastCompactedWal < db.core.nextWal
  {}
}
