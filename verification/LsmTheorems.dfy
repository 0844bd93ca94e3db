/** What every run of the database guarantees. */
module LsmTheorems {
  import opened Tables
  import opened Manifests
  import opened WriterState
  import opened CompactorStates
  import opened Lsm
  import opened LsmFacts
  import opened LsmInvariant
  import opened LsmWriterSteps
  import opened LsmManifestSteps
  import opened LsmCompactorSteps

  // ---------------------------------------------------------------- the invariant holds in every run

  lemma CreateKeeps()
    ensures Created(Step(EmptySystem, CreateDb), NoHistory, Trace([], [0], 0, 0, 0, 0, 0, 0))
  {
    hide Persist;
    var files: Files := map[1 := Manifest(NewCore, 0, 0)];
    assert Step(EmptySystem, CreateDb).files == files && |files| == 1;
    assert MarkOk([], 0, 0, []) by {
      PersistEmpty();
    }
    assert RunSsts([]) == [] && RunRows([]) == [] && SstRows([]) == [];
  }

  lemma StepKeepsInv(s: System, h: History, x: Trace, a: Action) returns (x': Trace)
    requires Inv(s, h, x)
    ensures Inv(Step(s, a), StepHistory(h, a, s.writer.Some?), x')
  {
    hide Created, Open, StepWriter, StepCompactor;
    x' := x;
    if NotCreated(s, h) {
      if a.CreateDb? {
        CreateKeeps();
        x' := Trace([], [0], 0, 0, 0, 0, 0, 0);
      }
    } else if IsCompactorAction(a) || a.StartCompactor? {
      x' := CompactorStepKeeps(s, h, x, a);
    } else {
      x' := WriterStepKeeps(s, h, x, a);
    }
  }

  lemma CompactorStepKeeps(s: System, h: History, x: Trace, a: Action) returns (x': Trace)
    requires Created(s, h, x) && (IsCompactorAction(a) || a.StartCompactor?)
    ensures Created(Step(s, a), h, x')
  {
    hide WalsOk, FlushedOk, CoreOk, Consecutive, DbOk, WriterOk, CompactorOk, StepCompactor;
    x' := x;
    if s.compactor.None? {
      if a.StartCompactor? {
        StartCompactorKeeps(s, h, x);
        x' := x.(compactorLo := x.manifestLo, compactorHi := x.manifestHi);
      }
    } else {
      match a
      case CrashCompactor => CrashCompactorKeeps(s, h, x);
      case CompactorLoad =>
        CompactorLoadKeeps(s, h, x);
        x' := x.(compactorHi := x.manifestHi);
      case CompactorSchedule =>
        ScheduleKeeps(s, h, x);
        x' := if |s.compactor.value.state.core.l0| >= 4 && s.compactor.value.state.compactions == map[]
              then x.(end := x.compactorHi) else x;
      case CompactorFinish(d, ssts) =>
        CompactorFinishKeeps(s, h, x, d, ssts);
        x' := if Step(s, a) != s && Step(s, a).compactor.Some? then x.(compactorLo := x.end) else x;
      case CompactorWrite =>
        CompactorWriteKeeps(s, h, x);
        x' := if s.compactor.value.client.id == |s.files| then x.(manifestLo := x.compactorLo) else x;
      case _ =>
    }
  }

  lemma CrashCompactorKeeps(s: System, h: History, x: Trace)
    requires Created(s, h, x) && s.compactor.Some?
    ensures Created(Step(s, CrashCompactor), h, x)
  {
    hide WalsOk, FlushedOk, CoreOk, Consecutive, DbOk, WriterOk, CompactorOk;
  }

  lemma WriterStepKeeps(s: System, h: History, x: Trace, a: Action) returns (x': Trace)
    requires Created(s, h, x) && !(IsCompactorAction(a) || a.StartCompactor?)
    ensures Created(Step(s, a), StepHistory(h, a, s.writer.Some?), x')
  {
    hide WalsOk, FlushedOk, CoreOk, Consecutive, DbOk, WriterOk, CompactorOk, Open;
    x' := x;
    if s.writer.None? {
      if a.OpenWriter? {
        OpenKeeps(s, h, x, a.full);
        x' := x.(writerLo := x.manifestLo);
      }
    } else {
      match a
      case WriterLoad =>
        WriterLoadKeeps(s, h, x);
        x' := x.(writerLo := x.manifestLo);
      case WriterWrite =>
        WriterWriteKeeps(s, h, x);
        x' := if s.writer.value.client.id == |s.files| then x.(manifestHi := |x.all|) else x;
      case CrashWriter =>
        CrashWriterKeeps(s, h, x);
        x' := x.(all := Range(x.all, 0, x.manifestHi), marks := x.marks[..x.manifestHi + 1]);
      case FlushMemtable(id) =>
        if s.writer.value.db.immMemtables != [] && id !in s.ids {
          FlushMemtableKeeps(s, h, x, id);
          var oldest := s.writer.value.db.OldestMemtable();
          x' := x.(all := [Sst(id, Persist(oldest.rows))] + x.all, marks := x.marks + [oldest.lastWal]);
        }
      case CreateDb =>
      case OpenWriter(_) =>
      case _ => LocalActionKeeps(s, h, x, a);
    }
  }

  lemma {:induction false} RunKeepsInv(run: seq<Action>) returns (x: Trace)
    ensures Inv(Exec(run).sys, Exec(run).history, x)
  {
    hide Inv, Step, StepHistory;
    if run == [] {
      x := Trace([], [0], 0, 0, 0, 0, 0, 0);
      EmptyInv(x);
    } else {
      var n := |run| - 1;
      var before := RunKeepsInv(run[..n]);
      x := StepKeepsInv(Exec(run[..n]).sys, Exec(run[..n]).history, before, run[n]);
    }
  }

  lemma EmptyInv(x: Trace)
    ensures Inv(EmptySystem, NoHistory, x)
  {}

  // ---------------------------------------------------------------- reads

  /** What a read of `key` answers after the writes `ws`, the first `n` of which have been through an SST:
      the latest write to the key, as it is kept. */
  ghost predicate Answers(answer: Answer, ws: seq<Entry>, n: nat, key: bytes) {
    && ((forall i :: 0 <= i < |ws| ==> ws[i].key != key) ==> answer == KeyNotFound)
    && forall i: nat :: IsLatest(ws, i) && ws[i].key == key ==>
         answer == CheckValue(Some(if i < n then Stored(ws[i].value) else ws[i].value))
  }

  /** What the latest write to the key says. */
  ghost function LatestAnswer(ws: seq<Entry>, key: bytes): Answer {
    CheckValue(Lookup(TableOf(ws), key))
  }

  /** The latest write to the key is an empty value, and it has been through an SST. */
  ghost predicate EmptyInSst(ws: seq<Entry>, n: nat, key: bytes) {
    exists i: nat :: i < n && IsLatest(ws, i) && ws[i] == Entry(key, Present([]))
  }

  /** The latest write decides both what was written last and what is kept of it. */
  lemma LookupLatest(a: seq<Entry>, b: seq<Entry>, i: nat)
    requires IsLatest(a + b, i)
    ensures var e := (a + b)[i];
            && Lookup(TableOf(a + b), e.key) == Some(e.value)
            && Lookup(Persist(TableOf(a)) + TableOf(b), e.key) == Some(if i < |a| then Stored(e.value) else e.value)
  {
    hide TableOf, Persist, StoredAll, Lookup;
    StoredTable(a);
    TableOfConcat(StoredAll(a), b);
    StoredKeepsLatest(a, b, i);
    LatestWriteIsHeld(StoredAll(a) + b, i);
    LatestWriteIsHeld(a + b, i);
  }

  lemma StoredKeepsLatest(a: seq<Entry>, b: seq<Entry>, i: nat)
    requires IsLatest(a + b, i)
    ensures IsLatest(StoredAll(a) + b, i)
    ensures var e := (a + b)[i];
            (StoredAll(a) + b)[i] == Entry(e.key, if i < |a| then Stored(e.value) else e.value)
  {
    assert forall j :: 0 <= j < |a + b| ==> (StoredAll(a) + b)[j].key == (a + b)[j].key;
  }

  lemma LookupUnwritten(a: seq<Entry>, b: seq<Entry>, key: bytes)
    requires key !in TableOf(a + b)
    ensures key !in Persist(TableOf(a)) + TableOf(b)
    ensures forall i: nat :: IsLatest(a + b, i) ==> (a + b)[i].key != key
  {
    hide TableOf;
    TableOfConcat(a, b);
    forall i: nat | IsLatest(a + b, i) ensures (a + b)[i].key != key {
      LatestWriteIsHeld(a + b, i);
    }
  }

  lemma OneLatest(ws: seq<Entry>, i: nat, key: bytes)
    requires IsLatest(ws, i) && ws[i].key == key
    ensures forall j: nat :: IsLatest(ws, j) && ws[j].key == key ==> j == i
  {}

  lemma SplitAnswers(tiers: seq<Table>, a: seq<Entry>, b: seq<Entry>, key: bytes)
    requires Layers(tiers) == Persist(TableOf(a)) + TableOf(b)
    ensures var answer := CheckValue(Search(tiers, key));
            && Answers(answer, a + b, |a|, key)
            && (answer == LatestAnswer(a + b, key) <==> !EmptyInSst(a + b, |a|, key))
  {
    hide TableOf, Layers, Search, Persist, IsLatest;
    SearchIsLookup(tiers, key);
    if key in TableOf(a + b) {
      var i := HeldIsLatestWrite(a + b, key);
      LookupLatest(a, b, i);
      OneLatest(a + b, i, key);
    } else {
      LookupUnwritten(a, b, key);
    }
  }

  lemma {:induction false} FrozenMemtablesCover(imms: seq<ImmMemtable>, flushed: seq<seq<Entry>>, lo: nat)
    requires lo <= |flushed|
    requires forall i :: 0 <= i < |imms| ==> Covers(imms[i].rows, flushed, Below(imms, i, lo), imms[i].lastWal)
    ensures Covers(Layers(MemtableRows(imms)), flushed, lo, Below(imms, -1, lo))
  {
    hide Fold;
    if imms == [] {
      FoldEmpty(flushed, lo);
    } else {
      var rest := imms[1..];
      forall i | -1 <= i < |rest| ensures Below(rest, i, lo) == Below(imms, i + 1, lo) {}
      FrozenMemtablesCover(rest, flushed, lo);
      assert MemtableRows(imms) == [imms[0].rows] + MemtableRows(rest);
      LayersCons(imms[0].rows, MemtableRows(rest));
      assert Covers(imms[0].rows, flushed, Below(imms, 0, lo), imms[0].lastWal);
      CoversJoin(Layers(MemtableRows(rest)), imms[0].rows, flushed, lo, Below(rest, -1, lo), imms[0].lastWal);
    }
  }

  lemma CoversJoin(older: Table, newer: Table, flushed: seq<seq<Entry>>, lo: nat, mid: nat, hi: nat)
    requires Covers(older, flushed, lo, mid) && Covers(newer, flushed, mid, hi)
    ensures Covers(older + newer, flushed, lo, hi)
  {
    FoldSplit(flushed, lo, mid, hi);
  }

  /** L0 and the runs together hold the writes up to the last compacted WAL, as SSTs keep them. */
  lemma SstsHold(core: Core, all: seq<Sst>, marks: seq<nat>, flushed: seq<seq<Entry>>, ids: set<nat>, lo: nat, hi: nat)
    requires CoreOk(core, all, marks, ids, lo, hi) && FlushedOk(all, marks, flushed, ids)
    ensures core.lastCompactedWal <= |flushed|
    ensures Layers(SstRows(core.l0) + RunRows(core.compacted)) == Persist(Fold(flushed, 0, core.lastCompactedWal))
  {
    hide Layers, Fold, Persist, Descending, RunSsts;
    LayersConcat(SstRows(core.l0), RunRows(core.compacted));
    RangeRows(all, 0, lo, hi);
    assert MarkOk(all, hi, marks[hi], flushed);
  }

  lemma CommittedSplit(db: Db)
    ensures Layers(db.CommittedTiers())
         == Layers(SstRows(db.core.l0) + RunRows(db.core.compacted))
            + (Layers(MemtableRows(db.immMemtables)) + db.memtable.rows)
  {
    hide Layers;
    var imms, ssts := MemtableRows(db.immMemtables), SstRows(db.core.l0) + RunRows(db.core.compacted);
    assert db.CommittedTiers() == [db.memtable.rows] + (imms + ssts);
    LayersCons(db.memtable.rows, imms + ssts);
    LayersConcat(imms, ssts);
  }

  lemma MemtablesCover(memtable: Memtable, imms: seq<ImmMemtable>, flushed: seq<seq<Entry>>, lo: nat)
    requires MemtablesOk(memtable, imms, flushed, lo) && lo <= |flushed|
    ensures Covers(Layers(MemtableRows(imms)) + memtable.rows, flushed, lo, |flushed|)
  {
    hide Covers;
    FrozenMemtablesCover(imms, flushed, lo);
    CoversJoin(Layers(MemtableRows(imms)), memtable.rows, flushed, lo, Below(imms, -1, lo), |flushed|);
  }

  lemma WholeFold(flushed: seq<seq<Entry>>)
    ensures Fold(flushed, 0, |flushed|) == TableOf(Concat(flushed))
  {
    assert flushed[0..|flushed|] == flushed;
  }

  /** How many of the uploaded WALs have been through an SST on their way to the tiers: those flushed to
      L0, and those that were read back when the database was last opened. */
  ghost function InSsts(db: Db, h: History): nat {
    if db.core.lastCompactedWal < h.recovered then h.recovered else db.core.lastCompactedWal
  }

  /** The committed tiers hold the durable writes: as SSTs keep them up to InSsts, as written above. */
  lemma CommittedHolds(db: Db, h: History, all: seq<Sst>, marks: seq<nat>, ids: set<nat>, lo: nat)
    requires DbOk(db, h) && h.recovered <= |h.flushed|
    requires CoreOk(db.core, all, marks, ids, lo, |all|) && FlushedOk(all, marks, h.flushed, ids)
    ensures var k := InSsts(db, h);
            && k <= |h.flushed|
            && Layers(db.CommittedTiers()) == Persist(Fold(h.flushed, 0, k)) + Fold(h.flushed, k, |h.flushed|)
  {
    hide Layers, Fold, Persist, CoreOk, FlushedOk, MemtablesOk, QueueOk, Kept;
    var m, r, n := db.core.lastCompactedWal, h.recovered, |h.flushed|;
    var k := InSsts(db, h);
    SstsHold(db.core, all, marks, h.flushed, ids, lo, |all|);
    CommittedSplit(db);
    KeptLen(h.flushed, r);
    MemtablesCover(db.memtable, db.immMemtables, Kept(h.flushed, r), m);
    FoldSplit(Kept(h.flushed, r), m, k, n);
    KeptAbove(h.flushed, r, k, n);
    FoldSplit(h.flushed, 0, m, k);
    PersistOverlay(Fold(h.flushed, 0, m), Fold(h.flushed, m, k));
    if m < r {
      KeptBelow(h.flushed, r, m, k);
    } else {
      FoldEmpty(Kept(h.flushed, r), m);
      FoldEmpty(h.flushed, m);
      PersistEmpty();
    }
    OverlayAssociates(Persist(Fold(h.flushed, 0, m)), Persist(Fold(h.flushed, m, k)), Fold(h.flushed, k, n));
  }

  lemma {:induction false} FrozenWalsHold(immWals: seq<ImmWal>, frozen: seq<seq<Entry>>)
    requires |immWals| == |frozen|
    requires forall i :: 0 <= i < |frozen| ==> immWals[i].rows == TableOf(frozen[|frozen| - 1 - i])
    ensures Layers(WalRows(immWals)) == TableOf(Concat(frozen))
  {
    hide TableOf;
    if frozen == [] {
      assert TableOf([]) == map[] by { TableOfNonEmpty([]); }
    } else {
      var n := |frozen| - 1;
      FrozenWalsHold(immWals[1..], frozen[..n]);
      assert WalRows(immWals) == [immWals[0].rows] + WalRows(immWals[1..]);
      LayersCons(immWals[0].rows, WalRows(immWals[1..]));
      TableOfConcat(Concat(frozen[..n]), frozen[n]);
    }
  }

  /** The writes above the first k uploaded WALs. */
  ghost function WritesAbove(h: History, k: nat): seq<Entry>
    requires k <= |h.flushed|
  {
    Concat(h.flushed[k..]) + Concat(h.frozen) + h.open
  }

  /** The uncommitted tiers hold all writes, with the same line between kept and written. */
  lemma UncommittedHolds(db: Db, h: History, k: nat)
    requires DbOk(db, h) && k <= |h.flushed|
    requires Layers(db.CommittedTiers()) == Persist(Fold(h.flushed, 0, k)) + Fold(h.flushed, k, |h.flushed|)
    ensures Layers(db.UncommittedTiers()) == Persist(Fold(h.flushed, 0, k)) + TableOf(WritesAbove(h, k))
  {
    hide Layers, TableOf, MemtablesOk, Concat, Persist;
    var committed, old', new' := db.CommittedTiers(), Persist(Fold(h.flushed, 0, k)), Fold(h.flushed, k, |h.flushed|);
    var frozen := TableOf(Concat(h.frozen));
    assert db.UncommittedTiers() == [db.wal] + (WalRows(db.immWals) + committed);
    LayersCons(db.wal, WalRows(db.immWals) + committed);
    LayersConcat(WalRows(db.immWals), committed);
    FrozenWalsHold(db.immWals, h.frozen);
    assert h.flushed[k..|h.flushed|] == h.flushed[k..];
    TableOfConcat(Concat(h.flushed[k..]), Concat(h.frozen));
    TableOfConcat(Concat(h.flushed[k..]) + Concat(h.frozen), h.open);
    OverlayAssociates(old', new', frozen);
    OverlayAssociates(old', new' + frozen, db.wal);
  }

  /** The first k groups and the rest make up all writes. */
  lemma WritesSplit(h: History, k: nat)
    requires k <= |h.flushed|
    ensures h.Writes() == Concat(h.flushed[..k]) + WritesAbove(h, k)
    ensures h.DurableWrites() == Concat(h.flushed[..k]) + Concat(h.flushed[k..])
  {
    hide Concat;
    assert h.flushed == h.flushed[..k] + h.flushed[k..];
    ConcatAppend(h.flushed[..k], h.flushed[k..]);
  }

  lemma DbOfRun(run: seq<Action>) returns (x: Trace)
    requires Exec(run).sys.writer.Some?
    ensures var st := Exec(run); var db := st.sys.writer.value.db;
            && Created(st.sys, st.history, x)
            && DbOk(db, st.history) && st.history.recovered <= |st.history.flushed|
            && CoreOk(db.core, x.all, x.marks, st.sys.ids, x.writerLo, |x.all|)
            && FlushedOk(x.all, x.marks, st.history.flushed, st.sys.ids)
  {
    hide Exec, DbOk, CoreOk, FlushedOk, WalsOk, CompactorOk, Consecutive;
    x := RunKeepsInv(run);
  }

  /** In every run, whenever a writer is up, an Uncommitted read answers with the latest write to the key
      and a Committed read with the latest write among uploaded WALs, empty values that have been
      through an SST excepted; it is the latest write if and only if that is not such a value. */
  lemma ReadsSeeLatestWrites(run: seq<Action>, key: bytes)
    requires Exec(run).sys.writer.Some?
    ensures var st := Exec(run); var db := st.sys.writer.value.db; var k := InSsts(db, st.history);
            && k <= |st.history.flushed|
            && var n := |Concat(st.history.flushed[..k])|;
               var all, durable := st.history.Writes(), st.history.DurableWrites();
            && Answers(db.GetUncommitted(key), all, n, key)
            && Answers(db.GetCommitted(key), durable, n, key)
            && (db.GetUncommitted(key) == LatestAnswer(all, key) <==> !EmptyInSst(all, n, key))
            && (db.GetCommitted(key) == LatestAnswer(durable, key) <==> !EmptyInSst(durable, n, key))
  {
    hide Exec, Answers, LatestAnswer, EmptyInSst, Layers, TableOf, Persist, Concat, DbOk, CoreOk, FlushedOk, Created,
         Db.CommittedTiers, Db.UncommittedTiers, InSsts;
    var h, db := Exec(run).history, Exec(run).sys.writer.value.db;
    var x := DbOfRun(run);
    CommittedHolds(db, h, x.all, x.marks, Exec(run).sys.ids, x.writerLo);
    var k := InSsts(db, h);
    UncommittedHolds(db, h, k);
    WritesSplit(h, k);
    assert h.flushed[0..k] == h.flushed[..k] && h.flushed[k..|h.flushed|] == h.flushed[k..];
    SplitAnswers(db.UncommittedTiers(), Concat(h.flushed[..k]), WritesAbove(h, k), key);
    SplitAnswers(db.CommittedTiers(), Concat(h.flushed[..k]), Concat(h.flushed[k..]), key);
  }
}
