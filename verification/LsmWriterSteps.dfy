/** The writer's actions keep the invariant. */
module LsmWriterSteps {
  import opened Tables
  import opened Manifests
  import opened WriterState
  import opened CompactorStates
  import opened Lsm
  import opened LsmFacts
  import opened LsmInvariant

  // ---------------------------------------------------------------- writes and WAL freezes

  lemma TableOfNonEmpty(ws: seq<Entry>)
    ensures TableOf(ws) == map[] <==> ws == []
  {
    if ws != [] {
      assert ws[|ws| - 1].key in TableOf(ws);
    }
  }

  lemma WriteKeepsQueue(db: Db, h: History, key: bytes, value: Value)
    requires DbOk(db, h)
    ensures DbOk(db.Write(key, value), h.(open := h.open + [Entry(key, value)]))
  {
    var open := h.open + [Entry(key, value)];
    assert open[..|open| - 1] == h.open;
  }

  lemma FreezeWalKeepsQueue(db: Db, h: History)
    requires DbOk(db, h) && h.open != []
    ensures DbOk(db.FreezeWal(), h.(frozen := h.frozen + [h.open], open := []))
  {
    hide MemtablesOk, TableOf;
    TableOfNonEmpty(h.open);
    TableOfNonEmpty([]);
    var h', db' := h.(frozen := h.frozen + [h.open], open := []), db.FreezeWal();
    forall i | 0 <= i < |h'.frozen|
      ensures db'.immWals[i]
           == ImmWal(|h'.flushed| + |h'.frozen| - i, TableOf(h'.frozen[|h'.frozen| - 1 - i]))
    {
      if i > 0 {
        assert db'.immWals[i] == db.immWals[i - 1];
      }
    }
  }

  // ---------------------------------------------------------------- a WAL flush

  lemma FlushKeepsFlushed(all: seq<Sst>, marks: seq<nat>, flushed: seq<seq<Entry>>, ids: set<nat>, group: seq<Entry>)
    requires FlushedOk(all, marks, flushed, ids)
    ensures FlushedOk(all, marks, flushed + [group], ids)
  {
    forall i | 0 <= i <= |all| ensures MarkOk(all, i, marks[i], flushed + [group]) {
      assert MarkOk(all, i, marks[i], flushed);
      FoldPrefix(flushed, [group], 0, marks[i]);
    }
  }

  lemma FlushKeepsWals(wals: map<nat, Table>, flushed: seq<seq<Entry>>, group: seq<Entry>)
    requires WalsOk(wals, flushed)
    ensures WalsOk(wals[|flushed| + 1 := Persist(TableOf(group))], flushed + [group])
  {}

  lemma CoversExtend(rows: Table, flushed: seq<seq<Entry>>, lo: nat, group: seq<Entry>, more: Table)
    requires Covers(rows, flushed, lo, |flushed|) && more == TableOf(group)
    ensures Covers(rows + more, flushed + [group], lo, |flushed| + 1)
  {
    FoldSplit(flushed + [group], lo, |flushed|, |flushed| + 1);
    FoldPrefix(flushed, [group], lo, |flushed|);
    FoldOne(flushed + [group], |flushed|);
  }

  lemma CoversKeeps(rows: Table, flushed: seq<seq<Entry>>, lo: nat, hi: nat, group: seq<Entry>)
    requires Covers(rows, flushed, lo, hi)
    ensures Covers(rows, flushed + [group], lo, hi)
  {
    FoldPrefix(flushed, [group], lo, hi);
  }

  lemma CoversNothing(flushed: seq<seq<Entry>>)
    ensures Covers(map[], flushed, |flushed|, |flushed|)
  {
    FoldEmpty(flushed, |flushed|);
  }

  lemma FlushKeepsMemtables(memtable: Memtable, imms: seq<ImmMemtable>, flushed: seq<seq<Entry>>, lo: nat,
                            group: seq<Entry>, rows: Table, lastWal: Option<nat>)
    requires MemtablesOk(memtable, imms, flushed, lo) && rows == TableOf(group)
    requires lastWal.Some? ==> lastWal.value == |flushed| + 1
    ensures MemtablesOk(Memtable(memtable.rows + rows, lastWal), imms, flushed + [group], lo)
  {
    hide Fold, Covers;
    forall i | 0 <= i < |imms|
      ensures Covers(imms[i].rows, flushed + [group], Below(imms, i, lo), imms[i].lastWal)
    {
      CoversKeeps(imms[i].rows, flushed, Below(imms, i, lo), imms[i].lastWal, group);
    }
    CoversExtend(memtable.rows, flushed, Below(imms, -1, lo), group, rows);
  }

  lemma FreezeKeepsMemtables(memtable: Memtable, imms: seq<ImmMemtable>, flushed: seq<seq<Entry>>, lo: nat)
    requires MemtablesOk(memtable, imms, flushed, lo)
    ensures MemtablesOk(EmptyMemtable, [ImmMemtable(memtable.rows, |flushed|)] + imms, flushed, lo)
  {
    hide Fold;
    var imms' := [ImmMemtable(memtable.rows, |flushed|)] + imms;
    forall i | 0 <= i < |imms'|
      ensures Covers(imms'[i].rows, flushed, Below(imms', i, lo), imms'[i].lastWal)
    {
      assert Below(imms', i, lo) == Below(imms, i - 1, lo);
      if i > 0 {
        assert imms'[i] == imms[i - 1];
      }
    }
    CoversNothing(flushed);
  }

  lemma MaybeFreezeKeepsDb(db: Db, h: History, full: Table -> bool)
    requires DbOk(db, h)
    ensures DbOk(db.MaybeFreezeMemtable(|h.flushed|, full), h)
  {
    hide Kept;
    FreezeKeepsMemtables(db.memtable, db.immMemtables, Kept(h.flushed, h.recovered), db.core.lastCompactedWal);
    KeptLen(h.flushed, h.recovered);
  }

  lemma KeptLen(groups: seq<seq<Entry>>, k: nat)
    ensures |Kept(groups, k)| == |groups|
  {}

  lemma FlushKeepsQueue(immWals: seq<ImmWal>, wal: Table, nextWal: nat, h: History)
    requires QueueOk(wal, immWals, nextWal, h) && h.frozen != []
    ensures QueueOk(wal, immWals[..|immWals| - 1], nextWal,
                    h.(flushed := h.flushed + [h.frozen[0]], frozen := h.frozen[1..]))
    ensures immWals[|immWals| - 1] == ImmWal(|h.flushed| + 1, TableOf(h.frozen[0]))
  {
    var n := |h.frozen|;
    assert immWals[n - 1] == ImmWal(|h.flushed| + n - (n - 1), TableOf(h.frozen[n - 1 - (n - 1)]));
  }

  lemma FlushWalKeepsDb(db: Db, h: History, full: Table -> bool)
    requires DbOk(db, h) && h.frozen != [] && h.recovered <= |h.flushed|
    ensures db.immWals != [] && db.OldestWal() == ImmWal(|h.flushed| + 1, TableOf(h.frozen[0]))
    ensures DbOk(db.FlushOldestWal(full), h.(flushed := h.flushed + [h.frozen[0]], frozen := h.frozen[1..]))
  {
    FlushKeepsQueue(db.immWals, db.wal, db.core.nextWal, h);
    var oldest := db.OldestWal();
    KeptLen(h.flushed, h.recovered);
    KeptSnoc(h.flushed, h.recovered, h.frozen[0]);
    FlushKeepsMemtables(db.memtable, db.immMemtables, Kept(h.flushed, h.recovered), db.core.lastCompactedWal,
                        h.frozen[0], oldest.rows, Some(oldest.id));
    MaybeFreezeKeepsDb(
      db.(immWals := db.immWals[..|db.immWals| - 1],
          memtable := Memtable(db.memtable.rows + oldest.rows, Some(oldest.id))),
      h.(flushed := h.flushed + [h.frozen[0]], frozen := h.frozen[1..]), full);
  }

  lemma FreezeMemtableKeepsDb(db: Db, h: History)
    requires DbOk(db, h) && db.memtable.lastWal.Some?
    ensures DbOk(db.FreezeMemtable(db.memtable.lastWal.value), h)
  {
    hide Kept;
    KeptLen(h.flushed, h.recovered);
    FreezeKeepsMemtables(db.memtable, db.immMemtables, Kept(h.flushed, h.recovered), db.core.lastCompactedWal);
  }

  lemma CoreKeepsNextWal(core: Core, all: seq<Sst>, marks: seq<nat>, ids: set<nat>, lo: nat, hi: nat)
    requires CoreOk(core, all, marks, ids, lo, hi)
    ensures CoreOk(core.(nextWal := core.nextWal + 1), all, marks, ids, lo, hi)
  {}

  lemma QueueEmptiness(db: Db, h: History)
    requires DbOk(db, h)
    ensures db.wal == map[] <==> h.open == []
    ensures db.immWals == [] <==> h.frozen == []
  {
    TableOfNonEmpty(h.open);
  }

  /** The actions that change the writer's queues and tables only. */
  lemma LocalActionKeeps(s: System, h: History, x: Trace, a: Action)
    requires Created(s, h, x) && s.writer.Some?
    requires a.WriteKey? || a.FreezeWal? || a.FlushWal? || a.FreezeMemtable?
    ensures Created(Step(s, a), StepHistory(h, a, true), x)
  {
    hide WalsOk, FlushedOk, CoreOk, DbOk, ClientOk, CompactorOk, Consecutive, TableOf;
    var db := s.writer.value.db;
    var s', h' := Step(s, a), StepHistory(h, a, true);
    QueueEmptiness(db, h);
    if a.WriteKey? && a.key != [] {
      WriteKeepsQueue(db, h, a.key, a.value);
    } else if a.FreezeWal? && h.open != [] {
      FreezeWalKeepsQueue(db, h);
      CoreKeepsNextWal(db.core, x.all, x.marks, s.ids, x.writerLo, |x.all|);
    } else if a.FlushWal? && h.frozen != [] {
      FlushWalKeepsDb(db, h, a.full);
      FlushKeepsWals(s.wals, h.flushed, h.frozen[0]);
      FlushKeepsFlushed(x.all, x.marks, h.flushed, s.ids, h.frozen[0]);
    } else if a.FreezeMemtable? && db.memtable.lastWal.Some? {
      FreezeMemtableKeepsDb(db, h);
    }
    assert s'.files == s.files && s'.compactor == s.compactor && s'.ids == s.ids;
  }

  // ---------------------------------------------------------------- a memtable becomes an SST

  lemma RangePush(all: seq<Sst>, t: Sst, lo: nat, hi: nat)
    requires lo <= hi <= |all|
    ensures Range([t] + all, lo, hi) == Range(all, lo, hi)
    ensures MarkAt([t] + all, lo) == MarkAt(all, lo)
  {}

  lemma RunsKeepPush(runs: seq<Run>, all: seq<Sst>, ids: set<nat>, lo: nat, t: Sst)
    requires lo <= |all| && RunsOk(runs, all, ids, lo) && t.id !in ids
    ensures RunsOk(runs, [t] + all, ids + {t.id}, lo)
  {
    hide Layers, Descending, RunSsts;
    RangePush(all, t, 0, lo);
  }

  lemma CoreKeepsPush(core: Core, all: seq<Sst>, marks: seq<nat>, ids: set<nat>, lo: nat, hi: nat, t: Sst, mark: nat)
    requires CoreOk(core, all, marks, ids, lo, hi) && t.id !in ids
    ensures CoreOk(core, [t] + all, marks + [mark], ids + {t.id}, lo, hi)
  {
    hide RunsOk;
    RangePush(all, t, lo, hi);
    RunsKeepPush(core.compacted, all, ids, lo, t);
  }

  lemma MarkOfPush(all: seq<Sst>, mark0: nat, flushed: seq<seq<Entry>>, t: Sst, mark: nat)
    requires MarkOk(all, |all|, mark0, flushed) && mark0 <= mark <= |flushed|
    requires t.rows == Persist(Fold(flushed, mark0, mark))
    ensures MarkOk([t] + all, |all| + 1, mark, flushed)
    ensures Persist(t.rows) == t.rows
  {
    hide Layers, Fold;
    assert SstRows(Range([t] + all, 0, |all| + 1)) == [t.rows] + SstRows(Range(all, 0, |all|));
    LayersCons(t.rows, SstRows(Range(all, 0, |all|)));
    FoldSplit(flushed, 0, mark0, mark);
    PersistOverlay(Fold(flushed, 0, mark0), Fold(flushed, mark0, mark));
  }

  lemma MarkKeepsPush(all: seq<Sst>, n: nat, mark: nat, flushed: seq<seq<Entry>>, t: Sst)
    requires n <= |all| && MarkOk(all, n, mark, flushed)
    ensures MarkOk([t] + all, n, mark, flushed)
  {
    RangePush(all, t, 0, n);
  }

  lemma FlushedKeepsPush(all: seq<Sst>, marks: seq<nat>, flushed: seq<seq<Entry>>, ids: set<nat>, t: Sst, mark: nat)
    requires FlushedOk(all, marks, flushed, ids) && t.id !in ids
    requires marks[|all|] <= mark <= |flushed|
    requires t.rows == Persist(Fold(flushed, marks[|all|], mark))
    ensures FlushedOk([t] + all, marks + [mark], flushed, ids + {t.id})
  {
    hide MarkOk, Persist, Fold;
    var all', marks' := [t] + all, marks + [mark];
    forall i | 0 <= i <= |all'| ensures MarkOk(all', i, marks'[i], flushed) {
      if i <= |all| {
        MarkKeepsPush(all, i, marks[i], flushed, t);
      } else {
        MarkOfPush(all, marks[|all|], flushed, t, mark);
      }
    }
    MarkOfPush(all, marks[|all|], flushed, t, mark);
  }

  lemma MoveKeepsMemtables(memtable: Memtable, imms: seq<ImmMemtable>, flushed: seq<seq<Entry>>, lo: nat)
    requires MemtablesOk(memtable, imms, flushed, lo) && imms != []
    ensures MemtablesOk(memtable, imms[..|imms| - 1], flushed, imms[|imms| - 1].lastWal)
    ensures Covers(imms[|imms| - 1].rows, flushed, lo, imms[|imms| - 1].lastWal)
  {
    hide Covers;
    var n := |imms| - 1;
    assert Below(imms, n, lo) == lo;
    forall i | -1 <= i < n ensures Below(imms[..n], i, imms[n].lastWal) == Below(imms, i, lo) {}
  }

  lemma InFlightKeepsPush(c: CompactorProcess, all: seq<Sst>, lo: nat, end: nat, hi: nat, t: Sst)
    requires lo <= hi <= |all| && InFlightOk(c, all, lo, end, hi)
    ensures InFlightOk(c, [t] + all, lo, end, hi)
  {
    if lo <= end <= hi {
      RangePush(all, t, lo, end);
    }
  }

  lemma FlushMemtableKeepsDb(db: Db, h: History, all: seq<Sst>, marks: seq<nat>, ids: set<nat>, lo: nat, id: nat)
    requires DbOk(db, h) && FlushedOk(all, marks, h.flushed, ids)
    requires CoreOk(db.core, all, marks, ids, lo, |all|)
    requires db.immMemtables != [] && id !in ids
    ensures var t := Sst(id, Persist(db.OldestMemtable().rows)); var mark := db.OldestMemtable().lastWal;
            && FlushedOk([t] + all, marks + [mark], h.flushed, ids + {id})
            && CoreOk(db.MoveToL0(t).core, [t] + all, marks + [mark], ids + {id}, lo, |all| + 1)
            && DbOk(db.MoveToL0(t), h)
  {
    hide Layers, Fold, FlushedOk, RunsOk, Persist, Kept;
    var oldest := db.OldestMemtable();
    var t := Sst(id, Persist(oldest.rows));
    KeptLen(h.flushed, h.recovered);
    MoveKeepsMemtables(db.memtable, db.immMemtables, Kept(h.flushed, h.recovered), db.core.lastCompactedWal);
    PersistKept(h.flushed, h.recovered, marks[|all|], oldest.lastWal);
    FlushedKeepsPush(all, marks, h.flushed, ids, t, oldest.lastWal);
    RunsKeepPush(db.core.compacted, all, ids, lo, t);
    RangePush(all, t, lo, |all|);
  }

  lemma FlushMemtableKeeps(s: System, h: History, x: Trace, id: nat)
    requires Created(s, h, x) && s.writer.Some?
    requires s.writer.value.db.immMemtables != [] && id !in s.ids
    ensures var t := Sst(id, Persist(s.writer.value.db.OldestMemtable().rows));
            Created(Step(s, FlushMemtable(id)), h,
                    x.(all := [t] + x.all, marks := x.marks + [s.writer.value.db.OldestMemtable().lastWal]))
  {
    hide WalsOk, FlushedOk, CoreOk, ClientOk, Consecutive, DbOk, InFlightOk;
    var db := s.writer.value.db;
    var t := Sst(id, Persist(db.OldestMemtable().rows));
    var mark := db.OldestMemtable().lastWal;
    FlushMemtableKeepsDb(db, h, x.all, x.marks, s.ids, x.writerLo, id);
    CoreKeepsPush(Latest(s.files).core, x.all, x.marks, s.ids, x.manifestLo, x.manifestHi, t, mark);
    if s.compactor.Some? {
      var c := s.compactor.value;
      CoreKeepsPush(c.state.core, x.all, x.marks, s.ids, x.compactorLo, x.compactorHi, t, mark);
      CoreBounds(c.state.core, x.all, x.marks, s.ids, x.compactorLo, x.compactorHi);
      InFlightKeepsPush(c, x.all, x.compactorLo, x.end, x.compactorHi, t);
    }
  }

  lemma CoreBounds(core: Core, all: seq<Sst>, marks: seq<nat>, ids: set<nat>, lo: nat, hi: nat)
    requires CoreOk(core, all, marks, ids, lo, hi)
    ensures lo <= hi <= |all| && |marks| == |all| + 1
    ensures core.lastCompactedWal == marks[hi] && core.lastCompactedWal < core.nextWal
  {}

  // ---------------------------------------------------------------- a crash of the writer

  lemma RangeTrim(all: seq<Sst>, n: nat, lo: nat, hi: nat)
    requires lo <= hi <= n <= |all|
    ensures Range(Range(all, 0, n), lo, hi) == Range(all, lo, hi)
    ensures MarkAt(Range(all, 0, n), lo) == MarkAt(all, lo)
  {
    var kept := Range(all, 0, n);
    assert |kept| == n;
    assert forall i :: 0 <= i < n ==> kept[i] == all[|all| - n + i];
    assert Range(kept, lo, hi) == Range(all, lo, hi);
  }

  lemma RunsKeepTrim(runs: seq<Run>, all: seq<Sst>, ids: set<nat>, lo: nat, n: nat)
    requires lo <= n <= |all| && RunsOk(runs, all, ids, lo)
    ensures RunsOk(runs, Range(all, 0, n), ids, lo)
  {
    hide Layers, Descending, RunSsts;
    RangeTrim(all, n, 0, lo);
  }

  lemma CoreKeepsTrim(core: Core, all: seq<Sst>, marks: seq<nat>, ids: set<nat>, lo: nat, hi: nat, n: nat)
    requires CoreOk(core, all, marks, ids, lo, hi) && hi <= n <= |all|
    ensures CoreOk(core, Range(all, 0, n), marks[..n + 1], ids, lo, hi)
  {
    hide RunsOk;
    RangeTrim(all, n, lo, hi);
    RunsKeepTrim(core.compacted, all, ids, lo, n);
  }

  lemma FlushedKeepsTrim(all: seq<Sst>, marks: seq<nat>, flushed: seq<seq<Entry>>, ids: set<nat>, n: nat)
    requires FlushedOk(all, marks, flushed, ids) && n <= |all|
    ensures FlushedOk(Range(all, 0, n), marks[..n + 1], flushed, ids)
  {
    hide Layers, Fold;
    var all', marks' := Range(all, 0, n), marks[..n + 1];
    forall i | 0 <= i <= n ensures MarkOk(all', i, marks'[i], flushed) {
      assert MarkOk(all, i, marks[i], flushed);
      RangeTrim(all, n, 0, i);
    }
  }

  lemma InFlightKeepsTrim(c: CompactorProcess, all: seq<Sst>, lo: nat, end: nat, hi: nat, n: nat)
    requires lo <= hi <= n <= |all| && InFlightOk(c, all, lo, end, hi)
    ensures InFlightOk(c, Range(all, 0, n), lo, end, hi)
  {
    if lo <= end <= hi {
      RangeTrim(all, n, lo, end);
    }
  }

  /** SSTs that no manifest version lists are lost with the process; their WALs are not. */
  lemma CrashWriterKeeps(s: System, h: History, x: Trace)
    requires Created(s, h, x) && s.writer.Some?
    ensures x.manifestHi <= |x.all| && |x.marks| == |x.all| + 1
    ensures Created(Step(s, CrashWriter), StepHistory(h, CrashWriter, true),
                    x.(all := Range(x.all, 0, x.manifestHi), marks := x.marks[..x.manifestHi + 1]))
  {
    hide WalsOk, FlushedOk, CoreOk, ClientOk, Consecutive, DbOk, InFlightOk;
    var n := x.manifestHi;
    CoreBounds(Latest(s.files).core, x.all, x.marks, s.ids, x.manifestLo, x.manifestHi);
    CoreKeepsTrim(Latest(s.files).core, x.all, x.marks, s.ids, x.manifestLo, x.manifestHi, n);
    FlushedKeepsTrim(x.all, x.marks, h.flushed, s.ids, n);
    if s.compactor.Some? {
      var c := s.compactor.value;
      CoreBounds(c.state.core, x.all, x.marks, s.ids, x.compactorLo, x.compactorHi);
      CoreKeepsTrim(c.state.core, x.all, x.marks, s.ids, x.compactorLo, x.compactorHi, n);
      InFlightKeepsTrim(c, x.all, x.compactorLo, x.end, x.compactorHi, n);
    }
  }
}
