/** The invariant of the state machine and its preservation by every action.

    The invariant follows the SSTs ever flushed. Every list of L0 SSTs anywhere in the system is a
    stretch of that list, and everything below the stretch is in the runs next to it.
 */
module LsmInvariant {
  import opened Tables
  import opened Manifests
  import opened WriterState
  import opened CompactorStates
  import opened Lsm
  import opened LsmFacts

  /** Auxiliary state: the SSTs flushed and not lost, newest first; for each number of them, the last
      WAL they cover; and the stretches that the latest manifest, the writer and the compactor hold.
      `end` closes the stretch that the compaction in flight takes. */
  datatype Trace = Trace(
    all: seq<Sst>,
    marks: seq<nat>,
    manifestLo: nat, manifestHi: nat,
    writerLo: nat,
    compactorLo: nat, compactorHi: nat,
    end: nat)

  // ---------------------------------------------------------------- the parts

  ghost predicate WalsOk(wals: map<nat, Table>, flushed: seq<seq<Entry>>) {
    && (forall i :: i in wals <==> 1 <= i <= |flushed|)
    && (forall i :: 1 <= i <= |flushed| ==> wals[i] == Persist(TableOf(flushed[i - 1])))
  }

  ghost predicate MarkOk(all: seq<Sst>, n: nat, mark: nat, flushed: seq<seq<Entry>>)
    requires n <= |all|
  {
    mark <= |flushed| && Layers(SstRows(Range(all, 0, n))) == Persist(Fold(flushed, 0, mark))
  }

  ghost predicate FlushedOk(all: seq<Sst>, marks: seq<nat>, flushed: seq<seq<Entry>>, ids: set<nat>) {
    && |marks| == |all| + 1
    && Distinct(all)
    && (forall i :: 0 <= i < |all| ==> all[i].id in ids && Persist(all[i].rows) == all[i].rows)
    && (forall i :: 0 <= i <= |all| ==> MarkOk(all, i, marks[i], flushed))
  }

  ghost predicate RunsOk(runs: seq<Run>, all: seq<Sst>, ids: set<nat>, lo: nat)
    requires lo <= |all|
  {
    && Layers(RunRows(runs)) == Layers(SstRows(Range(all, 0, lo)))
    && Descending(runs, MAX_UINT32)
    && (forall t :: t in RunSsts(runs) ==> t.id in ids)
    && (forall t, i :: t in RunSsts(runs) && 0 <= i < |all| ==> t.id != all[i].id)
  }

  /** A state whose L0 is the stretch from lo to hi, with everything below lo in its runs. */
  ghost predicate CoreOk(core: Core, all: seq<Sst>, marks: seq<nat>, ids: set<nat>, lo: nat, hi: nat) {
    && lo <= hi <= |all| && |marks| == |all| + 1
    && core.l0 == Range(all, lo, hi)
    && core.l0LastCompacted == MarkAt(all, lo)
    && RunsOk(core.compacted, all, ids, lo)
    && core.lastCompactedWal == marks[hi]
    && core.lastCompactedWal < core.nextWal
  }

  /** The ids are consecutive and there is a latest version. */
  ghost predicate FilesOk(files: Files) {
    Consecutive(files) && |files| in files
  }

  ghost function Latest(files: Files): Manifest
    requires |files| in files
  {
    files[|files|]
  }

  ghost predicate ClientOk(files: Files, c: Client, kind: Kind)
    requires |files| in files
  {
    && c.Live? && c.kind == kind
    && c.id in files && files[c.id] == c.manifest
    && CheckEpoch(c) == Ok
    && Latest(files).Epoch(kind) == c.epoch
  }

  /** The last WAL below the i-th frozen memtable; i == -1 asks for the mutable one. */
  ghost function Below(imms: seq<ImmMemtable>, i: int, lo: nat): nat
    requires -1 <= i < |imms|
  {
    if i + 1 < |imms| then imms[i + 1].lastWal else lo
  }

  /** `rows` holds the writes of the WALs above lo and up to hi. */
  ghost predicate Covers(rows: Table, flushed: seq<seq<Entry>>, lo: nat, hi: nat) {
    lo <= hi <= |flushed| && rows == Fold(flushed, lo, hi)
  }

  ghost predicate MemtablesOk(memtable: Memtable, imms: seq<ImmMemtable>, flushed: seq<seq<Entry>>, lo: nat) {
    && (forall i :: 0 <= i < |imms| ==> Covers(imms[i].rows, flushed, Below(imms, i, lo), imms[i].lastWal))
    && Covers(memtable.rows, flushed, Below(imms, -1, lo), |flushed|)
    && (memtable.lastWal.Some? ==> memtable.lastWal.value == |flushed|)
  }

  ghost predicate QueueOk(wal: Table, immWals: seq<ImmWal>, nextWal: nat, h: History) {
    && wal == TableOf(h.open)
    && |immWals| == |h.frozen|
    && (forall i :: 0 <= i < |h.frozen| ==>
          immWals[i] == ImmWal(|h.flushed| + |h.frozen| - i, TableOf(h.frozen[|h.frozen| - 1 - i])))
    && nextWal == |h.flushed| + |h.frozen| + 1
  }

  ghost predicate DbOk(db: Db, h: History) {
    && QueueOk(db.wal, db.immWals, db.core.nextWal, h)
    && MemtablesOk(db.memtable, db.immMemtables, Kept(h.flushed, h.recovered), db.core.lastCompactedWal)
  }

  /** The writer against the latest manifest: it may be behind on compactions, never ahead; holding
      the latest version it has that version's runs. */
  ghost predicate WriterOk(w: WriterProcess, files: Files, ids: set<nat>, x: Trace)
    requires |files| in files
  {
    && ClientOk(files, w.client, WriterKind)
    && x.writerLo <= x.manifestLo
    && CoreOk(w.db.core, x.all, x.marks, ids, x.writerLo, |x.all|)
    && (w.client.id == |files| ==>
          x.writerLo == x.manifestLo && w.db.core.compacted == Latest(files).core.compacted)
  }

  ghost predicate InFlightOk(c: CompactorProcess, all: seq<Sst>, lo: nat, end: nat, hi: nat)
    requires lo <= hi <= |all|
  {
    && c.jobs.Keys == c.state.compactions.Keys
    && forall d :: d in c.state.compactions ==>
         && d == NextRunId(c.state.core.compacted)
         && lo + 4 <= end <= hi
         && c.state.compactions[d] == Compaction(L0Sources(Range(all, lo, end)), d)
         && c.jobs[d] == Job(d, Range(all, lo, end), [])
  }

  /** The compactor against the latest manifest: it may be ahead on compactions and behind on flushed
      SSTs; holding the latest version it has that version's WAL ids. */
  ghost predicate CompactorOk(c: CompactorProcess, files: Files, ids: set<nat>, x: Trace)
    requires |files| in files
  {
    && ClientOk(files, c.client, CompactorKind)
    && x.manifestLo <= x.compactorLo <= x.compactorHi <= x.manifestHi
    && CoreOk(c.state.core, x.all, x.marks, ids, x.compactorLo, x.compactorHi)
    && (c.client.id == |files| ==>
          x.compactorHi == x.manifestHi && c.state.core.nextWal == Latest(files).core.nextWal)
    && InFlightOk(c, x.all, x.compactorLo, x.end, x.compactorHi)
  }

  /** Before the database is created nothing exists. */
  ghost predicate NotCreated(s: System, h: History) {
    s == EmptySystem && h == NoHistory
  }

  ghost predicate Created(s: System, h: History, x: Trace) {
    && WalsOk(s.wals, h.flushed) && h.recovered <= |h.flushed|
    && FlushedOk(x.all, x.marks, h.flushed, s.ids)
    && FilesOk(s.files)
    && CoreOk(Latest(s.files).core, x.all, x.marks, s.ids, x.manifestLo, x.manifestHi)
    && (s.writer.Some? ==> WriterOk(s.writer.value, s.files, s.ids, x) && DbOk(s.writer.value.db, h))
    && (s.writer.None? ==> |x.all| == x.manifestHi && h.frozen == [] && h.open == [])
    && (s.compactor.Some? ==> CompactorOk(s.compactor.value, s.files, s.ids, x))
  }

  ghost predicate Inv(s: System, h: History, x: Trace) {
    NotCreated(s, h) || Created(s, h, x)
  }
}
