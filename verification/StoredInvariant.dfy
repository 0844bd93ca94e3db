/** In every run of the machine with files, each SST listed anywhere is stored under its id, each run
    listed anywhere is a sorted run of stored SSTs, and each WAL is stored under its id.
 */
module StoredInvariant {
  import opened Tables
  import opened Keys
  import opened Rows
  import opened Formats
  import opened Blocks
  import opened SstFormat
  import opened SstIterators
  import opened SortedRuns
  import opened Executors
  import M = Manifests
  import opened WriterState
  import opened CompactorStates
  import opened Lsm
  import opened LsmFacts
  import opened LsmInvariant
  import opened LsmWriterSteps
  import opened LsmTheorems
  import opened LsmGuarantees
  import opened StoredLsm

  // ---------------------------------------------------------------- stored SSTs, runs and cores

  ghost predicate SstStored(conf: Config, files: Files, t: M.Sst) {
    t.id in files && Stores(conf, files[t.id], Listing(t.rows))
  }

  ghost predicate AllStored(conf: Config, files: Files, ssts: seq<M.Sst>) {
    forall i :: 0 <= i < |ssts| ==> SstStored(conf, files, ssts[i])
  }

  /** The files of SSTs, by id. */
  function FilesOf(files: Files, ssts: seq<M.Sst>): seq<StoredSst>
    requires forall i :: 0 <= i < |ssts| ==> ssts[i].id in files
  {
    seq(|ssts|, i requires 0 <= i < |ssts| => files[ssts[i].id])
  }

  /** The rows of SSTs, in key order. */
  ghost function Lists(ssts: seq<M.Sst>): seq<seq<Entry>> {
    seq(|ssts|, i requires 0 <= i < |ssts| => Listing(ssts[i].rows))
  }

  ghost predicate RunStored(conf: Config, files: Files, run: M.Run) {
    && AllStored(conf, files, run.ssts)
    && (forall i :: 0 <= i < |run.ssts| ==> run.ssts[i].rows != map[])
    && Sorted(Concat(Lists(run.ssts)))
  }

  ghost predicate CoreStored(conf: Config, files: Files, core: M.Core) {
    && AllStored(conf, files, core.l0)
    && forall i :: 0 <= i < |core.compacted| ==> RunStored(conf, files, core.compacted[i])
  }

  ghost predicate Extends(files: Files, files': Files) {
    forall id :: id in files ==> id in files' && files'[id] == files[id]
  }

  lemma CoreExtends(conf: Config, files: Files, files': Files, core: M.Core)
    requires CoreStored(conf, files, core) && Extends(files, files')
    ensures CoreStored(conf, files', core)
  {
    hide Stores, Listing, Lists, Concat, Sorted;
    forall i | 0 <= i < |core.compacted| ensures RunStored(conf, files', core.compacted[i]) {
      assert RunStored(conf, files, core.compacted[i]);
    }
  }

  /** A core made of SSTs and runs of stored cores. */
  lemma CorePicks(conf: Config, files: Files, l0: M.Core, runs: M.Core, core: M.Core)
    requires CoreStored(conf, files, l0) && CoreStored(conf, files, runs)
    requires forall t :: t in core.l0 ==> t in l0.l0
    requires forall r :: r in core.compacted ==> r in runs.compacted
    ensures CoreStored(conf, files, core)
  {
    hide SstStored, RunStored;
    forall i | 0 <= i < |core.l0| ensures SstStored(conf, files, core.l0[i]) {
      assert core.l0[i] in l0.l0;
    }
    forall i | 0 <= i < |core.compacted| ensures RunStored(conf, files, core.compacted[i]) {
      assert core.compacted[i] in runs.compacted;
    }
  }

  // ---------------------------------------------------------------- what a flush uploads

  lemma SliceOfConcat(groups: seq<seq<Entry>>, lo: nat, hi: nat)
    requires lo <= hi <= |groups|
    ensures forall e :: e in Concat(groups[lo..hi]) ==> e in Concat(groups)
  {
    hide Concat;
    assert groups == groups[..lo] + (groups[lo..hi] + groups[hi..]);
    ConcatAppend(groups[..lo], groups[lo..hi] + groups[hi..]);
    ConcatAppend(groups[lo..hi], groups[hi..]);
  }

  /** The oldest frozen WAL holds the oldest frozen group of writes, and flushing it makes them durable. */
  lemma OldestWalRows(run: seq<Action>, full: Table -> bool)
    requires Exec(run).sys.writer.Some? && Exec(run).sys.writer.value.db.immWals != []
    ensures var st := Exec(run);
            && st.history.frozen != [] && st.sys.writer.value.db.OldestWal().rows == TableOf(st.history.frozen[0])
            && (forall e :: e in st.history.frozen[0] ==> e in st.history.Writes())
            && (forall e :: e in st.history.frozen[0] ==> e in Next(st, FlushWal(full)).history.DurableWrites())
  {
    hide Exec, Step, Created, CoreOk, FlushedOk, MemtablesOk, TableOf, Concat;
    var x := DbOfRun(run);
    var h, db := Exec(run).history, Exec(run).sys.writer.value.db;
    QueueEmptiness(db, h);
    FlushKeepsQueue(db.immWals, db.wal, db.core.nextWal, h);
    ConcatOne(h.frozen[0]);
    assert h.frozen == [h.frozen[0]] + h.frozen[1..];
    ConcatAppend([h.frozen[0]], h.frozen[1..]);
    ConcatAppend(h.flushed, [h.frozen[0]]);
  }

  /** The oldest frozen memtable holds durable writes. */
  lemma OldestMemtableRows(run: seq<Action>) returns (es: seq<Entry>)
    requires Exec(run).sys.writer.Some? && Exec(run).sys.writer.value.db.immMemtables != []
    ensures Persist(Exec(run).sys.writer.value.db.OldestMemtable().rows) == Persist(TableOf(es))
    ensures forall e :: e in es ==> e in Exec(run).history.DurableWrites()
  {
    hide Exec, Created, CoreOk, FlushedOk, QueueOk, TableOf, Concat, Kept, Persist;
    var x := DbOfRun(run);
    var h, db := Exec(run).history, Exec(run).sys.writer.value.db;
    var lo, hi := db.core.lastCompactedWal, db.OldestMemtable().lastWal;
    KeptLen(h.flushed, h.recovered);
    MoveKeepsMemtables(db.memtable, db.immMemtables, Kept(h.flushed, h.recovered), lo);
    PersistKept(h.flushed, h.recovered, lo, hi);
    es := Concat(h.flushed[lo..hi]);
    SliceOfConcat(h.flushed, lo, hi);
  }

  lemma WritesFitTable(es: seq<Entry>, ws: seq<Entry>)
    requires EntriesFit(ws) && forall e :: e in es ==> e in ws
    ensures TableFits(TableOf(es))
  {
    hide EntryFits, TableOf;
    forall k | k in TableOf(es) ensures EntryFits(Entry(k, TableOf(es)[k])) {
      var i := HeldIsLatestWrite(es, k);
      assert es[i] in ws;
    }
  }

  // ---------------------------------------------------------------- no empty keys

  ghost predicate HaveKeys(es: seq<Entry>) {
    forall i :: 0 <= i < |es| ==> es[i].key != []
  }

  /** An empty key is never written. */
  lemma {:induction false} WritesHaveKeys(run: seq<Action>)
    ensures HaveKeys(Exec(run).history.Writes())
  {
    hide Step, Concat;
    if run == [] {
      NoWrites();
    } else {
      var n := |run| - 1;
      WritesHaveKeys(run[..n]);
      HistoryHasKeys(Exec(run[..n]).history, run[n], Exec(run[..n]).sys.writer.Some?);
    }
  }

  lemma NoWrites()
    ensures NoHistory.Writes() == []
  {}

  lemma HistoryHasKeys(h: History, a: Action, up: bool)
    requires HaveKeys(h.Writes())
    ensures HaveKeys(StepHistory(h, a, up).Writes())
  {
    hide Concat;
    var h' := StepHistory(h, a, up);
    if up && a.WriteKey? && a.key != [] {
      assert h'.Writes() == h.Writes() + [Entry(a.key, a.value)];
    } else if up && a.FreezeWal? && h.open != [] {
      ConcatAppend(h.frozen, [h.open]);
      ConcatOne(h.open);
      ConcatNone();
      assert h'.Writes() == h.Writes();
    } else if up && a.FlushWal? && h.frozen != [] {
      assert h.frozen == [h.frozen[0]] + h.frozen[1..];
      ConcatAppend([h.frozen[0]], h.frozen[1..]);
      ConcatAppend(h.flushed, [h.frozen[0]]);
      assert h'.Writes() == h.Writes();
    } else if up && a.CrashWriter? {
      ConcatNone();
      assert h'.Writes() == h.Writes()[..|Concat(h.flushed)|];
    }
  }

  lemma KeysOfTable(es: seq<Entry>, ws: seq<Entry>)
    requires HaveKeys(ws) && forall e :: e in es ==> e in ws
    ensures forall k :: k in TableOf(es) ==> k != []
  {
    hide TableOf;
    forall k | k in TableOf(es) ensures k != [] {
      var i := HeldIsLatestWrite(es, k);
      assert es[i] in ws;
    }
  }

  // ---------------------------------------------------------------- the invariant

  ghost predicate ManifestsStored(conf: Config, files: Files, versions: M.Files) {
    forall i :: i in versions ==> CoreStored(conf, files, versions[i].core)
  }

  ghost predicate WriterStored(conf: Config, files: Files, w: WriterProcess) {
    CoreStored(conf, files, w.db.core) && CoreStored(conf, files, w.client.manifest.core)
  }

  ghost predicate CompactorStored(conf: Config, files: Files, c: CompactorProcess) {
    CoreStored(conf, files, c.state.core) && CoreStored(conf, files, c.client.manifest.core)
  }

  ghost predicate SystemStored(conf: Config, files: Files, s: System) {
    && files.Keys <= s.ids
    && ManifestsStored(conf, files, s.files)
    && (s.writer.Some? ==> WriterStored(conf, files, s.writer.value))
    && (s.compactor.Some? ==> CompactorStored(conf, files, s.compactor.value))
  }

  lemma SystemExtends(conf: Config, files: Files, files': Files, s: System)
    requires SystemStored(conf, files, s) && Extends(files, files') && files'.Keys <= s.ids
    ensures SystemStored(conf, files', s)
  {
    hide CoreStored, Extends;
    forall i | i in s.files ensures CoreStored(conf, files', s.files[i].core) {
      CoreExtends(conf, files, files', s.files[i].core);
    }
    if s.writer.Some? {
      CoreExtends(conf, files, files', s.writer.value.db.core);
      CoreExtends(conf, files, files', s.writer.value.client.manifest.core);
    }
    if s.compactor.Some? {
      CoreExtends(conf, files, files', s.compactor.value.state.core);
      CoreExtends(conf, files, files', s.compactor.value.client.manifest.core);
    }
  }

  // ---------------------------------------------------------------- manifests

  ghost predicate ResultStored(conf: Config, files: Files, r: M.Result) {
    ManifestsStored(conf, files, r.files) && CoreStored(conf, files, r.client.manifest.core)
  }

  lemma UpdateStored(conf: Config, files: Files, versions: M.Files, c: M.Client, m: M.Manifest)
    requires ManifestsStored(conf, files, versions)
    requires CoreStored(conf, files, c.manifest.core) && CoreStored(conf, files, m.core)
    ensures ResultStored(conf, files, M.UpdateManifest(versions, c, m))
  {
    hide CoreStored;
  }

  lemma FenceStored(conf: Config, files: Files, versions: M.Files, c: M.Client, kind: M.Kind)
    requires ManifestsStored(conf, files, versions) && CoreStored(conf, files, c.manifest.core)
    ensures ResultStored(conf, files, M.Fence(versions, c, kind))
    ensures M.Fence(versions, c, kind).client.manifest.core == c.manifest.core
  {
    hide CoreStored;
  }

  lemma WriteStored(conf: Config, files: Files, versions: M.Files, c: M.Client, core: M.Core)
    requires ManifestsStored(conf, files, versions) && c.Live?
    requires CoreStored(conf, files, c.manifest.core) && CoreStored(conf, files, core)
    ensures ResultStored(conf, files, M.UpdateDbState(versions, c, core))
  {
    hide CoreStored;
    UpdateStored(conf, files, versions, c, c.manifest.(core := core));
  }

  lemma LoadStored(conf: Config, files: Files, versions: M.Files, c: M.Client)
    requires ManifestsStored(conf, files, versions) && c.Live? && CoreStored(conf, files, c.manifest.core)
    ensures ResultStored(conf, files, M.RefreshClient(versions, c)) && M.RefreshClient(versions, c).files == versions
  {
    hide CoreStored;
  }

  // ---------------------------------------------------------------- the steps without uploads

  lemma {:induction false} CutMembers(l0: seq<M.Sst>, last: Option<nat>)
    ensures forall t :: t in Cut(l0, last) ==> t in l0
  {
    if l0 != [] && last != Some(l0[0].id) {
      CutMembers(l0[1..], last);
    }
  }

  lemma WriterPlainKeeps(conf: Config, files: Files, s: System, a: Action)
    requires SystemStored(conf, files, s) && s.writer.Some?
    requires !a.FlushWal? && !a.FlushMemtable?
    ensures SystemStored(conf, files, StepWriter(s, a))
  {
    hide CoreStored, M.RefreshClient, M.UpdateDbState;
    var w := s.writer.value;
    match a {
      case FreezeWal => CorePicks(conf, files, w.db.core, w.db.core, w.db.FreezeWal().core);
      case WriterLoad =>
        if w.client.Live? {
          LoadStored(conf, files, s.files, w.client);
          var read := M.RefreshClient(s.files, w.client).client.manifest.core;
          CutMembers(w.db.core.l0, read.l0LastCompacted);
          CorePicks(conf, files, w.db.core, read, w.db.Refresh(read).core);
        }
      case WriterWrite =>
        if w.client.Live? {
          WriteStored(conf, files, s.files, w.client, w.db.core);
        }
      case _ =>
    }
  }

  lemma CompactorPlainKeeps(conf: Config, files: Files, s: System, a: Action)
    requires SystemStored(conf, files, s) && s.compactor.Some? && !a.CompactorFinish?
    ensures SystemStored(conf, files, StepCompactor(s, a))
  {
    hide CoreStored, M.RefreshClient, M.UpdateDbState, Compactor.JobFor, Compactor.Accepts;
    var c := s.compactor.value;
    match a {
      case CompactorLoad =>
        if c.client.Live? {
          LoadStored(conf, files, s.files, c.client);
          var read := M.RefreshClient(s.files, c.client).client.manifest.core;
          CutMembers(read.l0, c.state.core.l0LastCompacted);
          CorePicks(conf, files, read, c.state.core, c.state.Refresh(read).core);
        }
      case CompactorWrite =>
        if c.client.Live? {
          WriteStored(conf, files, s.files, c.client, c.state.core);
        }
      case _ =>
    }
  }

  lemma OpenKeepsStored(conf: Config, files: Files, s: System, full: Table -> bool)
    requires SystemStored(conf, files, s) && s.files != map[]
    ensures SystemStored(conf, files, Open(s, full))
  {
    hide CoreStored, M.Fence;
    var core := s.files[MaxKey(s.files)].core;
    FenceStored(conf, files, s.files, M.Loaded(MaxKey(s.files), s.files[MaxKey(s.files)]), M.WriterKind);
    var ids := IdsBetween(s.wals, core.lastCompactedWal, if s.wals == map[] then 0 else MaxKey(s.wals));
    ReplayKeepsCore(core, ids, s.wals, full);
    CorePicks(conf, files, core, core, NewDb(core).Replay(ids, s.wals, full).core);
  }

  lemma {:induction false} ReplayKeepsCore(core: M.Core, ids: seq<nat>, wals: map<nat, Table>, full: Table -> bool)
    requires forall i :: 0 <= i < |ids| ==> ids[i] in wals
    ensures var db := NewDb(core).Replay(ids, wals, full);
            db.core.l0 == core.l0 && db.core.compacted == core.compacted
  {
    if ids != [] {
      ReplayKeepsCore(core, ids[..|ids| - 1], wals, full);
    }
  }

  lemma NewCoreStored(conf: Config, files: Files)
    ensures CoreStored(conf, files, M.NewCore)
  {}

  lemma PlainKeeps(conf: Config, files: Files, s: System, a: Action)
    requires SystemStored(conf, files, s) && !a.FlushWal? && !a.FlushMemtable? && !a.CompactorFinish?
    ensures SystemStored(conf, files, Step(s, a))
  {
    hide CoreStored, M.Fence, Open, StepWriter, StepCompactor;
    match a {
      case CreateDb => NewCoreStored(conf, files);
      case OpenWriter(full) =>
        if s.files != map[] {
          OpenKeepsStored(conf, files, s, full);
        }
      case StartCompactor =>
        if s.files != map[] {
          FenceStored(conf, files, s.files, M.Loaded(MaxKey(s.files), s.files[MaxKey(s.files)]), M.CompactorKind);
        }
      case _ =>
        if IsCompactorAction(a) && s.compactor.Some? {
          CompactorPlainKeeps(conf, files, s, a);
        } else if !IsCompactorAction(a) && s.writer.Some? {
          WriterPlainKeeps(conf, files, s, a);
        }
    }
  }

  // ---------------------------------------------------------------- the uploads

  lemma TableStored(conf: Config, t: StoredSst, rows: Table)
    requires UploadOfTable(conf, t, rows) && ConfigOk(conf) && TableFits(Persist(rows))
    ensures Stores(conf, t, Listing(Persist(rows)))
    ensures |t.file| < UINT32 ==> ReadInfo(conf.formats, t.file) == Decoded.Ok(t.info)
  {
    hide Stores, UploadOf, ConfigOk, TableFits, Persist, Listing, ReadInfo, Sorted;
    ListingFits(Persist(rows));
    UploadStored(conf, t, Listing(Persist(rows)));
  }

  lemma FlushWalKeeps(conf: Config, files: Files, s: System, full: Table -> bool)
    requires SystemStored(conf, files, s) && s.writer.Some? && s.writer.value.db.immWals != []
    ensures SystemStored(conf, files, Step(s, FlushWal(full)))
  {
    hide CoreStored, TableFits, Persist, Db.FlushOldestWal;
    FlushKeepsCore(s.writer.value.db, full);
  }

  lemma FlushKeepsCore(db: Db, full: Table -> bool)
    requires db.immWals != []
    ensures db.FlushOldestWal(full).core == db.core
  {}

  lemma FlushMemtableKeepsStored(conf: Config, files: Files, s: System, id: nat, t: StoredSst)
    requires SystemStored(conf, files, s) && Enabled(conf, 0, s, UploadMemtable(id, t)) && ConfigOk(conf)
    requires TableFits(Persist(s.writer.value.db.OldestMemtable().rows))
    ensures SystemStored(conf, files[id := t], Step(s, FlushMemtable(id)))
  {
    hide CoreStored, TableFits, Persist, ConfigOk, UploadOfTable, Stores, Db.MoveToL0;
    var db, files' := s.writer.value.db, files[id := t];
    var sst := M.Sst(id, Persist(db.OldestMemtable().rows));
    SystemExtends(conf, files, files', s.(ids := s.ids + {id}));
    TableStored(conf, t, db.OldestMemtable().rows);
    PushStored(conf, files', db, sst);
  }

  lemma PushStored(conf: Config, files: Files, db: Db, sst: M.Sst)
    requires CoreStored(conf, files, db.core) && SstStored(conf, files, sst) && db.immMemtables != []
    ensures CoreStored(conf, files, db.MoveToL0(sst).core)
  {
    hide SstStored, RunStored;
  }

  lemma {:induction false} StoreKeys(files: Files, ids: seq<nat>, ts: seq<StoredSst>)
    requires |ids| == |ts|
    ensures forall id :: id in Store(files, ids, ts) <==> id in files || id in ids
  {
    if ids != [] {
      var n := |ids| - 1;
      StoreKeys(files, ids[..n], ts[..n]);
      assert ids == ids[..n] + [ids[n]];
    }
  }

  lemma {:induction false} StoreKeeps(files: Files, ids: seq<nat>, ts: seq<StoredSst>, id: nat)
    requires |ids| == |ts| && id in files && id !in ids
    ensures id in Store(files, ids, ts) && Store(files, ids, ts)[id] == files[id]
  {
    if ids != [] {
      StoreKeeps(files, ids[..|ids| - 1], ts[..|ids| - 1], id);
    }
  }

  lemma {:induction false} StoreHolds(files: Files, ids: seq<nat>, ts: seq<StoredSst>, i: nat)
    requires |ids| == |ts| && i < |ids| && forall a, b :: 0 <= a < b < |ids| ==> ids[a] != ids[b]
    ensures ids[i] in Store(files, ids, ts) && Store(files, ids, ts)[ids[i]] == ts[i]
  {
    var n := |ids| - 1;
    if i < n {
      StoreHolds(files, ids[..n], ts[..n], i);
    }
  }

  /** The SSTs of an output run are stored under their ids, and are a sorted run. */
  lemma OutputStored(conf: Config, max: nat, inputs: seq<Table>, files: Files, ids: seq<nat>, ts: seq<StoredSst>,
                     d: nat)
    requires ConfigOk(conf) && TablesFit(inputs) && UploadsAll(conf, ts, Outputs(inputs, max))
    requires |ids| == |ts| && forall i :: 0 <= i < |ids| ==> ids[i] in files && files[ids[i]] == ts[i]
    ensures RunStored(conf, files, M.Run(d, SstsOf(ids, Outputs(inputs, max))))
  {
    hide UploadOf, ConfigOk, TablesFit, Outputs, Stores, Concat, Sorted, Listing, TableOf;
    var outs := Outputs(inputs, max);
    var ssts := SstsOf(ids, outs);
    WrittenRun(conf, ts, inputs, max);
    forall i | 0 <= i < |outs|
      ensures Listing(ssts[i].rows) == outs[i] && SstStored(conf, files, ssts[i]) && ssts[i].rows != map[]
    {
      PartSorted(outs, i);
      SortedUnique(Listing(TableOf(outs[i])), outs[i]);
      SortedTail(outs[i]);
    }
    assert Lists(ssts) == outs;
  }

  lemma FinishedStored(conf: Config, files: Files, c: Compactor, out: M.Run)
    requires CoreStored(conf, files, c.core) && RunStored(conf, files, out) && out.id in c.compactions
    ensures CoreStored(conf, files, c.Finish(out).core)
  {
    hide SstStored, RunStored, KeepL0, InsertRun, Compactor.FinishAsserts;
    var core := c.Finish(out).core;
    KeptL0(c.core.l0, c.compactions[out.id].sources);
    InsertedRuns(c.core.compacted, out, SourceRuns(c.compactions[out.id]));
    forall i | 0 <= i < |core.l0| ensures SstStored(conf, files, core.l0[i]) {
      assert core.l0[i] in c.core.l0;
    }
    forall i | 0 <= i < |core.compacted| ensures RunStored(conf, files, core.compacted[i]) {
      assert core.compacted[i] == out || core.compacted[i] in c.core.compacted;
    }
  }

  lemma StoredFit(conf: Config, files: Files, ssts: seq<M.Sst>)
    requires AllStored(conf, files, ssts)
    ensures TablesFit(SstRows(ssts))
  {
    hide Stores, TableFits, Listing;
    forall i | 0 <= i < |ssts| ensures TableFits(ssts[i].rows) {
      assert SstStored(conf, files, ssts[i]);
      SstStreamOk(conf, files[ssts[i].id], Listing(ssts[i].rows));
      ListedFits(ssts[i].rows);
    }
  }

  lemma ListedFits(t: Table)
    requires EntriesFit(Listing(t))
    ensures TableFits(t)
  {
    hide Listing, EntryFits;
    forall k | k in t ensures EntryFits(Entry(k, t[k])) {
      var i := HeldIsLatestWrite(Listing(t), k);
    }
  }

  /** The files after a compaction: the old ones, and the outputs under fresh ids. */
  lemma StoreFresh(conf: Config, files: Files, ids: seq<nat>, outs: seq<seq<Entry>>, ts: seq<StoredSst>, used: set<nat>)
    requires |ids| == |outs| == |ts| && FreshIds(SstsOf(ids, outs), used) && files.Keys <= used
    ensures var files' := Store(files, ids, ts);
            && Extends(files, files') && files'.Keys <= used + (set t | t in SstsOf(ids, outs) :: t.id)
            && forall i :: 0 <= i < |ids| ==> ids[i] in files' && files'[ids[i]] == ts[i]
  {
    hide Store, TableOf;
    var ssts, files' := SstsOf(ids, outs), Store(files, ids, ts);
    NewIds(ids, outs, used);
    forall i, j | 0 <= i < j < |ids| ensures ids[i] != ids[j] {
      assert ssts[i].id != ssts[j].id;
    }
    StoreKeys(files, ids, ts);
    forall id | id in files ensures id in files' && files'[id] == files[id] {
      StoreKeeps(files, ids, ts, id);
    }
    forall i | 0 <= i < |ids| ensures ids[i] in files' && files'[ids[i]] == ts[i] {
      StoreHolds(files, ids, ts, i);
    }
  }

  /** The machine on tables takes the outputs. */
  lemma RunAccepted(conf: Config, max: nat, s: System, d: nat, ids: seq<nat>, ts: seq<StoredSst>)
    requires Enabled(conf, max, s, UploadRun(d, ids, ts))
    ensures |ts| == |ids|
    ensures var c := s.compactor.value; var ssts := SstsOf(ids, JobOutputs(s, d, max)); var out := M.Run(d, ssts);
            Step(s, CompactorFinish(d, ssts))
            == s.(ids := s.ids + (set t | t in ssts :: t.id),
                  compactor := if c.state.FinishAsserts(out)
                               then Some(c.(state := c.state.Finish(out), jobs := c.jobs - {d})) else None)
  {
    hide Outputs, UploadOf, Compacts, FreshIds, SstsOf, Compactor.Finish, Compactor.FinishAsserts;
    OutputsAccepted(SstRows(s.compactor.value.jobs[d].ssts), max, ids);
  }

  lemma OutputsAccepted(inputs: seq<Table>, max: nat, ids: seq<nat>)
    requires |ids| == |Outputs(inputs, max)|
    ensures Compacts(inputs, SstRows(SstsOf(ids, Outputs(inputs, max))))
  {
    hide TableOf, Outputs, Layers, Persist, Divided, Sorted, Concat;
    OutputsCompact(inputs, max);
    assert SstRows(SstsOf(ids, Outputs(inputs, max))) == TablesOf(Outputs(inputs, max));
  }

  lemma FinishKeeps(conf: Config, max: nat, files: Files, s: System, d: nat, ids: seq<nat>, ts: seq<StoredSst>)
    requires SystemStored(conf, files, s) && Enabled(conf, max, s, UploadRun(d, ids, ts)) && ConfigOk(conf)
    requires AllStored(conf, files, s.compactor.value.jobs[d].ssts)
    ensures |ids| == |ts|
    ensures var a := UploadRun(d, ids, ts);
            SystemStored(conf, Store(files, ids, ts), Step(s, OnTables(conf, max, s, a)))
  {
    hide CoreStored, RunStored, AllStored, ConfigOk, Outputs, UploadOf, Compacts, FreshIds, Extends,
         Compactor.Finish, Compactor.FinishAsserts, TablesFit, Store, Step;
    var c := s.compactor.value;
    var outs := JobOutputs(s, d, max);
    var ssts, files' := SstsOf(ids, outs), Store(files, ids, ts);
    RunAccepted(conf, max, s, d, ids, ts);
    StoreFresh(conf, files, ids, outs, ts, s.ids);
    SystemExtends(conf, files, files', s.(ids := s.ids + (set t | t in ssts :: t.id)));
    StoredFit(conf, files, c.jobs[d].ssts);
    OutputStored(conf, max, SstRows(c.jobs[d].ssts), files', ids, ts, d);
    FinishedStored(conf, files', c.state, M.Run(d, ssts));
  }

  lemma UploadsLen(conf: Config, ts: seq<StoredSst>, outs: seq<seq<Entry>>)
    requires UploadsAll(conf, ts, outs)
    ensures |ts| == |outs|
  {}

  lemma NewIds(ids: seq<nat>, outs: seq<seq<Entry>>, used: set<nat>)
    requires |ids| == |outs| && FreshIds(SstsOf(ids, outs), used)
    ensures forall i :: 0 <= i < |ids| ==> ids[i] !in used && ids[i] in (set t | t in SstsOf(ids, outs) :: t.id)
  {
    hide TableOf;
    var ssts := SstsOf(ids, outs);
    forall i | 0 <= i < |ids| ensures ids[i] !in used && ids[i] in (set t | t in ssts :: t.id) {
      assert ssts[i] in ssts && ssts[i].id == ids[i];
    }
  }

  // ---------------------------------------------------------------- every run

  ghost predicate WalStored(conf: Config, t: StoredSst, rows: Table) {
    && Stores(conf, t, Listing(rows))
    && (|t.file| < UINT32 ==> ReadInfo(conf.formats, t.file) == Decoded.Ok(t.info))
  }

  ghost predicate WalsStored(conf: Config, files: Files, wals: map<nat, Table>) {
    files.Keys == wals.Keys && forall i :: i in wals ==> WalStored(conf, files[i], wals[i])
  }

  lemma PlainKeepsWals(s: System, a: Action)
    requires !a.FlushWal?
    ensures Step(s, a).wals == s.wals
  {
    hide Recover, Schedule, Compacts, FreshIds, M.Fence, M.RefreshClient, M.UpdateDbState;
  }

  lemma StepKeepsStored(conf: Config, max: nat, run: seq<StoredAction>, a: StoredAction)
    requires ConfigOk(conf)
    requires EntriesFit(StoredNext(conf, max, StoredExec(conf, max, run), a).st.history.DurableWrites())
    requires var s := StoredExec(conf, max, run);
             SystemStored(conf, s.disk.ssts, s.st.sys) && WalsStored(conf, s.disk.wals, s.st.sys.wals)
    ensures var s' := StoredNext(conf, max, StoredExec(conf, max, run), a);
            SystemStored(conf, s'.disk.ssts, s'.st.sys) && WalsStored(conf, s'.disk.wals, s'.st.sys.wals)
  {
    hide SystemStored, StoredExec, Exec, Step, UploadOfTable, WalStored, ConfigOk, EntriesFit, TableFits, JobOutputs,
         UploadsAll, FreshIds, TableOf, Persist, Concat;
    RunsOnTables(conf, max, run);
    var s := StoredExec(conf, max, run);
    var sys := s.st.sys;
    if Enabled(conf, max, sys, a) {
      if !a.UploadWal? {
        PlainKeepsWals(sys, OnTables(conf, max, sys, a));
      }
      match a {
        case Plain(b) => PlainKeeps(conf, s.disk.ssts, sys, b);
        case UploadWal(full, t) =>
          FlushWalKeeps(conf, s.disk.ssts, sys, full);
          OldestWalRows(Abstract(conf, max, run), full);
          WritesFitTable(s.st.history.frozen[0], Next(s.st, FlushWal(full)).history.DurableWrites());
          PersistFits(sys.writer.value.db.OldestWal().rows);
          UploadedWal(conf, s.disk.wals, sys, full, t);
        case UploadMemtable(id, t) =>
          var es := OldestMemtableRows(Abstract(conf, max, run));
          WritesFitTable(es, s.st.history.DurableWrites());
          PersistFits(TableOf(es));
          FlushMemtableKeepsStored(conf, s.disk.ssts, sys, id, t);
        case UploadRun(d, ids, ts) =>
          JobStored(conf, max, run, d);
          FinishKeeps(conf, max, s.disk.ssts, sys, d, ids, ts);
      }
    }
  }

  lemma UploadedWal(conf: Config, files: Files, s: System, full: Table -> bool, t: StoredSst)
    requires Enabled(conf, 0, s, UploadWal(full, t)) && ConfigOk(conf)
    requires WalsStored(conf, files, s.wals) && TableFits(Persist(s.writer.value.db.OldestWal().rows))
    ensures WalsStored(conf, files[s.writer.value.db.OldestWal().id := t], Step(s, FlushWal(full)).wals)
  {
    hide CoreStored, TableFits, Persist, UploadOfTable, Stores, ConfigOk, Listing, ReadInfo, Db.FlushOldestWal;
    TableStored(conf, t, s.writer.value.db.OldestWal().rows);
  }

  /** The inputs of a job in flight are in the compactor's L0, so they are stored. */
  lemma JobStored(conf: Config, max: nat, run: seq<StoredAction>, d: nat)
    requires var s := StoredExec(conf, max, run);
             && SystemStored(conf, s.disk.ssts, s.st.sys) && s.st.sys.compactor.Some?
             && d in s.st.sys.compactor.value.state.compactions
    ensures var s := StoredExec(conf, max, run); var c := s.st.sys.compactor.value;
            d in c.jobs && AllStored(conf, s.disk.ssts, c.jobs[d].ssts)
  {
    hide StoredExec, Exec, SstStored, RunStored, Descending, NextRunId, L0Sources;
    RunsOnTables(conf, max, run);
    SchedulerInvariant(Abstract(conf, max, run));
  }

  lemma EmptyStored(conf: Config)
    ensures SystemStored(conf, map[], EmptySystem) && WalsStored(conf, map[], EmptySystem.wals)
  {}

  lemma DurablePrefix(conf: Config, max: nat, s: StoredState, a: StoredAction)
    requires EntriesFit(StoredNext(conf, max, s, a).st.history.DurableWrites())
    ensures EntriesFit(s.st.history.DurableWrites())
  {
    hide Step, Enabled, EntryFits, Concat;
    if Enabled(conf, max, s.st.sys, a) && s.st.history.frozen != [] {
      ConcatAppend(s.st.history.flushed, [s.st.history.frozen[0]]);
    }
    assert s.st.history.DurableWrites() <= StoredNext(conf, max, s, a).st.history.DurableWrites();
  }

  /** In every run whose durable writes fit the row format, what is listed is stored. */
  lemma {:induction false} RunsAreStored(conf: Config, max: nat, run: seq<StoredAction>)
    requires ConfigOk(conf) && EntriesFit(StoredExec(conf, max, run).st.history.DurableWrites())
    ensures var s := StoredExec(conf, max, run);
            SystemStored(conf, s.disk.ssts, s.st.sys) && WalsStored(conf, s.disk.wals, s.st.sys.wals)
  {
    hide SystemStored, WalsStored, StoredNext, EntriesFit, ConfigOk, Concat;
    if run == [] {
      EmptyStored(conf);
    } else {
      var n := |run| - 1;
      DurablePrefix(conf, max, StoredExec(conf, max, run[..n]), run[n]);
      RunsAreStored(conf, max, run[..n]);
      StepKeepsStored(conf, max, run[..n], run[n]);
    }
  }
}
