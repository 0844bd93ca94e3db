/** Recovery, lost updates, scheduling and the background steps: further guarantees of every run. */
module LsmGuarantees {
  import opened Tables
  import opened Manifests
  import opened WriterState
  import opened CompactorStates
  import opened Lsm
  import opened LsmFacts
  import opened LsmInvariant
  import opened LsmWriterSteps
  import opened LsmManifestSteps
  import opened LsmCompactorSteps
  import opened LsmTheorems

  // ---------------------------------------------------------------- durability

  lemma ExecNext(run: seq<Action>, a: Action)
    ensures Exec(run + [a]) == Next(Exec(run), a)
  {
    assert (run + [a])[..|run + [a]| - 1] == run;
  }

  /** A write that has reached an uploaded WAL stays among the durable writes for the rest of the run. */
  lemma {:induction false} DurableWritesStay(run: seq<Action>, rest: seq<Action>)
    ensures Exec(run).history.flushed <= Exec(run + rest).history.flushed
    decreases |rest|
  {
    hide Step;
    if rest == [] {
      assert run + rest == run;
    } else {
      var n := |rest| - 1;
      DurableWritesStay(run, rest[..n]);
      assert run + rest == run + rest[..n] + [rest[n]];
      ExecNext(run + rest[..n], rest[n]);
    }
  }

  /** The map obtained by applying the uploaded WALs 1 up to n, in order. */
  ghost function WalFold(wals: map<nat, Table>, n: nat): Table
    requires forall i :: 1 <= i <= n ==> i in wals
  {
    if n == 0 then map[] else WalFold(wals, n - 1) + wals[n]
  }

  lemma {:induction false} WalFoldIsFold(wals: map<nat, Table>, flushed: seq<seq<Entry>>, n: nat)
    requires WalsOk(wals, flushed) && n <= |flushed|
    ensures WalFold(wals, n) == Persist(Fold(flushed, 0, n))
  {
    hide TableOf, Fold, Persist;
    if n == 0 {
      FoldEmpty(flushed, 0);
      PersistEmpty();
    } else {
      WalFoldIsFold(wals, flushed, n - 1);
      FoldSplit(flushed, 0, n - 1, n);
      FoldOne(flushed, n - 1);
      PersistOverlay(Fold(flushed, 0, n - 1), TableOf(flushed[n - 1]));
    }
  }

  /** Opening a writer over what a crash has left. The latest manifest's next WAL id decides whether
      the assertion at the end of the replay holds. */
  lemma OpenRecovers(s: System, h: History, x: Trace, full: Table -> bool)
    requires Created(s, h, x) && s.writer.None?
    ensures var s' := Step(s, OpenWriter(full));
            && (s'.writer.Some? <==> Latest(s.files).core.nextWal <= |h.flushed| + 1)
            && (s'.writer.Some? ==>
                  && Layers(s'.writer.value.db.CommittedTiers()) == Persist(TableOf(h.DurableWrites()))
                  && s'.writer.value.db.wal == map[] && s'.writer.value.db.immWals == [])
  {
    hide WalsOk, FlushedOk, CoreOk, ClientOk, Consecutive, DbOk, CompactorOk, MemtablesOk, Kept,
         Layers, TableOf, Persist, Db.CommittedTiers;
    FenceOutcome(s.files, WriterKind);
    var core := Latest(s.files).core;
    CoreBounds(core, x.all, x.marks, s.ids, x.manifestLo, x.manifestHi);
    MarkBounds(x.all, x.marks, h.flushed, s.ids, x.manifestHi);
    RecoverOutcome(core, s.wals, h.flushed, full);
    var (db, ok) := Recover(core, s.wals, full);
    if ok {
      ReplayedIsOk(db, core, h.flushed);
      CoreWithNextWal(core, x.all, x.marks, s.ids, x.manifestLo, x.manifestHi, db.core.nextWal);
      CommittedHolds(db, History(h.flushed, [], [], |h.flushed|), x.all, x.marks, s.ids, x.manifestLo);
      FoldEmpty(h.flushed, |h.flushed|);
      WholeFold(h.flushed);
    }
  }

  /** Crash recovery. Drop the writer's memory at any point of any run and open the database again:
      the durable writes are those from before the crash; the open succeeds exactly when the latest
      manifest's next WAL id is at most one above the number of uploaded WALs; and then the state read
      back, from every tier, is exactly the uploaded WALs applied in order. */
  lemma CrashRecovery(run: seq<Action>, full: Table -> bool)
    requires Exec(run).sys.files != map[]
    ensures var st := Exec(run); var st' := Exec(run + [CrashWriter, OpenWriter(full)]);
            && |st.sys.files| in st.sys.files
            && st'.history.flushed == st.history.flushed && st'.sys.wals == st.sys.wals
            && (forall i :: 1 <= i <= |st.sys.wals| ==> i in st.sys.wals)
            && (st'.sys.writer.Some? <==> Latest(st.sys.files).core.nextWal <= |st.sys.wals| + 1)
            && (st'.sys.writer.Some? ==>
                  && Layers(st'.sys.writer.value.db.CommittedTiers()) == WalFold(st.sys.wals, |st.sys.wals|)
                  && st'.sys.writer.value.db.wal == map[] && st'.sys.writer.value.db.immWals == []
                  && WalFold(st.sys.wals, |st.sys.wals|) == Persist(TableOf(st.history.DurableWrites())))
  {
    hide Exec, Created, Layers, TableOf, Persist, WalFold, Concat, Step, Db.CommittedTiers;
    var st := Exec(run);
    var x := AfterCrash(run, full);
    var crashed := Exec(run + [CrashWriter]);
    OpenRecovers(crashed.sys, crashed.history, x, full);
    WalsOfCreated(crashed.sys, crashed.history, x);
    WalFoldIsFold(st.sys.wals, st.history.flushed, |st.history.flushed|);
    WholeFold(st.history.flushed);
  }

  lemma AfterCrash(run: seq<Action>, full: Table -> bool) returns (x: Trace)
    requires Exec(run).sys.files != map[]
    ensures var st := Exec(run); var st1 := Exec(run + [CrashWriter]);
            && Created(st1.sys, st1.history, x)
            && st1.sys.writer.None?
            && st1.sys.files == st.sys.files && st1.sys.wals == st.sys.wals
            && st1.history.flushed == st.history.flushed
            && Exec(run + [CrashWriter, OpenWriter(full)]).sys == Step(st1.sys, OpenWriter(full))
            && Exec(run + [CrashWriter, OpenWriter(full)]).history == st1.history.(recovered := |st1.history.flushed|)
            && Exec(run + [CrashWriter, OpenWriter(full)]).sys.wals == st.sys.wals
  {
    hide Exec, Created, Recover;
    ExecNext(run, CrashWriter);
    assert run + [CrashWriter, OpenWriter(full)] == run + [CrashWriter] + [OpenWriter(full)];
    ExecNext(run + [CrashWriter], OpenWriter(full));
    x := RunKeepsInv(run + [CrashWriter]);
  }

  lemma WalsOfCreated(s: System, h: History, x: Trace)
    requires Created(s, h, x)
    ensures |s.files| in s.files && WalsOk(s.wals, h.flushed) && |s.wals| == |h.flushed|
    ensures forall i :: 1 <= i <= |s.wals| ==> i in s.wals
  {
    WalCount(s.wals, h.flushed);
  }

  lemma {:induction false} KeysUpTo<T>(m: map<nat, T>, n: nat)
    requires forall i :: i in m <==> 1 <= i <= n
    ensures |m| == n
    decreases n
  {
    if n == 0 {
      assert m == map[];
    } else {
      KeysUpTo(m - {n}, n - 1);
      assert m.Keys == (m - {n}).Keys + {n};
    }
  }

  lemma WalCount(wals: map<nat, Table>, flushed: seq<seq<Entry>>)
    requires WalsOk(wals, flushed)
    ensures |wals| == |flushed|
    ensures forall i :: 1 <= i <= |wals| ==> i in wals
  {
    KeysUpTo(wals, |flushed|);
  }

  // ---------------------------------------------------------------- no lost update

  /** The files grew by the next version. */
  ghost predicate Adds(files: Files, files': Files) {
    && |files| + 1 !in files && |files| + 1 in files'
    && files' == files[|files| + 1 := files'[|files| + 1]]
  }

  lemma AppendAdds(files: Files, m: Manifest)
    requires FilesOk(files)
    ensures Adds(files, files[|files| + 1 := m])
  {
    AppendVersion(files, m);
  }

  lemma WriteOutcome(s: System, h: History, x: Trace)
    requires Created(s, h, x)
    ensures FilesOk(s.files)
    ensures s.writer.Some? ==>
              var w := s.writer.value; var files' := Step(s, WriterWrite).files;
              if w.client.id == |s.files|
              then files' == s.files[|s.files| + 1 := Latest(s.files).(core := w.db.core)] && Adds(s.files, files')
              else files' == s.files
    ensures s.compactor.Some? ==>
              var c := s.compactor.value; var files' := Step(s, CompactorWrite).files;
              if c.client.id == |s.files|
              then files' == s.files[|s.files| + 1 := Latest(s.files).(core := c.state.core)] && Adds(s.files, files')
              else files' == s.files
  {
    hide WalsOk, FlushedOk, Consecutive, DbOk, ClientOk, CoreOk, InFlightOk, Adds;
    if s.writer.Some? {
      var w := s.writer.value;
      ClientLive(s.files, w.client, WriterKind);
      UpdateOutcome(s.files, w.client, WriterKind, w.db.core);
      AppendAdds(s.files, Latest(s.files).(core := w.db.core));
    }
    if s.compactor.Some? {
      var c := s.compactor.value;
      ClientLive(s.files, c.client, CompactorKind);
      UpdateOutcome(s.files, c.client, CompactorKind, c.state.core);
      AppendAdds(s.files, Latest(s.files).(core := c.state.core));
    }
  }

  /** Every version that the writer adds keeps the runs, the mark and the epoch that the compactor put
      into the version before, and keeps that version's L0 as the oldest part of its own. */
  lemma WriterLosesNoCompaction(run: seq<Action>)
    requires Exec(run).sys.writer.Some?
    requires Step(Exec(run).sys, WriterWrite).files != Exec(run).sys.files
    ensures var files := Exec(run).sys.files; var files' := Step(Exec(run).sys, WriterWrite).files; var n := |files|;
            && n in files && Adds(files, files')
            && files'[n + 1].core.compacted == files[n].core.compacted
            && files'[n + 1].core.l0LastCompacted == files[n].core.l0LastCompacted
            && files'[n + 1].compactorEpoch == files[n].compactorEpoch
            && |files[n].core.l0| <= |files'[n + 1].core.l0|
            && files'[n + 1].core.l0[|files'[n + 1].core.l0| - |files[n].core.l0|..] == files[n].core.l0
  {
    hide Exec, Step, WalsOk, FlushedOk, Consecutive, DbOk, CompactorOk, ClientOk, RunsOk, MarkAt, Layers;
    var s := Exec(run).sys;
    var x := DbOfRun(run);
    WriteOutcome(s, Exec(run).history, x);
    RangeRows(x.all, x.writerLo, x.manifestHi, |x.all|);
    var l0, newer := Latest(s.files).core.l0, Range(x.all, x.manifestHi, |x.all|);
    assert s.writer.value.db.core.l0 == newer + l0;
  }

  /** Every version that the compactor adds keeps the WAL ids and the epoch that the writer put into
      the version before, and every L0 SST of that version in front of its own mark. */
  lemma CompactorLosesNoFlush(run: seq<Action>)
    requires Exec(run).sys.compactor.Some?
    requires Step(Exec(run).sys, CompactorWrite).files != Exec(run).sys.files
    ensures var files := Exec(run).sys.files; var files' := Step(Exec(run).sys, CompactorWrite).files; var n := |files|;
            && n in files && Adds(files, files')
            && files'[n + 1].core.nextWal == files[n].core.nextWal
            && files'[n + 1].core.lastCompactedWal == files[n].core.lastCompactedWal
            && files'[n + 1].writerEpoch == files[n].writerEpoch
            && files'[n + 1].core.l0 == Cut(files[n].core.l0, files'[n + 1].core.l0LastCompacted)
  {
    hide Exec, Step, WalsOk, Consecutive, DbOk, WriterOk, ClientOk, RunsOk, InFlightOk, MarkOk, Distinct, Persist;
    var s := Exec(run).sys;
    var x := RunKeepsInv(run);
    WriteOutcome(s, Exec(run).history, x);
    CutRange(x.all, x.manifestLo, x.compactorLo, x.manifestHi);
  }

  ghost predicate ListsNoMark(core: Core) {
    forall i :: 0 <= i < |core.l0| ==> core.l0LastCompacted != Some(core.l0[i].id)
  }

  lemma CoreListsNoMark(core: Core, all: seq<Sst>, marks: seq<nat>, ids: set<nat>, lo: nat, hi: nat)
    requires CoreOk(core, all, marks, ids, lo, hi) && Distinct(all)
    ensures ListsNoMark(core)
  {
    hide RunsOk;
  }

  lemma LatestListsNoMark(s: System, h: History, x: Trace)
    requires Created(s, h, x)
    ensures FilesOk(s.files) && ListsNoMark(Latest(s.files).core)
  {
    hide CoreOk, WalsOk, MarkOk, DbOk, WriterOk, CompactorOk, Consecutive;
    CoreListsNoMark(Latest(s.files).core, x.all, x.marks, s.ids, x.manifestLo, x.manifestHi);
  }

  /** The versions stay as they are, or one is added that keeps or raises the epochs. */
  ghost predicate Grows(files: Files, files': Files) {
    files' == files
    || (FilesOk(files) && Adds(files, files')
        && forall k :: files'[|files| + 1].Epoch(k) >= files[|files|].Epoch(k))
  }

  /** A version is added that raises the epoch of a kind. */
  ghost predicate Raises(files: Files, files': Files, kind: Kind) {
    FilesOk(files) && Adds(files, files') && files'[|files| + 1].Epoch(kind) > files[|files|].Epoch(kind)
  }

  lemma StepGrows(s: System, h: History, x: Trace, a: Action)
    requires Created(s, h, x)
    ensures Grows(s.files, Step(s, a).files)
    ensures a.OpenWriter? && s.writer.None? ==> Raises(s.files, Step(s, a).files, WriterKind)
    ensures a.StartCompactor? && s.compactor.None? ==> Raises(s.files, Step(s, a).files, CompactorKind)
  {
    hide WalsOk, FlushedOk, Consecutive, DbOk, ClientOk, CoreOk, Recover, InFlightOk, WriterOk, CompactorOk, Adds,
         UpdateDbState, RefreshClient, Fence, Persist, Compacts, FreshIds, Compactor.FinishAsserts, Schedule,
         Compactor.Finish, Compactor.Refresh, Db.Refresh, Db.FlushOldestWal, Db.MoveToL0, Db.FreezeWal;
    WriteOutcome(s, h, x);
    if a.OpenWriter? {
      FenceOutcome(s.files, WriterKind);
      AppendAdds(s.files, Latest(s.files).Bump(WriterKind));
    } else if a.StartCompactor? {
      FenceOutcome(s.files, CompactorKind);
      AppendAdds(s.files, Latest(s.files).Bump(CompactorKind));
    }
  }

  /** No version of the manifest, at any point of any run, lists its own mark in L0. */
  lemma {:induction false} NoVersionListsItsMark(run: seq<Action>, id: nat)
    requires id in Exec(run).sys.files
    ensures ListsNoMark(Exec(run).sys.files[id].core)
  {
    hide Step, StepHistory, Created;
    if run != [] {
      var n := |run| - 1;
      var s, s' := Exec(run[..n]).sys, Exec(run).sys;
      var x := RunKeepsInv(run[..n]);
      var x' := RunKeepsInv(run);
      if NotCreated(s, Exec(run[..n]).history) {
        FirstVersion(s, run[n]);
      } else {
        StepGrows(s, Exec(run[..n]).history, x, run[n]);
        if id in s.files && s'.files[id] == s.files[id] {
          NoVersionListsItsMark(run[..n], id);
        } else {
          LatestListsNoMark(s', Exec(run).history, x');
        }
      }
    }
  }

  lemma FirstVersion(s: System, a: Action)
    requires s == EmptySystem
    ensures forall id :: id in Step(s, a).files ==> Step(s, a).files[id].core == NewCore
  {}

  // ---------------------------------------------------------------- the scheduler

  /** Under the size-tiered scheduler at most one compaction is in flight; whatever has been flushed
      and reloaded since it was submitted, its sources are exactly the oldest part of the current L0,
      from some position k, in order, and its job holds those SSTs; its destination is the next run
      id; and the run ids strictly decrease below the largest uint32. */
  lemma SchedulerInvariant(run: seq<Action>)
    requires Exec(run).sys.compactor.Some?
    ensures var c := Exec(run).sys.compactor.value; var core := c.state.core;
            && Descending(core.compacted, MAX_UINT32)
            && |c.state.compactions| <= 1
            && forall d :: d in c.state.compactions ==>
                 && d == NextRunId(core.compacted)
                 && exists k :: 0 <= k <= |core.l0| - 4
                       && c.state.compactions[d] == Compaction(L0Sources(core.l0[k..]), d)
                       && d in c.jobs && c.jobs[d] == Job(d, core.l0[k..], [])
  {
    hide Exec, Descending, NextRunId, L0Sources;
    var c := Exec(run).sys.compactor.value;
    var x := CompactorOfRun(run);
    var k := x.compactorHi - x.end;
    if d :| d in c.state.compactions {
      assert c.state.core.l0[k..] == Range(x.all, x.compactorLo, x.end);
      OnlyKey(c.state.compactions, d);
    } else {
      assert c.state.compactions == map[];
    }
  }

  /** No source of a compaction that the scheduler asks for is missing: its job holds exactly L0. */
  lemma JobsAreComplete(run: seq<Action>)
    requires Exec(run).sys.compactor.Some?
    ensures var state := Exec(run).sys.compactor.value.state;
            forall c :: c in Scheduled(state.core) ==>
              state.JobFor(c) == Some(Job(NextRunId(state.core.compacted), state.core.l0, []))
  {
    hide Exec, WalsOk, MarkOk, Consecutive, DbOk, WriterOk, ClientOk, CoreOk, NextRunId, Compactor.JobFor, InFlightOk,
         L0Sources;
    var s := Exec(run).sys;
    var x := RunKeepsInv(run);
    CoreBounds(s.compactor.value.state.core, x.all, x.marks, s.ids, x.compactorLo, x.compactorHi);
    CoreOfRange(s.compactor.value.state.core, x.all, x.marks, s.ids, x.compactorLo, x.compactorHi);
    JobOfRange(s.compactor.value.state, x.all, x.marks, s.ids, x.compactorLo, x.compactorHi,
               NextRunId(s.compactor.value.state.core.compacted));
  }

  lemma CompactorOfRun(run: seq<Action>) returns (x: Trace)
    requires Exec(run).sys.compactor.Some?
    ensures var c := Exec(run).sys.compactor.value;
            && x.compactorLo <= x.compactorHi <= |x.all|
            && c.state.core.l0 == Range(x.all, x.compactorLo, x.compactorHi)
            && Descending(c.state.core.compacted, MAX_UINT32)
            && InFlightOk(c, x.all, x.compactorLo, x.end, x.compactorHi)
  {
    hide Exec, WalsOk, FlushedOk, Consecutive, DbOk, WriterOk, ClientOk, RunRows, Layers, RunSsts, Descending,
         InFlightOk;
    x := RunKeepsInv(run);
  }

  lemma OnlyKey(m: map<nat, Compaction>, d: nat)
    requires d in m && forall e :: e in m ==> e == d
    ensures |m| == 1
  {
    assert m.Keys == {d};
  }

  /** When a result arrives, the assertions of finishCompaction hold exactly if the destination is
      below the largest uint32; then only the SSTs newer than the sources stay in L0, the newest
      source becomes the mark, and the output becomes the newest run. */
  lemma FinishTakesTheSources(run: seq<Action>, d: nat, ssts: seq<Sst>)
    requires Exec(run).sys.compactor.Some? && d in Exec(run).sys.compactor.value.state.compactions
    ensures var c := Exec(run).sys.compactor.value; var core := c.state.core; var out := Run(d, ssts);
            && (c.state.FinishAsserts(out) <==> d < MAX_UINT32)
            && exists k :: 0 <= k < |core.l0|
                  && c.state.compactions[d].sources == L0Sources(core.l0[k..])
                  && c.state.Finished(out).l0 == core.l0[..k]
                  && c.state.Finished(out).l0LastCompacted == Some(core.l0[k].id)
                  && c.state.Finished(out).compacted == [out] + core.compacted
  {
    hide Exec, WalsOk, MarkOk, Consecutive, DbOk, WriterOk, ClientOk, RunsOk, NextRunId,
         Compactor.Finished, Compactor.FinishAsserts;
    var s := Exec(run).sys;
    var c := s.compactor.value;
    var x := RunKeepsInv(run);
    FinishedCore(c.state, x.all, x.marks, s.ids, x.compactorLo, x.compactorHi, x.end, Run(d, ssts));
    var k := x.compactorHi - x.end;
    assert c.state.core.l0[k..] == Range(x.all, x.compactorLo, x.end);
    assert c.state.core.l0[..k] == Range(x.all, x.end, x.compactorHi);
  }
}
