/** The compactor's actions keep the invariant. */
module LsmCompactorSteps {
  import opened Tables
  import opened Manifests
  import opened WriterState
  import opened CompactorStates
  import opened Lsm
  import opened LsmFacts
  import opened LsmInvariant
  import opened LsmWriterSteps
  import opened LsmManifestSteps

  // ---------------------------------------------------------------- versions

  /** A version that is not the writer's own, seen by the writer. */
  lemma WriterKeepsWrite(w: WriterProcess, files: Files, ids: set<nat>, x: Trace, m: Manifest, lo: nat)
    requires FilesOk(files) && WriterOk(w, files, ids, x) && x.manifestLo <= lo
    requires m.Epoch(WriterKind) == Latest(files).Epoch(WriterKind)
    ensures FilesOk(files[|files| + 1 := m])
    ensures WriterOk(w, files[|files| + 1 := m], ids, x.(manifestLo := lo))
  {
    hide CoreOk, Consecutive;
    AppendVersion(files, m);
    ClientKeepsVersion(files, w.client, WriterKind, m);
  }

  lemma WriterIgnoresCompactor(w: WriterProcess, files: Files, ids: set<nat>, x: Trace, x': Trace)
    requires |files| in files && WriterOk(w, files, ids, x)
    requires x' == x.(compactorLo := x'.compactorLo, compactorHi := x'.compactorHi, end := x'.end)
    ensures WriterOk(w, files, ids, x')
  {}

  lemma StartCompactorKeeps(s: System, h: History, x: Trace)
    requires Created(s, h, x) && s.compactor.None?
    ensures Created(Step(s, StartCompactor), h, x.(compactorLo := x.manifestLo, compactorHi := x.manifestHi))
  {
    hide WalsOk, FlushedOk, CoreOk, ClientOk, Consecutive, DbOk, WriterOk;
    FenceOutcome(s.files, CompactorKind);
    var m := Latest(s.files).Bump(CompactorKind);
    var x' := x.(compactorLo := x.manifestLo, compactorHi := x.manifestHi);
    CoreBounds(Latest(s.files).core, x.all, x.marks, s.ids, x.manifestLo, x.manifestHi);
    if s.writer.Some? {
      WriterKeepsWrite(s.writer.value, s.files, s.ids, x, m, x.manifestLo);
      WriterIgnoresCompactor(s.writer.value, s.files[|s.files| + 1 := m], s.ids, x.(manifestLo := x.manifestLo), x');
    }
  }

  lemma RefreshKeepsCompactorCore(core: Core, read: Core, all: seq<Sst>, marks: seq<nat>, ids: set<nat>,
                                  lo: nat, hi: nat, lo': nat, hi': nat)
    requires CoreOk(core, all, marks, ids, lo, hi) && CoreOk(read, all, marks, ids, lo', hi')
    requires lo' <= lo && hi <= hi' && Distinct(all)
    ensures CoreOk(core.(l0 := Cut(read.l0, core.l0LastCompacted), nextWal := read.nextWal,
                         lastCompactedWal := read.lastCompactedWal), all, marks, ids, lo, hi')
  {
    hide RunsOk, Distinct;
    CutRange(all, lo', lo, hi');
  }

  lemma CompactorLoadKeeps(s: System, h: History, x: Trace)
    requires Created(s, h, x) && s.compactor.Some?
    ensures Created(Step(s, CompactorLoad), h, x.(compactorHi := x.manifestHi))
  {
    hide WalsOk, CoreOk, ClientOk, Consecutive, DbOk, WriterOk, Fold, Layers, Distinct;
    var c := s.compactor.value;
    var x' := x.(compactorHi := x.manifestHi);
    ClientLive(s.files, c.client, CompactorKind);
    RefreshOutcome(s.files, c.client, CompactorKind);
    RefreshKeepsCompactorCore(c.state.core, Latest(s.files).core, x.all, x.marks, s.ids,
                              x.compactorLo, x.compactorHi, x.manifestLo, x.manifestHi);
    CoreBounds(Latest(s.files).core, x.all, x.marks, s.ids, x.manifestLo, x.manifestHi);
    if s.writer.Some? {
      WriterIgnoresCompactor(s.writer.value, s.files, s.ids, x, x');
    }
  }

  lemma CompactorWriteKeeps(s: System, h: History, x: Trace)
    requires Created(s, h, x) && s.compactor.Some?
    ensures var x' := if s.compactor.value.client.id == |s.files| then x.(manifestLo := x.compactorLo) else x;
            Created(Step(s, CompactorWrite), h, x')
  {
    hide WalsOk, FlushedOk, CoreOk, ClientOk, Consecutive, DbOk, WriterOk;
    var c := s.compactor.value;
    ClientLive(s.files, c.client, CompactorKind);
    UpdateOutcome(s.files, c.client, CompactorKind, c.state.core);
    CoreBounds(c.state.core, x.all, x.marks, s.ids, x.compactorLo, x.compactorHi);
    if c.client.id == |s.files| {
      var m := Latest(s.files).(core := c.state.core);
      AppendVersion(s.files, m);
      if s.writer.Some? {
        WriterKeepsWrite(s.writer.value, s.files, s.ids, x, m, x.compactorLo);
      }
    }
  }

  // ---------------------------------------------------------------- scheduling

  lemma {:induction false} IdsBelow(runs: seq<Run>, bound: nat, i: nat)
    requires Descending(runs, bound) && i < |runs|
    ensures runs[i].id < bound
  {
    if i > 0 {
      IdsBelow(runs[1..], runs[0].id, i - 1);
    }
  }

  /** No run has the id that the scheduler asks for next. */
  lemma NextRunIdIsNew(runs: seq<Run>)
    requires Descending(runs, MAX_UINT32)
    ensures forall r :: r in runs ==> r.id < NextRunId(runs)
  {
    forall i | 0 <= i < |runs| ensures runs[i].id < NextRunId(runs) {
      if i > 0 {
        IdsBelow(runs[1..], runs[0].id, i - 1);
      }
    }
  }

  /** The scheduler's wish is accepted exactly when nothing is in flight. */
  lemma AcceptsOutcome(c: CompactorProcess, all: seq<Sst>, lo: nat, end: nat, hi: nat)
    requires lo <= hi <= |all| && InFlightOk(c, all, lo, end, hi)
    requires Descending(c.state.core.compacted, MAX_UINT32)
    ensures c.state.Accepts(Compaction(L0Sources(c.state.core.l0), NextRunId(c.state.core.compacted)))
            <==> c.state.compactions == map[]
  {
    NextRunIdIsNew(c.state.core.compacted);
  }

  lemma JobOfRange(state: Compactor, all: seq<Sst>, marks: seq<nat>, ids: set<nat>, lo: nat, hi: nat, d: nat)
    requires CoreOk(state.core, all, marks, ids, lo, hi) && Distinct(all)
    ensures state.JobFor(Compaction(L0Sources(state.core.l0), d)) == Some(Job(d, Range(all, lo, hi), []))
  {
    hide Layers, Descending, RunSsts;
    var l0 := state.core.l0;
    assert Distinct(l0);
    forall t, i | t in RunSsts(state.core.compacted) && 0 <= i < |l0| ensures t.id != l0[i].id {
      assert l0[i] == all[|all| - hi + i];
    }
    JobOfL0(state, d);
  }

  lemma ScheduleKeeps(s: System, h: History, x: Trace)
    requires Created(s, h, x) && s.compactor.Some?
    ensures Step(s, CompactorSchedule).compactor.Some?
    ensures var x' := if |s.compactor.value.state.core.l0| >= 4 && s.compactor.value.state.compactions == map[]
                      then x.(end := x.compactorHi) else x;
            Created(Step(s, CompactorSchedule), h, x')
  {
    hide WalsOk, CoreOk, ClientOk, Consecutive, DbOk, WriterOk, Fold, Layers, Distinct, NextRunId, Compactor.JobFor;
    var c := s.compactor.value;
    var core := c.state.core;
    CoreBounds(core, x.all, x.marks, s.ids, x.compactorLo, x.compactorHi);
    CoreOfRange(core, x.all, x.marks, s.ids, x.compactorLo, x.compactorHi);
    AcceptsOutcome(c, x.all, x.compactorLo, x.end, x.compactorHi);
    JobOfRange(c.state, x.all, x.marks, s.ids, x.compactorLo, x.compactorHi, NextRunId(core.compacted));
    if |core.l0| >= 4 && c.state.compactions == map[] {
      var x' := x.(end := x.compactorHi);
      if s.writer.Some? {
        WriterIgnoresCompactor(s.writer.value, s.files, s.ids, x, x');
      }
    }
  }

  lemma CoreOfRange(core: Core, all: seq<Sst>, marks: seq<nat>, ids: set<nat>, lo: nat, hi: nat)
    requires CoreOk(core, all, marks, ids, lo, hi)
    ensures core.l0 == Range(all, lo, hi) && Descending(core.compacted, MAX_UINT32)
  {}

  // ---------------------------------------------------------------- the end of a compaction

  lemma CoreKeepsIds(core: Core, all: seq<Sst>, marks: seq<nat>, ids: set<nat>, more: set<nat>, lo: nat, hi: nat)
    requires CoreOk(core, all, marks, ids, lo, hi)
    ensures CoreOk(core, all, marks, ids + more, lo, hi)
  {
    hide Layers, Descending, RunSsts;
  }

  lemma FlushedKeepsIds(all: seq<Sst>, marks: seq<nat>, flushed: seq<seq<Entry>>, ids: set<nat>, more: set<nat>)
    requires FlushedOk(all, marks, flushed, ids)
    ensures FlushedOk(all, marks, flushed, ids + more)
  {
    hide MarkOk, Persist;
  }

  /** Moving a stretch of SSTs from L0 into a run of the same rows keeps what lies below. */
  lemma RunsTakeStretch(runs: seq<Run>, all: seq<Sst>, ids: set<nat>, lo: nat, end: nat, out: Run)
    requires lo <= end <= |all| && RunsOk(runs, all, ids, lo)
    requires forall i :: 0 <= i < |all| ==> all[i].id in ids && Persist(all[i].rows) == all[i].rows
    requires FreshIds(out.ssts, ids) && Compacts(SstRows(Range(all, lo, end)), SstRows(out.ssts))
    requires out.id == NextRunId(runs) < MAX_UINT32
    ensures RunsOk([out] + runs, all, ids + (set t | t in out.ssts :: t.id), end)
  {
    hide Layers, Descending, RunSsts, Persist;
    var stretch := SstRows(Range(all, lo, end));
    RunRowsCons(out, runs);
    RunSstsCons(out, runs);
    InsertNextRun(runs, out);
    RangeRows(all, 0, lo, end);
    LayersPersisted(stretch);
  }

  lemma FinishedCore(state: Compactor, all: seq<Sst>, marks: seq<nat>, ids: set<nat>, lo: nat, hi: nat, end: nat,
                     out: Run)
    requires CoreOk(state.core, all, marks, ids, lo, hi) && lo < end <= hi && Distinct(all)
    requires out.id in state.compactions && out.id == NextRunId(state.core.compacted)
    requires state.compactions[out.id] == Compaction(L0Sources(Range(all, lo, end)), out.id)
    ensures state.FinishAsserts(out) <==> out.id < MAX_UINT32
    ensures var core := state.Finished(out);
            && core.l0 == Range(all, end, hi)
            && core.l0LastCompacted == MarkAt(all, end)
            && core.compacted == [out] + state.core.compacted
            && core.nextWal == state.core.nextWal && core.lastCompactedWal == state.core.lastCompactedWal
  {
    hide Distinct, Layers, RunSsts, KeepL0, Descending, NextRunId;
    var stretch := Range(all, lo, end);
    L0SourceRuns(stretch, out.id);
    InsertNextRun(state.core.compacted, out);
    KeepRange(all, lo, end, hi);
    assert L0Sources(stretch)[0] == SstSource(stretch[0].id);
  }

  lemma FinishKeepsCore(state: Compactor, all: seq<Sst>, marks: seq<nat>, flushed: seq<seq<Entry>>, ids: set<nat>,
                        lo: nat, hi: nat, end: nat, out: Run)
    requires CoreOk(state.core, all, marks, ids, lo, hi) && lo < end <= hi
    requires FlushedOk(all, marks, flushed, ids)
    requires out.id in state.compactions && out.id == NextRunId(state.core.compacted)
    requires state.compactions[out.id] == Compaction(L0Sources(Range(all, lo, end)), out.id)
    requires FreshIds(out.ssts, ids) && Compacts(SstRows(Range(all, lo, end)), SstRows(out.ssts))
    requires state.FinishAsserts(out)
    ensures CoreOk(state.Finished(out), all, marks, ids + (set t | t in out.ssts :: t.id), end, hi)
  {
    hide RunsOk, MarkOk, Compacts, FreshIds, Compactor.Finished, Compactor.FinishAsserts, Distinct, NextRunId;
    FinishedCore(state, all, marks, ids, lo, hi, end, out);
    RunsTakeStretch(state.core.compacted, all, ids, lo, end, out);
  }

  /** The effect of an accepted result on the compactor. */
  lemma FinishKeepsCompactor(c: CompactorProcess, files: Files, ids: set<nat>, x: Trace, flushed: seq<seq<Entry>>,
                             d: nat, ssts: seq<Sst>)
    requires |files| in files && CompactorOk(c, files, ids, x) && FlushedOk(x.all, x.marks, flushed, ids)
    requires d in c.jobs && d in c.state.compactions && FreshIds(ssts, ids)
    requires Compacts(SstRows(c.jobs[d].ssts), SstRows(ssts))
    requires c.state.FinishAsserts(Run(d, ssts))
    ensures CompactorOk(c.(state := c.state.Finish(Run(d, ssts)), jobs := c.jobs - {d}), files,
                        ids + (set t | t in ssts :: t.id), x.(compactorLo := x.end))
  {
    hide CoreOk, ClientOk, FlushedOk, FreshIds, Compacts, Compactor.FinishAsserts, NextRunId, L0Sources, Range;
    var out := Run(d, ssts);
    CoreBounds(c.state.core, x.all, x.marks, ids, x.compactorLo, x.compactorHi);
    FinishKeepsCore(c.state, x.all, x.marks, flushed, ids, x.compactorLo, x.compactorHi, x.end, out);
    assert c.state.compactions - {d} == map[];
  }

  lemma CompactorFinishKeeps(s: System, h: History, x: Trace, d: nat, ssts: seq<Sst>)
    requires Created(s, h, x) && s.compactor.Some?
    ensures var s' := Step(s, CompactorFinish(d, ssts));
            Created(s', h, if s' != s && s'.compactor.Some? then x.(compactorLo := x.end) else x)
  {
    hide WalsOk, FlushedOk, CoreOk, ClientOk, Consecutive, DbOk, CompactorOk,
         FreshIds, Compacts, Compactor.FinishAsserts, Compactor.Finish;
    var a := CompactorFinish(d, ssts);
    var s' := Step(s, a);
    var c := s.compactor.value;
    if d in c.jobs && c.jobs[d].runs == [] && d in c.state.compactions && FreshIds(ssts, s.ids)
       && Compacts(SstRows(c.jobs[d].ssts), SstRows(ssts)) {
      var more := set t | t in ssts :: t.id;
      FlushedKeepsIds(x.all, x.marks, h.flushed, s.ids, more);
      CoreKeepsIds(Latest(s.files).core, x.all, x.marks, s.ids, more, x.manifestLo, x.manifestHi);
      if s.writer.Some? {
        CoreKeepsIds(s.writer.value.db.core, x.all, x.marks, s.ids, more, x.writerLo, |x.all|);
        WriterIgnoresCompactor(s.writer.value, s.files, s.ids + more, x, x.(compactorLo := x.end));
      }
      if c.state.FinishAsserts(Run(d, ssts)) {
        FinishKeepsCompactor(c, s.files, s.ids, x, h.flushed, d, ssts);
        assert s'.compactor == Some(c.(state := c.state.Finish(Run(d, ssts)), jobs := c.jobs - {d}));
        assert d !in s'.compactor.value.jobs;
      }
    }
  }
}
