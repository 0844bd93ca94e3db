/** The compactor's state (slatedb/compactor_state.go), the size-tiered scheduler
    (slatedb/size_tiered_compaction.go) and the choice of a job's inputs (slatedb/compactor.go).

    `Compactor` is the state as a value; the functions on it specify the methods of the class
    `CompactorState`.
 */
module CompactorStates {
  import opened Tables
  import opened Manifests
  import W = WriterState

  const MAX_UINT32: nat := 0xFFFF_FFFF

  datatype SourceId = SstSource(id: nat) | RunSource(id: nat)

  datatype Compaction = Compaction(sources: seq<SourceId>, destination: nat)

  datatype Job = Job(destination: nat, ssts: seq<Sst>, runs: seq<Run>)

  // ---------------------------------------------------------------- lists of SSTs and runs

  function KeepL0(l0: seq<Sst>, sources: seq<SourceId>): seq<Sst> {
    if l0 == [] then []
    else (if SstSource(l0[0].id) in sources then [] else [l0[0]]) + KeepL0(l0[1..], sources)
  }

  lemma KeepStep(l0: seq<Sst>, i: nat, sources: seq<SourceId>, front: seq<Sst>)
    requires i < |l0|
    ensures var kept := if SstSource(l0[i].id) in sources then front else front + [l0[i]];
            front + KeepL0(l0[i..], sources) == kept + KeepL0(l0[i + 1..], sources)
  {
    assert l0[i..][0] == l0[i] && l0[i..][1..] == l0[i + 1..];
  }

  function KeepRuns(runs: seq<Run>, gone: set<nat>): seq<Run> {
    if runs == [] then []
    else (if runs[0].id in gone then [] else [runs[0]]) + KeepRuns(runs[1..], gone)
  }

  /** Insert a run in front of the first run whose id is not larger, dropping the runs in `gone`. */
  function InsertRun(runs: seq<Run>, out: Run, gone: set<nat>): seq<Run> {
    if runs == [] then [out]
    else if out.id >= runs[0].id then [out] + KeepRuns(runs, gone)
    else (if runs[0].id in gone then [] else [runs[0]]) + InsertRun(runs[1..], out, gone)
  }

  /** What is still to come of InsertRun in a pass over the runs. */
  ghost function Rest(runs: seq<Run>, out: Run, gone: set<nat>, inserted: bool): seq<Run> {
    if inserted then KeepRuns(runs, gone) else InsertRun(runs, out, gone)
  }

  lemma RestUnfolds(runs: seq<Run>, out: Run, gone: set<nat>, was: bool)
    requires runs != []
    ensures var kept := if runs[0].id in gone then [] else [runs[0]];
            Rest(runs, out, gone, was)
            == if was then kept + Rest(runs[1..], out, gone, true)
               else if out.id >= runs[0].id then [out] + (kept + Rest(runs[1..], out, gone, true))
               else kept + Rest(runs[1..], out, gone, false)
  {}

  lemma RestStep(runs: seq<Run>, i: nat, out: Run, gone: set<nat>, was: bool, inserted: bool, front: seq<Run>,
                 merged: seq<Run>)
    requires i < |runs| && inserted == (was || out.id >= runs[i].id)
    requires merged == front + (if inserted && !was then [out] else []) + (if runs[i].id in gone then [] else [runs[i]])
    ensures front + Rest(runs[i..], out, gone, was) == merged + Rest(runs[i + 1..], out, gone, inserted)
  {
    hide Rest, InsertRun, KeepRuns;
    var rest := runs[i..];
    assert rest[0] == runs[i] && rest[1..] == runs[i + 1..];
    RestUnfolds(rest, out, gone, was);
  }

  lemma RestWhole(runs: seq<Run>, out: Run, gone: set<nat>)
    ensures InsertRun(runs, out, gone) == [] + Rest(runs[0..], out, gone, false)
  {
    assert runs[0..] == runs;
  }

  lemma RestNone(runs: seq<Run>, out: Run, gone: set<nat>, inserted: bool)
    requires runs == []
    ensures Rest(runs, out, gone, inserted) == if inserted then [] else [out]
  {}

  /** The order that the compactor asserts: ids strictly decrease, starting below `bound`. */
  predicate Descending(runs: seq<Run>, bound: nat) {
    runs == [] || (runs[0].id < bound && Descending(runs[1..], runs[0].id))
  }

  function SourceRuns(c: Compaction): set<nat> {
    (set s | s in c.sources && s.RunSource? :: s.id) + {c.destination}
  }

  /** All SSTs of a state, L0 first. */
  function AllSsts(core: Core): seq<Sst> {
    core.l0 + RunSsts(core.compacted)
  }

  function RunSsts(runs: seq<Run>): seq<Sst> {
    if runs == [] then [] else RunSsts(runs[..|runs| - 1]) + runs[|runs| - 1].ssts
  }

  function ById(ssts: seq<Sst>): map<nat, Sst> {
    if ssts == [] then map[]
    else ById(ssts[..|ssts| - 1])[ssts[|ssts| - 1].id := ssts[|ssts| - 1]]
  }

  function RunsById(runs: seq<Run>): map<nat, Run> {
    if runs == [] then map[]
    else RunsById(runs[..|runs| - 1])[runs[|runs| - 1].id := runs[|runs| - 1]]
  }

  /** The SSTs that the sources name, or None when one of them is unknown. */
  function PickSsts(byId: map<nat, Sst>, sources: seq<SourceId>): Option<seq<Sst>> {
    if sources == [] then Some([])
    else
      var front := PickSsts(byId, sources[..|sources| - 1]);
      match sources[|sources| - 1]
      case RunSource(_) => front
      case SstSource(id) =>
        if front.Some? && id in byId then Some(front.value + [byId[id]]) else None
  }

  function PickRuns(byId: map<nat, Run>, sources: seq<SourceId>): Option<seq<Run>> {
    if sources == [] then Some([])
    else
      var front := PickRuns(byId, sources[..|sources| - 1]);
      match sources[|sources| - 1]
      case SstSource(_) => front
      case RunSource(id) =>
        if front.Some? && id in byId then Some(front.value + [byId[id]]) else None
  }

  // ---------------------------------------------------------------- the scheduler

  function NextRunId(runs: seq<Run>): nat {
    if runs == [] then 0 else (runs[0].id + 1) % (MAX_UINT32 + 1)
  }

  function L0Sources(l0: seq<Sst>): seq<SourceId> {
    seq(|l0|, i requires 0 <= i < |l0| => SstSource(l0[i].id))
  }

  function Scheduled(core: Core): seq<Compaction> {
    if |core.l0| >= 4 then [Compaction(L0Sources(core.l0), NextRunId(core.compacted))] else []
  }

  method MaybeScheduleCompaction(core: Core) returns (compactions: seq<Compaction>)
    ensures compactions == Scheduled(core)
  {
    compactions := [];
    if |core.l0| >= 4 {
      var sources: seq<SourceId> := [];
      for i := 0 to |core.l0|
        invariant sources == L0Sources(core.l0[..i])
      {
        sources := sources + [SstSource(core.l0[i].id)];
      }
      assert core.l0[..|core.l0|] == core.l0;
      var next := 0;
      if |core.compacted| > 0 {
        next := (core.compacted[0].id + 1) % (MAX_UINT32 + 1);
      }
      compactions := compactions + [Compaction(sources, next)];
    }
  }

  /** From four L0 SSTs on, and only then, one compaction is asked for: of all of L0, in order, into the run id
      after the newest. */
  lemma ScheduledExact(core: Core)
    ensures |Scheduled(core)| == if |core.l0| >= 4 then 1 else 0
    ensures forall c :: c in Scheduled(core) ==>
              && |c.sources| == |core.l0|
              && (forall i :: 0 <= i < |core.l0| ==> c.sources[i] == SstSource(core.l0[i].id))
              && (core.compacted == [] ==> c.destination == 0)
              && (core.compacted != [] && core.compacted[0].id < MAX_UINT32 ==>
                    c.destination == core.compacted[0].id + 1)
              && (core.compacted != [] && core.compacted[0].id == MAX_UINT32 ==> c.destination == 0)
  {}

  // ---------------------------------------------------------------- the operations, on values

  datatype Compactor = Compactor(core: Core, compactions: map<nat, Compaction>) {

    /** A compaction is refused while another one has the same destination, and when it would
        overwrite a run that is not among its sources. */
    predicate Accepts(c: Compaction) {
      && c.destination !in compactions
      && ((exists r :: r in core.compacted && r.id == c.destination) ==> RunSource(c.destination) in c.sources)
    }

    function Submit(c: Compaction): Compactor {
      if Accepts(c) then this.(compactions := compactions[c.destination := c]) else this
    }

    /** Adopt the writer's part of a manifest; keep the compactor's own part. */
    function Refresh(read: Core): Compactor {
      this.(core := core.(l0 := W.Cut(read.l0, core.l0LastCompacted),
                          nextWal := read.nextWal,
                          lastCompactedWal := read.lastCompactedWal))
    }

    function Finished(out: Run): Core
      requires out.id in compactions
    {
      var c := compactions[out.id];
      core.(l0 := KeepL0(core.l0, c.sources),
            compacted := InsertRun(core.compacted, out, SourceRuns(c)),
            l0LastCompacted := if c.sources != [] && c.sources[0].SstSource? then Some(c.sources[0].id)
                               else core.l0LastCompacted)
    }

    /** The two assertions that finishing a compaction makes. */
    predicate FinishAsserts(out: Run)
      requires out.id in compactions
    {
      Descending(Finished(out).compacted, MAX_UINT32) && compactions[out.id].sources != []
    }

    function Finish(out: Run): Compactor {
      if out.id in compactions && FinishAsserts(out)
      then Compactor(Finished(out), compactions - {out.id})
      else this
    }

    /** The inputs of a job, looked up by id in the current state. */
    function JobFor(c: Compaction): Option<Job> {
      var ssts := PickSsts(ById(AllSsts(core)), c.sources);
      var runs := PickRuns(RunsById(core.compacted), c.sources);
      if ssts.Some? && runs.Some? then Some(Job(c.destination, ssts.value, runs.value)) else None
    }
  }

  // ---------------------------------------------------------------- the class

  class CompactorState {
    var core: Core
    var compactions: map<nat, Compaction>

    ghost function Value(): Compactor
      reads this
    {
      Compactor(core, compactions)
    }

    constructor (core: Core)
      ensures Value() == Compactor(core, map[])
    {
      this.core := core;
      compactions := map[];
    }

    method OneOfTheSourceRunsMatchesDestination(c: Compaction) returns (found: bool)
      ensures found == (RunSource(c.destination) in c.sources)
    {
      for i := 0 to |c.sources|
        invariant RunSource(c.destination) !in c.sources[..i]
      {
        if c.sources[i] == RunSource(c.destination) {
          return true;
        }
      }
      return false;
    }

    method SubmitCompaction(c: Compaction) returns (accepted: bool)
      modifies this
      ensures Value() == old(Value()).Submit(c)
      ensures accepted == old(Value()).Accepts(c)
    {
      if c.destination in compactions {
        return false;
      }
      for i := 0 to |core.compacted|
        invariant Value() == old(Value())
        invariant forall j :: 0 <= j < i ==> core.compacted[j].id != c.destination
      {
        if core.compacted[i].id == c.destination {
          var matches := OneOfTheSourceRunsMatchesDestination(c);
          if !matches {
            return false;
          }
          break;
        }
      }
      compactions := compactions[c.destination := c];
      return true;
    }

    method RefreshDbState(read: Core)
      modifies this
      ensures Value() == old(Value()).Refresh(read)
    {
      var last := core.l0LastCompacted;
      var merged: seq<Sst> := [];
      var i := 0;
      while i < |read.l0| && last != Some(read.l0[i].id)
        invariant 0 <= i <= |read.l0|
        invariant W.Cut(read.l0, last) == merged + W.Cut(read.l0[i..], last)
        invariant Value() == old(Value())
      {
        W.CutStep(read.l0[i..], last, merged);
        assert read.l0[i..][1..] == read.l0[i + 1..];
        merged := merged + [read.l0[i]];
        i := i + 1;
      }
      core := core.(l0 := merged, nextWal := read.nextWal, lastCompactedWal := read.lastCompactedWal);
    }

    static method RemainingL0(l0: seq<Sst>, c: Compaction) returns (newL0: seq<Sst>)
      ensures newL0 == KeepL0(l0, c.sources)
    {
      newL0 := [];
      for i := 0 to |l0|
        invariant KeepL0(l0, c.sources) == newL0 + KeepL0(l0[i..], c.sources)
      {
        KeepStep(l0, i, c.sources, newL0);
        if SstSource(l0[i].id) !in c.sources {
          newL0 := newL0 + [l0[i]];
        }
      }
    }

    /** The one pass that inserts the output and drops the sources. */
    static method MergedRuns(runs: seq<Run>, out: Run, gone: set<nat>) returns (merged: seq<Run>)
      ensures merged == InsertRun(runs, out, gone)
    {
      hide InsertRun, KeepRuns, Rest;
      merged := [];
      var inserted := false;
      RestWhole(runs, out, gone);
      for i := 0 to |runs|
        invariant InsertRun(runs, out, gone) == merged + Rest(runs[i..], out, gone, inserted)
      {
        ghost var front, was := merged, inserted;
        if !inserted && out.id >= runs[i].id {
          merged := merged + [out];
          inserted := true;
        }
        if runs[i].id !in gone {
          merged := merged + [runs[i]];
        }
        RestStep(runs, i, out, gone, was, inserted, front, merged);
      }
      RestNone(runs[|runs|..], out, gone, inserted);
      if !inserted {
        merged := merged + [out];
      }
    }

    static method RunsInIdOrder(runs: seq<Run>) returns (ordered: bool)
      ensures ordered == Descending(runs, MAX_UINT32)
    {
      var last := MAX_UINT32;
      for i := 0 to |runs|
        invariant Descending(runs, MAX_UINT32) == Descending(runs[i..], last)
      {
        assert runs[i..][1..] == runs[i + 1..];
        if runs[i].id >= last {
          return false;
        }
        last := runs[i].id;
      }
      return true;
    }

    /** `ok` is false when an assertion fails, before anything has changed. */
    method FinishCompaction(out: Run) returns (ok: bool)
      modifies this
      ensures Value() == old(Value()).Finish(out)
      ensures ok == (out.id in old(compactions) ==> old(Value()).FinishAsserts(out))
    {
      if out.id !in compactions {
        return true;
      }
      var c := compactions[out.id];
      var newL0 := RemainingL0(core.l0, c);
      var newCompacted := MergedRuns(core.compacted, out, SourceRuns(c));
      var ordered := RunsInIdOrder(newCompacted);
      if !ordered || c.sources == [] {
        return false;
      }
      var last := core.l0LastCompacted;
      if c.sources[0].SstSource? {
        last := Some(c.sources[0].id);
      }
      core := core.(l0LastCompacted := last, l0 := newL0, compacted := newCompacted);
      compactions := compactions - {out.id};
      return true;
    }

    static method CollectSsts(byId: map<nat, Sst>, sources: seq<SourceId>) returns (ssts: Option<seq<Sst>>)
      ensures ssts == PickSsts(byId, sources)
    {
      ssts := Some([]);
      for i := 0 to |sources|
        invariant ssts == PickSsts(byId, sources[..i])
      {
        assert sources[..i + 1][..i] == sources[..i];
        if sources[i].SstSource? {
          var id := sources[i].id;
          ssts := if ssts.Some? && id in byId then Some(ssts.value + [byId[id]]) else None;
        }
      }
      assert sources[..|sources|] == sources;
    }

    static method CollectRuns(byId: map<nat, Run>, sources: seq<SourceId>) returns (runs: Option<seq<Run>>)
      ensures runs == PickRuns(byId, sources)
    {
      runs := Some([]);
      for i := 0 to |sources|
        invariant runs == PickRuns(byId, sources[..i])
      {
        assert sources[..i + 1][..i] == sources[..i];
        if sources[i].RunSource? {
          var id := sources[i].id;
          runs := if runs.Some? && id in byId then Some(runs.value + [byId[id]]) else None;
        }
      }
      assert sources[..|sources|] == sources;
    }

    /** startCompaction: collect the job's inputs. None stands for a job in which a source is missing; the
        source gives such a job a zero handle, which cannot be read. */
    method StartCompaction(c: Compaction) returns (job: Option<Job>)
      ensures job == Value().JobFor(c)
    {
      var byId: map<nat, Sst> := map[];
      var all := core.l0;
      for i := 0 to |core.compacted|
        invariant all == core.l0 + RunSsts(core.compacted[..i])
      {
        assert core.compacted[..i + 1][..i] == core.compacted[..i];
        all := all + core.compacted[i].ssts;
      }
      assert core.compacted[..|core.compacted|] == core.compacted;
      for i := 0 to |all|
        invariant byId == ById(all[..i])
      {
        assert all[..i + 1][..i] == all[..i];
        byId := byId[all[i].id := all[i]];
      }
      assert all[..|all|] == all;
      var runsById: map<nat, Run> := map[];
      for i := 0 to |core.compacted|
        invariant runsById == RunsById(core.compacted[..i])
      {
        assert core.compacted[..i + 1][..i] == core.compacted[..i];
        runsById := runsById[core.compacted[i].id := core.compacted[i]];
      }
      assert core.compacted[..|core.compacted|] == core.compacted;
      var ssts := CollectSsts(byId, c.sources);
      var runs := CollectRuns(runsById, c.sources);
      if ssts.None? || runs.None? {
        return None;
      }
      return Some(Job(c.destination, ssts.value, runs.value));
    }
  }

  // ---------------------------------------------------------------- run order

  lemma DescendingCons(run: Run, rest: seq<Run>, bound: nat)
    ensures Descending([run] + rest, bound) <==> run.id < bound && Descending(rest, run.id)
  {
    assert ([run] + rest)[1..] == rest;
  }

  lemma DescendingWeakens(runs: seq<Run>, bound: nat, bound': nat)
    requires Descending(runs, bound) && bound <= bound'
    ensures Descending(runs, bound')
  {}

  lemma {:induction false} KeepRunsDescends(runs: seq<Run>, gone: set<nat>, bound: nat)
    requires Descending(runs, bound)
    ensures Descending(KeepRuns(runs, gone), bound)
  {
    if runs != [] {
      var rest := KeepRuns(runs[1..], gone);
      KeepRunsDescends(runs[1..], gone, runs[0].id);
      DescendingCons(runs[0], rest, bound);
      DescendingWeakens(rest, runs[0].id, bound);
      assert [] + rest == rest;
    }
  }

  /** A run that has the output's id is one of those that the compaction replaces. */
  lemma {:induction false} InsertRunDescends(runs: seq<Run>, out: Run, gone: set<nat>, bound: nat)
    requires Descending(runs, bound) && out.id in gone && out.id < bound
    ensures Descending(InsertRun(runs, out, gone), bound)
  {
    if runs != [] {
      DescendingCons(out, KeepRuns(runs, gone), bound);
      if out.id > runs[0].id {
        KeepRunsDescends(runs, gone, out.id);
      } else if out.id == runs[0].id {
        KeepRunsDescends(runs[1..], gone, out.id);
        assert [] + KeepRuns(runs[1..], gone) == KeepRuns(runs[1..], gone);
      } else {
        var rest := InsertRun(runs[1..], out, gone);
        InsertRunDescends(runs[1..], out, gone, runs[0].id);
        DescendingCons(runs[0], rest, bound);
        DescendingWeakens(rest, runs[0].id, bound);
        assert [] + rest == rest;
      }
    }
  }

  lemma {:induction false} InsertRunHasOut(runs: seq<Run>, out: Run, gone: set<nat>, bound: nat)
    requires Descending(InsertRun(runs, out, gone), bound)
    ensures out.id < bound
  {
    if runs != [] {
      var rest := InsertRun(runs[1..], out, gone);
      if out.id < runs[0].id {
        if runs[0].id in gone {
          assert [] + rest == rest;
          InsertRunHasOut(runs[1..], out, gone, bound);
        } else {
          DescendingCons(runs[0], rest, bound);
        }
      }
    }
  }

  /** The assertions of finishCompaction can fail in two ways only: on runs that were in order they hold
      exactly when the output's id is below the largest uint32 and there is a source. */
  lemma OrderAssertionExact(s: Compactor, out: Run)
    requires out.id in s.compactions && s.compactions[out.id].destination == out.id
    requires Descending(s.core.compacted, MAX_UINT32)
    ensures s.FinishAsserts(out) <==> out.id < 0xFFFF_FFFF && s.compactions[out.id].sources != []
  {
    var gone := SourceRuns(s.compactions[out.id]);
    if out.id < MAX_UINT32 {
      InsertRunDescends(s.core.compacted, out, gone, MAX_UINT32);
    }
    if s.FinishAsserts(out) {
      InsertRunHasOut(s.core.compacted, out, gone, MAX_UINT32);
    }
  }

  // ---------------------------------------------------------------- what a compaction replaces

  lemma {:induction false} KeptL0(l0: seq<Sst>, sources: seq<SourceId>)
    ensures forall t :: t in KeepL0(l0, sources) <==> t in l0 && SstSource(t.id) !in sources
  {
    if l0 != [] {
      KeptL0(l0[1..], sources);
      assert l0 == [l0[0]] + l0[1..];
    }
  }

  lemma {:induction false} KeptRuns(runs: seq<Run>, gone: set<nat>)
    ensures forall r :: r in KeepRuns(runs, gone) <==> r in runs && r.id !in gone
  {
    if runs != [] {
      KeptRuns(runs[1..], gone);
      assert runs == [runs[0]] + runs[1..];
    }
  }

  lemma {:induction false} InsertedRuns(runs: seq<Run>, out: Run, gone: set<nat>)
    ensures forall r :: r in InsertRun(runs, out, gone) <==> r == out || (r in runs && r.id !in gone)
  {
    if runs != [] {
      KeptRuns(runs, gone);
      InsertedRuns(runs[1..], out, gone);
      assert runs == [runs[0]] + runs[1..];
    }
  }

  lemma GoneAreSources(c: Compaction, id: nat)
    ensures id in SourceRuns(c) <==> RunSource(id) in c.sources || id == c.destination
  {
    if RunSource(id) in c.sources {
      var s := RunSource(id);
      assert s in c.sources && s.RunSource? && s.id == id;
    }
  }

  /** A compaction is accepted if and only if no compaction in flight has its destination and every run that
      finishing it would drop is one of its sources. */
  lemma AcceptedExact(s: Compactor, c: Compaction)
    ensures s.Accepts(c)
            <==> c.destination !in s.compactions
                 && forall r :: r in s.core.compacted && r.id in SourceRuns(c) ==> RunSource(r.id) in c.sources
  {
    forall r | r in s.core.compacted
      ensures r.id in SourceRuns(c) <==> RunSource(r.id) in c.sources || r.id == c.destination
    {
      GoneAreSources(c, r.id);
    }
  }

  /** Submitting and finishing an accepted compaction replaces exactly its sources by the output: no other SST
      and no other run is lost, and the compactions in flight are those from before. */
  lemma FinishReplacesSources(s: Compactor, c: Compaction, out: Run)
    requires s.Accepts(c) && out.id == c.destination && s.Submit(c).FinishAsserts(out)
    ensures var done := s.Submit(c).Finish(out);
            && (forall t :: t in done.core.l0 <==> t in s.core.l0 && SstSource(t.id) !in c.sources)
            && (forall r :: r in done.core.compacted
                            <==> r == out || (r in s.core.compacted && RunSource(r.id) !in c.sources))
            && done.compactions == s.compactions
            && done.core == s.core.(l0 := done.core.l0, compacted := done.core.compacted,
                                    l0LastCompacted := done.core.l0LastCompacted)
            && c.sources != []
            && done.core.l0LastCompacted == (match c.sources[0]
                                             case SstSource(id) => Some(id)
                                             case RunSource(_) => s.core.l0LastCompacted)
  {
    hide KeepL0, InsertRun, Descending, SourceRuns;
    AcceptedExact(s, c);
    KeptL0(s.core.l0, c.sources);
    InsertedRuns(s.core.compacted, out, SourceRuns(c));
    forall r | r in s.core.compacted ensures r.id in SourceRuns(c) <==> RunSource(r.id) in c.sources {
      GoneAreSources(c, r.id);
    }
  }

  // ---------------------------------------------------------------- the inputs of a job

  /** The SSTs, and the runs, that sources name, in order. */
  ghost function NamedSsts(sources: seq<SourceId>): seq<nat> {
    if sources == [] then []
    else NamedSsts(sources[..|sources| - 1])
         + if sources[|sources| - 1].SstSource? then [sources[|sources| - 1].id] else []
  }

  ghost function NamedRuns(sources: seq<SourceId>): seq<nat> {
    if sources == [] then []
    else NamedRuns(sources[..|sources| - 1])
         + if sources[|sources| - 1].RunSource? then [sources[|sources| - 1].id] else []
  }

  ghost predicate HasSst(ssts: seq<Sst>, id: nat) {
    exists t :: t in ssts && t.id == id
  }

  ghost predicate HasRun(runs: seq<Run>, id: nat) {
    exists r :: r in runs && r.id == id
  }

  lemma {:induction false} SstsById(ssts: seq<Sst>, id: nat)
    ensures id in ById(ssts) <==> HasSst(ssts, id)
    ensures id in ById(ssts) ==> ById(ssts)[id] in ssts && ById(ssts)[id].id == id
  {
    if ssts != [] {
      var n := |ssts| - 1;
      SstsById(ssts[..n], id);
      assert ssts == ssts[..n] + [ssts[n]];
    }
  }

  lemma {:induction false} RunsByIdHold(runs: seq<Run>, id: nat)
    ensures id in RunsById(runs) <==> HasRun(runs, id)
    ensures id in RunsById(runs) ==> RunsById(runs)[id] in runs && RunsById(runs)[id].id == id
  {
    if runs != [] {
      var n := |runs| - 1;
      RunsByIdHold(runs[..n], id);
      assert runs == runs[..n] + [runs[n]];
    }
  }

  /** The things that ids name, in order. */
  ghost predicate Picks<T>(picked: seq<T>, ids: seq<nat>, byId: map<nat, T>) {
    |picked| == |ids| && forall i :: 0 <= i < |ids| ==> ids[i] in byId && picked[i] == byId[ids[i]]
  }

  ghost predicate AllIn<T>(ids: seq<nat>, byId: map<nat, T>) {
    forall i :: 0 <= i < |ids| ==> ids[i] in byId
  }

  lemma PickSnoc<T>(picked: seq<T>, ids: seq<nat>, byId: map<nat, T>, id: nat)
    ensures AllIn(ids + [id], byId) <==> AllIn(ids, byId) && id in byId
    ensures Picks(picked, ids, byId) && id in byId ==> Picks(picked + [byId[id]], ids + [id], byId)
  {
    assert (ids + [id])[|ids|] == id;
    assert forall i :: 0 <= i < |ids| ==> (ids + [id])[i] == ids[i];
  }

  lemma {:induction false} PickedSsts(byId: map<nat, Sst>, sources: seq<SourceId>)
    ensures var picked, ids := PickSsts(byId, sources), NamedSsts(sources);
            (picked.Some? <==> AllIn(ids, byId)) && (picked.Some? ==> Picks(picked.value, ids, byId))
  {
    hide AllIn, Picks;
    if sources == [] {
      NonePicked(byId);
    } else {
      var front, last := sources[..|sources| - 1], sources[|sources| - 1];
      PickedSsts(byId, front);
      var picked := PickSsts(byId, front);
      if last.SstSource? {
        PickSnoc(if picked.Some? then picked.value else [], NamedSsts(front), byId, last.id);
      } else {
        assert NamedSsts(sources) == NamedSsts(front);
      }
    }
  }

  lemma {:induction false} PickedRuns(byId: map<nat, Run>, sources: seq<SourceId>)
    ensures var picked, ids := PickRuns(byId, sources), NamedRuns(sources);
            (picked.Some? <==> AllIn(ids, byId)) && (picked.Some? ==> Picks(picked.value, ids, byId))
  {
    hide AllIn, Picks;
    if sources == [] {
      NonePicked(byId);
    } else {
      var front, last := sources[..|sources| - 1], sources[|sources| - 1];
      PickedRuns(byId, front);
      var picked := PickRuns(byId, front);
      if last.RunSource? {
        PickSnoc(if picked.Some? then picked.value else [], NamedRuns(front), byId, last.id);
      } else {
        assert NamedRuns(sources) == NamedRuns(front);
      }
    }
  }

  lemma NonePicked<T>(byId: map<nat, T>)
    ensures AllIn([], byId) && Picks([], [], byId)
  {}

  /** The SST is in L0 or in a run. */
  ghost predicate HoldsSst(core: Core, t: Sst) {
    t in core.l0 || exists i :: 0 <= i < |core.compacted| && t in core.compacted[i].ssts
  }

  ghost predicate HoldsId(core: Core, id: nat) {
    exists t :: HoldsSst(core, t) && t.id == id
  }

  lemma {:induction false} RunSstsExact(runs: seq<Run>, t: Sst)
    ensures t in RunSsts(runs) <==> exists i :: 0 <= i < |runs| && t in runs[i].ssts
  {
    if runs != [] {
      var n := |runs| - 1;
      RunSstsExact(runs[..n], t);
      assert forall i :: 0 <= i < n ==> runs[..n][i] == runs[i];
    }
  }

  lemma AllSstsExact(core: Core)
    ensures forall t :: t in AllSsts(core) <==> HoldsSst(core, t)
    ensures forall id :: HasSst(AllSsts(core), id) <==> HoldsId(core, id)
  {
    hide RunSsts, HoldsSst;
    forall t ensures t in AllSsts(core) <==> HoldsSst(core, t) {
      HoldsEither(core, t);
    }
  }

  lemma HoldsEither(core: Core, t: Sst)
    ensures t in AllSsts(core) <==> HoldsSst(core, t)
  {
    hide RunSsts;
    RunSstsExact(core.compacted, t);
  }

  /** A job has for every SST source an SST of L0 or of a run with that id, and for every run source a run with
      that id, in the order of the sources; there is none if and only if one of them is missing. */
  lemma JobExact(s: Compactor, c: Compaction)
    ensures var job := s.JobFor(c); var ids, runIds := NamedSsts(c.sources), NamedRuns(c.sources);
            && (job.Some? <==>
                  && (forall i :: 0 <= i < |ids| ==> HoldsId(s.core, ids[i]))
                  && (forall i :: 0 <= i < |runIds| ==> HasRun(s.core.compacted, runIds[i])))
            && (job.Some? ==>
                  && job.value.destination == c.destination
                  && |job.value.ssts| == |ids| && |job.value.runs| == |runIds|
                  && (forall i :: 0 <= i < |ids| ==>
                        HoldsSst(s.core, job.value.ssts[i]) && job.value.ssts[i].id == ids[i])
                  && (forall i :: 0 <= i < |runIds| ==>
                        job.value.runs[i] in s.core.compacted && job.value.runs[i].id == runIds[i]))
  {
    hide ById, RunsById, PickSsts, PickRuns, NamedSsts, NamedRuns, AllSsts, HasSst, HasRun, HoldsSst, HoldsId;
    var ids, runIds, all := NamedSsts(c.sources), NamedRuns(c.sources), AllSsts(s.core);
    AllSstsExact(s.core);
    PickedSsts(ById(all), c.sources);
    PickedRuns(RunsById(s.core.compacted), c.sources);
    forall i | 0 <= i < |ids|
      ensures ids[i] in ById(all) <==> HasSst(all, ids[i])
      ensures ids[i] in ById(all) ==> ById(all)[ids[i]] in all && ById(all)[ids[i]].id == ids[i]
    {
      SstsById(all, ids[i]);
    }
    forall i | 0 <= i < |runIds|
      ensures runIds[i] in RunsById(s.core.compacted) <==> HasRun(s.core.compacted, runIds[i])
      ensures runIds[i] in RunsById(s.core.compacted) ==>
                && RunsById(s.core.compacted)[runIds[i]] in s.core.compacted
                && RunsById(s.core.compacted)[runIds[i]].id == runIds[i]
    {
      RunsByIdHold(s.core.compacted, runIds[i]);
    }
  }
}
