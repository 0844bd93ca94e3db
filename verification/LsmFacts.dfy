/** Facts about lists of SSTs and lists of WALs that the invariant of the state machine needs. */
module LsmFacts {
  import opened Tables
  import opened Manifests
  import opened WriterState
  import opened CompactorStates

  // ---------------------------------------------------------------- a stretch of the SSTs ever flushed

  /** `all` is newest first; SSTs are numbered from the oldest. The SSTs number lo up to hi - 1. */
  ghost function Range(all: seq<Sst>, lo: nat, hi: nat): seq<Sst>
    requires lo <= hi <= |all|
  {
    all[|all| - hi..|all| - lo]
  }

  /** The mark that cuts off the SSTs numbered below c. */
  ghost function MarkAt(all: seq<Sst>, c: nat): Option<nat>
    requires c <= |all|
  {
    if c == 0 then None else Some(all[|all| - c].id)
  }

  ghost predicate Distinct(ssts: seq<Sst>) {
    forall i, j :: 0 <= i < j < |ssts| ==> ssts[i].id != ssts[j].id
  }

  lemma {:induction false} CutAtMark(l0: seq<Sst>, n: nat, mark: Option<nat>)
    requires n <= |l0|
    requires forall i :: 0 <= i < n ==> mark != Some(l0[i].id)
    requires n < |l0| ==> mark == Some(l0[n].id)
    ensures Cut(l0, mark) == l0[..n]
  {
    if n > 0 {
      CutAtMark(l0[1..], n - 1, mark);
      assert l0[..n] == [l0[0]] + l0[1..][..n - 1];
    }
  }

  /** Cutting a list of flushed SSTs at a later mark leaves the SSTs past the mark. */
  lemma CutRange(all: seq<Sst>, lo: nat, c: nat, hi: nat)
    requires lo <= c <= hi <= |all| && Distinct(all)
    ensures Cut(Range(all, lo, hi), MarkAt(all, c)) == Range(all, c, hi)
  {
    CutAtMark(Range(all, lo, hi), hi - c, MarkAt(all, c));
  }

  lemma RangeRows(all: seq<Sst>, lo: nat, mid: nat, hi: nat)
    requires lo <= mid <= hi <= |all|
    ensures Range(all, lo, hi) == Range(all, mid, hi) + Range(all, lo, mid)
    ensures Layers(SstRows(Range(all, lo, hi)))
         == Layers(SstRows(Range(all, lo, mid))) + Layers(SstRows(Range(all, mid, hi)))
  {
    hide Layers;
    assert Range(all, lo, hi) == Range(all, mid, hi) + Range(all, lo, mid);
    assert SstRows(Range(all, lo, hi)) == SstRows(Range(all, mid, hi)) + SstRows(Range(all, lo, mid));
    LayersConcat(SstRows(Range(all, mid, hi)), SstRows(Range(all, lo, mid)));
  }

  lemma LayersCons(t: Table, ts: seq<Table>)
    ensures Layers([t] + ts) == Layers(ts) + t
  {
    assert ([t] + ts)[1..] == ts;
  }

  ghost predicate AllPersisted(ts: seq<Table>) {
    forall i :: 0 <= i < |ts| ==> Persist(ts[i]) == ts[i]
  }

  lemma {:induction false} LayersPersisted(ts: seq<Table>)
    requires AllPersisted(ts)
    ensures Persist(Layers(ts)) == Layers(ts)
  {
    if ts != [] {
      LayersPersisted(ts[1..]);
      PersistOverlay(Layers(ts[1..]), ts[0]);
    }
  }

  // ---------------------------------------------------------------- what a compaction takes and leaves

  lemma {:induction false} KeepNone(l0: seq<Sst>, sources: seq<SourceId>)
    requires forall i :: 0 <= i < |l0| ==> SstSource(l0[i].id) in sources
    ensures KeepL0(l0, sources) == []
  {
    if l0 != [] {
      KeepNone(l0[1..], sources);
    }
  }

  lemma {:induction false} KeepFront(front: seq<Sst>, back: seq<Sst>)
    requires Distinct(front + back)
    ensures KeepL0(front + back, L0Sources(back)) == front
    decreases |front|
  {
    var l0, sources := front + back, L0Sources(back);
    if front == [] {
      assert l0 == back;
      forall i | 0 <= i < |back| ensures SstSource(back[i].id) in sources {
        assert sources[i] == SstSource(back[i].id);
      }
      KeepNone(back, sources);
    } else {
      assert l0[1..] == front[1..] + back;
      assert Distinct(front[1..] + back) by {
        forall i, j | 0 <= i < j < |l0[1..]| ensures l0[1..][i].id != l0[1..][j].id {
          assert l0[i + 1].id != l0[j + 1].id;
        }
      }
      KeepFront(front[1..], back);
      assert SstSource(l0[0].id) !in sources by {
        forall i | 0 <= i < |sources| ensures sources[i] != SstSource(l0[0].id) {
          assert l0[|front| + i] == back[i];
        }
      }
    }
  }

  /** Taking an oldest stretch as sources leaves the newer stretch. */
  lemma KeepRange(all: seq<Sst>, c: nat, e: nat, hi: nat)
    requires c <= e <= hi <= |all| && Distinct(all)
    ensures KeepL0(Range(all, c, hi), L0Sources(Range(all, c, e))) == Range(all, e, hi)
  {
    hide KeepL0, L0Sources, Layers;
    RangeRows(all, c, e, hi);
    assert Distinct(Range(all, c, hi)) by {
      forall i, j | 0 <= i < j < hi - c ensures Range(all, c, hi)[i].id != Range(all, c, hi)[j].id {
        assert all[|all| - hi + i].id != all[|all| - hi + j].id;
      }
    }
    KeepFront(Range(all, e, hi), Range(all, c, e));
  }

  lemma {:induction false} ByIdHolds(ssts: seq<Sst>, i: nat)
    requires i < |ssts|
    requires forall j :: i < j < |ssts| ==> ssts[j].id != ssts[i].id
    ensures ssts[i].id in ById(ssts) && ById(ssts)[ssts[i].id] == ssts[i]
  {
    var n := |ssts| - 1;
    if i < n {
      assert forall j :: i < j < n ==> ssts[..n][j] == ssts[j];
      ByIdHolds(ssts[..n], i);
    }
  }

  lemma {:induction false} PickAll(byId: map<nat, Sst>, l0: seq<Sst>)
    requires forall i :: 0 <= i < |l0| ==> l0[i].id in byId && byId[l0[i].id] == l0[i]
    ensures PickSsts(byId, L0Sources(l0)) == Some(l0)
  {
    if l0 != [] {
      var n := |l0| - 1;
      assert L0Sources(l0)[..n] == L0Sources(l0[..n]);
      PickAll(byId, l0[..n]);
      assert l0 == l0[..n] + [l0[n]];
    }
  }

  lemma {:induction false} PickNoRuns(byId: map<nat, Run>, l0: seq<Sst>)
    ensures PickRuns(byId, L0Sources(l0)) == Some([])
  {
    if l0 != [] {
      var n := |l0| - 1;
      assert L0Sources(l0)[..n] == L0Sources(l0[..n]);
      PickNoRuns(byId, l0[..n]);
    }
  }

  /** A job over the whole of L0 gets exactly the SSTs of L0, in order. */
  lemma JobOfL0(s: Compactor, destination: nat)
    requires Distinct(s.core.l0)
    requires forall t, i :: t in RunSsts(s.core.compacted) && 0 <= i < |s.core.l0| ==> t.id != s.core.l0[i].id
    ensures s.JobFor(Compaction(L0Sources(s.core.l0), destination)) == Some(Job(destination, s.core.l0, []))
  {
    var l0, ssts := s.core.l0, AllSsts(s.core);
    forall i | 0 <= i < |l0|
      ensures l0[i].id in ById(ssts) && ById(ssts)[l0[i].id] == l0[i]
    {
      assert ssts[i] == l0[i];
      forall j | i < j < |ssts| ensures ssts[j].id != ssts[i].id {
        if j >= |l0| {
          assert ssts[j] == RunSsts(s.core.compacted)[j - |l0|];
        }
      }
      ByIdHolds(ssts, i);
    }
    PickAll(ById(ssts), l0);
    PickNoRuns(RunsById(s.core.compacted), l0);
  }

  /** No source of an L0 compaction is a run. */
  lemma L0SourceRuns(l0: seq<Sst>, destination: nat)
    ensures SourceRuns(Compaction(L0Sources(l0), destination)) == {destination}
  {}

  lemma {:induction false} KeepRunsAll(runs: seq<Run>, bound: nat, id: nat)
    requires Descending(runs, bound) && bound <= id
    ensures KeepRuns(runs, {id}) == runs
  {
    if runs != [] {
      KeepRunsAll(runs[1..], runs[0].id, id);
      assert runs == [runs[0]] + runs[1..];
    }
  }

  /** A run with the next id goes to the front and replaces nothing. */
  lemma InsertNextRun(runs: seq<Run>, out: Run)
    requires Descending(runs, MAX_UINT32) && out.id == NextRunId(runs)
    ensures InsertRun(runs, out, {out.id}) == [out] + runs
    ensures Descending([out] + runs, MAX_UINT32) <==> out.id < MAX_UINT32
  {
    DescendingCons(out, runs, MAX_UINT32);
    if runs != [] {
      assert out.id == runs[0].id + 1;
      assert Descending(runs, out.id);
      KeepRunsAll(runs, out.id, out.id);
    }
  }

  lemma {:induction false} RunSstsConcat(a: seq<Run>, b: seq<Run>)
    ensures RunSsts(a + b) == RunSsts(a) + RunSsts(b)
  {
    if b == [] {
      assert a + b == a;
    } else {
      assert (a + b)[..|a + b| - 1] == a + b[..|b| - 1];
      RunSstsConcat(a, b[..|b| - 1]);
    }
  }

  lemma RunSstsCons(run: Run, runs: seq<Run>)
    ensures RunSsts([run] + runs) == run.ssts + RunSsts(runs)
  {
    RunSstsConcat([run], runs);
    assert RunSsts([run]) == RunSsts([]) + run.ssts;
  }

  lemma RunRowsCons(run: Run, runs: seq<Run>)
    ensures Layers(RunRows([run] + runs)) == Layers(RunRows(runs)) + Layers(SstRows(run.ssts))
  {
    assert RunRows([run] + runs) == [Layers(SstRows(run.ssts))] + RunRows(runs);
    LayersCons(Layers(SstRows(run.ssts)), RunRows(runs));
  }

  // ---------------------------------------------------------------- stretches of the write history

  /** The table left by the writes of the groups lo up to hi - 1. */
  ghost function Fold(groups: seq<seq<Entry>>, lo: nat, hi: nat): Table
    requires lo <= hi <= |groups|
  {
    TableOf(Concat(groups[lo..hi]))
  }

  lemma FoldSplit(groups: seq<seq<Entry>>, lo: nat, mid: nat, hi: nat)
    requires lo <= mid <= hi <= |groups|
    ensures Fold(groups, lo, hi) == Fold(groups, lo, mid) + Fold(groups, mid, hi)
  {
    assert groups[lo..hi] == groups[lo..mid] + groups[mid..hi];
    ConcatAppend(groups[lo..mid], groups[mid..hi]);
    TableOfConcat(Concat(groups[lo..mid]), Concat(groups[mid..hi]));
  }

  lemma FoldPrefix(groups: seq<seq<Entry>>, more: seq<seq<Entry>>, lo: nat, hi: nat)
    requires lo <= hi <= |groups|
    ensures Fold(groups + more, lo, hi) == Fold(groups, lo, hi)
  {
    assert (groups + more)[lo..hi] == groups[lo..hi];
  }

  lemma FoldOne(groups: seq<seq<Entry>>, i: nat)
    requires i < |groups|
    ensures Fold(groups, i, i + 1) == TableOf(groups[i])
  {
    assert groups[i..i + 1] == [groups[i]];
    assert [groups[i]][..0] == [];
    assert Concat([groups[i]]) == groups[i];
  }

  lemma FoldEmpty(groups: seq<seq<Entry>>, i: nat)
    requires i <= |groups|
    ensures Fold(groups, i, i) == map[]
  {
    assert groups[i..i] == [];
  }

  /** The groups as a reader gets them when the first k have been through an SST. */
  ghost function Kept(groups: seq<seq<Entry>>, k: nat): seq<seq<Entry>> {
    seq(|groups|, i requires 0 <= i < |groups| => if i < k then StoredAll(groups[i]) else groups[i])
  }

  lemma KeptSnoc(groups: seq<seq<Entry>>, k: nat, group: seq<Entry>)
    requires k <= |groups|
    ensures Kept(groups + [group], k) == Kept(groups, k) + [group]
  {}

  lemma {:induction false} ConcatStored(groups: seq<seq<Entry>>, kept: seq<seq<Entry>>)
    requires |kept| == |groups| && forall i :: 0 <= i < |groups| ==> StoredAll(kept[i]) == StoredAll(groups[i])
    ensures StoredAll(Concat(kept)) == StoredAll(Concat(groups))
  {
    if groups != [] {
      var n := |groups| - 1;
      ConcatStored(groups[..n], kept[..n]);
      StoredConcat(Concat(groups[..n]), groups[n]);
      StoredConcat(Concat(kept[..n]), kept[n]);
    }
  }

  lemma StoredConcat(a: seq<Entry>, b: seq<Entry>)
    ensures StoredAll(a + b) == StoredAll(a) + StoredAll(b)
  {}

  lemma StoredTwice(ws: seq<Entry>)
    ensures StoredAll(StoredAll(ws)) == StoredAll(ws)
  {}

  /** Writing an SST evens out what has been through one already. */
  lemma PersistKept(groups: seq<seq<Entry>>, k: nat, lo: nat, hi: nat)
    requires lo <= hi <= |groups|
    ensures Persist(Fold(Kept(groups, k), lo, hi)) == Persist(Fold(groups, lo, hi))
  {
    hide Persist, TableOf, Concat, StoredAll;
    var kept := Kept(groups, k);
    forall i | 0 <= i < hi - lo ensures StoredAll(kept[lo..hi][i]) == StoredAll(groups[lo..hi][i]) {
      StoredTwice(groups[lo + i]);
    }
    ConcatStored(groups[lo..hi], kept[lo..hi]);
    StoredTable(Concat(groups[lo..hi]));
    StoredTable(Concat(kept[lo..hi]));
  }

  /** Below k everything is as SSTs keep it. */
  lemma KeptBelow(groups: seq<seq<Entry>>, k: nat, lo: nat, hi: nat)
    requires lo <= hi <= |groups| && hi <= k
    ensures Fold(Kept(groups, k), lo, hi) == Persist(Fold(groups, lo, hi))
  {
    hide Persist, TableOf;
    ConcatKept(groups[lo..hi]);
    var kept := Kept(groups, k);
    assert kept[lo..hi] == Kept(groups[lo..hi], hi - lo);
    StoredTable(Concat(groups[lo..hi]));
  }

  lemma {:induction false} ConcatKept(groups: seq<seq<Entry>>)
    ensures Concat(Kept(groups, |groups|)) == StoredAll(Concat(groups))
  {
    if groups != [] {
      var n := |groups| - 1;
      ConcatKept(groups[..n]);
      assert Kept(groups, |groups|)[..n] == Kept(groups[..n], n);
      StoredConcat(Concat(groups[..n]), groups[n]);
    }
  }

  /** Above k everything is as written. */
  lemma KeptAbove(groups: seq<seq<Entry>>, k: nat, lo: nat, hi: nat)
    requires k <= lo <= hi <= |groups|
    ensures Fold(Kept(groups, k), lo, hi) == Fold(groups, lo, hi)
  {
    assert Kept(groups, k)[lo..hi] == groups[lo..hi];
  }
}
