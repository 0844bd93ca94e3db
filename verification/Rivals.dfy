/** Any number of processes, each with a writer, a compactor or both, over one database: each step of a process
    is a step of the machine with one of each, on what that process sees. As long as no fenced writer
    uploads a WAL, the newest writer and the newest compactor run as if they were alone, so every
    theorem about runs with one of each is a theorem about them.
 */
module Rivals {
  import opened Tables
  import opened Manifests
  import opened WriterState
  import opened CompactorStates
  import opened Lsm
  import opened LsmFacts
  import opened LsmInvariant
  import opened LsmManifestSteps
  import opened LsmTheorems
  import opened LsmGuarantees
  import opened LsmReads
  import opened LsmProgress

  // ---------------------------------------------------------------- the machine

  /** `newest` is the process that opened the database last, `latest` the one that started a compactor last;
      they are up or have crashed since. */
  datatype Rivals = Rivals(
    files: Files,
    wals: map<nat, Table>,
    ids: set<nat>,
    writers: map<nat, WriterProcess>,
    compactors: map<nat, CompactorProcess>,
    newest: nat,
    latest: nat)

  /** Process p takes a step. */
  datatype RivalAction = By(p: nat, a: Action)

  ghost function At<T>(m: map<nat, T>, p: nat): Option<T> {
    if p in m then Some(m[p]) else None
  }

  ghost function Put<T>(m: map<nat, T>, p: nat, v: Option<T>): map<nat, T> {
    if v.Some? then m[p := v.value] else m - {p}
  }

  /** The shared objects, the writer of p and the compactor of q. */
  ghost function View(s: Rivals, p: nat, q: nat): System {
    System(s.files, s.wals, s.ids, At(s.writers, p), At(s.compactors, q))
  }

  ghost predicate Opens(s: Rivals, b: RivalAction) {
    b.a.OpenWriter? && s.files != map[] && b.p !in s.writers
  }

  ghost predicate Starts(s: Rivals, b: RivalAction) {
    b.a.StartCompactor? && s.files != map[] && b.p !in s.compactors
  }

  /** A step on the shared objects and the process's own memory. */
  ghost function RivalStep(s: Rivals, b: RivalAction): Rivals {
    var v := Step(View(s, b.p, b.p), b.a);
    Rivals(v.files, v.wals, v.ids, Put(s.writers, b.p, v.writer), Put(s.compactors, b.p, v.compactor),
           if Opens(s, b) then b.p else s.newest,
           if Starts(s, b) then b.p else s.latest)
  }

  /** The writes that count are those of the newest writer: when a process opens the database, the writes
      of the one before that are not durable are dropped, as by a crash. */
  ghost function RivalHistory(h: History, s: Rivals, b: RivalAction): History {
    var up := s.newest in s.writers;
    if Opens(s, b) then StepHistory(StepHistory(h, CrashWriter, up), b.a, false)
    else if b.p == s.newest then StepHistory(h, b.a, up)
    else h
  }

  datatype RivalState = RivalState(sys: Rivals, history: History)

  ghost function RivalNext(st: RivalState, b: RivalAction): RivalState {
    RivalState(RivalStep(st.sys, b), RivalHistory(st.history, st.sys, b))
  }

  ghost function RivalExec(run: seq<RivalAction>): RivalState {
    if run == [] then RivalState(Rivals(map[], map[], {}, map[], map[], 0, 0), NoHistory)
    else RivalNext(RivalExec(run[..|run| - 1]), run[|run| - 1])
  }

  /** The step does not upload a WAL of a fenced writer. */
  ghost predicate NotFenced(s: Rivals, b: RivalAction) {
    b.a.FlushWal? && b.p in s.writers && s.writers[b.p].db.immWals != [] ==> b.p == s.newest
  }

  ghost predicate NoFencedUpload(run: seq<RivalAction>) {
    forall i :: 0 <= i < |run| ==> NotFenced(RivalExec(run[..i]).sys, run[i])
  }

  // ---------------------------------------------------------------- fenced processes

  /** A client whose epoch is no longer the latest of its kind. */
  ghost predicate IsFenced(files: Files, c: Client, kind: Kind) {
    && |files| in files && c.Live? && c.kind == kind
    && c.id in files && files[c.id] == c.manifest && c.epoch < Latest(files).Epoch(kind)
  }

  ghost predicate OthersFenced(s: Rivals) {
    && (forall p :: p in s.writers && p != s.newest ==> IsFenced(s.files, s.writers[p].client, WriterKind))
    && (forall p :: p in s.compactors && p != s.latest ==> IsFenced(s.files, s.compactors[p].client, CompactorKind))
  }

  lemma FencedClient(files: Files, c: Client, kind: Kind, core: Core)
    requires FilesOk(files) && IsFenced(files, c, kind)
    ensures UpdateDbState(files, c, core).files == files && UpdateDbState(files, c, core).client == c
    ensures var r := RefreshClient(files, c);
            r.files == files && r.status == Fenced && IsFenced(files, r.client, kind)
  {
    MaxKeyIsCount(files);
    if CheckEpoch(c) == Ok {
      assert c.id + 1 in files <==> 1 <= c.id + 1 <= |files|;
    }
  }

  /** A step of the compactor's side. */
  ghost predicate Compacting(a: Action) {
    IsCompactorAction(a) || a.StartCompactor?
  }

  /** A fenced writer that uploads no WAL changes nothing that others see but the ids in use, and a load tells
      it nothing. */
  lemma FencedStep(s: System, a: Action)
    requires FilesOk(s.files) && s.writer.Some? && IsFenced(s.files, s.writer.value.client, WriterKind)
    requires !Compacting(a) && (a.FlushWal? ==> s.writer.value.db.immWals == [])
    ensures var s' := Step(s, a);
            && s'.files == s.files && s'.wals == s.wals && s'.compactor == s.compactor && s.ids <= s'.ids
            && (s'.writer.Some? ==> IsFenced(s.files, s'.writer.value.client, WriterKind))
            && (a.WriterLoad? || a.WriterWrite? ==> s'.writer.Some? && s'.writer.value.db == s.writer.value.db)
  {
    hide Consecutive, IsFenced, Persist, UpdateDbState, RefreshClient, Db.MoveToL0, Db.Refresh, Db.FreezeWal,
         Db.FreezeMemtable, Open;
    FencedIsLive(s.files, s.writer.value.client, WriterKind);
    if a.WriterLoad? || a.WriterWrite? {
      FencedClient(s.files, s.writer.value.client, WriterKind, s.writer.value.db.core);
    }
  }

  /** Nor does a fenced compactor, whatever it does. */
  lemma FencedCompactorStep(s: System, a: Action)
    requires FilesOk(s.files) && s.compactor.Some? && IsFenced(s.files, s.compactor.value.client, CompactorKind)
    requires Compacting(a)
    ensures var s' := Step(s, a);
            && s'.files == s.files && s'.wals == s.wals && s'.writer == s.writer && s.ids <= s'.ids
            && (s'.compactor.Some? ==> IsFenced(s.files, s'.compactor.value.client, CompactorKind))
            && (a.CompactorLoad? || a.CompactorWrite? ==>
                  s'.compactor.Some? && s'.compactor.value.state == s.compactor.value.state)
  {
    hide Consecutive, IsFenced, UpdateDbState, RefreshClient, Compactor.Refresh, Compactor.Finish,
         Compactor.FinishAsserts, Compacts, FreshIds, Compactor.JobFor, Compactor.Accepts, Scheduled;
    FencedIsLive(s.files, s.compactor.value.client, CompactorKind);
    if a.CompactorLoad? || a.CompactorWrite? {
      FencedClient(s.files, s.compactor.value.client, CompactorKind, s.compactor.value.state.core);
    }
  }

  lemma FencedIsLive(files: Files, c: Client, kind: Kind)
    requires IsFenced(files, c, kind)
    ensures c.Live? && |files| in files
  {}

  // ---------------------------------------------------------------- ids and memory of others

  lemma FreshInFewer(ssts: seq<Sst>, ids: set<nat>, more: set<nat>)
    requires ids <= more && FreshIds(ssts, more)
    ensures FreshIds(ssts, ids)
  {}

  /** Ids in use only rule steps out. */
  lemma FewerIds(s: System, ids: set<nat>, a: Action)
    requires s.ids <= ids
    ensures var v := s.(ids := ids); var v', s' := Step(v, a), Step(s, a);
            || (v' == v && (a.FlushMemtable? || a.CompactorFinish?))
            || (s' == v'.(ids := s'.ids) && s'.ids <= v'.ids)
  {
    hide Recover, Persist, Fence, UpdateDbState, RefreshClient, Db.MoveToL0, Db.Refresh, Db.FreezeWal,
         Db.FreezeMemtable, Db.FlushOldestWal, StepCompactor;
    if s.compactor.Some? {
      FewerIdsInCompactor(s, ids, a);
    }
  }

  lemma FewerIdsInCompactor(s: System, ids: set<nat>, a: Action)
    requires s.ids <= ids && s.compactor.Some?
    ensures var v := s.(ids := ids); var v', s' := StepCompactor(v, a), StepCompactor(s, a);
            || (v' == v && (a.FlushMemtable? || a.CompactorFinish?))
            || (s' == v'.(ids := s'.ids) && s'.ids <= v'.ids)
  {
    hide Schedule, Compacts, FreshIds, UpdateDbState, RefreshClient, Compactor.Finish, Compactor.FinishAsserts,
         Compactor.Refresh;
    if a.CompactorFinish? && FreshIds(a.ssts, ids) {
      FreshInFewer(a.ssts, s.ids, ids);
    }
  }

  /** The compactor's steps do not look at the writer. */
  lemma CompactorSide(s: System, w: Option<WriterProcess>, a: Action)
    requires Compacting(a)
    ensures Step(s.(writer := w), a) == Step(s, a).(writer := w) && Step(s, a).writer == s.writer
  {
    hide Schedule, Compacts, FreshIds, Fence, UpdateDbState, RefreshClient, Compactor.Finish, Compactor.FinishAsserts,
         Compactor.Refresh;
  }

  /** The writer's steps do not look at the compactor. */
  lemma WriterSide(s: System, c: Option<CompactorProcess>, a: Action)
    requires !Compacting(a)
    ensures Step(s.(compactor := c), a) == Step(s, a).(compactor := c) && Step(s, a).compactor == s.compactor
  {
    hide Recover, Persist, Fence, UpdateDbState, RefreshClient, Db.MoveToL0, Db.Refresh, Db.FreezeWal,
         Db.FreezeMemtable, Db.FlushOldestWal;
  }

  lemma PutAt<T>(m: map<nat, T>, p: nat)
    ensures Put(m, p, At(m, p)) == m
  {}

  /** A step of the writer's side, seen beside any compactor. */
  lemma WriterStepIs(s: Rivals, b: RivalAction, q: nat)
    requires !Compacting(b.a)
    ensures var v := Step(View(s, b.p, q), b.a);
            && RivalStep(s, b) == s.(files := v.files, wals := v.wals, ids := v.ids,
                                     writers := Put(s.writers, b.p, v.writer),
                                     newest := if Opens(s, b) then b.p else s.newest)
            && v.compactor == At(s.compactors, q)
  {
    hide Step;
    WriterSide(View(s, b.p, q), At(s.compactors, b.p), b.a);
    assert View(s, b.p, b.p) == View(s, b.p, q).(compactor := At(s.compactors, b.p));
    PutAt(s.compactors, b.p);
  }

  /** A step of the compactor's side, seen beside any writer. */
  lemma CompactorStepIs(s: Rivals, b: RivalAction, p: nat)
    requires Compacting(b.a)
    ensures var v := Step(View(s, p, b.p), b.a);
            && RivalStep(s, b) == s.(files := v.files, wals := v.wals, ids := v.ids,
                                     compactors := Put(s.compactors, b.p, v.compactor),
                                     latest := if Starts(s, b) then b.p else s.latest)
            && v.writer == At(s.writers, p)
  {
    hide Step;
    CompactorSide(View(s, p, b.p), At(s.writers, b.p), b.a);
    assert View(s, b.p, b.p) == View(s, p, b.p).(writer := At(s.writers, b.p));
    PutAt(s.writers, b.p);
  }

  // ---------------------------------------------------------------- versions of the manifest

  lemma FencedStays(files: Files, files': Files, c: Client, kind: Kind)
    requires IsFenced(files, c, kind) && Grows(files, files')
    ensures IsFenced(files', c, kind)
  {
    hide Consecutive;
    if files' != files {
      AppendVersion(files, files'[|files| + 1]);
    }
  }

  /** What was the newest process of its kind is fenced when another one takes over. */
  lemma OvertakenIsFenced(files: Files, files': Files, c: Client, kind: Kind)
    requires Raises(files, files', kind) && ClientOk(files, c, kind)
    ensures IsFenced(files', c, kind)
  {
    hide Consecutive;
    AppendVersion(files, files'[|files| + 1]);
  }

  lemma FencedWritersStay(s: Rivals, files': Files, p: nat)
    requires OthersFenced(s) && Grows(s.files, files') && p in s.writers && p != s.newest
    ensures IsFenced(files', s.writers[p].client, WriterKind)
  {
    hide IsFenced, Grows;
    FencedStays(s.files, files', s.writers[p].client, WriterKind);
  }

  lemma FencedCompactorsStay(s: Rivals, files': Files, p: nat)
    requires OthersFenced(s) && Grows(s.files, files') && p in s.compactors && p != s.latest
    ensures IsFenced(files', s.compactors[p].client, CompactorKind)
  {
    hide IsFenced, Grows;
    FencedStays(s.files, files', s.compactors[p].client, CompactorKind);
  }

  /** A step of the newest process of either side: the others stay fenced. */
  lemma OthersStay(s: Rivals, s': Rivals)
    requires OthersFenced(s) && (|s.files| in s.files ==> Grows(s.files, s'.files))
    requires s'.newest == s.newest && s'.latest == s.latest
    requires forall p :: p in s'.writers && p != s.newest ==> p in s.writers && s'.writers[p] == s.writers[p]
    requires forall p :: p in s'.compactors && p != s.latest ==>
               p in s.compactors && s'.compactors[p] == s.compactors[p]
    ensures OthersFenced(s')
  {
    hide IsFenced, Grows;
    forall p | p in s'.writers && p != s'.newest ensures IsFenced(s'.files, s'.writers[p].client, WriterKind) {
      FencedIsLive(s.files, s.writers[p].client, WriterKind);
      FencedWritersStay(s, s'.files, p);
    }
    forall p | p in s'.compactors && p != s'.latest ensures IsFenced(s'.files, s'.compactors[p].client, CompactorKind) {
      FencedIsLive(s.files, s.compactors[p].client, CompactorKind);
      FencedCompactorsStay(s, s'.files, p);
    }
  }

  // ---------------------------------------------------------------- the newest run alone

  ghost function Newest(s: Rivals): System {
    View(s, s.newest, s.latest)
  }

  /** Run r of the machine with one writer and one compactor is in the state that the newest ones see; it may have
      used fewer SST ids. */
  ghost predicate RunsAlone(st: RivalState, r: seq<Action>) {
    var alone := Exec(r);
    && alone.history == st.history
    && alone.sys == Newest(st.sys).(ids := alone.sys.ids)
    && alone.sys.ids <= st.sys.ids
  }

  lemma FilesGrow(r: seq<Action>, a: Action)
    ensures var files := Exec(r).sys.files; |files| in files ==> Grows(files, Step(Exec(r).sys, a).files)
  {
    hide Exec, Step, Created, Grows;
    var x := RunKeepsInv(r);
    if |Exec(r).sys.files| in Exec(r).sys.files {
      StepGrows(Exec(r).sys, Exec(r).history, x, a);
    }
  }

  /** The step that a rival machine takes in the view of the newest is a step alone, unless an id rules it out. */
  lemma StepAlone(st: RivalState, r: seq<Action>, a: Action) returns (r': seq<Action>)
    requires RunsAlone(st, r)
    ensures var v, v' := Newest(st.sys), Step(Newest(st.sys), a); var alone := Exec(r').sys;
            && alone == v'.(ids := alone.ids) && alone.ids <= v'.ids
            && Exec(r').history == StepHistory(st.history, a, v.writer.Some?)
            && (|v.files| in v.files ==> Grows(v.files, v'.files))
  {
    hide Exec, Step, Grows;
    var s, alone := st.sys, Exec(r).sys;
    FewerIds(alone, s.ids, a);
    ExecNext(r, a);
    FilesGrow(r, a);
    assert Newest(s) == alone.(ids := s.ids);
    if Step(Newest(s), a) == Newest(s) && (a.FlushMemtable? || a.CompactorFinish?) {
      r' := r;
      SameGrow(s.files);
      QuietHistory(st.history, a, s.newest in s.writers);
    } else {
      r' := r + [a];
    }
  }

  lemma SameGrow(files: Files)
    ensures Grows(files, files)
  {}

  lemma QuietHistory(h: History, a: Action, up: bool)
    requires Compacting(a) || a.FlushMemtable? || a.CreateDb?
    ensures StepHistory(h, a, up) == h
  {}

  lemma NewestWriterStep(st: RivalState, b: RivalAction, r: seq<Action>) returns (r': seq<Action>)
    requires RunsAlone(st, r) && OthersFenced(st.sys) && !Compacting(b.a)
    requires b.p == st.sys.newest && !Opens(st.sys, b)
    ensures RunsAlone(RivalNext(st, b), r') && OthersFenced(RivalNext(st, b).sys)
  {
    hide Exec, Step, IsFenced, Grows, Compacting, OthersFenced, RivalStep;
    var s, s' := st.sys, RivalStep(st.sys, b);
    WriterStepIs(s, b, s.latest);
    r' := StepAlone(st, r, b.a);
    assert Newest(s') == Step(Newest(s), b.a);
    OthersStay(s, s');
  }

  lemma NewestCompactorStep(st: RivalState, b: RivalAction, r: seq<Action>) returns (r': seq<Action>)
    requires RunsAlone(st, r) && OthersFenced(st.sys) && Compacting(b.a)
    requires b.p == st.sys.latest && !Starts(st.sys, b)
    ensures RunsAlone(RivalNext(st, b), r') && OthersFenced(RivalNext(st, b).sys)
  {
    hide Exec, Step, IsFenced, Grows, Compacting, OthersFenced, RivalStep, StepHistory;
    var s, s' := st.sys, RivalStep(st.sys, b);
    CompactorStepIs(s, b, s.newest);
    r' := StepAlone(st, r, b.a);
    assert Newest(s') == Step(Newest(s), b.a);
    QuietHistory(st.history, b.a, s.newest in s.writers);
    NotOpening(s, b);
    OthersStay(s, s');
  }

  lemma NotOpening(s: Rivals, b: RivalAction)
    requires Compacting(b.a)
    ensures !Opens(s, b)
  {}

  /** Opening the database fences the writer that was the newest; the new one finds what a crash of that one
      would have left. */
  lemma OpenStep(st: RivalState, b: RivalAction, r: seq<Action>) returns (r': seq<Action>)
    requires RunsAlone(st, r) && OthersFenced(st.sys) && Opens(st.sys, b)
    ensures r' == r + [CrashWriter, b.a]
    ensures RunsAlone(RivalNext(st, b), r') && OthersFenced(RivalNext(st, b).sys)
  {
    hide Exec, Open, IsFenced, Created, Raises, Grows, RivalStep;
    var s, alone := st.sys, Exec(r).sys;
    var s' := RivalStep(s, b);
    WriterStepIs(s, b, s.latest);
    var crashed := r + [CrashWriter];
    r' := crashed + [b.a];
    ExecNext(r, CrashWriter);
    ExecNext(crashed, b.a);
    assert View(s, b.p, s.latest) == Exec(crashed).sys.(ids := s.ids);
    OpenIgnoresIds(Exec(crashed).sys, s.ids, b.a.full);
    var x := RunKeepsInv(r);
    var x' := RunKeepsInv(crashed);
    StepGrows(Exec(crashed).sys, Exec(crashed).history, x', b.a);
    UpClients(alone, Exec(r).history, x);
    forall p | p in s'.writers && p != s'.newest ensures IsFenced(s'.files, s'.writers[p].client, WriterKind) {
      if p == s.newest {
        OvertakenIsFenced(s.files, s'.files, s.writers[p].client, WriterKind);
      } else {
        FencedWritersStay(s, s'.files, p);
      }
    }
    forall p | p in s'.compactors && p != s'.latest ensures IsFenced(s'.files, s'.compactors[p].client, CompactorKind) {
      FencedCompactorsStay(s, s'.files, p);
    }
  }

  lemma OpenIgnoresIds(s: System, ids: set<nat>, full: Table -> bool)
    requires s.files != map[]
    ensures Open(s.(ids := ids), full) == Open(s, full).(ids := ids) && Open(s, full).ids == s.ids
  {
    hide Recover, Fence;
  }

  /** Starting a compactor fences the one that was the newest; the new one starts as after a crash of that one. */
  lemma StartStep(st: RivalState, b: RivalAction, r: seq<Action>) returns (r': seq<Action>)
    requires RunsAlone(st, r) && OthersFenced(st.sys) && Starts(st.sys, b)
    ensures r' == r + [CrashCompactor, b.a]
    ensures RunsAlone(RivalNext(st, b), r') && OthersFenced(RivalNext(st, b).sys)
  {
    hide Exec, Fence, IsFenced, Created, Raises, Grows, RivalStep;
    var s, alone := st.sys, Exec(r).sys;
    var s' := RivalStep(s, b);
    CompactorStepIs(s, b, s.newest);
    var crashed := r + [CrashCompactor];
    r' := crashed + [b.a];
    ExecNext(r, CrashCompactor);
    ExecNext(crashed, b.a);
    assert View(s, s.newest, b.p) == Exec(crashed).sys.(ids := s.ids);
    var x := RunKeepsInv(r);
    var x' := RunKeepsInv(crashed);
    StepGrows(Exec(crashed).sys, Exec(crashed).history, x', b.a);
    UpClients(alone, Exec(r).history, x);
    forall p | p in s'.compactors && p != s'.latest ensures IsFenced(s'.files, s'.compactors[p].client, CompactorKind) {
      if p == s.latest {
        OvertakenIsFenced(s.files, s'.files, s.compactors[p].client, CompactorKind);
      } else {
        FencedCompactorsStay(s, s'.files, p);
      }
    }
    forall p | p in s'.writers && p != s'.newest ensures IsFenced(s'.files, s'.writers[p].client, WriterKind) {
      FencedWritersStay(s, s'.files, p);
    }
  }

  /** A step of a process that is not the newest of its side leaves what the newest see as it is. */
  ghost predicate Unseen(s: Rivals, s': Rivals) {
    && s'.newest == s.newest && s'.latest == s.latest
    && Newest(s') == Newest(s).(ids := s'.ids) && s.ids <= s'.ids
  }

  lemma UnseenRunsAlone(st: RivalState, st': RivalState, r: seq<Action>)
    requires RunsAlone(st, r) && Unseen(st.sys, st'.sys) && st'.history == st.history
    ensures RunsAlone(st', r)
  {
    hide Exec;
  }

  lemma FencedWriterStep(st: RivalState, b: RivalAction, r: seq<Action>)
    requires RunsAlone(st, r) && OthersFenced(st.sys) && NotFenced(st.sys, b)
    requires b.p != st.sys.newest && !Opens(st.sys, b) && !Compacting(b.a) && !b.a.CreateDb?
    ensures RunsAlone(RivalNext(st, b), r) && OthersFenced(RivalNext(st, b).sys)
  {
    hide Exec, IsFenced, Step, Compacting, Consecutive, RivalStep;
    var s := st.sys;
    WriterStepIs(s, b, s.latest);
    if b.p in s.writers {
      FilesAreOk(r);
      FencedIsLive(s.files, s.writers[b.p].client, WriterKind);
      FencedStep(View(s, b.p, s.latest), b.a);
    } else {
      DownIsIdle(View(s, b.p, s.latest), b.a);
    }
    UnseenRunsAlone(st, RivalNext(st, b), r);
  }

  lemma FencedCompactorRivalStep(st: RivalState, b: RivalAction, r: seq<Action>)
    requires RunsAlone(st, r) && OthersFenced(st.sys)
    requires b.p != st.sys.latest && !Starts(st.sys, b) && Compacting(b.a)
    ensures RunsAlone(RivalNext(st, b), r) && OthersFenced(RivalNext(st, b).sys)
  {
    hide Exec, IsFenced, Step, Compacting, Consecutive, RivalStep, StepHistory;
    var s := st.sys;
    CompactorStepIs(s, b, s.newest);
    NotOpening(s, b);
    QuietHistory(st.history, b.a, s.newest in s.writers);
    if b.p in s.compactors {
      FilesAreOk(r);
      FencedIsLive(s.files, s.compactors[b.p].client, CompactorKind);
      FencedCompactorStep(View(s, s.newest, b.p), b.a);
    } else {
      DownCompactorIsIdle(View(s, s.newest, b.p), b.a);
    }
    UnseenRunsAlone(st, RivalNext(st, b), r);
  }

  lemma FilesAreOk(r: seq<Action>)
    ensures var files := Exec(r).sys.files; |files| in files ==> FilesOk(files)
  {
    hide Exec, Created;
    var x := RunKeepsInv(r);
    if !NotCreated(Exec(r).sys, Exec(r).history) {
      UpClients(Exec(r).sys, Exec(r).history, x);
    }
  }

  lemma DownIsIdle(s: System, a: Action)
    requires s.writer.None? && !Compacting(a) && !a.CreateDb? && (a.OpenWriter? ==> s.files == map[])
    ensures Step(s, a) == s
  {}

  lemma DownCompactorIsIdle(s: System, a: Action)
    requires s.compactor.None? && Compacting(a) && (a.StartCompactor? ==> s.files == map[])
    ensures Step(s, a) == s
  {}

  /** Whoever creates the database. */
  lemma CreateIsAnyones(st: RivalState, b: RivalAction)
    requires b.a.CreateDb?
    ensures RivalNext(st, b) == RivalNext(st, By(st.sys.newest, b.a))
  {
    hide RivalStep;
    var s := st.sys;
    WriterStepIs(s, b, s.latest);
    WriterStepIs(s, By(s.newest, b.a), s.latest);
    PutAt(s.writers, b.p);
    PutAt(s.writers, s.newest);
  }

  lemma StepRunsAlone(st: RivalState, b: RivalAction, r: seq<Action>) returns (r': seq<Action>)
    requires RunsAlone(st, r) && OthersFenced(st.sys) && NotFenced(st.sys, b)
    ensures RunsAlone(RivalNext(st, b), r') && OthersFenced(RivalNext(st, b).sys)
  {
    hide RunsAlone, OthersFenced, NotFenced, RivalNext, Step;
    if Opens(st.sys, b) {
      r' := OpenStep(st, b, r);
    } else if Starts(st.sys, b) {
      r' := StartStep(st, b, r);
    } else if Compacting(b.a) {
      if b.p == st.sys.latest {
        r' := NewestCompactorStep(st, b, r);
      } else {
        FencedCompactorRivalStep(st, b, r);
        r' := r;
      }
    } else if b.p == st.sys.newest {
      r' := NewestWriterStep(st, b, r);
    } else if b.a.CreateDb? {
      CreateIsAnyones(st, b);
      r' := NewestWriterStep(st, By(st.sys.newest, b.a), r);
    } else {
      FencedWriterStep(st, b, r);
      r' := r;
    }
  }

  /** Refinement: in every run with any number of writers and compactors in which no fenced writer uploads a WAL,
      the newest writer, the newest compactor and the shared objects are in a state that a run with one of
      each reaches, after the same writes; and every other writer and compactor is fenced. */
  lemma {:induction false} NewestRunsAlone(run: seq<RivalAction>) returns (r: seq<Action>)
    requires NoFencedUpload(run)
    ensures RunsAlone(RivalExec(run), r) && OthersFenced(RivalExec(run).sys)
  {
    hide RivalNext, NotFenced, RunsAlone, OthersFenced;
    if run == [] {
      r := [];
      NobodyRuns();
    } else {
      var n := |run| - 1;
      assert forall i :: 0 <= i < n ==> run[..n][..i] == run[..i];
      var before := NewestRunsAlone(run[..n]);
      r := StepRunsAlone(RivalExec(run[..n]), run[n], before);
    }
  }

  lemma NobodyRuns()
    ensures RunsAlone(RivalExec([]), []) && OthersFenced(RivalExec([]).sys)
  {}

  /** In such a run the newest writer's reads answer with the latest writes. */
  lemma NewestReadsLatestWrites(run: seq<RivalAction>, key: bytes)
    requires NoFencedUpload(run) && RivalExec(run).sys.newest in RivalExec(run).sys.writers
    ensures var st := RivalExec(run); var db := st.sys.writers[st.sys.newest].db; var k := InSsts(db, st.history);
            && k <= |st.history.flushed|
            && var n := |Concat(st.history.flushed[..k])|;
               var all, durable := st.history.Writes(), st.history.DurableWrites();
            && Answers(db.GetUncommitted(key), all, n, key)
            && Answers(db.GetCommitted(key), durable, n, key)
            && (db.GetUncommitted(key) == LatestAnswer(all, key) <==> !EmptyInSst(all, n, key))
            && (db.GetCommitted(key) == LatestAnswer(durable, key) <==> !EmptyInSst(durable, n, key))
  {
    hide Exec, RivalExec, NoFencedUpload, OthersFenced, Answers, LatestAnswer, EmptyInSst, InSsts, Concat,
         Db.GetCommitted, Db.GetUncommitted;
    var r := NewestRunsAlone(run);
    ReadsSeeLatestWrites(r, key);
  }

  /** What any writer has made durable stays among the durable writes, whoever opens the database later. */
  lemma {:induction false} RivalWritesStay(run: seq<RivalAction>, rest: seq<RivalAction>)
    ensures RivalExec(run).history.flushed <= RivalExec(run + rest).history.flushed
    decreases |rest|
  {
    hide RivalStep;
    if rest == [] {
      assert run + rest == run;
    } else {
      var n := |rest| - 1;
      RivalWritesStay(run, rest[..n]);
      assert (run + rest)[..|run| + n] == run + rest[..n] && (run + rest)[|run| + n] == rest[n];
    }
  }

  // ---------------------------------------------------------------- a fenced writer uploads

  lemma RivalSnoc(run: seq<RivalAction>, b: RivalAction)
    ensures RivalExec(run + [b]) == RivalNext(RivalExec(run), b)
  {
    assert (run + [b])[..|run|] == run;
  }

  ghost function One(key: bytes, data: bytes): Table {
    map[key := Present(data)]
  }

  /** A new database whose writer has frozen one write, and that writer after the upload. */
  ghost function Frozen(key: bytes, data: bytes): Db {
    Db(map[], [ImmWal(1, One(key, data))], EmptyMemtable, [], NewCore.(nextWal := 2))
  }

  ghost function Flushed(key: bytes, data: bytes): Db {
    Db(map[], [], Memtable(One(key, data), Some(1)), [], NewCore.(nextWal := 2))
  }

  lemma WriteAndFreeze(s: System, c: Client, key: bytes, data: bytes)
    requires s.writer == Some(WriterProcess(NewDb(NewCore), c)) && key != []
    ensures Step(Step(s, WriteKey(key, Present(data))), Action.FreezeWal)
         == s.(writer := Some(WriterProcess(Frozen(key, data), c)))
  {
    var db := NewDb(NewCore).Write(key, Present(data));
    assert key in db.wal && db.wal == One(key, data);
    assert [ImmWal(1, One(key, data))] + [] == [ImmWal(1, One(key, data))];
  }

  lemma FlushFrozen(s: System, c: Client, key: bytes, data: bytes)
    requires s.writer == Some(WriterProcess(Frozen(key, data), c)) && data != []
    ensures Step(s, FlushWal(NeverFull()))
         == s.(wals := s.wals[1 := One(key, data)], writer := Some(WriterProcess(Flushed(key, data), c)))
  {
    var t := One(key, data);
    assert map[] + t == t && Persist(t) == t;
  }

  lemma FlushedAnswers(db: Db, key: bytes, data: bytes)
    requires db.memtable.rows == One(key, data) && db.immMemtables == [] && db.core.l0 == [] && db.core.compacted == []
    ensures db.GetCommitted(key) == Found(data)
  {
    assert key in One(key, data) && db.CommittedTiers() == [One(key, data)];
    assert Search([One(key, data)], key) == Some(Present(data));
  }

  /** Opening a database whose manifest lists nothing: without a WAL, and with one. */
  lemma OpenFresh(s: System)
    requires FilesOk(s.files) && Latest(s.files).core == NewCore && s.wals == map[] && s.writer == None
    ensures var m := Latest(s.files).Bump(WriterKind); var c := Live(WriterKind, m.writerEpoch, |s.files| + 1, m);
            Step(s, OpenWriter(NeverFull()))
            == s.(files := s.files[|s.files| + 1 := m], writer := Some(WriterProcess(NewDb(NewCore), c)))
  {
    hide Consecutive;
    FenceOutcome(s.files, WriterKind);
    assert IdsBetween(s.wals, 0, 0) == [];
    assert Recover(NewCore, s.wals, NeverFull()) == (NewDb(NewCore), true);
  }

  lemma OpenAfterWal(s: System, key: bytes, data: bytes)
    requires FilesOk(s.files) && Latest(s.files).core == NewCore
    requires s.wals == map[1 := One(key, data)] && s.writer == None
    ensures var s' := Step(s, OpenWriter(NeverFull()));
            s'.writer.Some? && s'.writer.value.db.GetCommitted(key) == Found(data)
  {
    hide Consecutive, Db.GetCommitted, Db.Replay;
    FenceOutcome(s.files, WriterKind);
    assert 1 in s.wals && IsMaxKey(s.wals, 1);
    assert IdsBetween(s.wals, 0, 0) == [] && IdsBetween(s.wals, 0, 1) == [1];
    var db := NewDb(NewCore).Replay([1], s.wals, NeverFull());
    ReplayFirst(s.wals, key, data);
    FlushedAnswers(db, key, data);
  }

  lemma ReplayFirst(wals: map<nat, Table>, key: bytes, data: bytes)
    requires wals == map[1 := One(key, data)]
    ensures NewDb(NewCore).Replay([1], wals, NeverFull())
         == Db(map[], [], Memtable(One(key, data), None), [], NewCore.(nextWal := 2))
  {
    assert [1][..0] == [] && NewDb(NewCore).Replay([], wals, NeverFull()) == NewDb(NewCore);
    assert map[] + One(key, data) == One(key, data);
  }

  ghost function Versions(n: nat): Files {
    if n == 0 then map[] else Versions(n - 1)[n := Manifest(NewCore, n - 1, 0)]
  }

  lemma {:induction false} VersionsOk(n: nat)
    ensures Consecutive(Versions(n)) && |Versions(n)| == n
    ensures n > 0 ==> FilesOk(Versions(n)) && Latest(Versions(n)) == Manifest(NewCore, n - 1, 0)
  {
    if n == 1 {
      assert Versions(1) == map[1 := Manifest(NewCore, 0, 0)];
    } else if n > 1 {
      VersionsOk(n - 1);
      AppendVersion(Versions(n - 1), Manifest(NewCore, n - 1, 0));
    }
  }

  /** The writer that stored version n + 1 and has this memory. */
  ghost function Opener(n: nat, db: Db): WriterProcess {
    WriterProcess(db, Live(WriterKind, n, n + 1, Manifest(NewCore, n, 0)))
  }

  lemma OpenRival(s: Rivals, n: nat, p: nat)
    requires n > 0 && s.files == Versions(n) && s.wals == map[] && p !in s.writers
    ensures RivalStep(s, By(p, OpenWriter(NeverFull())))
         == s.(files := Versions(n + 1), writers := s.writers[p := Opener(n, NewDb(NewCore))], newest := p)
  {
    hide Step, FilesOk, NewDb, RivalStep;
    VersionsOk(n);
    OpenFresh(View(s, p, p));
    WriterStepIs(s, By(p, OpenWriter(NeverFull())), p);
  }

  lemma WriteRival(s: Rivals, p: nat, key: bytes, data: bytes)
    requires p in s.writers && s.writers[p].db == NewDb(NewCore) && key != []
    ensures RivalStep(RivalStep(s, By(p, WriteKey(key, Present(data)))), By(p, Action.FreezeWal))
         == s.(writers := s.writers[p := s.writers[p].(db := Frozen(key, data))])
  {
    hide Frozen, NewDb;
    var s1 := RivalStep(s, By(p, WriteKey(key, Present(data))));
    assert View(s1, p, p) == Step(View(s, p, p), WriteKey(key, Present(data)));
    WriteAndFreeze(View(s, p, p), s.writers[p].client, key, data);
  }

  lemma FlushRival(s: Rivals, p: nat, key: bytes, data: bytes)
    requires p in s.writers && s.writers[p].db == Frozen(key, data) && data != []
    ensures RivalStep(s, By(p, FlushWal(NeverFull())))
         == s.(wals := s.wals[1 := One(key, data)], writers := s.writers[p := s.writers[p].(db := Flushed(key, data))])
  {
    hide Step, Frozen, Flushed;
    FlushFrozen(View(s, p, p), s.writers[p].client, key, data);
  }

  /** Process p opens the database, writes once and freezes the WAL. */
  ghost function OpenAndWrite(p: nat, key: bytes, data: bytes): seq<RivalAction> {
    [By(p, OpenWriter(NeverFull())), By(p, WriteKey(key, Present(data))), By(p, Action.FreezeWal)]
  }

  lemma OpenAndWriteRun(run: seq<RivalAction>, n: nat, p: nat, key: bytes, data: bytes)
    requires key != [] && n > 0
    requires var s := RivalExec(run).sys; s.files == Versions(n) && s.wals == map[] && p !in s.writers
    ensures var s := RivalExec(run).sys;
            RivalExec(run + OpenAndWrite(p, key, data)).sys
            == s.(files := Versions(n + 1), writers := s.writers[p := Opener(n, Frozen(key, data))], newest := p)
  {
    hide RivalExec, RivalStep, RivalHistory, Versions, Frozen, NewDb;
    var bs := OpenAndWrite(p, key, data);
    RivalSnoc(run, bs[0]);
    RivalSnoc(run + [bs[0]], bs[1]);
    RivalSnoc(run + [bs[0]] + [bs[1]], bs[2]);
    assert run + bs == run + [bs[0]] + [bs[1]] + [bs[2]];
    OpenRival(RivalExec(run).sys, n, p);
    WriteRival(RivalExec(run + [bs[0]]).sys, p, key, data);
  }

  /** Writer 1 freezes a write; writer 2 opens the database, and its write to the same key becomes durable. */
  ghost function Overtaking(key: bytes, mine: bytes, theirs: bytes): seq<RivalAction> {
    [By(1, CreateDb)] + OpenAndWrite(1, key, mine) + OpenAndWrite(2, key, theirs) + [By(2, FlushWal(NeverFull()))]
  }

  ghost function Overtaken(key: bytes, mine: bytes, theirs: bytes): Rivals {
    Rivals(Versions(3), map[1 := One(key, theirs)], {},
           map[1 := Opener(1, Frozen(key, mine)), 2 := Opener(2, Flushed(key, theirs))], map[], 2, 0)
  }

  lemma OvertakingRun(key: bytes, mine: bytes, theirs: bytes)
    requires key != [] && theirs != []
    ensures RivalExec(Overtaking(key, mine, theirs)).sys == Overtaken(key, mine, theirs)
  {
    hide RivalExec, RivalStep, RivalHistory, OpenAndWrite, Versions, Frozen, Flushed, One;
    var run := [By(1, CreateDb)];
    FirstStep();
    RivalSnoc([], By(1, CreateDb));
    assert [] + run == run;
    OpenAndWriteRun(run, 1, 1, key, mine);
    run := run + OpenAndWrite(1, key, mine);
    OpenAndWriteRun(run, 2, 2, key, theirs);
    run := run + OpenAndWrite(2, key, theirs);
    RivalSnoc(run, By(2, FlushWal(NeverFull())));
    FlushRival(RivalExec(run).sys, 2, key, theirs);
  }

  lemma FirstStep()
    ensures RivalStep(RivalExec([]).sys, By(1, CreateDb)) == Rivals(Versions(1), map[], {}, map[], map[], 0, 0)
  {
    assert Versions(0) == map[];
  }

  /** Without the condition a durable write is lost: writer 2 has made its value of the key durable and reads
      it; then the fenced writer 1 uploads its own WAL 1 over it, and when writer 2 opens the database again
      it reads the value of writer 1. */
  lemma FencedUploadLosesWrite(key: bytes, mine: bytes, theirs: bytes)
    requires key != [] && mine != [] && theirs != []
    ensures var run := Overtaking(key, mine, theirs); var s := RivalExec(run).sys;
            var rest := [By(1, FlushWal(NeverFull())), By(2, CrashWriter), By(2, OpenWriter(NeverFull()))];
            var s' := RivalExec(run + rest).sys;
            && s.newest == 2 && 2 in s.writers && s.writers[2].db.GetCommitted(key) == Found(theirs)
            && s'.newest == 2 && 2 in s'.writers && s'.writers[2].db.GetCommitted(key) == Found(mine)
  {
    hide RivalExec, RivalStep, RivalHistory, Versions, Frozen, Overtaking, One, Db.GetCommitted;
    var run := Overtaking(key, mine, theirs);
    var flush, crash, reopen := By(1, FlushWal(NeverFull())), By(2, CrashWriter), By(2, OpenWriter(NeverFull()));
    OvertakingRun(key, mine, theirs);
    var s := RivalExec(run).sys;
    FlushedAnswers(s.writers[2].db, key, theirs);
    FlushRival(s, 1, key, mine);
    RivalSnoc(run, flush);
    RivalSnoc(run + [flush], crash);
    RivalSnoc(run + [flush] + [crash], reopen);
    assert run + [flush, crash, reopen] == run + [flush] + [crash] + [reopen];
    Reopened(RivalExec(run + [flush]).sys, key, mine);
  }

  lemma Reopened(s: Rivals, key: bytes, data: bytes)
    requires s.files == Versions(3) && s.wals == map[1 := One(key, data)] && 2 in s.writers
    ensures var s' := RivalStep(RivalStep(s, By(2, CrashWriter)), By(2, OpenWriter(NeverFull())));
            s'.newest == 2 && 2 in s'.writers && s'.writers[2].db.GetCommitted(key) == Found(data)
  {
    hide Versions, FilesOk, One, Open, Db.GetCommitted;
    VersionsOk(3);
    OpenAfterWal(View(RivalStep(s, By(2, CrashWriter)), 2, 2), key, data);
  }
}
