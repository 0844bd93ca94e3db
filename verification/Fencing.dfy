/** Fencing over whole runs: any number of writers and compactors, in any interleaving.

    A run is any sequence of actions. An action that is not possible in a state leaves the state
    as it is, so every sequence is a run and the theorems below need no hypothesis about it.
 */
module Fencing {
  import opened Tables
  import opened Manifests

  datatype Fleet = Fleet(files: Files, clients: map<nat, Client>)

  datatype Action =
    | Create(core: Core)              // the first version, by whoever finds no manifest
    | Load(process: nat)              // read the latest version, before fencing
    | Join(process: nat, kind: Kind)  // fence the rivals
    | Refresh(process: nat)
    | Update(process: nat, core: Core)
    | Leave(process: nat)

  ghost predicate Enabled(s: Fleet, a: Action) {
    match a
    case Create(_) => 1 !in s.files
    case Load(p) => s.files != map[] && (p in s.clients ==> s.clients[p].Loaded?)
    case Join(p, _) => p in s.clients && s.clients[p].Loaded?
    case Refresh(p) => p in s.clients && s.clients[p].Live?
    case Update(p, _) => p in s.clients && s.clients[p].Live?
    case Leave(p) => true
  }

  /** What a client's own call does to the store and to the client. */
  ghost function Outcome(s: Fleet, a: Action): Result
    requires a.Join? || a.Refresh? || a.Update?
    requires Enabled(s, a)
  {
    match a
    case Join(p, kind) => Fence(s.files, s.clients[p], kind)
    case Refresh(p) => RefreshClient(s.files, s.clients[p])
    case Update(p, core) => UpdateDbState(s.files, s.clients[p], core)
  }

  ghost function Next(s: Fleet, a: Action): Fleet {
    if !Enabled(s, a) then s else
    match a
    case Create(core) => s.(files := s.files[1 := Manifest(core, 0, 0)])
    case Load(p) =>
      s.(clients := s.clients[p := Loaded(MaxKey(s.files), s.files[MaxKey(s.files)])])
    case Leave(p) => s.(clients := s.clients - {p})
    case _ =>
      var r := Outcome(s, a);
      Fleet(r.files, s.clients[a.process := r.client])
  }

  ghost function Exec(run: seq<Action>): Fleet {
    if run == [] then Fleet(map[], map[])
    else Next(Exec(run[..|run| - 1]), run[|run| - 1])
  }

  // ---------------------------------------------------------------- the invariant

  ghost predicate EpochsOrdered(files: Files) {
    forall i, j, k :: i in files && j in files && i <= j ==> files[i].Epoch(k) <= files[j].Epoch(k)
  }

  /** A client's copy is the stored version, unless a later version exists already; a live client
      never holds a version older than its own epoch. */
  ghost predicate ClientOk(files: Files, c: Client) {
    && c.id in files
    && (files[c.id] == c.manifest || (c.Loaded? && c.id + 1 in files))
    && (c.Live? ==> c.epoch <= c.manifest.Epoch(c.kind))
  }

  ghost predicate Rivals(c: Client, d: Client) {
    c.Live? && d.Live? && c.kind == d.kind
  }

  ghost predicate Inv(s: Fleet) {
    && Consecutive(s.files)
    && EpochsOrdered(s.files)
    && (forall p :: p in s.clients ==> ClientOk(s.files, s.clients[p]))
    && (forall p, q :: p in s.clients && q in s.clients && p != q && Rivals(s.clients[p], s.clients[q])
                       ==> s.clients[p].epoch != s.clients[q].epoch)
  }

  /** A write that goes through creates the next id and carries the epochs of the version before it,
      or epochs above them. */
  lemma WriteKeepsFiles(files: Files, c: Client, m: Manifest)
    requires Consecutive(files) && EpochsOrdered(files) && ClientOk(files, c)
    requires c.id + 1 !in files
    requires forall k :: files[c.id].Epoch(k) <= m.Epoch(k)
    ensures c.id == |files| && MaxKey(files) == c.id
    ensures Consecutive(files[c.id + 1 := m]) && EpochsOrdered(files[c.id + 1 := m])
    ensures files[c.id] == c.manifest
  {
    MaxKeyIsCount(files);
    var files' := files[c.id + 1 := m];
    assert |files'| == |files| + 1;
    forall i, j, k | i in files' && j in files' && i <= j
      ensures files'[i].Epoch(k) <= files'[j].Epoch(k)
    {
      if j == c.id + 1 && i in files {
        assert files[i].Epoch(k) <= files[c.id].Epoch(k);
      }
    }
  }

  ghost predicate Grows(files: Files, files': Files) {
    forall i :: i in files ==> i in files' && files'[i] == files[i]
  }

  lemma ClientsKeep(files: Files, files': Files, c: Client)
    requires ClientOk(files, c) && Grows(files, files')
    ensures ClientOk(files', c)
  {}

  /** A live client's epoch never exceeds the epoch of the latest version. */
  lemma EpochWithinLatest(s: Fleet, p: nat)
    requires Inv(s) && p in s.clients && s.clients[p].Live?
    ensures s.files != map[]
    ensures s.clients[p].epoch <= s.files[MaxKey(s.files)].Epoch(s.clients[p].kind)
  {
    var c := s.clients[p];
    assert s.files[c.id].Epoch(c.kind) <= s.files[MaxKey(s.files)].Epoch(c.kind);
  }

  /** Replacing one client's value, over files that only grew. */
  lemma ReplaceClient(s: Fleet, files': Files, p: nat, c': Client)
    requires Inv(s) && Consecutive(files') && EpochsOrdered(files') && Grows(s.files, files')
    requires ClientOk(files', c')
    requires forall q :: q in s.clients && q != p && Rivals(s.clients[q], c') ==> s.clients[q].epoch != c'.epoch
    ensures Inv(Fleet(files', s.clients[p := c']))
  {
    hide Consecutive, EpochsOrdered, ClientOk, Grows;
    forall q | q in s.clients
      ensures ClientOk(files', s.clients[q])
    {
      ClientsKeep(s.files, files', s.clients[q]);
    }
  }

  lemma JoinKeepsInv(s: Fleet, p: nat, kind: Kind)
    requires Inv(s) && Enabled(s, Join(p, kind))
    ensures Inv(Next(s, Join(p, kind))) && Grows(s.files, Next(s, Join(p, kind)).files)
  {
    hide Consecutive, EpochsOrdered;
    var c := s.clients[p];
    var r := Fence(s.files, c, kind);
    assert ClientOk(s.files, c);
    if c.id + 1 !in s.files {
      WriteKeepsFiles(s.files, c, c.manifest.Bump(kind));
      forall q | q in s.clients && Rivals(s.clients[q], r.client)
        ensures s.clients[q].epoch < r.client.epoch
      {
        EpochWithinLatest(s, q);
      }
    }
    ReplaceClient(s, r.files, p, r.client);
  }

  lemma UpdateKeepsInv(s: Fleet, p: nat, core: Core)
    requires Inv(s) && Enabled(s, Update(p, core))
    ensures Inv(Next(s, Update(p, core))) && Grows(s.files, Next(s, Update(p, core)).files)
  {
    hide Consecutive, EpochsOrdered;
    var c := s.clients[p];
    var r := UpdateDbState(s.files, c, core);
    assert ClientOk(s.files, c);
    if r.status == Ok {
      WriteKeepsFiles(s.files, c, c.manifest.(core := core));
    }
    ReplaceClient(s, r.files, p, r.client);
  }

  lemma RefreshKeepsInv(s: Fleet, p: nat)
    requires Inv(s) && Enabled(s, Refresh(p))
    ensures Inv(Next(s, Refresh(p)))
  {
    EpochWithinLatest(s, p);
    ReplaceClient(s, s.files, p, RefreshClient(s.files, s.clients[p]).client);
  }

  lemma CreateKeepsInv(s: Fleet, core: Core)
    requires Inv(s) && Enabled(s, Create(core))
    ensures Inv(Next(s, Create(core))) && Grows(s.files, Next(s, Create(core)).files)
  {
    assert 1 in s.files <==> 1 <= |s.files|;
    assert s.files == map[];
  }

  lemma NextKeepsInv(s: Fleet, a: Action)
    requires Inv(s)
    ensures Inv(Next(s, a)) && Grows(s.files, Next(s, a).files)
  {
    if Enabled(s, a) {
      match a
      case Create(core) => CreateKeepsInv(s, core);
      case Load(p) => ReplaceClient(s, s.files, p, Next(s, a).clients[p]);
      case Join(p, kind) => JoinKeepsInv(s, p, kind);
      case Refresh(p) => RefreshKeepsInv(s, p);
      case Update(p, core) => UpdateKeepsInv(s, p, core);
      case Leave(p) =>
    }
  }

  lemma {:induction false} RunKeepsInv(run: seq<Action>)
    ensures Inv(Exec(run))
  {
    if run != [] {
      RunKeepsInv(run[..|run| - 1]);
      NextKeepsInv(Exec(run[..|run| - 1]), run[|run| - 1]);
    }
  }

  // ---------------------------------------------------------------- the theorems

  /** In every run the manifest ids are consecutive, both epochs never decrease along the ids, live
      clients of one kind have distinct epochs, and no live client can reach the panic that guards
      against a stored epoch below its own. */
  lemma FencingInvariant(run: seq<Action>)
    ensures Consecutive(Exec(run).files) && EpochsOrdered(Exec(run).files)
    ensures forall p, q :: p in Exec(run).clients && q in Exec(run).clients && p != q
                           && Rivals(Exec(run).clients[p], Exec(run).clients[q])
                           ==> Exec(run).clients[p].epoch != Exec(run).clients[q].epoch
    ensures forall p :: p in Exec(run).clients && Exec(run).clients[p].Live?
                        ==> CheckEpoch(Exec(run).clients[p]) != Panic
  {
    RunKeepsInv(run);
    var s := Exec(run);
    forall p | p in s.clients && s.clients[p].Live?
      ensures CheckEpoch(s.clients[p]) != Panic
    {
      assert ClientOk(s.files, s.clients[p]);
    }
  }

  /** What a refresh tells a client of either kind, in every run: it takes the latest version, and it is told
      that it is fenced if and only if that version carries a larger epoch of its kind. */
  lemma RefreshExact(run: seq<Action>, p: nat)
    requires Enabled(Exec(run), Refresh(p))
    ensures var s := Exec(run); var n := |s.files|; var c := s.clients[p]; var r := Outcome(s, Refresh(p));
            && n in s.files && c.epoch <= s.files[n].Epoch(c.kind)
            && r.files == s.files && r.client == Live(c.kind, c.epoch, n, s.files[n])
            && (r.status == Fenced <==> c.epoch < s.files[n].Epoch(c.kind))
            && (r.status == Ok <==> c.epoch == s.files[n].Epoch(c.kind))
  {
    hide Exec;
    RunKeepsInv(run);
    EpochWithinLatest(Exec(run), p);
    MaxKeyIsCount(Exec(run).files);
  }

  /** What an update does, in every run: it adds the next version with the client's core exactly if the client
      holds the latest version and that carries its own epoch; it is refused as fenced if the version it
      holds carries a larger one, and as outdated otherwise. */
  lemma UpdateExact(run: seq<Action>, p: nat, core: Core)
    requires Enabled(Exec(run), Update(p, core))
    ensures var s := Exec(run); var n := |s.files|; var c := s.clients[p]; var r := Outcome(s, Update(p, core));
            && n in s.files && c.id in s.files && c.id <= n
            && (r.status == Fenced <==> c.epoch < s.files[c.id].Epoch(c.kind))
            && (r.status == Ok <==> c.id == n && c.epoch == s.files[n].Epoch(c.kind))
            && (r.status == VersionExists <==> c.id < n && c.epoch == s.files[c.id].Epoch(c.kind))
            && (r.status == Ok ==>
                  && r.files == s.files[n + 1 := s.files[n].(core := core)]
                  && r.client == Live(c.kind, c.epoch, n + 1, s.files[n].(core := core)))
            && (r.status != Ok ==> r.files == s.files && r.client == c)
  {
    hide Exec, EpochsOrdered;
    RunKeepsInv(run);
    var s := Exec(run);
    assert ClientOk(s.files, s.clients[p]);
    NextIdFree(s.files, s.clients[p].id);
  }

  lemma NextIdFree(files: Files, id: nat)
    requires Consecutive(files) && id in files
    ensures |files| in files && 1 <= id <= |files|
    ensures id + 1 in files <==> id < |files|
  {}

  /** Fencing succeeds exactly if the client holds the latest version; then the next version has the epoch of
      its kind raised by one and is otherwise the same, and that epoch is the client's. If it fails, only the
      client's own copy has been raised. */
  lemma JoinExact(run: seq<Action>, p: nat, kind: Kind)
    requires Enabled(Exec(run), Join(p, kind))
    ensures var s := Exec(run); var n := |s.files|; var c := s.clients[p]; var r := Outcome(s, Join(p, kind));
            && n in s.files && c.id <= n
            && (r.status == Ok <==> c.id == n) && (r.status == VersionExists <==> c.id < n)
            && (r.status == Ok ==>
                  && r.client.Live? && r.client.kind == kind && r.client.id == n + 1
                  && n + 1 !in s.files && n + 1 in r.files && r.files == s.files[n + 1 := r.files[n + 1]]
                  && r.client.manifest == r.files[n + 1] && r.files[n + 1].core == s.files[n].core
                  && forall k :: r.files[n + 1].Epoch(k) == s.files[n].Epoch(k) + (if k == kind then 1 else 0)
                                 && (k == kind ==> r.client.epoch == r.files[n + 1].Epoch(k)))
            && (r.status != Ok ==>
                  && r.files == s.files && r.client.Loaded? && r.client.id == c.id
                  && r.client.manifest.core == c.manifest.core
                  && forall k :: r.client.manifest.Epoch(k) == c.manifest.Epoch(k) + (if k == kind then 1 else 0))
  {
    hide Exec, EpochsOrdered;
    RunKeepsInv(run);
    var s := Exec(run);
    assert ClientOk(s.files, s.clients[p]);
    NextIdFree(s.files, s.clients[p].id);
    NextIdFree(s.files, |s.files|);
  }

  /** A version, once written, is never overwritten or removed by the rest of the run. */
  lemma {:induction false} NeverOverwritten(run: seq<Action>, rest: seq<Action>, id: nat)
    requires id in Exec(run).files
    ensures id in Exec(run + rest).files && Exec(run + rest).files[id] == Exec(run).files[id]
    decreases |rest|
  {
    hide Next, Inv;
    if rest == [] {
      assert run + rest == run;
    } else {
      var n := |rest| - 1;
      NeverOverwritten(run, rest[..n], id);
      assert (run + rest)[..|run + rest| - 1] == run + rest[..n];
      RunKeepsInv(run + rest[..n]);
      NextKeepsInv(Exec(run + rest[..n]), rest[n]);
    }
  }

  /** A client that writes a version is the newest of its kind: no version already stored carries a
      larger epoch of that kind, and the new version, with the next id, carries exactly the
      client's epoch. */
  lemma OnlyTheNewestWrites(run: seq<Action>, p: nat, core: Core)
    requires Enabled(Exec(run), Update(p, core))
    requires Outcome(Exec(run), Update(p, core)).status == Ok
    ensures var s := Exec(run); var c := s.clients[p]; var n := |s.files| + 1;
            && n !in s.files && |s.files| in s.files
            && Next(s, Update(p, core)).files == s.files[n := s.files[|s.files|].(core := core)]
            && s.files[|s.files|].Epoch(c.kind) == c.epoch
            && forall i :: i in s.files ==> s.files[i].Epoch(c.kind) <= c.epoch
  {
    hide Exec;
    RunKeepsInv(run);
    var s := Exec(run);
    var c := s.clients[p];
    assert ClientOk(s.files, c);
    WriteKeepsFiles(s.files, c, c.manifest.(core := core));
  }

  /** Once a version with a larger epoch of its kind exists, a client never writes again: from then
      on every update it tries, at any later point of the run, leaves the store unchanged. */
  lemma FencedNeverWrites(run: seq<Action>, id: nat, rest: seq<Action>, p: nat, core: Core)
    requires id in Exec(run).files
    requires Enabled(Exec(run + rest), Update(p, core))
    requires var c := Exec(run + rest).clients[p]; Exec(run).files[id].Epoch(c.kind) > c.epoch
    ensures Next(Exec(run + rest), Update(p, core)).files == Exec(run + rest).files
    ensures Outcome(Exec(run + rest), Update(p, core)).status in {Fenced, VersionExists}
  {
    var s := Exec(run + rest);
    NeverOverwritten(run, rest, id);
    RunKeepsInv(run + rest);
    FencingInvariant(run + rest);
    if Outcome(s, Update(p, core)).status == Ok {
      OnlyTheNewestWrites(run + rest, p, core);
      assert false;
    }
  }
}
