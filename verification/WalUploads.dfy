/** WAL uploads with rival writers: a WAL is uploaded without a condition (slatedb/store/table_store.go), so
    fencing, which guards the manifest, does not guard the WALs. Here is what can go wrong, and when
    it cannot.
 */
module WalUploads {
  import opened Tables

  /** A writer: its epoch and the id of its next WAL. */
  datatype Writer = Writer(epoch: nat, next: nat)

  /** `epoch` is the largest writer epoch; an older writer is fenced. */
  datatype Writers = Writers(epoch: nat, up: map<nat, Writer>, wals: map<nat, Table>)

  datatype Action =
    | Open(p: nat)                  // fence the rivals and replay the stored WALs
    | Upload(p: nat, rows: Table)   // flush the next WAL
    | Crash(p: nat)

  ghost function Next(s: Writers, a: Action): Writers {
    match a
    case Open(p) =>
      Writers(s.epoch + 1, s.up[p := Writer(s.epoch + 1, if s.wals == map[] then 1 else MaxKey(s.wals) + 1)], s.wals)
    case Upload(p, rows) =>
      if p !in s.up then s
      else s.(up := s.up[p := s.up[p].(next := s.up[p].next + 1)], wals := s.wals[s.up[p].next := rows])
    case Crash(p) => s.(up := s.up - {p})
  }

  ghost function Exec(run: seq<Action>): Writers {
    if run == [] then Writers(0, map[], map[]) else Next(Exec(run[..|run| - 1]), run[|run| - 1])
  }

  /** The uploader holds the largest epoch: no rival has opened the database since. */
  ghost predicate NotFenced(s: Writers, a: Action) {
    a.Upload? && a.p in s.up ==> s.up[a.p].epoch == s.epoch
  }

  ghost predicate NoFencedUpload(run: seq<Action>) {
    forall i :: 0 <= i < |run| ==> NotFenced(Exec(run[..i]), run[i])
  }

  ghost predicate Inv(s: Writers) {
    && Consecutive(s.wals)
    && (forall p :: p in s.up ==> s.up[p].epoch <= s.epoch && 1 <= s.up[p].next <= |s.wals| + 1)
    && (forall p, q :: p in s.up && q in s.up && p != q ==> s.up[p].epoch != s.up[q].epoch)
  }

  lemma UploadGrows(wals: map<nat, Table>, id: nat, rows: Table)
    requires Consecutive(wals) && 1 <= id <= |wals| + 1
    ensures id in wals <==> id <= |wals|
    ensures Consecutive(wals[id := rows]) && |wals[id := rows]| == if id <= |wals| then |wals| else |wals| + 1
  {
    if id in wals {
      assert wals[id := rows].Keys == wals.Keys;
    } else {
      assert wals[id := rows].Keys == wals.Keys + {id};
    }
  }

  lemma NextKeepsInv(s: Writers, a: Action)
    requires Inv(s)
    ensures Inv(Next(s, a))
  {
    hide Consecutive;
    if a.Open? && s.wals != map[] {
      MaxKeyIsCount(s.wals);
    } else if a.Upload? && a.p in s.up {
      UploadGrows(s.wals, s.up[a.p].next, a.rows);
    }
  }

  lemma {:induction false} RunKeepsInv(run: seq<Action>)
    ensures Inv(Exec(run))
  {
    hide Next, Inv;
    if run == [] {
      StartInv();
    } else {
      RunKeepsInv(run[..|run| - 1]);
      NextKeepsInv(Exec(run[..|run| - 1]), run[|run| - 1]);
    }
  }

  lemma StartInv()
    ensures Inv(Writers(0, map[], map[]))
  {}

  lemma ExecNext(run: seq<Action>, a: Action)
    ensures Exec(run + [a]) == Next(Exec(run), a)
  {
    assert (run + [a])[..|run|] == run;
  }

  /** The uploads of a process. */
  ghost function Mine(run: seq<Action>, p: nat): nat {
    if run == [] then 0
    else Mine(run[..|run| - 1], p) + if run[|run| - 1].Upload? && run[|run| - 1].p == p then 1 else 0
  }

  /** A stretch in which a process stays up. */
  ghost predicate StaysUp(run: seq<Action>, p: nat) {
    forall i :: 0 <= i < |run| && run[i].p == p ==> run[i].Upload?
  }

  /** A writer's next id: past the WALs it found when it opened, and past its own uploads since. */
  lemma {:induction false} NextId(run: seq<Action>, p: nat, rest: seq<Action>)
    requires StaysUp(rest, p)
    ensures var s := Exec(run + [Open(p)] + rest);
            p in s.up && s.up[p].next == |Exec(run).wals| + 1 + Mine(rest, p)
    decreases |rest|
  {
    hide Exec, Consecutive;
    var start := run + [Open(p)];
    if rest == [] {
      assert start + rest == start;
      ExecNext(run, Open(p));
      RunKeepsInv(run);
      if Exec(run).wals != map[] {
        MaxKeyIsCount(Exec(run).wals);
      }
    } else {
      var n := |rest| - 1;
      NextId(run, p, rest[..n]);
      assert start + rest == start + rest[..n] + [rest[n]];
      ExecNext(start + rest[..n], rest[n]);
    }
  }

  /** Exactly when an upload replaces a stored WAL: more WALs have been added since its writer opened than
      the writer has uploaded itself. */
  lemma ReplacesExact(run: seq<Action>, p: nat, rest: seq<Action>)
    requires StaysUp(rest, p)
    ensures var s := Exec(run + [Open(p)] + rest);
            p in s.up && (s.up[p].next in s.wals <==> Mine(rest, p) < |s.wals| - |Exec(run).wals|)
  {
    hide Exec, Mine, StaysUp;
    NextId(run, p, rest);
    RunKeepsInv(run + [Open(p)] + rest);
  }

  // ---------------------------------------------------------------- what is lost

  /** The action uploads over a stored WAL. */
  ghost predicate Replaces(s: Writers, a: Action) {
    a.Upload? && a.p in s.up && s.up[a.p].next in s.wals
  }

  /** The uploads of writers that are up. */
  ghost function Uploads(run: seq<Action>): nat {
    if run == [] then 0
    else
      var n := |run| - 1;
      Uploads(run[..n]) + if run[n].Upload? && run[n].p in Exec(run[..n]).up then 1 else 0
  }

  /** The uploads that replaced a stored WAL. */
  ghost function Replaced(run: seq<Action>): nat {
    if run == [] then 0
    else
      var n := |run| - 1;
      Replaced(run[..n]) + if Replaces(Exec(run[..n]), run[n]) then 1 else 0
  }

  /** Conservation: every upload is stored or has been replaced. So nothing has been replaced if and only if
      there are as many WALs as uploads. */
  lemma {:induction false} UploadsCount(run: seq<Action>)
    ensures |Exec(run).wals| + Replaced(run) == Uploads(run)
  {
    hide Consecutive;
    if run != [] {
      var n := |run| - 1;
      var s, a := Exec(run[..n]), run[n];
      UploadsCount(run[..n]);
      RunKeepsInv(run[..n]);
      if a.Upload? && a.p in s.up {
        UploadGrows(s.wals, s.up[a.p].next, a.rows);
      }
    }
  }

  // ---------------------------------------------------------------- without fenced uploads

  lemma NoFencedPrefix(run: seq<Action>, rest: seq<Action>)
    requires NoFencedUpload(run + rest)
    ensures NoFencedUpload(run)
    ensures rest != [] ==> NotFenced(Exec(run), rest[0])
  {
    hide NotFenced, Exec;
    forall i | 0 <= i < |run| ensures NotFenced(Exec(run[..i]), run[i]) {
      assert (run + rest)[..i] == run[..i] && (run + rest)[i] == run[i];
    }
    if rest != [] {
      assert (run + rest)[..|run|] == run && (run + rest)[|run|] == rest[0];
    }
  }

  /** Without uploads by fenced writers the newest writer is up to date. */
  lemma {:induction false} NewestIsCurrent(run: seq<Action>, p: nat)
    requires NoFencedUpload(run) && p in Exec(run).up && Exec(run).up[p].epoch == Exec(run).epoch
    ensures Exec(run).up[p].next == |Exec(run).wals| + 1
  {
    hide Consecutive, NoFencedUpload;
    var n := |run| - 1;
    var s, a := Exec(run[..n]), run[n];
    RunKeepsInv(run[..n]);
    assert run == run[..n] + [a];
    NoFencedPrefix(run[..n], [a]);
    if a.Open? {
      if s.wals != map[] {
        MaxKeyIsCount(s.wals);
      }
    } else {
      NewestIsCurrent(run[..n], p);
      if a.Upload? && a.p in s.up {
        UploadGrows(s.wals, s.up[p].next, a.rows);
      }
    }
  }

  lemma StepKeepsWals(run: seq<Action>, a: Action, id: nat)
    requires NoFencedUpload(run + [a]) && id in Exec(run).wals
    ensures id in Exec(run + [a]).wals && Exec(run + [a]).wals[id] == Exec(run).wals[id]
  {
    hide NoFencedUpload, Exec;
    ExecNext(run, a);
    NoFencedPrefix(run, [a]);
    if a.Upload? && a.p in Exec(run).up {
      NewestIsCurrent(run, a.p);
      RunKeepsInv(run);
    }
  }

  /** Without uploads by fenced writers a stored WAL is never replaced. */
  lemma {:induction false} UploadedWalsStay(run: seq<Action>, rest: seq<Action>, id: nat)
    requires NoFencedUpload(run + rest) && id in Exec(run).wals
    ensures id in Exec(run + rest).wals && Exec(run + rest).wals[id] == Exec(run).wals[id]
    decreases |rest|
  {
    hide NoFencedUpload, Exec;
    if rest == [] {
      assert run + rest == run;
    } else {
      var n := |rest| - 1;
      var before, a := run + rest[..n], rest[n];
      assert run + rest == before + [a];
      NoFencedPrefix(before, [a]);
      UploadedWalsStay(run, rest[..n], id);
      StepKeepsWals(before, a, id);
    }
  }

  /** With one, it can be: writer 1 is fenced by writer 2, which uploads WAL 1; then writer 1 uploads its own
      WAL 1 over it. */
  lemma FencedWriterReplacesWal(mine: Table, theirs: Table)
    ensures var run := [Open(1), Open(2), Upload(2, theirs)];
            && 1 in Exec(run).wals && Exec(run).wals[1] == theirs
            && 1 in Exec(run + [Upload(1, mine)]).wals && Exec(run + [Upload(1, mine)]).wals[1] == mine
  {
    var w1, w2 := Writer(1, 1), Writer(2, 1);
    var r1, r2, r3 := [Open(1)], [Open(1), Open(2)], [Open(1), Open(2), Upload(2, theirs)];
    assert r1[..0] == [] && Exec(r1) == Writers(1, map[1 := w1], map[]);
    assert r2[..1] == r1 && Exec(r2) == Writers(2, map[1 := w1, 2 := w2], map[]);
    assert r3[..2] == r2 && Exec(r3) == Writers(2, map[1 := w1, 2 := Writer(2, 2)], map[1 := theirs]);
    assert (r3 + [Upload(1, mine)])[..3] == r3;
  }
}
