/** The writer's in-memory state (slatedb/state/db_state.go), the flush of a frozen WAL
    (slatedb/flush.go) and the replay of stored WALs when a database is opened (slatedb/db.go).

    `Db` is the state as a value; the functions on it specify the methods of class `DbState`.
 */
module WriterState {
  import opened Tables
  import opened Manifests

  datatype ImmWal = ImmWal(id: nat, rows: Table)
  datatype Memtable = Memtable(rows: Table, lastWal: Option<nat>)
  datatype ImmMemtable = ImmMemtable(rows: Table, lastWal: nat)

  const EmptyMemtable := Memtable(map[], None)

  /** The frozen WALs and memtables are newest first, as in the deques that hold them. */
  datatype Db = Db(
    wal: Table,
    immWals: seq<ImmWal>,
    memtable: Memtable,
    immMemtables: seq<ImmMemtable>,
    core: Core)
  {
    function Write(key: bytes, value: Value): Db {
      this.(wal := wal[key := value])
    }

    /** The WAL id is taken, and the next one made current, before the WAL is uploaded. */
    function FreezeWal(): Db {
      if wal == map[] then this
      else this.(wal := map[],
                 immWals := [ImmWal(core.nextWal, wal)] + immWals,
                 core := core.(nextWal := core.nextWal + 1))
    }

    function FreezeMemtable(walId: nat): Db {
      this.(memtable := EmptyMemtable,
            immMemtables := [ImmMemtable(memtable.rows, walId)] + immMemtables)
    }

    /** `full` stands for the comparison of the memtable's size with the configured limit. */
    function MaybeFreezeMemtable(walId: nat, full: Table -> bool): Db {
      if full(memtable.rows) then FreezeMemtable(walId) else this
    }

    function OldestWal(): ImmWal
      requires immWals != []
    {
      immWals[|immWals| - 1]
    }

    function OldestMemtable(): ImmMemtable
      requires immMemtables != []
    {
      immMemtables[|immMemtables| - 1]
    }

    /** After its upload the oldest frozen WAL leaves the queue and enters the memtable. */
    function FlushOldestWal(full: Table -> bool): Db
      requires immWals != []
    {
      var oldest := OldestWal();
      this.(immWals := immWals[..|immWals| - 1],
            memtable := Memtable(memtable.rows + oldest.rows, Some(oldest.id)))
      .MaybeFreezeMemtable(oldest.id, full)
    }

    /** The oldest frozen memtable becomes the newest SST of L0. */
    function MoveToL0(sst: Sst): Db
      requires immMemtables != []
    {
      this.(immMemtables := immMemtables[..|immMemtables| - 1],
            core := core.(l0 := [sst] + core.l0, lastCompactedWal := OldestMemtable().lastWal))
    }

    /** Adopt the compactor's part of a manifest; keep the writer's own part. */
    function Refresh(read: Core): Db {
      this.(core := core.(l0LastCompacted := read.l0LastCompacted,
                          l0 := Cut(core.l0, read.l0LastCompacted),
                          compacted := read.compacted))
    }

    /** One stored WAL: its rows enter the memtable, and the next id moves past it if it is due. */
    function ReplayOne(id: nat, rows: Table, full: Table -> bool): Db {
      var db := this.(memtable := memtable.(rows := memtable.rows + rows)).MaybeFreezeMemtable(id, full);
      if db.core.nextWal == id then db.(core := db.core.(nextWal := id + 1)) else db
    }

    function Replay(ids: seq<nat>, stored: map<nat, Table>, full: Table -> bool): Db
      requires forall i :: 0 <= i < |ids| ==> ids[i] in stored
      decreases |ids|
    {
      if ids == [] then this
      else
        var n := |ids| - 1;
        Replay(ids[..n], stored, full).ReplayOne(ids[n], stored[ids[n]], full)
    }

    /** The id that the closing assertion of the replay compares with the next WAL id. */
    function LastReplayed(ids: seq<nat>): nat {
      if ids == [] then core.lastCompactedWal else ids[|ids| - 1]
    }

    /** The tiers that a Committed read searches, newest first. */
    function CommittedTiers(): seq<Table> {
      [memtable.rows] + MemtableRows(immMemtables) + SstRows(core.l0) + RunRows(core.compacted)
    }

    /** The tiers that an Uncommitted read searches, newest first. */
    function UncommittedTiers(): seq<Table> {
      [wal] + WalRows(immWals) + CommittedTiers()
    }

    function GetCommitted(key: bytes): Answer {
      CheckValue(Search(CommittedTiers(), key))
    }

    function GetUncommitted(key: bytes): Answer {
      CheckValue(Search(UncommittedTiers(), key))
    }
  }

  function NewDb(core: Core): Db {
    Db(map[], [], EmptyMemtable, [], core)
  }

  /** The SSTs in front of the one named, or all of them when it does not occur. */
  function Cut(l0: seq<Sst>, last: Option<nat>): seq<Sst> {
    if l0 == [] || last == Some(l0[0].id) then []
    else [l0[0]] + Cut(l0[1..], last)
  }

  lemma CutStep(l0: seq<Sst>, last: Option<nat>, front: seq<Sst>)
    requires l0 != [] && last != Some(l0[0].id)
    ensures front + Cut(l0, last) == front + [l0[0]] + Cut(l0[1..], last)
  {}

  /** What is left are the SSTs in front of the first one named. */
  lemma {:induction false} CutExact(l0: seq<Sst>, last: Option<nat>)
    ensures var k := |Cut(l0, last)|;
            && k <= |l0| && Cut(l0, last) == l0[..k] && (k < |l0| ==> last == Some(l0[k].id))
            && forall j :: 0 <= j < k ==> last != Some(l0[j].id)
  {
    if l0 != [] && last != Some(l0[0].id) {
      CutExact(l0[1..], last);
      var k := |Cut(l0[1..], last)|;
      assert l0[..k + 1] == [l0[0]] + l0[1..][..k];
      forall j | 0 <= j < k + 1 ensures last != Some(l0[j].id) {
        if j > 0 {
          assert l0[j] == l0[1..][j - 1];
        }
      }
    }
  }

  // ---------------------------------------------------------------- a memtable that is full

  /** The flush of a WAL freezes the memtable, under that WAL's id, if and only if it has become full. */
  lemma FlushFreezes(db: Db, full: Table -> bool)
    requires db.immWals != []
    ensures var n := |db.immWals| - 1; var oldest := db.immWals[n]; var rows := db.memtable.rows + oldest.rows;
            var db' := db.FlushOldestWal(full);
            && db'.immWals == db.immWals[..n] && db'.wal == db.wal && db'.core == db.core
            && if full(rows)
               then db'.memtable == Memtable(map[], None)
                    && db'.immMemtables == [ImmMemtable(rows, oldest.id)] + db.immMemtables
               else db'.memtable == Memtable(rows, Some(oldest.id)) && db'.immMemtables == db.immMemtables
  {}

  /** So does the replay of a WAL; the mutable memtable records no WAL id. */
  lemma ReplayFreezes(db: Db, id: nat, rows: Table, full: Table -> bool)
    ensures var all := db.memtable.rows + rows; var db' := db.ReplayOne(id, rows, full);
            && db'.wal == db.wal && db'.immWals == db.immWals
            && db'.core == db.core.(nextWal := if db.core.nextWal == id then id + 1 else db.core.nextWal)
            && if full(all)
               then db'.memtable == Memtable(map[], None)
                    && db'.immMemtables == [ImmMemtable(all, id)] + db.immMemtables
               else db'.memtable == db.memtable.(rows := all) && db'.immMemtables == db.immMemtables
  {}

  /** After a replay the mutable memtable is not full. */
  lemma {:induction false} ReplayLeavesRoom(db: Db, ids: seq<nat>, stored: map<nat, Table>, full: Table -> bool)
    requires (forall i :: 0 <= i < |ids| ==> ids[i] in stored) && !full(map[]) && !full(db.memtable.rows)
    ensures !full(db.Replay(ids, stored, full).memtable.rows)
  {
    if ids != [] {
      var n := |ids| - 1;
      ReplayFreezes(db.Replay(ids[..n], stored, full), ids[n], stored[ids[n]], full);
    }
  }

  /** The stored ids above `lo` and up to `hi`, in ascending order. */
  function IdsBetween<T>(stored: map<nat, T>, lo: nat, hi: nat): (ids: seq<nat>)
    ensures forall i :: 0 <= i < |ids| ==> ids[i] in stored && lo < ids[i] <= hi
  {
    if hi <= lo then []
    else IdsBetween(stored, lo, hi - 1) + (if hi in stored then [hi] else [])
  }

  // ---------------------------------------------------------------- what a reader sees

  function WalRows(ws: seq<ImmWal>): seq<Table> {
    seq(|ws|, i requires 0 <= i < |ws| => ws[i].rows)
  }

  function MemtableRows(ms: seq<ImmMemtable>): seq<Table> {
    seq(|ms|, i requires 0 <= i < |ms| => ms[i].rows)
  }

  function SstRows(ssts: seq<Sst>): seq<Table> {
    seq(|ssts|, i requires 0 <= i < |ssts| => ssts[i].rows)
  }

  function RunRows(runs: seq<Run>): seq<Table> {
    seq(|runs|, i requires 0 <= i < |runs| => Layers(SstRows(runs[i].ssts)))
  }

  // ---------------------------------------------------------------- the class

  class DbState {
    var wal: Table
    var immWals: seq<ImmWal>
    var memtable: Memtable
    var immMemtables: seq<ImmMemtable>
    var core: Core

    ghost function Value(): Db
      reads this
    {
      Db(wal, immWals, memtable, immMemtables, core)
    }

    constructor (core: Core)
      ensures Value() == NewDb(core)
    {
      wal, immWals, memtable, immMemtables := map[], [], EmptyMemtable, [];
      this.core := core;
    }

    method PutKvToWal(key: bytes, data: bytes)
      modifies this
      ensures Value() == old(Value()).Write(key, Present(data))
    {
      wal := wal[key := Present(data)];
    }

    method DeleteKvFromWal(key: bytes)
      modifies this
      ensures Value() == old(Value()).Write(key, Tombstone)
    {
      wal := wal[key := Tombstone];
    }

    method FreezeWal() returns (id: Option<nat>)
      modifies this
      ensures Value() == old(Value()).FreezeWal()
      ensures id == if old(wal) == map[] then None else Some(old(core.nextWal))
    {
      if wal == map[] {
        return None;
      }
      var immWal := ImmWal(core.nextWal, wal);
      wal := map[];
      immWals := [immWal] + immWals;
      core := core.(nextWal := core.nextWal + 1);
      return Some(immWal.id);
    }

    method FreezeMemtable(walId: nat)
      modifies this
      ensures Value() == old(Value()).FreezeMemtable(walId)
    {
      var frozen := ImmMemtable(memtable.rows, walId);
      memtable := EmptyMemtable;
      immMemtables := [frozen] + immMemtables;
    }

    method MaybeFreezeMemtable(walId: nat, full: Table -> bool)
      modifies this
      ensures Value() == old(Value()).MaybeFreezeMemtable(walId, full)
    {
      if !full(memtable.rows) {
        return;
      }
      FreezeMemtable(walId);
    }

    method MoveImmMemtableToL0(sst: Sst)
      requires immMemtables != []
      modifies this
      ensures Value() == old(Value()).MoveToL0(sst)
    {
      var popped := immMemtables[|immMemtables| - 1];
      immMemtables := immMemtables[..|immMemtables| - 1];
      core := core.(l0 := [sst] + core.l0, lastCompactedWal := popped.lastWal);
    }

    method RefreshDbState(read: Core)
      modifies this
      ensures Value() == old(Value()).Refresh(read)
    {
      var newL0: seq<Sst> := [];
      var i := 0;
      while i < |core.l0| && read.l0LastCompacted != Some(core.l0[i].id)
        invariant 0 <= i <= |core.l0|
        invariant Cut(core.l0, read.l0LastCompacted) == newL0 + Cut(core.l0[i..], read.l0LastCompacted)
        invariant Value() == old(Value())
      {
        CutStep(core.l0[i..], read.l0LastCompacted, newL0);
        assert core.l0[i..][1..] == core.l0[i + 1..];
        newL0 := newL0 + [core.l0[i]];
        i := i + 1;
      }
      core := core.(l0LastCompacted := read.l0LastCompacted, l0 := newL0, compacted := read.compacted);
    }

    /** Pop the oldest frozen WAL and apply it to the memtable. */
    method FlushOldestWal(full: Table -> bool)
      requires immWals != []
      modifies this
      ensures Value() == old(Value()).FlushOldestWal(full)
    {
      var oldest := immWals[|immWals| - 1];
      immWals := immWals[..|immWals| - 1];
      memtable := Memtable(memtable.rows + oldest.rows, Some(oldest.id));
      MaybeFreezeMemtable(oldest.id, full);
    }

    /** replayWAL over the listed WALs; `ok` is the outcome of its closing assertion. */
    method ReplayWal(ids: seq<nat>, stored: map<nat, Table>, full: Table -> bool) returns (ok: bool)
      requires forall i :: 0 <= i < |ids| ==> ids[i] in stored
      modifies this
      ensures Value() == old(Value()).Replay(ids, stored, full)
      ensures ok == (old(Value()).LastReplayed(ids) + 1 == core.nextWal)
    {
      var last := core.lastCompactedWal;
      for i := 0 to |ids|
        invariant Value() == old(Value()).Replay(ids[..i], stored, full)
        invariant last == old(Value()).LastReplayed(ids[..i])
      {
        last := ids[i];
        memtable := memtable.(rows := memtable.rows + stored[ids[i]]);
        MaybeFreezeMemtable(ids[i], full);
        if core.nextWal == ids[i] {
          core := core.(nextWal := ids[i] + 1);
        }
        assert ids[..i + 1][..i] == ids[..i];
      }
      assert ids[..|ids|] == ids;
      ok := last + 1 == core.nextWal;
    }
  }
}
