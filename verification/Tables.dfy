/** Values, tables and the layering of tables: the vocabulary shared by the whole model.

    A table is what a WAL, a memtable or an SST means to a reader: a finite map from key to
    value-or-tombstone. Tiers are searched newest first, so a stack of tiers means the map in
    which a newer layer overrides an older one.
 */
module Tables {

  datatype Option<+T> = None | Some(value: T)

  type byte = x: int | 0 <= x < 256
  type bytes = seq<byte>

  /** A row's payload: a value or the mark of a deleted key. */
  datatype Value = Present(data: bytes) | Tombstone

  type Table = map<bytes, Value>

  /** A key with its value or tombstone: one row of a table, or one write. */
  datatype Entry = Entry(key: bytes, value: Value)

  /** What a reader is told. */
  datatype Answer = Found(data: bytes) | KeyNotFound

  function CheckValue(v: Option<Value>): Answer {
    match v
    case Some(Present(data)) => Found(data)
    case _ => KeyNotFound
  }

  function Lookup(t: Table, key: bytes): Option<Value> {
    if key in t then Some(t[key]) else None
  }

  // ---------------------------------------------------------------- writes

  /** The table left by a sequence of writes. */
  function TableOf(ws: seq<Entry>): Table {
    if ws == [] then map[]
    else TableOf(ws[..|ws| - 1])[ws[|ws| - 1].key := ws[|ws| - 1].value]
  }

  ghost predicate IsLatest(ws: seq<Entry>, i: nat) {
    i < |ws| && forall j :: i < j < |ws| ==> ws[j].key != ws[i].key
  }

  lemma {:induction false} LatestWriteIsHeld(ws: seq<Entry>, i: nat)
    requires IsLatest(ws, i)
    ensures Lookup(TableOf(ws), ws[i].key) == Some(ws[i].value)
  {
    var n := |ws| - 1;
    if i < n {
      assert IsLatest(ws[..n], i) && ws[..n][i] == ws[i];
      LatestWriteIsHeld(ws[..n], i);
      assert ws[n].key != ws[i].key;
    }
  }

  lemma {:induction false} HeldIsLatestWrite(ws: seq<Entry>, key: bytes) returns (i: nat)
    requires key in TableOf(ws)
    ensures IsLatest(ws, i) && ws[i] == Entry(key, TableOf(ws)[key])
  {
    var n := |ws| - 1;
    if ws[n].key == key {
      i := n;
    } else {
      i := HeldIsLatestWrite(ws[..n], key);
      assert ws[..n][i] == ws[i];
      assert forall j :: i < j < n ==> ws[j] == ws[..n][j];
    }
  }

  /** TableOf holds exactly the latest write to each key. */
  lemma TableOfIsLatest(ws: seq<Entry>, key: bytes, value: Value)
    ensures Lookup(TableOf(ws), key) == Some(value)
            <==> exists i: nat :: IsLatest(ws, i) && ws[i] == Entry(key, value)
  {
    if key in TableOf(ws) {
      var i := HeldIsLatestWrite(ws, key);
    }
    forall i: nat | IsLatest(ws, i) && ws[i] == Entry(key, value)
      ensures Lookup(TableOf(ws), key) == Some(value)
    {
      LatestWriteIsHeld(ws, i);
    }
  }

  lemma {:induction false} TableOfConcat(a: seq<Entry>, b: seq<Entry>)
    ensures TableOf(a + b) == TableOf(a) + TableOf(b)
  {
    if b == [] {
      assert a + b == a;
    } else {
      var n := |b| - 1;
      assert (a + b)[..|a + b| - 1] == a + b[..n];
      TableOfConcat(a, b[..n]);
    }
  }

  function Concat<T>(xs: seq<seq<T>>): seq<T> {
    if xs == [] then [] else Concat(xs[..|xs| - 1]) + xs[|xs| - 1]
  }

  lemma {:induction false} ConcatAppend<T>(a: seq<seq<T>>, b: seq<seq<T>>)
    ensures Concat(a + b) == Concat(a) + Concat(b)
  {
    if b == [] {
      assert a + b == a;
    } else {
      var n := |b| - 1;
      assert (a + b)[..|a + b| - 1] == a + b[..n];
      ConcatAppend(a, b[..n]);
    }
  }

  // ---------------------------------------------------------------- persistence

  /** A row as an SST keeps it: writing an SST turns an empty value into a tombstone. */
  function Stored(v: Value): Value {
    if v == Present([]) then Tombstone else v
  }

  function Persist(t: Table): Table {
    map k | k in t :: Stored(t[k])
  }

  function StoredEntry(e: Entry): Entry {
    Entry(e.key, Stored(e.value))
  }

  /** Writes as SSTs keep them. */
  function StoredAll(ws: seq<Entry>): seq<Entry> {
    seq(|ws|, i requires 0 <= i < |ws| => StoredEntry(ws[i]))
  }

  lemma {:induction false} StoredTable(ws: seq<Entry>)
    ensures TableOf(StoredAll(ws)) == Persist(TableOf(ws))
  {
    if ws != [] {
      var n := |ws| - 1;
      assert StoredAll(ws)[..n] == StoredAll(ws[..n]);
      StoredTable(ws[..n]);
    }
  }

  lemma PersistOverlay(a: Table, b: Table)
    ensures Persist(a + b) == Persist(a) + Persist(b)
  {}

  // ---------------------------------------------------------------- layers, newest first

  function Layers(ts: seq<Table>): Table {
    if ts == [] then map[] else Layers(ts[1..]) + ts[0]
  }

  lemma OverlayAssociates(a: Table, b: Table, c: Table)
    ensures a + b + c == a + (b + c)
  {}

  lemma {:induction false} LayersConcat(a: seq<Table>, b: seq<Table>)
    ensures Layers(a + b) == Layers(b) + Layers(a)
  {
    if a == [] {
      assert a + b == b;
    } else {
      var rest := a[1..];
      assert (a + b)[1..] == rest + b && (a + b)[0] == a[0];
      LayersConcat(rest, b);
      OverlayAssociates(Layers(b), Layers(rest), a[0]);
    }
  }

  /** The tier search of a read: the first tier that has the key answers. */
  function Search(ts: seq<Table>, key: bytes): Option<Value> {
    if ts == [] then None
    else if key in ts[0] then Some(ts[0][key])
    else Search(ts[1..], key)
  }

  /** Searching tier by tier reads the layered map. */
  lemma {:induction false} SearchIsLookup(ts: seq<Table>, key: bytes)
    ensures Search(ts, key) == Lookup(Layers(ts), key)
  {
    if ts != [] {
      SearchIsLookup(ts[1..], key);
    }
  }

  lemma {:induction false} SearchConcat(a: seq<Table>, b: seq<Table>, key: bytes)
    ensures Search(a + b, key) == if Search(a, key).Some? then Search(a, key) else Search(b, key)
  {
    if a == [] {
      assert a + b == b;
    } else {
      assert (a + b)[1..] == a[1..] + b;
      SearchConcat(a[1..], b, key);
    }
  }

  // ---------------------------------------------------------------- the largest id in use

  ghost predicate IsMaxKey<T>(m: map<nat, T>, id: nat) {
    id in m && forall j :: j in m ==> j <= id
  }

  lemma {:induction false} MaxKeyExists<T>(m: map<nat, T>)
    requires m != map[]
    ensures exists id: nat :: IsMaxKey(m, id)
    decreases |m|
  {
    var i: nat :| i in m;
    var rest := m - {i};
    assert m.Keys == rest.Keys + {i};
    if rest == map[] {
      assert IsMaxKey(m, i);
    } else {
      MaxKeyExists(rest);
      var k: nat :| IsMaxKey(rest, k);
      assert IsMaxKey(m, if k < i then i else k);
    }
  }

  ghost function MaxKey<T>(m: map<nat, T>): (id: nat)
    requires m != map[]
    ensures IsMaxKey(m, id)
  {
    MaxKeyExists(m);
    var id: nat :| IsMaxKey(m, id); id
  }

  /** The keys in use are 1, 2, ..., n. */
  ghost predicate Consecutive<T>(m: map<nat, T>) {
    forall i :: i in m <==> 1 <= i <= |m|
  }

  lemma MaxKeyIsCount<T>(m: map<nat, T>)
    requires m != map[] && Consecutive(m)
    ensures MaxKey(m) == |m|
  {
    assert |m| in m;
  }
}
