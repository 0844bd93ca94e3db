/** The table behind WALs and memtables (slatedb/table/kvtable.go), and the ways its rows move: into an
    SST and into a memtable (slatedb/flush.go), and back from a stored WAL (slatedb/db.go).

    The skip list is its sorted listing of keys and tagged values.
 */
module KvTables {
  import opened Tables
  import opened Keys
  import opened Rows
  import opened Formats
  import opened Blocks
  import opened Bloom
  import opened SstFormat
  import opened SstBuilders
  import opened SstIterators
  import opened MergeSorts
  import opened Executors

  // ---------------------------------------------------------------- tagged values

  function ToBytes(v: Value): bytes {
    if v.Tombstone? then [1] else [0] + v.data
  }

  function ValueFromBytes(b: bytes): Value
    requires b != []
  {
    if b[0] == 1 then Tombstone else Present(b[1..])
  }

  lemma TagInverse(v: Value)
    ensures ToBytes(v) != [] && ValueFromBytes(ToBytes(v)) == v
    ensures v.Tombstone? ==> ToBytes(v) == [1]
    ensures v.Present? ==> |ToBytes(v)| == 1 + |v.data| && ToBytes(v)[0] == 0 && ToBytes(v)[1..] == v.data
  {}

  // ---------------------------------------------------------------- the listing

  datatype Element = Element(key: bytes, tagged: bytes)

  function EntryOf(x: Element): Entry {
    Entry(x.key, if x.tagged == [] then Tombstone else ValueFromBytes(x.tagged))
  }

  function EntriesOf(skl: seq<Element>): seq<Entry> {
    seq(|skl|, i requires 0 <= i < |skl| => EntryOf(skl[i]))
  }

  /** The sum, over the entries, of the lengths of key and tagged value. */
  function SizeOf(skl: seq<Element>): nat {
    if skl == [] then 0 else |skl[0].key| + |skl[0].tagged| + SizeOf(skl[1..])
  }

  function Find(skl: seq<Element>, key: bytes): Option<Element> {
    if skl == [] then None else if skl[0].key == key then Some(skl[0]) else Find(skl[1..], key)
  }

  /** Set in a skip list: replace the element of the key, or insert one in order. */
  function Set(skl: seq<Element>, x: Element): seq<Element> {
    if skl == [] || Less(x.key, skl[0].key) then [x] + skl
    else if skl[0].key == x.key then [x] + skl[1..]
    else [skl[0]] + Set(skl[1..], x)
  }

  ghost predicate Tagged(skl: seq<Element>) {
    forall i :: 0 <= i < |skl| ==> skl[i].tagged != [] && skl[i].tagged == ToBytes(EntryOf(skl[i]).value)
  }

  lemma EntriesHead(skl: seq<Element>)
    requires skl != []
    ensures EntriesOf(skl) == [EntryOf(skl[0])] + EntriesOf(skl[1..])
  {}

  lemma {:induction false} FindIsLookup(skl: seq<Element>, key: bytes)
    requires Sorted(EntriesOf(skl))
    ensures Lookup(TableOf(EntriesOf(skl)), key)
         == if Find(skl, key).None? then None else Some(EntryOf(Find(skl, key).value).value)
    ensures Find(skl, key).Some? ==> Find(skl, key).value in skl && Find(skl, key).value.key == key
  {
    hide TableOf, Less;
    if skl == [] {
      TableOfNone();
    } else {
      EntriesHead(skl);
      SortedTail(EntriesOf(skl));
      FindIsLookup(skl[1..], key);
    }
  }

  /** Set is insertion into the listing, and replaces the key's share of the size. */
  lemma {:induction false} SetElement(skl: seq<Element>, x: Element)
    requires Sorted(EntriesOf(skl))
    ensures EntriesOf(Set(skl, x)) == Insert(EntriesOf(skl), EntryOf(x))
    ensures var found := Find(skl, x.key);
            SizeOf(Set(skl, x)) + (if found.None? then 0 else |x.key| + |found.value.tagged|)
            == SizeOf(skl) + |x.key| + |x.tagged|
  {
    hide Less, TableOf, Sorted;
    if skl != [] {
      EntriesHead(skl);
      SortedTail(EntriesOf(skl));
      if Less(x.key, skl[0].key) {
        BelowHead(EntriesOf(skl), x.key);
        FindIsLookup(skl, x.key);
      } else if skl[0].key != x.key {
        SetElement(skl[1..], x);
      }
    }
  }

  /** The size of a table: the bytes of its keys and values, and a tag byte for every row. */
  lemma {:induction false} SizeIsBytes(skl: seq<Element>)
    requires Tagged(skl)
    ensures SizeOf(skl) == PayloadLen(EntriesOf(skl)) + |skl|
  {
    hide PayloadLen, ToBytes;
    if skl == [] {
      assert EntriesOf(skl) == [];
      PayloadNone();
    } else {
      EntriesHead(skl);
      SizeIsBytes(skl[1..]);
      PayloadHead(EntriesOf(skl));
      TagLen(EntryOf(skl[0]).value);
      assert EntriesOf(skl)[1..] == EntriesOf(skl[1..]);
    }
  }

  lemma TagLen(v: Value)
    ensures |ToBytes(v)| == 1 + if v.Present? then |v.data| else 0
  {}

  lemma PayloadNone()
    ensures PayloadLen([]) == 0
  {
    assert KeysOf([]) == [] && DataIn([]) == [];
  }

  lemma PayloadHead(es: seq<Entry>)
    requires es != []
    ensures PayloadLen(es)
         == |es[0].key| + (if es[0].value.Present? then |es[0].value.data| else 0) + PayloadLen(es[1..])
  {
    var keys, data := [KeysOf(es)[0]], [DataIn(es)[0]];
    assert KeysOf(es) == keys + KeysOf(es[1..]) && DataIn(es) == data + DataIn(es[1..]);
    ConcatAppend(keys, KeysOf(es[1..]));
    ConcatAppend(data, DataIn(es[1..]));
    assert keys[..0] == [] && data[..0] == [];
  }

  /** Every element has a tag byte, so only the empty listing has size zero. */
  lemma SizeZero(skl: seq<Element>)
    requires Tagged(skl)
    ensures SizeOf(skl) == 0 <==> skl == []
    ensures skl == [] <==> TableOf(EntriesOf(skl)) == map[]
  {
    hide TableOf, SizeOf;
    if skl == [] {
      TableOfNone();
      assert EntriesOf(skl) == [] && SizeOf(skl) == 0 by { SizeStep(skl); }
    } else {
      SizeStep(skl);
      var last := EntriesOf(skl)[|skl| - 1];
      assert IsLatest(EntriesOf(skl), |skl| - 1);
      LatestWriteIsHeld(EntriesOf(skl), |skl| - 1);
    }
  }

  lemma SizeStep(skl: seq<Element>)
    ensures SizeOf(skl) == if skl == [] then 0 else |skl[0].key| + |skl[0].tagged| + SizeOf(skl[1..])
  {}

  lemma {:induction false} SetTagged(skl: seq<Element>, key: bytes, value: Value)
    requires Tagged(skl)
    ensures Tagged(Set(skl, Element(key, ToBytes(value))))
  {
    TagInverse(value);
    if skl != [] && !Less(key, skl[0].key) && skl[0].key != key {
      SetTagged(skl[1..], key, value);
    }
  }

  // ---------------------------------------------------------------- the table

  class KvTable {
    var skl: seq<Element>
    var size: int

    /** The size is the sum over the entries of key and tagged value. */
    ghost predicate Valid()
      reads this
    {
      Sorted(EntriesOf(skl)) && Tagged(skl) && size == SizeOf(skl)
    }

    ghost function Rows(): Table
      reads this
    {
      TableOf(EntriesOf(skl))
    }

    constructor ()
      ensures Valid() && Rows() == map[] && size == 0
    {
      skl, size := [], 0;
      new;
      TableOfNone();
      assert EntriesOf(skl) == [];
    }

    method Get(key: bytes) returns (r: Option<Value>)
      requires Valid()
      ensures r == Lookup(Rows(), key)
    {
      hide TableOf, Less;
      FindIsLookup(skl, key);
      var elem := Find(skl, key);
      if elem.None? {
        return None;
      }
      return Some(ValueFromBytes(elem.value.tagged));
    }

    /** Size */
    method Size() returns (n: int)
      requires Valid()
      ensures n == PayloadLen(Listing(Rows())) + |Listing(Rows())|
    {
      hide TableOf, Less, Listing, PayloadLen, SizeOf;
      SizeIsBytes(skl);
      SortedUnique(EntriesOf(skl), Listing(Rows()));
      return size;
    }

    method ExistingSize(key: bytes) returns (n: nat)
      requires Valid()
      ensures n == if Find(skl, key).None? then 0 else |key| + |Find(skl, key).value.tagged|
    {
      hide TableOf, Less, Sorted;
      FindIsLookup(skl, key);
      var value := Get(key);
      if value.Some? {
        return |key| + |ToBytes(value.value)|;
      }
      return 0;
    }

    method PutValue(key: bytes, value: Value)
      requires Valid()
      modifies this
      ensures Valid() && Rows() == old(Rows())[key := value]
    {
      hide TableOf, Less, Sorted, Tagged, Set, Find, SizeOf;
      var oldSize := ExistingSize(key);
      var valueBytes := ToBytes(value);
      TagInverse(value);
      SetElement(skl, Element(key, valueBytes));
      InsertHolds(EntriesOf(skl), EntryOf(Element(key, valueBytes)));
      SetTagged(skl, key, value);
      skl := Set(skl, Element(key, valueBytes));
      var newSize := |key| + |valueBytes|;
      size := size + (newSize - oldSize);
    }

    method Put(key: bytes, value: bytes)
      requires Valid()
      modifies this
      ensures Valid() && Rows() == old(Rows())[key := Present(value)]
    {
      PutValue(key, Present(value));
    }

    method Delete(key: bytes)
      requires Valid()
      modifies this
      ensures Valid() && Rows() == old(Rows())[key := Tombstone]
    {
      PutValue(key, Tombstone);
    }

    /** The emptiness test of FreezeWAL, which looks at the size. */
    method SizeIsZero() returns (r: bool)
      requires Valid()
      ensures r <==> Rows() == map[]
    {
      hide TableOf, Sorted, SizeOf, Tagged;
      SizeZero(skl);
      return size == 0;
    }

    /** A clone has the rows but a size of zero: it is a valid table exactly when it has no rows. */
    method Clone() returns (c: KvTable)
      requires Valid()
      ensures fresh(c) && c.Rows() == Rows() && (c.Valid() <==> Rows() == map[])
    {
      hide TableOf, Sorted, SizeOf, Tagged;
      SizeZero(skl);
      c := new KvTable();
      c.skl := skl;
    }
  }

  /** A memtable: its table and the last WAL that was applied to it. */
  class MemTable {
    const table: KvTable
    var lastWalId: Option<nat>

    constructor ()
      ensures fresh(table) && table.Valid() && table.Rows() == map[] && lastWalId == None
    {
      table := new KvTable();
      lastWalId := None;
    }
  }

  // ---------------------------------------------------------------- moving rows

  /** The loop that applies rows to a memtable: the rows lie over what the memtable held. */
  method ApplyRows(memtable: KvTable, rows: seq<Entry>)
    requires memtable.Valid()
    modifies memtable
    ensures memtable.Valid() && memtable.Rows() == old(memtable.Rows()) + TableOf(rows)
  {
    hide TableOf, KvTable.Valid, KvTable.Rows;
    TableOfNone();
    for i := 0 to |rows|
      invariant memtable.Valid() && memtable.Rows() == old(memtable.Rows()) + TableOf(rows[..i])
    {
      TableOfSnoc(rows[..i], rows[i]);
      assert rows[..i + 1] == rows[..i] + [rows[i]];
      match rows[i].value {
        case Tombstone => memtable.Delete(rows[i].key);
        case Present(data) => memtable.Put(rows[i].key, data);
      }
    }
    assert rows[..|rows|] == rows;
  }

  /** flushImmWALToMemtable */
  method FlushWalToMemtable(wal: KvTable, walId: nat, memtable: MemTable)
    requires wal.Valid() && memtable.table.Valid() && wal != memtable.table
    modifies memtable, memtable.table
    ensures memtable.table.Valid() && memtable.table.Rows() == old(memtable.table.Rows()) + wal.Rows()
    ensures memtable.lastWalId == Some(walId)
  {
    ApplyRows(memtable.table, EntriesOf(wal.skl));
    memtable.lastWalId := Some(walId);
  }

  /** One WAL of the replay: its stored rows lie over what the memtable held. */
  method ReplayInto(conf: Config, sst: StoredSst, memtable: KvTable, ghost es: seq<Entry>)
    requires Stores(conf, sst, es) && memtable.Valid()
    modifies memtable
    ensures memtable.Valid() && memtable.Rows() == old(memtable.Rows()) + TableOf(es)
  {
    hide Stores, TableOf;
    var rows := ReadAll(conf.formats, sst, conf, es);
    ApplyRows(memtable, rows);
  }

  /** flushImmTable: the SST written holds the rows of the table as an SST keeps them. */
  method FlushImmTable(conf: Config, t: KvTable) returns (r: Decoded<(bytes, Info, Option<Filter>)>)
    requires t.Valid() && forall key :: key in t.Rows() ==> key != []
    ensures var es := Listing(Persist(t.Rows()));
            && (r == Panic <==> FilterFails(conf, es)) && (r.Ok? <==> !FilterFails(conf, es))
            && (r.Ok? ==> Uploads(conf, es, r.value.0, r.value.1, r.value.2))
  {
    hide SstBuilder.Valid, FilterFails, Uploads, TableOf, Less, Sorted, Tagged, Listing, Persist;
    var rows := EntriesOf(t.skl);
    forall i | 0 <= i < |rows| ensures rows[i].key != [] {
      SortedLookup(rows, rows[i].key);
      assert rows[i].key in t.Rows();
    }
    ghost var es := StoredAll(rows);
    StoredSorted(rows);
    StoredTable(rows);
    SortedUnique(es, Listing(Persist(t.Rows())));
    var builder := new SstBuilder(conf);
    for i := 0 to |rows|
      invariant builder.Valid() && fresh(builder) && fresh(builder.blockBuilder)
      invariant builder.conf == conf && builder.entries == es[..i] && builder.drained == 0
    {
      match rows[i].value {
        case Tombstone => builder.AddValue(rows[i].key, []);
        case Present(data) => builder.AddValue(rows[i].key, data);
      }
      assert es[..i + 1] == es[..i] + [es[i]];
    }
    assert es[..|es|] == es;
    r := UploadBuilt(builder);
  }
}
