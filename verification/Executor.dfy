/** The compaction executor (slatedb/compactor.go): merge the sources and write the merged rows into
    SSTs of bounded size.
 */
module Executors {
  import opened Tables
  import opened Keys
  import opened Rows
  import opened Formats
  import opened Blocks
  import opened Bloom
  import opened SstFormat
  import opened SstBuilders
  import opened SstIterators
  import opened SortedRuns
  import opened MergeSorts
  import opened Lsm

  // ---------------------------------------------------------------- rows as they are written

  lemma StoredSorted(es: seq<Entry>)
    requires Sorted(es)
    ensures Sorted(StoredAll(es))
  {
    hide Less;
  }

  // ---------------------------------------------------------------- the division into SSTs

  function Weight(e: Entry): nat {
    |e.key| + if e.value.Present? then |e.value.data| else 0
  }

  function Weights(es: seq<Entry>): nat {
    if es == [] then 0 else Weights(es[..|es| - 1]) + Weight(es[|es| - 1])
  }

  lemma WeightsSnoc(es: seq<Entry>, e: Entry)
    ensures Weights(es + [e]) == Weights(es) + Weight(e)
  {
    assert (es + [e])[..|es|] == es;
  }

  lemma {:induction false} WeightsGrow(a: seq<Entry>, b: seq<Entry>)
    ensures Weights(a) <= Weights(a + b)
  {
    if b == [] {
      assert a + b == a;
    } else {
      var n := |b| - 1;
      assert a + b == a + b[..n] + [b[n]];
      WeightsGrow(a, b[..n]);
      WeightsSnoc(a + b[..n], b[n]);
    }
  }

  ghost function KeysOf(es: seq<Entry>): seq<bytes> {
    seq(|es|, i requires 0 <= i < |es| => es[i].key)
  }

  /** The values, a tombstone's being empty. */
  ghost function DataIn(es: seq<Entry>): seq<bytes> {
    seq(|es|, i requires 0 <= i < |es| => if es[i].value.Present? then es[i].value.data else [])
  }

  /** The bytes of all keys and of all values. */
  ghost function PayloadLen(es: seq<Entry>): nat {
    |Concat(KeysOf(es))| + |Concat(DataIn(es))|
  }

  /** What is counted against the size limit are the bytes of the keys and of the values. */
  lemma {:induction false} WeightsAreBytes(es: seq<Entry>)
    ensures Weights(es) == PayloadLen(es)
  {
    if es != [] {
      var n := |es| - 1;
      WeightsAreBytes(es[..n]);
      assert KeysOf(es)[..n] == KeysOf(es[..n]) && DataIn(es)[..n] == DataIn(es[..n]);
    }
  }

  /** An SST is closed by the row that takes it over the limit. */
  ghost predicate Closed(es: seq<Entry>, max: nat) {
    es != [] && Weights(es[..|es| - 1]) <= max < Weights(es)
  }

  /** Every SST but the last is closed by its last row, and the last is not over the limit before its
      last row. */
  ghost predicate Divided(outputs: seq<seq<Entry>>, max: nat) {
    forall i :: 0 <= i < |outputs| ==>
      && outputs[i] != [] && Weights(outputs[i][..|outputs[i]| - 1]) <= max
      && (i + 1 < |outputs| ==> max < Weights(outputs[i]))
  }

  lemma FirstNotShorter(a: seq<seq<Entry>>, b: seq<seq<Entry>>, max: nat)
    requires Divided(a, max) && Divided(b, max) && Concat(a) == Concat(b) && a != [] && b != []
    ensures |a[0]| >= |b[0]|
  {
    hide Concat;
    ConcatHead(a);
    ConcatHead(b);
    if |a[0]| < |b[0]| {
      var n := |b[0]| - 1;
      assert a[0] == Concat(a)[..|a[0]|] == b[0][..|a[0]|];
      assert b[0][..n] == b[0][..|a[0]|] + b[0][|a[0]|..n];
      WeightsGrow(a[0], b[0][|a[0]|..n]);
      if |a| == 1 {
        assert a[1..] == [];
        ConcatNone();
      }
    }
  }

  /** The rows and the limit determine the division. */
  lemma {:induction false} DivisionUnique(a: seq<seq<Entry>>, b: seq<seq<Entry>>, max: nat)
    requires Divided(a, max) && Divided(b, max) && Concat(a) == Concat(b)
    ensures a == b
  {
    hide Concat;
    ConcatNone();
    if a != [] {
      ConcatHead(a);
    }
    if b != [] {
      ConcatHead(b);
    }
    if a != [] && b != [] {
      FirstNotShorter(a, b, max);
      FirstNotShorter(b, a, max);
      assert a[0] == Concat(a)[..|a[0]|] && b[0] == Concat(b)[..|a[0]|];
      assert Concat(a[1..]) == Concat(a)[|a[0]|..] && Concat(b[1..]) == Concat(b)[|a[0]|..];
      DivisionUnique(a[1..], b[1..], max);
      assert a == [a[0]] + a[1..] && b == [b[0]] + b[1..];
    }
  }

  /** The length of the first SST: up to the row that takes it over the limit, or to the end. */
  ghost function FirstLen(rows: seq<Entry>, n: nat, max: nat): (m: nat)
    requires 1 <= n <= |rows|
    ensures n <= m <= |rows|
    decreases |rows| - n
  {
    if n == |rows| || max < Weights(rows[..n]) then n else FirstLen(rows, n + 1, max)
  }

  lemma {:induction false} FirstLenCloses(rows: seq<Entry>, n: nat, max: nat)
    requires 1 <= n <= |rows| && Weights(rows[..n - 1]) <= max
    ensures var m := FirstLen(rows, n, max);
            Weights(rows[..m - 1]) <= max && (m < |rows| ==> max < Weights(rows[..m]))
    decreases |rows| - n
  {
    hide Weights;
    if n < |rows| && Weights(rows[..n]) <= max {
      FirstLenCloses(rows, n + 1, max);
    }
  }

  /** The division of rows into SSTs. */
  ghost function Division(rows: seq<Entry>, max: nat): seq<seq<Entry>> {
    if rows == [] then [] else var n := FirstLen(rows, 1, max); [rows[..n]] + Division(rows[n..], max)
  }

  lemma DividedCons(p: seq<Entry>, rest: seq<seq<Entry>>, max: nat)
    requires Divided(rest, max) && p != [] && Weights(p[..|p| - 1]) <= max && (rest != [] ==> max < Weights(p))
    ensures Divided([p] + rest, max) && Concat([p] + rest) == p + Concat(rest)
  {
    hide Concat, Weights;
    var all := [p] + rest;
    assert all[0] == p && all[1..] == rest;
    ConcatHead(all);
    forall i | 0 <= i < |all|
      ensures all[i] != [] && Weights(all[i][..|all[i]| - 1]) <= max && (i + 1 < |all| ==> max < Weights(all[i]))
    {
      if i > 0 {
        assert all[i] == rest[i - 1];
      }
    }
  }

  lemma {:induction false} DivisionHolds(rows: seq<Entry>, max: nat)
    ensures Divided(Division(rows, max), max) && Concat(Division(rows, max)) == rows
  {
    hide Concat, Weights, Divided;
    if rows == [] {
      ConcatNone();
      DividedNone(max);
    } else {
      var n := FirstLen(rows, 1, max);
      var rest := Division(rows[n..], max);
      assert rows[..0] == [];
      NoWeight();
      FirstLenCloses(rows, 1, max);
      DivisionHolds(rows[n..], max);
      assert rows[..n][..n - 1] == rows[..n - 1];
      assert n == |rows| ==> rest == [];
      DividedCons(rows[..n], rest, max);
      assert rows == rows[..n] + rows[n..];
    }
  }

  lemma DividedNone(max: nat)
    ensures Divided([], max)
  {}

  /** Closing an SST at the row that takes it over the limit is the first step of the division. */
  lemma DivisionStep(p: seq<Entry>, rest: seq<Entry>, max: nat)
    requires Closed(p, max)
    ensures Division(p + rest, max) == [p] + Division(rest, max)
  {
    hide Concat, Division, Weights;
    var d := [p] + Division(rest, max);
    DivisionHolds(rest, max);
    DivisionHolds(p + rest, max);
    assert d[0] == p && d[1..] == Division(rest, max);
    ConcatHead(d);
    DivisionUnique(d, Division(p + rest, max), max);
  }

  lemma DivisionLast(p: seq<Entry>, max: nat)
    requires Weights(p) <= max
    ensures Division(p, max) == if p == [] then [] else [p]
  {
    hide Concat, Division, Weights;
    DivisionHolds(p, max);
    if p == [] {
      ConcatNone();
      DivisionUnique([], Division(p, max), max);
    } else {
      var front := p[..|p| - 1];
      assert p == front + [p[|p| - 1]];
      WeightsGrow(front, [p[|p| - 1]]);
      ConcatOne(p);
      DivisionUnique([p], Division(p, max), max);
    }
  }

  /** What compacting these tables, newest first, writes. */
  ghost function Outputs(inputs: seq<Table>, max: nat): seq<seq<Entry>> {
    Division(Listing(Persist(Layers(inputs))), max)
  }

  /** The output SSTs: no SST is empty; the keys and values of each are within the limit without its last row,
      and those of each but the last are over it with that row; keys increase across them, and as layers
      they are the inputs. */
  lemma OutputsCompact(inputs: seq<Table>, max: nat)
    ensures var outs := Outputs(inputs, max);
            && (forall i :: 0 <= i < |outs| ==>
                  && outs[i] != [] && PayloadLen(outs[i][..|outs[i]| - 1]) <= max
                  && (i + 1 < |outs| ==> max < PayloadLen(outs[i])))
            && Sorted(Concat(outs)) && TableOf(Concat(outs)) == Persist(Layers(inputs))
            && Compacts(inputs, TablesOf(outs))
  {
    hide Concat, Division, Sorted, TableOf, Layers, Persist, Listing, Weights, PayloadLen;
    var outs := Outputs(inputs, max);
    DivisionHolds(Listing(Persist(Layers(inputs))), max);
    SortedLayers(outs);
    forall i | 0 <= i < |outs|
      ensures outs[i] != [] && PayloadLen(outs[i][..|outs[i]| - 1]) <= max
      ensures i + 1 < |outs| ==> max < PayloadLen(outs[i])
    {
      WeightsAreBytes(outs[i]);
      WeightsAreBytes(outs[i][..|outs[i]| - 1]);
    }
  }

  // ---------------------------------------------------------------- a division as layers

  lemma {:induction false} SortedLayers(lists: seq<seq<Entry>>)
    requires Sorted(Concat(lists))
    ensures Layers(TablesOf(lists)) == TableOf(Concat(lists))
  {
    hide TableOf, Concat, Sorted, Less;
    if lists == [] {
      ConcatNone();
      TableOfNone();
    } else {
      var first, rest := lists[0], lists[1..];
      ConcatHead(lists);
      SortedParts(first, Concat(rest));
      SortedLayers(rest);
      assert TablesOf(lists)[0] == TableOf(first) && TablesOf(lists)[1..] == TablesOf(rest);
      TableOfConcat(first, Concat(rest));
      SortedDisjoint(first, Concat(rest));
    }
  }

  lemma SortedDisjoint(a: seq<Entry>, b: seq<Entry>)
    requires Sorted(a + b)
    ensures TableOf(a).Keys !! TableOf(b).Keys
  {
    hide TableOf, Less;
    SortedParts(a, b);
    forall k | k in TableOf(a) && k in TableOf(b) ensures false {
      SortedLookup(a, k);
      SortedLookup(b, k);
      var i, j :| 0 <= i < |a| && a[i].key == k && 0 <= j < |b| && b[j].key == k;
      assert (a + b)[i] == a[i] && (a + b)[|a| + j] == b[j];
      LessIrreflexive(k);
    }
  }

  // ---------------------------------------------------------------- merging

  ghost predicate UploadOf(conf: Config, t: StoredSst, es: seq<Entry>) {
    exists filter :: Uploads(conf, es, t.file, t.info, filter)
  }

  ghost predicate UploadsAll(conf: Config, ssts: seq<StoredSst>, outputs: seq<seq<Entry>>) {
    |ssts| == |outputs| && forall i :: 0 <= i < |ssts| ==> UploadOf(conf, ssts[i], outputs[i])
  }

  /** Some output has a filter whose builder divides by zero. */
  ghost predicate SomeFilterFails(conf: Config, outs: seq<seq<Entry>>) {
    exists i :: 0 <= i < |outs| && FilterFails(conf, outs[i])
  }

  /** Rows few enough for their bits to be counted in uint32 make no filter fail. */
  lemma NoFilterFails(conf: Config, rows: seq<Entry>, max: nat)
    requires conf.bitsPerKey > 0 && |rows| * conf.bitsPerKey + 7 < UINT32
    ensures !SomeFilterFails(conf, Division(rows, max))
  {
    hide Concat, Division, FilterFails;
    var outs := Division(rows, max);
    DivisionHolds(rows, max);
    forall i | 0 <= i < |outs| ensures !FilterFails(conf, outs[i]) {
      PartLen(outs, i);
      var gap := |rows| - |outs[i]|;
      assert |rows| * conf.bitsPerKey == |outs[i]| * conf.bitsPerKey + gap * conf.bitsPerKey;
      FilterFits(conf, outs[i]);
    }
  }

  lemma PartLen(lists: seq<seq<Entry>>, i: nat)
    requires i < |lists|
    ensures |lists[i]| <= |Concat(lists)|
  {
    hide Concat;
    if lists[i] != [] {
      ConcatPosition(lists, i, |lists[i]| - 1);
    }
  }

  lemma UploadsDoNotFail(conf: Config, ssts: seq<StoredSst>, outs: seq<seq<Entry>>)
    requires UploadsAll(conf, ssts, outs)
    ensures !SomeFilterFails(conf, outs)
  {
    hide InfoOf, FileOf;
    forall i | 0 <= i < |outs| ensures !FilterFails(conf, outs[i]) {
      var filter :| Uploads(conf, outs[i], ssts[i].file, ssts[i].info, filter);
      HashCount(conf, outs[i]);
    }
  }

  /** The SSTs finished so far, the rows of the one being written, and the rows to come. */
  ghost predicate Writing(outs: seq<seq<Entry>>, outputs: seq<seq<Entry>>, cur: seq<Entry>, size: nat, max: nat,
                          rest: Table) {
    && outs == outputs + Division(cur + StoredAll(Listing(rest)), max)
    && Weights(cur) == size <= max && |cur| <= size
  }

  lemma WriteRow(outs: seq<seq<Entry>>, outputs: seq<seq<Entry>>, cur: seq<Entry>, size: nat, max: nat,
                 rest: Table, e: Entry)
    requires Writing(outs, outputs, cur, size, max, rest) && e.key != []
    requires Lookup(rest, e.key) == Some(e.value) && forall k :: k in rest ==> !Less(k, e.key)
    ensures var cur' := cur + [StoredEntry(e)]; var size' := size + Weight(e); var rest' := rest - {e.key};
            if size' > max
            then Writing(outs, outputs + [cur'], [], 0, max, rest') && |outputs| < |outs| && outs[|outputs|] == cur'
            else Writing(outs, outputs, cur', size', max, rest')
  {
    hide Division, Weights, Listing, Less;
    var cur', rest' := cur + [StoredEntry(e)], rest - {e.key};
    var todo := StoredAll(Listing(rest'));
    ListingHead(rest, e);
    assert StoredAll(Listing(rest)) == [StoredEntry(e)] + todo;
    assert cur + StoredAll(Listing(rest)) == cur' + todo;
    WeightsSnoc(cur, StoredEntry(e));
    if size + Weight(e) > max {
      assert cur'[..|cur'| - 1] == cur;
      DivisionStep(cur', todo, max);
      assert [] + todo == todo;
      assert outs == outputs + [cur'] + Division(todo, max);
      assert Weights([]) == 0 by { NoWeight(); }
    }
  }

  lemma NoWeight()
    ensures Weights([]) == 0
  {}

  lemma WritingEnds(outs: seq<seq<Entry>>, outputs: seq<seq<Entry>>, cur: seq<Entry>, size: nat, max: nat)
    requires Writing(outs, outputs, cur, size, max, map[])
    ensures outs == if size > 0 then outputs + [cur] else outputs
  {
    hide Division, Weights;
    assert Listing(map[]) == [] && StoredAll([]) == [] && cur + [] == cur;
    DivisionLast(cur, max);
    if size > 0 && cur == [] {
      NoWeight();
    }
  }

  lemma UploadsSnoc(conf: Config, ssts: seq<StoredSst>, outputs: seq<seq<Entry>>, t: StoredSst, es: seq<Entry>,
                    filter: Option<Filter>)
    requires UploadsAll(conf, ssts, outputs) && Uploads(conf, es, t.file, t.info, filter)
    ensures UploadsAll(conf, ssts + [t], outputs + [es])
  {
    hide Uploads;
    assert UploadOf(conf, t, es);
  }

  /** The loop of executeCompaction: the SSTs written are the division of the merged rows. It panics
      exactly if one of them has a filter that cannot be built. */
  method MergeAndWrite(conf: Config, maxSstSize: nat, streams: seq<seq<Entry>>) returns (r: Decoded<seq<StoredSst>>)
    requires StreamsOk(streams)
    ensures var outs := Outputs(TablesOf(streams), maxSstSize);
            && (r == Panic <==> SomeFilterFails(conf, outs)) && (r.Ok? <==> !SomeFilterFails(conf, outs))
            && (r.Ok? ==> UploadsAll(conf, r.value, outs))
  {
    hide Layers, Less, MergeSort.Valid, Remaining, Writing, SstWriter.Valid, Uploads, UploadsAll, FilterFails, Outputs,
         TablesOf;
    ghost var outs := Outputs(TablesOf(streams), maxSstSize);
    var ssts := [];
    ghost var outputs: seq<seq<Entry>> := [];
    var merge := new MergeSort(streams);
    var writer := new SstWriter(conf);
    var currentSize: nat := 0;
    StartWriting(conf, streams, maxSstSize);
    while true
      invariant merge.Valid() && fresh(merge)
      invariant writer.Valid() && fresh(writer) && fresh(writer.builder) && fresh(writer.builder.blockBuilder)
      invariant writer.builder.conf == conf
      invariant Writing(outs, outputs, writer.builder.entries, currentSize, maxSstSize, merge.Rest())
      invariant UploadsAll(conf, ssts, outputs)
      decreases |merge.Rest()|
    {
      ghost var rest, last, cur := merge.Rest(), merge.lastKey, writer.builder.entries;
      var r' := merge.NextEntry();
      if r'.None? {
        WritingEnds(outs, outputs, cur, currentSize, maxSstSize);
        break;
      }
      var e := r'.value;
      NotEmpty(last, e.key);
      RestShrinks(rest, e.key);
      writer.Add(e);
      WriteRow(outs, outputs, cur, currentSize, maxSstSize, rest, e);
      currentSize := currentSize + |e.key|;
      if e.value.Present? {
        currentSize := currentSize + |e.value.data|;
      }
      if currentSize > maxSstSize {
        currentSize := 0;
        var closed := writer.Close();
        if closed.Panic? {
          return Panic;
        }
        var sst := StoredSst(closed.value.1, closed.value.0);
        UploadsSnoc(conf, ssts, outputs, sst, outs[|outputs|], closed.value.2);
        ssts, outputs := ssts + [sst], outputs + [outs[|outputs|]];
        writer := new SstWriter(conf);
      }
    }
    if currentSize > 0 {
      var closed := writer.Close();
      if closed.Panic? {
        assert outs[|outs| - 1] == outs[|outputs|];
        return Panic;
      }
      var sst := StoredSst(closed.value.1, closed.value.0);
      UploadsSnoc(conf, ssts, outputs, sst, outs[|outputs|], closed.value.2);
      ssts := ssts + [sst];
    }
    UploadsDoNotFail(conf, ssts, outs);
    return Ok(ssts);
  }

  lemma RestShrinks(rest: Table, key: bytes)
    requires key in rest
    ensures |rest - {key}| < |rest|
  {
    assert rest.Keys == (rest - {key}).Keys + {key};
  }

  lemma NotEmpty(last: bytes, key: bytes)
    requires Less(last, key)
    ensures key != []
  {}

  lemma StartWriting(conf: Config, streams: seq<seq<Entry>>, max: nat)
    requires StreamsOk(streams)
    ensures Writing(Outputs(TablesOf(streams), max), [], [], 0, max, Remaining(streams, []))
    ensures UploadsAll(conf, [], [])
  {
    hide Layers, Less, Remaining, Division, Listing, Persist, TablesOf;
    NoEmptyKey(streams);
    var all := Layers(TablesOf(streams));
    StoredListing(all);
    assert [] + StoredAll(Listing(all)) == StoredAll(Listing(all));
    assert [] + Outputs(TablesOf(streams), max) == Outputs(TablesOf(streams), max);
    NoWeight();
  }

  /** Storing the rows of a table in order is listing the stored table. */
  lemma StoredListing(t: Table)
    ensures StoredAll(Listing(t)) == Listing(Persist(t))
  {
    hide TableOf, Sorted, Listing, Persist;
    StoredSorted(Listing(t));
    StoredTable(Listing(t));
    SortedUnique(StoredAll(Listing(t)), Listing(Persist(t)));
  }

  // ---------------------------------------------------------------- the SSTs written can be read

  lemma MetaInFile(conf: Config, es: seq<Entry>, filter: Filter)
    ensures MetaOffset(conf, es, filter) <= |FileOf(conf, es, filter)|
  {
    hide DataPart, FilterPart, IndexPart, InfoPart, BlocksOf, PutU32;
  }

  /** An upload of rows that fit the format is a stored SST, and opening it, if its file is below 2^32
      bytes, finds the info it was stored with. */
  lemma UploadStored(conf: Config, t: StoredSst, es: seq<Entry>)
    requires UploadOf(conf, t, es) && ConfigOk(conf) && Sorted(es) && EntriesFit(es)
    ensures Stores(conf, t, es)
    ensures |t.file| < UINT32 ==> ReadInfo(conf.formats, t.file) == Decoded.Ok(t.info)
  {
    hide IsFilterOf, HashesOf, FileOf, InfoOf, HasFilter, Sorted, EntriesFit, ConfigOk, ReadInfo;
    var filter :| Uploads(conf, es, t.file, t.info, filter);
    assert IsStored(conf, t, es, FilterOr(filter));
    if |t.file| < UINT32 {
      MetaInFile(conf, es, FilterOr(filter));
      ReadInfoBack(conf, es, FilterOr(filter), t.file);
    }
  }

  ghost predicate StoresEach(conf: Config, ssts: seq<StoredSst>, lists: seq<seq<Entry>>) {
    |ssts| == |lists| && forall i :: 0 <= i < |ssts| ==> Stores(conf, ssts[i], lists[i])
  }

  ghost predicate StoresRuns(conf: Config, runs: seq<seq<StoredSst>>, lists: seq<seq<seq<Entry>>>) {
    |runs| == |lists| && forall i :: 0 <= i < |runs| ==> StoresRun(conf, runs[i], lists[i])
  }

  ghost predicate AllFit(streams: seq<seq<Entry>>) {
    forall i :: 0 <= i < |streams| ==> EntriesFit(streams[i])
  }

  ghost predicate TableFits(t: Table) {
    forall k :: k in t ==> EntryFits(Entry(k, t[k]))
  }

  ghost predicate TablesFit(ts: seq<Table>) {
    forall i :: 0 <= i < |ts| ==> TableFits(ts[i])
  }

  lemma StreamsFit(streams: seq<seq<Entry>>)
    requires AllFit(streams)
    ensures TablesFit(TablesOf(streams))
  {
    hide TableOf, EntryFits;
    forall i | 0 <= i < |streams| ensures TableFits(TableOf(streams[i])) {
      forall k | k in TableOf(streams[i]) ensures EntryFits(Entry(k, TableOf(streams[i])[k])) {
        var n := HeldIsLatestWrite(streams[i], k);
      }
    }
  }

  lemma {:induction false} LayersFit(ts: seq<Table>)
    requires TablesFit(ts)
    ensures TableFits(Layers(ts))
  {
    hide EntryFits;
    if ts != [] {
      LayersFit(ts[1..]);
    }
  }

  lemma PersistFits(t: Table)
    requires TableFits(t)
    ensures TableFits(Persist(t))
  {
    forall k | k in t ensures EntryFits(Entry(k, Persist(t)[k])) {
      assert EntryFits(Entry(k, t[k]));
    }
  }

  lemma ListingFits(t: Table)
    requires TableFits(t)
    ensures EntriesFit(Listing(t))
  {
    hide TableOf, Less, EntryFits, Listing;
    var es := Listing(t);
    forall i | 0 <= i < |es| ensures EntryFits(es[i]) {
      SortedLookup(es, es[i].key);
    }
  }

  /** The files of the outputs form a sorted run, if the rows compacted fit the format. */
  lemma WrittenRun(conf: Config, ssts: seq<StoredSst>, inputs: seq<Table>, max: nat)
    requires UploadsAll(conf, ssts, Outputs(inputs, max))
    requires ConfigOk(conf) && TablesFit(inputs)
    ensures StoresRun(conf, ssts, Outputs(inputs, max))
  {
    hide UploadOf, Concat, Stores, ConfigOk, EntryFits, Weights, Division, Listing, Layers, Persist, TableFits, TableOf;
    var outputs := Outputs(inputs, max);
    OutputsCompact(inputs, max);
    LayersFit(inputs);
    PersistFits(Layers(inputs));
    ListingFits(Persist(Layers(inputs)));
    DivisionHolds(Listing(Persist(Layers(inputs))), max);
    forall i | 0 <= i < |outputs| ensures Stores(conf, ssts[i], outputs[i]) {
      PartSorted(outputs, i);
      ConcatMembers(outputs, i);
      UploadStored(conf, ssts[i], outputs[i]);
    }
  }

  lemma PartSorted(lists: seq<seq<Entry>>, i: nat)
    requires i < |lists| && Sorted(Concat(lists))
    ensures Sorted(lists[i])
  {
    hide Concat;
    var es: seq<Entry> := lists[i];
    forall a, b | 0 <= a < b < |es| ensures Less(es[a].key, es[b].key) {
      ConcatPosition(lists, i, a);
      ConcatPosition(lists, i, b);
    }
  }

  // ---------------------------------------------------------------- a whole job

  method ReadRun(formats: Formats, run: seq<StoredSst>, ghost conf: Config, ghost lists: seq<seq<Entry>>)
    returns (out: seq<Entry>)
    requires StoresRun(conf, run, lists) && formats == conf.formats
    ensures out == Concat(lists)
  {
    hide Stores, Concat, Sorted, SortedRunIterator.Valid, SortedRunIterator.Rest;
    var it := new SortedRunIterator(formats, run, None, conf, lists);
    out := [];
    while true
      invariant it.Valid() && fresh(it) && (it.currentIter != null ==> fresh(it.currentIter))
      invariant it.currentIter != null && it.currentIter.blockIter != null ==> fresh(it.currentIter.blockIter)
      invariant out + it.Rest() == Concat(lists)
      decreases |it.Rest()|
    {
      var r := it.NextEntry();
      if r.None? {
        break;
      }
      out := out + [r.value];
    }
  }

  ghost function RunStreams(lists: seq<seq<seq<Entry>>>): seq<seq<Entry>> {
    seq(|lists|, i requires 0 <= i < |lists| => Concat(lists[i]))
  }

  /** The tables of runs, each the layers of its SSTs. */
  ghost function RunTables(lists: seq<seq<seq<Entry>>>): seq<Table> {
    seq(|lists|, i requires 0 <= i < |lists| => Layers(TablesOf(lists[i])))
  }

  lemma RunStreamTables(conf: Config, runs: seq<seq<StoredSst>>, lists: seq<seq<seq<Entry>>>)
    requires StoresRuns(conf, runs, lists)
    ensures TablesOf(RunStreams(lists)) == RunTables(lists)
  {
    hide Stores, Concat, Sorted, TableOf, Layers;
    forall i | 0 <= i < |lists| ensures TableOf(Concat(lists[i])) == Layers(TablesOf(lists[i])) {
      assert StoresRun(conf, runs[i], lists[i]);
      SortedLayers(lists[i]);
    }
  }

  lemma SstStreamOk(conf: Config, t: StoredSst, es: seq<Entry>)
    requires Stores(conf, t, es)
    ensures StreamOk(es) && EntriesFit(es)
  {
    hide FileOf, InfoOf, IsFilterOf, HashesOf;
    StoresSorted(conf, t, es);
  }

  lemma RunStreamOk(conf: Config, run: seq<StoredSst>, lists: seq<seq<Entry>>)
    requires StoresRun(conf, run, lists)
    ensures StreamOk(Concat(lists)) && EntriesFit(Concat(lists))
  {
    hide Stores, Concat, Sorted, EntryFits;
    var es := Concat(lists);
    forall k | 0 <= k < |es| ensures es[k].key != [] && EntryFits(es[k]) {
      var i, a := ConcatFind(lists, k);
      SstStreamOk(conf, run[i], lists[i]);
    }
  }

  lemma {:induction false} ConcatFind(lists: seq<seq<Entry>>, k: nat) returns (i: nat, a: nat)
    requires k < |Concat(lists)|
    ensures i < |lists| && a < |lists[i]| && Concat(lists)[k] == lists[i][a]
  {
    var n := |lists| - 1;
    if k < |Concat(lists[..n])| {
      i, a := ConcatFind(lists[..n], k);
    } else {
      i, a := n, k - |Concat(lists[..n])|;
    }
  }

  /** loadIterators: what the iterators of the sources yield. A job with no sources, or with both SSTs
      and runs, panics: the first on its assertion, the second on the iterators it never sets. */
  method LoadIterators(conf: Config, ssts: seq<StoredSst>, runs: seq<seq<StoredSst>>,
                       ghost sstLists: seq<seq<Entry>>, ghost runLists: seq<seq<seq<Entry>>>)
    returns (r: Decoded<seq<seq<Entry>>>)
    requires StoresEach(conf, ssts, sstLists) && StoresRuns(conf, runs, runLists)
    ensures r == if (ssts == []) == (runs == []) then Panic else Ok(sstLists + RunStreams(runLists))
  {
    hide Stores, Concat, Sorted;
    if ssts == [] && runs == [] {
      return Panic;
    }
    var l0Iters, srIters := [], [];
    for i := 0 to |ssts|
      invariant l0Iters == sstLists[..i]
    {
      var es := ReadAll(conf.formats, ssts[i], conf, sstLists[i]);
      l0Iters := l0Iters + [es];
    }
    for i := 0 to |runs|
      invariant |srIters| == i && forall j :: 0 <= j < i ==> srIters[j] == Concat(runLists[j])
    {
      var es := ReadRun(conf.formats, runs[i], conf, runLists[i]);
      srIters := srIters + [es];
    }
    if runs == [] {
      assert RunStreams(runLists) == [] && sstLists + [] == sstLists;
      return Ok(l0Iters);
    } else if ssts == [] {
      assert srIters == RunStreams(runLists) && [] + srIters == srIters;
      return Ok(srIters);
    }
    return Panic;
  }

  lemma SourceStreams(conf: Config, ssts: seq<StoredSst>, runs: seq<seq<StoredSst>>,
                      sstLists: seq<seq<Entry>>, runLists: seq<seq<seq<Entry>>>)
    requires StoresEach(conf, ssts, sstLists) && StoresRuns(conf, runs, runLists)
    ensures StreamsOk(sstLists + RunStreams(runLists)) && AllFit(sstLists + RunStreams(runLists))
    ensures TablesOf(sstLists + RunStreams(runLists)) == TablesOf(sstLists) + RunTables(runLists)
  {
    hide Stores, StoresRun, Concat, StreamOk, EntriesFit, TableOf, Layers;
    var streams := sstLists + RunStreams(runLists);
    forall i | 0 <= i < |streams| ensures StreamOk(streams[i]) && EntriesFit(streams[i]) {
      if i < |ssts| {
        SstStreamOk(conf, ssts[i], sstLists[i]);
      } else {
        var j := i - |ssts|;
        RunStreamOk(conf, runs[j], runLists[j]);
      }
    }
    RunStreamTables(conf, runs, runLists);
  }

  /** executeCompaction: the SSTs written are the outputs of the sources' tables, newest first, and form
      a sorted run that reads back. It panics exactly for a job
      that loadIterators refuses and for an output whose filter cannot be built. */
  method ExecuteCompaction(conf: Config, maxSstSize: nat, ssts: seq<StoredSst>, runs: seq<seq<StoredSst>>,
                           ghost sstLists: seq<seq<Entry>>, ghost runLists: seq<seq<seq<Entry>>>)
    returns (r: Decoded<seq<StoredSst>>)
    requires StoresEach(conf, ssts, sstLists) && StoresRuns(conf, runs, runLists)
    ensures var outs := Outputs(TablesOf(sstLists) + RunTables(runLists), maxSstSize);
            && (r == Panic <==> (ssts == []) == (runs == []) || SomeFilterFails(conf, outs))
            && (r.Ok? <==> (ssts == []) != (runs == []) && !SomeFilterFails(conf, outs))
            && (r.Ok? ==> UploadsAll(conf, r.value, outs))
            && (r.Ok? && ConfigOk(conf) ==> StoresRun(conf, r.value, outs))
  {
    hide StoresEach, StoresRuns, StoresRun, Concat, TableOf, Layers, UploadsAll, ConfigOk, EntriesFit,
         StreamsOk, AllFit, Outputs, SomeFilterFails, TablesFit;
    var streams := LoadIterators(conf, ssts, runs, sstLists, runLists);
    if streams.Panic? {
      return Panic;
    }
    SourceStreams(conf, ssts, runs, sstLists, runLists);
    r := MergeAndWrite(conf, maxSstSize, streams.value);
    if r.Ok? && ConfigOk(conf) {
      StreamsFit(streams.value);
      WrittenRun(conf, r.value, TablesOf(streams.value), maxSstSize);
    }
  }
}
