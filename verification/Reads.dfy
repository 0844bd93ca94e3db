/** The read path over stored SSTs (slatedb/db.go): a point lookup uses the key range, the Bloom
    filter, the index and the sorted blocks, and answers what the tier search on tables answers.
 */
module Reads {
  import opened Tables
  import opened Keys
  import opened Rows
  import opened Formats
  import opened Blocks
  import opened Bloom
  import opened SstFormat
  import opened SstIterators
  import opened SortedRuns
  import opened Executors
  import opened WriterState
  import M = Manifests
  import opened Lsm
  import opened LsmTheorems
  import opened StoredLsm
  import opened StoredInvariant

  ghost predicate HasKeyIn(es: seq<Entry>, key: bytes) {
    exists i :: 0 <= i < |es| && es[i].key == key
  }

  predicate RangeCoversKey(info: Info, key: bytes) {
    info.firstKey != [] && !Less(key, info.firstKey)
  }

  lemma KeyIsCovered(conf: Config, sst: StoredSst, es: seq<Entry>, key: bytes)
    requires Stores(conf, sst, es) && HasKeyIn(es, key)
    ensures RangeCoversKey(sst.info, key)
  {
    hide Stores, Less;
    StoresSorted(conf, sst, es);
    var i :| 0 <= i < |es| && es[i].key == key;
    if i == 0 {
      LessIrreflexive(key);
    } else {
      LessAsymmetric(es[0].key, key);
    }
  }

  /** The filter of a stored SST answers without panicking, and has every key of the SST. */
  lemma FilterAnswers(conf: Config, sst: StoredSst, es: seq<Entry>, filter: Filter, key: bytes)
    requires IsStored(conf, sst, es, filter) && HasFilter(conf, es)
    ensures filter.data == [] || 8 * |filter.data| % UINT32 > 0
    ensures HasKeyIn(es, key) ==> HasHash(filter, conf.hash(key))
  {
    hide FileOf, InfoOf, Sorted, EntriesFit, HasHash;
    var hashes := HashesOf(conf, es);
    if |hashes| > 0 {
      NoFalseNegatives(filter, hashes, conf.bitsPerKey, conf.numProbes, 0);
    }
    if HasKeyIn(es, key) {
      var i :| 0 <= i < |es| && es[i].key == key;
      NoFalseNegatives(filter, hashes, conf.bitsPerKey, conf.numProbes, i);
    }
  }

  /** What the filter of these entries says about a key; entries without a filter say nothing. */
  ghost predicate FilterPasses(conf: Config, es: seq<Entry>, key: bytes) {
    HasFilter(conf, es) ==>
      exists filter ::
        IsFilterOf(filter, HashesOf(conf, es), conf.bitsPerKey, conf.numProbes) && SaysYes(filter, conf.hash(key))
  }

  ghost predicate SaysYes(filter: Filter, hash: nat) {
    (filter.data == [] || 8 * |filter.data| % UINT32 > 0) && HasHash(filter, hash)
  }

  /** The filter's part in sstMayIncludeKey and srMayIncludeKey. */
  method FilterMayInclude(conf: Config, sst: StoredSst, key: bytes, ghost es: seq<Entry>) returns (r: Decoded<bool>)
    requires Stores(conf, sst, es)
    ensures r == Ok(FilterPasses(conf, es, key)) && (HasKeyIn(es, key) ==> r == Ok(true))
  {
    hide IsFilterOf, FileOf, InfoOf, HasKeyIn, HasHash, HasFilter, ReadFilter, HashesOf, Sorted, EntriesFit, ConfigOk;
    ghost var filter :| IsStored(conf, sst, es, filter);
    ReadFilterBack(conf, es, filter, sst.file);
    var read := ReadFilter(conf.formats, sst.info, sst.file);
    if read.Ok? && read.value.Some? {
      FilterAnswers(conf, sst, es, filter, key);
      OneFilter(conf, es, filter, key);
      r := HasKey(read.value.value, conf.hash(key));
      return;
    }
    return Ok(true);
  }

  lemma OneFilter(conf: Config, es: seq<Entry>, filter: Filter, key: bytes)
    requires HasFilter(conf, es) && IsFilterOf(filter, HashesOf(conf, es), conf.bitsPerKey, conf.numProbes)
    ensures FilterPasses(conf, es, key) <==> SaysYes(filter, conf.hash(key))
  {
    hide IsFilterOf, HashesOf, HasHash;
    if FilterPasses(conf, es, key) {
      var g :| IsFilterOf(g, HashesOf(conf, es), conf.bitsPerKey, conf.numProbes) && SaysYes(g, conf.hash(key));
      FilterUnique(filter, g, HashesOf(conf, es), conf.bitsPerKey, conf.numProbes);
    }
  }

  method SstMayIncludeKey(conf: Config, sst: StoredSst, key: bytes, ghost es: seq<Entry>) returns (r: Decoded<bool>)
    requires Stores(conf, sst, es)
    ensures r == Ok(es != [] && !Less(key, es[0].key) && FilterPasses(conf, es, key))
    ensures HasKeyIn(es, key) ==> r == Ok(true)
  {
    hide Stores, HasKeyIn, FilterPasses, Less;
    StoresSorted(conf, sst, es);
    if HasKeyIn(es, key) {
      KeyIsCovered(conf, sst, es, key);
    }
    if !RangeCoversKey(sst.info, key) {
      return Ok(false);
    }
    r := FilterMayInclude(conf, sst, key, es);
  }

  method SrMayIncludeKey(conf: Config, run: seq<StoredSst>, key: bytes, ghost lists: seq<seq<Entry>>)
    returns (r: Decoded<bool>)
    requires StoresRun(conf, run, lists)
    ensures r == Ok(exists i :: 0 <= i < |lists| && Covering(lists, i, key) && FilterPasses(conf, lists[i], key))
    ensures HasKeyIn(Concat(lists), key) ==> r == Ok(true)
  {
    hide StoresRun, HasKeyIn, Concat, FilterPasses, Covering;
    var sst := SstWithKey(run, key, conf, lists);
    if HasKeyIn(Concat(lists), key) {
      KeyIsInFound(lists, key);
    }
    if sst.None? {
      return Ok(false);
    }
    ghost var i :| 0 <= i < |lists| && Covering(lists, i, key) && sst.value == run[i];
    CoveringOnce(lists, i, key);
    RunShape(conf, run, lists, i);
    r := FilterMayInclude(conf, sst.value, key, lists[i]);
  }

  lemma KeyIsInFound(lists: seq<seq<Entry>>, key: bytes)
    requires HasKeyIn(Concat(lists), key)
    ensures exists j, k :: 0 <= j < |lists| && 0 <= k < |lists[j]| && lists[j][k].key == key && HasKeyIn(lists[j], key)
  {
    hide Concat;
    var n :| 0 <= n < |Concat(lists)| && Concat(lists)[n].key == key;
    var i, a := ConcatFind(lists, n);
    assert lists[i][a].key == key;
  }

  lemma CoveringOnce(lists: seq<seq<Entry>>, i: nat, key: bytes)
    requires Covering(lists, i, key)
    ensures forall j :: 0 <= j < |lists| && Covering(lists, j, key) ==> j == i
  {}

  // ---------------------------------------------------------------- one SST, one run

  /** The first entry at or above a key is the key's entry, if there is one. */
  lemma {:induction false} FromHead(es: seq<Entry>, key: bytes)
    requires Sorted(es)
    ensures var from := From(es, key);
            Lookup(TableOf(es), key) == if from != [] && from[0].key == key then Some(from[0].value) else None
    ensures key in TableOf(es) <==> HasKeyIn(es, key)
  {
    hide TableOf, Less;
    SortedLookup(es, key);
    if es != [] {
      SortedTail(es);
      if Less(es[0].key, key) {
        FromHead(es[1..], key);
        LessIrreflexive(key);
      } else if es[0].key != key {
        LessTotal(es[0].key, key);
        BelowHead(es, key);
      }
    }
  }

  /** The lookup of a read in an SST of L0. */
  method GetFromSst(conf: Config, sst: StoredSst, key: bytes, ghost es: seq<Entry>) returns (r: Option<Value>)
    requires Stores(conf, sst, es)
    ensures r == Lookup(TableOf(es), key)
  {
    hide Stores, HasKeyIn, TableOf, From, SstIterator.Valid, SstIterator.Rest, RangeCoversKey, Less;
    StoresSorted(conf, sst, es);
    FromHead(es, key);
    var may := SstMayIncludeKey(conf, sst, key, es);
    if may.value {
      var it := OpenSst(conf.formats, sst, Some(key), conf, es);
      var kv := it.NextEntry();
      if kv.Some? && kv.value.key == key {
        return Some(kv.value.value);
      }
    }
    return None;
  }

  /** The lookup of a read in a sorted run. */
  method GetFromRun(conf: Config, run: seq<StoredSst>, key: bytes, ghost lists: seq<seq<Entry>>)
    returns (r: Option<Value>)
    requires StoresRun(conf, run, lists)
    ensures r == Lookup(Layers(TablesOf(lists)), key)
  {
    hide Stores, Concat, Sorted, HasKeyIn, TableOf, Layers, From, SortedRunIterator.Valid, SortedRunIterator.Rest;
    SortedLayers(lists);
    FromHead(Concat(lists), key);
    var may := SrMayIncludeKey(conf, run, key, lists);
    if may.value {
      var it := RunIteratorFromKey(conf.formats, run, key, conf, lists);
      var kv := it.NextEntry();
      if kv.Some? && kv.value.key == key {
        return Some(kv.value.value);
      }
    }
    return None;
  }

  // ---------------------------------------------------------------- the tiers

  method SearchMemory(tables: seq<Table>, key: bytes) returns (r: Option<Value>)
    ensures r == Search(tables, key)
  {
    for i := 0 to |tables|
      invariant Search(tables, key) == Search(tables[i..], key)
    {
      SearchAt(tables, key, i);
      if key in tables[i] {
        return Some(tables[i][key]);
      }
    }
    return None;
  }

  lemma SearchAt(tables: seq<Table>, key: bytes, i: nat)
    requires i < |tables|
    ensures Search(tables[i..], key) == if key in tables[i] then Some(tables[i][key]) else Search(tables[i + 1..], key)
  {
    assert tables[i..][0] == tables[i] && tables[i..][1..] == tables[i + 1..];
  }

  method SearchL0(conf: Config, l0: seq<StoredSst>, key: bytes, ghost lists: seq<seq<Entry>>)
    returns (r: Option<Value>)
    requires StoresEach(conf, l0, lists)
    ensures r == Search(TablesOf(lists), key)
  {
    hide Stores, TableOf;
    for i := 0 to |l0|
      invariant Search(TablesOf(lists), key) == Search(TablesOf(lists)[i..], key)
    {
      SearchAt(TablesOf(lists), key, i);
      r := GetFromSst(conf, l0[i], key, lists[i]);
      if r.Some? {
        return;
      }
    }
    return None;
  }

  method SearchRuns(conf: Config, runs: seq<seq<StoredSst>>, key: bytes, ghost lists: seq<seq<seq<Entry>>>)
    returns (r: Option<Value>)
    requires StoresRuns(conf, runs, lists)
    ensures r == Search(RunTables(lists), key)
  {
    hide StoresRun, TablesOf, Layers;
    for i := 0 to |runs|
      invariant Search(RunTables(lists), key) == Search(RunTables(lists)[i..], key)
    {
      SearchAt(RunTables(lists), key, i);
      r := GetFromRun(conf, runs[i], key, lists[i]);
      if r.Some? {
        return;
      }
    }
    return None;
  }

  /** Stored SSTs and runs that hold the rows of the snapshot's L0 and sorted runs. */
  ghost predicate Represents(conf: Config, db: Db, l0: seq<StoredSst>, runs: seq<seq<StoredSst>>,
                             l0Lists: seq<seq<Entry>>, runLists: seq<seq<seq<Entry>>>) {
    && StoresEach(conf, l0, l0Lists) && SstRows(db.core.l0) == TablesOf(l0Lists)
    && StoresRuns(conf, runs, runLists) && RunRows(db.core.compacted) == RunTables(runLists)
  }

  /** GetWithOptions: reading stored SSTs answers what the tier search on tables answers. */
  method GetWithOptions(conf: Config, db: Db, l0: seq<StoredSst>, runs: seq<seq<StoredSst>>,
                        key: bytes, uncommitted: bool,
                        ghost l0Lists: seq<seq<Entry>>, ghost runLists: seq<seq<seq<Entry>>>)
    returns (r: Answer)
    requires Represents(conf, db, l0, runs, l0Lists, runLists)
    ensures r == if uncommitted then db.GetUncommitted(key) else db.GetCommitted(key)
  {
    hide StoresEach, StoresRuns, Search, SstRows, RunRows, TablesOf, RunTables, WalRows, MemtableRows;
    var val;
    SearchTiers(db, key);
    if uncommitted {
      val := SearchMemory([db.wal] + WalRows(db.immWals), key);
      if val.Some? {
        return CheckValue(val);
      }
    }
    val := SearchMemory([db.memtable.rows] + MemtableRows(db.immMemtables), key);
    if val.Some? {
      return CheckValue(val);
    }
    val := SearchL0(conf, l0, key, l0Lists);
    if val.Some? {
      return CheckValue(val);
    }
    val := SearchRuns(conf, runs, key, runLists);
    return CheckValue(val);
  }

  lemma SearchTiers(db: Db, key: bytes)
    ensures var memory := Search([db.memtable.rows] + MemtableRows(db.immMemtables), key);
            var l0 := Search(SstRows(db.core.l0), key);
            Search(db.CommittedTiers(), key)
            == if memory.Some? then memory else if l0.Some? then l0 else Search(RunRows(db.core.compacted), key)
    ensures var wal := Search([db.wal] + WalRows(db.immWals), key);
            Search(db.UncommittedTiers(), key) == if wal.Some? then wal else Search(db.CommittedTiers(), key)
  {
    hide Search, SstRows, RunRows, WalRows, MemtableRows;
    var memory := [db.memtable.rows] + MemtableRows(db.immMemtables);
    SearchConcat(memory, SstRows(db.core.l0), key);
    SearchConcat(memory + SstRows(db.core.l0), RunRows(db.core.compacted), key);
    SearchConcat([db.wal] + WalRows(db.immWals), db.CommittedTiers(), key);
  }

  // ---------------------------------------------------------------- reads in a run

  function RunFiles(files: Files, runs: seq<M.Run>): seq<seq<StoredSst>>
    requires forall i, j :: 0 <= i < |runs| && 0 <= j < |runs[i].ssts| ==> runs[i].ssts[j].id in files
  {
    seq(|runs|, i requires 0 <= i < |runs| => FilesOf(files, runs[i].ssts))
  }

  ghost function RunLists(runs: seq<M.Run>): seq<seq<seq<Entry>>> {
    seq(|runs|, i requires 0 <= i < |runs| => Lists(runs[i].ssts))
  }

  lemma FilesFound(conf: Config, files: Files, core: M.Core)
    requires CoreStored(conf, files, core)
    ensures forall i :: 0 <= i < |core.l0| ==> core.l0[i].id in files
    ensures forall i, j :: 0 <= i < |core.compacted| && 0 <= j < |core.compacted[i].ssts| ==>
              core.compacted[i].ssts[j].id in files
  {
    hide Stores, Listing, Lists, Concat, Sorted;
    forall i | 0 <= i < |core.l0| ensures core.l0[i].id in files {
      assert SstStored(conf, files, core.l0[i]);
    }
    forall i, j | 0 <= i < |core.compacted| && 0 <= j < |core.compacted[i].ssts|
      ensures core.compacted[i].ssts[j].id in files
    {
      assert RunStored(conf, files, core.compacted[i]);
      assert SstStored(conf, files, core.compacted[i].ssts[j]);
    }
  }

  lemma RunRepresents(conf: Config, files: Files, run: M.Run)
    requires RunStored(conf, files, run) && forall i :: 0 <= i < |run.ssts| ==> run.ssts[i].id in files
    ensures StoresRun(conf, FilesOf(files, run.ssts), Lists(run.ssts))
    ensures TablesOf(Lists(run.ssts)) == SstRows(run.ssts)
  {
    hide Stores, Concat, Sorted, TableOf, Listing;
    TableOfNone();
    forall i | 0 <= i < |run.ssts| ensures Listing(run.ssts[i].rows) != [] {
      assert TableOf(Listing(run.ssts[i].rows)) == run.ssts[i].rows;
    }
  }

  /** The files of a stored core, found by id, represent it. */
  lemma CoreRepresents(conf: Config, files: Files, db: Db)
    requires CoreStored(conf, files, db.core)
    requires forall i :: 0 <= i < |db.core.l0| ==> db.core.l0[i].id in files
    requires forall i, j :: 0 <= i < |db.core.compacted| && 0 <= j < |db.core.compacted[i].ssts| ==>
               db.core.compacted[i].ssts[j].id in files
    ensures Represents(conf, db, FilesOf(files, db.core.l0), RunFiles(files, db.core.compacted),
                       Lists(db.core.l0), RunLists(db.core.compacted))
  {
    hide Stores, StoresRun, TableOf, Layers, Listing, RunStored;
    var core := db.core;
    forall i | 0 <= i < |core.l0| ensures Stores(conf, files[core.l0[i].id], Listing(core.l0[i].rows)) {
      assert SstStored(conf, files, core.l0[i]);
    }
    forall i | 0 <= i < |core.compacted|
      ensures StoresRun(conf, FilesOf(files, core.compacted[i].ssts), Lists(core.compacted[i].ssts))
      ensures TablesOf(Lists(core.compacted[i].ssts)) == SstRows(core.compacted[i].ssts)
    {
      RunRepresents(conf, files, core.compacted[i]);
    }
    assert TablesOf(Lists(core.l0)) == SstRows(core.l0);
    assert RunTables(RunLists(core.compacted)) == RunRows(core.compacted);
  }

  /** A read in any run of the database with its files, whose durable writes fit the row format: the tables
      in memory and the bytes, filters and indexes of the files found by id together answer with the
      latest write, as it is kept; it is that write exactly if that is no empty value from an SST. */
  method GetInRun(conf: Config, ghost max: nat, ghost run: seq<StoredAction>, db: Db, files: Files,
                  key: bytes, uncommitted: bool)
    returns (r: Answer)
    requires ConfigOk(conf) && EntriesFit(StoredExec(conf, max, run).st.history.DurableWrites())
    requires var s := StoredExec(conf, max, run);
             s.st.sys.writer.Some? && s.st.sys.writer.value.db == db && s.disk.ssts == files
    ensures var h := StoredExec(conf, max, run).st.history; var k := InSsts(db, h);
            && k <= |h.flushed|
            && var n := |Concat(h.flushed[..k])|; var ws := if uncommitted then h.Writes() else h.DurableWrites();
            && Answers(r, ws, n, key)
            && (r == LatestAnswer(ws, key) <==> !EmptyInSst(ws, n, key))
  {
    hide Exec, StoredExec, Answers, LatestAnswer, EmptyInSst, Represents, Db.GetCommitted, Db.GetUncommitted, InSsts,
         Concat, CoreStored, FilesOf, RunFiles, EntriesFit, ConfigOk;
    RunsAreStored(conf, max, run);
    RunsOnTables(conf, max, run);
    ReadsSeeLatestWrites(Abstract(conf, max, run), key);
    FilesFound(conf, files, db.core);
    CoreRepresents(conf, files, db);
    r := GetWithOptions(conf, db, FilesOf(files, db.core.l0), RunFiles(files, db.core.compacted), key, uncommitted,
                        Lists(db.core.l0), RunLists(db.core.compacted));
  }
}
