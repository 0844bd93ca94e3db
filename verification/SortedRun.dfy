/** Sorted runs (slatedb/compaction/sortedrun.go): the SST of a run that can hold a key, and the
    iterator that starts at a key although it seeks only the first SST.
 */
module SortedRuns {
  import opened Tables
  import opened Keys
  import opened Rows
  import opened Formats
  import opened Blocks
  import opened Bloom
  import opened SstFormat
  import opened SstIterators

  /** A run of stored SSTs with these entries: none is empty, and their key ranges follow one another. */
  ghost predicate StoresRun(conf: Config, run: seq<StoredSst>, lists: seq<seq<Entry>>) {
    && |run| == |lists|
    && (forall i :: 0 <= i < |run| ==> lists[i] != [] && Stores(conf, run[i], lists[i]))
    && Sorted(Concat(lists))
  }

  lemma RunFirstKeys(conf: Config, run: seq<StoredSst>, lists: seq<seq<Entry>>, i: nat)
    requires StoresRun(conf, run, lists) && i < |run|
    ensures run[i].info.firstKey == lists[i][0].key != []
  {
    hide Stores, Concat;
    StoresSorted(conf, run[i], lists[i]);
  }

  lemma RunKeysIncrease(conf: Config, run: seq<StoredSst>, lists: seq<seq<Entry>>, i: nat, j: nat)
    requires StoresRun(conf, run, lists) && i < j < |run|
    ensures Less(run[i].info.firstKey, run[j].info.firstKey)
  {
    hide Stores, Concat;
    RunFirstKeys(conf, run, lists, i);
    RunFirstKeys(conf, run, lists, j);
    BlocksOrdered(lists, i, 0, j, 0);
  }

  /** indexOfSSTWithKey: the last SST whose first key is not above the key. */
  method IndexOfSstWithKey(run: seq<StoredSst>, key: bytes, ghost conf: Config, ghost lists: seq<seq<Entry>>)
    returns (r: Option<nat>)
    requires StoresRun(conf, run, lists)
    ensures r.None? ==> forall i :: 0 <= i < |run| ==> Less(key, lists[i][0].key)
    ensures r.Some? ==>
              && r.value < |run| && !Less(key, lists[r.value][0].key)
              && forall i :: r.value < i < |run| ==> Less(key, lists[i][0].key)
  {
    hide StoresRun, Less;
    var test := (i: nat) => i < |run| && Less(key, run[i].info.firstKey);
    forall i, j | 0 <= i < j < |run| && test(i) ensures test(j) {
      RunKeysIncrease(conf, run, lists, i, j);
      LessTransitive(key, run[i].info.firstKey, run[j].info.firstKey);
    }
    var index := SearchFirst(|run|, test);
    forall i | 0 <= i < |run|
      ensures i < |lists| && lists[i] != [] && run[i].info.firstKey == lists[i][0].key
      ensures i >= index ==> Less(key, run[i].info.firstKey)
      ensures i < index ==> !Less(key, run[i].info.firstKey)
    {
      RunShape(conf, run, lists, i);
      RunFirstKeys(conf, run, lists, i);
      assert i < index ==> !test(i);
      assert index < i ==> test(i);
    }
    if index > 0 {
      return Some(index - 1);
    }
    return None;
  }

  lemma RunShape(conf: Config, run: seq<StoredSst>, lists: seq<seq<Entry>>, i: nat)
    requires StoresRun(conf, run, lists) && i < |run|
    ensures |lists| == |run| && lists[i] != [] && Stores(conf, run[i], lists[i])
    ensures Sorted(Concat(lists))
  {}

  /** Where a key can be in a run: only in the SST that the search finds. */
  lemma OnlyThatSst(lists: seq<seq<Entry>>, found: Option<nat>, key: bytes, j: nat, k: nat)
    requires Sorted(Concat(lists)) && (forall i :: 0 <= i < |lists| ==> lists[i] != [])
    requires found.None? ==> forall i :: 0 <= i < |lists| ==> Less(key, lists[i][0].key)
    requires found.Some? ==>
               && found.value < |lists| && !Less(key, lists[found.value][0].key)
               && forall i :: found.value < i < |lists| ==> Less(key, lists[i][0].key)
    requires j < |lists| && k < |lists[j]| && lists[j][k].key == key
    ensures found == Some(j)
  {
    hide Concat, Sorted;
    if found.Some? && j < found.value {
      BlocksOrdered(lists, j, k, found.value, 0);
      assert false;
    }
    if found.None? || found.value < j {
      ListSorted(lists, j);
      if k > 0 {
        LessTransitive(key, lists[j][0].key, lists[j][k].key);
      }
      LessIrreflexive(key);
    }
  }

  lemma ListSorted(lists: seq<seq<Entry>>, j: nat)
    requires Sorted(Concat(lists)) && j < |lists|
    ensures forall k :: 0 < k < |lists[j]| ==> Less(lists[j][0].key, lists[j][k].key)
  {
    hide Concat;
    var list: seq<Entry> := lists[j];
    forall k | 0 < k < |list| ensures Less(list[0].key, list[k].key) {
      ConcatPosition(lists, j, 0);
      ConcatPosition(lists, j, k);
    }
  }

  /** The SST that the search finds, if any: the last one that does not start above the key. */
  ghost predicate Covering(lists: seq<seq<Entry>>, i: nat, key: bytes) {
    && i < |lists| && lists[i] != [] && !Less(key, lists[i][0].key)
    && forall j :: i < j < |lists| ==> lists[j] != [] && Less(key, lists[j][0].key)
  }

  /** SstWithKey: the SST of the run that can hold the key. If the key occurs in an SST of the run, it
      is this one. */
  method SstWithKey(run: seq<StoredSst>, key: bytes, ghost conf: Config, ghost lists: seq<seq<Entry>>)
    returns (r: Option<StoredSst>)
    requires StoresRun(conf, run, lists)
    ensures |run| == |lists|
    ensures r.None? <==> forall i :: 0 <= i < |lists| ==> !Covering(lists, i, key)
    ensures r.Some? ==> exists i :: 0 <= i < |lists| && Covering(lists, i, key) && r.value == run[i]
    ensures forall j, k :: 0 <= j < |lists| && 0 <= k < |lists[j]| && lists[j][k].key == key ==>
              Covering(lists, j, key) && r == Some(run[j])
  {
    hide StoresRun, Less;
    var index := IndexOfSstWithKey(run, key, conf, lists);
    SearchFindsSst(conf, run, lists, index, key);
    if index.Some? {
      assert Covering(lists, index.value, key);
      return Some(run[index.value]);
    }
    return None;
  }

  lemma SearchFindsSst(conf: Config, run: seq<StoredSst>, lists: seq<seq<Entry>>, found: Option<nat>, key: bytes)
    requires StoresRun(conf, run, lists)
    requires found.None? ==> forall i :: 0 <= i < |run| ==> Less(key, lists[i][0].key)
    requires found.Some? ==>
               && found.value < |run| && !Less(key, lists[found.value][0].key)
               && forall i :: found.value < i < |run| ==> Less(key, lists[i][0].key)
    ensures |run| == |lists| && forall i :: 0 <= i < |lists| ==> lists[i] != []
    ensures forall j, k :: 0 <= j < |lists| && 0 <= k < |lists[j]| && lists[j][k].key == key ==> found == Some(j)
  {
    hide Stores, Concat, Sorted, Less;
    forall j, k | 0 <= j < |lists| && 0 <= k < |lists[j]| && lists[j][k].key == key ensures found == Some(j) {
      OnlyThatSst(lists, found, key, j, k);
    }
  }

  // ---------------------------------------------------------------- the iterator

  /** What a run yields when only its first SST is sought. */
  ghost function RunFrom(lists: seq<seq<Entry>>, key: bytes): seq<Entry> {
    if lists == [] then [] else From(lists[0], key) + Concat(lists[1..])
  }

  /** Seeking only the SST that the search finds yields all entries at or above the key. */
  lemma SeekRun(lists: seq<seq<Entry>>, found: Option<nat>, key: bytes)
    requires Sorted(Concat(lists)) && (forall i :: 0 <= i < |lists| ==> lists[i] != [])
    requires found.None? ==> forall i :: 0 <= i < |lists| ==> Less(key, lists[i][0].key)
    requires found.Some? ==>
               && found.value < |lists| && !Less(key, lists[found.value][0].key)
               && forall i :: found.value < i < |lists| ==> Less(key, lists[i][0].key)
    ensures RunFrom(if found.Some? then lists[found.value..] else lists, key) == From(Concat(lists), key)
  {
    hide Concat, From, TailFrom, Less, Sorted;
    var n := if found.Some? then found.value else 0;
    var rest := lists[n..];
    if lists == [] {
      ConcatNone();
      FromNone(key);
    } else {
      SeekBlocks(lists, n, key);
      TailStep(lists, Some(key));
      forall i | n < i < |lists| ensures !Less(lists[i][0].key, key) {
        LessAsymmetric(key, lists[i][0].key);
      }
      LaterSstsWhole(lists, n + 1, key);
      assert rest[0] == lists[n] && rest[1..] == lists[n + 1..];
    }
  }

  lemma FromNone(key: bytes)
    ensures From([], key) == []
  {}

  lemma {:induction false} LaterSstsWhole(lists: seq<seq<Entry>>, i: nat, key: bytes)
    requires i <= |lists| && Sorted(Concat(lists)) && (forall j :: i <= j < |lists| ==> lists[j] != [])
    requires forall j :: i <= j < |lists| ==> !Less(lists[j][0].key, key)
    ensures TailFrom(lists, i, Some(key)) == Concat(lists[i..])
    decreases |lists| - i
  {
    hide Concat, Sorted;
    if i < |lists| {
      LaterSstsWhole(lists, i + 1, key);
      ListSorted(lists, i);
      forall k | 0 <= k < |lists[i]| ensures !Less(lists[i][k].key, key) {
        if k > 0 && Less(lists[i][k].key, key) {
          LessTransitive(lists[i][0].key, lists[i][k].key, key);
        }
      }
      FromKeeps(lists[i], key);
      assert lists[i..][0] == lists[i] && lists[i..][1..] == lists[i + 1..];
      ConcatHead(lists[i..]);
    } else {
      assert lists[i..] == [];
      ConcatNone();
    }
  }

  class SortedRunIterator {
    const formats: Formats
    var currentIter: SstIterator?
    var sstList: seq<StoredSst>     // the SSTs not yet opened
    ghost const conf: Config
    ghost var lists: seq<seq<Entry>>  // their entries

    ghost predicate Valid()
      reads this, currentIter, if currentIter == null then null else currentIter.blockIter
    {
      && formats == conf.formats
      && |sstList| == |lists| && (forall i :: 0 <= i < |sstList| ==> Stores(conf, sstList[i], lists[i]))
      && (currentIter == null ==> lists == [])
      && (currentIter != null ==> currentIter.Valid())
    }

    ghost function Rest(): seq<Entry>
      reads this, currentIter, if currentIter == null then null else currentIter.blockIter
      requires Valid()
    {
      (if currentIter == null then [] else currentIter.Rest()) + Concat(lists)
    }

    /** Open the first SST, at the key if there is one. */
    constructor (formats: Formats, run: seq<StoredSst>, fromKey: Option<bytes>,
                 ghost conf: Config, ghost lists: seq<seq<Entry>>)
      requires formats == conf.formats && |run| == |lists|
      requires forall i :: 0 <= i < |run| ==> Stores(conf, run[i], lists[i])
      ensures Valid() && (currentIter != null ==> fresh(currentIter) && currentIter.blockIter == null)
      ensures Rest() == if fromKey.None? then Concat(lists) else RunFrom(lists, fromKey.value)
    {
      hide Stores, Concat, From, SstIterator.Valid, SstIterator.Rest;
      this.formats, this.conf := formats, conf;
      if run == [] {
        currentIter, sstList, this.lists := null, [], [];
        ConcatNone();
      } else {
        assert Stores(conf, run[0], lists[0]);
        var it := OpenSst(formats, run[0], fromKey, conf, lists[0]);
        currentIter, sstList, this.lists := it, run[1..], lists[1..];
        ConcatHead(lists);
      }
    }

    method NextEntry() returns (r: Option<Entry>)
      requires Valid()
      modifies this, currentIter, if currentIter == null then null else currentIter.blockIter
      ensures Valid()
      ensures currentIter == old(currentIter) || fresh(currentIter)
      ensures currentIter != null ==>
                currentIter.blockIter == null || fresh(currentIter.blockIter)
                || (old(currentIter) != null && currentIter.blockIter == old(currentIter.blockIter))
      ensures if old(Rest()) == [] then r == None && Rest() == []
              else r == Some(old(Rest())[0]) && Rest() == old(Rest())[1..]
    {
      hide Stores, Concat, SstIterator.Valid, SstIterator.Rest;
      while true
        invariant Valid() && Rest() == old(Rest())
        invariant currentIter == old(currentIter) || fresh(currentIter)
        invariant currentIter != null ==>
                    currentIter.blockIter == null || fresh(currentIter.blockIter)
                    || (old(currentIter) != null && currentIter.blockIter == old(currentIter.blockIter))
        decreases |sstList|
      {
        if currentIter == null {
          ConcatNone();
          return None;
        }
        ghost var now := currentIter.Rest();
        r := currentIter.NextEntry();
        if r.Some? {
          HeadOfBoth(now, Concat(lists));
          return;
        }
        if sstList == [] {
          ConcatNone();
          return None;
        }
        ConcatHead(lists);
        assert Stores(conf, sstList[0], lists[0]);
        currentIter := OpenSst(formats, sstList[0], None, conf, lists[0]);
        sstList, lists := sstList[1..], lists[1..];
      }
    }
  }

  /** Read the index of an SST and iterate from its start or from a key. */
  method OpenSst(formats: Formats, sst: StoredSst, fromKey: Option<bytes>, ghost conf: Config, ghost es: seq<Entry>)
    returns (it: SstIterator)
    requires Stores(conf, sst, es) && formats == conf.formats
    ensures fresh(it) && it.blockIter == null && it.Valid() && it.Rest() == Part(es, fromKey)
  {
    hide IsFile, InfoOf, BlocksOf, MetasOf, ReadIndex, SstIterator.Valid, SstIterator.Rest;
    ghost var filter :| IsStored(conf, sst, es, filter);
    ReadIndexBack(conf, es, filter, sst.file);
    var index := ReadIndex(formats, sst.info, sst.file);
    if fromKey.Some? {
      it := new SstIterator.AtKey(formats, sst, index.value, fromKey.value, conf, es, filter);
    } else {
      it := new SstIterator(formats, sst, index.value, conf, es, filter);
    }
  }

  /** NewSortedRunIteratorFromKey: the iterator yields exactly the run's entries at or above the key. */
  method RunIteratorFromKey(formats: Formats, run: seq<StoredSst>, key: bytes,
                            ghost conf: Config, ghost lists: seq<seq<Entry>>)
    returns (it: SortedRunIterator)
    requires StoresRun(conf, run, lists) && formats == conf.formats
    ensures fresh(it) && it.Valid()
    ensures it.currentIter != null ==> fresh(it.currentIter) && it.currentIter.blockIter == null
    ensures it.Rest() == From(Concat(lists), key)
  {
    hide Stores, Concat, From, Sorted, SortedRunIterator.Valid, SortedRunIterator.Rest;
    var index := IndexOfSstWithKey(run, key, conf, lists);
    SeekRun(lists, index, key);
    var sstList := run;
    ghost var kept := lists;
    if index.Some? {
      sstList := run[index.value..];
      kept := lists[index.value..];
    }
    it := new SortedRunIterator(formats, sstList, Some(key), conf, kept);
  }
}
