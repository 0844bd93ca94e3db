/** Iterating an SST from its start or from a key (internal/sstable/iterator.go).
 */
module SstIterators {
  import opened Tables
  import opened Keys
  import opened Rows
  import opened Formats
  import opened Blocks
  import opened Bloom
  import opened SstFormat

  /** An SST as a reader holds it: the info of its handle and the stored file. */
  datatype StoredSst = StoredSst(info: Info, file: bytes)

  ghost predicate IsStored(conf: Config, t: StoredSst, es: seq<Entry>, filter: Filter) {
    IsFile(conf, es, filter, t.file) && Sorted(es) && EntriesFit(es) && t.info == InfoOf(conf, es, filter)
  }

  /** A stored SST that holds exactly these entries. */
  ghost predicate Stores(conf: Config, t: StoredSst, es: seq<Entry>) {
    exists filter :: IsStored(conf, t, es, filter)
  }

  lemma StoresSorted(conf: Config, t: StoredSst, es: seq<Entry>)
    requires Stores(conf, t, es)
    ensures Sorted(es) && t.info.firstKey == FirstKeyOf(es)
    ensures forall i :: 0 <= i < |es| ==> es[i].key != []
  {
    forall i | 0 <= i < |es| ensures es[i].key != [] {
      assert EntryFits(es[i]);
    }
  }

  // ---------------------------------------------------------------- entries from a key on

  function Part(es: seq<Entry>, fromKey: Option<bytes>): seq<Entry> {
    if fromKey.None? then es else From(es, fromKey.value)
  }

  /** What the blocks from i on yield, each of them sought at the key. */
  function TailFrom(blocks: seq<seq<Entry>>, i: nat, fromKey: Option<bytes>): seq<Entry>
    requires i <= |blocks|
    decreases |blocks| - i
  {
    if i == |blocks| then [] else Part(blocks[i], fromKey) + TailFrom(blocks, i + 1, fromKey)
  }

  lemma HeadOfBoth(a: seq<Entry>, b: seq<Entry>)
    requires a != []
    ensures (a + b)[0] == a[0] && (a + b)[1..] == a[1..] + b
  {}

  lemma TailStep(blocks: seq<seq<Entry>>, fromKey: Option<bytes>)
    ensures TailFrom(blocks, |blocks|, fromKey) == []
    ensures forall i :: 0 <= i < |blocks| ==>
              TailFrom(blocks, i, fromKey) == Part(blocks[i], fromKey) + TailFrom(blocks, i + 1, fromKey)
  {}

  lemma {:induction false} FromSkips(a: seq<Entry>, b: seq<Entry>, key: bytes)
    requires forall i :: 0 <= i < |a| ==> Less(a[i].key, key)
    ensures From(a + b, key) == From(b, key) && From(a, key) == []
  {
    if a == [] {
      assert a + b == b;
    } else {
      assert (a + b)[0] == a[0] && (a + b)[1..] == a[1..] + b;
      FromSkips(a[1..], b, key);
    }
  }

  lemma FromKeeps(es: seq<Entry>, key: bytes)
    requires forall i :: 0 <= i < |es| ==> !Less(es[i].key, key)
    ensures From(es, key) == es
  {}

  /** Seeking in a sorted concatenation is seeking in both halves. */
  lemma {:induction false} FromConcat(a: seq<Entry>, b: seq<Entry>, key: bytes)
    requires Sorted(a + b)
    ensures From(a + b, key) == From(a, key) + From(b, key)
  {
    hide Less, Sorted;
    if a == [] {
      assert a + b == b && From(a, key) + From(b, key) == From(b, key);
    } else if Less(a[0].key, key) {
      assert (a + b)[0] == a[0] && (a + b)[1..] == a[1..] + b;
      SortedTail(a + b);
      FromConcat(a[1..], b, key);
    } else {
      AboveTheFirst(a, b, key);
      FromKeeps(b, key);
      assert (a + b)[0] == a[0];
    }
  }

  lemma AboveTheFirst(a: seq<Entry>, b: seq<Entry>, key: bytes)
    requires Sorted(a + b) && a != [] && !Less(a[0].key, key)
    ensures forall i :: 0 <= i < |b| ==> !Less(b[i].key, key)
  {
    hide Less;
    forall i | 0 <= i < |b| ensures !Less(b[i].key, key) {
      assert (a + b)[0] == a[0] && (a + b)[|a| + i] == b[i];
      if Less(b[i].key, key) {
        LessTransitive(a[0].key, b[i].key, key);
      }
    }
  }

  lemma SortedParts(a: seq<Entry>, b: seq<Entry>)
    requires Sorted(a + b)
    ensures Sorted(a) && Sorted(b)
  {
    SortedSlice(a + b, 0, |a|);
    SortedSlice(a + b, |a|, |a + b|);
    assert (a + b)[0..|a|] == a && (a + b)[|a|..|a + b|] == b;
  }

  lemma ConcatHead(blocks: seq<seq<Entry>>)
    requires blocks != []
    ensures Concat(blocks) == blocks[0] + Concat(blocks[1..])
  {
    assert blocks == [blocks[0]] + blocks[1..];
    ConcatAppend([blocks[0]], blocks[1..]);
    ConcatOne(blocks[0]);
  }

  /** Seeking every block is seeking the whole. */
  lemma {:induction false} TailIsFrom(blocks: seq<seq<Entry>>, i: nat, key: bytes)
    requires i <= |blocks| && Sorted(Concat(blocks[i..]))
    ensures TailFrom(blocks, i, Some(key)) == From(Concat(blocks[i..]), key)
    decreases |blocks| - i
  {
    hide Concat, Sorted;
    if i < |blocks| {
      var rest := blocks[i..];
      assert rest[0] == blocks[i] && rest[1..] == blocks[i + 1..];
      ConcatHead(rest);
      SortedParts(blocks[i], Concat(blocks[i + 1..]));
      TailIsFrom(blocks, i + 1, key);
      FromConcat(blocks[i], Concat(blocks[i + 1..]), key);
    } else {
      assert blocks[i..] == [];
      ConcatNone();
    }
  }

  lemma ConcatNone()
    ensures Concat<Entry>([]) == []
  {}

  lemma {:induction false} TailIsAll(blocks: seq<seq<Entry>>, i: nat)
    requires i <= |blocks|
    ensures TailFrom(blocks, i, None) == Concat(blocks[i..])
    decreases |blocks| - i
  {
    hide Concat;
    if i < |blocks| {
      var rest := blocks[i..];
      assert rest[0] == blocks[i] && rest[1..] == blocks[i + 1..];
      ConcatHead(rest);
      TailIsAll(blocks, i + 1);
    } else {
      assert blocks[i..] == [];
      ConcatNone();
    }
  }

  // ---------------------------------------------------------------- the index search

  ghost predicate FirstKeysSorted(index: seq<BlockMeta>) {
    forall i, j :: 0 <= i < j < |index| ==> Less(index[i].firstKey, index[j].firstKey)
  }

  /** The last block whose first key is not above the key; the first block if there is none. */
  method FirstBlockIncludingOrAfterKey(index: seq<BlockMeta>, key: bytes) returns (found: nat)
    requires FirstKeysSorted(index)
    ensures found < |index| || (found == 0 && index == [])
    ensures forall i :: 0 <= i < |index| && (found < i) ==> Less(key, index[i].firstKey)
    ensures found > 0 ==> !Less(key, index[found].firstKey)
  {
    var low, high := 0, |index| - 1;
    found := 0;
    while low <= high
      invariant 0 <= low <= high + 1 <= |index|
      invariant found == if low == 0 then 0 else low - 1
      invariant low > 0 ==> Less(index[low - 1].firstKey, key)
      invariant high + 1 < |index| ==> Less(key, index[high + 1].firstKey)
      decreases high - low
    {
      var mid := low + (high - low) / 2;
      var cmp := Compare(index[mid].firstKey, key);
      if cmp == -1 {
        low := mid + 1;
        found := mid;
      } else if cmp == 1 {
        LessTotal(index[mid].firstKey, key);
        if mid > 0 {
          high := mid - 1;
        } else {
          AboveAll(index, key, 0);
          return;
        }
      } else {
        LessIrreflexive(key);
        return mid;
      }
    }
    if high + 1 < |index| {
      AboveAll(index, key, high + 1);
    }
    if found > 0 {
      LessAsymmetric(index[found].firstKey, key);
    }
  }

  lemma AboveAll(index: seq<BlockMeta>, key: bytes, n: nat)
    requires FirstKeysSorted(index) && n < |index| && Less(key, index[n].firstKey)
    ensures forall i :: n <= i < |index| ==> Less(key, index[i].firstKey)
  {
    forall i | n < i < |index| ensures Less(key, index[i].firstKey) {
      LessTransitive(key, index[n].firstKey, index[i].firstKey);
    }
  }

  // ---------------------------------------------------------------- the blocks of an SST

  lemma {:induction false} ConcatPosition(blocks: seq<seq<Entry>>, i: nat, k: nat)
    requires i < |blocks| && k < |blocks[i]|
    ensures |Concat(blocks[..i])| + k < |Concat(blocks)|
    ensures Concat(blocks)[|Concat(blocks[..i])| + k] == blocks[i][k]
  {
    hide Concat;
    assert blocks == blocks[..i] + blocks[i..];
    ConcatAppend(blocks[..i], blocks[i..]);
    assert blocks[i..][0] == blocks[i];
    ConcatHead(blocks[i..]);
  }

  /** Across blocks of a sorted list keys increase. */
  lemma BlocksOrdered(blocks: seq<seq<Entry>>, i: nat, a: nat, j: nat, b: nat)
    requires Sorted(Concat(blocks)) && i < j < |blocks| && a < |blocks[i]| && b < |blocks[j]|
    ensures Less(blocks[i][a].key, blocks[j][b].key)
  {
    hide Concat;
    ConcatPosition(blocks, i, a);
    ConcatPosition(blocks, j, b);
    assert blocks[..j] == blocks[..i] + ([blocks[i]] + blocks[i + 1..j]);
    ConcatAppend(blocks[..i], [blocks[i]] + blocks[i + 1..j]);
    ConcatHead([blocks[i]] + blocks[i + 1..j]);
  }

  lemma IndexSorted(conf: Config, blocks: seq<seq<Entry>>)
    requires Sorted(Concat(blocks)) && forall i :: 0 <= i < |blocks| ==> blocks[i] != []
    ensures FirstKeysSorted(MetasOf(conf, blocks))
  {
    hide StartOf, Concat;
    var index := MetasOf(conf, blocks);
    forall i, j | 0 <= i < j < |index| ensures Less(index[i].firstKey, index[j].firstKey) {
      BlocksOrdered(blocks, i, 0, j, 0);
    }
  }

  /** Starting at the block that the index search finds, no entry at or above the key is missed. */
  lemma SeekBlocks(blocks: seq<seq<Entry>>, found: nat, key: bytes)
    requires Sorted(Concat(blocks)) && (forall i :: 0 <= i < |blocks| ==> blocks[i] != [])
    requires found < |blocks| || found == 0
    requires 0 < found < |blocks| ==> !Less(key, blocks[found][0].key)
    ensures found <= |blocks| && TailFrom(blocks, found, Some(key)) == From(Concat(blocks), key)
  {
    hide Concat, From, TailFrom;
    var a, b := Concat(blocks[..found]), Concat(blocks[found..]);
    assert blocks == blocks[..found] + blocks[found..];
    ConcatAppend(blocks[..found], blocks[found..]);
    SortedParts(a, b);
    TailIsFrom(blocks, found, key);
    if 0 < found {
      forall k | 0 <= k < |a| ensures Less(a[k].key, key) {
        assert blocks[found..][0] == blocks[found];
        ConcatHead(blocks[found..]);
        assert (a + b)[k] == a[k] && (a + b)[|a|] == b[0];
        assert Less(a[k].key, blocks[found][0].key);
        LessChainRight(a[k].key, blocks[found][0].key, key);
      }
    } else {
      assert blocks[..0] == [];
      ConcatNone();
    }
    FromSkips(a, b, key);
  }

  method SeekIndex(index: seq<BlockMeta>, key: bytes,
                   ghost conf: Config, ghost sst: StoredSst, ghost entries: seq<Entry>, ghost filter: Filter)
    returns (found: nat)
    requires IsStored(conf, sst, entries, filter)
    requires index == MetasOf(conf, BlocksOf(entries, conf.blockSize))
    ensures found <= |BlocksOf(entries, conf.blockSize)|
    ensures TailFrom(BlocksOf(entries, conf.blockSize), found, Some(key)) == From(entries, key)
  {
    hide BlocksOf, FileOf, InfoOf, HashesOf, IsFilterOf, From, TailFrom, Concat, StartOf, Sorted, Less;
    BlocksHold(entries, conf.blockSize);
    IndexSorted(conf, BlocksOf(entries, conf.blockSize));
    found := FirstBlockIncludingOrAfterKey(index, key);
    SeekBlocks(BlocksOf(entries, conf.blockSize), found, key);
  }

  // ---------------------------------------------------------------- the iterator

  class SstIterator {
    const formats: Formats
    const sst: StoredSst
    const index: seq<BlockMeta>
    const fromKey: Option<bytes>
    var nextBlock: nat
    var blockIter: BlockIterator?
    ghost const conf: Config
    ghost const entries: seq<Entry>
    ghost const filter: Filter

    ghost function Parts(): seq<seq<Entry>> {
      BlocksOf(entries, conf.blockSize)
    }

    ghost predicate Consistent() {
      && IsStored(conf, sst, entries, filter)
      && formats == conf.formats && index == MetasOf(conf, Parts())
    }

    ghost predicate Valid()
      reads this, blockIter
    {
      Consistent() && nextBlock <= |Parts()| && (blockIter != null ==> blockIter.Valid())
    }

    /** The entries still to come, in order. */
    ghost function Rest(): seq<Entry>
      reads this, blockIter
      requires Valid()
    {
      (if blockIter == null then [] else blockIter.Rest()) + TailFrom(Parts(), nextBlock, fromKey)
    }

    /** NewIterator: from the start. */
    constructor (formats: Formats, sst: StoredSst, index: seq<BlockMeta>,
                 ghost conf: Config, ghost entries: seq<Entry>, ghost filter: Filter)
      requires IsStored(conf, sst, entries, filter) && formats == conf.formats
      requires index == MetasOf(conf, BlocksOf(entries, conf.blockSize))
      ensures Valid() && blockIter == null && Rest() == entries
    {
      hide IsStored, BlocksOf, MetasOf;
      this.formats, this.sst, this.index, this.fromKey := formats, sst, index, None;
      nextBlock, blockIter := 0, null;
      this.conf, this.entries, this.filter := conf, entries, filter;
      new;
      BlocksHold(entries, conf.blockSize);
      TailIsAll(Parts(), 0);
      assert Parts()[0..] == Parts();
    }

    /** NewIteratorAtKey: from the key, or from the first key above it. */
    constructor AtKey(formats: Formats, sst: StoredSst, index: seq<BlockMeta>, key: bytes,
                      ghost conf: Config, ghost entries: seq<Entry>, ghost filter: Filter)
      requires IsStored(conf, sst, entries, filter) && formats == conf.formats
      requires index == MetasOf(conf, BlocksOf(entries, conf.blockSize))
      ensures Valid() && blockIter == null && Rest() == From(entries, key)
    {
      hide IsStored, BlocksOf, MetasOf, From;
      var found := SeekIndex(index, key, conf, sst, entries, filter);
      this.formats, this.sst, this.index, this.fromKey := formats, sst, index, Some(key);
      nextBlock, blockIter := found, null;
      this.conf, this.entries, this.filter := conf, entries, filter;
    }

    /** nextBlockIter: an iterator over the next block, sought at the key if there is one. */
    method NextBlockIter() returns (it: BlockIterator?)
      requires Valid()
      modifies this`nextBlock
      ensures it == null <==> old(nextBlock) == |Parts()|
      ensures it == null ==> nextBlock == old(nextBlock)
      ensures it != null ==>
                && fresh(it) && nextBlock == old(nextBlock) + 1
                && it.Valid() && it.Rest() == Part(Parts()[old(nextBlock)], fromKey)
    {
      hide BlocksOf, MetasOf, Holds, From, FileOf, InfoOf, Sorted, IsFilterOf, HashesOf;
      MetasAre(conf, Parts());
      if nextBlock >= |index| {
        return null;
      }
      var blocks := ReadBlocks(formats, sst.info, index, nextBlock, nextBlock + 1, sst.file, conf, entries, filter);
      ghost var i := nextBlock;
      assert Holds(blocks.value[0], Parts()[i + 0]);
      nextBlock := nextBlock + 1;
      if fromKey.Some? {
        BlockSorted(entries, conf.blockSize, i);
        it := new BlockIterator.AtKey(blocks.value[0], fromKey.value, Parts()[i]);
      } else {
        it := new BlockIterator(blocks.value[0], Parts()[i]);
      }
    }

    method NextEntry() returns (r: Option<Entry>)
      requires Valid()
      modifies this, blockIter
      ensures Valid() && (blockIter == null || blockIter == old(blockIter) || fresh(blockIter))
      ensures if old(Rest()) == [] then r == None && Rest() == []
              else r == Some(old(Rest())[0]) && Rest() == old(Rest())[1..]
    {
      hide Consistent, Part, TailFrom, BlockIterator.Valid, BlockIterator.Rest, Parts;
      while true
        invariant Valid() && (blockIter == null || blockIter == old(blockIter) || fresh(blockIter))
        invariant Rest() == old(Rest())
        decreases |Parts()| - nextBlock, if blockIter == null then 0 else 1
      {
        if blockIter == null {
          var it := NextBlockIter();
          TailStep(Parts(), fromKey);
          if it == null {
            return None;
          }
          blockIter := it;
        }
        ghost var now := blockIter.Rest();
        r := blockIter.NextEntry();
        if r.Some? {
          HeadOfBoth(now, TailFrom(Parts(), nextBlock, fromKey));
          return;
        }
        blockIter := null;
      }
    }
  }

  lemma BlockSorted(es: seq<Entry>, blockSize: nat, i: nat)
    requires Sorted(es) && i < |BlocksOf(es, blockSize)|
    ensures Sorted(BlocksOf(es, blockSize)[i])
  {
    hide BlocksOf, Concat;
    var blocks := BlocksOf(es, blockSize);
    var block: seq<Entry> := blocks[i];
    BlocksHold(es, blockSize);
    forall a, b | 0 <= a < b < |block| ensures Less(block[a].key, block[b].key) {
      ConcatPosition(blocks, i, a);
      ConcatPosition(blocks, i, b);
    }
  }

  // ---------------------------------------------------------------- reading back

  /** Iterating a stored SST from its start returns exactly the entries it was built from. */
  method ReadAll(formats: Formats, sst: StoredSst, ghost conf: Config, ghost es: seq<Entry>)
    returns (out: seq<Entry>)
    requires Stores(conf, sst, es) && formats == conf.formats
    ensures out == es
  {
    hide IsFile, InfoOf, BlocksOf, MetasOf, ReadIndex, SstIterator.Valid, SstIterator.Rest;
    ghost var filter :| IsStored(conf, sst, es, filter);
    ReadIndexBack(conf, es, filter, sst.file);
    var index := ReadIndex(formats, sst.info, sst.file);
    var it := new SstIterator(formats, sst, index.value, conf, es, filter);
    out := [];
    while true
      invariant it.Valid() && fresh(it) && (it.blockIter != null ==> fresh(it.blockIter))
      invariant out + it.Rest() == es
      decreases |it.Rest()|
    {
      var r := it.NextEntry();
      if r.None? {
        break;
      }
      out := out + [r.value];
    }
  }
}
