/** Building SSTs: the builder (internal/sstable/builder.go), the batch upload and the streaming writer
    of compactions (slatedb/store/table_store.go).
 */
module SstBuilders {
  import opened Tables
  import opened Keys
  import opened Rows
  import opened Formats
  import opened Blocks
  import opened Bloom
  import opened SstFormat

  /** The table that a builder delivers; its last block carries filter, index and info. */
  datatype Built = Built(info: Info, filter: Option<Filter>, blocks: seq<bytes>)

  class SstBuilder {
    const conf: Config
    var blockBuilder: BlockBuilder
    var hashes: seq<nat>
    var metas: seq<BlockMeta>
    var firstKey: bytes
    var blocks: seq<bytes>
    var currentLen: nat
    var numKeys: nat
    ghost var entries: seq<Entry>      // everything added
    ghost var done: seq<seq<Entry>>    // the entries of the finished blocks
    ghost var drained: nat             // how many finished blocks have left the queue

    ghost predicate Valid()
      reads this, blockBuilder
    {
      && blockBuilder.Valid() && blockBuilder.blockSize == conf.blockSize
      && Parts(done, blockBuilder.entries) == PartsOf(entries, conf.blockSize)
      && LayoutOk() && KeysOk()
    }

    ghost predicate LayoutOk()
      reads this`metas, this`done, this`currentLen, this`drained, this`blocks
    {
      && metas == MetasOf(conf, done)
      && currentLen == |DataPart(conf, done)|
      && drained <= |done| && blocks == BlockFiles(conf, done[drained..])
    }

    ghost predicate KeysOk()
      reads this`hashes, this`numKeys, this`firstKey, this`entries
    {
      && hashes == HashesOf(conf, entries) && numKeys == |entries| % UINT32 && firstKey == FirstKeyOf(entries)
      && (entries != [] ==> firstKey != [])
    }

    constructor (conf: Config)
      ensures Valid() && fresh(blockBuilder) && this.conf == conf && entries == [] && drained == 0
    {
      this.conf := conf;
      blockBuilder := new BlockBuilder(conf.blockSize);
      hashes, metas, firstKey, blocks, currentLen, numKeys := [], [], [], [], 0, 0;
      entries, done, drained := [], [], 0;
      new;
      DataPartNone(conf);
    }

    /** finishBlock: close the block being filled, if it holds anything, and record it in the index. */
    method FinishBlock() returns (buf: bytes)
      requires blockBuilder.Valid() && blockBuilder.blockSize == conf.blockSize
      requires metas == MetasOf(conf, done) && currentLen == |DataPart(conf, done)|
      modifies this`blockBuilder, this`metas
      ensures blockBuilder.Valid() && blockBuilder.blockSize == conf.blockSize && blockBuilder.entries == []
      ensures old(blockBuilder.entries) == [] ==>
                blockBuilder == old(blockBuilder) && metas == old(metas) && buf == []
      ensures old(blockBuilder.entries) != [] ==>
                && fresh(blockBuilder) && metas == MetasOf(conf, done + [old(blockBuilder.entries)])
                && buf == BlockFile(conf, old(blockBuilder.entries))
    {
      hide DataOf, OffsetsOf, BlockBytes, DataPart, MetasOf;
      var built := blockBuilder.Build();
      if built.None? {
        return [];
      }
      var block := built.value;
      ghost var filled := blockBuilder.entries;
      blockBuilder := new BlockBuilder(conf.blockSize);
      buf := EncodeBlock(conf.formats, conf.codec, block);
      MetasSnoc(conf, done, filled);
      metas := metas + [BlockMeta(currentLen, block.firstKey)];
    }

    /** Queue the block being filled and start an empty one. */
    method StartNextBlock()
      requires blockBuilder.Valid() && blockBuilder.blockSize == conf.blockSize && blockBuilder.entries != []
      requires LayoutOk()
      modifies this`blockBuilder, this`metas, this`currentLen, this`blocks, this`done
      ensures blockBuilder.Valid() && blockBuilder.blockSize == conf.blockSize && blockBuilder.entries == []
      ensures fresh(blockBuilder) && LayoutOk() && done == old(done) + [old(blockBuilder.entries)]
    {
      hide BlockFile, DataPart, BlockFiles, MetasOf, BlockBuilder.Valid;
      ghost var cur := blockBuilder.entries;
      var buf := FinishBlock();
      FilesSnoc(conf, done, cur, drained);
      currentLen := currentLen + |buf|;
      blocks := blocks + [buf];
      done := done + [cur];
    }

    /** The retry on a new block never fails. */
    method Add(e: Entry)
      requires Valid() && e.key != []
      modifies this, blockBuilder
      ensures Valid() && (blockBuilder == old(blockBuilder) || fresh(blockBuilder))
      ensures entries == old(entries) + [e] && drained == old(drained) && old(done) <= done
    {
      hide Accepts, BlockBuilder.Valid, LayoutOk, PartsOf, HashesOf;
      numKeys := (numKeys + 1) % UINT32;
      PartsSnoc(entries, e, conf.blockSize);
      EmptyAccepts(blockBuilder.entries, e, conf.blockSize);
      EmptyAccepts([], e, conf.blockSize);
      var added := blockBuilder.Add(e);
      if !added {
        StartNextBlock();
        added := blockBuilder.Add(e);
        assert added;
      }
      if firstKey == [] {
        firstKey := e.key;
      }
      KeysSnoc(conf, entries, e);
      hashes := hashes + [conf.hash(e.key)];
      entries := entries + [e];
    }

    /** AddValue: an empty value is stored as a tombstone. */
    method AddValue(key: bytes, data: bytes)
      requires Valid() && key != []
      modifies this, blockBuilder
      ensures Valid() && (blockBuilder == old(blockBuilder) || fresh(blockBuilder))
      ensures entries == old(entries) + [Entry(key, Stored(Present(data)))]
      ensures drained == old(drained) && old(done) <= done
    {
      hide Valid;
      if data == [] {
        Add(Entry(key, Tombstone));
      } else {
        Add(Entry(key, Present(data)));
      }
    }

    /** The next finished block, taken from the queue. */
    method NextBlock() returns (r: Option<bytes>)
      requires Valid()
      modifies this`blocks, this`drained
      ensures Valid() && drained <= |done|
      ensures if old(drained) == |done| then r == None && drained == old(drained)
              else r == Some(BlockFile(conf, done[old(drained)])) && drained == old(drained) + 1
    {
      hide BlockFile, DataPart, MetasOf, PartsOf, BlockFiles, KeysOk, BlockBuilder.Valid;
      FirstFile(conf, done, drained);
      if blocks == [] {
        return None;
      }
      r := Some(blocks[0]);
      blocks := blocks[1..];
      drained := drained + 1;
    }

    /** Build: the drained blocks followed by the table's blocks are the file of the entries. It
        panics exactly where the filter's builder does. */
    method Build() returns (r: Decoded<Built>)
      requires Valid()
      modifies this
      ensures r == Panic <==> FilterFails(conf, old(entries))
      ensures r.Ok? <==> !FilterFails(conf, old(entries))
      ensures r.Ok? ==>
                var filter := FilterOr(r.value.filter);
                && (r.value.filter.Some? <==> HasFilter(conf, old(entries)))
                && (r.value.filter.Some? ==>
                      IsFilterOf(filter, HashesOf(conf, old(entries)), conf.bitsPerKey, conf.numProbes))
                && r.value.info == InfoOf(conf, old(entries), filter)
                && DataPart(conf, old(done)[..old(drained)]) + Concat(r.value.blocks)
                   == FileOf(conf, old(entries), filter)
    {
      hide BlockFile, DataPart, HashesOf, FilterBytes, IsFilterOf, PartsOf, Concat, TailOf, MetasOf, BlockFiles, InfoOf;
      ghost var cur := blockBuilder.entries;
      LastBlock(conf, done, cur);
      var buf := FinishBlock();
      WholeBlocks(conf, entries, done, cur);
      var rest := Footer(conf, currentLen + |buf|, numKeys, hashes, metas, firstKey, entries);
      if !rest.Ok? {
        return Panic;
      }
      var (tail, info, filter) := rest.value;
      WholeFile(conf, done, drained, cur, blocks, buf, tail);
      blocks := blocks + [buf + tail];
      return Ok(Built(info, filter, blocks));
    }
  }

  lemma WholeBlocks(conf: Config, es: seq<Entry>, done: seq<seq<Entry>>, cur: seq<Entry>)
    requires Parts(done, cur) == PartsOf(es, conf.blockSize)
    ensures BlocksOf(es, conf.blockSize) == if cur == [] then done else done + [cur]
  {}

  /** The filter of these entries is wanted, and its builder divides by zero. */
  predicate FilterFails(conf: Config, es: seq<Entry>) {
    HasFilter(conf, es) && es != [] && FilterBytes(|es|, conf.bitsPerKey) == 0
  }

  /** With at least one bit per key and no overflow of the bit count there is no such failure. */
  lemma FilterFits(conf: Config, es: seq<Entry>)
    requires conf.bitsPerKey > 0 && |es| * conf.bitsPerKey + 7 < UINT32
    ensures !FilterFails(conf, es)
  {
    if es != [] {
      BitsFit(|es|, conf.bitsPerKey);
    }
  }

  lemma SmallMod(x: nat)
    requires x < UINT32
    ensures x % UINT32 == x
  {}

  lemma ProductGrows(n: nat, bits: nat)
    requires bits > 0
    ensures n * bits >= n
  {
    assert n * bits == n + n * (bits - 1);
  }

  lemma BitsFit(n: nat, bits: nat)
    requires n > 0 && bits > 0 && n * bits + 7 < UINT32
    ensures FilterBytes(n, bits) > 0
  {
    ProductGrows(n, bits);
    SmallMod(n);
    SmallMod(n * bits);
    SmallMod(n * bits + 7);
    assert FilterBytes(n, bits) == (n * bits + 7) / 8;
  }

  /** It does fail with no bits per key, and where the bit count wraps around to zero. */
  lemma FilterFailsAt(conf: Config, es: seq<Entry>)
    requires HasFilter(conf, es) && es != []
    ensures conf.bitsPerKey == 0 ==> FilterFails(conf, es)
    ensures conf.bitsPerKey == 8 && |es| == 0x2000_0000 ==> FilterFails(conf, es)
  {}

  /** The filter that goes with an upload; an SST without one counts as having an empty one. */
  function FilterOr(filter: Option<Filter>): Filter {
    if filter.Some? then filter.value else EmptyFilter
  }

  /** The filter, if there are keys enough for one. */
  method MaybeFilter(conf: Config, numKeys: nat, hashes: seq<nat>) returns (r: Decoded<Option<Filter>>)
    ensures r == Panic || r.Ok?
    ensures r == Panic
            <==> numKeys >= conf.minFilterKeys && hashes != [] && FilterBytes(|hashes|, conf.bitsPerKey) == 0
    ensures r.Ok? ==> (r.value.Some? <==> numKeys >= conf.minFilterKeys)
    ensures r.Ok? && r.value.Some? ==> IsFilterOf(r.value.value, hashes, conf.bitsPerKey, conf.numProbes)
  {
    hide FilterBytes, IsFilterOf;
    if numKeys < conf.minFilterKeys {
      return Ok(None);
    }
    var built := Bloom.Build(hashes, conf.bitsPerKey, conf.numProbes);
    if !built.Ok? {
      return Panic;
    }
    return Ok(Some(built.value));
  }

  /** The part of Build that writes what follows the blocks, which end at `dataLen`. */
  method Footer(conf: Config, dataLen: nat, numKeys: nat, hashes: seq<nat>, metas: seq<BlockMeta>, firstKey: bytes,
                ghost es: seq<Entry>)
    returns (r: Decoded<(bytes, Info, Option<Filter>)>)
    requires dataLen == |DataPart(conf, BlocksOf(es, conf.blockSize))|
    requires metas == MetasOf(conf, BlocksOf(es, conf.blockSize))
    requires hashes == HashesOf(conf, es) && numKeys == |es| % UINT32 && firstKey == FirstKeyOf(es)
    ensures r == Panic <==> FilterFails(conf, es)
    ensures r.Ok? <==> !FilterFails(conf, es)
    ensures r.Ok? ==>
              && (r.value.2.Some? <==> HasFilter(conf, es))
              && (r.value.2.Some? ==>
                    IsFilterOf(r.value.2.value, HashesOf(conf, es), conf.bitsPerKey, conf.numProbes))
              && r.value.1 == InfoOf(conf, es, FilterOr(r.value.2))
              && r.value.0 == TailOf(conf, es, FilterOr(r.value.2))
  {
    hide DataPart, BlocksOf, MetasOf, HashesOf, FilterBytes, IsFilterOf, FilterFile, Checksummed, PutU32;
    HashCount(conf, es);
    var maybeFilter := MaybeFilter(conf, numKeys, hashes);
    if !maybeFilter.Ok? {
      return Panic;
    }
    var filter := maybeFilter.value;
    var buf := if filter.Some? then FilterFile(conf.formats, conf.codec, filter.value) else [];
    var filterLen := |buf|;
    assert buf == FilterPart(conf, es, FilterOr(filter));
    var f := conf.formats;
    var encodedIndex := Checksummed(f, f.compress(conf.codec, f.encodeIndex(metas)));
    var indexOffset := dataLen + |buf|;
    buf := buf + encodedIndex;
    var metaOffset := dataLen + |buf|;
    var info := Info(firstKey, indexOffset, |encodedIndex|, dataLen, filterLen, conf.codec);
    buf := buf + Checksummed(f, f.encodeInfo(info));
    buf := buf + PutU32(metaOffset % UINT32);
    return Ok((buf, info, filter));
  }

  // ---------------------------------------------------------------- steps of the layout

  lemma PartsSnoc(es: seq<Entry>, e: Entry, blockSize: nat)
    ensures PartsOf(es + [e], blockSize) == AddTo(PartsOf(es, blockSize), e, blockSize)
  {
    assert (es + [e])[..|es|] == es;
  }

  lemma EmptyAccepts(es: seq<Entry>, e: Entry, blockSize: nat)
    ensures es == [] ==> Accepts(es, e, blockSize)
  {}

  lemma MetasSnoc(conf: Config, done: seq<seq<Entry>>, block: seq<Entry>)
    ensures MetasOf(conf, done + [block])
         == MetasOf(conf, done) + [BlockMeta(|DataPart(conf, done)|, FirstKeyOf(block))]
  {
    hide DataPart;
    var all := done + [block];
    forall i | 0 <= i <= |done| ensures all[..i] == done[..i] {}
    assert done[..|done|] == done;
  }

  lemma FilesSnoc(conf: Config, done: seq<seq<Entry>>, block: seq<Entry>, drained: nat)
    requires drained <= |done|
    ensures |DataPart(conf, done + [block])| == |DataPart(conf, done)| + |BlockFile(conf, block)|
    ensures BlockFiles(conf, (done + [block])[drained..])
         == BlockFiles(conf, done[drained..]) + [BlockFile(conf, block)]
  {
    hide BlockFile;
    DataPartConcat(conf, done, [block]);
    DataPartOne(conf, block);
    assert (done + [block])[drained..] == done[drained..] + [block];
  }

  /** The queue of files, seen from its front. */
  lemma FirstFile(conf: Config, done: seq<seq<Entry>>, drained: nat)
    requires drained <= |done|
    ensures var files := BlockFiles(conf, done[drained..]);
            && (files == [] <==> drained == |done|)
            && (drained < |done| ==>
                  files[0] == BlockFile(conf, done[drained]) && files[1..] == BlockFiles(conf, done[drained + 1..]))
  {
    hide BlockFile;
  }

  lemma KeysSnoc(conf: Config, es: seq<Entry>, e: Entry)
    ensures HashesOf(conf, es + [e]) == HashesOf(conf, es) + [conf.hash(e.key)]
    ensures FirstKeyOf(es + [e]) == if es == [] then e.key else FirstKeyOf(es)
    ensures |es + [e]| % UINT32 == (|es| % UINT32 + 1) % UINT32
  {}

  lemma HashCount(conf: Config, es: seq<Entry>)
    ensures |HashesOf(conf, es)| == |es|
  {}

  /** The blocks of the file are the finished ones and the last one, if it holds anything. */
  lemma LastBlock(conf: Config, done: seq<seq<Entry>>, cur: seq<Entry>)
    ensures var all := if cur == [] then done else done + [cur];
            DataPart(conf, all) == DataPart(conf, done) + (if cur == [] then [] else BlockFile(conf, cur))
  {
    hide BlockFile;
    if cur != [] {
      DataPartConcat(conf, done, [cur]);
      DataPartOne(conf, cur);
    }
  }

  lemma WholeFile(conf: Config, done: seq<seq<Entry>>, drained: nat, cur: seq<Entry>, blocks: seq<bytes>, data: bytes,
                  tail: bytes)
    requires drained <= |done| && blocks == BlockFiles(conf, done[drained..])
    requires data == if cur == [] then [] else BlockFile(conf, cur)
    ensures var all := if cur == [] then done else done + [cur];
            DataPart(conf, done[..drained]) + Concat(blocks + [data + tail]) == DataPart(conf, all) + tail
  {
    hide BlockFile, BlockFiles, Concat;
    assert done == done[..drained] + done[drained..];
    DataPartConcat(conf, done[..drained], done[drained..]);
    assert DataPart(conf, done[drained..]) == Concat(blocks);
    LastBlock(conf, done, cur);
    ConcatLast(blocks, data + tail);
    AssociateFour(DataPart(conf, done[..drained]), Concat(blocks), data, tail);
  }

  lemma ConcatLast(blocks: seq<bytes>, last: bytes)
    ensures Concat(blocks + [last]) == Concat(blocks) + last
  {
    assert (blocks + [last])[..|blocks|] == blocks;
  }

  lemma AssociateFour(a: bytes, b: bytes, c: bytes, d: bytes)
    ensures a + (b + (c + d)) == a + b + c + d
  {}

  // ---------------------------------------------------------------- uploading

  method ConcatBlocks(blocks: seq<bytes>) returns (data: bytes)
    ensures data == Concat(blocks)
  {
    data := [];
    for i := 0 to |blocks|
      invariant data == Concat(blocks[..i])
    {
      assert blocks[..i + 1][..i] == blocks[..i];
      data := data + blocks[i];
    }
    assert blocks[..|blocks|] == blocks;
  }

  /** What an upload stores: the file of the entries, with the info and the filter that go with it. */
  ghost predicate Uploads(conf: Config, es: seq<Entry>, file: bytes, info: Info, filter: Option<Filter>) {
    var g := FilterOr(filter);
    && (filter.Some? <==> HasFilter(conf, es))
    && (filter.Some? ==> IsFilterOf(g, HashesOf(conf, es), conf.bitsPerKey, conf.numProbes))
    && info == InfoOf(conf, es, g) && file == FileOf(conf, es, g)
  }

  /** A filter is uploaded if and only if there are at least as many keys, as a uint32, as the configuration
      asks for; without one its part of the file is empty. */
  lemma FilterThreshold(conf: Config, es: seq<Entry>, file: bytes, info: Info, filter: Option<Filter>)
    requires Uploads(conf, es, file, info, filter) && Lossless(conf.formats)
    ensures filter.Some? <==> |es| % UINT32 >= conf.minFilterKeys
    ensures info.filterLen > 0 <==> |es| % UINT32 >= conf.minFilterKeys
  {
    hide IsFilterOf, HashesOf, FileOf, DataPart, IndexPart, FilterFile;
    FilterLayout(conf.formats, conf.codec, FilterOr(filter));
  }

  /** An upload is determined by its entries. */
  lemma UploadUnique(conf: Config, es: seq<Entry>, file: bytes, info: Info, filter: Option<Filter>,
                     file': bytes, info': Info, filter': Option<Filter>)
    requires Uploads(conf, es, file, info, filter) && Uploads(conf, es, file', info', filter')
    ensures file == file' && info == info' && filter == filter'
  {
    hide IsFilterOf, FileOf, InfoOf, HashesOf;
    if filter.Some? {
      FilterUnique(filter.value, filter'.value, HashesOf(conf, es), conf.bitsPerKey, conf.numProbes);
    }
  }

  /** Build and upload the blocks of a table that nothing was drained from, in order. */
  method UploadBuilt(builder: SstBuilder) returns (r: Decoded<(bytes, Info, Option<Filter>)>)
    requires builder.Valid() && builder.drained == 0
    modifies builder
    ensures r == Panic <==> FilterFails(builder.conf, old(builder.entries))
    ensures r.Ok? <==> !FilterFails(builder.conf, old(builder.entries))
    ensures r.Ok? ==> Uploads(builder.conf, old(builder.entries), r.value.0, r.value.1, r.value.2)
  {
    hide SstBuilder.Valid, FilterFails, FileOf, InfoOf, IsFilterOf, HashesOf, Concat, DataPart;
    ghost var done := builder.done;
    var built := builder.Build();
    if !built.Ok? {
      return Panic;
    }
    assert done[..0] == [];
    DataPartNone(builder.conf);
    var file := ConcatBlocks(built.value.blocks);
    assert [] + file == file;
    return Ok((file, built.value.info, built.value.filter));
  }

  /** The batch path: add everything, build, and upload the blocks in order. */
  method WriteSst(conf: Config, es: seq<Entry>) returns (r: Decoded<(bytes, Info, Option<Filter>)>)
    requires forall i :: 0 <= i < |es| ==> es[i].key != []
    ensures r == Panic <==> FilterFails(conf, es)
    ensures r.Ok? <==> !FilterFails(conf, es)
    ensures r.Ok? ==> Uploads(conf, es, r.value.0, r.value.1, r.value.2)
  {
    hide SstBuilder.Valid, FilterFails, Uploads;
    var builder := new SstBuilder(conf);
    for i := 0 to |es|
      invariant builder.Valid() && fresh(builder) && fresh(builder.blockBuilder)
      invariant builder.conf == conf && builder.entries == es[..i] && builder.drained == 0
    {
      builder.Add(es[i]);
      assert es[..i + 1] == es[..i] + [es[i]];
    }
    assert es[..|es|] == es;
    r := UploadBuilt(builder);
  }

  /** EncodedSSTableWriter: finished blocks move to the buffer as soon as there are any. */
  class SstWriter {
    const builder: SstBuilder
    var buffer: bytes
    var blocksWritten: nat

    ghost predicate Valid()
      reads this, builder, builder.blockBuilder
    {
      && builder.Valid()
      && builder.drained == |builder.done| && blocksWritten == |builder.done|
      && buffer == DataPart(builder.conf, builder.done)
    }

    constructor (conf: Config)
      ensures Valid() && fresh(builder) && fresh(builder.blockBuilder)
      ensures builder.conf == conf && builder.entries == []
    {
      builder := new SstBuilder(conf);
      buffer := [];
      blocksWritten := 0;
      new;
      var _ := builder.NextBlock();
      EmptyWriter(builder);
    }

    static lemma EmptyWriter(builder: SstBuilder)
      requires builder.Valid() && builder.entries == []
      ensures builder.done == [] && DataPart(builder.conf, builder.done) == []
    {
      DataPartNone(builder.conf);
    }

    /** Add a row, tombstones and empty values alike as tombstones, and drain the builder's queue. */
    method Add(e: Entry)
      requires Valid() && e.key != []
      modifies this, builder, builder.blockBuilder
      ensures Valid() && (builder.blockBuilder == old(builder.blockBuilder) || fresh(builder.blockBuilder))
      ensures builder.entries == old(builder.entries) + [Entry(e.key, Stored(e.value))]
    {
      hide SstBuilder.Valid, DataPart, BlockFile;
      ghost var written := builder.done;
      match e.value {
        case Tombstone => builder.AddValue(e.key, []);
        case Present(data) => builder.AddValue(e.key, data);
      }
      assert builder.done[..builder.drained] == written;
      while true
        invariant builder.Valid() && builder.drained <= |builder.done| && blocksWritten == builder.drained
        invariant builder.blockBuilder == old(builder.blockBuilder) || fresh(builder.blockBuilder)
        invariant builder.entries == old(builder.entries) + [Entry(e.key, Stored(e.value))]
        invariant buffer == DataPart(builder.conf, builder.done[..builder.drained])
        decreases |builder.done| - builder.drained
      {
        var block := builder.NextBlock();
        if block.None? {
          break;
        }
        ghost var n := builder.drained - 1;
        assert builder.done[..n + 1] == builder.done[..n] + [builder.done[n]];
        DataPartConcat(builder.conf, builder.done[..n], [builder.done[n]]);
        DataPartOne(builder.conf, builder.done[n]);
        buffer := buffer + block.value;
        blocksWritten := blocksWritten + 1;
      }
      assert builder.done[..|builder.done|] == builder.done;
    }

    /** Close uploads, byte for byte, what the batch path uploads for the same rows. */
    method Close() returns (r: Decoded<(bytes, Info, Option<Filter>)>)
      requires Valid()
      modifies builder
      ensures r == Panic <==> FilterFails(builder.conf, old(builder.entries))
      ensures r.Ok? <==> !FilterFails(builder.conf, old(builder.entries))
      ensures r.Ok? ==> Uploads(builder.conf, old(builder.entries), r.value.0, r.value.1, r.value.2)
    {
      hide SstBuilder.Valid, FilterFails, FileOf, InfoOf, IsFilterOf, HashesOf, Concat, DataPart;
      assert builder.done[..builder.drained] == builder.done;
      var built := builder.Build();
      if !built.Ok? {
        return Panic;
      }
      var rest := ConcatBlocks(built.value.blocks);
      return Ok((buffer + rest, built.value.info, built.value.filter));
    }
  }
}
