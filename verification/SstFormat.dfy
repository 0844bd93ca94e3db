/** The byte format of an SST: what a builder lays out (internal/sstable/builder.go) and what a reader
    takes from it (internal/sstable/decode.go, internal/sstable/flatbuf.go).
 */
module SstFormat {
  import opened Tables
  import opened Keys
  import opened Rows
  import opened Formats
  import opened Blocks
  import opened Bloom

  /** How SSTs are written; `hash` and `numProbes` are the filter's. */
  datatype Config = Config(
    formats: Formats, codec: nat, blockSize: nat, minFilterKeys: nat,
    bitsPerKey: nat, numProbes: nat, hash: bytes -> nat)

  ghost predicate ConfigOk(conf: Config) {
    Lossless(conf.formats) && conf.blockSize < UINT16 && conf.numProbes < UINT16
  }

  // ---------------------------------------------------------------- the division into blocks

  /** The finished blocks and the block being filled. */
  datatype Parts = Parts(done: seq<seq<Entry>>, cur: seq<Entry>)

  function AddTo(p: Parts, e: Entry, blockSize: nat): Parts {
    if Accepts(p.cur, e, blockSize) then p.(cur := p.cur + [e]) else Parts(p.done + [p.cur], [e])
  }

  function PartsOf(es: seq<Entry>, blockSize: nat): Parts {
    if es == [] then Parts([], []) else AddTo(PartsOf(es[..|es| - 1], blockSize), es[|es| - 1], blockSize)
  }

  function BlocksOf(es: seq<Entry>, blockSize: nat): seq<seq<Entry>> {
    var p := PartsOf(es, blockSize);
    if p.cur == [] then p.done else p.done + [p.cur]
  }

  ghost predicate BlocksOk(blocks: seq<seq<Entry>>, blockSize: nat) {
    forall i :: 0 <= i < |blocks| ==> blocks[i] != [] && FitsBlock(blocks[i], blockSize)
  }

  ghost predicate PartsOk(p: Parts, es: seq<Entry>, blockSize: nat) {
    && BlocksOk(p.done, blockSize) && FitsBlock(p.cur, blockSize)
    && Concat(p.done) + p.cur == es
    && (p.cur == [] ==> p.done == [])
  }

  lemma AddHolds(p: Parts, es: seq<Entry>, e: Entry, blockSize: nat)
    requires PartsOk(p, es, blockSize)
    ensures PartsOk(AddTo(p, e, blockSize), es + [e], blockSize)
  {
    hide BlockLen;
    if Accepts(p.cur, e, blockSize) {
      assert Concat(p.done) + (p.cur + [e]) == es + [e];
    } else {
      assert (p.done + [p.cur])[..|p.done|] == p.done;
      assert Concat(p.done + [p.cur]) == es;
    }
  }

  /** Every block but the one being filled is non-empty and fits; nothing is lost or reordered. */
  lemma {:induction false} PartsHold(es: seq<Entry>, blockSize: nat)
    ensures PartsOk(PartsOf(es, blockSize), es, blockSize)
  {
    hide PartsOk, AddTo;
    if es == [] {
      NoParts(blockSize);
    } else {
      var n := |es| - 1;
      PartsHold(es[..n], blockSize);
      AddHolds(PartsOf(es[..n], blockSize), es[..n], es[n], blockSize);
      assert es == es[..n] + [es[n]];
    }
  }

  lemma NoParts(blockSize: nat)
    ensures PartsOk(Parts([], []), [], blockSize)
  {}

  lemma BlocksHold(es: seq<Entry>, blockSize: nat)
    ensures BlocksOk(BlocksOf(es, blockSize), blockSize)
    ensures Concat(BlocksOf(es, blockSize)) == es
    ensures BlocksOf(es, blockSize) == [] <==> es == []
  {
    hide FitsBlock, PartsOf;
    PartsHold(es, blockSize);
    var p := PartsOf(es, blockSize);
    if p.cur != [] {
      ConcatSnoc(p.done, p.cur);
    }
  }

  /** A block ends where the next row, the first of the block after it, would make its body too long. */
  ghost predicate Ended(block: seq<Entry>, next: seq<Entry>, blockSize: nat) {
    block != [] && next != [] && |Body(BlockOf(block + [next[0]]))| > blockSize
  }

  ghost predicate BlocksFull(blocks: seq<seq<Entry>>, blockSize: nat) {
    forall i, j :: 0 <= i < j < |blocks| && j == i + 1 ==> Ended(blocks[i], blocks[j], blockSize)
  }

  lemma FullSnoc(blocks: seq<seq<Entry>>, block: seq<Entry>, blockSize: nat)
    requires BlocksFull(blocks, blockSize) && blocks != [] && Ended(blocks[|blocks| - 1], block, blockSize)
    ensures BlocksFull(blocks + [block], blockSize)
  {
    hide Ended;
  }

  lemma FullGrows(blocks: seq<seq<Entry>>, cur: seq<Entry>, e: Entry, blockSize: nat)
    requires BlocksFull(blocks + [cur], blockSize) && cur != []
    ensures BlocksFull(blocks + [cur + [e]], blockSize)
  {
    hide Body, BlockOf;
    var was, now := blocks + [cur], blocks + [cur + [e]];
    forall i, j | 0 <= i < j < |now| && j == i + 1 ensures Ended(now[i], now[j], blockSize) {
      assert Ended(was[i], was[j], blockSize);
    }
  }

  lemma {:induction false} PartsFull(es: seq<Entry>, blockSize: nat)
    ensures var p := PartsOf(es, blockSize);
            if p.cur == [] then p.done == [] else BlocksFull(p.done + [p.cur], blockSize)
  {
    hide Body, BlockOf, Accepts, BlocksFull;
    if es != [] {
      var n := |es| - 1;
      PartsFull(es[..n], blockSize);
      var p, e := PartsOf(es[..n], blockSize), es[n];
      AcceptsExact(p.cur, e, blockSize);
      if p.cur == [] {
        OneBlockFull(p.cur + [e], blockSize);
      } else if Accepts(p.cur, e, blockSize) {
        FullGrows(p.done, p.cur, e, blockSize);
      } else {
        FullSnoc(p.done + [p.cur], [e], blockSize);
      }
    }
  }

  lemma OneBlockFull(block: seq<Entry>, blockSize: nat)
    ensures BlocksFull([] + [block], blockSize) && BlocksFull([], blockSize)
  {}

  /** Blocks are filled as far as they go: each but the last is ended by a row that would take its encoded body
      over the block size, and no body of more than one row is over it. */
  lemma BlocksAreFull(es: seq<Entry>, blockSize: nat)
    ensures var blocks := BlocksOf(es, blockSize);
            && BlocksFull(blocks, blockSize)
            && forall i :: 0 <= i < |blocks| && |blocks[i]| > 1 ==> |Body(BlockOf(blocks[i]))| <= blockSize
  {
    hide Body, BlockOf, BlocksFull, PartsOf, Concat, DataOf;
    var blocks := BlocksOf(es, blockSize);
    PartsFull(es, blockSize);
    OneBlockFull([], blockSize);
    BlocksHold(es, blockSize);
    forall i | 0 <= i < |blocks| && |blocks[i]| > 1 ensures |Body(BlockOf(blocks[i]))| <= blockSize {
      assert FitsBlock(blocks[i], blockSize);
      BodyLayout(blocks[i], 0);
    }
  }

  lemma ConcatSnoc(blocks: seq<seq<Entry>>, block: seq<Entry>)
    ensures Concat(blocks + [block]) == Concat(blocks) + block
  {
    assert (blocks + [block])[..|blocks|] == blocks;
  }

  // ---------------------------------------------------------------- the parts of the file

  function BlockFile(conf: Config, es: seq<Entry>): bytes {
    BlockBytes(conf.formats, conf.codec, BlockOf(es))
  }

  function BlockFiles(conf: Config, blocks: seq<seq<Entry>>): seq<bytes> {
    seq(|blocks|, i requires 0 <= i < |blocks| => BlockFile(conf, blocks[i]))
  }

  /** The blocks of the file, one after another. */
  function DataPart(conf: Config, blocks: seq<seq<Entry>>): bytes {
    Concat(BlockFiles(conf, blocks))
  }

  /** Where a block starts; the block after the last one would start where the filter does. */
  function StartOf(conf: Config, blocks: seq<seq<Entry>>, i: nat): nat
    requires i <= |blocks|
  {
    |DataPart(conf, blocks[..i])|
  }

  function MetasOf(conf: Config, blocks: seq<seq<Entry>>): seq<BlockMeta> {
    seq(|blocks|, i requires 0 <= i < |blocks| => BlockMeta(StartOf(conf, blocks, i), FirstKeyOf(blocks[i])))
  }

  function HashesOf(conf: Config, es: seq<Entry>): seq<nat> {
    seq<nat>(|es|, i requires 0 <= i < |es| => conf.hash(es[i].key))
  }

  predicate HasFilter(conf: Config, es: seq<Entry>) {
    |es| % UINT32 >= conf.minFilterKeys
  }

  function FilterPart(conf: Config, es: seq<Entry>, filter: Filter): bytes {
    if HasFilter(conf, es) then FilterFile(conf.formats, conf.codec, filter) else []
  }

  function IndexPart(conf: Config, blocks: seq<seq<Entry>>): bytes {
    var f := conf.formats;
    Checksummed(f, f.compress(conf.codec, f.encodeIndex(MetasOf(conf, blocks))))
  }

  function InfoOf(conf: Config, es: seq<Entry>, filter: Filter): Info {
    var blocks := BlocksOf(es, conf.blockSize);
    var dataLen, filterLen := |DataPart(conf, blocks)|, |FilterPart(conf, es, filter)|;
    Info(FirstKeyOf(es), dataLen + filterLen, |IndexPart(conf, blocks)|, dataLen, filterLen, conf.codec)
  }

  function InfoPart(conf: Config, es: seq<Entry>, filter: Filter): bytes {
    Checksummed(conf.formats, conf.formats.encodeInfo(InfoOf(conf, es, filter)))
  }

  function MetaOffset(conf: Config, es: seq<Entry>, filter: Filter): nat {
    InfoOf(conf, es, filter).indexOffset + InfoOf(conf, es, filter).indexLen
  }

  /** What follows the blocks: filter, index, info, and the offset of the info. */
  function TailOf(conf: Config, es: seq<Entry>, filter: Filter): bytes {
    FilterPart(conf, es, filter) + IndexPart(conf, BlocksOf(es, conf.blockSize)) + InfoPart(conf, es, filter)
    + PutU32(MetaOffset(conf, es, filter) % UINT32)
  }

  function FileOf(conf: Config, es: seq<Entry>, filter: Filter): bytes {
    DataPart(conf, BlocksOf(es, conf.blockSize)) + TailOf(conf, es, filter)
  }

  /** The file of these entries. Its filter, if it has one, is the filter of their keys. */
  ghost predicate IsFile(conf: Config, es: seq<Entry>, filter: Filter, file: bytes) {
    && ConfigOk(conf)
    && (HasFilter(conf, es) ==> IsFilterOf(filter, HashesOf(conf, es), conf.bitsPerKey, conf.numProbes))
    && file == FileOf(conf, es, filter)
  }

  lemma FivePartsAt(a: bytes, b: bytes, c: bytes, d: bytes, e: bytes)
    ensures var s := a + (b + c + d + e); var i, j, k, n := |a|, |a| + |b|, |a| + |b| + |c|, |s| - |e|;
            && 0 <= k <= n && s[..i] == a && s[i..j] == b && s[j..k] == c && s[k..n] == d && s[n..] == e
  {
    var s := a + (b + c + d + e);
    assert s == a + b + c + d + e;
    assert s[..|a| + |b|] == a + b && s[..|a| + |b| + |c|] == a + b + c;
  }

  /** The file ends in the offset of its info, the high byte first; the filter, the index and the info stand
      behind the blocks in this order. */
  lemma FileLayout(conf: Config, es: seq<Entry>, filter: Filter)
    ensures var file, info := FileOf(conf, es, filter), InfoOf(conf, es, filter);
            var blocks := BlocksOf(es, conf.blockSize); var meta := info.indexOffset + info.indexLen;
            && info.filterOffset == |DataPart(conf, blocks)| && info.indexOffset == info.filterOffset + info.filterLen
            && |file| >= meta + 4 && Number(file[|file| - 4..]) == meta % UINT32
            && file[..info.filterOffset] == DataPart(conf, blocks)
            && file[info.filterOffset..info.indexOffset] == FilterPart(conf, es, filter)
            && file[info.indexOffset..meta] == IndexPart(conf, blocks)
            && file[meta..|file| - 4] == InfoPart(conf, es, filter)
  {
    hide DataPart, FilterPart, IndexPart, InfoPart, BlocksOf, PutU32, Number;
    var meta := MetaOffset(conf, es, filter);
    var blocks := BlocksOf(es, conf.blockSize);
    BigEndian(meta % UINT32);
    FivePartsAt(DataPart(conf, blocks), FilterPart(conf, es, filter), IndexPart(conf, blocks),
                InfoPart(conf, es, filter), PutU32(meta % UINT32));
  }

  // ---------------------------------------------------------------- positions

  lemma DataPartConcat(conf: Config, a: seq<seq<Entry>>, b: seq<seq<Entry>>)
    ensures DataPart(conf, a + b) == DataPart(conf, a) + DataPart(conf, b)
  {
    hide BlockFile;
    assert BlockFiles(conf, a + b) == BlockFiles(conf, a) + BlockFiles(conf, b);
    ConcatAppend(BlockFiles(conf, a), BlockFiles(conf, b));
  }

  lemma DataPartOne(conf: Config, block: seq<Entry>)
    ensures DataPart(conf, [block]) == BlockFile(conf, block)
  {
    hide BlockFile;
    var files := BlockFiles(conf, [block]);
    assert files == [BlockFile(conf, block)] && files[..0] == [];
    assert Concat(files) == Concat(files[..0]) + files[0];
  }

  /** The index tiles the blocks: each block ends where the next one starts, the first starts at 0 and
      the last ends at the filter; and what lies between is the block. */
  lemma IndexTiles(conf: Config, blocks: seq<seq<Entry>>, i: nat)
    requires i < |blocks|
    ensures StartOf(conf, blocks, 0) == 0 && StartOf(conf, blocks, |blocks|) == |DataPart(conf, blocks)|
    ensures StartOf(conf, blocks, i) <= StartOf(conf, blocks, i + 1) <= |DataPart(conf, blocks)|
    ensures DataPart(conf, blocks)[StartOf(conf, blocks, i)..StartOf(conf, blocks, i + 1)]
         == BlockFile(conf, blocks[i])
  {
    hide BlockFile, BlockFiles, DataPart;
    assert blocks[..0] == [] && blocks[..|blocks|] == blocks;
    DataPartNone(conf);
    assert blocks[..i + 1] == blocks[..i] + [blocks[i]];
    DataPartConcat(conf, blocks[..i], [blocks[i]]);
    DataPartOne(conf, blocks[i]);
    assert blocks == blocks[..i + 1] + blocks[i + 1..];
    DataPartConcat(conf, blocks[..i + 1], blocks[i + 1..]);
  }

  lemma DataPartNone(conf: Config)
    ensures DataPart(conf, []) == []
  {}

  // ---------------------------------------------------------------- reading

  /** A range read from the object; a range outside it fails. */
  function ReadRange(file: bytes, start: nat, end: nat): Decoded<bytes> {
    if start <= end <= |file| then Ok(file[start..end]) else Corrupt
  }

  function ReadInfo(f: Formats, file: bytes): Decoded<Info> {
    if |file| <= 4 then Corrupt else
    var metadata := ReadRange(file, U32(file[|file| - 4..]), |file| - 4);
    if !metadata.Ok? || |metadata.value| <= 4 || Payload(f, metadata.value).None? then Corrupt
    else Ok(f.decodeInfo(metadata.value))
  }

  function ReadIndex(f: Formats, info: Info, file: bytes): Decoded<seq<BlockMeta>> {
    var indexBytes := ReadRange(file, info.indexOffset, info.indexOffset + info.indexLen);
    if !indexBytes.Ok? || |indexBytes.value| <= 4 then Corrupt else
    var compressed := Payload(f, indexBytes.value);
    if compressed.None? then Corrupt else
    var buf := f.decompress(info.codec, compressed.value);
    if buf.None? then Corrupt else Ok(f.decodeIndex(buf.value))
  }

  function ReadFilter(f: Formats, info: Info, file: bytes): Decoded<Option<Filter>> {
    if info.filterLen < 1 then Ok(None) else
    var filterBytes := ReadRange(file, info.filterOffset, info.filterOffset + info.filterLen);
    if !filterBytes.Ok? then Corrupt else
    match DecodeFilter(f, info.codec, filterBytes.value)
    case Ok(filter) => Ok(Some(filter))
    case Corrupt => Corrupt
    case Panic => Panic
  }

  /** The offset of the info is stored in four bytes, so it has to fit them. */
  lemma ReadInfoBack(conf: Config, es: seq<Entry>, filter: Filter, file: bytes)
    requires IsFile(conf, es, filter, file) && MetaOffset(conf, es, filter) < UINT32
    ensures ReadInfo(conf.formats, file) == Ok(InfoOf(conf, es, filter))
  {
    hide PutU32, U32, Checksummed, Payload, DataPart, FilterPart, IndexPart, BlocksOf;
    var f, info := conf.formats, InfoOf(conf, es, filter);
    var front := DataPart(conf, BlocksOf(es, conf.blockSize)) + FilterPart(conf, es, filter)
                 + IndexPart(conf, BlocksOf(es, conf.blockSize));
    var part, at := InfoPart(conf, es, filter), MetaOffset(conf, es, filter);
    assert |front| == at;
    assert file[|file| - 4..] == PutU32(at) == PutU32(at) + [];
    U32Inverse(at, []);
    assert file[at..|file| - 4] == part;
    ChecksumInverse(f, f.encodeInfo(info));
    ChecksummedIs(f, f.encodeInfo(info));
    assert f.decodeInfo(part) == info;
  }

  lemma ChecksummedIs(f: Formats, b: bytes)
    ensures Checksummed(f, b) == b + PutU32(f.crc(b) % UINT32)
  {}

  lemma ReadIndexBack(conf: Config, es: seq<Entry>, filter: Filter, file: bytes)
    requires IsFile(conf, es, filter, file)
    ensures ReadIndex(conf.formats, InfoOf(conf, es, filter), file)
         == Ok(MetasOf(conf, BlocksOf(es, conf.blockSize)))
  {
    hide PutU32, Checksummed, Payload, DataPart, FilterPart, BlocksOf, InfoPart, MetasOf;
    var f, info, blocks := conf.formats, InfoOf(conf, es, filter), BlocksOf(es, conf.blockSize);
    var front, index := DataPart(conf, blocks) + FilterPart(conf, es, filter), IndexPart(conf, blocks);
    assert file[info.indexOffset..info.indexOffset + info.indexLen] == index;
    ChecksumInverse(f, f.compress(conf.codec, f.encodeIndex(MetasOf(conf, blocks))));
  }

  lemma ReadFilterBack(conf: Config, es: seq<Entry>, filter: Filter, file: bytes)
    requires IsFile(conf, es, filter, file)
    ensures ReadFilter(conf.formats, InfoOf(conf, es, filter), file)
         == Ok(if HasFilter(conf, es) then Some(filter) else None)
  {
    hide PutU32, Checksummed, DataPart, BlocksOf, InfoPart, IndexPart, FilterFile, DecodeFilter, HashesOf;
    var f, info, blocks := conf.formats, InfoOf(conf, es, filter), BlocksOf(es, conf.blockSize);
    if HasFilter(conf, es) {
      assert filter.numProbes < UINT16;
      FilterRoundTrip(f, conf.codec, filter);
      assert file[info.filterOffset..info.filterOffset + info.filterLen] == FilterPart(conf, es, filter);
    }
  }

  // ---------------------------------------------------------------- blocks

  /** getBlockRange */
  function BlockRange(info: Info, index: seq<BlockMeta>, start: nat, end: nat): (nat, nat)
    requires start < |index|
  {
    (index[start].offset, if end < |index| then index[end].offset else info.filterOffset)
  }

  /** ReadBlocks: one range read, cut into the blocks start up to end - 1. */
  method ReadBlocks(f: Formats, info: Info, index: seq<BlockMeta>, start: nat, end: nat, file: bytes,
                    ghost conf: Config, ghost es: seq<Entry>, ghost filter: Filter)
    returns (r: Decoded<seq<Block>>)
    requires IsFile(conf, es, filter, file) && EntriesFit(es) && f == conf.formats
    requires info == InfoOf(conf, es, filter) && index == MetasOf(conf, BlocksOf(es, conf.blockSize))
    ensures r.Ok? <==> start < end <= |index|
    ensures r.Ok? ==> |r.value| == end - start
    ensures r.Ok? ==> forall j :: 0 <= j < end - start ==> Holds(r.value[j], BlocksOf(es, conf.blockSize)[start + j])
  {
    hide IsFile, InfoOf, BlocksOf, Holds, DecodeBlock, StartOf, BlockFile, DataPart, MetasOf;
    MetasAre(conf, BlocksOf(es, conf.blockSize));
    if start >= end || end > |index| {
      return Corrupt;
    }
    ghost var blocks := BlocksOf(es, conf.blockSize);
    FileHasData(conf, es, filter, file);
    var (lo, hi) := BlockRange(info, index, start, end);
    BlockSlice(conf, blocks, file, start, start, end);
    var dataBytes := file[lo..hi];
    var decoded: seq<Block> := [];
    for i := start to end
      invariant |decoded| == i - start
      invariant forall j :: 0 <= j < i - start ==> Holds(decoded[j], blocks[start + j])
    {
      var blockBytes := CutBlock(index, i, lo, dataBytes, conf, blocks, file, start, end);
      BlockReadBack(conf, es, filter, file, i);
      var block := DecodeBlock(f, info.codec, blockBytes);
      if !block.Ok? {
        return Corrupt;
      }
      decoded := decoded + [block.value];
    }
    return Ok(decoded);
  }

  /** The bytes of one block of a range read. */
  method CutBlock(index: seq<BlockMeta>, i: nat, lo: nat, dataBytes: bytes, ghost conf: Config,
                  ghost blocks: seq<seq<Entry>>, ghost file: bytes, ghost start: nat, ghost end: nat)
    returns (b: bytes)
    requires start <= i < end <= |blocks| && index == MetasOf(conf, blocks)
    requires |DataPart(conf, blocks)| <= |file| && file[..|DataPart(conf, blocks)|] == DataPart(conf, blocks)
    requires lo == StartOf(conf, blocks, start) <= StartOf(conf, blocks, end) <= |file|
    requires dataBytes == file[lo..StartOf(conf, blocks, end)]
    ensures b == BlockFile(conf, blocks[i])
  {
    hide StartOf, BlockFile, DataPart, MetasOf;
    MetasAre(conf, blocks);
    BlockSlice(conf, blocks, file, i, start, end);
    var bytesStart := index[i].offset - lo;
    if i == |index| - 1 {
      return dataBytes[bytesStart..];
    }
    return dataBytes[bytesStart..index[i + 1].offset - lo];
  }

  lemma MetasAre(conf: Config, blocks: seq<seq<Entry>>)
    ensures |MetasOf(conf, blocks)| == |blocks|
    ensures forall i :: 0 <= i < |blocks| ==>
              MetasOf(conf, blocks)[i] == BlockMeta(StartOf(conf, blocks, i), FirstKeyOf(blocks[i]))
  {}

  /** A block inside a range read over the blocks start up to end - 1. */
  lemma BlockSlice(conf: Config, blocks: seq<seq<Entry>>, file: bytes, i: nat, start: nat, end: nat)
    requires start <= i < end <= |blocks|
    requires |DataPart(conf, blocks)| <= |file| && file[..|DataPart(conf, blocks)|] == DataPart(conf, blocks)
    ensures var lo, hi := StartOf(conf, blocks, start), StartOf(conf, blocks, end);
            var a, b := StartOf(conf, blocks, i), StartOf(conf, blocks, i + 1);
            && lo <= a <= b <= hi <= |file|
            && StartOf(conf, blocks, |blocks|) == |DataPart(conf, blocks)|
            && file[lo..hi][a - lo..b - lo] == BlockFile(conf, blocks[i])
            && (i == |blocks| - 1 ==> file[lo..hi][a - lo..] == BlockFile(conf, blocks[i]))
  {
    hide DataPart, StartOf, BlockFile;
    RangeOfBlocks(conf, blocks, start, i);
    RangeOfBlocks(conf, blocks, i + 1, end);
    IndexTiles(conf, blocks, i);
    var lo, hi := StartOf(conf, blocks, start), StartOf(conf, blocks, end);
    var a, b := StartOf(conf, blocks, i), StartOf(conf, blocks, i + 1);
    var data := DataPart(conf, blocks);
    SliceOfSlice(file, lo, hi, a, b);
    SliceOfSlice(file, 0, |data|, a, b);
    assert file[0..|data|] == data;
    if i == |blocks| - 1 {
      assert b == hi && file[lo..hi][a - lo..] == file[lo..hi][a - lo..b - lo];
    }
  }

  lemma SliceOfSlice(s: bytes, lo: nat, hi: nat, a: nat, b: nat)
    requires lo <= a <= b <= hi <= |s|
    ensures s[lo..hi][a - lo..b - lo] == s[a..b]
  {
    forall k | 0 <= k < b - a ensures s[lo..hi][a - lo..b - lo][k] == s[a..b][k] {
      assert s[lo..hi][a - lo..b - lo][k] == s[lo..hi][a - lo + k];
    }
  }

  lemma FileHasData(conf: Config, es: seq<Entry>, filter: Filter, file: bytes)
    requires IsFile(conf, es, filter, file)
    ensures var data := DataPart(conf, BlocksOf(es, conf.blockSize));
            |data| <= |file| && file[..|data|] == data
            && InfoOf(conf, es, filter).filterOffset == |data| && InfoOf(conf, es, filter).codec == conf.codec
  {
    hide DataPart, FilterPart, IndexPart, InfoPart, BlocksOf;
  }

  lemma RangeOfBlocks(conf: Config, blocks: seq<seq<Entry>>, i: nat, j: nat)
    requires i <= j <= |blocks|
    ensures StartOf(conf, blocks, i) <= StartOf(conf, blocks, j) <= |DataPart(conf, blocks)|
    ensures StartOf(conf, blocks, |blocks|) == |DataPart(conf, blocks)|
  {
    hide DataPart;
    assert blocks[..j] == blocks[..i] + blocks[i..j];
    DataPartConcat(conf, blocks[..i], blocks[i..j]);
    assert blocks == blocks[..j] + blocks[j..];
    DataPartConcat(conf, blocks[..j], blocks[j..]);
    assert blocks[..|blocks|] == blocks;
  }

  lemma {:induction false} ConcatMembers(blocks: seq<seq<Entry>>, i: nat)
    requires i < |blocks| && EntriesFit(Concat(blocks))
    ensures EntriesFit(blocks[i])
  {
    hide EntryFits, Concat;
    assert blocks == blocks[..i] + ([blocks[i]] + blocks[i + 1..]);
    ConcatAppend(blocks[..i], [blocks[i]] + blocks[i + 1..]);
    ConcatAppend([blocks[i]], blocks[i + 1..]);
    ConcatOne(blocks[i]);
    var all, before := Concat(blocks), Concat(blocks[..i]);
    forall k | 0 <= k < |blocks[i]| ensures EntryFits(blocks[i][k]) {
      assert all[|before| + k] == blocks[i][k];
    }
  }

  lemma ConcatOne(block: seq<Entry>)
    ensures Concat([block]) == block
  {
    assert [block][..0] == [];
    assert Concat([block]) == Concat([block][..0]) + block;
  }

  lemma BlockReadBack(conf: Config, es: seq<Entry>, filter: Filter, file: bytes, i: nat)
    requires IsFile(conf, es, filter, file) && EntriesFit(es) && i < |BlocksOf(es, conf.blockSize)|
    ensures var block := BlocksOf(es, conf.blockSize)[i];
            var r := DecodeBlock(conf.formats, conf.codec, BlockFile(conf, block));
            r.Ok? && Holds(r.value, block)
  {
    hide FileOf, BlocksOf, DecodeBlock, Holds, FitsBlock, EntriesFit, BlockBytes, BlockOf;
    var blocks := BlocksOf(es, conf.blockSize);
    BlocksHold(es, conf.blockSize);
    ConcatMembers(blocks, i);
    BlockRoundTrip(conf.formats, conf.codec, blocks[i], conf.blockSize);
  }
}
