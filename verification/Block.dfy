/** Blocks of prefix-compressed rows: builder, byte format and iterator
    (internal/sstable/block/block.go, internal/sstable/block/iterator.go).
 */
module Formats {
  import opened Tables
  import opened Rows

  datatype BlockMeta = BlockMeta(offset: nat, firstKey: bytes)

  datatype Info = Info(
    firstKey: bytes, indexOffset: nat, indexLen: nat, filterOffset: nat, filterLen: nat, codec: nat)

  /** The formats that come from libraries: compression, CRC-32 and FlatBuffers. */
  datatype Formats = Formats(
    compress: (nat, bytes) -> bytes,
    decompress: (nat, bytes) -> Option<bytes>,
    crc: bytes -> nat,
    encodeIndex: seq<BlockMeta> -> bytes,
    decodeIndex: bytes -> seq<BlockMeta>,
    encodeInfo: Info -> bytes,
    decodeInfo: bytes -> Info)

  /** What is assumed of them: decoding inverts encoding, encodings are not degenerate, a checksum is
      a uint32, and the decoder of an Info ignores what follows it. */
  ghost predicate Lossless(f: Formats) {
    && (forall c, b :: f.decompress(c, f.compress(c, b)) == Some(b))
    && (forall c, b :: |b| >= 2 ==> |f.compress(c, b)| >= 2)
    && (forall b :: f.crc(b) < UINT32)
    && (forall x :: |f.encodeIndex(x)| >= 2 && f.decodeIndex(f.encodeIndex(x)) == x)
    && (forall i, tail :: |f.encodeInfo(i)| >= 1 && f.decodeInfo(f.encodeInfo(i) + tail) == i)
  }

  /** A payload followed by its checksum. */
  function Checksummed(f: Formats, b: bytes): bytes {
    b + PutU32(f.crc(b) % UINT32)
  }

  /** The payload, if the four bytes after it are its checksum. */
  function Payload(f: Formats, b: bytes): Option<bytes>
    requires |b| >= 4
  {
    var payload := b[..|b| - 4];
    if U32(b[|b| - 4..]) == f.crc(payload) then Some(payload) else None
  }

  /** The checksum stands behind the payload, the high byte first. */
  lemma ChecksumAt(f: Formats, b: bytes)
    ensures var sum := Checksummed(f, b);
            |sum| == |b| + 4 && sum[..|b|] == b && Number(sum[|b|..]) == f.crc(b) % UINT32
  {
    hide PutU32;
    BigEndian(f.crc(b) % UINT32);
    assert Checksummed(f, b)[|b|..] == PutU32(f.crc(b) % UINT32);
  }

  lemma ChecksumInverse(f: Formats, b: bytes)
    requires Lossless(f)
    ensures |Checksummed(f, b)| == |b| + 4 && Payload(f, Checksummed(f, b)) == Some(b)
  {
    hide PutU32, U32;
    var sum := Checksummed(f, b);
    assert sum[..|b|] == b && sum[|b|..] == PutU32(f.crc(b));
    assert PutU32(f.crc(b)) == PutU32(f.crc(b)) + [];
    U32Inverse(f.crc(b), []);
  }
}

module Blocks {
  import opened Tables
  import opened Keys
  import opened Rows
  import opened Formats

  datatype Block = Block(firstKey: bytes, data: bytes, offsets: seq<nat>)

  // ---------------------------------------------------------------- the layout

  /** The row of an entry in a block that starts with `first`. */
  function RowOf(first: bytes, e: Entry): Row {
    var p := Lcp(first, e.key) % UINT16;
    Row(p, e.key[p..], 0, ZERO_TIME, ZERO_TIME, e.value)
  }

  function FirstKeyOf(es: seq<Entry>): bytes {
    if es == [] then [] else es[0].key
  }

  /** The rows of a block. The first row has no prefix; the others share one with the first key. */
  function DataOf(es: seq<Entry>): bytes {
    if es == [] then []
    else DataOf(es[..|es| - 1]) + RowBytes(RowOf(FirstKeyOf(es[..|es| - 1]), es[|es| - 1]))
  }

  function OffsetsOf(es: seq<Entry>): (offsets: seq<nat>)
    ensures |offsets| == |es|
  {
    if es == [] then [] else OffsetsOf(es[..|es| - 1]) + [|DataOf(es[..|es| - 1])| % UINT16]
  }

  /** curBlockSize: the count, the offsets and the rows. */
  function BlockLen(es: seq<Entry>): nat {
    2 + 2 * |es| + |DataOf(es)|
  }

  /** A row that would make the block too long is refused, unless it is the first. */
  predicate Accepts(es: seq<Entry>, e: Entry, blockSize: nat) {
    es == [] || BlockLen(es + [e]) <= blockSize
  }

  /** The entries that a builder of this block size can hold. */
  ghost predicate FitsBlock(es: seq<Entry>, blockSize: nat) {
    |es| <= 1 || BlockLen(es) <= blockSize
  }

  ghost predicate EntryFits(e: Entry) {
    0 < |e.key| < UINT16 && (e.value.Present? ==> |e.value.data| < UINT32)
  }

  ghost predicate EntriesFit(es: seq<Entry>) {
    forall i :: 0 <= i < |es| ==> EntryFits(es[i])
  }

  lemma DataOfSnoc(es: seq<Entry>, e: Entry)
    ensures DataOf(es + [e]) == DataOf(es) + RowBytes(RowOf(FirstKeyOf(es), e))
    ensures OffsetsOf(es + [e]) == OffsetsOf(es) + [|DataOf(es)| % UINT16]
  {
    assert (es + [e])[..|es|] == es;
  }

  // ---------------------------------------------------------------- the builder

  class BlockBuilder {
    var offsets: seq<nat>
    var data: bytes
    const blockSize: nat
    var firstKey: bytes
    ghost var entries: seq<Entry>

    ghost predicate Valid()
      reads this
    {
      && data == DataOf(entries) && offsets == OffsetsOf(entries) && firstKey == FirstKeyOf(entries)
      && FitsBlock(entries, blockSize)
      && forall i :: 0 <= i < |entries| ==> entries[i].key != []
    }

    constructor (blockSize: nat)
      ensures Valid() && entries == [] && this.blockSize == blockSize
    {
      this.blockSize := blockSize;
      offsets, data, firstKey, entries := [], [], [], [];
    }

    method Add(e: Entry) returns (added: bool)
      requires Valid() && e.key != []
      modifies this
      ensures Valid()
      ensures added == Accepts(old(entries), e, blockSize)
      ensures entries == if added then old(entries) + [e] else old(entries)
    {
      hide RowBytes, RowSize, Lcp, DataOf, OffsetsOf;
      var prefixLen := ComputePrefixChunks(firstKey, e.key, 128);
      var row := Row(prefixLen, e.key[prefixLen..], 0, ZERO_TIME, ZERO_TIME, e.value);
      assert row == RowOf(firstKey, e);
      DataOfSnoc(entries, e);
      if 2 + |offsets| * 2 + |data| + 2 + RowSize(row) > blockSize && |offsets| != 0 {
        return false;
      }
      offsets := offsets + [|data| % UINT16];
      var encoded := EncodeRow(row);
      data := data + encoded[..];
      if firstKey == [] {
        firstKey := e.key;
      }
      entries := entries + [e];
      return true;
    }

    /** The block, or nothing for an empty builder. */
    method Build() returns (b: Option<Block>)
      requires Valid()
      ensures b == if entries == [] then None
                   else Some(Block(entries[0].key, DataOf(entries), OffsetsOf(entries)))
    {
      if |offsets| == 0 {
        return None;
      }
      return Some(Block(firstKey, data, offsets));
    }
  }

  // ---------------------------------------------------------------- the byte format

  function OffsetBytes(offsets: seq<nat>): (b: bytes)
    ensures |b| == 2 * |offsets|
  {
    if offsets == [] then []
    else OffsetBytes(offsets[..|offsets| - 1]) + PutU16(offsets[|offsets| - 1] % UINT16)
  }

  function Body(b: Block): bytes {
    b.data + OffsetBytes(b.offsets) + PutU16(|b.offsets| % UINT16)
  }

  function BlockBytes(f: Formats, codec: nat, b: Block): bytes {
    Checksummed(f, f.compress(codec, Body(b)))
  }

  lemma {:induction false} OffsetAt(offsets: seq<nat>, i: nat)
    requires i < |offsets|
    ensures Number(OffsetBytes(offsets)[2 * i..2 * i + 2]) == offsets[i] % UINT16
  {
    hide PutU16, Number;
    var n := |offsets| - 1;
    var front, last := OffsetBytes(offsets[..n]), PutU16(offsets[n] % UINT16);
    assert OffsetBytes(offsets) == front + last;
    if i < n {
      OffsetAt(offsets[..n], i);
      assert OffsetBytes(offsets)[2 * i..2 * i + 2] == front[2 * i..2 * i + 2];
    } else {
      assert OffsetBytes(offsets)[2 * n..2 * n + 2] == last;
      BigEndian(offsets[n] % UINT16);
    }
  }

  method EncodeBlock(f: Formats, codec: nat, b: Block) returns (buf: bytes)
    ensures buf == BlockBytes(f, codec, b)
  {
    buf := b.data;
    for i := 0 to |b.offsets|
      invariant buf == b.data + OffsetBytes(b.offsets[..i])
    {
      assert b.offsets[..i + 1][..i] == b.offsets[..i];
      buf := buf + PutU16(b.offsets[i] % UINT16);
    }
    assert b.offsets[..|b.offsets|] == b.offsets;
    buf := buf + PutU16(|b.offsets| % UINT16);
    var compressed := f.compress(codec, buf);
    buf := compressed + PutU32(f.crc(compressed) % UINT32);
  }

  /** The first n offsets, refused if one lies past the rows. */
  function DecodeOffsets(buf: bytes, start: nat, n: nat): (r: Decoded<seq<nat>>)
    requires start + 2 * n <= |buf|
    ensures r.Ok? ==> |r.value| == n
  {
    if n == 0 then Ok([])
    else
      var front := DecodeOffsets(buf, start, n - 1);
      var offset := U16(buf[start + 2 * (n - 1)..]);
      if !front.Ok? then front
      else if offset > start % UINT16 then Corrupt
      else Ok(front.value + [offset])
  }

  /** The key field that Decode reads: it takes the row's prefix length for a key length. */
  function MisreadFirstKey(data: bytes, offset: nat): Decoded<bytes> {
    if |data| < offset + 2 then Panic else
    var lo, hi := (offset + 2) % UINT16, (offset + 2 + U16(data[offset..])) % UINT16;
    if lo <= hi <= |data| then Ok(data[lo..hi]) else Panic
  }

  function DecodeBody(buf: bytes): Decoded<Block> {
    if |buf| < 2 then Corrupt else
    var countIndex := |buf| - 2;
    var count := U16(buf[countIndex..]);
    if countIndex - 2 * count <= 0 then Corrupt else
    var start := countIndex - 2 * count;
    var offsets := DecodeOffsets(buf, start, count);
    if !offsets.Ok? || count == 0 then Corrupt else
    var firstKey := MisreadFirstKey(buf[..start], offsets.value[0]);
    if !firstKey.Ok? then Panic else Ok(Block(firstKey.value, buf[..start], offsets.value))
  }

  function DecodeBlock(f: Formats, codec: nat, input: bytes): Decoded<Block> {
    if |input| < 6 then Corrupt else
    var compressed := Payload(f, input);
    if compressed.None? then Corrupt else
    var buf := f.decompress(codec, compressed.value);
    if buf.None? then Corrupt else DecodeBody(buf.value)
  }

  lemma {:induction false} OffsetsInverse(data: bytes, offsets: seq<nat>, tail: bytes)
    requires forall i :: 0 <= i < |offsets| ==> offsets[i] <= |data| % UINT16
    ensures DecodeOffsets(data + OffsetBytes(offsets) + tail, |data|, |offsets|) == Ok(offsets)
  {
    hide PutU16, U16;
    if offsets != [] {
      var n := |offsets| - 1;
      var last := PutU16(offsets[n]);
      var buf := data + OffsetBytes(offsets) + tail;
      assert OffsetBytes(offsets) == OffsetBytes(offsets[..n]) + last;
      OffsetsInverse(data, offsets[..n], last + tail);
      assert buf == data + OffsetBytes(offsets[..n]) + (last + tail);
      assert buf[|data| + 2 * n..] == last + tail;
      U16Inverse(offsets[n], tail);
      assert offsets == offsets[..n] + [offsets[n]];
    }
  }

  lemma BodyInverse(b: Block)
    requires 0 < |b.offsets| < UINT16 && |b.data| >= 2
    requires forall i :: 0 <= i < |b.offsets| ==> b.offsets[i] <= |b.data| % UINT16
    requires b.offsets[0] == 0 && U16(b.data) == 0
    ensures DecodeBody(Body(b)) == Ok(b.(firstKey := []))
  {
    hide PutU16, U16, OffsetBytes, DecodeOffsets, MisreadFirstKey;
    var buf, n := Body(b), |b.offsets|;
    var count := PutU16(n);
    assert buf[|buf| - 2..] == count == count + [];
    U16Inverse(n, []);
    OffsetsInverse(b.data, b.offsets, count);
    assert buf[..|b.data|] == b.data;
    MisreadEmpty(b.data);
  }

  lemma MisreadEmpty(data: bytes)
    requires |data| >= 2 && U16(data) == 0
    ensures MisreadFirstKey(data, 0) == Ok([])
  {
    assert data[0..] == data && data[2..2] == [];
  }

  // ---------------------------------------------------------------- the round trip

  /** A block that holds these entries, whatever it records as its first key. */
  ghost predicate Holds(b: Block, es: seq<Entry>) {
    && es != [] && EntriesFit(es)
    && b.data == DataOf(es)
    && |b.offsets| == |es|
    && forall i :: 0 <= i < |es| ==> b.offsets[i] == |DataOf(es[..i])|
  }

  lemma {:induction false} DataGrows(es: seq<Entry>, i: nat)
    requires i <= |es|
    ensures |DataOf(es[..i])| + 13 * (|es| - i) <= |DataOf(es)|
    decreases |es| - i
  {
    hide DataOf, RowOf, RowBytes;
    if i == |es| {
      assert es[..i] == es;
    } else {
      DataGrows(es, i + 1);
      assert es[..i + 1] == es[..i] + [es[i]];
      DataOfSnoc(es[..i], es[i]);
    }
  }

  lemma {:induction false} OffsetsAt(es: seq<Entry>, i: nat)
    requires i < |es|
    ensures OffsetsOf(es)[i] == |DataOf(es[..i])| % UINT16
  {
    hide DataOf;
    var n := |es| - 1;
    assert OffsetsOf(es) == OffsetsOf(es[..n]) + [|DataOf(es[..n])| % UINT16];
    if i < n {
      OffsetsAt(es[..n], i);
      assert es[..n][..i] == es[..i];
    }
  }

  /** No offset is truncated: only the first row can be oversized, and its offset is 0. */
  lemma OffsetsExact(es: seq<Entry>, blockSize: nat, i: nat)
    requires FitsBlock(es, blockSize) && blockSize < UINT16 && i < |es|
    ensures OffsetsOf(es)[i] == |DataOf(es[..i])| <= |DataOf(es)| % UINT16
  {
    hide DataOf, OffsetsOf;
    OffsetsAt(es, i);
    DataGrows(es, i);
    if i == 0 {
      assert es[..0] == [];
      DataOfNothing();
    }
  }

  lemma DataOfNothing()
    ensures DataOf([]) == []
  {}

  lemma {:induction false} FirstRowHasNoPrefix(es: seq<Entry>)
    requires es != []
    ensures |DataOf(es)| >= 13 && U16(DataOf(es)) == 0
    ensures OffsetsOf(es)[0] == 0
  {
    var n := |es| - 1;
    if n == 0 {
      assert es[..0] == [];
      var row := RowOf([], es[0]);
      assert DataOf(es) == RowBytes(row);
      assert row.prefixLen == 0;
    } else {
      FirstRowHasNoPrefix(es[..n]);
    }
  }

  /** The block that a builder delivers. */
  function BlockOf(es: seq<Entry>): Block {
    Block(FirstKeyOf(es), DataOf(es), OffsetsOf(es))
  }

  lemma BodySlices(b: Block, i: nat)
    requires i < |b.offsets|
    ensures var body, n, k := Body(b), |b.data|, |b.offsets|;
            && |body| == n + 2 * k + 2 && body[..n] == b.data
            && Number(body[|body| - 2..]) == k % UINT16
            && Number(body[n + 2 * i..n + 2 * i + 2]) == b.offsets[i] % UINT16
  {
    hide OffsetBytes, PutU16, Number;
    var body, n, k := Body(b), |b.data|, |b.offsets|;
    var offsets, count := OffsetBytes(b.offsets), PutU16(k % UINT16);
    assert body == b.data + offsets + count;
    assert body[|body| - 2..] == count;
    BigEndian(k % UINT16);
    OffsetAt(b.offsets, i);
    assert body[n + 2 * i..n + 2 * i + 2] == offsets[2 * i..2 * i + 2];
  }

  /** The encoded body of a built block: the rows one after another, where each starts, and how many there
      are. Every row stores as its prefix what it shares with the first key. */
  lemma BodyLayout(es: seq<Entry>, i: nat)
    requires i < |es|
    ensures var b, n, start := Body(BlockOf(es)), |DataOf(es)|, |DataOf(es[..i])|; var first := FirstKeyOf(es[..i]);
            var row := RowBytes(RowOf(first, es[i]));
            && |b| == n + 2 * |es| + 2 && |row| >= 13
            && Number(b[|b| - 2..]) == |es| % UINT16
            && Number(b[n + 2 * i..n + 2 * i + 2]) == start % UINT16
            && start + |row| <= n && b[start..start + |row|] == row
            && Number(row[0..2]) == Lcp(first, es[i].key) % UINT16
  {
    hide DataOf, OffsetsOf, Body, Number, RowBytes, Lcp;
    BodySlices(BlockOf(es), i);
    OffsetsAt(es, i);
    var rest := RowInData(es, i);
    RowHead(RowOf(FirstKeyOf(es[..i]), es[i]));
    var b, n, start := Body(BlockOf(es)), |DataOf(es)|, |DataOf(es[..i])|;
    var row := RowBytes(RowOf(FirstKeyOf(es[..i]), es[i]));
    assert b[start..start + |row|] == b[..n][start..][..|row|] == (row + rest)[..|row|];
  }

  /** A builder refuses a row if and only if it holds one already and the encoded body with the row would be
      longer than the block size. */
  lemma AcceptsExact(es: seq<Entry>, e: Entry, blockSize: nat)
    ensures !Accepts(es, e, blockSize) <==> es != [] && |Body(BlockOf(es + [e]))| > blockSize
  {
    BodyLayout(es + [e], |es|);
  }

  /** Encoding and decoding a built block restores its rows and its offsets, none of them truncated.
      The first key is not restored: Decode always reads it as empty. */
  lemma BlockRoundTrip(f: Formats, codec: nat, es: seq<Entry>, blockSize: nat)
    requires Lossless(f) && es != [] && EntriesFit(es)
    requires FitsBlock(es, blockSize) && blockSize < UINT16
    ensures DecodeBlock(f, codec, BlockBytes(f, codec, BlockOf(es))) == Ok(BlockOf(es).(firstKey := []))
    ensures Holds(BlockOf(es).(firstKey := []), es)
  {
    hide DataOf, OffsetsOf, Body, DecodeBody, Checksummed, Payload;
    var b := BlockOf(es);
    forall i | 0 <= i < |es|
      ensures b.offsets[i] == |DataOf(es[..i])| <= |b.data| % UINT16
    {
      OffsetsExact(es, blockSize, i);
    }
    FirstRowHasNoPrefix(es);
    DataGrows(es, 0);
    BodyLen(b);
    BodyInverse(b);
    var compressed := f.compress(codec, Body(b));
    ChecksumInverse(f, compressed);
  }

  lemma BodyLen(b: Block)
    ensures |Body(b)| == |b.data| + 2 * |b.offsets| + 2
  {}

  // ---------------------------------------------------------------- one row of a block

  lemma {:induction false} RowInData(es: seq<Entry>, i: nat) returns (rest: bytes)
    requires i < |es|
    ensures |DataOf(es[..i])| <= |DataOf(es)|
    ensures DataOf(es)[|DataOf(es[..i])|..] == RowBytes(RowOf(FirstKeyOf(es[..i]), es[i])) + rest
  {
    hide RowBytes, RowOf, FirstKeyOf;
    var n := |es| - 1;
    var row := RowBytes(RowOf(FirstKeyOf(es[..n]), es[n]));
    assert DataOf(es) == DataOf(es[..n]) + row;
    if i == n {
      rest := [];
      assert row + [] == row;
    } else {
      var rest0 := RowInData(es[..n], i);
      assert es[..n][..i] == es[..i];
      rest := rest0 + row;
      var at := |DataOf(es[..i])|;
      assert DataOf(es)[at..] == DataOf(es[..n])[at..] + row;
    }
  }

  lemma RowFitsOf(first: bytes, e: Entry)
    requires EntryFits(e) && |first| < UINT16
    ensures RowFits(RowOf(first, e)) && Restored(RowOf(first, e)) == RowOf(first, e)
    ensures RowOf(first, e).prefixLen <= |first|
    ensures FullKey(RowOf(first, e), first) == e.key
  {
    LcpCommon(first, e.key);
  }

  /** Reading row i of a block yields entry i: `first` is the block's first key, or nothing yet when
      the first row itself is read. */
  lemma ReadRow(b: Block, es: seq<Entry>, i: nat, first: bytes)
    requires Holds(b, es) && i < |es|
    requires first == es[0].key || (i == 0 && first == [])
    ensures b.offsets[i] <= |b.data|
    ensures var row := RowOf(FirstKeyOf(es[..i]), es[i]);
            && DecodeRow(b.data[b.offsets[i]..], first) == Ok(row)
            && PeekAtKey(b.data[b.offsets[i]..], first) == Ok(KeyFields(row.prefixLen, row.suffix))
            && row.prefixLen <= |first|
            && FullKey(row, first) == es[i].key
            && (i == 0 ==> row.prefixLen == 0 && row.suffix == es[0].key)
  {
    hide DataOf, RowBytes, DecodeRow, PeekAtKey, Restored, RowFits;
    assert EntryFits(es[i]) && EntryFits(es[0]);
    var start := FirstKeyOf(es[..i]);
    var row := RowOf(start, es[i]);
    RowFitsOf(start, es[i]);
    var rest := RowInData(es, i);
    RowRoundTrip(row, rest, first);
    if i == 0 {
      assert row.prefixLen == 0;
    }
  }

  /** The first row of a block whose key has 2^16 bytes is read as one with the empty key. */
  lemma LongKeyInBlock(e: Entry)
    requires |e.key| == UINT16
    ensures PeekAtKey(DataOf([e]), []) == Ok(KeyFields(0, []))
  {
    hide RowBytes, PeekAtKey;
    assert [e][..0] == [] && e.key[0..] == e.key;
    DataOfNothing();
    assert DataOf([e]) == RowBytes(RowOf([], e)) + [];
    LongKeyIsLost(RowOf([], e), [], []);
  }

  // ---------------------------------------------------------------- entries from a key on

  /** The entries at or above a key. */
  function From(es: seq<Entry>, key: bytes): seq<Entry> {
    if es == [] then []
    else if Less(es[0].key, key) then From(es[1..], key)
    else es
  }

  /** On a sorted list From keeps exactly the entries at or above the key. */
  lemma {:induction false} FromIsFilter(es: seq<Entry>, key: bytes, e: Entry)
    requires Sorted(es)
    ensures e in From(es, key) <==> e in es && !Less(e.key, key)
  {
    if es != [] {
      SortedSlice(es, 1, |es|);
      FromIsFilter(es[1..], key, e);
      if !Less(es[0].key, key) && e in es {
        var i :| 0 <= i < |es| && es[i] == e;
        if i > 0 && Less(e.key, key) {
          LessTransitive(es[0].key, es[i].key, key);
        }
      }
    }
  }

  /** From is the suffix that starts at the first entry not below the key. */
  lemma {:induction false} FromAt(es: seq<Entry>, key: bytes, n: nat)
    requires n <= |es|
    requires forall i :: 0 <= i < n ==> Less(es[i].key, key)
    requires n < |es| ==> !Less(es[n].key, key)
    ensures From(es, key) == es[n..]
  {
    if n > 0 {
      FromAt(es[1..], key, n - 1);
      assert es[1..][n - 1..] == es[n..];
    }
  }

  /** sort.Search: the least index at which a monotone test holds. */
  method SearchFirst(n: nat, test: nat -> bool) returns (index: nat)
    requires forall i, j :: 0 <= i < j < n && test(i) ==> test(j)
    ensures index <= n
    ensures forall i :: 0 <= i < index ==> !test(i)
    ensures index < n ==> test(index)
  {
    var lo, hi := 0, n;
    while lo < hi
      invariant 0 <= lo <= hi <= n
      invariant forall i :: 0 <= i < lo ==> !test(i)
      invariant hi < n ==> test(hi)
    {
      var mid := lo + (hi - lo) / 2;
      if test(mid) {
        hi := mid;
      } else {
        lo := mid + 1;
      }
    }
    index := lo;
  }

  // ---------------------------------------------------------------- the iterator

  /** The test of the search for a key: the row's full key is not below it. */
  predicate RowAtLeast(b: Block, i: nat, first: bytes, key: bytes) {
    && i < |b.offsets|
    && b.offsets[i] <= |b.data|
    && var peeked := PeekAtKey(b.data[b.offsets[i]..], first);
       && peeked.Ok? && peeked.value.prefixLen <= |first|
       && !Less(first[..peeked.value.prefixLen] + peeked.value.suffix, key)
  }

  class BlockIterator {
    const block: Block
    var offsetIndex: nat
    var firstKey: bytes
    ghost const entries: seq<Entry>

    ghost predicate Valid()
      reads this
    {
      && Holds(block, entries)
      && offsetIndex <= |entries|
      && (firstKey == entries[0].key || (offsetIndex == 0 && firstKey == []))
    }

    ghost function Rest(): seq<Entry>
      reads this
      requires Valid()
    {
      entries[offsetIndex..]
    }

    constructor (block: Block, ghost entries: seq<Entry>)
      requires Holds(block, entries)
      ensures Valid() && Rest() == entries
    {
      this.block, this.entries := block, entries;
      offsetIndex, firstKey := 0, [];
    }

    /** NewIteratorAtKey: start at the key, or at the first key above it. */
    constructor AtKey(block: Block, key: bytes, ghost entries: seq<Entry>)
      requires Holds(block, entries) && Sorted(entries)
      ensures Valid() && Rest() == From(entries, key)
    {
      hide Holds, Sorted, From, DecodeRow, PeekAtKey, RowOf;
      this.block, this.entries := block, entries;
      var first, index := [], 0;
      HoldsSome(block, entries);
      var full := FirstFullKey(block, entries);
      first := full.suffix;
      if first == key {
        index := 0;
        LessIrreflexive(key);
      } else {
        RowsMonotone(block, entries, key);
        var test := (i: nat) => RowAtLeast(block, i, first, key);
        index := SearchFirst(|block.offsets|, test);
        assert forall i :: 0 <= i < index ==> RowAtLeast(block, i, first, key) == test(i);
        RowsFound(block, entries, key, index);
      }
      FromAt(entries, key, index);
      firstKey := first;
      offsetIndex := index;
    }

    method NextEntry() returns (r: Option<Entry>)
      requires Valid()
      modifies this
      ensures Valid()
      ensures if old(Rest()) == [] then r == None && Rest() == []
              else r == Some(old(Rest())[0]) && Rest() == old(Rest())[1..]
    {
      hide DecodeRow, RowOf, FullKey, DataOf;
      if offsetIndex >= |block.offsets| {
        return None;
      }
      ReadRow(block, entries, offsetIndex, firstKey);
      var offset := block.offsets[offsetIndex];
      var decoded := DecodeRow(block.data[offset..], firstKey);
      if !decoded.Ok? {
        return None;
      }
      if firstKey == [] {
        firstKey := FullKey(decoded.value, []);
        ReadRow(block, entries, offsetIndex, firstKey);
      }
      r := Some(Entry(FullKey(decoded.value, firstKey), decoded.value.value));
      assert entries[offsetIndex] == r.value by { RowOfValue(entries, offsetIndex); }
      offsetIndex := offsetIndex + 1;
    }
  }

  lemma RowOfValue(es: seq<Entry>, i: nat)
    requires i < |es|
    ensures RowOf(FirstKeyOf(es[..i]), es[i]).value == es[i].value
  {}

  lemma HoldsSome(b: Block, es: seq<Entry>)
    requires Holds(b, es)
    ensures es != [] && |b.offsets| == |es|
  {}

  /** firstFullKey: the first row that has no prefix; in a block that was built it is the first row. */
  method FirstFullKey(b: Block, ghost es: seq<Entry>) returns (full: KeyFields)
    requires Holds(b, es)
    ensures full == KeyFields(0, es[0].key)
  {
    ReadRow(b, es, 0, []);
    full := KeyFields(0, []);
    for i := 0 to |b.offsets|
      invariant i == 0
    {
      var peeked := PeekAtKey(b.data[b.offsets[i]..], []);
      if peeked.Ok? && peeked.value.prefixLen == 0 {
        return peeked.value;
      }
    }
  }

  lemma RowAtLeastIs(b: Block, es: seq<Entry>, i: nat, key: bytes)
    requires Holds(b, es) && i < |es|
    ensures RowAtLeast(b, i, es[0].key, key) <==> !Less(es[i].key, key)
  {
    ReadRow(b, es, i, es[0].key);
  }

  lemma RowsMonotone(b: Block, es: seq<Entry>, key: bytes)
    requires Holds(b, es) && Sorted(es)
    ensures forall i, j :: 0 <= i < j < |es| && RowAtLeast(b, i, es[0].key, key) ==> RowAtLeast(b, j, es[0].key, key)
  {
    hide Holds, RowAtLeast;
    forall i, j | 0 <= i < j < |es| && RowAtLeast(b, i, es[0].key, key)
      ensures RowAtLeast(b, j, es[0].key, key)
    {
      RowAtLeastIs(b, es, i, key);
      RowAtLeastIs(b, es, j, key);
      if Less(es[j].key, key) {
        LessTransitive(es[i].key, es[j].key, key);
      }
    }
  }

  lemma RowsFound(b: Block, es: seq<Entry>, key: bytes, index: nat)
    requires Holds(b, es) && index <= |es|
    requires forall i :: 0 <= i < index ==> !RowAtLeast(b, i, es[0].key, key)
    requires index < |es| ==> RowAtLeast(b, index, es[0].key, key)
    ensures forall i :: 0 <= i < index ==> Less(es[i].key, key)
    ensures index < |es| ==> !Less(es[index].key, key)
  {
    hide Holds, RowAtLeast;
    forall i | 0 <= i < index ensures Less(es[i].key, key) {
      RowAtLeastIs(b, es, i, key);
    }
    if index < |es| {
      RowAtLeastIs(b, es, index, key);
    }
  }
}
