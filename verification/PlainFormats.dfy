/** Formats that meet what is assumed of the library codecs: what is proved of every lossless format is
    proved of at least this one.
 */
module PlainFormats {
  import opened Tables
  import opened Rows
  import opened Formats

  // ---------------------------------------------------------------- numbers and byte strings

  function EncNat(n: nat): bytes {
    if n == 0 then [1] else [0] + EncNat(n - 1)
  }

  function DecNat(b: bytes): (nat, bytes) {
    if b == [] then (0, [])
    else if b[0] == 1 then (0, b[1..])
    else var (n, rest) := DecNat(b[1..]); (n + 1, rest)
  }

  lemma {:induction false} NatInverse(n: nat, rest: bytes)
    ensures DecNat(EncNat(n) + rest) == (n, rest)
  {
    var b := EncNat(n) + rest;
    if n == 0 {
      assert b[1..] == rest;
    } else {
      assert b[1..] == EncNat(n - 1) + rest;
      NatInverse(n - 1, rest);
    }
  }

  function EncBytes(s: bytes): bytes {
    EncNat(|s|) + s
  }

  function DecBytes(b: bytes): (bytes, bytes) {
    var (n, rest) := DecNat(b);
    if n <= |rest| then (rest[..n], rest[n..]) else ([], rest)
  }

  lemma BytesInverse(s: bytes, rest: bytes)
    ensures DecBytes(EncBytes(s) + rest) == (s, rest)
  {
    hide EncNat, DecNat;
    assert EncBytes(s) + rest == EncNat(|s|) + (s + rest);
    NatInverse(|s|, s + rest);
    assert (s + rest)[..|s|] == s && (s + rest)[|s|..] == rest;
  }

  // ---------------------------------------------------------------- the index

  function EncMeta(m: BlockMeta): bytes {
    EncNat(m.offset) + EncBytes(m.firstKey)
  }

  function DecMeta(b: bytes): (BlockMeta, bytes) {
    var (offset, rest) := DecNat(b);
    var (firstKey, rest') := DecBytes(rest);
    (BlockMeta(offset, firstKey), rest')
  }

  lemma MetaInverse(m: BlockMeta, rest: bytes)
    ensures DecMeta(EncMeta(m) + rest) == (m, rest)
  {
    hide EncNat, DecNat, EncBytes, DecBytes;
    assert EncMeta(m) + rest == EncNat(m.offset) + (EncBytes(m.firstKey) + rest);
    NatInverse(m.offset, EncBytes(m.firstKey) + rest);
    BytesInverse(m.firstKey, rest);
  }

  function EncMetas(index: seq<BlockMeta>): bytes {
    if index == [] then [] else EncMeta(index[0]) + EncMetas(index[1..])
  }

  function DecMetas(n: nat, b: bytes): seq<BlockMeta> {
    if n == 0 then [] else var (m, rest) := DecMeta(b); [m] + DecMetas(n - 1, rest)
  }

  lemma {:induction false} MetasInverse(index: seq<BlockMeta>)
    ensures DecMetas(|index|, EncMetas(index)) == index
  {
    hide EncMeta, DecMeta;
    if index != [] {
      MetaInverse(index[0], EncMetas(index[1..]));
      MetasInverse(index[1..]);
    }
  }

  function EncIndex(index: seq<BlockMeta>): bytes {
    [0] + EncNat(|index|) + EncMetas(index)
  }

  function DecIndex(b: bytes): seq<BlockMeta> {
    var (n, rest) := DecNat(if b == [] then [] else b[1..]);
    DecMetas(n, rest)
  }

  lemma IndexInverse(index: seq<BlockMeta>)
    ensures |EncIndex(index)| >= 2 && DecIndex(EncIndex(index)) == index
  {
    hide EncMetas, DecMetas, DecNat;
    assert EncIndex(index)[1..] == EncNat(|index|) + EncMetas(index);
    NatInverse(|index|, EncMetas(index));
    MetasInverse(index);
  }

  // ---------------------------------------------------------------- the info

  function EncInfo(i: Info): bytes {
    EncBytes(i.firstKey) + (EncNat(i.indexOffset) + (EncNat(i.indexLen)
    + (EncNat(i.filterOffset) + (EncNat(i.filterLen) + EncNat(i.codec)))))
  }

  function DecInfo(b: bytes): Info {
    var (firstKey, b1) := DecBytes(b);
    var (indexOffset, b2) := DecNat(b1);
    var (indexLen, b3) := DecNat(b2);
    var (filterOffset, b4) := DecNat(b3);
    var (filterLen, b5) := DecNat(b4);
    Info(firstKey, indexOffset, indexLen, filterOffset, filterLen, DecNat(b5).0)
  }

  lemma InfoInverse(i: Info, tail: bytes)
    ensures |EncInfo(i)| >= 1 && DecInfo(EncInfo(i) + tail) == i
  {
    hide EncNat, EncBytes, DecNat, DecBytes;
    var b5 := EncNat(i.codec) + tail;
    var b4 := EncNat(i.filterLen) + b5;
    var b3 := EncNat(i.filterOffset) + b4;
    var b2 := EncNat(i.indexLen) + b3;
    var b1 := EncNat(i.indexOffset) + b2;
    assert EncInfo(i) + tail == EncBytes(i.firstKey) + b1;
    BytesInverse(i.firstKey, b1);
    NatInverse(i.indexOffset, b2);
    NatInverse(i.indexLen, b3);
    NatInverse(i.filterOffset, b4);
    NatInverse(i.filterLen, b5);
    NatInverse(i.codec, tail);
    NatNotEmpty(i.codec);
  }

  lemma NatNotEmpty(n: nat)
    ensures |EncNat(n)| >= 1
  {}

  // ---------------------------------------------------------------- together

  function Plain(): Formats {
    Formats((c, b) => b, (c, b) => Some(b), b => 0, EncIndex, DecIndex, EncInfo, DecInfo)
  }

  lemma PlainIsLossless()
    ensures Lossless(Plain())
  {
    hide EncIndex, DecIndex, EncInfo, DecInfo;
    forall x: seq<BlockMeta> ensures |EncIndex(x)| >= 2 && DecIndex(EncIndex(x)) == x {
      IndexInverse(x);
    }
    forall i: Info, tail: bytes ensures |EncInfo(i)| >= 1 && DecInfo(EncInfo(i) + tail) == i {
      InfoInverse(i, tail);
    }
  }
}

/** With the plain formats every sorted list of rows that fit the format has a stored SST, with its filter
    if it is to have one: the theorems about stored files speak of all of them. */
module PlainSst {
  import opened Tables
  import opened Keys
  import opened Rows
  import opened Formats
  import opened Blocks
  import opened Bloom
  import opened SstFormat
  import opened SstBuilders
  import opened SstIterators
  import opened Executors
  import opened PlainFormats

  /** Whatever the sizes and the filter settings, every sorted list of rows that fit becomes a stored SST,
      unless its filter cannot be built. */
  method StoreList(conf: Config, es: seq<Entry>) returns (r: Option<StoredSst>)
    requires conf.formats == Plain() && conf.blockSize < UINT16 && conf.numProbes < UINT16
    requires Sorted(es) && EntriesFit(es)
    ensures r.None? <==> FilterFails(conf, es)
    ensures r.Some? ==> Stores(conf, r.value, es)
    ensures r.Some? && |r.value.file| < UINT32 ==> ReadInfo(conf.formats, r.value.file) == Decoded.Ok(r.value.info)
  {
    hide Lossless, FilterFails, Uploads, Sorted, Stores, ReadInfo;
    PlainIsLossless();
    forall i | 0 <= i < |es| ensures es[i].key != [] {
      assert EntryFits(es[i]);
    }
    var written := WriteSst(conf, es);
    if written.Panic? {
      return None;
    }
    var t := StoredSst(written.value.1, written.value.0);
    assert UploadOf(conf, t, es);
    UploadStored(conf, t, es);
    return Some(t);
  }
}
