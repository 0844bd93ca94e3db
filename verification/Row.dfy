/** The v0 row codec (internal/sstable/block/row.go): prefix-compressed keys, big-endian fields. */
module Rows {
  import opened Tables

  const UINT16: nat := 0x1_0000
  const UINT32: nat := 0x1_0000_0000
  const UINT64: nat := 0x1_0000_0000_0000_0000

  // ---------------------------------------------------------------- big-endian integers

  function PutU16(n: nat): (b: bytes)
    requires n < UINT16
    ensures |b| == 2
  {
    [n / 256, n % 256]
  }

  function U16(b: bytes): (n: nat)
    requires |b| >= 2
    ensures n < UINT16
  {
    var hi: int := b[0];
    hi * 256 + b[1]
  }

  function PutU32(n: nat): (b: bytes)
    requires n < UINT32
    ensures |b| == 4
  {
    PutU16(n / UINT16) + PutU16(n % UINT16)
  }

  function U32(b: bytes): (n: nat)
    requires |b| >= 4
    ensures n < UINT32
  {
    U16(b) * UINT16 + U16(b[2..])
  }

  function PutU64(n: nat): (b: bytes)
    requires n < UINT64
    ensures |b| == 8
  {
    PutU32(n / UINT32) + PutU32(n % UINT32)
  }

  function U64(b: bytes): (n: nat)
    requires |b| >= 8
    ensures n < UINT64
  {
    U32(b) * UINT32 + U32(b[4..])
  }

  lemma U16Inverse(n: nat, rest: bytes)
    requires n < UINT16
    ensures U16(PutU16(n) + rest) == n
  {}

  lemma U32Inverse(n: nat, rest: bytes)
    requires n < UINT32
    ensures U32(PutU32(n) + rest) == n
  {
    var hi, lo := PutU16(n / UINT16), PutU16(n % UINT16);
    assert PutU32(n) + rest == hi + (lo + rest);
    assert (hi + (lo + rest))[2..] == lo + rest;
    U16Inverse(n / UINT16, lo + rest);
    U16Inverse(n % UINT16, rest);
  }

  lemma U64Inverse(n: nat, rest: bytes)
    requires n < UINT64
    ensures U64(PutU64(n) + rest) == n
  {
    var hi, lo := PutU32(n / UINT32), PutU32(n % UINT32);
    assert PutU64(n) + rest == hi + (lo + rest);
    assert (hi + (lo + rest))[4..] == lo + rest;
    U32Inverse(n / UINT32, lo + rest);
    U32Inverse(n % UINT32, rest);
  }

  /** The number that bytes spell, the high byte first. */
  ghost function Number(b: bytes): nat {
    if b == [] then 0 else 256 * Number(b[..|b| - 1]) + b[|b| - 1]
  }

  lemma NumberTwoMore(b: bytes, hi: byte, lo: byte)
    ensures Number(b + [hi, lo]) == 65536 * Number(b) + 256 * hi + lo
  {
    var more := b + [hi, lo];
    assert more[..|more| - 1] == b + [hi];
    assert (b + [hi])[..|b|] == b;
  }

  lemma NumberOfU16(n: nat, front: bytes)
    requires n < UINT16
    ensures Number(PutU16(n)) == n && Number(front + PutU16(n)) == 65536 * Number(front) + n
  {
    NumberTwoMore(front, n / 256, n % 256);
    NumberTwoMore([], n / 256, n % 256);
    assert [] + PutU16(n) == PutU16(n);
  }

  lemma NumberOfU32(n: nat, front: bytes)
    requires n < UINT32
    ensures Number(PutU32(n)) == n && Number(front + PutU32(n)) == UINT32 * Number(front) + n
  {
    hide PutU16, Number;
    var hi, lo := PutU16(n / UINT16), PutU16(n % UINT16);
    NumberOfU16(n / UINT16, front);
    NumberOfU16(n % UINT16, front + hi);
    NumberOfU16(n % UINT16, hi);
    assert front + PutU32(n) == front + hi + lo;
  }

  /** The integers of the format are big-endian. */
  lemma BigEndian(n: nat)
    ensures n < UINT16 ==> Number(PutU16(n)) == n
    ensures n < UINT32 ==> Number(PutU32(n)) == n
    ensures n < UINT64 ==> Number(PutU64(n)) == n
  {
    hide PutU16, PutU32, Number;
    if n < UINT16 {
      NumberOfU16(n, []);
    }
    if n < UINT32 {
      NumberOfU32(n, []);
    }
    if n < UINT64 {
      NumberOfU32(n / UINT32, []);
      NumberOfU32(n % UINT32, PutU32(n / UINT32));
    }
  }

  // ---------------------------------------------------------------- the common prefix

  /** The length of the longest common prefix. */
  function Lcp(a: bytes, b: bytes): (n: nat)
    ensures n <= |a| && n <= |b|
  {
    if a == [] || b == [] || a[0] != b[0] then 0 else 1 + Lcp(a[1..], b[1..])
  }

  lemma {:induction false} LcpIs(a: bytes, b: bytes, n: nat)
    requires n <= |a| && n <= |b| && a[..n] == b[..n]
    requires n < |a| && n < |b| ==> a[n] != b[n]
    ensures Lcp(a, b) == n
  {
    if n > 0 {
      assert a[..n][0] == b[..n][0];
      assert a[1..][..n - 1] == a[..n][1..] && b[1..][..n - 1] == b[..n][1..];
      LcpIs(a[1..], b[1..], n - 1);
    }
  }

  lemma {:induction false} LcpCommon(a: bytes, b: bytes)
    ensures a[..Lcp(a, b)] == b[..Lcp(a, b)]
  {
    if a != [] && b != [] && a[0] == b[0] {
      LcpCommon(a[1..], b[1..]);
      var n := Lcp(a[1..], b[1..]);
      assert a[..n + 1] == [a[0]] + a[1..][..n] && b[..n + 1] == [b[0]] + b[1..][..n];
    }
  }

  /** Compare whole chunks: the length of those at the front that agree. */
  method CompareChunks(lhs: bytes, rhs: bytes, chunkSize: nat, chunks: nat) returns (off: nat)
    requires Span(chunks, chunkSize) <= |lhs| && Span(chunks, chunkSize) <= |rhs|
    ensures off <= |lhs| && off <= |rhs| && lhs[..off] == rhs[..off]
  {
    hide Span;
    off := 0;
    for i := 0 to chunks
      invariant off + Span(chunks - i, chunkSize) <= |lhs| && off + Span(chunks - i, chunkSize) <= |rhs|
      invariant lhs[..off] == rhs[..off]
    {
      SpanStep(chunks - i, chunkSize);
      var end := off + chunkSize;
      if lhs[off..end] != rhs[off..end] {
        break;
      }
      assert lhs[..end] == lhs[..off] + lhs[off..end] && rhs[..end] == rhs[..off] + rhs[off..end];
      off := end;
    }
  }

  /** The chunked computation: for every chunk size it finds the longest common prefix, as a uint16. */
  method ComputePrefixChunks(lhs: bytes, rhs: bytes, chunkSize: nat) returns (r: nat)
    requires chunkSize > 0
    ensures r == Lcp(lhs, rhs) % UINT16
  {
    hide Lcp, Span;
    var minLen := if |lhs| < |rhs| then |lhs| else |rhs|;
    var chunks := minLen / chunkSize;
    SpanFits(minLen, chunkSize);
    var off := CompareChunks(lhs, rhs, chunkSize, chunks);
    while off < minLen && lhs[off] == rhs[off]
      invariant off <= minLen
      invariant lhs[..off] == rhs[..off]
    {
      assert lhs[..off + 1] == lhs[..off] + [lhs[off]] && rhs[..off + 1] == rhs[..off] + [rhs[off]];
      off := off + 1;
    }
    LcpIs(lhs, rhs, off);
    r := off % UINT16;
  }

  /** The length of n chunks. */
  ghost function Span(n: nat, size: nat): nat {
    if n == 0 then 0 else size + Span(n - 1, size)
  }

  lemma SpanStep(n: nat, size: nat)
    requires n > 0
    ensures Span(n, size) == size + Span(n - 1, size)
  {}

  lemma {:induction false} SpanIsProduct(n: nat, size: nat)
    ensures Span(n, size) == n * size
  {
    if n > 0 {
      SpanIsProduct(n - 1, size);
      assert n * size == (n - 1) * size + size;
    }
  }

  lemma SpanFits(len: nat, size: nat)
    requires size > 0
    ensures Span(len / size, size) <= len
  {
    SpanIsProduct(len / size, size);
    assert len == (len / size) * size + len % size;
  }

  // ---------------------------------------------------------------- times

  /** A time: whole seconds since 1970 and nanoseconds within the second. */
  datatype Time = Time(sec: int, nanos: nat) {
    ghost predicate Valid() {
      nanos < 1_000_000_000 && -0x8000_0000_0000_0000 <= UnixMilli() < 0x8000_0000_0000_0000
    }

    function UnixMilli(): int {
      sec * 1000 + nanos / 1_000_000
    }

    /** The codec's test for a time that is set. */
    predicate IsSet() {
      nanos != 0
    }
  }

  /** Go's zero time, 1 January of the year 1. */
  const ZERO_TIME := Time(-62135596800, 0)

  function FromUnixMilli(ms: int): Time {
    Time(ms / 1000, ms % 1000 * 1_000_000)
  }

  /** The int64 and uint64 conversions of two's complement. */
  function AsUint64(i: int): (u: nat)
    ensures u < UINT64
  {
    i % UINT64
  }

  function AsInt64(u: nat): int {
    if u < 0x8000_0000_0000_0000 then u else u - UINT64
  }

  lemma Int64Inverse(i: int)
    requires -0x8000_0000_0000_0000 <= i < 0x8000_0000_0000_0000
    ensures AsInt64(AsUint64(i)) == i
  {}

  /** What encoding and decoding make of a time. */
  function RestoredTime(t: Time): Time {
    if t.IsSet() then FromUnixMilli(t.UnixMilli()) else ZERO_TIME
  }

  /** A time survives exactly when it is unset or holds whole milliseconds that are not whole seconds. */
  lemma TimeSurvives(t: Time)
    requires t.Valid()
    ensures RestoredTime(t) == t <==> t == ZERO_TIME || (t.nanos != 0 && t.nanos % 1_000_000 == 0)
  {
    var q, r := t.nanos / 1_000_000, t.nanos % 1_000_000;
    assert t.nanos == q * 1_000_000 + r && 0 <= q < 1000;
    assert t.UnixMilli() / 1000 == t.sec && t.UnixMilli() % 1000 == q;
  }

  /** One second after 1970 has whole seconds only: it comes back as the zero time. */
  lemma WholeSecondIsLost()
    ensures Time(1, 0).Valid() && RestoredTime(Time(1, 0)) == Time(-62135596800, 0) == ZERO_TIME
  {}

  // ---------------------------------------------------------------- rows

  datatype Row = Row(
    prefixLen: nat, suffix: bytes, seqNum: nat, expireAt: Time, createdAt: Time, value: Value)

  /** The fields of fixed width hold what they are given. */
  ghost predicate FieldsFit(r: Row) {
    r.prefixLen < UINT16 && r.seqNum < UINT64 && r.expireAt.Valid() && r.createdAt.Valid()
  }

  /** So do the lengths of the suffix and the value. */
  ghost predicate LengthsFit(r: Row) {
    |r.suffix| < UINT16 && (r.value.Present? ==> |r.value.data| < UINT32)
  }

  ghost predicate RowFits(r: Row) {
    FieldsFit(r) && LengthsFit(r)
  }

  /** v0FullKey */
  function FullKey(r: Row, prefix: bytes): bytes
    requires r.prefixLen <= |prefix|
  {
    prefix[..r.prefixLen] + r.suffix
  }

  function Flags(r: Row): byte {
    (if r.value.Tombstone? then 1 else 0) + (if r.expireAt.IsSet() then 2 else 0)
    + (if r.createdAt.IsSet() then 4 else 0)
  }

  /** v0Size */
  function RowSize(r: Row): nat {
    2 + 2 + |r.suffix| + 8 + 1
    + (if r.expireAt.IsSet() then 8 else 0)
    + (if r.createdAt.IsSet() then 8 else 0)
    + (if r.value.Present? then 4 + |r.value.data| else 0)
  }

  function TimeBytes(t: Time): bytes {
    if t.IsSet() then PutU64(AsUint64(t.UnixMilli())) else []
  }

  function ValueBytes(v: Value): bytes {
    match v
    case Tombstone => []
    case Present(data) => PutU32(|data| % UINT32) + data
  }

  function KeyBytes(r: Row): bytes {
    PutU16(r.prefixLen % UINT16) + PutU16(|r.suffix| % UINT16) + r.suffix
  }

  /** The encoding of a row, field by field. */
  function RowBytes(r: Row): (b: bytes)
    ensures |b| == RowSize(r)
  {
    KeyBytes(r) + PutU64(r.seqNum % UINT64) + [Flags(r)]
    + TimeBytes(r.expireAt) + TimeBytes(r.createdAt) + ValueBytes(r.value)
  }

  method CopyAt(output: array<byte>, offset: nat, src: bytes) returns (next: nat)
    requires offset + |src| <= output.Length
    modifies output
    ensures next == offset + |src|
    ensures output[..next] == old(output[..offset]) + src
  {
    for i := 0 to |src|
      invariant output[..offset + i] == old(output[..offset]) + src[..i]
    {
      output[offset + i] := src[i];
      assert output[..offset + i + 1] == output[..offset + i] + [src[i]];
      assert src[..i + 1] == src[..i] + [src[i]];
    }
    assert src[..|src|] == src;
    next := offset + |src|;
  }

  function FixedBytes(r: Row): bytes {
    KeyBytes(r) + PutU64(r.seqNum % UINT64) + [Flags(r)]
  }

  method EncodeFixed(r: Row, output: array<byte>) returns (offset: nat)
    requires output.Length == RowSize(r)
    modifies output
    ensures offset == |FixedBytes(r)| && output[..offset] == FixedBytes(r)
  {
    hide PutU16, PutU64, Flags;
    offset := CopyAt(output, 0, PutU16(r.prefixLen % UINT16));
    offset := CopyAt(output, offset, PutU16(|r.suffix| % UINT16));
    offset := CopyAt(output, offset, r.suffix);
    offset := CopyAt(output, offset, PutU64(r.seqNum % UINT64));
    offset := CopyAt(output, offset, [Flags(r)]);
  }

  method EncodeTime(t: Time, output: array<byte>, offset: nat) returns (next: nat)
    requires offset + |TimeBytes(t)| <= output.Length
    modifies output
    ensures next == offset + |TimeBytes(t)|
    ensures output[..next] == old(output[..offset]) + TimeBytes(t)
  {
    next := offset;
    if t.IsSet() {
      next := CopyAt(output, offset, PutU64(AsUint64(t.UnixMilli())));
    }
  }

  method EncodeValue(v: Value, output: array<byte>, offset: nat) returns (next: nat)
    requires offset + |ValueBytes(v)| <= output.Length
    modifies output
    ensures next == offset + |ValueBytes(v)|
    ensures output[..next] == old(output[..offset]) + ValueBytes(v)
  {
    hide PutU32;
    next := offset;
    if v.Present? {
      next := CopyAt(output, offset, PutU32(|v.data| % UINT32));
      next := CopyAt(output, next, v.data);
    }
  }

  /** v0Codec.Encode: a buffer of the computed size, filled from a moving offset, to the last byte. */
  method EncodeRow(r: Row) returns (output: array<byte>)
    ensures fresh(output) && output[..] == RowBytes(r)
  {
    hide FixedBytes, TimeBytes, ValueBytes, RowBytes, RowSize;
    SizeOfParts(r);
    output := new byte[RowSize(r)];
    var offset := EncodeFixed(r, output);
    offset := EncodeTime(r.expireAt, output, offset);
    offset := EncodeTime(r.createdAt, output, offset);
    offset := EncodeValue(r.value, output, offset);
    assert output[..] == output[..offset];
  }

  lemma SizeOfParts(r: Row)
    ensures |FixedBytes(r)| + |TimeBytes(r.expireAt)| + |TimeBytes(r.createdAt)| + |ValueBytes(r.value)| == RowSize(r)
    ensures RowBytes(r) == FixedBytes(r) + TimeBytes(r.expireAt) + TimeBytes(r.createdAt) + ValueBytes(r.value)
  {}

  /** Where the fields of a row stand, byte for byte: lengths, suffix, sequence number and flags. */
  lemma RowHead(r: Row)
    ensures var b, n := RowBytes(r), |r.suffix|;
            && |b| >= 13 + n
            && Number(b[0..2]) == r.prefixLen % UINT16 && Number(b[2..4]) == n % UINT16 && b[4..4 + n] == r.suffix
            && Number(b[4 + n..12 + n]) == r.seqNum % UINT64
            && b[12 + n] == (if r.value.Tombstone? then 1 else 0) + (if r.expireAt.nanos != 0 then 2 else 0)
                            + (if r.createdAt.nanos != 0 then 4 else 0)
  {
    hide PutU16, PutU64, TimeBytes, ValueBytes, Number;
    var b, n := RowBytes(r), |r.suffix|;
    var tail := TimeBytes(r.expireAt) + TimeBytes(r.createdAt) + ValueBytes(r.value);
    var prefix, len, num := PutU16(r.prefixLen % UINT16), PutU16(n % UINT16), PutU64(r.seqNum % UINT64);
    assert b == prefix + len + r.suffix + num + [Flags(r)] + tail;
    assert b[0..2] == prefix && b[2..4] == len && b[4 + n..12 + n] == num;
    BigEndian(r.prefixLen % UINT16);
    BigEndian(n % UINT16);
    BigEndian(r.seqNum % UINT64);
  }

  /** After them come the times that are set, in milliseconds and two's complement, and at the end the value
      behind its length. */
  lemma RowTail(r: Row)
    ensures var b, n := RowBytes(r), 13 + |r.suffix|; var set1, set2 := r.expireAt.nanos != 0, r.createdAt.nanos != 0;
            var m := if set1 then n + 8 else n; var k := if set2 then m + 8 else m;
            && k <= |b|
            && (set1 ==> Number(b[n..m]) == (r.expireAt.sec * 1000 + r.expireAt.nanos / 1_000_000) % UINT64)
            && (set2 ==> Number(b[m..k]) == (r.createdAt.sec * 1000 + r.createdAt.nanos / 1_000_000) % UINT64)
            && (if r.value.Present?
                then |b| == k + 4 + |r.value.data| && Number(b[k..k + 4]) == |r.value.data| % UINT32
                     && b[k + 4..] == r.value.data
                else |b| == k)
  {
    hide PutU32, PutU64, FixedBytes, Number, RowBytes;
    var b, n := RowBytes(r), 13 + |r.suffix|;
    SizeOfParts(r);
    FixedLen(r);
    var one, two, value := TimeBytes(r.expireAt), TimeBytes(r.createdAt), ValueBytes(r.value);
    assert b == FixedBytes(r) + one + two + value;
    var m := n + |one|;
    var k := m + |two|;
    assert b[n..m] == one && b[m..k] == two && b[k..] == value;
    BigEndian(AsUint64(r.expireAt.UnixMilli()));
    BigEndian(AsUint64(r.createdAt.UnixMilli()));
    if r.value.Present? {
      BigEndian(|r.value.data| % UINT32);
      assert b[k..k + 4] == value[..4] && b[k + 4..] == value[4..];
    }
  }

  lemma FixedLen(r: Row)
    ensures |FixedBytes(r)| == 13 + |r.suffix|
  {
    hide PutU16, PutU64, Flags;
  }

  // ---------------------------------------------------------------- decoding

  datatype Decoded<+T> = Ok(value: T) | Corrupt | Panic

  /** The key fields: the prefix length, the suffix, and the length they take. */
  datatype KeyFields = KeyFields(prefixLen: nat, suffix: bytes)

  function DecodeKey(data: bytes, firstKey: bytes): (r: Decoded<KeyFields>)
    requires |data| >= 4
    ensures r.Ok? ==> 4 + |r.value.suffix| <= |data|
  {
    var prefixLen, suffixLen := U16(data), U16(data[2..]);
    if prefixLen > |firstKey| % UINT16 || |data| - 4 < suffixLen then Corrupt
    else Ok(KeyFields(prefixLen, data[4..4 + suffixLen]))
  }

  /** PeekAtKey */
  function PeekAtKey(data: bytes, firstKey: bytes): Decoded<KeyFields> {
    if |data| < 4 then Corrupt else DecodeKey(data, firstKey)
  }

  /** An optional time at the front of the data, and the rest. */
  function DecodeTime(set_: bool, data: bytes): Decoded<(Time, bytes)> {
    if !set_ then Ok((ZERO_TIME, data))
    else if |data| < 8 then Corrupt
    else Ok((FromUnixMilli(AsInt64(U64(data))), data[8..]))
  }

  function DecodeValue(tombstone: bool, data: bytes): Decoded<Value> {
    if tombstone then Ok(Tombstone)
    else if |data| < 4 then Corrupt
    else if |data| - 4 < U32(data) then Corrupt
    else Ok(Present(data[4..4 + U32(data)]))
  }

  /** The fields after the sequence number and the flags. */
  function DecodeTail(flags: byte, data: bytes): Decoded<(Time, Time, Value)> {
    var expire := DecodeTime(flags / 2 % 2 == 1, data);
    if !expire.Ok? then Corrupt else
    var create := DecodeTime(flags / 4 % 2 == 1, expire.value.1);
    if !create.Ok? then Corrupt else
    var value := DecodeValue(flags % 2 == 1, create.value.1);
    if !value.Ok? then Corrupt else Ok((expire.value.0, create.value.0, value.value))
  }

  /** v0Codec.Decode. The sequence number and the flags are read without a bounds check. */
  function DecodeRow(data: bytes, firstKey: bytes): Decoded<Row> {
    if |data| < 13 then Corrupt else
    var key := DecodeKey(data, firstKey);
    if !key.Ok? then Corrupt else
    var off := 4 + |key.value.suffix|;
    if |data| - off < 9 then Panic else
    var tail := DecodeTail(data[off + 8], data[off + 9..]);
    if !tail.Ok? then Corrupt else
    var (expire, create, value) := tail.value;
    Ok(Row(key.value.prefixLen, key.value.suffix, U64(data[off..]), expire, create, value))
  }

  /** What encoding and decoding make of a row: only the times can change. */
  function Restored(r: Row): Row {
    r.(expireAt := RestoredTime(r.expireAt), createdAt := RestoredTime(r.createdAt))
  }

  /** A suffix comes back cut to its length modulo 2^16. */
  lemma KeyInverse(r: Row, rest: bytes, firstKey: bytes)
    requires r.prefixLen <= |firstKey| < UINT16
    ensures DecodeKey(KeyBytes(r) + rest, firstKey) == Ok(KeyFields(r.prefixLen, r.suffix[..|r.suffix| % UINT16]))
  {
    var data, n := KeyBytes(r) + rest, |r.suffix| % UINT16;
    var tail := PutU16(n) + (r.suffix + rest);
    assert data == PutU16(r.prefixLen) + tail;
    assert data[2..] == tail;
    U16Inverse(r.prefixLen, tail);
    U16Inverse(n, r.suffix + rest);
    assert data[4..4 + n] == r.suffix[..n];
  }

  lemma TimeInverse(t: Time, rest: bytes)
    requires t.Valid()
    ensures DecodeTime(t.IsSet(), TimeBytes(t) + rest) == Ok((RestoredTime(t), rest))
  {
    if t.IsSet() {
      var ms := t.UnixMilli();
      U64Inverse(AsUint64(ms), rest);
      Int64Inverse(ms);
      assert (PutU64(AsUint64(ms)) + rest)[8..] == rest;
    } else {
      assert [] + rest == rest;
    }
  }

  /** A value as it comes back: cut to its length modulo 2^32. */
  function CutValue(v: Value): Value {
    match v
    case Tombstone => Tombstone
    case Present(data) => Present(data[..|data| % UINT32])
  }

  lemma ValueInverse(v: Value, rest: bytes)
    ensures DecodeValue(v.Tombstone?, ValueBytes(v) + rest) == Ok(CutValue(v))
  {
    if v.Present? {
      var data, n := ValueBytes(v) + rest, |v.data| % UINT32;
      assert data == PutU32(n) + (v.data + rest);
      U32Inverse(n, v.data + rest);
      assert data[4..4 + n] == v.data[..n];
    }
  }

  lemma TailInverse(r: Row, rest: bytes)
    requires FieldsFit(r)
    ensures DecodeTail(Flags(r), TimeBytes(r.expireAt) + (TimeBytes(r.createdAt) + (ValueBytes(r.value) + rest)))
         == Ok((RestoredTime(r.expireAt), RestoredTime(r.createdAt), CutValue(r.value)))
  {
    hide DecodeTime, DecodeValue, TimeBytes, ValueBytes, RestoredTime, Time.Valid, CutValue;
    var values := ValueBytes(r.value) + rest;
    TimeInverse(r.expireAt, TimeBytes(r.createdAt) + values);
    TimeInverse(r.createdAt, values);
    ValueInverse(r.value, rest);
  }

  lemma RowLayout(r: Row, rest: bytes)
    ensures RowBytes(r) + rest
         == KeyBytes(r) + (PutU64(r.seqNum % UINT64)
            + ([Flags(r)] + (TimeBytes(r.expireAt) + (TimeBytes(r.createdAt) + (ValueBytes(r.value) + rest)))))
  {
    hide TimeBytes, ValueBytes, KeyBytes, Flags, PutU64, RowSize;
  }

  /** Peeking at any encoded row finds its prefix length, and its suffix cut to its length modulo 2^16. */
  lemma PeekExact(r: Row, rest: bytes, firstKey: bytes)
    requires r.prefixLen <= |firstKey| < UINT16
    ensures PeekAtKey(RowBytes(r) + rest, firstKey) == Ok(KeyFields(r.prefixLen, r.suffix[..|r.suffix| % UINT16]))
  {
    hide DecodeKey, TimeBytes, ValueBytes, Flags, PutU64, RowSize, RowBytes;
    RowLayout(r, rest);
    KeyInverse(r, PutU64(r.seqNum % UINT64)
               + ([Flags(r)] + (TimeBytes(r.expireAt) + (TimeBytes(r.createdAt) + (ValueBytes(r.value) + rest)))),
               firstKey);
  }

  lemma Fields(key: bytes, seqNum: bytes, flags: byte, tail: bytes)
    requires |seqNum| == 8
    ensures var data := key + (seqNum + ([flags] + tail));
            && |data| == |key| + 9 + |tail|
            && data[|key|..] == seqNum + ([flags] + tail)
            && data[|key| + 8] == flags && data[|key| + 9..] == tail
  {}

  /** Decoding a row whose suffix fits restores it, with its value cut to its length modulo 2^32. */
  lemma SuffixFits(r: Row, rest: bytes, firstKey: bytes)
    requires FieldsFit(r) && |r.suffix| < UINT16 && r.prefixLen <= |firstKey| < UINT16
    ensures DecodeRow(RowBytes(r) + rest, firstKey) == Ok(Restored(r).(value := CutValue(r.value)))
  {
    hide DecodeKey, DecodeTail, DecodeRow, TimeBytes, ValueBytes, KeyBytes, RestoredTime, Time.Valid, Flags, PutU64,
         U64, RowBytes, CutValue;
    var tail := TimeBytes(r.expireAt) + (TimeBytes(r.createdAt) + (ValueBytes(r.value) + rest));
    var seqNum := PutU64(r.seqNum);
    assert r.seqNum % UINT64 == r.seqNum && |r.suffix| % UINT16 == |r.suffix|;
    RowLayout(r, rest);
    KeyInverse(r, seqNum + ([Flags(r)] + tail), firstKey);
    assert r.suffix[..|r.suffix|] == r.suffix;
    KeyLen(r);
    U64Inverse(r.seqNum, [Flags(r)] + tail);
    TailInverse(r, rest);
    DecodeParts(KeyBytes(r), seqNum, Flags(r), tail, firstKey, KeyFields(r.prefixLen, r.suffix), r.seqNum);
  }

  lemma KeyLen(r: Row)
    ensures |KeyBytes(r)| == 4 + |r.suffix|
  {
    hide PutU16;
  }

  /** Decoding field by field. */
  lemma DecodeParts(key: bytes, seqNum: bytes, flags: byte, tail: bytes, firstKey: bytes, fields: KeyFields, n: nat)
    requires |seqNum| == 8 && |key| == 4 + |fields.suffix| && DecodeTail(flags, tail).Ok?
    requires DecodeKey(key + (seqNum + ([flags] + tail)), firstKey) == Ok(fields)
    requires U64(seqNum + ([flags] + tail)) == n
    ensures var (expire, create, value) := DecodeTail(flags, tail).value;
            DecodeRow(key + (seqNum + ([flags] + tail)), firstKey)
            == Ok(Row(fields.prefixLen, fields.suffix, n, expire, create, value))
  {
    hide DecodeKey, DecodeTail, U64;
    Fields(key, seqNum, flags, tail);
  }

  /** Decoding what Encode wrote restores the row, whatever follows it in the block, if and only if the
      lengths of its suffix and its value fit their fields. */
  lemma RowRoundTrip(r: Row, rest: bytes, firstKey: bytes)
    requires FieldsFit(r) && r.prefixLen <= |firstKey| < UINT16
    ensures DecodeRow(RowBytes(r) + rest, firstKey) == Ok(Restored(r)) <==> LengthsFit(r)
    ensures LengthsFit(r) ==> PeekAtKey(RowBytes(r) + rest, firstKey) == Ok(KeyFields(r.prefixLen, r.suffix))
  {
    hide DecodeKey, DecodeTail, TimeBytes, ValueBytes, RestoredTime, Time.Valid, RowBytes;
    PeekExact(r, rest, firstKey);
    if |r.suffix| < UINT16 {
      SuffixFits(r, rest, firstKey);
      assert r.suffix[..|r.suffix|] == r.suffix;
      if r.value.Present? {
        assert |r.value.data| < UINT32 ==> r.value.data[..|r.value.data|] == r.value.data;
      }
    }
  }

  /** A key of 2^16 bytes reads back as the empty key. */
  lemma LongKeyIsLost(r: Row, rest: bytes, firstKey: bytes)
    requires r.prefixLen == 0 && |r.suffix| == UINT16 && |firstKey| < UINT16
    ensures PeekAtKey(RowBytes(r) + rest, firstKey) == Ok(KeyFields(0, []))
  {
    PeekExact(r, rest, firstKey);
  }

  /** The round trip is the identity exactly on rows whose lengths fit and whose two times survive. */
  lemma RowRoundTripExact(r: Row, rest: bytes, firstKey: bytes)
    requires FieldsFit(r) && r.prefixLen <= |firstKey| < UINT16
    ensures DecodeRow(RowBytes(r) + rest, firstKey) == Ok(r)
            <==> LengthsFit(r) && forall t :: t in {r.expireAt, r.createdAt} ==>
                   t == ZERO_TIME || (t.nanos != 0 && t.nanos % 1_000_000 == 0)
  {
    hide DecodeRow, PeekAtKey, RowBytes, LengthsFit;
    if !LengthsFit(r) {
      BadLengths(r, rest, firstKey);
    } else {
      RowRoundTrip(r, rest, firstKey);
      TimeSurvives(r.expireAt);
      TimeSurvives(r.createdAt);
    }
  }

  lemma BadLengths(r: Row, rest: bytes, firstKey: bytes)
    requires FieldsFit(r) && r.prefixLen <= |firstKey| < UINT16 && !LengthsFit(r)
    ensures DecodeRow(RowBytes(r) + rest, firstKey) != Ok(r)
  {
    hide DecodeKey, DecodeTail, TimeBytes, ValueBytes, RestoredTime, Time.Valid, RowBytes;
    PeekExact(r, rest, firstKey);
    if |r.suffix| < UINT16 {
      SuffixFits(r, rest, firstKey);
    }
  }
}
