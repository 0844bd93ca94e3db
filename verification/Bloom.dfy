/** The Bloom filter of an SST (internal/sstable/bloom/bloom.go). The hash function and the number of
    probes, which the source computes in floating point, are parameters. */
module Bloom {
  import opened Tables
  import opened Rows
  import opened Formats

  datatype Filter = Filter(numProbes: nat, data: bytes)

  const EmptyFilter := Filter(0, [])

  // ---------------------------------------------------------------- bits

  /** x & (1 << j) != 0 */
  predicate Bit(x: nat, j: nat) {
    if j == 0 then x % 2 == 1 else Bit(x / 2, j - 1)
  }

  /** x | (1 << j) */
  function OrBit(x: nat, j: nat): nat {
    if j == 0 then x / 2 * 2 + 1 else 2 * OrBit(x / 2, j - 1) + x % 2
  }

  function Pow2(n: nat): (p: nat)
    ensures p > 0
  {
    if n == 0 then 1 else 2 * Pow2(n - 1)
  }

  lemma {:induction false} OrBitSets(x: nat, j: nat, i: nat)
    ensures Bit(OrBit(x, j), i) <==> Bit(x, i) || i == j
  {
    if j > 0 {
      assert OrBit(x, j) / 2 == OrBit(x / 2, j - 1) && OrBit(x, j) % 2 == x % 2;
      if i > 0 {
        OrBitSets(x / 2, j - 1, i - 1);
      }
    }
  }

  lemma {:induction false} OrBitBound(x: nat, j: nat, n: nat)
    requires x < Pow2(n) && j < n
    ensures OrBit(x, j) < Pow2(n)
  {
    if j > 0 {
      OrBitBound(x / 2, j - 1, n - 1);
    }
  }

  lemma {:induction false} SameNumber(x: nat, y: nat, n: nat)
    requires x < Pow2(n) && y < Pow2(n) && forall j :: 0 <= j < n ==> (Bit(x, j) <==> Bit(y, j))
    ensures x == y
  {
    if n > 0 {
      assert Bit(x, 0) <==> Bit(y, 0);
      forall j | 0 <= j < n - 1 ensures Bit(x / 2, j) <==> Bit(y / 2, j) {
        assert Bit(x, j + 1) <==> Bit(y, j + 1);
      }
      SameNumber(x / 2, y / 2, n - 1);
    }
  }

  lemma Pow2Of8()
    ensures Pow2(8) == 256
  {
    assert Pow2(4) == 16;
    assert Pow2(6) == 64;
  }

  predicate CheckBit(bit: nat, data: bytes)
    requires bit < 8 * |data|
  {
    Bit(data[bit / 8], bit % 8)
  }

  lemma {:induction false} BitExact(x: nat, j: nat)
    ensures Bit(x, j) <==> x / Pow2(j) % 2 == 1
  {
    if j > 0 {
      BitExact(x / 2, j - 1);
      HalveFirst(x, Pow2(j - 1));
    }
  }

  lemma HalveFirst(x: nat, p: nat)
    requires p > 0
    ensures x / (2 * p) == x / 2 / p
  {
    var half := x / 2;
    var q, r := half / p, half % p;
    assert half == q * p + r && x == 2 * half + x % 2;
    assert x == q * (2 * p) + (2 * r + x % 2) by {
      assert q * (2 * p) == 2 * (q * p);
    }
    DivUnique(x, q, 2 * r + x % 2, 2 * p);
  }

  lemma MulGap(q: int, r: int, m: nat)
    requires q < r
    ensures r * m >= q * m + m
  {
    assert r * m == q * m + m + (r - q - 1) * m;
  }

  lemma DivUnique(x: int, q: int, r: nat, m: nat)
    requires r < m && x == q * m + r
    ensures x / m == q && x % m == r
  {
    if q < x / m {
      MulGap(q, x / m, m);
    } else if x / m < q {
      MulGap(x / m, q, m);
    }
  }

  /** Bit n of a byte string is bit n % 8 of byte n / 8, the lowest being bit 0. */
  lemma CheckBitExact(bit: nat, data: bytes)
    requires bit < 8 * |data|
    ensures CheckBit(bit, data) <==> data[bit / 8] / Pow2(bit % 8) % 2 == 1
  {
    BitExact(data[bit / 8], bit % 8);
  }

  /** Set one bit of the array; every other bit stays as it is. */
  method SetBit(bit: nat, buf: array<byte>)
    requires bit < 8 * buf.Length
    modifies buf
    ensures forall b :: 0 <= b < 8 * buf.Length ==> (CheckBit(b, buf[..]) <==> b == bit || CheckBit(b, old(buf[..])))
  {
    hide Bit, OrBit;
    var byt, bitInByte := bit / 8, bit % 8;
    ghost var was := buf[..];
    Pow2Of8();
    OrBitBound(buf[byt], bitInByte, 8);
    buf[byt] := OrBit(buf[byt], bitInByte);
    forall b | 0 <= b < 8 * buf.Length
      ensures CheckBit(b, buf[..]) <==> b == bit || CheckBit(b, was)
    {
      if b / 8 == byt {
        OrBitSets(was[byt], bitInByte, b % 8);
      }
    }
  }

  // ---------------------------------------------------------------- probes

  function Mod(x: int, m: nat): (r: nat)
    requires m > 0
    ensures r < m
  {
    x % m
  }

  /** The probe position and the increment before step i of enhanced double hashing. */
  function ProbeState(hash: nat, bits: nat, i: nat): (s: (nat, nat))
    requires bits > 0
    ensures s.0 < bits && s.1 < bits
  {
    if i == 0 then (Mod(hash % UINT32, bits), Mod(hash / UINT32, bits))
    else
      var (h, delta) := ProbeState(hash, bits, i - 1);
      var delta' := Mod(delta + (i - 1), bits);
      (Mod(h + delta', bits), delta')
  }

  function Probe(hash: nat, bits: nat, i: nat): (p: nat)
    requires bits > 0
    ensures p < bits
  {
    ProbeState(hash, bits, i).0
  }

  method ProbesForKey(hash: nat, numProbes: nat, bits: nat) returns (probes: seq<nat>)
    requires bits > 0
    ensures |probes| == numProbes && forall i :: 0 <= i < numProbes ==> probes[i] == Probe(hash, bits, i)
  {
    hide Mod;
    probes := [];
    var h, delta := Mod(hash % UINT32, bits), Mod(hash / UINT32, bits);
    for i := 0 to numProbes
      invariant |probes| == i && (h, delta) == ProbeState(hash, bits, i)
      invariant forall j :: 0 <= j < i ==> probes[j] == Probe(hash, bits, j)
    {
      delta := Mod(delta + i, bits);
      probes := probes + [h];
      h := Mod(h + delta, bits);
    }
  }

  /** i * (i - 1) / 2 and i * (i - 1) * (i + 1) / 6, as the sums that they are. */
  ghost function Triangle(i: nat): nat {
    if i == 0 then 0 else Triangle(i - 1) + (i - 1)
  }

  ghost function Tetrahedron(i: nat): nat {
    if i == 0 then 0 else Tetrahedron(i - 1) + Triangle(i)
  }

  lemma {:induction false} TriangleIs(i: nat)
    ensures 2 * Triangle(i) == i * i - i
  {
    if i > 0 {
      TriangleIs(i - 1);
      assert (i - 1) * (i - 1) == i * i - 2 * i + 1;
    }
  }

  lemma CubeStep(i: int)
    ensures (i - 1) * (i - 1) * (i - 1) == i * i * i - 3 * (i * i) + 3 * i - 1
  {}

  lemma {:induction false} TetrahedronIs(i: nat)
    ensures 6 * Tetrahedron(i) == i * i * i - i
  {
    if i > 0 {
      TetrahedronIs(i - 1);
      TriangleIs(i);
      CubeStep(i);
    }
  }

  lemma ModAdd(a: nat, b: nat, m: nat)
    requires m > 0
    ensures (a % m + b % m) % m == (a + b) % m && (a % m + b) % m == (a + b) % m
  {
    var q, r, sum := a / m, b / m, a % m + b % m;
    var t := sum / m;
    assert (q + r + t) * m == q * m + r * m + t * m && (r + t) * m == r * m + t * m;
    DivUnique(a + b, q + r + t, sum % m, m);
    DivUnique(a % m + b, r + t, sum % m, m);
  }

  lemma ModSum(a: nat, b: nat, sum: nat, m: nat)
    requires m > 0 && sum == a + b
    ensures Mod(Mod(a, m) + Mod(b, m), m) == Mod(sum, m) && Mod(Mod(a, m) + b, m) == Mod(sum, m)
  {
    ModAdd(a, b, m);
  }

  lemma ProductStep(i: nat, d: nat)
    requires i > 0
    ensures i * d == (i - 1) * d + d
  {}

  lemma SumStep(h: nat, d: nat, bits: nat, i: nat)
    requires bits > 0 && i > 0
    ensures Mod(Mod(d + Triangle(i - 1), bits) + (i - 1), bits) == Mod(d + Triangle(i), bits)
    ensures Mod(Mod(h + (i - 1) * d + Tetrahedron(i - 1), bits) + Mod(d + Triangle(i), bits), bits)
         == Mod(h + i * d + Tetrahedron(i), bits)
  {
    hide Mod;
    var before, product, delta := (i - 1) * d, i * d, d + Triangle(i);
    ProductStep(i, d);
    ModSum(d + Triangle(i - 1), i - 1, delta, bits);
    ModSum(h + before + Tetrahedron(i - 1), delta, h + product + Tetrahedron(i), bits);
  }

  lemma {:induction false} ProbeSums(hash: nat, bits: nat, i: nat)
    requires bits > 0
    ensures var h, d := hash % UINT32, hash / UINT32;
            && ProbeState(hash, bits, i).1 == Mod(d + Triangle(i), bits)
            && ProbeState(hash, bits, i).0 == Mod(h + i * d + Tetrahedron(i), bits)
  {
    hide Mod;
    if i > 0 {
      ProbeSums(hash, bits, i - 1);
      SumStep(hash % UINT32, hash / UINT32, bits, i);
    }
  }

  /** The position of probe i, without the loop that finds it. */
  ghost function Position(hash: nat, bits: nat, i: nat): nat
    requires bits > 0
  {
    (hash % UINT32 + i * (hash / UINT32) + (i * i * i - i) / 6) % bits
  }

  /** Probe i stands, modulo the number of bits, at the low half of the hash plus i times the high half plus
      (i^3 - i) / 6. */
  lemma ProbeExact(hash: nat, bits: nat, i: nat)
    requires bits > 0
    ensures Probe(hash, bits, i) == Position(hash, bits, i)
  {
    ProbeSums(hash, bits, i);
    TetrahedronIs(i);
  }

  // ---------------------------------------------------------------- building and asking

  /** filterBytes, with the wrap-around of uint32 arithmetic. */
  function FilterBytes(numKeys: nat, bitsPerKey: nat): nat {
    (numKeys % UINT32 * bitsPerKey % UINT32 + 7) % UINT32 / 8
  }

  /** Without overflow a filter has the least number of bytes that holds its bits. */
  lemma FilterBytesExact(numKeys: nat, bitsPerKey: nat)
    requires numKeys < UINT32 && numKeys * bitsPerKey + 7 < UINT32
    ensures var n := FilterBytes(numKeys, bitsPerKey); 8 * n - 8 < numKeys * bitsPerKey <= 8 * n
  {
    var product := numKeys * bitsPerKey;
    assert numKeys % UINT32 == numKeys;
    assert product % UINT32 == product;
  }

  /** Some key among the hashes probes this bit. */
  ghost predicate Probed(hashes: seq<nat>, numProbes: nat, bits: nat, b: nat)
    requires bits > 0
  {
    exists k, i :: 0 <= k < |hashes| && 0 <= i < numProbes && Probe(hashes[k], bits, i) == b
  }

  /** What HasKey answers for a key with this hash: all its probes find their bit set. */
  predicate HasHash(f: Filter, hash: nat)
    requires f.data == [] || 8 * |f.data| % UINT32 > 0
  {
    && f.data != []
    && forall i :: 0 <= i < f.numProbes ==> CheckBit(Probe(hash, 8 * |f.data| % UINT32, i), f.data)
  }

  /** A key passes if and only if the filter is not empty and has the bit at each of its positions set. */
  lemma HasHashExact(f: Filter, hash: nat)
    requires f.data == [] || 8 * |f.data| % UINT32 > 0
    ensures HasHash(f, hash)
            <==> f.data != [] && forall i :: 0 <= i < f.numProbes ==>
                   var b := Position(hash, 8 * |f.data| % UINT32, i);
                   b < 8 * |f.data| && f.data[b / 8] / Pow2(b % 8) % 2 == 1
  {
    hide CheckBit, Probe;
    if f.data != [] {
      forall i | 0 <= i < f.numProbes
        ensures var bits := 8 * |f.data| % UINT32; var b := Position(hash, bits, i);
                b == Probe(hash, bits, i) && (CheckBit(b, f.data) <==> f.data[b / 8] / Pow2(b % 8) % 2 == 1)
      {
        ProbeExact(hash, 8 * |f.data| % UINT32, i);
        CheckBitExact(Position(hash, 8 * |f.data| % UINT32, i), f.data);
      }
    }
  }

  /** HasKey; a filter whose bit count is 0 as a uint32 makes it divide by zero. */
  method HasKey(f: Filter, hash: nat) returns (r: Decoded<bool>)
    ensures f.data == [] || 8 * |f.data| % UINT32 > 0 ==> r == Ok(HasHash(f, hash))
    ensures f.data != [] && 8 * |f.data| % UINT32 == 0 ==> r == Panic
  {
    hide Bit, ProbeState;
    if f.data == [] {
      return Ok(false);
    }
    var bits := 8 * |f.data| % UINT32;
    if bits == 0 {
      return Panic;
    }
    var probes := ProbesForKey(hash, f.numProbes, bits);
    for i := 0 to |probes|
      invariant forall j :: 0 <= j < i ==> CheckBit(Probe(hash, bits, j), f.data)
    {
      if !CheckBit(probes[i], f.data) {
        return Ok(false);
      }
    }
    return Ok(true);
  }

  /** The filter of a list of hashes: a bit is set exactly if a key probes it. */
  ghost predicate IsFilterOf(f: Filter, hashes: seq<nat>, bitsPerKey: nat, numProbes: nat) {
    if hashes == [] then f == EmptyFilter
    else
      && f.numProbes == numProbes
      && |f.data| == FilterBytes(|hashes|, bitsPerKey) > 0
      && forall b :: 0 <= b < 8 * |f.data| ==> (CheckBit(b, f.data) <==> Probed(hashes, numProbes, 8 * |f.data|, b))
  }

  /** One of the hashes has this position. */
  ghost predicate HasPosition(hashes: seq<nat>, numProbes: nat, bits: nat, b: nat)
    requires bits > 0
  {
    exists k, i :: 0 <= k < |hashes| && 0 <= i < numProbes && Position(hashes[k], bits, i) == b
  }

  lemma ProbedExact(hashes: seq<nat>, numProbes: nat, bits: nat, b: nat)
    requires bits > 0
    ensures Probed(hashes, numProbes, bits, b) <==> HasPosition(hashes, numProbes, bits, b)
  {
    hide Probe, Position;
    forall k, i | 0 <= k < |hashes| && 0 <= i < numProbes
      ensures Probe(hashes[k], bits, i) == Position(hashes[k], bits, i)
    {
      ProbeExact(hashes[k], bits, i);
    }
  }

  /** In the filter of these hashes a bit is set if and only if it is a position of one of them. */
  lemma FilterBitsExact(f: Filter, hashes: seq<nat>, bitsPerKey: nat, numProbes: nat, b: nat)
    requires IsFilterOf(f, hashes, bitsPerKey, numProbes) && b < 8 * |f.data|
    ensures f.data[b / 8] / Pow2(b % 8) % 2 == 1 <==> HasPosition(hashes, numProbes, 8 * |f.data|, b)
  {
    hide CheckBit, Probed, HasPosition, FilterBytes;
    CheckBitExact(b, f.data);
    ProbedExact(hashes, numProbes, 8 * |f.data|, b);
  }

  lemma BitsBelow(n: nat, bitsPerKey: nat)
    ensures 8 * FilterBytes(n, bitsPerKey) < UINT32
  {
    var all := n % UINT32 * bitsPerKey % UINT32 + 7;
    assert all % UINT32 < UINT32;
  }

  /** A hash passes the filter of a list of hashes if and only if each of its positions is a position of one of
      them: so much is told apart, and no more. */
  lemma PassesExact(f: Filter, hashes: seq<nat>, bitsPerKey: nat, numProbes: nat, hash: nat)
    requires IsFilterOf(f, hashes, bitsPerKey, numProbes)
    ensures f.data == [] || 8 * |f.data| % UINT32 == 8 * |f.data|
    ensures HasHash(f, hash)
            <==> hashes != [] && forall i :: 0 <= i < numProbes ==>
                   HasPosition(hashes, numProbes, 8 * |f.data|, Position(hash, 8 * |f.data|, i))
  {
    hide CheckBit, Probe, Position, Probed, HasPosition, FilterBytes;
    if hashes != [] {
      BitsBelow(|hashes|, bitsPerKey);
      forall i | 0 <= i < numProbes
        ensures var bits := 8 * |f.data|;
                CheckBit(Probe(hash, bits, i), f.data)
                <==> HasPosition(hashes, numProbes, bits, Position(hash, bits, i))
      {
        ProbeExact(hash, 8 * |f.data|, i);
        ProbedExact(hashes, numProbes, 8 * |f.data|, Probe(hash, 8 * |f.data|, i));
      }
    }
  }

  lemma SameBits(a: bytes, b: bytes)
    requires |a| == |b| && forall i :: 0 <= i < 8 * |a| ==> (CheckBit(i, a) <==> CheckBit(i, b))
    ensures a == b
  {
    forall i | 0 <= i < |a| ensures a[i] == b[i] {
      forall j | 0 <= j < 8 ensures Bit(a[i], j) <==> Bit(b[i], j) {
        assert CheckBit(8 * i + j, a) <==> CheckBit(8 * i + j, b);
        assert (8 * i + j) / 8 == i && (8 * i + j) % 8 == j;
      }
      Pow2Of8();
      SameNumber(a[i], b[i], 8);
    }
  }

  /** The filter of a list of hashes is unique. */
  lemma FilterUnique(f: Filter, g: Filter, hashes: seq<nat>, bitsPerKey: nat, numProbes: nat)
    requires IsFilterOf(f, hashes, bitsPerKey, numProbes) && IsFilterOf(g, hashes, bitsPerKey, numProbes)
    ensures f == g
  {
    if hashes != [] {
      hide Probed, CheckBit, FilterBytes;
      SameBits(f.data, g.data);
    }
  }

  lemma ProbedSnoc(hashes: seq<nat>, hash: nat, numProbes: nat, bits: nat, b: nat)
    requires bits > 0
    ensures Probed(hashes + [hash], numProbes, bits, b)
            <==> Probed(hashes, numProbes, bits, b) || exists i :: 0 <= i < numProbes && Probe(hash, bits, i) == b
  {
    hide Probe;
    var all := hashes + [hash];
    if Probed(hashes, numProbes, bits, b) {
      var k, i :| 0 <= k < |hashes| && 0 <= i < numProbes && Probe(hashes[k], bits, i) == b;
      assert all[k] == hashes[k];
    }
    if i :| 0 <= i < numProbes && Probe(hash, bits, i) == b {
      assert all[|hashes|] == hash;
    }
  }

  /** Build sets the bits that the keys probe. With keys to add, it divides by zero exactly when the
      number of bytes, computed in uint32, comes out as 0. */
  method Build(hashes: seq<nat>, bitsPerKey: nat, numProbes: nat) returns (r: Decoded<Filter>)
    ensures hashes != [] && FilterBytes(|hashes|, bitsPerKey) == 0 ==> r == Panic
    ensures hashes == [] || FilterBytes(|hashes|, bitsPerKey) > 0 ==>
              r.Ok? && IsFilterOf(r.value, hashes, bitsPerKey, numProbes)
  {
    hide Probe, Probed, Bit;
    if hashes == [] {
      return Ok(EmptyFilter);
    }
    var size := FilterBytes(|hashes|, bitsPerKey);
    if size == 0 {
      return Panic;
    }
    var bits := 8 * size;
    var buf := new byte[size](_ => 0);
    NothingSet(buf[..]);
    NothingProbed(hashes, numProbes, bits);
    for k := 0 to |hashes|
      invariant forall b :: 0 <= b < bits ==> (CheckBit(b, buf[..]) <==> Probed(hashes[..k], numProbes, bits, b))
    {
      SetProbes(hashes[k], numProbes, buf);
      assert hashes[..k + 1] == hashes[..k] + [hashes[k]];
      forall b | 0 <= b < bits
        ensures CheckBit(b, buf[..]) <==> Probed(hashes[..k + 1], numProbes, bits, b)
      {
        ProbedSnoc(hashes[..k], hashes[k], numProbes, bits, b);
      }
    }
    assert hashes[..|hashes|] == hashes;
    return Ok(Filter(numProbes, buf[..]));
  }

  /** Set the bits that one key probes. */
  method SetProbes(hash: nat, numProbes: nat, buf: array<byte>)
    requires buf.Length > 0
    modifies buf
    ensures forall b :: 0 <= b < 8 * buf.Length ==>
              (CheckBit(b, buf[..])
               <==> CheckBit(b, old(buf[..])) || exists i :: 0 <= i < numProbes && Probe(hash, 8 * buf.Length, i) == b)
  {
    hide ProbeState, Bit;
    var probes := ProbesForKey(hash, numProbes, 8 * buf.Length);
    for i := 0 to numProbes
      invariant forall b :: 0 <= b < 8 * buf.Length ==>
                  (CheckBit(b, buf[..]) <==> CheckBit(b, old(buf[..])) || exists j :: 0 <= j < i && probes[j] == b)
    {
      SetBit(probes[i], buf);
    }
  }

  lemma NothingSet(data: bytes)
    requires forall i :: 0 <= i < |data| ==> data[i] == 0
    ensures forall b :: 0 <= b < 8 * |data| ==> !CheckBit(b, data)
  {
    forall b | 0 <= b < 8 * |data| ensures !CheckBit(b, data) {
      assert data[b / 8] == 0;
      NoBit(b % 8);
    }
  }

  lemma {:induction false} NoBit(j: nat)
    ensures !Bit(0, j)
  {
    if j > 0 {
      NoBit(j - 1);
    }
  }

  lemma NothingProbed(hashes: seq<nat>, numProbes: nat, bits: nat)
    requires bits > 0
    ensures forall b :: !Probed(hashes[..0], numProbes, bits, b)
  {}

  /** No false negatives: every key that was added is reported, and every probe that asks for it lies
      inside the bit array. */
  lemma NoFalseNegatives(f: Filter, hashes: seq<nat>, bitsPerKey: nat, numProbes: nat, k: nat)
    requires IsFilterOf(f, hashes, bitsPerKey, numProbes) && k < |hashes|
    ensures 0 < 8 * |f.data| < UINT32 && HasHash(f, hashes[k])
    ensures forall i :: 0 <= i < numProbes ==> Probe(hashes[k], 8 * |f.data| % UINT32, i) < 8 * |f.data|
  {
    hide CheckBit, ProbeState;
    var bits := 8 * |f.data|;
    assert bits < UINT32;
    assert bits % UINT32 == bits;
    forall i | 0 <= i < numProbes ensures CheckBit(Probe(hashes[k], bits, i), f.data) {
      assert Probed(hashes, numProbes, bits, Probe(hashes[k], bits, i));
    }
  }

  // ---------------------------------------------------------------- the byte format

  function FilterFile(f: Formats, codec: nat, filter: Filter): bytes {
    Checksummed(f, f.compress(codec, PutU16(filter.numProbes % UINT16) + filter.data))
  }

  function DecodeFilter(f: Formats, codec: nat, data: bytes): Decoded<Filter> {
    if |data| < 2 then Corrupt
    else if |data| < 4 then Panic
    else
      var compressed := Payload(f, data);
      if compressed.None? then Corrupt else
      var buf := f.decompress(codec, compressed.value);
      if buf.None? then Corrupt
      else if |buf.value| < 2 then Panic
      else Ok(Filter(U16(buf.value), buf.value[2..]))
  }

  /** The stored filter is the number of probes, the high byte first, and the bits. */
  lemma FilterLayout(f: Formats, codec: nat, filter: Filter)
    requires Lossless(f)
    ensures var file := FilterFile(f, codec, filter);
            |file| >= 4 && var buf := f.decompress(codec, file[..|file| - 4]);
            && buf.Some? && |buf.value| == 2 + |filter.data|
            && Number(buf.value[..2]) == filter.numProbes % UINT16 && buf.value[2..] == filter.data
  {
    hide PutU16, Number, Checksummed;
    var buf := PutU16(filter.numProbes % UINT16) + filter.data;
    ChecksumAt(f, f.compress(codec, buf));
    BigEndian(filter.numProbes % UINT16);
    assert buf[..2] == PutU16(filter.numProbes % UINT16) && buf[2..] == filter.data;
  }

  lemma FilterRoundTrip(f: Formats, codec: nat, filter: Filter)
    requires Lossless(f) && filter.numProbes < UINT16
    ensures DecodeFilter(f, codec, FilterFile(f, codec, filter)) == Ok(filter)
    ensures |FilterFile(f, codec, filter)| >= 6
  {
    hide PutU16, U16, Payload, Checksummed;
    var buf := PutU16(filter.numProbes) + filter.data;
    ChecksumInverse(f, f.compress(codec, buf));
    U16Inverse(filter.numProbes, filter.data);
    assert buf[2..] == filter.data;
  }
}
