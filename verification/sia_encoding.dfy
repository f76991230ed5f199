// The Sia encoding of slabs/encoding.go, and the digest and object ID preimages of slabs/slabs.go and
// slabs/objects.go. The primitive encoder is the one of go.sia.tech/core/types: integers are little
// endian, byte strings and slices carry a uint64 length, times are Unix seconds. A failed read makes
// the decoder fail for good.
module SiaEncoding {
  import opened Common

  type Byte = b: int | 0 <= b < 256
  type Bytes = seq<Byte>
  type Hash = h: Bytes | |h| == 32 witness seq(32, _ => 0)
  type Signature = s: Bytes | |s| == 64 witness seq(64, _ => 0)

  const TWO_32 := 0x1_0000_0000
  const TWO_63 := 0x8000_0000_0000_0000
  const TWO_64 := 0x1_0000_0000_0000_0000

  type Uint64 = v: nat | v < TWO_64
  type Uint32 = v: nat | v < TWO_32

  // An instant with an int64 number of Unix seconds.
  datatype Time = Time(secs: int, nanos: nat) {
    predicate Valid() {
      -TWO_63 <= secs < TWO_63 && nanos < 1_000_000_000
    }
  }

  datatype PinnedSector = PinnedSector(root: Hash, hostKey: Hash, uploadedAt: Option<Time>)

  datatype PinnedSlab = PinnedSlab(id: Hash, version: Byte, encryptionKey: Hash, minShards: Uint64, sectors: seq<PinnedSector>)

  datatype SlabSlice = SlabSlice(version: Byte, encryptionKey: Hash, minShards: Uint64, sectors: seq<PinnedSector>,
                                 offset: Uint32, length: Uint32)

  datatype SealedObject = SealedObject(
    encryptedDataKey: Bytes, slabs: seq<SlabSlice>, dataSignature: Signature,
    encryptedMetadataKey: Bytes, encryptedMetadata: Bytes, metadataSignature: Signature,
    createdAt: Time, updatedAt: Time)

  // --- primitive encodings ---

  // The i-th digit to base 256, the lowest first.
  function Digit(v: nat, i: nat): Byte {
    if i == 0 then v % 256 else Digit(v / 256, i - 1)
  }

  function LittleEndian(v: nat, n: nat): (b: Bytes)
    ensures |b| == n
  {
    seq(n, i requires 0 <= i < n => Digit(v, i))
  }

  function FromLittleEndian(b: Bytes): nat {
    if b == [] then 0 else b[0] + 256 * FromLittleEndian(b[1..])
  }

  function Pow256(n: nat): nat {
    if n == 0 then 1 else 256 * Pow256(n - 1)
  }

  function U64(v: Uint64): Bytes {
    LittleEndian(v, 8)
  }

  function TimeBytes(t: Time): Bytes
    requires t.Valid()
  {
    U64(t.secs % TWO_64)
  }

  function Prefixed(b: Bytes): Bytes
    requires |b| < TWO_64
  {
    U64(|b|) + b
  }

  // A decoded value with what is left of the input.
  datatype Decoded<+T> = Failed | Got(value: T, rest: Bytes)

  // Elements decoded earlier go in front.
  function Preceded<T>(first: seq<T>, d: Decoded<seq<T>>): Decoded<seq<T>> {
    if d.Failed? then Failed else Got(first + d.value, d.rest)
  }

  lemma PrecededTwice<T>(first: seq<T>, x: T, d: Decoded<seq<T>>)
    ensures Preceded(first + [x], d) == Preceded(first, Preceded([x], d))
  {
    if d.Got? {
      assert first + [x] + d.value == first + ([x] + d.value);
    }
  }

  lemma PrecededByNone<T>(d: Decoded<seq<T>>)
    ensures Preceded([], d) == d
  {
    if d.Got? {
      assert [] + d.value == d.value;
    }
  }

  function Take(n: nat, b: Bytes): Decoded<Bytes> {
    if |b| < n then Failed else Got(b[..n], b[n..])
  }

  function TakeHash(b: Bytes): Decoded<Hash> {
    if |b| < 32 then Failed else Got(b[..32], b[32..])
  }

  function TakeSignature(b: Bytes): Decoded<Signature> {
    if |b| < 64 then Failed else Got(b[..64], b[64..])
  }

  function TakeByte(b: Bytes): Decoded<Byte> {
    if b == [] then Failed else Got(b[0], b[1..])
  }

  function TakeU64(b: Bytes): Decoded<Uint64> {
    if |b| < 8 then Failed
    else
      DecodedFits(b[..8]);
      Got(FromLittleEndian(b[..8]), b[8..])
  }

  // A length prefix beyond the remaining input is an error.
  function TakePrefix(b: Bytes): Decoded<Uint64> {
    var n := TakeU64(b);
    if n.Got? && n.value > |n.rest| then Failed else n
  }

  function TakeBytes(b: Bytes): Decoded<Bytes> {
    var n := TakePrefix(b);
    if n.Failed? then Failed else Take(n.value, n.rest)
  }

  function TakeTime(b: Bytes): Decoded<Time> {
    var n := TakeU64(b);
    if n.Failed? then Failed else Got(Time(AsInt64(n.value), 0), n.rest)
  }

  function AsInt64(v: Uint64): int {
    if v < TWO_63 then v else v - TWO_64
  }

  lemma {:induction false} LittleEndianRoundTrip(v: nat, n: nat)
    requires v < Pow256(n)
    ensures FromLittleEndian(LittleEndian(v, n)) == v
  {
    if n > 0 {
      LittleEndianRoundTrip(v / 256, n - 1);
      assert LittleEndian(v, n)[1..] == LittleEndian(v / 256, n - 1);
      assert LittleEndian(v, n)[0] == v % 256;
    }
  }

  lemma {:induction false} FromBound(b: Bytes)
    ensures FromLittleEndian(b) < Pow256(|b|)
  {
    if b != [] {
      FromBound(b[1..]);
    }
  }

  lemma Pow256Of8()
    ensures Pow256(8) == TWO_64
  {
    assert Pow256(4) == TWO_32;
    assert Pow256(8) == 256 * 256 * 256 * 256 * Pow256(4);
  }

  lemma DecodedFits(b: Bytes)
    requires |b| == 8
    ensures FromLittleEndian(b) < TWO_64
  {
    FromBound(b);
    Pow256Of8();
  }

  lemma TakesU64(v: Uint64, rest: Bytes)
    ensures TakeU64(U64(v) + rest) == Got(v, rest)
  {
    Pow256Of8();
    LittleEndianRoundTrip(v, 8);
    assert (U64(v) + rest)[..8] == U64(v) && (U64(v) + rest)[8..] == rest;
  }

  lemma TakesBytes(b: Bytes, rest: Bytes)
    requires |b| < TWO_64
    ensures TakeBytes(Prefixed(b) + rest) == Got(b, rest)
  {
    assert Prefixed(b) + rest == U64(|b|) + (b + rest);
    TakesU64(|b|, b + rest);
    assert (b + rest)[..|b|] == b && (b + rest)[|b|..] == rest;
  }

  lemma TakesTime(t: Time, rest: Bytes)
    requires t.Valid()
    ensures TakeTime(TimeBytes(t) + rest) == Got(Time(t.secs, 0), rest)
  {
    TakesU64(t.secs % TWO_64, rest);
    assert AsInt64(t.secs % TWO_64) == t.secs;
  }

  lemma TakesHash(h: Hash, rest: Bytes)
    ensures TakeHash(h + rest) == Got(h, rest)
  {
    assert (h + rest)[..32] == h && (h + rest)[32..] == rest;
  }

  lemma TakesSignature(s: Signature, rest: Bytes)
    ensures TakeSignature(s + rest) == Got(s, rest)
  {
    assert (s + rest)[..64] == s && (s + rest)[64..] == rest;
  }

  lemma Regroup(a: Bytes, b: Bytes, c: Bytes)
    ensures (a + b) + c == a + (b + c)
  {
  }

  lemma Regroup5(a: Bytes, b: Bytes, c: Bytes, d: Bytes, e: Bytes, rest: Bytes)
    ensures a + (b + (c + (d + e))) + rest == a + (b + (c + (d + (e + rest))))
  {
  }

  lemma TakesPrefix(n: Uint64, rest: Bytes)
    requires n <= |rest|
    ensures TakePrefix(U64(n) + rest) == Got(n, rest)
  {
    TakesU64(n, rest);
  }

  // --- sectors ---

  function SectorBytes(s: PinnedSector): Bytes {
    s.root + s.hostKey
  }

  function TakeSector(b: Bytes): Decoded<PinnedSector> {
    var root := TakeHash(b);
    if root.Failed? then Failed
    else
      var key := TakeHash(root.rest);
      if key.Failed? then Failed else Got(PinnedSector(root.value, key.value, None), key.rest)
  }

  function SectorsBytes(s: seq<PinnedSector>): Bytes {
    if s == [] then [] else SectorBytes(s[0]) + SectorsBytes(s[1..])
  }

  function TakeSectors(n: nat, b: Bytes): Decoded<seq<PinnedSector>> {
    if n == 0 then Got([], b)
    else
      var first := TakeSector(b);
      if first.Failed? then Failed else Preceded([first.value], TakeSectors(n - 1, first.rest))
  }

  function TakeSectorSlice(b: Bytes): Decoded<seq<PinnedSector>> {
    var n := TakePrefix(b);
    if n.Failed? then Failed else TakeSectors(n.value, n.rest)
  }

  // The upload time is not part of the encoding.
  function PlainSector(s: PinnedSector): PinnedSector {
    s.(uploadedAt := None)
  }

  function PlainSectors(s: seq<PinnedSector>): seq<PinnedSector> {
    seq(|s|, i requires 0 <= i < |s| => PlainSector(s[i]))
  }

  lemma TakesSector(s: PinnedSector, rest: Bytes)
    ensures TakeSector(SectorBytes(s) + rest) == Got(PlainSector(s), rest)
  {
    assert SectorBytes(s) + rest == s.root + (s.hostKey + rest);
    TakesHash(s.root, s.hostKey + rest);
    TakesHash(s.hostKey, rest);
  }

  lemma {:induction false} TakesSectors(s: seq<PinnedSector>, rest: Bytes)
    ensures TakeSectors(|s|, SectorsBytes(s) + rest) == Got(PlainSectors(s), rest)
    ensures |SectorsBytes(s)| >= |s|
  {
    if s != [] {
      Regroup(SectorBytes(s[0]), SectorsBytes(s[1..]), rest);
      TakesSector(s[0], SectorsBytes(s[1..]) + rest);
      TakesSectors(s[1..], rest);
      assert PlainSectors(s) == [PlainSector(s[0])] + PlainSectors(s[1..]);
    } else {
      assert SectorsBytes(s) + rest == rest && PlainSectors(s) == [];
    }
  }

  lemma TakesSectorSlice(s: seq<PinnedSector>, rest: Bytes)
    requires |s| < TWO_64
    ensures TakeSectorSlice(U64(|s|) + SectorsBytes(s) + rest) == Got(PlainSectors(s), rest)
  {
    TakesSectors(s, rest);
    Regroup(U64(|s|), SectorsBytes(s), rest);
    TakesPrefix(|s|, SectorsBytes(s) + rest);
  }

  // --- pinned slabs ---

  function PinnedSlabBytes(s: PinnedSlab): Bytes
    requires |s.sectors| < TWO_64
  {
    s.id + ([s.version] + (s.encryptionKey + (U64(s.minShards) + (U64(|s.sectors|) + SectorsBytes(s.sectors)))))
  }

  function TakePinnedSlab(b: Bytes): Decoded<PinnedSlab> {
    var id := TakeHash(b);
    if id.Failed? then Failed else
    var version := TakeByte(id.rest);
    if version.Failed? then Failed else
    var key := TakeHash(version.rest);
    if key.Failed? then Failed else
    var minShards := TakeU64(key.rest);
    if minShards.Failed? then Failed else
    var sectors := TakeSectorSlice(minShards.rest);
    if sectors.Failed? then Failed else
    Got(PinnedSlab(id.value, version.value, key.value, minShards.value, sectors.value), sectors.rest)
  }

  // A pinned slab comes back without its upload times, whatever follows it.
  lemma PinnedSlabRoundTrip(s: PinnedSlab, rest: Bytes)
    requires |s.sectors| < TWO_64
    ensures TakePinnedSlab(PinnedSlabBytes(s) + rest) == Got(s.(sectors := PlainSectors(s.sectors)), rest)
  {
    var tail4 := U64(|s.sectors|) + SectorsBytes(s.sectors) + rest;
    var tail3 := U64(s.minShards) + tail4;
    var tail2 := s.encryptionKey + tail3;
    var tail1 := [s.version] + tail2;
    Regroup5(s.id, [s.version], s.encryptionKey, U64(s.minShards), U64(|s.sectors|) + SectorsBytes(s.sectors), rest);
    TakesHash(s.id, tail1);
    assert tail1[1..] == tail2;
    TakesHash(s.encryptionKey, tail3);
    TakesU64(s.minShards, tail4);
    TakesSectorSlice(s.sectors, rest);
  }

  // --- slab slices ---

  // Shifting the offset by 32 bits and or-ing a 32-bit length is this sum.
  function Combined(offset: Uint32, length: Uint32): Uint64 {
    offset * TWO_32 + length
  }

  lemma CombinedIsInjective(o1: Uint32, l1: Uint32, o2: Uint32, l2: Uint32)
    requires Combined(o1, l1) == Combined(o2, l2)
    ensures o1 == o2 && l1 == l2
  {
  }

  function SliceBytes(s: SlabSlice): Bytes
    requires |s.sectors| < TWO_64
  {
    [s.version] + (s.encryptionKey + ([s.minShards % 256] + (U64(|s.sectors|) + SectorsBytes(s.sectors) + U64(Combined(s.offset, s.length)))))
  }

  function TakeSlice(b: Bytes): Decoded<SlabSlice> {
    var version := TakeByte(b);
    if version.Failed? then Failed else
    var key := TakeHash(version.rest);
    if key.Failed? then Failed else
    var minShards := TakeByte(key.rest);
    if minShards.Failed? then Failed else
    var sectors := TakeSectorSlice(minShards.rest);
    if sectors.Failed? then Failed else
    var combined := TakeU64(sectors.rest);
    if combined.Failed? then Failed else
    Got(SlabSlice(version.value, key.value, minShards.value, sectors.value,
                  combined.value / TWO_32, combined.value % TWO_32), combined.rest)
  }

  // What a slice comes back as: the shard count is one byte, upload times are dropped.
  function PlainSlice(s: SlabSlice): SlabSlice {
    s.(minShards := s.minShards % 256, sectors := PlainSectors(s.sectors))
  }

  lemma SliceRoundTrip(s: SlabSlice, rest: Bytes)
    requires |s.sectors| < TWO_64
    ensures TakeSlice(SliceBytes(s) + rest) == Got(PlainSlice(s), rest)
  {
    var combined := Combined(s.offset, s.length);
    var tail4 := U64(combined) + rest;
    var tail3 := U64(|s.sectors|) + SectorsBytes(s.sectors) + tail4;
    var tail2 := [s.minShards % 256] + tail3;
    var tail1 := s.encryptionKey + tail2;
    Regroup5([s.version], s.encryptionKey, [s.minShards % 256], U64(|s.sectors|) + SectorsBytes(s.sectors), U64(combined), rest);
    assert ([s.version] + tail1)[1..] == tail1;
    TakesHash(s.encryptionKey, tail2);
    assert tail2[1..] == tail3;
    TakesSectorSlice(s.sectors, tail4);
    TakesU64(combined, rest);
    assert combined / TWO_32 == s.offset && combined % TWO_32 == s.length;
  }

  predicate SlicesFit(s: seq<SlabSlice>) {
    forall i :: 0 <= i < |s| ==> |s[i].sectors| < TWO_64
  }

  function SlicesBytes(s: seq<SlabSlice>): Bytes
    requires SlicesFit(s)
  {
    if s == [] then [] else SliceBytes(s[0]) + SlicesBytes(s[1..])
  }

  function TakeSlices(n: nat, b: Bytes): Decoded<seq<SlabSlice>> {
    if n == 0 then Got([], b)
    else
      var first := TakeSlice(b);
      if first.Failed? then Failed else Preceded([first.value], TakeSlices(n - 1, first.rest))
  }

  function TakeSliceSlice(b: Bytes): Decoded<seq<SlabSlice>> {
    var n := TakePrefix(b);
    if n.Failed? then Failed else TakeSlices(n.value, n.rest)
  }

  function PlainSlices(s: seq<SlabSlice>): seq<SlabSlice> {
    seq(|s|, i requires 0 <= i < |s| => PlainSlice(s[i]))
  }

  lemma {:induction false} TakesSlices(s: seq<SlabSlice>, rest: Bytes)
    requires SlicesFit(s)
    ensures TakeSlices(|s|, SlicesBytes(s) + rest) == Got(PlainSlices(s), rest)
    ensures |SlicesBytes(s)| >= |s|
  {
    if s != [] {
      var first, others := SliceBytes(s[0]), SlicesBytes(s[1..]);
      Regroup(first, others, rest);
      SliceRoundTrip(s[0], others + rest);
      TakesSlices(s[1..], rest);
      assert PlainSlices(s) == [PlainSlice(s[0])] + PlainSlices(s[1..]);
    } else {
      assert SlicesBytes(s) + rest == rest && PlainSlices(s) == [];
    }
  }

  lemma TakesSliceSlice(s: seq<SlabSlice>, rest: Bytes)
    requires |s| < TWO_64 && SlicesFit(s)
    ensures TakeSliceSlice(U64(|s|) + SlicesBytes(s) + rest) == Got(PlainSlices(s), rest)
  {
    TakesSlices(s, rest);
    Regroup(U64(|s|), SlicesBytes(s), rest);
    TakesPrefix(|s|, SlicesBytes(s) + rest);
  }

  // --- sealed objects ---

  // Lengths are uint64 and times int64 seconds, as every Go value's are.
  predicate Encodable(so: SealedObject) {
    && |so.encryptedDataKey| < TWO_64 && |so.encryptedMetadataKey| < TWO_64 && |so.encryptedMetadata| < TWO_64
    && |so.slabs| < TWO_64 && SlicesFit(so.slabs)
    && so.createdAt.Valid() && so.updatedAt.Valid()
  }

  function ObjectBytes(so: SealedObject): Bytes
    requires Encodable(so)
  {
    Prefixed(so.encryptedDataKey) + (U64(|so.slabs|) + SlicesBytes(so.slabs) + (so.dataSignature
      + (Prefixed(so.encryptedMetadataKey) + (Prefixed(so.encryptedMetadata) + (so.metadataSignature
      + (TimeBytes(so.createdAt) + TimeBytes(so.updatedAt)))))))
  }

  function TakeObject(b: Bytes): Decoded<SealedObject> {
    var dataKey := TakeBytes(b);
    if dataKey.Failed? then Failed else
    var slabs := TakeSliceSlice(dataKey.rest);
    if slabs.Failed? then Failed else
    var dataSig := TakeSignature(slabs.rest);
    if dataSig.Failed? then Failed else
    var metaKey := TakeBytes(dataSig.rest);
    if metaKey.Failed? then Failed else
    var meta := TakeBytes(metaKey.rest);
    if meta.Failed? then Failed else
    var metaSig := TakeSignature(meta.rest);
    if metaSig.Failed? then Failed else
    var created := TakeTime(metaSig.rest);
    if created.Failed? then Failed else
    var updated := TakeTime(created.rest);
    if updated.Failed? then Failed else
    Got(SealedObject(dataKey.value, slabs.value, dataSig.value, metaKey.value, meta.value, metaSig.value,
                     created.value, updated.value), updated.rest)
  }

  function PlainObject(so: SealedObject): SealedObject {
    so.(slabs := PlainSlices(so.slabs), createdAt := Time(so.createdAt.secs, 0), updatedAt := Time(so.updatedAt.secs, 0))
  }

  lemma ObjectRoundTrip(so: SealedObject, rest: Bytes)
    requires Encodable(so)
    ensures TakeObject(ObjectBytes(so) + rest) == Got(PlainObject(so), rest)
  {
    var t7 := TimeBytes(so.updatedAt) + rest;
    var t6 := TimeBytes(so.createdAt) + t7;
    var t5 := so.metadataSignature + t6;
    var t4 := Prefixed(so.encryptedMetadata) + t5;
    var t3 := Prefixed(so.encryptedMetadataKey) + t4;
    var t2 := so.dataSignature + t3;
    var t1 := U64(|so.slabs|) + SlicesBytes(so.slabs) + t2;
    assert ObjectBytes(so) + rest == Prefixed(so.encryptedDataKey) + t1;
    TakesBytes(so.encryptedDataKey, t1);
    TakesSliceSlice(so.slabs, t2);
    TakesSignature(so.dataSignature, t3);
    TakesBytes(so.encryptedMetadataKey, t4);
    TakesBytes(so.encryptedMetadata, t5);
    TakesSignature(so.metadataSignature, t6);
    TakesTime(so.createdAt, t7);
    TakesTime(so.updatedAt, rest);
  }

  predicate NoUploadTimes(s: seq<PinnedSector>) {
    forall i :: 0 <= i < |s| ==> s[i].uploadedAt.None?
  }

  predicate PlainEnough(s: SlabSlice) {
    s.minShards < 256 && NoUploadTimes(s.sectors)
  }

  lemma PlainSectorsIff(s: seq<PinnedSector>)
    ensures PlainSectors(s) == s <==> NoUploadTimes(s)
  {
    if PlainSectors(s) == s {
      forall i | 0 <= i < |s| ensures s[i].uploadedAt.None? {
        assert PlainSectors(s)[i] == s[i];
      }
    }
  }

  lemma PlainSliceIff(s: SlabSlice)
    ensures PlainSlice(s) == s <==> PlainEnough(s)
  {
    PlainSectorsIff(s.sectors);
  }

  // A sealed object survives the encoding unchanged exactly when its slices use at most 255 minimum
  // shards and carry no upload times, and its two times are whole seconds.
  lemma ObjectRoundTripIff(so: SealedObject, rest: Bytes)
    requires Encodable(so)
    ensures TakeObject(ObjectBytes(so) + rest) == Got(so, rest) <==>
      (forall i :: 0 <= i < |so.slabs| ==> PlainEnough(so.slabs[i])) && so.createdAt.nanos == 0 && so.updatedAt.nanos == 0
  {
    ObjectRoundTrip(so, rest);
    forall i | 0 <= i < |so.slabs| ensures PlainSlices(so.slabs)[i] == so.slabs[i] <==> PlainEnough(so.slabs[i]) {
      PlainSliceIff(so.slabs[i]);
    }
    if forall i :: 0 <= i < |so.slabs| ==> PlainEnough(so.slabs[i]) {
      assert PlainSlices(so.slabs) == so.slabs;
    }
    if PlainSlices(so.slabs) == so.slabs {
      forall i | 0 <= i < |so.slabs| ensures PlainEnough(so.slabs[i]) {
        assert PlainSlices(so.slabs)[i] == so.slabs[i];
      }
    }
  }

  // --- digests ---

  function Roots(s: seq<PinnedSector>): Bytes {
    if s == [] then [] else s[0].root + Roots(s[1..])
  }

  // What slabDigest hashes; version 0 writes no byte.
  function DigestPreimage(version: Byte, minShards: Uint64, key: Hash, sectors: seq<PinnedSector>): Bytes {
    (if version > 0 then [version] else []) + (U64(minShards) + (key + Roots(sectors)))
  }

  lemma {:induction false} RootsLength(s: seq<PinnedSector>)
    ensures |Roots(s)| == 32 * |s|
  {
    if s != [] {
      RootsLength(s[1..]);
    }
  }

  predicate SameRoots(s: seq<PinnedSector>, t: seq<PinnedSector>) {
    |s| == |t| && forall i :: 0 <= i < |s| ==> s[i].root == t[i].root
  }

  lemma {:induction false} RootsAreInjective(s: seq<PinnedSector>, t: seq<PinnedSector>)
    requires Roots(s) == Roots(t)
    ensures SameRoots(s, t)
  {
    RootsLength(s);
    RootsLength(t);
    if s != [] {
      TakesHash(s[0].root, Roots(s[1..]));
      TakesHash(t[0].root, Roots(t[1..]));
      RootsAreInjective(s[1..], t[1..]);
    }
  }

  lemma UnversionedIsInjective(m1: Uint64, k1: Hash, s1: seq<PinnedSector>, m2: Uint64, k2: Hash, s2: seq<PinnedSector>)
    requires U64(m1) + (k1 + Roots(s1)) == U64(m2) + (k2 + Roots(s2))
    ensures m1 == m2 && k1 == k2 && SameRoots(s1, s2)
  {
    TakesU64(m1, k1 + Roots(s1));
    TakesU64(m2, k2 + Roots(s2));
    TakesHash(k1, Roots(s1));
    TakesHash(k2, Roots(s2));
    RootsAreInjective(s1, s2);
  }

  // Different parameters are never hashed from the same bytes, although version 0 leaves no trace: the
  // lengths 40 + 32 k and 41 + 32 k tell the two layouts apart.
  lemma DigestPreimageIsInjective(v1: Byte, m1: Uint64, k1: Hash, s1: seq<PinnedSector>,
                                  v2: Byte, m2: Uint64, k2: Hash, s2: seq<PinnedSector>)
    requires DigestPreimage(v1, m1, k1, s1) == DigestPreimage(v2, m2, k2, s2)
    ensures v1 == v2 && m1 == m2 && k1 == k2 && SameRoots(s1, s2)
  {
    RootsLength(s1);
    RootsLength(s2);
    var b1, b2 := U64(m1) + (k1 + Roots(s1)), U64(m2) + (k2 + Roots(s2));
    assert |b1| == 40 + 32 * |s1| && |b2| == 40 + 32 * |s2|;
    var p1: Bytes, p2: Bytes := if v1 > 0 then [v1] else [], if v2 > 0 then [v2] else [];
    assert |p1| + 32 * |s1| == |p2| + 32 * |s2|;
    assert |p1| == |p2|;
    assert b1 == (p1 + b1)[|p1|..] && b2 == (p2 + b2)[|p2|..];
    assert p1 == (p1 + b1)[..|p1|] && p2 == (p2 + b2)[..|p2|];
    UnversionedIsInjective(m1, k1, s1, m2, k2, s2);
  }

  // The bytes a slice's digest is the hash of.
  function SlicePreimage(s: SlabSlice): Bytes {
    DigestPreimage(s.version, s.minShards, s.encryptionKey, s.sectors)
  }

  // hash is any hash function.
  function Digest(hash: Bytes -> Hash, s: SlabSlice): Hash {
    hash(SlicePreimage(s))
  }

  datatype ObjectSlab = ObjectSlab(id: Hash, offset: Uint32, length: Uint32)

  function AsObjectSlab(hash: Bytes -> Hash, s: SlabSlice): ObjectSlab {
    ObjectSlab(Digest(hash, s), s.offset, s.length)
  }

  // What both object IDs hash.
  function IdPreimage(slabs: seq<ObjectSlab>): Bytes {
    if slabs == [] then []
    else
      var n := |slabs| - 1;
      IdPreimage(slabs[..n]) + (slabs[n].id + U64(Combined(slabs[n].offset, slabs[n].length)))
  }

  lemma {:induction false} IdPreimageIsInjective(a: seq<ObjectSlab>, b: seq<ObjectSlab>)
    requires IdPreimage(a) == IdPreimage(b)
    ensures a == b
    decreases |a|
  {
    IdPreimageLength(a);
    IdPreimageLength(b);
    if a != [] {
      var n := |a| - 1;
      var pa, pb := IdPreimage(a[..n]), IdPreimage(b[..n]);
      var ea := a[n].id + U64(Combined(a[n].offset, a[n].length));
      var eb := b[n].id + U64(Combined(b[n].offset, b[n].length));
      IdPreimageLength(a[..n]);
      IdPreimageLength(b[..n]);
      assert pa == (pa + ea)[..40 * n] && pb == (pb + eb)[..40 * n];
      assert ea == (pa + ea)[40 * n..] && eb == (pb + eb)[40 * n..];
      IdPreimageIsInjective(a[..n], b[..n]);
      TakesHash(a[n].id, U64(Combined(a[n].offset, a[n].length)));
      TakesHash(b[n].id, U64(Combined(b[n].offset, b[n].length)));
      TakesU64(Combined(a[n].offset, a[n].length), []);
      TakesU64(Combined(b[n].offset, b[n].length), []);
      assert U64(Combined(a[n].offset, a[n].length)) + [] == U64(Combined(b[n].offset, b[n].length)) + [];
      CombinedIsInjective(a[n].offset, a[n].length, b[n].offset, b[n].length);
      assert a == a[..n] + [a[n]] && b == b[..n] + [b[n]];
    }
  }

  lemma {:induction false} IdPreimageLength(a: seq<ObjectSlab>)
    ensures |IdPreimage(a)| == 40 * |a|
  {
    if a != [] {
      IdPreimageLength(a[..|a| - 1]);
    }
  }

  predicate SameSlab(a: SlabSlice, b: SlabSlice) {
    && a.version == b.version && a.minShards == b.minShards && a.encryptionKey == b.encryptionKey
    && SameRoots(a.sectors, b.sectors) && a.offset == b.offset && a.length == b.length
  }

  predicate Collision(hash: Bytes -> Hash, x: Bytes, y: Bytes) {
    x != y && hash(x) == hash(y)
  }

  function Slabs(hash: Bytes -> Hash, s: seq<SlabSlice>): seq<ObjectSlab> {
    seq(|s|, i requires 0 <= i < |s| => AsObjectSlab(hash, s[i]))
  }

  // Equal digests bind the slices in every field but the host keys, unless the hash collides on exactly
  // the two preimages.
  lemma DigestBinds(hash: Bytes -> Hash, a: SlabSlice, b: SlabSlice)
    requires AsObjectSlab(hash, a) == AsObjectSlab(hash, b)
    ensures SameSlab(a, b) || Collision(hash, SlicePreimage(a), SlicePreimage(b))
  {
    if SlicePreimage(a) == SlicePreimage(b) {
      DigestPreimageIsInjective(a.version, a.minShards, a.encryptionKey, a.sectors,
                                b.version, b.minShards, b.encryptionKey, b.sectors);
    }
  }

  lemma {:induction false} RootsAreAll(s: seq<PinnedSector>, t: seq<PinnedSector>)
    requires SameRoots(s, t)
    ensures Roots(s) == Roots(t)
  {
    if s != [] {
      RootsAreAll(s[1..], t[1..]);
    }
  }

  // Conversely nothing but these fields enters the ID.
  lemma {:induction false} SameSlabsSameId(hash: Bytes -> Hash, a: seq<SlabSlice>, b: seq<SlabSlice>)
    requires |a| == |b| && forall i :: 0 <= i < |a| ==> SameSlab(a[i], b[i])
    ensures IdPreimage(Slabs(hash, a)) == IdPreimage(Slabs(hash, b))
  {
    forall i | 0 <= i < |a| ensures AsObjectSlab(hash, a[i]) == AsObjectSlab(hash, b[i]) {
      RootsAreAll(a[i].sectors, b[i].sectors);
    }
    assert Slabs(hash, a) == Slabs(hash, b);
  }

  // An equal object ID binds the slices in every field but the host keys, unless the hash collides on
  // the bytes of the two IDs, or on the bytes of two slices at the same place.
  lemma ObjectIdBinds(hash: Bytes -> Hash, a: seq<SlabSlice>, b: seq<SlabSlice>)
    requires hash(IdPreimage(Slabs(hash, a))) == hash(IdPreimage(Slabs(hash, b)))
    ensures Collision(hash, IdPreimage(Slabs(hash, a)), IdPreimage(Slabs(hash, b)))
      || (|a| == |b| && forall i :: 0 <= i < |a| ==>
            SameSlab(a[i], b[i]) || Collision(hash, SlicePreimage(a[i]), SlicePreimage(b[i])))
  {
    if IdPreimage(Slabs(hash, a)) == IdPreimage(Slabs(hash, b)) {
      IdPreimageIsInjective(Slabs(hash, a), Slabs(hash, b));
      assert |Slabs(hash, a)| == |Slabs(hash, b)|;
      forall i | 0 <= i < |a| ensures SameSlab(a[i], b[i]) || Collision(hash, SlicePreimage(a[i]), SlicePreimage(b[i])) {
        assert Slabs(hash, a)[i] == Slabs(hash, b)[i];
        DigestBinds(hash, a[i], b[i]);
      }
    }
  }

  // --- the streams ---

  lemma WritesInTurn(b: Bytes, p1: Bytes, p2: Bytes, p3: Bytes, p4: Bytes, p5: Bytes, p6: Bytes, p7: Bytes, p8: Bytes)
    ensures b + p1 + p2 + p3 + p4 + p5 + p6 + p7 + p8 == b + (p1 + (p2 + (p3 + (p4 + (p5 + (p6 + (p7 + p8)))))))
  {
  }

  class Encoder {
    var buf: Bytes

    constructor ()
      ensures buf == []
    {
      buf := [];
    }

    method Write(b: Bytes)
      modifies this
      ensures buf == old(buf) + b
    {
      buf := buf + b;
    }

    method WriteUint8(v: Byte)
      modifies this
      ensures buf == old(buf) + [v]
    {
      Write([v]);
    }

    method WriteUint64(v: Uint64)
      modifies this
      ensures buf == old(buf) + U64(v)
    {
      Write(U64(v));
    }

    method WriteBytes(b: Bytes)
      requires |b| < TWO_64
      modifies this
      ensures buf == old(buf) + Prefixed(b)
    {
      WriteUint64(|b|);
      Write(b);
    }

    method WriteTime(t: Time)
      requires t.Valid()
      modifies this
      ensures buf == old(buf) + TimeBytes(t)
    {
      WriteUint64(t.secs % TWO_64);
    }

    method EncodeSectors(s: seq<PinnedSector>)
      requires |s| < TWO_64
      modifies this
      ensures buf == old(buf) + (U64(|s|) + SectorsBytes(s))
    {
      WriteUint64(|s|);
      ghost var start := buf;
      for i := 0 to |s|
        invariant buf + SectorsBytes(s[i..]) == start + SectorsBytes(s)
      {
        assert s[i..][1..] == s[i + 1..];
        ghost var rest := SectorsBytes(s[i + 1..]);
        assert buf + (SectorBytes(s[i]) + rest) == buf + s[i].root + s[i].hostKey + rest;
        Write(s[i].root);
        Write(s[i].hostKey);
      }
      assert buf + SectorsBytes(s[|s|..]) == buf;
    }

    method EncodePinnedSlab(s: PinnedSlab)
      requires |s.sectors| < TWO_64
      modifies this
      ensures buf == old(buf) + PinnedSlabBytes(s)
    {
      Write(s.id);
      WriteUint8(s.version);
      Write(s.encryptionKey);
      WriteUint64(s.minShards);
      EncodeSectors(s.sectors);
    }

    method EncodeSlice(s: SlabSlice)
      requires |s.sectors| < TWO_64
      modifies this
      ensures buf == old(buf) + SliceBytes(s)
    {
      WriteUint8(s.version);
      Write(s.encryptionKey);
      WriteUint8(s.minShards % 256);
      EncodeSectors(s.sectors);
      WriteUint64(Combined(s.offset, s.length));
    }

    method EncodeSlices(s: seq<SlabSlice>)
      requires |s| < TWO_64 && SlicesFit(s)
      modifies this
      ensures buf == old(buf) + (U64(|s|) + SlicesBytes(s))
    {
      WriteUint64(|s|);
      ghost var start := buf;
      for i := 0 to |s|
        invariant buf + SlicesBytes(s[i..]) == start + SlicesBytes(s)
      {
        assert s[i..][1..] == s[i + 1..];
        ghost var rest := SlicesBytes(s[i + 1..]);
        assert buf + (SliceBytes(s[i]) + rest) == buf + SliceBytes(s[i]) + rest;
        EncodeSlice(s[i]);
      }
      assert buf + SlicesBytes(s[|s|..]) == buf;
    }

    method EncodeObject(so: SealedObject)
      requires Encodable(so)
      modifies this
      ensures buf == old(buf) + ObjectBytes(so)
    {
      WriteBytes(so.encryptedDataKey);
      EncodeSlices(so.slabs);
      Write(so.dataSignature);
      WriteBytes(so.encryptedMetadataKey);
      WriteBytes(so.encryptedMetadata);
      Write(so.metadataSignature);
      WriteTime(so.createdAt);
      WriteTime(so.updatedAt);
      WritesInTurn(old(buf), Prefixed(so.encryptedDataKey), U64(|so.slabs|) + SlicesBytes(so.slabs), so.dataSignature,
                   Prefixed(so.encryptedMetadataKey), Prefixed(so.encryptedMetadata), so.metadataSignature,
                   TimeBytes(so.createdAt), TimeBytes(so.updatedAt));
    }

    // A hasher's sum over what was written.
    method Sum(hash: Bytes -> Hash) returns (h: Hash)
      ensures h == hash(buf)
    {
      h := hash(buf);
    }
  }

  // The state of a decoder after reading from input, as the decoding function says.
  predicate ReadAs<T(==)>(failedBefore: bool, d: Decoded<T>, failed: bool, rest: Bytes, value: T) {
    && (failed <==> failedBefore || d.Failed?)
    && (!failed ==> d == Got(value, rest))
  }

  class Decoder {
    var data: Bytes
    var failed: bool

    constructor (b: Bytes)
      ensures data == b && !failed
    {
      data, failed := b, false;
    }

    method Read(n: nat) returns (b: Bytes)
      modifies this
      ensures ReadAs(old(failed), Take(n, old(data)), failed, data, b) && |b| == n
    {
      if failed || |data| < n {
        failed := true;
        return seq(n, _ => 0);
      }
      b, data := data[..n], data[n..];
    }

    method ReadUint8() returns (v: Byte)
      modifies this
      ensures ReadAs(old(failed), TakeByte(old(data)), failed, data, v)
    {
      var b := Read(1);
      return b[0];
    }

    method ReadUint64() returns (v: Uint64)
      modifies this
      ensures ReadAs(old(failed), TakeU64(old(data)), failed, data, v)
    {
      var b := Read(8);
      DecodedFits(b);
      return FromLittleEndian(b);
    }

    method ReadPrefix() returns (n: Uint64)
      modifies this
      ensures ReadAs(old(failed), TakePrefix(old(data)), failed, data, n)
      ensures failed ==> n == 0
    {
      n := ReadUint64();
      if failed || n > |data| {
        failed := true;
        return 0;
      }
    }

    method ReadBytes() returns (b: Bytes)
      modifies this
      ensures ReadAs(old(failed), TakeBytes(old(data)), failed, data, b)
    {
      var n := ReadPrefix();
      b := Read(n);
    }

    method ReadHash() returns (h: Hash)
      modifies this
      ensures ReadAs(old(failed), TakeHash(old(data)), failed, data, h)
    {
      h := Read(32);
    }

    method ReadSignature() returns (s: Signature)
      modifies this
      ensures ReadAs(old(failed), TakeSignature(old(data)), failed, data, s)
    {
      s := Read(64);
    }

    method ReadTime() returns (t: Time)
      modifies this
      ensures ReadAs(old(failed), TakeTime(old(data)), failed, data, t)
    {
      var v := ReadUint64();
      return Time(AsInt64(v), 0);
    }

    method DecodeSector() returns (s: PinnedSector)
      modifies this
      ensures ReadAs(old(failed), TakeSector(old(data)), failed, data, s)
    {
      var root := ReadHash();
      var key := ReadHash();
      return PinnedSector(root, key, None);
    }

    method DecodeSectors() returns (s: seq<PinnedSector>)
      modifies this
      ensures ReadAs(old(failed), TakeSectorSlice(old(data)), failed, data, s)
    {
      var n := ReadPrefix();
      ghost var whole, bad := TakeSectors(n, data), failed;
      s := [];
      PrecededByNone(whole);
      for i := 0 to n
        invariant |s| == i
        invariant failed ==> bad || whole.Failed?
        invariant !failed ==> !bad && whole == Preceded(s, TakeSectors(n - i, data))
      {
        var one := DecodeSector();
        if !failed {
          PrecededTwice(s, one, TakeSectors(n - i - 1, data));
        }
        s := s + [one];
      }
      assert s + [] == s;
    }

    method DecodePinnedSlab() returns (s: PinnedSlab)
      modifies this
      ensures ReadAs(old(failed), TakePinnedSlab(old(data)), failed, data, s)
    {
      var id := ReadHash();
      var version := ReadUint8();
      var key := ReadHash();
      var minShards := ReadUint64();
      var sectors := DecodeSectors();
      return PinnedSlab(id, version, key, minShards, sectors);
    }

    method DecodeSlice() returns (s: SlabSlice)
      modifies this
      ensures ReadAs(old(failed), TakeSlice(old(data)), failed, data, s)
    {
      var version := ReadUint8();
      var key := ReadHash();
      var minShards := ReadUint8();
      var sectors := DecodeSectors();
      var combined := ReadUint64();
      return SlabSlice(version, key, minShards, sectors, combined / TWO_32, combined % TWO_32);
    }

    method DecodeSlices() returns (s: seq<SlabSlice>)
      modifies this
      ensures ReadAs(old(failed), TakeSliceSlice(old(data)), failed, data, s)
    {
      var n := ReadPrefix();
      ghost var whole, bad := TakeSlices(n, data), failed;
      s := [];
      PrecededByNone(whole);
      for i := 0 to n
        invariant |s| == i
        invariant failed ==> bad || whole.Failed?
        invariant !failed ==> !bad && whole == Preceded(s, TakeSlices(n - i, data))
      {
        var one := DecodeSlice();
        if !failed {
          PrecededTwice(s, one, TakeSlices(n - i - 1, data));
        }
        s := s + [one];
      }
      assert s + [] == s;
    }

    method DecodeObject() returns (so: SealedObject)
      modifies this
      ensures ReadAs(old(failed), TakeObject(old(data)), failed, data, so)
    {
      var dataKey := ReadBytes();
      var slabs := DecodeSlices();
      var dataSig := ReadSignature();
      var metaKey := ReadBytes();
      var meta := ReadBytes();
      var metaSig := ReadSignature();
      var created := ReadTime();
      var updated := ReadTime();
      return SealedObject(dataKey, slabs, dataSig, metaKey, meta, metaSig, created, updated);
    }
  }

  // MarshalSia followed by UnmarshalSia into a zero value.
  method MarshalUnmarshal(so: SealedObject) returns (back: SealedObject, failed: bool)
    requires Encodable(so)
    ensures !failed && back == PlainObject(so)
  {
    var e := new Encoder();
    e.EncodeObject(so);
    ObjectRoundTrip(so, []);
    assert e.buf == ObjectBytes(so) + [];
    var d := new Decoder(e.buf);
    back := d.DecodeObject();
    failed := d.failed;
  }

  // --- the hashing loops ---

  method SlabDigest(hash: Bytes -> Hash, version: Byte, minShards: Uint64, key: Hash, sectors: seq<PinnedSector>) returns (h: Hash)
    ensures h == hash(DigestPreimage(version, minShards, key, sectors))
  {
    var e := new Encoder();
    if version > 0 {
      e.WriteUint8(version);
    }
    e.WriteUint64(minShards);
    e.Write(key);
    ghost var start := e.buf;
    for i := 0 to |sectors|
      invariant fresh(e) && e.buf + Roots(sectors[i..]) == start + Roots(sectors)
    {
      assert sectors[i..][1..] == sectors[i + 1..];
      ghost var rest := Roots(sectors[i + 1..]);
      assert e.buf + (sectors[i].root + rest) == e.buf + sectors[i].root + rest;
      e.Write(sectors[i].root);
    }
    assert e.buf + Roots(sectors[|sectors|..]) == e.buf;
    assert e.buf == DigestPreimage(version, minShards, key, sectors);
    h := e.Sum(hash);
  }

  method ObjectID(hash: Bytes -> Hash, slabs: seq<SlabSlice>) returns (h: Hash)
    ensures h == hash(IdPreimage(Slabs(hash, slabs)))
  {
    var e := new Encoder();
    for i := 0 to |slabs|
      invariant fresh(e) && e.buf == IdPreimage(Slabs(hash, slabs)[..i])
    {
      var s := slabs[i];
      var id := SlabDigest(hash, s.version, s.minShards, s.encryptionKey, s.sectors);
      e.Write(id);
      e.WriteUint64(Combined(s.offset, s.length));
      assert Slabs(hash, slabs)[..i + 1][..i] == Slabs(hash, slabs)[..i];
    }
    assert Slabs(hash, slabs)[..|slabs|] == Slabs(hash, slabs);
    h := e.Sum(hash);
  }

  method PinnedObjectID(hash: Bytes -> Hash, slabs: seq<ObjectSlab>) returns (h: Hash)
    ensures h == hash(IdPreimage(slabs))
  {
    var e := new Encoder();
    for i := 0 to |slabs|
      invariant fresh(e) && e.buf == IdPreimage(slabs[..i])
    {
      e.Write(slabs[i].id);
      e.WriteUint64(Combined(slabs[i].offset, slabs[i].length));
      assert slabs[..i + 1][..i] == slabs[..i];
    }
    assert slabs[..|slabs|] == slabs;
    h := e.Sum(hash);
  }

  datatype PinObjectRequest = PinObjectRequest(
    id: Hash, encryptedDataKey: Bytes, slabs: seq<ObjectSlab>, dataSignature: Signature,
    encryptedMetadataKey: Bytes, encryptedMetadata: Bytes, metadataSignature: Signature)

  // The ID of a request is the one the indexer recomputes from the request's own slabs.
  method PinRequest(hash: Bytes -> Hash, so: SealedObject) returns (r: PinObjectRequest)
    ensures r.id == hash(IdPreimage(r.slabs)) && r.slabs == Slabs(hash, so.slabs)
    ensures r.encryptedDataKey == so.encryptedDataKey && r.dataSignature == so.dataSignature
    ensures r.encryptedMetadataKey == so.encryptedMetadataKey && r.encryptedMetadata == so.encryptedMetadata
    ensures r.metadataSignature == so.metadataSignature
  {
    var os := [];
    for i := 0 to |so.slabs|
      invariant os == Slabs(hash, so.slabs)[..i]
    {
      var s := so.slabs[i];
      var id := SlabDigest(hash, s.version, s.minShards, s.encryptionKey, s.sectors);
      os := os + [ObjectSlab(id, s.offset, s.length)];
    }
    assert os == Slabs(hash, so.slabs);
    var id := ObjectID(hash, so.slabs);
    r := PinObjectRequest(id, so.encryptedDataKey, os, so.dataSignature, so.encryptedMetadataKey, so.encryptedMetadata, so.metadataSignature);
  }
}
