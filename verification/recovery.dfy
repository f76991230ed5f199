// Chunked recovery and re-encryption of a slab's shards: recoverShards and reconstructChunk of
// slabs/downloads.go, and the re-encryption step of executeMigration in slabs/migrations.go.
//
// The cipher is a keystream of 64-byte blocks indexed by a block counter, as in section 2.4 of
// RFC 8439; only the first nonce byte varies. The erasure code works on one byte position at a
// time, and any MinShards columns of a codeword determine it.
module Recovery {
  import opened Common

  type Byte = bv8

  const SECTOR_SIZE := 4194304
  const LEAF_SIZE := 64

  // keystream(nonce byte, block counter, position in the block)
  type Keystream = (nat, nat, nat) -> Byte

  // The bytes XORKeyStream produces from data when the counter was set to counter.
  function Xor(ks: Keystream, nonce: nat, counter: nat, data: seq<Byte>): (r: seq<Byte>)
    ensures |r| == |data|
  {
    seq(|data|, j requires 0 <= j < |data| => data[j] ^ ks(nonce, counter + j / LEAF_SIZE, j % LEAF_SIZE))
  }

  // encode turns MinShards data bytes into one byte per shard; decode rebuilds all of them.
  datatype Code = Code(minShards: nat, total: nat, encode: seq<Byte> -> seq<Byte>, decode: seq<Option<Byte>> -> seq<Byte>)

  function Present<T>(cols: seq<Option<T>>): set<nat> {
    set i: nat | i < |cols| && cols[i].Some?
  }

  ghost predicate PartOf(cols: seq<Option<Byte>>, word: seq<Byte>) {
    |cols| == |word| && forall i :: 0 <= i < |cols| && cols[i].Some? ==> cols[i].value == word[i]
  }

  ghost predicate IsCodeword(code: Code, word: seq<Byte>) {
    |word| == code.total && exists data :: |data| == code.minShards && code.encode(data) == word
  }

  // Any MinShards columns of a codeword determine the rest, and decode finds it.
  ghost predicate AnyMinShardsSuffice(code: Code) {
    forall word, cols :: IsCodeword(code, word) && PartOf(cols, word) && |Present(cols)| >= code.minShards ==> code.decode(cols) == word
  }

  // A slab as its uploader made it: row i of plain is shard i, every byte position is a codeword,
  // and stored holds what the hosts keep, each shard encrypted under its own nonce.
  datatype Slab = Slab(code: Code, ks: Keystream, plain: seq<seq<Byte>>, stored: seq<seq<Byte>>)

  ghost function Word(slab: Slab, p: nat): seq<Byte>
    requires p < SECTOR_SIZE && forall row :: row in slab.plain ==> |row| == SECTOR_SIZE
  {
    seq(|slab.plain|, i requires 0 <= i < |slab.plain| => slab.plain[i][p])
  }

  // nonce[0] = byte(i)
  function Nonce(i: nat): nat {
    i % 256
  }

  ghost predicate Genuine(slab: Slab) {
    && AnyMinShardsSuffice(slab.code)
    && |slab.plain| == |slab.stored| == slab.code.total
    && (forall row :: row in slab.plain ==> |row| == SECTOR_SIZE)
    && (forall p :: 0 <= p < SECTOR_SIZE ==> IsCodeword(slab.code, Word(slab, p)))
    && (forall i :: 0 <= i < |slab.plain| ==> slab.stored[i] == Xor(slab.ks, Nonce(i), 0, slab.plain[i]))
  }

  // Decrypting a leaf-aligned window with the counter at offset / LeafSize undoes the encryption
  // of the whole sector.
  lemma DecryptWindow(ks: Keystream, nonce: nat, row: seq<Byte>, offset: nat, length: nat)
    requires offset % LEAF_SIZE == 0 && offset + length <= |row|
    ensures Xor(ks, nonce, offset / LEAF_SIZE, Xor(ks, nonce, 0, row)[offset..offset + length]) == row[offset..offset + length]
  {
    var enc := Xor(ks, nonce, 0, row);
    var dec := Xor(ks, nonce, offset / LEAF_SIZE, enc[offset..offset + length]);
    forall j | 0 <= j < length ensures dec[j] == row[offset + j] {
      SameBlock(offset, j);
      XorTwice(row[offset + j], ks(nonce, (offset + j) / LEAF_SIZE, (offset + j) % LEAF_SIZE));
    }
  }

  lemma SameBlock(offset: nat, j: nat)
    requires offset % LEAF_SIZE == 0
    ensures offset / LEAF_SIZE + j / LEAF_SIZE == (offset + j) / LEAF_SIZE && j % LEAF_SIZE == (offset + j) % LEAF_SIZE
  {
  }

  lemma XorTwice(x: Byte, k: Byte)
    ensures (x ^ k) ^ k == x
  {
  }

  // The columns at byte j of the window.
  function Column(cols: seq<Option<seq<Byte>>>, length: nat, j: nat): seq<Option<Byte>>
    requires j < length && forall c :: c in cols && c.Some? ==> |c.value| == length
  {
    seq(|cols|, i requires 0 <= i < |cols| => if cols[i].None? then None else Some(cols[i].value[j]))
  }

  // What ReconstructSome writes into a missing row.
  function Rebuild(code: Code, cols: seq<Option<seq<Byte>>>, length: nat, i: nat): (r: seq<Byte>)
    requires forall c :: c in cols && c.Some? ==> |c.value| == length
    ensures |r| == length
  {
    seq(length, j requires 0 <= j < length =>
      var word := code.decode(Column(cols, length, j));
      if i < |word| then word[i] else 0)
  }

  // From any MinShards decrypted columns of a window, every row of the window is rebuilt exactly.
  lemma RebuildIsExact(slab: Slab, cols: seq<Option<seq<Byte>>>, offset: nat, length: nat, i: nat)
    requires Genuine(slab) && |cols| == slab.code.total && i < |cols| && offset + length <= SECTOR_SIZE
    requires forall k :: 0 <= k < |cols| && cols[k].Some? ==> cols[k].value == slab.plain[k][offset..offset + length]
    requires |Present(cols)| >= slab.code.minShards
    ensures forall c :: c in cols && c.Some? ==> |c.value| == length
    ensures Rebuild(slab.code, cols, length, i) == slab.plain[i][offset..offset + length]
  {
    assert forall c :: c in cols && c.Some? ==> |c.value| == length;
    forall j | 0 <= j < length ensures Rebuild(slab.code, cols, length, i)[j] == slab.plain[i][offset + j] {
      var column := Column(cols, length, j);
      assert Present(column) == Present(cols);
      assert PartOf(column, Word(slab, offset + j));
    }
  }

  // The segment-aligned chunk size recoverShards derives from the configured one.
  function ChunkSize(configured: int): (r: int)
    ensures LEAF_SIZE <= r <= SECTOR_SIZE && r % LEAF_SIZE == 0
    ensures 0 < configured <= SECTOR_SIZE && configured % LEAF_SIZE == 0 ==> r == configured
  {
    var size := if configured <= 0 || configured > SECTOR_SIZE then SECTOR_SIZE else configured;
    var aligned := size - size % LEAF_SIZE;
    if aligned == 0 then LEAF_SIZE else aligned
  }

  // The chunk indices 0, 1, ..., n - 1.
  function Indices(n: nat): (r: set<nat>)
    ensures forall c: nat :: c in r <==> c < n
  {
    if n == 0 then {} else Indices(n - 1) + {n - 1}
  }

  function NumChunks(chunkSize: nat): nat
    requires chunkSize > 0
  {
    (SECTOR_SIZE + chunkSize - 1) / chunkSize
  }

  function ChunkLength(chunkSize: nat, c: nat): int {
    if c * chunkSize + chunkSize > SECTOR_SIZE then SECTOR_SIZE - c * chunkSize else chunkSize
  }

  lemma ChunkBefore(chunkSize: nat, c: nat, p: nat)
    requires 0 < chunkSize && c < p / chunkSize
    ensures c * chunkSize + chunkSize <= p
  {
    DivBounds(p, chunkSize);
    MulMono(c + 1, p / chunkSize, chunkSize);
    assert (c + 1) * chunkSize == c * chunkSize + chunkSize;
  }

  lemma ChunkAfter(chunkSize: nat, c: nat, p: nat)
    requires 0 < chunkSize && p / chunkSize < c
    ensures p < c * chunkSize
  {
    DivBounds(p, chunkSize);
    MulMono(p / chunkSize + 1, c, chunkSize);
    assert (p / chunkSize + 1) * chunkSize == p / chunkSize * chunkSize + chunkSize;
  }

  lemma InSomeChunk(chunkSize: nat, p: nat)
    requires 0 < chunkSize <= SECTOR_SIZE && p < SECTOR_SIZE
    ensures p / chunkSize < NumChunks(chunkSize)
  {
    DivBounds(p, chunkSize);
    if p / chunkSize >= NumChunks(chunkSize) {
      DivBounds(SECTOR_SIZE + chunkSize - 1, chunkSize);
      MulMono(NumChunks(chunkSize), p / chunkSize, chunkSize);
      assert false;
    }
  }

  predicate InChunk(chunkSize: nat, c: nat, p: nat) {
    c * chunkSize <= p < c * chunkSize + ChunkLength(chunkSize, c)
  }

  // The chunk windows tile the sector: byte p lies in chunk p / chunkSize and in no other.
  lemma ChunksTile(chunkSize: nat, p: nat)
    requires 0 < chunkSize <= SECTOR_SIZE && p < SECTOR_SIZE
    ensures p / chunkSize < NumChunks(chunkSize)
    ensures forall c: nat :: InChunk(chunkSize, c, p) <==> c == p / chunkSize
  {
    DivBounds(p, chunkSize);
    InSomeChunk(chunkSize, p);
    forall c: nat ensures InChunk(chunkSize, c, p) <==> c == p / chunkSize {
      if c < p / chunkSize {
        ChunkBefore(chunkSize, c, p);
      } else if c > p / chunkSize {
        ChunkAfter(chunkSize, c, p);
      }
    }
  }

  lemma FindChunk(chunkSize: nat, p: nat) returns (c: nat)
    requires 0 < chunkSize <= SECTOR_SIZE && p < SECTOR_SIZE
    ensures c < NumChunks(chunkSize) && InChunk(chunkSize, c, p)
  {
    c := p / chunkSize;
    ChunksTile(chunkSize, p);
  }

  lemma OnlyOneChunk(chunkSize: nat, c: nat, d: nat, p: nat)
    requires 0 < chunkSize <= SECTOR_SIZE && p < SECTOR_SIZE && InChunk(chunkSize, c, p) && InChunk(chunkSize, d, p)
    ensures c == d
  {
    ChunksTile(chunkSize, p);
  }

  // Every chunk starts inside the sector, on a leaf boundary, and stays inside it.
  lemma ChunkIsAligned(chunkSize: nat, c: nat)
    requires 0 < chunkSize <= SECTOR_SIZE && chunkSize % LEAF_SIZE == 0 && c < NumChunks(chunkSize)
    ensures c * chunkSize < SECTOR_SIZE && (c * chunkSize) % LEAF_SIZE == 0
    ensures 0 < ChunkLength(chunkSize, c) && c * chunkSize + ChunkLength(chunkSize, c) <= SECTOR_SIZE
  {
    var n := NumChunks(chunkSize);
    assert n * chunkSize <= SECTOR_SIZE + chunkSize - 1 by { DivBounds(SECTOR_SIZE + chunkSize - 1, chunkSize); }
    MulMono(c + 1, n, chunkSize);
    assert (c + 1) * chunkSize == c * chunkSize + chunkSize;
    MultipleOfMultiple(c, chunkSize);
  }

  lemma DivBounds(x: nat, d: nat)
    requires d > 0
    ensures (x / d) * d <= x < (x / d) * d + d
  {
    assert x == d * (x / d) + x % d;
  }

  lemma MulMono(a: nat, b: nat, x: nat)
    requires a <= b
    ensures a * x <= b * x
  {
    assert (b - a) * x >= 0;
  }

  lemma MultipleOfMultiple(c: nat, size: nat)
    requires size % LEAF_SIZE == 0
    ensures (c * size) % LEAF_SIZE == 0
  {
    var k := size / LEAF_SIZE;
    assert c * size == (c * k) * LEAF_SIZE;
  }

  // The output buffers of one recovery: a sector-sized buffer per required shard, nil otherwise.
  class SlabRecovery {
    const slab: Slab
    const required: seq<bool>
    const out: seq<array?<Byte>>

    ghost predicate Valid() {
      && |slab.plain| == |slab.stored| == slab.code.total
      && (forall i :: 0 <= i < |slab.plain| ==> |slab.plain[i]| == SECTOR_SIZE)
      && |required| == |out| == slab.code.total
      && (forall i :: 0 <= i < |out| ==> (out[i] != null <==> required[i]))
      && (forall i :: 0 <= i < |out| && out[i] != null ==> out[i].Length == SECTOR_SIZE)
      && (forall i, j :: 0 <= i < j < |out| && out[i] != null ==> out[i] != out[j])
    }

    ghost function Buffers(): set<array<Byte>> {
      set i | 0 <= i < |out| && out[i] != null :: out[i]
    }

    constructor (slab: Slab, required: seq<bool>)
      requires Genuine(slab) && |required| == slab.code.total
      ensures Valid() && this.slab == slab && this.required == required && fresh(Buffers())
    {
      var bufs: seq<array?<Byte>> := [];
      for i := 0 to |required|
        invariant |bufs| == i
        invariant forall k :: 0 <= k < i ==> (bufs[k] != null <==> required[k])
        invariant forall k :: 0 <= k < i && bufs[k] != null ==> bufs[k].Length == SECTOR_SIZE && fresh(bufs[k])
        invariant forall k, l :: 0 <= k < l < i && bufs[k] != null ==> bufs[k] != bufs[l]
      {
        var buf: array?<Byte> := null;
        if required[i] {
          buf := new Byte[SECTOR_SIZE];
        }
        bufs := bufs + [buf];
      }
      this.slab := slab;
      this.required := required;
      out := bufs;
    }

    // First half of reconstructChunk: decrypt the downloaded columns in place.
    method DecryptColumns(offset: nat, length: nat, cols: array<Option<seq<Byte>>>)
      requires Genuine(slab) && Valid() && cols.Length == slab.code.total
      requires offset % LEAF_SIZE == 0 && offset + length <= SECTOR_SIZE
      requires forall i :: 0 <= i < cols.Length && cols[i].Some? ==> cols[i].value == slab.stored[i][offset..offset + length]
      modifies cols
      ensures Present(cols[..]) == old(Present(cols[..]))
      ensures forall i :: 0 <= i < cols.Length && cols[i].Some? ==> cols[i].value == slab.plain[i][offset..offset + length]
    {
      var counter := offset / LEAF_SIZE;
      forall k: nat | k < cols.Length ensures Xor(slab.ks, Nonce(k), counter, slab.stored[k][offset..offset + length]) == slab.plain[k][offset..offset + length] {
        DecryptWindow(slab.ks, Nonce(k), slab.plain[k], offset, length);
      }
      XorColumns(counter, cols);
    }

    method XorColumns(counter: nat, cols: array<Option<seq<Byte>>>)
      modifies cols
      ensures forall k :: 0 <= k < cols.Length ==>
                cols[k] == if old(cols[k].Some?) then Some(Xor(slab.ks, Nonce(k), counter, old(cols[k].value))) else None
    {
      for i := 0 to cols.Length
        invariant forall k :: 0 <= k < i ==>
                cols[k] == if old(cols[k].Some?) then Some(Xor(slab.ks, Nonce(k), counter, old(cols[k].value))) else None
        invariant forall k :: i <= k < cols.Length ==> cols[k] == old(cols[k])
      {
        if cols[i].Some? {
          cols[i] := Some(Xor(slab.ks, Nonce(i), counter, cols[i].value));
        }
      }
    }

    // Second half: rebuild the required rows and copy them into their window. Fails, touching no
    // buffer, exactly when too few columns are present.
    method ReconstructColumns(offset: nat, length: nat, cols: seq<Option<seq<Byte>>>) returns (ok: bool)
      requires Genuine(slab) && Valid() && |cols| == slab.code.total && offset + length <= SECTOR_SIZE
      requires forall i :: 0 <= i < |cols| && cols[i].Some? ==> cols[i].value == slab.plain[i][offset..offset + length]
      modifies Buffers()
      ensures ok <==> |Present(cols)| >= slab.code.minShards
      ensures ok ==> forall i: nat, p: nat :: i < |out| && out[i] != null && offset <= p < offset + length ==> out[i][p] == slab.plain[i][p]
      ensures forall i: nat, p: nat :: i < |out| && out[i] != null && p < SECTOR_SIZE && !(ok && offset <= p < offset + length) ==> out[i][p] == old(out[i][p])
    {
      ok := |Present(cols)| >= slab.code.minShards;
      if !ok {
        return;
      }
      var i := 0;
      while i < |required|
        invariant 0 <= i <= |required|
        invariant forall k: nat, p: nat :: k < i && out[k] != null && offset <= p < offset + length ==> out[k][p] == slab.plain[k][p]
        invariant forall k: nat, p: nat :: k < |out| && out[k] != null && p < SECTOR_SIZE && !(k < i && offset <= p < offset + length) ==> out[k][p] == old(out[k][p])
      {
        if required[i] {
          RebuildIsExact(slab, cols, offset, length, i);
          var row := if cols[i].Some? then cols[i].value else Rebuild(slab.code, cols, length, i);
          CopyInto(out[i], offset, row);
        }
        i := i + 1;
      }
    }

    // copy(r.out[i][offset:offset+length], row)
    method CopyInto(buf: array<Byte>, offset: nat, row: seq<Byte>)
      requires offset + |row| <= buf.Length
      modifies buf
      ensures forall p :: 0 <= p < buf.Length ==> buf[p] == if offset <= p < offset + |row| then row[p - offset] else old(buf[p])
    {
      for j := 0 to |row|
        invariant forall p :: 0 <= p < buf.Length ==> buf[p] == if offset <= p < offset + j then row[p - offset] else old(buf[p])
      {
        buf[offset + j] := row[j];
      }
    }

    // The shards a set of hosts can answer are enough to reconstruct a chunk.
    ghost predicate Enough(shards: set<nat>) {
      |set i: nat | i < slab.code.total && i in shards| >= slab.code.minShards
    }

    // The columns of one chunk: a verified read returns exactly the bytes the host stores.
    method Download(offset: nat, length: nat, shards: set<nat>) returns (cols: array<Option<seq<Byte>>>)
      requires Genuine(slab) && Valid() && offset + length <= SECTOR_SIZE
      ensures fresh(cols) && cols.Length == slab.code.total
      ensures forall i :: 0 <= i < cols.Length && cols[i].Some? ==> cols[i].value == slab.stored[i][offset..offset + length]
      ensures Present(cols[..]) == set i: nat | i < slab.code.total && i in shards
    {
      cols := new Option<seq<Byte>>[slab.code.total](_ => None);
      for i := 0 to slab.code.total
        invariant forall k :: 0 <= k < i ==> cols[k] == if k in shards then Some(slab.stored[k][offset..offset + length]) else None
        invariant forall k :: i <= k < cols.Length ==> cols[k] == None
      {
        if i in shards {
          cols[i] := Some(slab.stored[i][offset..offset + length]);
        }
      }
    }

    // Every required buffer holds the plaintext on the bytes of chunk c.
    ghost predicate ChunkDone(chunkSize: nat, c: nat)
      requires Valid()
      reads Buffers()
    {
      forall i: nat, p: nat :: i < |out| && out[i] != null && p < SECTOR_SIZE && InChunk(chunkSize, c, p) ==> out[i][p] == slab.plain[i][p]
    }

    // recoverChunk for the c-th chunk, answered by the given shards: it finishes this chunk and
    // undoes no other.
    method RecoverChunk(chunkSize: nat, c: nat, shards: set<nat>) returns (ok: bool)
      requires Genuine(slab) && Valid() && 0 < chunkSize <= SECTOR_SIZE && chunkSize % LEAF_SIZE == 0 && c < NumChunks(chunkSize)
      modifies Buffers()
      ensures ok <==> Enough(shards)
      ensures ok ==> ChunkDone(chunkSize, c)
      ensures forall d {:trigger ChunkDone(chunkSize, d)} :: old(ChunkDone(chunkSize, d)) ==> ChunkDone(chunkSize, d)
    {
      ChunkIsAligned(chunkSize, c);
      var offset, length := c * chunkSize, ChunkLength(chunkSize, c);
      var cols := Download(offset, length, shards);
      DecryptColumns(offset, length, cols);
      ok := ReconstructColumns(offset, length, cols[..]);
      forall d: nat, p: nat | p < SECTOR_SIZE && InChunk(chunkSize, d, p) && d != c ensures !InChunk(chunkSize, c, p) {
        if InChunk(chunkSize, c, p) {
          OnlyOneChunk(chunkSize, c, d, p);
        }
      }
    }

    lemma AllChunksDone(chunkSize: nat, i: nat)
      requires Valid() && 0 < chunkSize <= SECTOR_SIZE && i < |out| && out[i] != null
      requires forall c: nat {:trigger ChunkDone(chunkSize, c)} :: c < NumChunks(chunkSize) ==> ChunkDone(chunkSize, c)
      ensures out[i][..] == slab.plain[i]
    {
      forall p: nat | p < SECTOR_SIZE ensures out[i][p] == slab.plain[i][p] {
        var c := FindChunk(chunkSize, p);
        assert ChunkDone(chunkSize, c);
      }
    }

    // The chunk loop of recoverShards. answered(c) are the shards whose hosts answered chunk c; the
    // chunks finish in an arbitrary order. cancelled tells whether the context has ended once all started
    // chunks are in; it may then have ended earlier and kept some chunks from starting. It succeeds exactly
    // when it has not and every chunk got enough answers, and then every required buffer holds the plaintext
    // shard.
    method RecoverAll(configuredChunkSize: int, answered: nat -> set<nat>, cancelled: bool) returns (ok: bool)
      requires Genuine(slab) && Valid()
      modifies Buffers()
      ensures ok <==> !cancelled && forall c: nat :: c < NumChunks(ChunkSize(configuredChunkSize)) ==> Enough(answered(c))
      ensures ok ==> forall i :: 0 <= i < |out| && out[i] != null ==> out[i][..] == slab.plain[i]
    {
      var chunkSize := ChunkSize(configuredChunkSize);
      var todo := Indices(NumChunks(chunkSize));
      while todo != {}
        invariant forall c :: c in todo ==> c < NumChunks(chunkSize)
        invariant forall c: nat :: c < NumChunks(chunkSize) && c !in todo ==> Enough(answered(c)) && ChunkDone(chunkSize, c)
        decreases todo
      {
        var ended: bool := *;
        if cancelled && ended {
          break;
        }
        var c :| c in todo;
        var got := RecoverChunk(chunkSize, c, answered(c));
        if !got {
          return false;
        }
        todo := todo - {c};
      }
      if cancelled {
        return false;
      }
      ok := true;
      forall i: nat | i < |out| && out[i] != null ensures out[i][..] == slab.plain[i] {
        AllChunksDone(chunkSize, i);
      }
    }
  }

  // executeMigration up to the upload: recover the shards that need migration, then re-encrypt
  // them from block 0. What is handed to the uploaders is byte for byte what the hosts stored.
  method RecoverForUpload(slab: Slab, indices: set<nat>, chunkSize: int, answered: nat -> set<nat>, cancelled: bool)
    returns (ok: bool, shards: seq<array?<Byte>>)
    requires Genuine(slab) && forall i :: i in indices ==> i < slab.code.total
    ensures ok <==> !cancelled && forall c: nat :: c < NumChunks(ChunkSize(chunkSize)) ==>
                      |set i: nat | i < slab.code.total && i in answered(c)| >= slab.code.minShards
    ensures ok ==> |shards| == slab.code.total
    ensures ok ==> forall i :: 0 <= i < |shards| ==> (shards[i] != null <==> i in indices)
    ensures ok ==> forall i :: 0 <= i < |shards| && shards[i] != null ==> shards[i][..] == slab.stored[i]
  {
    var required := seq(slab.code.total, i => i in indices);
    var r := new SlabRecovery(slab, required);
    ok := r.RecoverAll(chunkSize, answered, cancelled);
    shards := r.out;
    if !ok {
      return;
    }
    for i := 0 to |required|
      invariant forall k :: 0 <= k < i && shards[k] != null ==> shards[k][..] == slab.stored[k]
      invariant forall k :: i <= k < |shards| && shards[k] != null ==> shards[k][..] == slab.plain[k]
    {
      if required[i] {
        XorKeyStream(slab.ks, Nonce(i), shards[i]);
      }
    }
  }

  // c.XORKeyStream(shard, shard) with the counter at 0.
  method XorKeyStream(ks: Keystream, nonce: nat, buf: array<Byte>)
    modifies buf
    ensures buf[..] == Xor(ks, nonce, 0, old(buf[..]))
  {
    for j := 0 to buf.Length
      invariant forall k :: 0 <= k < j ==> buf[k] == old(buf[k]) ^ ks(nonce, k / LEAF_SIZE, k % LEAF_SIZE)
      invariant forall k :: j <= k < buf.Length ==> buf[k] == old(buf[k])
    {
      buf[j] := buf[j] ^ ks(nonce, j / LEAF_SIZE, j % LEAF_SIZE);
    }
  }
}
