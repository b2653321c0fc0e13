/** How a transfer lays its chunks out in the part file, and how a sender cuts them. */
module ReceiveLayout {
  import opened Wrappers

  const CHUNK_SIZE := 1024 * 1024
  const MAX_FILE_SIZE := 500 * 1024 * 1024

  datatype Manifest = Manifest(
    transferId: string,
    fileName: string,
    fileSize: int,
    chunkSize: int,
    totalChunks: int,
    sha256: string)

  predicate IsHex(c: char) {
    '0' <= c <= '9' || 'a' <= c <= 'f' || 'A' <= c <= 'F'
  }

  predicate IsLowerHex(c: char) {
    '0' <= c <= '9' || 'a' <= c <= 'f'
  }

  /** The UUID pattern: hexadecimal groups of 8-4-4-4-12, version 1 to 8, variant 8, 9, a or b. */
  predicate ValidTransferId(id: string) {
    && |id| == 36
    && (forall i | 0 <= i < 36 :: if i in {8, 13, 18, 23} then id[i] == '-' else IsHex(id[i]))
    && '1' <= id[14] <= '8'
    && id[19] in {'8', '9', 'a', 'b', 'A', 'B'}
  }

  /** A name that is its own last path element (a lone slash is). */
  predicate ValidFileName(name: string) {
    name == "/" || ('/' !in name && name != "" && name != "." && name != "..")
  }

  function Validate(m: Manifest): Result<()> {
    if !ValidTransferId(m.transferId) then Err("invalid_transfer_id")
    else if m.fileSize < 1 || m.fileSize > MAX_FILE_SIZE then Err("invalid_file_size")
    else if m.chunkSize != CHUNK_SIZE then Err("invalid_chunk_size")
    else if m.totalChunks != (m.fileSize + m.chunkSize - 1) / m.chunkSize then Err("invalid_total_chunks")
    else if |m.sha256| != 64 || exists c | c in m.sha256 :: !IsHex(c) then Err("invalid_sha256")
    else if !ValidFileName(m.fileName) then Err("invalid_file_name")
    else Ok(())
  }

  /** What the receiver relies on once a manifest is accepted. */
  predicate Laid(m: Manifest) {
    && 1 <= m.fileSize
    && m.chunkSize == CHUNK_SIZE
    && m.totalChunks == (m.fileSize + CHUNK_SIZE - 1) / CHUNK_SIZE
  }

  function ChunkLength(m: Manifest, index: nat): int {
    if m.fileSize - index * CHUNK_SIZE < CHUNK_SIZE then m.fileSize - index * CHUNK_SIZE else CHUNK_SIZE
  }

  /** An accepted manifest has 1 to 500 chunks, none empty, the last ending with the file. */
  lemma AcceptedManifestIsLaid(m: Manifest)
    requires Validate(m).Ok?
    ensures Laid(m) && 1 <= m.totalChunks <= 500
    ensures forall i: nat | i < m.totalChunks :: 1 <= ChunkLength(m, i) <= CHUNK_SIZE
    ensures (m.totalChunks - 1) * CHUNK_SIZE + ChunkLength(m, m.totalChunks - 1) == m.fileSize
  {
    forall i: nat | i < m.totalChunks ensures 1 <= ChunkLength(m, i) {
      ChunkInFile(m, i);
    }
  }

  lemma ChunkInFile(m: Manifest, i: nat)
    requires Laid(m) && i < m.totalChunks
    ensures 1 <= ChunkLength(m, i) <= CHUNK_SIZE
    ensures i * CHUNK_SIZE + ChunkLength(m, i) <= m.fileSize
  {}

  /** The bytes of chunk `i` in a part file at least as long as the file. */
  function Slot(bytes: seq<byte>, m: Manifest, i: nat): (slot: seq<byte>)
    requires Laid(m) && i < m.totalChunks && |bytes| >= m.fileSize
    ensures |slot| == ChunkLength(m, i)
  {
    ChunkInFile(m, i);
    bytes[i * CHUNK_SIZE..i * CHUNK_SIZE + ChunkLength(m, i)]
  }

  function Overwrite(bytes: seq<byte>, offset: nat, data: seq<byte>): (result: seq<byte>)
    requires offset + |data| <= |bytes|
    ensures |result| == |bytes|
  {
    bytes[..offset] + data + bytes[offset + |data|..]
  }

  lemma OverwriteAt(bytes: seq<byte>, offset: nat, data: seq<byte>, p: nat)
    requires offset + |data| <= |bytes| && p < |bytes|
    ensures Overwrite(bytes, offset, data)[p] ==
            if offset <= p < offset + |data| then data[p - offset] else bytes[p]
  {}

  /** Writing inside one slot leaves every other slot alone. */
  lemma OverwriteKeepsOtherSlots(bytes: seq<byte>, m: Manifest, i: nat, data: seq<byte>, j: nat)
    requires Laid(m) && i < m.totalChunks && j < m.totalChunks && i != j
    requires |bytes| >= m.fileSize && |data| <= ChunkLength(m, i)
    requires i * CHUNK_SIZE + |data| <= |bytes|
    ensures Slot(Overwrite(bytes, i * CHUNK_SIZE, data), m, j) == Slot(bytes, m, j)
  {
    ChunkInFile(m, i);
    ChunkInFile(m, j);
    var after := Overwrite(bytes, i * CHUNK_SIZE, data);
    forall p | j * CHUNK_SIZE <= p < j * CHUNK_SIZE + ChunkLength(m, j) ensures after[p] == bytes[p] {
      OverwriteAt(bytes, i * CHUNK_SIZE, data, p);
    }
  }

  lemma OverwriteFillsSlot(bytes: seq<byte>, m: Manifest, i: nat, data: seq<byte>)
    requires Laid(m) && i < m.totalChunks
    requires |bytes| >= m.fileSize && |data| == ChunkLength(m, i)
    requires i * CHUNK_SIZE + |data| <= |bytes|
    ensures Slot(Overwrite(bytes, i * CHUNK_SIZE, data), m, i) == data
  {
    ChunkInFile(m, i);
  }

  /** A file is determined by its slots. */
  lemma SlotsDetermineFile(a: seq<byte>, b: seq<byte>, m: Manifest)
    requires Laid(m) && |a| >= m.fileSize && |b| >= m.fileSize
    requires forall i: nat | i < m.totalChunks :: Slot(a, m, i) == Slot(b, m, i)
    ensures a[..m.fileSize] == b[..m.fileSize]
  {
    forall p | 0 <= p < m.fileSize ensures a[p] == b[p] {
      var i := p / CHUNK_SIZE;
      ChunkInFile(m, i);
      assert Slot(a, m, i)[p - i * CHUNK_SIZE] == a[p];
      assert Slot(b, m, i)[p - i * CHUNK_SIZE] == b[p];
    }
  }

  // ---- the sender's side ----

  datatype Inspection = Inspection(size: nat, chunkSize: int, total: nat, sha256: string)

  /** `okSteps` counts open, stat and read; `hash` is the digest in hexadecimal. */
  method InspectFile(source: seq<byte>, chunkSize: int, hash: seq<byte> -> string, okSteps: nat) returns (r: Result<Inspection>)
    ensures r.Ok? <==> 1 <= chunkSize <= CHUNK_SIZE && okSteps >= 3
    ensures r.Ok? ==>
              && r.value.size == |source| && r.value.chunkSize == chunkSize && r.value.sha256 == hash(source)
              && (r.value.total - 1) * chunkSize < |source| <= r.value.total * chunkSize
    ensures r.Err? ==> r.error == if 1 <= chunkSize <= CHUNK_SIZE then "io_error" else "invalid_chunk_size"
  {
    if chunkSize < 1 || chunkSize > CHUNK_SIZE {
      return Err("invalid_chunk_size");
    }
    if okSteps < 3 {
      return Err("io_error");
    }
    var total := (|source| + chunkSize - 1) / chunkSize;
    DivisionRoundsUp(|source|, chunkSize);
    return Ok(Inspection(|source|, chunkSize, total, hash(source)));
  }

  lemma DivisionRoundsUp(size: nat, n: int)
    requires n >= 1
    ensures var q := (size + n - 1) / n; q >= 0 && (q - 1) * n < size <= q * n
  {
    var q := (size + n - 1) / n;
    var r := (size + n - 1) % n;
    assert size + n - 1 == q * n + r;
    assert (q - 1) * n == q * n - n;
  }

  /** Chunk `index` of a file: `chunkSize` bytes, fewer at the end of the file. */
  function ChunkOf(source: seq<byte>, index: nat, chunkSize: nat): seq<byte>
    requires index * chunkSize <= |source|
  {
    if |source| - index * chunkSize < chunkSize then source[index * chunkSize..]
    else source[index * chunkSize..index * chunkSize + chunkSize]
  }

  const TWO_63 := 0x8000_0000_0000_0000

  /** The 64-bit signed number a product comes out as. */
  function Wrap64(n: int): (wrapped: int)
    ensures -TWO_63 <= wrapped < TWO_63
    ensures -TWO_63 <= n < TWO_63 ==> wrapped == n
  {
    (n + TWO_63) % (2 * TWO_63) - TWO_63
  }

  /** `okSteps` counts open, stat and read; the read of a negative offset fails, and a length that wraps below zero panics. */
  method ReadFileChunkBinary(source: seq<byte>, index: int, chunkSize: int, okSteps: nat) returns (r: Result<seq<byte>>)
    requires |source| < TWO_63 && -TWO_63 <= index < TWO_63
    ensures var offset := Wrap64(index * chunkSize);
            && (r.Ok? <==> 1 <= chunkSize <= CHUNK_SIZE && index >= 0 && 0 <= offset < |source| && okSteps >= 3)
            && (r.Ok? ==> r.value == if |source| - offset < chunkSize then source[offset..] else source[offset..offset + chunkSize])
            && (r.Err? ==> r.error == if !(1 <= chunkSize <= CHUNK_SIZE) then "invalid_chunk_size"
                                      else if index < 0 then "invalid_chunk_index"
                                      else if okSteps < 2 then "io_error"
                                      else if offset >= |source| then "chunk_out_of_range"
                                      else if Wrap64(|source| - offset) < 0 then "panic"
                                      else "io_error")
  {
    if chunkSize < 1 || chunkSize > CHUNK_SIZE {
      return Err("invalid_chunk_size");
    }
    if index < 0 {
      return Err("invalid_chunk_index");
    }
    if okSteps < 2 {
      return Err("io_error");
    }
    var offset := Wrap64(index * chunkSize);
    if offset >= |source| {
      return Err("chunk_out_of_range");
    }
    if Wrap64(|source| - offset) < 0 {
      return Err("panic");
    }
    if offset < 0 || okSteps < 3 {
      return Err("io_error");
    }
    var length := chunkSize;
    if |source| - offset < length {
      length := |source| - offset;
    }
    var buffer := new byte[length];
    for i := 0 to length
      invariant forall k | 0 <= k < i :: buffer[k] == source[offset + k]
    {
      buffer[i] := source[offset + i];
    }
    assert buffer[..] == source[offset..offset + length];
    return Ok(buffer[..]);
  }

  /** A chunk that is answered is the index's own exactly if the offset fits 64 bits; beyond that it wraps around to another one. */
  lemma AnswersOwnChunkIff(source: seq<byte>, index: nat, chunkSize: nat)
    requires |source| < TWO_63 && 0 <= Wrap64(index * chunkSize) < |source|
    ensures index * chunkSize == Wrap64(index * chunkSize) <==> index * chunkSize < TWO_63
    ensures index * chunkSize < TWO_63 ==> index * chunkSize < |source|
  {}

  /** With the largest chunks, index 2^44 answers the first chunk of any file. */
  lemma WrappedIndexAnswersFirst()
    ensures Wrap64(0x1000_0000_0000 * CHUNK_SIZE) == 0
  {}

  /**
   What the sender cuts is what the receiver expects: for a manifest of the
   file, chunk `i` is readable exactly for the indices in range, passes the
   length check, and is the slot the finished file has at `i`.
   */
  lemma SenderMatchesReceiver(source: seq<byte>, m: Manifest, i: nat)
    requires Laid(m) && m.fileSize == |source|
    ensures i < m.totalChunks <==> i * CHUNK_SIZE < |source|
    ensures i < m.totalChunks ==>
              && |ChunkOf(source, i, CHUNK_SIZE)| == ChunkLength(m, i)
              && ChunkOf(source, i, CHUNK_SIZE) == Slot(source, m, i)
  {}
}
