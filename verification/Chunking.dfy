/** Splitting a byte stream into a checksummed manifest, and putting it back together. */
module Chunking {
  import opened Types

  const CHUNK_SIZE: nat := 4 * 1024 * 1024
  const BUFFER_SIZE: nat := 32 * 1024

  function Min(a: nat, b: nat): nat {
    if a < b then a else b
  }

  /** Number of chunks of a file of n bytes; the empty file has one empty chunk. */
  function ChunkCount(n: nat): nat {
    if n == 0 then 1 else (n + CHUNK_SIZE - 1) / CHUNK_SIZE
  }

  /** The bytes of chunk i. */
  function Slice(data: Bytes, i: nat): Bytes {
    data[Min(i * CHUNK_SIZE, |data|)..Min((i + 1) * CHUNK_SIZE, |data|)]
  }

  function ChunkAt(h: Hasher, data: Bytes, i: nat): ChunkMetadata {
    ChunkMetadata(i, i * CHUNK_SIZE, |Slice(data, i)|, h(Slice(data, i)))
  }

  /** The manifest of a byte sequence, as a plain partition. */
  function Partition(h: Hasher, data: Bytes): (chunks: seq<ChunkMetadata>)
    ensures |chunks| == ChunkCount(|data|) >= 1
  {
    seq(ChunkCount(|data|), i requires 0 <= i => ChunkAt(h, data, i))
  }

  /** What a manifest of data has to be, without saying how to compute it. */
  ghost predicate IsManifest(h: Hasher, data: Bytes, chunks: seq<ChunkMetadata>) {
    && |chunks| >= 1
    && chunks[0].offset == 0
    && (forall i :: 0 <= i < |chunks| ==> chunks[i].index == i)
    && (forall i, j :: 0 <= i && j == i + 1 < |chunks| ==> chunks[j].offset == chunks[i].offset + chunks[i].size)
    && chunks[|chunks| - 1].offset + chunks[|chunks| - 1].size == |data|
    && (forall i :: 0 <= i < |chunks| - 1 ==> chunks[i].size == 4_194_304)
    && chunks[|chunks| - 1].size <= 4_194_304
    && (data != [] ==> chunks[|chunks| - 1].size > 0)
    && (forall i :: 0 <= i < |chunks| ==>
          && chunks[i].offset + chunks[i].size <= |data|
          && chunks[i].checksum == h(data[chunks[i].offset..chunks[i].offset + chunks[i].size]))
  }

  lemma {:induction false} ManifestOffsets(h: Hasher, data: Bytes, chunks: seq<ChunkMetadata>, i: nat)
    requires IsManifest(h, data, chunks) && i < |chunks|
    ensures chunks[i].offset == i * CHUNK_SIZE
  {
    if i > 0 { ManifestOffsets(h, data, chunks, i - 1); }
  }

  lemma ManifestIsPartition(h: Hasher, data: Bytes, chunks: seq<ChunkMetadata>)
    requires IsManifest(h, data, chunks)
    ensures chunks == Partition(h, data)
  {
    ManifestOffsets(h, data, chunks, |chunks| - 1);
    assert |chunks| == ChunkCount(|data|);
    forall i | 0 <= i < |chunks| ensures chunks[i] == ChunkAt(h, data, i) {
      ManifestOffsets(h, data, chunks, i);
      assert Slice(data, i) == data[chunks[i].offset..chunks[i].offset + chunks[i].size];
    }
  }

  lemma SliceBounds(data: Bytes, i: nat)
    requires i < ChunkCount(|data|)
    ensures i * CHUNK_SIZE + |Slice(data, i)| <= |data|
    ensures Slice(data, i) == data[i * CHUNK_SIZE..i * CHUNK_SIZE + |Slice(data, i)|]
    ensures i + 1 < ChunkCount(|data|) ==> |Slice(data, i)| == CHUNK_SIZE
    ensures i + 1 == ChunkCount(|data|) ==>
      i * CHUNK_SIZE + |Slice(data, i)| == |data| && |Slice(data, i)| <= CHUNK_SIZE
        && (data != [] ==> Slice(data, i) != [])
  {
  }

  lemma PartitionBounds(h: Hasher, data: Bytes, i: nat)
    requires i < ChunkCount(|data|)
    ensures var c := Partition(h, data)[i];
      && c.index == i && c.offset == i * CHUNK_SIZE && c.offset + c.size <= |data|
      && c.checksum == h(data[c.offset..c.offset + c.size])
      && (i + 1 < ChunkCount(|data|) ==> c.size == CHUNK_SIZE)
      && (i + 1 == ChunkCount(|data|) ==>
           c.offset + c.size == |data| && c.size <= CHUNK_SIZE && (data != [] ==> c.size > 0))
  {
    SliceBounds(data, i);
    hide Slice, ChunkCount;
    assert Partition(h, data)[i] == ChunkAt(h, data, i);
  }

  lemma PartitionIsManifest(h: Hasher, data: Bytes)
    ensures IsManifest(h, data, Partition(h, data))
  {
    hide Partition, ChunkCount, Slice;
    var chunks := Partition(h, data);
    assert |chunks| == ChunkCount(|data|) >= 1;
    forall i | 0 <= i < |chunks|
      ensures var c := chunks[i];
        && c.index == i && c.offset == i * CHUNK_SIZE && c.offset + c.size <= |data|
        && c.checksum == h(data[c.offset..c.offset + c.size])
        && (i + 1 < |chunks| ==> c.size == CHUNK_SIZE)
    {
      PartitionBounds(h, data, i);
    }
    PartitionBounds(h, data, |chunks| - 1);
  }

  /** The partition is the one and only manifest. */
  lemma PartitionIsTheManifest(h: Hasher, data: Bytes, chunks: seq<ChunkMetadata>)
    ensures IsManifest(h, data, chunks) <==> chunks == Partition(h, data)
  {
    if IsManifest(h, data, chunks) { ManifestIsPartition(h, data, chunks); }
    PartitionIsManifest(h, data);
  }

  /** The size, checksum and manifest that belong to data. */
  ghost predicate Describes(h: Hasher, data: Bytes, size: nat, checksum: string, chunks: seq<ChunkMetadata>) {
    size == |data| && checksum == h(data) && chunks == Partition(h, data)
  }

  ghost predicate FileDescribes(h: Hasher, data: Bytes, m: FileMetadata) {
    Describes(h, data, m.size, m.checksum, m.chunks)
  }

  // ----- Staging a reader -----

  /** How the last Read call of a stream ended. */
  datatype ReadEnd = Eof | ReadFailed(error: Error)

  datatype StagedFile = StagedFile(data: Bytes, size: nat, checksum: string, chunks: seq<ChunkMetadata>)

  function Flatten(buffers: seq<Bytes>): Bytes {
    if buffers == [] then [] else Flatten(buffers[..|buffers| - 1]) + buffers[|buffers| - 1]
  }

  lemma {:induction false} FlattenSnoc(buffers: seq<Bytes>, i: nat)
    requires i < |buffers|
    ensures Flatten(buffers[..i + 1]) == Flatten(buffers[..i]) + buffers[i]
  {
    assert buffers[..i + 1][..i] == buffers[..i];
  }

  /** The loop variables after seen bytes: all full chunks are closed, the rest is in the open chunk. */
  ghost predicate Midway(
      h: Hasher, seen: Bytes, chunks: seq<ChunkMetadata>, chunkSize: nat, chunkIndex: nat, chunkOffset: nat,
      open: Bytes)
  {
    && chunkSize < CHUNK_SIZE
    && chunkOffset == chunkIndex * CHUNK_SIZE
    && |seen| == chunkOffset + chunkSize
    && |chunks| == chunkIndex
    && open == seen[chunkOffset..]
    && forall i :: 0 <= i < |chunks| ==> chunks[i] == ChunkAt(h, seen, i)
  }

  lemma ClosedChunkStays(h: Hasher, seen: Bytes, part: Bytes, j: nat)
    requires (j + 1) * CHUNK_SIZE <= |seen|
    ensures ChunkAt(h, seen, j) == ChunkAt(h, seen + part, j)
  {
    assert Slice(seen, j) == Slice(seen + part, j);
  }

  /** Adding a part that fits keeps the loop variables right; filling the chunk closes it. */
  lemma MidwayAdd(
      h: Hasher, seen: Bytes, part: Bytes, chunks: seq<ChunkMetadata>, chunkSize: nat, chunkIndex: nat,
      chunkOffset: nat, open: Bytes)
    requires Midway(h, seen, chunks, chunkSize, chunkIndex, chunkOffset, open)
    requires chunkSize + |part| <= CHUNK_SIZE
    ensures chunkSize + |part| < CHUNK_SIZE ==>
      Midway(h, seen + part, chunks, chunkSize + |part|, chunkIndex, chunkOffset, open + part)
    ensures chunkSize + |part| == CHUNK_SIZE ==>
      Midway(h, seen + part, chunks + [ChunkMetadata(chunkIndex, chunkOffset, CHUNK_SIZE, h(open + part))],
             0, chunkIndex + 1, |seen + part|, [])
  {
    forall j | 0 <= j < |chunks| ensures ChunkAt(h, seen, j) == ChunkAt(h, seen + part, j) {
      ClosedChunkStays(h, seen, part, j);
    }
    assert open + part == (seen + part)[chunkOffset..];
    if chunkSize + |part| == CHUNK_SIZE {
      assert (chunkIndex + 1) * CHUNK_SIZE == |seen + part|;
      assert Slice(seen + part, chunkIndex) == (seen + part)[chunkOffset..];
    }
  }

  /** After the last read the open chunk, if any, completes the partition. */
  lemma MidwayEnd(
      h: Hasher, seen: Bytes, chunks: seq<ChunkMetadata>, chunkSize: nat, chunkIndex: nat, chunkOffset: nat,
      open: Bytes)
    requires Midway(h, seen, chunks, chunkSize, chunkIndex, chunkOffset, open)
    ensures Partition(h, seen) ==
      if chunkSize > 0 || seen == [] then chunks + [ChunkMetadata(chunkIndex, chunkOffset, chunkSize, h(open))]
        else chunks
  {
    assert open == Slice(seen, chunkIndex);
    CountOf(|seen|, chunkIndex, chunkSize);
    hide Slice, ChunkCount;
    var all := if chunkSize > 0 || seen == [] then chunks + [ChunkAt(h, seen, chunkIndex)] else chunks;
    assert |all| == ChunkCount(|seen|);
    assert forall i :: 0 <= i < |all| ==> all[i] == ChunkAt(h, seen, i);
  }

  lemma CountOf(n: nat, full: nat, rest: nat)
    requires n == full * CHUNK_SIZE + rest && rest < CHUNK_SIZE
    ensures ChunkCount(n) == if rest > 0 || n == 0 then full + 1 else full
  {
  }

  /**
   * Copies a stream and builds its manifest, whatever sizes the reads come in: buffers are what the
   * successive Read calls filled (some may be empty), the last of which also reports end.
   */
  method StageReader(h: Hasher, buffers: seq<Bytes>, end: ReadEnd) returns (r: Result<StagedFile>)
    requires buffers != [] && forall x <- buffers :: |x| <= BUFFER_SIZE
    ensures end.ReadFailed? ==> r == Err(end.error)
    ensures end.Eof? ==>
      && r.Ok?
      && r.value.data == Flatten(buffers)
      && Describes(h, r.value.data, r.value.size, r.value.checksum, r.value.chunks)
      && IsManifest(h, r.value.data, r.value.chunks)
  {
    hide ChunkAt, IsManifest, Partition;
    ghost var seen: Bytes := [];
    var staged: Bytes := [];
    var hashed: Bytes := [];
    var chunks: seq<ChunkMetadata> := [];
    var open: Bytes := [];
    var total: nat, chunkSize: nat, chunkIndex: nat, chunkOffset: nat := 0, 0, 0, 0;
    var i := 0;
    while i < |buffers|
      invariant 0 <= i <= |buffers| && (i == |buffers| ==> end.Eof?)
      invariant staged == hashed == Flatten(buffers[..i])
      invariant seen == staged && total == |seen|
      invariant Midway(h, seen, chunks, chunkSize, chunkIndex, chunkOffset, open)
    {
      var data := buffers[i];
      if |data| > 0 {
        staged := staged + data;
        hashed := hashed + data;
        var remaining := data;
        while |remaining| > 0
          invariant seen + remaining == staged
          invariant total == |seen|
          invariant Midway(h, seen, chunks, chunkSize, chunkIndex, chunkOffset, open)
        {
          var space := CHUNK_SIZE - chunkSize;
          if space > |remaining| {
            space := |remaining|;
          }
          var part := remaining[..space];
          MidwayAdd(h, seen, part, chunks, chunkSize, chunkIndex, chunkOffset, open);
          assert seen + remaining == (seen + part) + remaining[space..];
          seen := seen + part;
          open := open + part;
          chunkSize := chunkSize + |part|;
          total := total + |part|;
          remaining := remaining[space..];
          if chunkSize == CHUNK_SIZE {
            chunks := chunks + [ChunkMetadata(chunkIndex, chunkOffset, chunkSize, h(open))];
            chunkIndex := chunkIndex + 1;
            chunkOffset := total;
            chunkSize := 0;
            open := [];
          }
        }
        assert seen == staged;
      }
      FlattenSnoc(buffers, i);
      if i == |buffers| - 1 && end.ReadFailed? {
        return Err(end.error);
      }
      i := i + 1;
    }
    assert buffers[..i] == buffers;
    MidwayEnd(h, staged, chunks, chunkSize, chunkIndex, chunkOffset, open);
    if chunkSize > 0 || total == 0 {
      chunks := chunks + [ChunkMetadata(chunkIndex, chunkOffset, chunkSize, h(open))];
    }
    PartitionIsManifest(h, staged);
    r := Ok(StagedFile(staged, total, h(hashed), chunks));
  }

  // ----- Rebuilding a file from a replica -----

  /** What the reads of one replica returned: responses(i) answers the read of chunk i (or of the whole object). */
  type Responses = nat -> Result<Bytes>

  function AssembleFrom(
      h: Hasher, chunks: seq<ChunkMetadata>, responses: Responses, i: nat, total: Bytes): Result<Bytes>
    requires i <= |chunks|
    decreases |chunks| - i
  {
    if i == |chunks| then Ok(total) else
      match responses(i)
      case Err(e) => Err(e)
      case Ok(b) =>
        if |b| != chunks[i].size || h(b) != chunks[i].checksum then Err(ErrChecksumMismatch)
        else AssembleFrom(h, chunks, responses, i + 1, total + b)
  }

  /** The bytes a replica read returns to the caller, or why it is rejected. */
  function Assemble(h: Hasher, m: FileMetadata, responses: Responses): (r: Result<Bytes>)
    ensures r.Ok? ==> |r.value| == m.size && h(r.value) == m.checksum
  {
    var whole := if m.chunks == [] then responses(0) else AssembleFrom(h, m.chunks, responses, 0, []);
    if whole.Ok? && (|whole.value| != m.size || h(whole.value) != m.checksum) then Err(ErrChecksumMismatch) else whole
  }

  /** Nothing but the described bytes can come out, whatever the replica answered. */
  lemma AssembleSound(h: Hasher, m: FileMetadata, data: Bytes, responses: Responses)
    requires CollisionFree(h) && FileDescribes(h, data, m)
    ensures Assemble(h, m, responses).Ok? ==> Assemble(h, m, responses) == Ok(data)
  {
  }

  lemma SliceStep(data: Bytes, i: nat)
    requires i < ChunkCount(|data|)
    ensures data[..Min(i * CHUNK_SIZE, |data|)] + Slice(data, i) == data[..Min((i + 1) * CHUNK_SIZE, |data|)]
  {
  }

  lemma {:induction false} AssembleFromFaithful(h: Hasher, data: Bytes, responses: Responses, i: nat)
    requires i <= ChunkCount(|data|)
    requires forall j :: i <= j < ChunkCount(|data|) ==> responses(j) == Ok(Slice(data, j))
    ensures AssembleFrom(h, Partition(h, data), responses, i, data[..Min(i * CHUNK_SIZE, |data|)]) == Ok(data)
    decreases ChunkCount(|data|) - i
  {
    if i < ChunkCount(|data|) {
      SliceStep(data, i);
      AssembleFromFaithful(h, data, responses, i + 1);
    } else {
      assert data[..Min(i * CHUNK_SIZE, |data|)] == data;
    }
  }

  lemma {:induction false} AssembleFromOk(h: Hasher, data: Bytes, responses: Responses, i: nat, total: Bytes, j: nat)
    requires CollisionFree(h) && i <= j < ChunkCount(|data|)
    requires AssembleFrom(h, Partition(h, data), responses, i, total).Ok?
    ensures responses(j) == Ok(Slice(data, j))
    decreases ChunkCount(|data|) - i
  {
    if i < j { AssembleFromOk(h, data, responses, i + 1, total + responses(i).value, j); }
  }

  /** A replica is readable exactly when it answers every chunk with that chunk's bytes. */
  lemma AssembleExact(h: Hasher, m: FileMetadata, data: Bytes, responses: Responses)
    requires CollisionFree(h) && FileDescribes(h, data, m)
    ensures Assemble(h, m, responses) == Ok(data)
       <==> forall j :: 0 <= j < |m.chunks| ==> responses(j) == Ok(Slice(data, j))
  {
    if Assemble(h, m, responses) == Ok(data) {
      forall j | 0 <= j < |m.chunks| ensures responses(j) == Ok(Slice(data, j)) {
        AssembleFromOk(h, data, responses, 0, [], j);
      }
    }
    if forall j :: 0 <= j < |m.chunks| ==> responses(j) == Ok(Slice(data, j)) {
      AssembleFromFaithful(h, data, responses, 0);
      assert data[..Min(0 * CHUNK_SIZE, |data|)] == [];
    }
  }
}
