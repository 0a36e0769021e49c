/** Moving whole file versions: writing a staged file, reading a replica back, copying between nodes. */
module Transfer {
  import opened Types
  import opened Naming
  import opened Chunking
  import opened Objects

  /** What is read from the staged file for one chunk: seek to its offset, then at most its size. */
  function Limited(staged: Bytes, chunk: ChunkMetadata): Bytes {
    staged[Min(chunk.offset, |staged|)..Min(chunk.offset + chunk.size, |staged|)]
  }

  lemma PlaceInside(node: string, key: string, version: nat, chunks: seq<ChunkMetadata>, i: nat)
    requires i < |chunks|
    ensures ChunkPlace(node, key, version, chunks[i].index) in Places(node, key, version, chunks)
    ensures ChunkPlace(node, key, version, chunks[i].index) ==
      PlaceOf(node, ChunkObjectKey(key, chunks[i].index), version)
  {
  }

  lemma ObjectPlacesOfChunks(node: string, key: string, version: nat, chunks: seq<ChunkMetadata>)
    ensures chunks != [] ==> ObjectPlaces(node, key, version, chunks) == Places(node, key, version, chunks)
  {
  }

  lemma LimitedFits(staged: Bytes, chunk: ChunkMetadata)
    ensures chunk.offset + chunk.size <= |staged| ==> |Limited(staged, chunk)| == chunk.size
  {
  }

  /** The first n chunks of staged are stored on node. */
  ghost predicate StoredUpTo(
      c: Contents, node: string, key: string, version: nat, staged: Bytes, chunks: seq<ChunkMetadata>, n: nat)
  {
    forall i :: 0 <= i < n <= |chunks| ==>
      && Lookup(c, ChunkPlace(node, key, version, chunks[i].index)) == Ok(Limited(staged, chunks[i]))
      && |Limited(staged, chunks[i])| == chunks[i].size
  }

  lemma StoredNothing(c: Contents, node: string, key: string, version: nat, staged: Bytes, chunks: seq<ChunkMetadata>)
    ensures StoredUpTo(c, node, key, version, staged, chunks, 0)
  {
  }

  lemma StoredOneMore(
      c: Contents, node: string, key: string, version: nat, staged: Bytes, chunks: seq<ChunkMetadata>, n: nat)
    requires n < |chunks| && DistinctIndices(chunks) && StoredUpTo(c, node, key, version, staged, chunks, n)
    requires |Limited(staged, chunks[n])| == chunks[n].size
    ensures StoredUpTo(c[ChunkPlace(node, key, version, chunks[n].index) := Limited(staged, chunks[n])],
                       node, key, version, staged, chunks, n + 1)
  {
    hide ChunkPlace, Limited;
    forall i | 0 <= i < n
      ensures ChunkPlace(node, key, version, chunks[i].index) != ChunkPlace(node, key, version, chunks[n].index)
    {
      PlacesDiffer(node, key, version, chunks[i].index, node, key, version, chunks[n].index);
    }
  }

  /** Writes a staged file to one node; on failure removes what it wrote. */
  method WriteChunks(
      store: ObjectStore, node: string, key: string, version: nat, staged: Bytes, chunks: seq<ChunkMetadata>)
    returns (r: Result<()>)
    modifies store
    ensures SameOutside(old(store.contents), store.contents, ObjectPlaces(node, key, version, chunks))
    ensures r.Ok? && chunks == [] ==> Lookup(store.contents, PlaceOf(node, key, version)) == Ok(staged)
    ensures r.Ok? && DistinctIndices(chunks) ==>
      StoredUpTo(store.contents, node, key, version, staged, chunks, |chunks|)
    ensures r.Err? && chunks != [] && store.deletesWork ==>
      store.contents == old(store.contents) - Places(node, key, version, chunks)
    ensures store.writesWork && (forall c <- chunks :: c.offset + c.size <= |staged|) ==> r.Ok?
  {
    if |chunks| == 0 {
      var n := store.WriteObject(node, key, version, staged);
      return if n.Ok? then Ok(()) else Err(n.error);
    }
    hide *;
    ObjectPlacesOfChunks(node, key, version, chunks);
    ghost var places := Places(node, key, version, chunks);
    StoredNothing(store.contents, node, key, version, staged, chunks);
    SameAsBefore(store.contents, places);
    for i := 0 to |chunks|
      invariant SameOutside(old(store.contents), store.contents, places)
      invariant DistinctIndices(chunks) ==> StoredUpTo(store.contents, node, key, version, staged, chunks, i)
    {
      ghost var before := store.contents;
      var part := Limited(staged, chunks[i]);
      var n := store.WriteObject(node, ChunkObjectKey(key, chunks[i].index), version, part);
      PlaceInside(node, key, version, chunks, i);
      LimitedFits(staged, chunks[i]);
      TouchInside(old(store.contents), before, store.contents, ChunkPlace(node, key, version, chunks[i].index), places);
      RemovedInside(old(store.contents), store.contents, places);
      ghost var mid := store.contents;
      if n.Err? {
        ghost var removed := DeleteObjects(store, node, key, version, chunks);
        SameOutsideTwice(old(store.contents), mid, store.contents, places);
        return Err(n.error);
      }
      if n.value != chunks[i].size {
        ghost var removed := DeleteObjects(store, node, key, version, chunks);
        SameOutsideTwice(old(store.contents), mid, store.contents, places);
        return Err(ErrShortWrite);
      }
      if DistinctIndices(chunks) { StoredOneMore(before, node, key, version, staged, chunks, i); }
    }
    r := Ok(());
  }

  /** Writing the manifest of a file leaves the node holding the file. */
  lemma WrittenHolds(h: Hasher, c: Contents, node: string, key: string, version: nat, data: Bytes)
    requires StoredUpTo(c, node, key, version, data, Partition(h, data), |Partition(h, data)|)
    ensures Holds(c, node, key, version, data)
  {
    forall i | 0 <= i < ChunkCount(|data|)
      ensures Lookup(c, ChunkPlace(node, key, version, i)) == Ok(Slice(data, i))
    {
      assert Partition(h, data)[i] == ChunkAt(h, data, i);
      SliceBounds(data, i);
      assert Limited(data, ChunkAt(h, data, i)) == Slice(data, i);
    }
  }

  // ----- Reading a replica -----

  /** responses agrees with the answers received so far. */
  ghost predicate Extends(responses: Responses, answers: seq<Result<Bytes>>) {
    forall j :: 0 <= j < |answers| ==> responses(j) == answers[j]
  }

  lemma ExtendsSnoc(responses: Responses, answers: seq<Result<Bytes>>, answer: Result<Bytes>)
    requires Extends(responses, answers) && responses(|answers|) == answer
    ensures Extends(responses, answers + [answer])
  {
  }

  ghost function Replay(answers: seq<Result<Bytes>>): (f: Responses)
    ensures Extends(f, answers)
  {
    (j: nat) => if j < |answers| then answers[j] else Err(ErrIO)
  }

  /** However the remaining reads turn out, what is left to do is to go on from the bytes staged so far. */
  ghost predicate Assembling(h: Hasher, chunks: seq<ChunkMetadata>, answers: seq<Result<Bytes>>, staged: Bytes)
    requires |answers| <= |chunks|
  {
    forall f: Responses :: Extends(f, answers) ==>
      AssembleFrom(h, chunks, f, 0, []) == AssembleFrom(h, chunks, f, |answers|, staged)
  }

  lemma AssemblingStep(
      h: Hasher, chunks: seq<ChunkMetadata>, answers: seq<Result<Bytes>>, staged: Bytes, answer: Result<Bytes>)
    requires |answers| < |chunks| && Assembling(h, chunks, answers, staged)
    ensures answer.Ok? && |answer.value| == chunks[|answers|].size && h(answer.value) == chunks[|answers|].checksum ==>
      Assembling(h, chunks, answers + [answer], staged + answer.value)
    ensures forall f: Responses :: Extends(f, answers + [answer]) ==>
      Extends(f, answers) && f(|answers|) == answer
      && AssembleFrom(h, chunks, f, 0, []) == AssembleFrom(h, chunks, f, |answers|, staged)
  {
    forall f: Responses | Extends(f, answers + [answer])
      ensures Extends(f, answers) && f(|answers|) == answer
    {
      assert (answers + [answer])[|answers|] == answer;
      forall j | 0 <= j < |answers| ensures f(j) == answers[j] { assert (answers + [answer])[j] == answers[j]; }
    }
  }

  /**
   * Rebuilds a file from one replica and verifies it. The result is the assembly of whatever the node
   * answered; a node that answers faithfully answers with its contents.
   */
  method StageReplica(h: Hasher, store: ObjectStore, node: string, m: FileMetadata)
    returns (r: Result<Bytes>, ghost responses: Responses)
    ensures r == Assemble(h, m, responses)
    ensures store.readsWork ==> r == Assemble(h, m, Answers(store.contents, node, m))
  {
    ghost var faithful := Answers(store.contents, node, m);
    if |m.chunks| == 0 {
      var whole := store.ReadObject(node, m.key, m.version);
      responses := (i: nat) => whole;
      if whole.Err? {
        return whole, responses;
      }
      if |whole.value| != m.size || h(whole.value) != m.checksum {
        return Err(ErrChecksumMismatch), responses;
      }
      return whole, responses;
    }
    var staged: Bytes := [];
    var full: Bytes := [];
    var total := 0;
    ghost var answers: seq<Result<Bytes>> := [];
    for i := 0 to |m.chunks|
      invariant |answers| == i && full == staged && total == |staged|
      invariant Assembling(h, m.chunks, answers, staged)
      invariant store.readsWork ==> Extends(faithful, answers)
    {
      var chunk := m.chunks[i];
      var read := store.ReadObject(node, ChunkObjectKey(m.key, chunk.index), m.version);
      AssemblingStep(h, m.chunks, answers, staged, read);
      if store.readsWork { ExtendsSnoc(faithful, answers, read); }
      answers := answers + [read];
      responses := Replay(answers);
      if read.Err? {
        return read, responses;
      }
      if |read.value| != chunk.size || h(read.value) != chunk.checksum {
        return Err(ErrChecksumMismatch), responses;
      }
      staged := staged + read.value;
      full := full + read.value;
      total := total + |read.value|;
    }
    responses := Replay(answers);
    if total != m.size || h(full) != m.checksum {
      return Err(ErrChecksumMismatch), responses;
    }
    r := Ok(staged);
  }

  // ----- Copying a version to another node -----

  ghost function KeyPlaces(node: string, version: nat, objectKeys: seq<string>): set<Place> {
    set k | k in objectKeys :: PlaceOf(node, k, version)
  }

  method DeleteChunkObjects(store: ObjectStore, node: string, version: nat, objectKeys: seq<string>)
    modifies store
    ensures SameOutside(old(store.contents), store.contents, KeyPlaces(node, version, objectKeys))
    ensures store.deletesWork ==> store.contents == old(store.contents) - KeyPlaces(node, version, objectKeys)
  {
    ghost var places := KeyPlaces(node, version, objectKeys);
    for i := 0 to |objectKeys|
      invariant SameOutside(old(store.contents), store.contents, places)
      invariant store.deletesWork ==> store.contents == old(store.contents) - KeyPlaces(node, version, objectKeys[..i])
    {
      ghost var before := store.contents;
      store.DeleteObject(node, objectKeys[i], version);
      TouchInside(old(store.contents), before, store.contents, PlaceOf(node, objectKeys[i], version), places);
      assert objectKeys[..i + 1] == objectKeys[..i] + [objectKeys[i]];
      assert KeyPlaces(node, version, objectKeys[..i + 1]) ==
             KeyPlaces(node, version, objectKeys[..i]) + {PlaceOf(node, objectKeys[i], version)};
    }
    assert objectKeys[..|objectKeys|] == objectKeys;
  }

  /** What a copy loop has established after n chunks; full is what has gone through the whole-file digest. */
  ghost predicate CopiedUpTo(h: Hasher, before: Contents, c: Contents, task: ReplicationTask, n: nat, full: Bytes)
    requires n <= |task.chunks|
  {
    && SameOutside(before, c, Places(task.target, task.key, task.version, task.chunks[..n]))
    && (DistinctIndices(task.chunks) ==>
          && (forall i :: 0 <= i < n ==>
                Verified(h, c, ChunkPlace(task.target, task.key, task.version, task.chunks[i].index), task.chunks[i]))
          && full == StoredBytes(c, task.target, task.key, task.version, task.chunks, n))
  }

  lemma OtherChunksStay(c: Contents, task: ReplicationTask, n: nat, data: Bytes, i: nat)
    requires DistinctIndices(task.chunks) && i < n < |task.chunks|
    ensures var p := ChunkPlace(task.target, task.key, task.version, task.chunks[i].index);
      var c' := c[ChunkPlace(task.target, task.key, task.version, task.chunks[n].index) := data];
      Lookup(c', p) == Lookup(c, p)
  {
    PlacesDiffer(task.target, task.key, task.version, task.chunks[i].index,
                 task.target, task.key, task.version, task.chunks[n].index);
  }

  lemma VerifiedStays(h: Hasher, c: Contents, c': Contents, p: Place, chunk: ChunkMetadata)
    requires Verified(h, c, p, chunk) && Lookup(c', p) == Lookup(c, p)
    ensures Verified(h, c', p, chunk)
  {
  }

  /** One more verified chunk: its place is new, the earlier chunks and their bytes stay. */
  lemma NextChunk(h: Hasher, c: Contents, task: ReplicationTask, n: nat, data: Bytes)
    requires n < |task.chunks| && DistinctIndices(task.chunks)
    requires |data| == task.chunks[n].size && h(data) == task.chunks[n].checksum
    requires forall i :: 0 <= i < n ==>
      Verified(h, c, ChunkPlace(task.target, task.key, task.version, task.chunks[i].index), task.chunks[i])
    ensures var c' := c[ChunkPlace(task.target, task.key, task.version, task.chunks[n].index) := data];
      && (forall i :: 0 <= i < n + 1 ==>
            Verified(h, c', ChunkPlace(task.target, task.key, task.version, task.chunks[i].index), task.chunks[i]))
      && StoredBytes(c', task.target, task.key, task.version, task.chunks, n + 1) ==
         StoredBytes(c, task.target, task.key, task.version, task.chunks, n) + data
  {
    hide ChunkPlace;
    var c' := c[ChunkPlace(task.target, task.key, task.version, task.chunks[n].index) := data];
    forall i | 0 <= i < n
      ensures var p := ChunkPlace(task.target, task.key, task.version, task.chunks[i].index);
        Lookup(c, p) == Lookup(c', p) && Verified(h, c', p, task.chunks[i])
    {
      OtherChunksStay(c, task, n, data, i);
      VerifiedStays(h, c, c', ChunkPlace(task.target, task.key, task.version, task.chunks[i].index), task.chunks[i]);
    }
    StoredBytesStay(c, c', task.target, task.key, task.version, task.chunks, n);
  }

  lemma CopiedOneMore(h: Hasher, before: Contents, c: Contents, task: ReplicationTask, n: nat, full: Bytes, data: Bytes)
    requires n < |task.chunks| && CopiedUpTo(h, before, c, task, n, full)
    requires |data| == task.chunks[n].size && h(data) == task.chunks[n].checksum
    ensures CopiedUpTo(h, before, c[ChunkPlace(task.target, task.key, task.version, task.chunks[n].index) := data],
                       task, n + 1, full + data)
  {
    hide ChunkPlace, StoredBytes, Verified;
    PlacesSnoc(task.target, task.key, task.version, task.chunks, n);
    if DistinctIndices(task.chunks) { NextChunk(h, c, task, n, data); }
  }

  lemma SameOutsideTwice(a: Contents, b: Contents, c: Contents, places: set<Place>)
    requires SameOutside(a, b, places) && SameOutside(b, c, places)
    ensures SameOutside(a, c, places)
  {
  }

  lemma RemovedInside(a: Contents, b: Contents, places: set<Place>)
    requires SameOutside(a, b, places)
    ensures b - places == a - places
  {
  }

  /** The keys written so far name the places of the chunks copied so far. */
  ghost predicate WrittenKeys(task: ReplicationTask, n: nat, written: seq<string>)
    requires n <= |task.chunks|
  {
    KeyPlaces(task.target, task.version, written) == Places(task.target, task.key, task.version, task.chunks[..n])
  }

  lemma WrittenOneMore(task: ReplicationTask, n: nat, written: seq<string>)
    requires n < |task.chunks| && WrittenKeys(task, n, written)
    ensures WrittenKeys(task, n + 1, written + [ChunkObjectKey(task.key, task.chunks[n].index)])
  {
    var k := ChunkObjectKey(task.key, task.chunks[n].index);
    PlacesSnoc(task.target, task.key, task.version, task.chunks, n);
    assert KeyPlaces(task.target, task.version, written + [k]) ==
           KeyPlaces(task.target, task.version, written) + {PlaceOf(task.target, k, task.version)};
  }

  /** The first n chunks are gone from the target and everything else is as it was. */
  ghost predicate Undone(before: Contents, after: Contents, task: ReplicationTask, n: nat)
    requires n <= |task.chunks|
  {
    after == before - Places(task.target, task.key, task.version, task.chunks[..n])
  }

  /**
   * Copies one chunk and verifies what went through: the read of the source feeds both the write and the
   * digest. readable says whether the source could be read at all.
   */
  method CopyChunk(h: Hasher, store: ObjectStore, task: ReplicationTask, chunk: ChunkMetadata)
    returns (r: Result<Bytes>, readable: bool)
    modifies store
    ensures store.readsWork ==>
      var src := Lookup(old(store.contents), ChunkPlace(task.source, task.key, task.version, chunk.index));
      && (readable <==> src.Ok?)
      && (r.Ok? ==> r == src)
      && (r == Err(ErrChecksumMismatch) ==> src.Ok? && (|src.value| != chunk.size || h(src.value) != chunk.checksum))
    ensures store.writesWork && readable && r.Err? ==> r.error == ErrChecksumMismatch
    ensures SameOutside(old(store.contents), store.contents,
      {ChunkPlace(task.target, task.key, task.version, chunk.index)})
    ensures !readable ==> r == Err(ErrIO) && store.contents == old(store.contents)
    ensures r.Err? ==> r.error == ErrIO || r.error == ErrChecksumMismatch
    ensures r.Ok? ==> readable && |r.value| == chunk.size && h(r.value) == chunk.checksum
    ensures r.Ok? ==>
      store.contents == old(store.contents)[ChunkPlace(task.target, task.key, task.version, chunk.index) := r.value]
    ensures r == Err(ErrChecksumMismatch) && store.deletesWork ==>
      store.contents == old(store.contents) - {ChunkPlace(task.target, task.key, task.version, chunk.index)}
    ensures store.readsWork && store.writesWork ==>
      var src := Lookup(old(store.contents), ChunkPlace(task.source, task.key, task.version, chunk.index));
      src.Ok? && |src.value| == chunk.size && h(src.value) == chunk.checksum ==> r == src
  {
    var objectKey := ChunkObjectKey(task.key, chunk.index);
    var src := store.ReadObject(task.source, objectKey, task.version);
    if src.Err? {
      return src, false;
    }
    var n := store.WriteObject(task.target, objectKey, task.version, src.value);
    if n.Err? {
      return Err(n.error), true;
    }
    if n.value != chunk.size || h(src.value) != chunk.checksum {
      store.DeleteObject(task.target, objectKey, task.version);
      return Err(ErrChecksumMismatch), true;
    }
    return src, true;
  }

  lemma CopyStart(h: Hasher, start: Contents, task: ReplicationTask)
    ensures CopiedUpTo(h, start, start, task, 0, []) && WrittenKeys(task, 0, [])
  {
  }

  /**
   * A copy loop that stopped in chunk n, after removing the keys written before it or (if nothing of chunk n was
   * written) without: only places of the task changed, and with working deletes a mismatch leaves none of them.
   */
  lemma CopyStopped(
      h: Hasher, start: Contents, before: Contents, mid: Contents, after: Contents, task: ReplicationTask, n: nat,
      full: Bytes, written: seq<string>)
    requires n < |task.chunks| && CopiedUpTo(h, start, before, task, n, full) && WrittenKeys(task, n, written)
    requires SameOutside(before, mid, {ChunkPlace(task.target, task.key, task.version, task.chunks[n].index)})
    requires SameOutside(mid, after, KeyPlaces(task.target, task.version, written))
    ensures CopyOutcome(h, start, after, task, false)
    ensures
      (mid == before - {ChunkPlace(task.target, task.key, task.version, task.chunks[n].index)}
       && after == mid - KeyPlaces(task.target, task.version, written)) ==> Undone(start, after, task, n + 1)
  {
    hide ChunkPlace;
    PlacesSnoc(task.target, task.key, task.version, task.chunks, n);
    PlacesSnocInside(task, n);
  }

  /** A copy loop that went through all chunks: verified copies if kept, nothing left if removed. */
  lemma CopyEnded(
      h: Hasher, start: Contents, c: Contents, after: Contents, task: ReplicationTask, full: Bytes,
      written: seq<string>)
    requires CopiedUpTo(h, start, c, task, |task.chunks|, full) && WrittenKeys(task, |task.chunks|, written)
    ensures CopyOutcome(h, start, c, task, true)
    ensures DistinctIndices(task.chunks) ==>
      full == StoredBytes(c, task.target, task.key, task.version, task.chunks, |task.chunks|)
    ensures SameOutside(c, after, KeyPlaces(task.target, task.version, written)) ==>
      CopyOutcome(h, start, after, task, false)
    ensures after == c - KeyPlaces(task.target, task.version, written) ==> Undone(start, after, task, |task.chunks|)
  {
    hide ChunkPlace;
    assert task.chunks[..|task.chunks|] == task.chunks;
  }

  /** The task describes data, and its source, another node than its target, holds all of it. */
  ghost predicate GoodSource(h: Hasher, c: Contents, task: ReplicationTask, data: Bytes) {
    && task.source != task.target
    && task.chunks == Partition(h, data) && task.checksum == h(data)
    && Holds(c, task.source, task.key, task.version, data)
  }

  /** The bytes of the first n chunks. */
  ghost function DataUpTo(data: Bytes, n: nat): Bytes {
    data[..Min(n * CHUNK_SIZE, |data|)]
  }

  lemma CopyNothing(data: Bytes)
    ensures DataUpTo(data, 0) == []
  {
  }

  lemma CopyEverything(h: Hasher, c: Contents, task: ReplicationTask, data: Bytes)
    requires GoodSource(h, c, task, data)
    ensures h(DataUpTo(data, |task.chunks|)) == task.checksum
  {
    assert DataUpTo(data, |task.chunks|) == data;
  }

  /** Copying to the target does not disturb the source, which goes on answering with the right chunk. */
  lemma SourceStays(h: Hasher, start: Contents, c: Contents, task: ReplicationTask, n: nat, full: Bytes, data: Bytes)
    requires n < |task.chunks| && CopiedUpTo(h, start, c, task, n, full) && GoodSource(h, start, task, data)
    requires full == DataUpTo(data, n)
    ensures var src := Lookup(c, ChunkPlace(task.source, task.key, task.version, task.chunks[n].index));
      src.Ok? && |src.value| == task.chunks[n].size && h(src.value) == task.chunks[n].checksum
      && full + src.value == DataUpTo(data, n + 1)
  {
    HoldsElsewhere(start, c, task.target, task.key, task.version, task.chunks[..n], task.source, task.key,
      task.version, data);
    assert task.chunks[n] == ChunkAt(h, data, n);
    SliceStep(data, n);
  }

  /** How a copy ended: complete, or in which chunk and why. */
  datatype Stop = Complete | SourceUnread(i: nat) | TargetRefused(i: nat) | ChunkMismatch(i: nat) | FileMismatch

  function StopError(stop: Stop): Result<()> {
    match stop
    case Complete => Ok(())
    case SourceUnread(_) => Err(ErrIO)
    case TargetRefused(_) => Err(ErrIO)
    case ChunkMismatch(_) => Err(ErrChecksumMismatch)
    case FileMismatch => Err(ErrChecksumMismatch)
  }

  /** The chunk that stopped the copy, or the number of chunks if none did. */
  function StopIndex(task: ReplicationTask, stop: Stop): nat {
    match stop
    case Complete => |task.chunks|
    case SourceUnread(i) => i
    case TargetRefused(i) => i
    case ChunkMismatch(i) => i
    case FileMismatch => |task.chunks|
  }

  /**
   * What a stopped copy leaves. An unreadable source leaves the chunks copied before it. With working deletes every
   * other failure removes them; only a refused write may leave something, at its own place.
   */
  ghost predicate Leftover(
      h: Hasher, before: Contents, after: Contents, task: ReplicationTask, stop: Stop, deletesWork: bool)
    requires StopIndex(task, stop) <= |task.chunks|
  {
    match stop
    case Complete => true
    case SourceUnread(i) =>
      && SameOutside(before, after, Places(task.target, task.key, task.version, task.chunks[..i]))
      && (DistinctIndices(task.chunks) ==> forall j :: 0 <= j < i ==>
            Verified(h, after, ChunkPlace(task.target, task.key, task.version, task.chunks[j].index), task.chunks[j]))
    case TargetRefused(i) =>
      deletesWork && i < |task.chunks| ==>
        SameOutside(before - Places(task.target, task.key, task.version, task.chunks[..i]), after,
                    {ChunkPlace(task.target, task.key, task.version, task.chunks[i].index)})
    case ChunkMismatch(i) => deletesWork && i < |task.chunks| ==> Undone(before, after, task, i + 1)
    case FileMismatch => deletesWork ==> Undone(before, after, task, |task.chunks|)
  }

  /** With working deletes the chunks copied before a failure remain exactly if the failure was a read of the source. */
  lemma LeftoverExact(h: Hasher, before: Contents, after: Contents, task: ReplicationTask, stop: Stop, j: nat)
    requires !stop.Complete? && j < StopIndex(task, stop) <= |task.chunks| && DistinctIndices(task.chunks)
    requires stop.FileMismatch? || StopIndex(task, stop) < |task.chunks|
    requires Leftover(h, before, after, task, stop, true)
    ensures ChunkPlace(task.target, task.key, task.version, task.chunks[j].index) in after <==> stop.SourceUnread?
  {
    hide ChunkPlace;
    var n := StopIndex(task, stop);
    assert task.chunks[..n][j] == task.chunks[j];
    PlaceInside(task.target, task.key, task.version, task.chunks[..n], j);
    if stop.TargetRefused? {
      PlacesDiffer(task.target, task.key, task.version, task.chunks[j].index,
                   task.target, task.key, task.version, task.chunks[n].index);
    } else if stop.ChunkMismatch? {
      assert task.chunks[..n + 1][j] == task.chunks[j];
      PlaceInside(task.target, task.key, task.version, task.chunks[..n + 1], j);
    }
  }

  /** What the source answers to the read of chunk i. */
  ghost function SourceAnswer(c: Contents, task: ReplicationTask, i: nat): Result<Bytes>
    requires i < |task.chunks|
  {
    Lookup(c, ChunkPlace(task.source, task.key, task.version, task.chunks[i].index))
  }

  ghost predicate GoodAnswer(h: Hasher, chunk: ChunkMetadata, answer: Result<Bytes>) {
    answer.Ok? && |answer.value| == chunk.size && h(answer.value) == chunk.checksum
  }

  /** From a faithful source the copy goes on while the answers fit the manifest, and stops where one does not. */
  ghost predicate Explained(h: Hasher, before: Contents, task: ReplicationTask, stop: Stop)
    requires StopIndex(task, stop) <= |task.chunks|
  {
    && (forall j :: 0 <= j < StopIndex(task, stop) ==> GoodAnswer(h, task.chunks[j], SourceAnswer(before, task, j)))
    && (stop.SourceUnread? ==> stop.i < |task.chunks| && SourceAnswer(before, task, stop.i).Err?)
    && (stop.ChunkMismatch? ==>
          stop.i < |task.chunks| && SourceAnswer(before, task, stop.i).Ok?
          && !GoodAnswer(h, task.chunks[stop.i], SourceAnswer(before, task, stop.i)))
  }

  ghost predicate ExplainedUpTo(h: Hasher, before: Contents, task: ReplicationTask, n: nat)
    requires n <= |task.chunks|
  {
    forall j :: 0 <= j < n ==> GoodAnswer(h, task.chunks[j], SourceAnswer(before, task, j))
  }

  /** The first chunk whose answer does not fit the manifest, from n on; the number of chunks if all fit. */
  ghost function FirstBad(h: Hasher, c: Contents, task: ReplicationTask, n: nat): (i: nat)
    requires n <= |task.chunks|
    ensures n <= i <= |task.chunks|
    decreases |task.chunks| - n
  {
    if n == |task.chunks| || !GoodAnswer(h, task.chunks[n], SourceAnswer(c, task, n)) then n
      else FirstBad(h, c, task, n + 1)
  }

  lemma {:induction false} FirstBadIs(h: Hasher, c: Contents, task: ReplicationTask, n: nat, i: nat)
    requires n <= i <= |task.chunks|
    requires forall j :: n <= j < i ==> GoodAnswer(h, task.chunks[j], SourceAnswer(c, task, j))
    requires i < |task.chunks| ==> !GoodAnswer(h, task.chunks[i], SourceAnswer(c, task, i))
    ensures FirstBad(h, c, task, n) == i
    decreases i - n
  {
    hide GoodAnswer, SourceAnswer;
    if n < i { FirstBadIs(h, c, task, n + 1, i); }
  }

  /**
   * What a failed copy leaves, told from the contents before it: with working nodes a chunk before the first one whose
   * source answer does not fit the manifest remains exactly if that first one is absent at the source.
   */
  lemma LeftoverPredicted(h: Hasher, before: Contents, after: Contents, task: ReplicationTask, stop: Stop, j: nat)
    requires !stop.Complete? && !stop.TargetRefused? && DistinctIndices(task.chunks)
    requires StopIndex(task, stop) <= |task.chunks| && (stop.FileMismatch? || StopIndex(task, stop) < |task.chunks|)
    requires Leftover(h, before, after, task, stop, true) && Explained(h, before, task, stop)
    requires j < FirstBad(h, before, task, 0)
    ensures var i := FirstBad(h, before, task, 0);
      ChunkPlace(task.target, task.key, task.version, task.chunks[j].index) in after <==>
        i < |task.chunks| && SourceAnswer(before, task, i).Err?
  {
    hide ChunkPlace, FirstBad, Leftover, SourceAnswer, DistinctIndices;
    FirstBadIs(h, before, task, 0, StopIndex(task, stop));
    LeftoverExact(h, before, after, task, stop, j);
  }

  /** While only the target is written, another node goes on answering as at the start. */
  lemma SourceAnswers(h: Hasher, start: Contents, c: Contents, task: ReplicationTask, n: nat, full: Bytes)
    requires n < |task.chunks| && CopiedUpTo(h, start, c, task, n, full) && task.source != task.target
    ensures SourceAnswer(c, task, n) == SourceAnswer(start, task, n)
  {
    hide ChunkPlace;
    var p := ChunkPlace(task.source, task.key, task.version, task.chunks[n].index);
    forall j | 0 <= j < |task.chunks[..n]|
      ensures ChunkPlace(task.target, task.key, task.version, task.chunks[..n][j].index) != p
    {
      PlacesDiffer(task.target, task.key, task.version, task.chunks[..n][j].index,
                   task.source, task.key, task.version, task.chunks[n].index);
    }
    assert p !in Places(task.target, task.key, task.version, task.chunks[..n]);
  }

  lemma ExplainedMore(h: Hasher, before: Contents, task: ReplicationTask, n: nat)
    requires n < |task.chunks| && ExplainedUpTo(h, before, task, n)
    ensures GoodAnswer(h, task.chunks[n], SourceAnswer(before, task, n)) ==> ExplainedUpTo(h, before, task, n + 1)
    ensures Explained(h, before, task, TargetRefused(n))
    ensures SourceAnswer(before, task, n).Err? ==> Explained(h, before, task, SourceUnread(n))
    ensures SourceAnswer(before, task, n).Ok? && !GoodAnswer(h, task.chunks[n], SourceAnswer(before, task, n)) ==>
      Explained(h, before, task, ChunkMismatch(n))
  {
    hide SourceAnswer, GoodAnswer;
  }

  lemma ExplainedEnds(h: Hasher, before: Contents, task: ReplicationTask)
    ensures ExplainedUpTo(h, before, task, 0)
    ensures ExplainedUpTo(h, before, task, |task.chunks|) ==>
      Explained(h, before, task, Complete) && Explained(h, before, task, FileMismatch)
  {
    hide SourceAnswer, GoodAnswer;
  }

  /** The answer to one chunk, as CopyChunk sees it. */
  lemma AnswerSeen(h: Hasher, c: Contents, task: ReplicationTask, n: nat)
    requires n < |task.chunks|
    ensures SourceAnswer(c, task, n) == Lookup(c, ChunkPlace(task.source, task.key, task.version, task.chunks[n].index))
    ensures GoodAnswer(h, task.chunks[n], SourceAnswer(c, task, n)) <==>
      var src := SourceAnswer(c, task, n);
      src.Ok? && |src.value| == task.chunks[n].size && h(src.value) == task.chunks[n].checksum
  {
  }

  /** What is left after a stop in chunk n, from what the loop did last. */
  lemma StoppedLeftover(
      h: Hasher, start: Contents, before: Contents, mid: Contents, after: Contents, task: ReplicationTask, n: nat,
      full: Bytes, written: seq<string>, deletesWork: bool)
    requires n < |task.chunks| && CopiedUpTo(h, start, before, task, n, full) && WrittenKeys(task, n, written)
    requires SameOutside(before, mid, {ChunkPlace(task.target, task.key, task.version, task.chunks[n].index)})
    requires SameOutside(mid, after, KeyPlaces(task.target, task.version, written))
    ensures after == before ==> Leftover(h, start, after, task, SourceUnread(n), deletesWork)
    ensures (deletesWork ==> after == mid - KeyPlaces(task.target, task.version, written)) ==>
      Leftover(h, start, after, task, TargetRefused(n), deletesWork)
  {
    hide ChunkPlace, Verified, StoredBytes;
  }

  /**
   * Copies the chunks of a task to its target, verifying each against the manifest and all of them against
   * the file checksum. stop tells how it ended, and with that what it leaves; a good source and working nodes mean
   * success.
   */
  method ReplicateChunks(h: Hasher, store: ObjectStore, task: ReplicationTask, ghost data: Bytes)
    returns (r: Result<()>, ghost stop: Stop)
    modifies store
    ensures CopyOutcome(h, old(store.contents), store.contents, task, r.Ok?)
    ensures r.Ok? && DistinctIndices(task.chunks) && task.checksum != "" ==>
      h(StoredBytes(store.contents, task.target, task.key, task.version, task.chunks, |task.chunks|)) == task.checksum
    ensures r == StopError(stop) && StopIndex(task, stop) <= |task.chunks|
    ensures stop.Complete? || stop.FileMismatch? || StopIndex(task, stop) < |task.chunks|
    ensures Leftover(h, old(store.contents), store.contents, task, stop, store.deletesWork)
    ensures store.readsWork && task.source != task.target ==> Explained(h, old(store.contents), task, stop)
    ensures store.writesWork ==> !stop.TargetRefused?
    ensures store.readsWork && store.writesWork && GoodSource(h, old(store.contents), task, data) ==> r.Ok?
  {
    hide *;
    ghost var start := store.contents;
    ghost var good := store.readsWork && store.writesWork && GoodSource(h, start, task, data);
    ghost var faithful := store.readsWork && task.source != task.target;
    var full: Bytes := [];
    var written: seq<string> := [];
    CopyStart(h, start, task);
    ExplainedEnds(h, start, task);
    StopIndices(task);
    if good { CopyNothing(data); }
    for i := 0 to |task.chunks|
      invariant CopiedUpTo(h, start, store.contents, task, i, full)
      invariant WrittenKeys(task, i, written)
      invariant good ==> full == DataUpTo(data, i)
      invariant faithful ==> ExplainedUpTo(h, start, task, i)
    {
      ghost var before := store.contents;
      if good { SourceStays(h, start, before, task, i, full, data); }
      if faithful {
        SourceAnswers(h, start, before, task, i, full);
        ExplainedMore(h, start, task, i);
        AnswerSeen(h, before, task, i);
      }
      var copied, readable := CopyChunk(h, store, task, task.chunks[i]);
      ghost var mid := store.contents;
      if copied.Err? {
        if readable {
          DeleteChunkObjects(store, task.target, task.version, written);
        } else {
          SameAsBefore(mid, KeyPlaces(task.target, task.version, written));
        }
        CopyStopped(h, start, before, mid, store.contents, task, i, full, written);
        StoppedLeftover(h, start, before, mid, store.contents, task, i, full, written, store.deletesWork);
        StoppedUndone(h, start, store.contents, task, i, store.deletesWork);
        stop := if !readable then SourceUnread(i) else if copied.error == ErrIO then TargetRefused(i)
          else ChunkMismatch(i);
        return Err(copied.error), stop;
      }
      CopiedOneMore(h, start, before, task, i, full, copied.value);
      WrittenOneMore(task, i, written);
      full := full + copied.value;
      written := written + [ChunkObjectKey(task.key, task.chunks[i].index)];
    }
    if good { CopyEverything(h, start, task, data); }
    if task.checksum != "" && h(full) != task.checksum {
      ghost var before := store.contents;
      DeleteChunkObjects(store, task.target, task.version, written);
      CopyEnded(h, start, before, store.contents, task, full, written);
      stop := FileMismatch;
      EndedLeftover(h, start, store.contents, task, store.deletesWork);
      return Err(ErrChecksumMismatch), stop;
    }
    CopyEnded(h, start, store.contents, store.contents, task, full, written);
    EndedLeftover(h, start, store.contents, task, store.deletesWork);
    stop := Complete;
    r := Ok(());
  }

  lemma StopIndices(task: ReplicationTask)
    ensures StopIndex(task, Complete) == StopIndex(task, FileMismatch) == |task.chunks|
    ensures forall i :: StopIndex(task, SourceUnread(i)) == StopIndex(task, TargetRefused(i)) == i
    ensures forall i :: StopIndex(task, ChunkMismatch(i)) == i
    ensures StopError(Complete) == Ok(()) && StopError(FileMismatch) == Err(ErrChecksumMismatch)
    ensures forall i :: StopError(SourceUnread(i)) == StopError(TargetRefused(i)) == Err(ErrIO)
    ensures forall i :: StopError(ChunkMismatch(i)) == Err(ErrChecksumMismatch)
  {
  }

  lemma StoppedUndone(h: Hasher, start: Contents, after: Contents, task: ReplicationTask, n: nat, deletesWork: bool)
    requires n < |task.chunks|
    ensures (deletesWork ==> Undone(start, after, task, n + 1)) ==>
      Leftover(h, start, after, task, ChunkMismatch(n), deletesWork)
  {
  }

  lemma EndedLeftover(h: Hasher, start: Contents, after: Contents, task: ReplicationTask, deletesWork: bool)
    ensures Leftover(h, start, after, task, Complete, deletesWork)
    ensures (deletesWork ==> Undone(start, after, task, |task.chunks|)) ==>
      Leftover(h, start, after, task, FileMismatch, deletesWork)
  {
  }

  lemma SameAsBefore(c: Contents, places: set<Place>)
    ensures SameOutside(c, c, places)
  {
  }

  lemma PlacesSnocInside(task: ReplicationTask, i: nat)
    requires i < |task.chunks|
    ensures Places(task.target, task.key, task.version, task.chunks[..i + 1]) <=
            Places(task.target, task.key, task.version, task.chunks)
  {
    if i + 1 < |task.chunks| {
      PlacesSnoc(task.target, task.key, task.version, task.chunks, i + 1);
    } else {
      assert task.chunks[..i + 1] == task.chunks;
    }
  }

  /** Copies one object version; a version without a manifest is one whole object. */
  method Replicate(
      h: Hasher, store: ObjectStore, task: ReplicationTask, ghost data: Bytes)
    returns (r: Result<()>, ghost stop: Stop)
    modifies store
    ensures r == StopError(stop)
    ensures task.chunks != [] ==>
      && CopyOutcome(h, old(store.contents), store.contents, task, r.Ok?)
      && StopIndex(task, stop) <= |task.chunks|
      && (stop.Complete? || stop.FileMismatch? || StopIndex(task, stop) < |task.chunks|)
      && Leftover(h, old(store.contents), store.contents, task, stop, store.deletesWork)
      && (store.readsWork && task.source != task.target ==> Explained(h, old(store.contents), task, stop))
      && (store.writesWork ==> !stop.TargetRefused?)
      && (r.Ok? && DistinctIndices(task.chunks) && task.checksum != "" ==>
            h(StoredBytes(store.contents, task.target, task.key, task.version, task.chunks, |task.chunks|)) ==
              task.checksum)
      && (store.readsWork && store.writesWork && GoodSource(h, old(store.contents), task, data) ==> r.Ok?)
    ensures task.chunks == [] ==>
      var p := PlaceOf(task.target, task.key, task.version);
      && SameOutside(old(store.contents), store.contents, {p})
      && (r.Ok? ==> p in store.contents && (task.checksum != "" ==> h(store.contents[p]) == task.checksum))
      && (stop.SourceUnread? ==> store.contents == old(store.contents))
      && (stop.FileMismatch? && store.deletesWork ==> p !in store.contents)
      && (store.readsWork && store.writesWork ==>
            var src := Lookup(old(store.contents), PlaceOf(task.source, task.key, task.version));
            r.Ok? <==> src.Ok? && (task.checksum != "" ==> h(src.value) == task.checksum))
  {
    hide CopyOutcome, StoredBytes, Undone, DistinctIndices, GoodSource, Leftover, Explained;
    if |task.chunks| > 0 {
      r, stop := ReplicateChunks(h, store, task, data);
      return;
    }
    var src := store.ReadObject(task.source, task.key, task.version);
    if src.Err? {
      return Err(src.error), SourceUnread(0);
    }
    var n := store.WriteObject(task.target, task.key, task.version, src.value);
    if n.Err? {
      return Err(n.error), TargetRefused(0);
    }
    if task.checksum != "" && h(src.value) != task.checksum {
      store.DeleteObject(task.target, task.key, task.version);
      return Err(ErrChecksumMismatch), FileMismatch;
    }
    return Ok(()), Complete;
  }

  /**
   * A copy that stops halfway: the source has the first of two chunks and lacks the second, every node works. The copy
   * fails, and the first chunk stays on the target.
   */
  method HalfCopyStays(h: Hasher, store: ObjectStore, task: ReplicationTask, first: Bytes) returns (r: Result<()>)
    requires store.readsWork && store.writesWork && store.deletesWork && task.source != task.target
    requires |task.chunks| == 2 && task.chunks[0].index != task.chunks[1].index
    requires task.chunks[0].size == |first| && task.chunks[0].checksum == h(first)
    requires Lookup(store.contents, ChunkPlace(task.source, task.key, task.version, task.chunks[0].index)) == Ok(first)
    requires Lookup(store.contents, ChunkPlace(task.source, task.key, task.version, task.chunks[1].index)).Err?
    modifies store
    ensures r == Err(ErrIO)
    ensures ChunkPlace(task.target, task.key, task.version, task.chunks[0].index) in store.contents
  {
    hide ChunkPlace, Undone, CopyOutcome, StoredBytes;
    ghost var stop;
    AnswerSeen(h, store.contents, task, 0);
    AnswerSeen(h, store.contents, task, 1);
    r, stop := ReplicateChunks(h, store, task, first);
    assert !GoodAnswer(h, task.chunks[1], SourceAnswer(old(store.contents), task, 1));
    assert stop == SourceUnread(1);
  }

  /**
   * Staging a stream, writing it to a node and reading the node back gives the original bytes, for every
   * input and every way of splitting the reads.
   */
  method RoundTrip(h: Hasher, store: ObjectStore, node: string, key: string, version: nat, buffers: seq<Bytes>)
    returns (r: Result<Bytes>)
    requires CollisionFree(h) && buffers != [] && forall x <- buffers :: |x| <= BUFFER_SIZE
    requires store.readsWork && store.writesWork
    modifies store
    ensures r == Ok(Flatten(buffers))
  {
    var staged := StageReader(h, buffers, Eof);
    var f := staged.value;
    PartitionFits(h, f.data);
    var written := WriteChunks(store, node, key, version, f.data, f.chunks);
    WrittenHolds(h, store.contents, node, key, version, f.data);
    var m := FileMetadata(key, version, f.size, f.checksum, node, false, f.chunks, map[], ZERO_TIME, ZERO_TIME);
    ReadableIffHolds(h, store.contents, node, m, f.data);
    ghost var responses;
    r, responses := StageReplica(h, store, node, m);
  }

  lemma PartitionFits(h: Hasher, data: Bytes)
    ensures DistinctIndices(Partition(h, data))
    ensures forall c <- Partition(h, data) :: c.offset + c.size <= |data|
  {
    PartitionIsManifest(h, data);
  }
}
