/** Storage nodes as seen by the manager: where versions live, what nodes hold, and how objects are deleted. */
module Objects {
  import opened Types
  import opened Naming
  import opened Chunking

  /** (node, versioned object key) */
  type Place = (string, string)

  /** What the storage nodes hold. */
  type Contents = map<Place, Bytes>

  function PlaceOf(node: string, key: string, version: nat): Place {
    (node, VersionedObjectKey(key, version))
  }

  function ChunkPlace(node: string, key: string, version: nat, index: nat): Place {
    PlaceOf(node, ChunkObjectKey(key, index), version)
  }

  function Lookup(c: Contents, p: Place): Result<Bytes> {
    if p in c then Ok(c[p]) else Err(ErrIO)
  }

  /** The places the chunks of one version occupy on one node. */
  ghost function Places(node: string, key: string, version: nat, chunks: seq<ChunkMetadata>): set<Place> {
    set i | 0 <= i < |chunks| :: ChunkPlace(node, key, version, chunks[i].index)
  }

  ghost predicate SameOutside(a: Contents, b: Contents, places: set<Place>) {
    forall p :: p !in places ==> (p in a <==> p in b) && (p in a ==> a[p] == b[p])
  }

  ghost predicate DistinctIndices(chunks: seq<ChunkMetadata>) {
    forall i, j :: 0 <= i < j < |chunks| ==> chunks[i].index != chunks[j].index
  }

  /** node has every chunk of data, stored as the given version of key. */
  ghost predicate Holds(c: Contents, node: string, key: string, version: nat, data: Bytes) {
    forall i :: 0 <= i < ChunkCount(|data|) ==> Lookup(c, ChunkPlace(node, key, version, i)) == Ok(Slice(data, i))
  }

  /** Places of different files, versions, chunks or nodes are different. */
  lemma PlacesDiffer(
      node: string, key: string, version: nat, i: nat, node': string, key': string, version': nat, i': nat)
    ensures ChunkPlace(node, key, version, i) == ChunkPlace(node', key', version', i')
       <==> node == node' && key == key' && version == version' && i == i'
  {
    ChunkNameInjective(key, i, version, key', i', version');
  }

  /** What happens to one version on one node leaves every other version, key and node as it was. */
  lemma {:induction false} HoldsElsewhere(
      a: Contents, b: Contents, node: string, key: string, version: nat, chunks: seq<ChunkMetadata>,
      node': string, key': string, version': nat, data: Bytes)
    requires SameOutside(a, b, Places(node, key, version, chunks))
    requires node != node' || key != key' || version != version'
    ensures Holds(a, node', key', version', data) <==> Holds(b, node', key', version', data)
  {
    forall i | 0 <= i < ChunkCount(|data|)
      ensures Lookup(a, ChunkPlace(node', key', version', i)) == Lookup(b, ChunkPlace(node', key', version', i))
    {
      forall j | 0 <= j < |chunks| ensures ChunkPlace(node, key, version, chunks[j].index) != ChunkPlace(node', key',
        version', i) {
        PlacesDiffer(node, key, version, chunks[j].index, node', key', version', i);
      }
    }
  }

  /** How a faithful node answers the reads of a file. */
  function Answers(c: Contents, node: string, m: FileMetadata): Responses {
    (i: nat) =>
      if i < |m.chunks| then Lookup(c, ChunkPlace(node, m.key, m.version, m.chunks[i].index))
      else Lookup(c, PlaceOf(node, m.key, m.version))
  }

  /** A replica can be read back from faithful nodes exactly when it holds every chunk. */
  lemma ReadableIffHolds(h: Hasher, c: Contents, node: string, m: FileMetadata, data: Bytes)
    requires CollisionFree(h) && FileDescribes(h, data, m)
    ensures Assemble(h, m, Answers(c, node, m)) == Ok(data) <==> Holds(c, node, m.key, m.version, data)
  {
    AssembleExact(h, m, data, Answers(c, node, m));
    var answers := Answers(c, node, m);
    assert forall i :: 0 <= i < |m.chunks| ==> answers(i) == Lookup(c, ChunkPlace(node, m.key, m.version, i));
  }

  /** The outcome of copying task.chunks to the target: nothing else is touched, and success means verified chunks. */
  ghost predicate CopyOutcome(h: Hasher, before: Contents, after: Contents, task: ReplicationTask, ok: bool) {
    && SameOutside(before, after, Places(task.target, task.key, task.version, task.chunks))
    && (ok && DistinctIndices(task.chunks) ==> forall i :: 0 <= i < |task.chunks| ==>
          Verified(h, after, ChunkPlace(task.target, task.key, task.version, task.chunks[i].index), task.chunks[i]))
  }

  ghost predicate Verified(h: Hasher, c: Contents, p: Place, chunk: ChunkMetadata) {
    p in c && |c[p]| == chunk.size && h(c[p]) == chunk.checksum
  }

  lemma PartitionIndices(h: Hasher, data: Bytes)
    ensures DistinctIndices(Partition(h, data))
  {
    hide Slice, ChunkCount;
  }

  /** A successful copy of a described version leaves the target holding it. */
  lemma CopiedHolds(h: Hasher, before: Contents, after: Contents, task: ReplicationTask, data: Bytes)
    requires CollisionFree(h) && task.chunks == Partition(h, data) && CopyOutcome(h, before, after, task, true)
    ensures Holds(after, task.target, task.key, task.version, data)
  {
    hide ChunkPlace, Slice, ChunkCount, Places, SameOutside;
    PartitionIndices(h, data);
    forall i | 0 <= i < ChunkCount(|data|)
      ensures Lookup(after, ChunkPlace(task.target, task.key, task.version, i)) == Ok(Slice(data, i))
    {
      assert task.chunks[i] == ChunkAt(h, data, i);
      assert Verified(h, after, ChunkPlace(task.target, task.key, task.version, task.chunks[i].index), task.chunks[i]);
    }
  }

  /** The bytes of consecutive chunks as stored. */
  ghost function StoredBytes(
      c: Contents, node: string, key: string, version: nat, chunks: seq<ChunkMetadata>, n: nat): Bytes
    requires n <= |chunks|
  {
    if n == 0 then []
    else
      var p := ChunkPlace(node, key, version, chunks[n - 1].index);
      StoredBytes(c, node, key, version, chunks, n - 1) + (if p in c then c[p] else [])
  }

  lemma {:induction false} StoredBytesStay(
      a: Contents, b: Contents, node: string, key: string, version: nat, chunks: seq<ChunkMetadata>, n: nat)
    requires n <= |chunks|
    requires forall i :: 0 <= i < n ==>
      var p := ChunkPlace(node, key, version, chunks[i].index); Lookup(a, p) == Lookup(b, p)
    ensures StoredBytes(a, node, key, version, chunks, n) == StoredBytes(b, node, key, version, chunks, n)
  {
    if n > 0 {
      StoredBytesStay(a, b, node, key, version, chunks, n - 1);
      var p := ChunkPlace(node, key, version, chunks[n - 1].index);
      assert Lookup(a, p) == Lookup(b, p);
    }
  }

  /**
   * An object store whose operations may fail. Reads that do not work may return any bytes at all; a failed
   * write may leave anything at its place; a failed delete leaves the object. A successful write stores what it was
   * given.
   */
  class ObjectStore {
    var contents: Contents
    const readsWork: bool
    const writesWork: bool
    const deletesWork: bool

    constructor (readsWork: bool, writesWork: bool, deletesWork: bool)
      ensures contents == map[]
      ensures this.readsWork == readsWork && this.writesWork == writesWork && this.deletesWork == deletesWork
    {
      contents := map[];
      this.readsWork, this.writesWork, this.deletesWork := readsWork, writesWork, deletesWork;
    }

    method ReadObject(node: string, key: string, version: nat) returns (r: Result<Bytes>)
      ensures readsWork ==> r == Lookup(contents, PlaceOf(node, key, version))
      ensures r.Err? ==> r.error == ErrIO
    {
      if readsWork {
        r := Lookup(contents, PlaceOf(node, key, version));
      } else {
        var any: Bytes := *;
        if * { r := Ok(any); } else { r := Err(ErrIO); }
      }
    }

    method WriteObject(node: string, key: string, version: nat, data: Bytes) returns (r: Result<nat>)
      modifies this
      ensures SameOutside(old(contents), contents, {PlaceOf(node, key, version)})
      ensures writesWork ==> r.Ok?
      ensures r.Ok? ==> r.value == |data| && contents == old(contents)[PlaceOf(node, key, version) := data]
      ensures r.Err? ==> r.error == ErrIO
    {
      var p := PlaceOf(node, key, version);
      var fails := false;
      if !writesWork { fails := *; }
      if fails {
        var partial: Bytes := *;
        if * { contents := contents[p := partial]; }
        return Err(ErrIO);
      }
      contents := contents[p := data];
      r := Ok(|data|);
    }

    method DeleteObject(node: string, key: string, version: nat)
      modifies this
      ensures contents == old(contents) - {PlaceOf(node, key, version)} || (!deletesWork && contents == old(contents))
    {
      var works := true;
      if !deletesWork { works := *; }
      if works { contents := contents - {PlaceOf(node, key, version)}; }
    }
  }

  lemma PlacesSnoc(node: string, key: string, version: nat, chunks: seq<ChunkMetadata>, i: nat)
    requires i < |chunks|
    ensures Places(node, key, version, chunks[..i + 1]) ==
            Places(node, key, version, chunks[..i]) + {ChunkPlace(node, key, version, chunks[i].index)}
    ensures Places(node, key, version, chunks[..i]) <= Places(node, key, version, chunks)
  {
    var a, b := chunks[..i], chunks[..i + 1];
    assert b == a + [chunks[i]];
    forall p | p in Places(node, key, version, b)
      ensures p in Places(node, key, version, a) + {ChunkPlace(node, key, version, chunks[i].index)}
    {
      var j :| 0 <= j < |b| && p == ChunkPlace(node, key, version, b[j].index);
      if j < i { assert a[j] == b[j]; }
    }
    forall p | p in Places(node, key, version, a)
      ensures p in Places(node, key, version, b) && p in Places(node, key, version, chunks)
    {
      var j :| 0 <= j < |a| && p == ChunkPlace(node, key, version, a[j].index);
      assert b[j] == a[j] == chunks[j];
    }
    assert ChunkPlace(node, key, version, b[i].index) in Places(node, key, version, b);
  }

  lemma TouchInside(a: Contents, b: Contents, c: Contents, p: Place, places: set<Place>)
    requires SameOutside(a, b, places) && SameOutside(b, c, {p}) && p in places
    ensures SameOutside(a, c, places)
  {
  }

  /** Where a version lives on one node: one whole object if it has no manifest, else its chunks. */
  ghost function ObjectPlaces(node: string, key: string, version: nat, chunks: seq<ChunkMetadata>): set<Place> {
    if chunks == [] then {PlaceOf(node, key, version)} else Places(node, key, version, chunks)
  }

  /** Removes the objects of one version from one node, as far as deletes work. */
  method DeleteObjects(store: ObjectStore, node: string, key: string, version: nat, chunks: seq<ChunkMetadata>)
    returns (ghost removed: set<Place>)
    modifies store
    ensures removed <= ObjectPlaces(node, key, version, chunks) && store.contents == old(store.contents) - removed
    ensures store.deletesWork ==> removed == ObjectPlaces(node, key, version, chunks)
    ensures SameOutside(old(store.contents), store.contents, ObjectPlaces(node, key, version, chunks))
  {
    hide ChunkPlace, PlaceOf;
    removed := {};
    if |chunks| == 0 {
      ghost var before := store.contents;
      store.DeleteObject(node, key, version);
      removed := if store.contents == before - {PlaceOf(node, key, version)} then {PlaceOf(node, key, version)} else {};
      return;
    }
    for i := 0 to |chunks|
      invariant removed <= Places(node, key, version, chunks) && store.contents == old(store.contents) - removed
      invariant store.deletesWork ==> removed == Places(node, key, version, chunks[..i])
    {
      ghost var before := store.contents;
      ghost var p := ChunkPlace(node, key, version, chunks[i].index);
      ChunkPlaceOf(node, key, version, chunks[i].index);
      assert p in Places(node, key, version, chunks);
      store.DeleteObject(node, ChunkObjectKey(key, chunks[i].index), version);
      PlacesSnoc(node, key, version, chunks, i);
      removed := if store.contents == before - {p} then removed + {p} else removed;
    }
    assert chunks[..|chunks|] == chunks;
  }

  lemma ChunkPlaceOf(node: string, key: string, version: nat, index: nat)
    ensures ChunkPlace(node, key, version, index) == PlaceOf(node, ChunkObjectKey(key, index), version)
  {
  }
}
