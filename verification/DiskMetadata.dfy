/**
 * The metadata kept in two database buckets. Each operation is the one of the in-memory store on the decoded records.
 */
module DiskMetadata {
  import opened Types
  import opened Ordering
  import opened Metadata
  import opened Placement
  import opened Bolt

  function ExpiredSince(cutoff: Time): NodeMetadata -> Option<NodeMetadata> {
    (n: NodeMetadata) => if n.lastHeartbeat < cutoff then Some(n.(state := NodeDown)) else None
  }

  class DiskMetadataStore {
    var files: Bucket
    var nodes: Bucket
    const fileCodec: Codec<FileMetadata>
    const nodeCodec: Codec<NodeMetadata>

    ghost function State(): Meta
      reads this
    {
      Meta(Decoded(fileCodec, files), Decoded(nodeCodec, nodes))
    }

    ghost predicate Valid()
      reads this
    {
      && RoundTrips(fileCodec) && RoundTrips(nodeCodec) && KeysFit(files) && KeysFit(nodes)
      && State().Valid()
    }

    /** Every record of both buckets can be decoded. */
    ghost predicate Readable()
      reads this
    {
      Intact(fileCodec, files) && Intact(nodeCodec, nodes)
    }

    /** Opens the store over the buckets found on disk; a new file has none. */
    constructor (fileCodec: Codec<FileMetadata>, nodeCodec: Codec<NodeMetadata>, files: Bucket, nodes: Bucket)
      ensures this.fileCodec == fileCodec && this.nodeCodec == nodeCodec && this.files == files && this.nodes == nodes
    {
      this.fileCodec, this.nodeCodec, this.files, this.nodes := fileCodec, nodeCodec, files, nodes;
    }

    method UpsertNode(id: string, addr: string, now: Time) returns (r: Result<NodeMetadata>)
      requires Valid()
      modifies this
      ensures Valid() && files == old(files) && (old(Readable()) ==> Readable())
      ensures if KeyFits(id) then
          && State() == old(State()).UpsertNode(id, addr, now) && r == Ok(State().nodes[id])
        else r == Err(ErrBucketKey) && nodes == old(nodes)
    {
      hide Decoded, RoundTrips, KeysFit;
      var node := NodeMetadata(id, addr, NodeHealthy, now);
      var put := Put(nodeCodec, nodes, id, node);
      if put.None? {
        return Err(ErrBucketKey);
      }
      PutDecoded(nodeCodec, nodes, id, node);
      nodes := put.value;
      r := Ok(node);
    }

    method MarkExpiredNodes(ttl: int, now: Time) returns (r: Result<()>)
      requires Valid()
      modifies this
      ensures Valid() && files == old(files) && (old(Readable()) ==> Readable())
      ensures if Intact(nodeCodec, old(nodes)) then r.Ok? && State() == old(State()).MarkExpiredNodes(ttl, now)
        else r == Err(ErrDecode) && nodes == old(nodes)
    {
      hide RoundTrips, Decoded, Applied, Intact, Meta.MarkExpiredNodes;
      var tx := Rewrite(nodeCodec, nodes, ExpiredSince(now - ttl));
      if tx.Err? {
        return Err(tx.error);
      }
      ExpiredBucket(nodeCodec, State(), nodes, tx.value, ttl, now);
      nodes := tx.value;
      r := Ok(());
    }

    /** Filters the sorted listing; the in-memory store sorts the filtered one. */
    method HealthyNodes() returns (r: Result<seq<NodeMetadata>>)
      requires Valid()
      ensures r == if Intact(nodeCodec, nodes) then Ok(State().HealthyNodes()) else Err(ErrDecode)
    {
      hide Decoded, ReadUpTo, RoundTrips, Intact, SortedSeq, Kept, Filter, HealthyNode;
      var listed := Nodes();
      if listed.error.Some? {
        return Err(listed.error.value);
      }
      var all := listed.items;
      var healthy: seq<NodeMetadata> := [];
      FilterNothing(HealthyNode);
      for i := 0 to |all|
        invariant healthy == Filter(HealthyNode, all[..i])
      {
        assert all[..i + 1] == all[..i] + [all[i]];
        FilterSnoc(HealthyNode, all[..i], all[i]);
        if HealthyNode(all[i]) {
          healthy := healthy + [all[i]];
        }
      }
      assert all[..|all|] == all;
      HealthyOfAll(State());
      r := Ok(healthy);
    }

    method Nodes() returns (r: Listing<NodeMetadata>)
      requires Valid()
      ensures r.items == Meta(map[], ReadUpTo(nodeCodec, nodes)).Nodes()
      ensures r.error == if Intact(nodeCodec, nodes) then None else Some(ErrDecode)
      ensures Intact(nodeCodec, nodes) ==> r.items == State().Nodes()
    {
      hide RoundTrips, KeysFit, ReadUpTo, Intact, Decoded;
      NodeOrder(State());
      if Intact(nodeCodec, nodes) { ReadAll(nodeCodec, nodes); }
      r := ScanSorted(nodeCodec, nodes, AnyNode, NodeLess, (n: NodeMetadata) => n.id);
    }

    method BeginFileVersion(
        key: string, size: nat, checksum: string, chunks: seq<ChunkMetadata>, primary: string, replicas: seq<string>,
        now: Time) returns (r: Result<FileMetadata>)
      requires Valid()
      modifies this
      ensures Valid() && nodes == old(nodes) && (old(Readable()) ==> Readable())
      ensures if Unreadable(fileCodec, old(files), key) then r == Err(ErrDecode) && files == old(files)
        else if !KeyFits(key) then r == Err(ErrBucketKey) && files == old(files)
        else
          && r == Ok(old(State()).NewFile(key, size, checksum, chunks, primary, replicas, now))
          && State() == old(State()).Store(r.value)
    {
      hide Decoded, RoundTrips, KeysFit, Meta.Valid;
      DecodedAt(fileCodec, files, key);
      var version, createdAt := 1, now;
      if key in files {
        var prev := fileCodec.decode(files[key]);
        if prev.None? {
          return Err(ErrDecode);
        }
        version, createdAt := prev.value.version + 1, prev.value.createdAt;
      }
      var entries: map<string, ReplicaMetadata> := map[];
      for i := 0 to |replicas|
        invariant entries == InitialReplicas(primary, replicas[..i], now)
      {
        var state := ReplicaPending;
        if replicas[i] == primary {
          state := ReplicaHealthy;
        }
        assert replicas[..i + 1] == replicas[..i] + [replicas[i]];
        entries := entries[replicas[i] := ReplicaMetadata(replicas[i], state, now)];
      }
      assert replicas[..|replicas|] == replicas;
      var f := FileMetadata(key, version, size, checksum, primary, false, chunks, entries, createdAt, now);
      StoreKeepsValid(State(), f, primary, replicas, now);
      r := PutFile(key, f);
    }

    method NextVersion(key: string) returns (r: Result<nat>)
      ensures r == if Unreadable(fileCodec, files, key) then Err(ErrDecode) else Ok(State().NextVersion(key))
    {
      var found := GetFile(key);
      if found.Err? {
        return Err(found.error);
      }
      var version := 1;
      if found.value.Some? {
        version := found.value.value.version + 1;
      }
      r := Ok(version);
    }

    method MarkReplica(key: string, nodeId: string, state: ReplicaState, now: Time) returns (r: Result<FileMetadata>)
      requires Valid()
      modifies this
      ensures Valid() && nodes == old(nodes) && (old(Readable()) ==> Readable())
      ensures if Unreadable(fileCodec, old(files), key) then r == Err(ErrDecode) && files == old(files)
        else (State(), r) == old(State()).MarkReplica(key, nodeId, state, now)
    {
      hide Decoded, RoundTrips, KeysFit, Meta.Valid;
      var found := GetFile(key);
      if found.Err? {
        return Err(found.error);
      }
      if found.value.None? {
        return Err(ErrMetadataNotFound);
      }
      var f := found.value.value;
      if nodeId !in f.replicas {
        return Err(ErrReplicaNotFound);
      }
      MarkKeepsValid(State(), key, nodeId, state, now);
      var replica := f.replicas[nodeId].(state := state, updatedAt := now);
      f := f.(replicas := f.replicas[nodeId := replica], updatedAt := now);
      ListedKeyFits(fileCodec, files, key);
      r := PutFile(key, f);
    }

    method Tombstone(key: string, now: Time) returns (r: Result<FileMetadata>)
      requires Valid()
      modifies this
      ensures Valid() && nodes == old(nodes) && (old(Readable()) ==> Readable())
      ensures if Unreadable(fileCodec, old(files), key) then r == Err(ErrDecode) && files == old(files)
        else (State(), r) == old(State()).Tombstone(key, now)
    {
      hide Decoded, RoundTrips, KeysFit, Meta.Valid;
      var found := GetFile(key);
      if found.Err? {
        return Err(found.error);
      }
      if found.value.None? {
        return Err(ErrMetadataNotFound);
      }
      ghost var start := found.value.value;
      var f := found.value.value.(version := found.value.value.version + 1, deleted := true, updatedAt := now);
      var entries := f.replicas;
      var todo := entries.Keys;
      while todo != {}
        invariant todo <= entries.Keys == f.replicas.Keys
        invariant forall n <- entries ::
                    entries[n] == if n in todo then f.replicas[n]
                      else f.replicas[n].(state := ReplicaDeleted, updatedAt := now)
      {
        var n :| n in todo;
        todo := todo - {n};
        entries := entries[n := entries[n].(state := ReplicaDeleted, updatedAt := now)];
      }
      f := f.(replicas := entries);
      assert f == Tombstoned(start, now);
      TombstoneKeepsValid(State(), key, now);
      ListedKeyFits(fileCodec, files, key);
      r := PutFile(key, f);
    }

    method GetFile(key: string) returns (r: Result<Option<FileMetadata>>)
      ensures r == if Unreadable(fileCodec, files, key) then Err(ErrDecode)
                   else Ok(if key in State().files then Some(State().files[key]) else None)
    {
      if key !in files {
        return Ok(None);
      }
      var f := fileCodec.decode(files[key]);
      if f.None? {
        return Err(ErrDecode);
      }
      r := Ok(f);
    }

    method ListFiles() returns (r: Listing<FileMetadata>)
      requires Valid()
      ensures r.items == Meta(ReadUpTo(fileCodec, files), map[]).ListFiles()
      ensures r.error == if Intact(fileCodec, files) then None else Some(ErrDecode)
      ensures Intact(fileCodec, files) ==> r.items == State().ListFiles()
    {
      hide RoundTrips, KeysFit, ReadUpTo, Intact, Decoded;
      FileOrder(State());
      if Intact(fileCodec, files) { ReadAll(fileCodec, files); }
      r := ScanSorted(fileCodec, files, AnyFile, FileLess, (f: FileMetadata) => f.key);
    }

    method AddReplica(key: string, nodeId: string, state: ReplicaState, now: Time) returns (r: Result<FileMetadata>)
      requires Valid()
      modifies this
      ensures Valid() && nodes == old(nodes) && (old(Readable()) ==> Readable())
      ensures if Unreadable(fileCodec, old(files), key) then r == Err(ErrDecode) && files == old(files)
        else (State(), r) == old(State()).AddReplica(key, nodeId, state, now)
    {
      hide Decoded, RoundTrips, KeysFit, Meta.Valid;
      var found := GetFile(key);
      if found.Err? {
        return Err(found.error);
      }
      if found.value.None? {
        return Err(ErrMetadataNotFound);
      }
      AddKeepsValid(State(), key, nodeId, state, now);
      var f := found.value.value;
      f := f.(replicas := f.replicas[nodeId := ReplicaMetadata(nodeId, state, now)], updatedAt := now);
      ListedKeyFits(fileCodec, files, key);
      r := PutFile(key, f);
    }

    /** Commits one record. */
    method PutFile(key: string, f: FileMetadata) returns (r: Result<FileMetadata>)
      requires Valid() && State().(files := State().files[key := f]).Valid()
      modifies this
      ensures Valid() && nodes == old(nodes) && (old(Readable()) ==> Readable())
      ensures if KeyFits(key) then r == Ok(f) && State() == old(State()).(files := old(State()).files[key := f])
        else r == Err(ErrBucketKey) && files == old(files)
    {
      hide Decoded, RoundTrips, KeysFit, Meta.Valid;
      var put := Put(fileCodec, files, key, f);
      if put.None? {
        return Err(ErrBucketKey);
      }
      PutDecoded(fileCodec, files, key, f);
      files := put.value;
      r := Ok(f);
    }
  }

  lemma ListedKeyFits(codec: Codec<FileMetadata>, b: Bucket, key: string)
    requires KeysFit(b) && key in Decoded(codec, b)
    ensures KeyFits(key)
  {
  }

  lemma ExpiredBucket(codec: Codec<NodeMetadata>, m: Meta, b: Bucket, tx: Bucket, ttl: int, now: Time)
    requires m.Valid() && m.nodes == Decoded(codec, b) && KeysFit(b) && Intact(codec, b) && Intact(codec, tx)
      && tx.Keys == b.Keys
    requires forall k <- b :: Decoded(codec, tx)[k] == Applied(ExpiredSince(now - ttl), Decoded(codec, b)[k])
    ensures m.(nodes := Decoded(codec, tx)) == m.MarkExpiredNodes(ttl, now)
    ensures KeysFit(tx) && m.(nodes := Decoded(codec, tx)).Valid()
  {
    assert Decoded(codec, tx) == m.MarkExpiredNodes(ttl, now).nodes;
  }

  /** Sort-then-filter, as done here, against filter-then-sort. */
  lemma HealthyOfAll(m: Meta)
    requires m.Valid()
    ensures Filter(HealthyNode, m.Nodes()) == m.HealthyNodes()
  {
    NodeOrder(m);
    KeptOfAll(m.nodes, AnyNode, HealthyNode);
    FilterSortedSeq(NodeLess, HealthyNode, Kept(m.nodes, AnyNode));
  }

  lemma StoreKeepsValid(m: Meta, f: FileMetadata, primary: string, replicas: seq<string>, now: Time)
    requires m.Valid() && f.replicas == InitialReplicas(primary, replicas, now)
    ensures m.(files := m.files[f.key := f]).Valid()
  {
  }

  lemma MarkKeepsValid(m: Meta, key: string, nodeId: string, state: ReplicaState, now: Time)
    requires m.Valid()
    ensures m.MarkReplica(key, nodeId, state, now).0.Valid()
  {
  }

  lemma TombstoneKeepsValid(m: Meta, key: string, now: Time)
    requires m.Valid()
    ensures m.Tombstone(key, now).0.Valid()
  {
  }

  lemma AddKeepsValid(m: Meta, key: string, nodeId: string, state: ReplicaState, now: Time)
    requires m.Valid()
    ensures m.AddReplica(key, nodeId, state, now).0.Valid()
  {
  }
}
