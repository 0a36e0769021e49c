/** The authoritative file and node records: their transitions as functions, and the in-memory store. */
module Metadata {
  import opened Types
  import opened Ordering

  predicate NodeLess(a: NodeMetadata, b: NodeMetadata) { StringLess(a.id, b.id) }
  predicate ReplicaLess(a: ReplicaMetadata, b: ReplicaMetadata) { StringLess(a.nodeId, b.nodeId) }
  predicate FileLess(a: FileMetadata, b: FileMetadata) { StringLess(a.key, b.key) }

  predicate AnyNode(n: NodeMetadata) { true }
  predicate HealthyNode(n: NodeMetadata) { n.state == NodeHealthy }
  predicate HealthyReplica(r: ReplicaMetadata) { r.state == ReplicaHealthy }
  predicate AnyFile(f: FileMetadata) { true }

  /** Every replica record sits under its own node ID. */
  ghost predicate FileOk(f: FileMetadata) {
    KeyedBy(f.replicas, (r: ReplicaMetadata) => r.nodeId)
  }

  /** The healthy replicas of a file in node order. */
  ghost function HealthyReplicas(f: FileMetadata): (r: seq<ReplicaMetadata>)
    ensures forall x :: x in r <==> x in f.replicas.Values && x.state == ReplicaHealthy
  {
    var r := SortedSeq(ReplicaLess, Kept(f.replicas, HealthyReplica));
    assert forall x :: x in r <==> x in Elements(r);
    r
  }

  function Expired(n: NodeMetadata, cutoff: Time): NodeMetadata {
    if n.lastHeartbeat < cutoff then n.(state := NodeDown) else n
  }

  function Marked(f: FileMetadata, nodeId: string, state: ReplicaState, now: Time): FileMetadata {
    f.(replicas := f.replicas[nodeId := ReplicaMetadata(nodeId, state, now)], updatedAt := now)
  }

  function Tombstoned(f: FileMetadata, now: Time): FileMetadata {
    f.(version := f.version + 1, deleted := true, updatedAt := now,
       replicas := map n | n in f.replicas :: f.replicas[n].(state := ReplicaDeleted, updatedAt := now))
  }

  function InitialReplicas(primary: string, replicas: seq<string>, now: Time): map<string, ReplicaMetadata> {
    map n | n in replicas :: ReplicaMetadata(n, if n == primary then ReplicaHealthy else ReplicaPending, now)
  }

  /** The whole metadata state; each member function is one backend operation. */
  datatype Meta = Meta(files: map<string, FileMetadata>, nodes: map<string, NodeMetadata>) {

    ghost predicate Valid() {
      && KeyedBy(nodes, (n: NodeMetadata) => n.id)
      && KeyedBy(files, (f: FileMetadata) => f.key)
      && forall k <- files :: FileOk(files[k])
    }

    function UpsertNode(id: string, addr: string, now: Time): Meta {
      this.(nodes := nodes[id := NodeMetadata(id, addr, NodeHealthy, now)])
    }

    function MarkExpiredNodes(ttl: int, now: Time): Meta {
      this.(nodes := map id | id in nodes :: Expired(nodes[id], now - ttl))
    }

    ghost function HealthyNodes(): seq<NodeMetadata> {
      SortedSeq(NodeLess, Kept(nodes, HealthyNode))
    }

    ghost function Nodes(): seq<NodeMetadata> {
      SortedSeq(NodeLess, Kept(nodes, AnyNode))
    }

    ghost function ListFiles(): seq<FileMetadata> {
      SortedSeq(FileLess, Kept(files, AnyFile))
    }

    /** Version of the record under key; 0 before the first one. */
    function Version(key: string): nat {
      if key in files then files[key].version else 0
    }

    function NextVersion(key: string): nat {
      Version(key) + 1
    }

    function NewFile(
        key: string, size: nat, checksum: string, chunks: seq<ChunkMetadata>, primary: string, replicas: seq<string>,
        now: Time): FileMetadata
    {
      FileMetadata(key, NextVersion(key), size, checksum, primary, false, chunks,
                   InitialReplicas(primary, replicas, now), if key in files then files[key].createdAt else now, now)
    }

    function Store(f: FileMetadata): Meta {
      this.(files := files[f.key := f])
    }

    function MarkReplica(key: string, nodeId: string, state: ReplicaState, now: Time): (Meta, Result<FileMetadata>) {
      if key !in files then (this, Err(ErrMetadataNotFound))
      else if nodeId !in files[key].replicas then (this, Err(ErrReplicaNotFound))
      else
        var f := files[key].(
                 replicas := files[key].replicas[nodeId := files[key].replicas[nodeId].(state := state,
                   updatedAt := now)],
                 updatedAt := now);
        (this.(files := files[key := f]), Ok(f))
    }

    function Tombstone(key: string, now: Time): (Meta, Result<FileMetadata>) {
      if key !in files then (this, Err(ErrMetadataNotFound))
      else
        var f := Tombstoned(files[key], now);
        (this.(files := files[key := f]), Ok(f))
    }

    function AddReplica(key: string, nodeId: string, state: ReplicaState, now: Time): (Meta, Result<FileMetadata>) {
      if key !in files then (this, Err(ErrMetadataNotFound))
      else
        var f := Marked(files[key], nodeId, state, now);
        (this.(files := files[key := f]), Ok(f))
    }
  }

  const NO_META := Meta(map[], map[])

  lemma NodeOrder(m: Meta)
    requires m.Valid()
    ensures TotalOn(NodeLess, Kept(m.nodes, HealthyNode)) && TotalOn(NodeLess, Kept(m.nodes, AnyNode))
  {
    KeptOrderTotal(m.nodes, HealthyNode, NodeLess, (n: NodeMetadata) => n.id);
    KeptOrderTotal(m.nodes, AnyNode, NodeLess, (n: NodeMetadata) => n.id);
  }

  lemma FileOrder(m: Meta)
    requires m.Valid()
    ensures TotalOn(FileLess, Kept(m.files, AnyFile))
  {
    KeptOrderTotal(m.files, AnyFile, FileLess, (f: FileMetadata) => f.key);
  }

  lemma ReplicaOrder(f: FileMetadata)
    requires FileOk(f)
    ensures TotalOn(ReplicaLess, Kept(f.replicas, HealthyReplica))
  {
    KeptOrderTotal(f.replicas, HealthyReplica, ReplicaLess, (r: ReplicaMetadata) => r.nodeId);
  }

  /** HealthyNodes lists exactly the healthy nodes, in ID order, each once. */
  lemma HealthyNodesListing(m: Meta)
    requires m.Valid()
    ensures Sorted(NodeLess, m.HealthyNodes())
    ensures forall i, j :: 0 <= i < j < |m.HealthyNodes()| ==>
      StringLess(m.HealthyNodes()[i].id, m.HealthyNodes()[j].id)
    ensures forall n :: n in m.HealthyNodes() <==> n.id in m.nodes && m.nodes[n.id] == n && n.state == NodeHealthy
  {
    NodeOrder(m);
    SortedSeqSorted(NodeLess, Kept(m.nodes, HealthyNode));
    forall n ensures n in m.HealthyNodes() <==> n in Kept(m.nodes, HealthyNode) {
      assert n in m.HealthyNodes() <==> n in Elements(m.HealthyNodes());
    }
  }

  lemma HealthyReplicasListing(f: FileMetadata)
    requires FileOk(f)
    ensures Sorted(ReplicaLess, HealthyReplicas(f))
    ensures forall i, j :: 0 <= i < j < |HealthyReplicas(f)| ==>
      StringLess(HealthyReplicas(f)[i].nodeId, HealthyReplicas(f)[j].nodeId)
    ensures forall r :: r in HealthyReplicas(f) <==>
                          r.nodeId in f.replicas && f.replicas[r.nodeId] == r && r.state == ReplicaHealthy
  {
    ReplicaOrder(f);
    SortedSeqSorted(ReplicaLess, Kept(f.replicas, HealthyReplica));
  }

  /**
   * A node that sent its last heartbeat at beat survives the expiry pass exactly while the heartbeat is
   * no older than the time to live, and a node found down stays down until the next heartbeat.
   */
  lemma HeartbeatWindow(m: Meta, id: string, addr: string, beat: Time, ttl: int, now: Time)
    ensures var m' := m.UpsertNode(id, addr, beat).MarkExpiredNodes(ttl, now);
      (m'.nodes[id].state == NodeHealthy <==> now - beat <= ttl)
      && forall other <- m.nodes :: other != id && m.nodes[other].state == NodeDown ==>
           m'.nodes[other] == m.nodes[other]
  {
  }

  // ----- What each operation does to a record, field by field -----

  /** m' is m but for the record under key. */
  ghost predicate OnlyFile(m: Meta, m': Meta, key: string) {
    && m'.nodes == m.nodes && m'.files.Keys == m.files.Keys + {key}
    && forall k <- m.files :: k != key ==> m'.files[k] == m.files[k]
  }

  /** The records describe the same content, written at the same time under the same primary. */
  ghost predicate SameContent(f: FileMetadata, g: FileMetadata) {
    && g.key == f.key && g.size == f.size && g.checksum == f.checksum && g.chunks == f.chunks
    && g.primary == f.primary && g.createdAt == f.createdAt
  }

  /** A tombstone keeps the content and the replica nodes, takes the next version, and marks every replica deleted. */
  lemma TombstoneExact(m: Meta, key: string, now: Time)
    ensures key !in m.files ==> m.Tombstone(key, now) == (m, Err(ErrMetadataNotFound))
    ensures key in m.files ==>
      var (m', r) := m.Tombstone(key, now);
      && r.Ok? && OnlyFile(m, m', key) && m'.files[key] == r.value
      && var (f, g) := (m.files[key], r.value);
      && SameContent(f, g) && g.version == f.version + 1 && g.deleted && g.updatedAt == now
      && g.replicas.Keys == f.replicas.Keys
      && forall n <- f.replicas :: g.replicas[n] == ReplicaMetadata(f.replicas[n].nodeId, ReplicaDeleted, now)
  {
  }

  /** A rewritten file keeps its creation time; the primary is healthy and every other replica pending. */
  lemma RewriteExact(
      m: Meta, key: string, size: nat, checksum: string, chunks: seq<ChunkMetadata>, primary: string,
      replicas: seq<string>, now: Time)
    ensures var f := m.NewFile(key, size, checksum, chunks, primary, replicas, now);
      && OnlyFile(m, m.Store(f), key) && m.Store(f).files[key] == f
      && f.key == key && f.size == size && f.checksum == checksum && f.chunks == chunks && f.primary == primary
      && !f.deleted && f.updatedAt == now
      && (key in m.files ==> f.version == m.files[key].version + 1 && f.createdAt == m.files[key].createdAt)
      && (key !in m.files ==> f.version == 1 && f.createdAt == now)
      && (forall n :: n in f.replicas <==> n in replicas)
      && (forall n <- f.replicas :: f.replicas[n].nodeId == n && f.replicas[n].updatedAt == now)
      && (forall n <- f.replicas :: n == primary ==> f.replicas[n].state == ReplicaHealthy)
      && (forall n <- f.replicas :: n != primary ==> f.replicas[n].state == ReplicaPending)
  {
  }

  /** Marking changes the state of one existing replica. */
  lemma MarkExact(m: Meta, key: string, node: string, state: ReplicaState, now: Time)
    ensures var (m', r) := m.MarkReplica(key, node, state, now);
      && (key !in m.files ==> (m', r) == (m, Err(ErrMetadataNotFound)))
      && (key in m.files && node !in m.files[key].replicas ==> (m', r) == (m, Err(ErrReplicaNotFound)))
      && (key in m.files && node in m.files[key].replicas ==>
            && r.Ok? && OnlyFile(m, m', key) && m'.files[key] == r.value
            && var (f, g) := (m.files[key], r.value);
            && SameContent(f, g) && g.version == f.version && g.deleted == f.deleted && g.updatedAt == now
            && g.replicas.Keys == f.replicas.Keys
            && g.replicas[node] == ReplicaMetadata(f.replicas[node].nodeId, state, now)
            && forall n <- f.replicas :: n != node ==> g.replicas[n] == f.replicas[n])
  {
  }

  /** Adding sets one replica, new or not. */
  lemma AddExact(m: Meta, key: string, node: string, state: ReplicaState, now: Time)
    ensures var (m', r) := m.AddReplica(key, node, state, now);
      && (key !in m.files ==> (m', r) == (m, Err(ErrMetadataNotFound)))
      && (key in m.files ==>
            && r.Ok? && OnlyFile(m, m', key) && m'.files[key] == r.value
            && var (f, g) := (m.files[key], r.value);
            && SameContent(f, g) && g.version == f.version && g.deleted == f.deleted && g.updatedAt == now
            && g.replicas.Keys == f.replicas.Keys + {node}
            && g.replicas[node] == ReplicaMetadata(node, state, now)
            && forall n <- f.replicas :: n != node ==> g.replicas[n] == f.replicas[n])
  {
  }

  /** A heartbeat registers the address and the time; an expiry pass touches nothing but the state of late nodes. */
  lemma NodesExact(m: Meta, id: string, addr: string, ttl: int, now: Time)
    ensures var m' := m.UpsertNode(id, addr, now);
      && m'.files == m.files && m'.nodes.Keys == m.nodes.Keys + {id}
      && m'.nodes[id].id == id && m'.nodes[id].addr == addr && m'.nodes[id].state == NodeHealthy
      && m'.nodes[id].lastHeartbeat == now
      && forall n <- m.nodes :: n != id ==> m'.nodes[n] == m.nodes[n]
    ensures var m' := m.MarkExpiredNodes(ttl, now);
      && m'.files == m.files && m'.nodes.Keys == m.nodes.Keys
      && forall n <- m.nodes ::
           && m'.nodes[n].id == m.nodes[n].id && m'.nodes[n].addr == m.nodes[n].addr
           && m'.nodes[n].lastHeartbeat == m.nodes[n].lastHeartbeat
           && (m'.nodes[n].state == NodeDown <==> m.nodes[n].state == NodeDown || m.nodes[n].lastHeartbeat + ttl < now)
  {
  }

  /** Nodes and ListFiles list every record once, in the order of their keys. */
  lemma Listings(m: Meta)
    requires m.Valid()
    ensures forall n :: n in m.Nodes() <==> n.id in m.nodes && m.nodes[n.id] == n
    ensures forall i, j :: 0 <= i < j < |m.Nodes()| ==> StringLess(m.Nodes()[i].id, m.Nodes()[j].id)
    ensures forall f :: f in m.ListFiles() <==> f.key in m.files && m.files[f.key] == f
    ensures forall i, j :: 0 <= i < j < |m.ListFiles()| ==> StringLess(m.ListFiles()[i].key, m.ListFiles()[j].key)
  {
    hide StringLess, SortedSeq, TotalOn;
    NodeOrder(m);
    FileOrder(m);
    SortedSeqSorted(NodeLess, Kept(m.nodes, AnyNode));
    SortedSeqSorted(FileLess, Kept(m.files, AnyFile));
    forall n ensures n in m.Nodes() <==> n.id in m.nodes && m.nodes[n.id] == n {
      assert n in m.Nodes() <==> n in Elements(m.Nodes());
      if n.id in m.nodes && m.nodes[n.id] == n { assert AnyNode(m.nodes[n.id]); }
    }
    forall f ensures f in m.ListFiles() <==> f.key in m.files && m.files[f.key] == f {
      assert f in m.ListFiles() <==> f in Elements(m.ListFiles());
      if f.key in m.files && m.files[f.key] == f { assert AnyFile(m.files[f.key]); }
    }
  }

  // ----- In-memory store -----

  class MetadataStore {
    var files: map<string, FileMetadata>
    var nodes: map<string, NodeMetadata>

    ghost function State(): Meta
      reads this
    {
      Meta(files, nodes)
    }

    constructor ()
      ensures State() == NO_META
    {
      files, nodes := map[], map[];
    }

    method UpsertNode(id: string, addr: string, now: Time) returns (node: NodeMetadata)
      requires State().Valid()
      modifies this
      ensures State() == old(State()).UpsertNode(id, addr, now) && State().Valid()
      ensures node == State().nodes[id]
    {
      node := NodeMetadata(id, addr, NodeHealthy, now);
      nodes := nodes[id := node];
    }

    method MarkExpiredNodes(ttl: int, now: Time)
      requires State().Valid()
      modifies this
      ensures State() == old(State()).MarkExpiredNodes(ttl, now) && State().Valid()
    {
      var cutoff := now - ttl;
      var todo := nodes.Keys;
      while todo != {}
        invariant todo <= nodes.Keys == old(nodes).Keys && files == old(files)
        invariant forall id <- nodes :: nodes[id] == if id in todo then old(nodes)[id]
          else Expired(old(nodes)[id], cutoff)
      {
        var id :| id in todo;
        todo := todo - {id};
        var node := nodes[id];
        if node.lastHeartbeat < cutoff {
          node := node.(state := NodeDown);
          nodes := nodes[id := node];
        }
      }
      assert nodes == old(State()).MarkExpiredNodes(ttl, now).nodes;
    }

    method HealthyNodes() returns (r: seq<NodeMetadata>)
      requires State().Valid()
      ensures r == State().HealthyNodes()
    {
      NodeOrder(State());
      r := CollectSorted(nodes, HealthyNode, NodeLess, (n: NodeMetadata) => n.id);
    }

    method Nodes() returns (r: seq<NodeMetadata>)
      requires State().Valid()
      ensures r == State().Nodes()
    {
      NodeOrder(State());
      r := CollectSorted(nodes, AnyNode, NodeLess, (n: NodeMetadata) => n.id);
    }

    method BeginFileVersion(
        key: string, size: nat, checksum: string, chunks: seq<ChunkMetadata>, primary: string, replicas: seq<string>,
        now: Time) returns (f: FileMetadata)
      requires State().Valid()
      modifies this
      ensures f == old(State()).NewFile(key, size, checksum, chunks, primary, replicas, now)
      ensures State() == old(State()).Store(f) && State().Valid()
    {
      var version, createdAt := 1, now;
      if key in files {
        version, createdAt := files[key].version + 1, files[key].createdAt;
      }
      var entries: map<string, ReplicaMetadata> := map[];
      for i := 0 to |replicas|
        invariant entries == InitialReplicas(primary, replicas[..i], now)
      {
        var state := ReplicaPending;
        if replicas[i] == primary {
          state := ReplicaHealthy;
        }
        assert replicas[..i + 1] == replicas[..i] + [replicas[i]];
        entries := entries[replicas[i] := ReplicaMetadata(replicas[i], state, now)];
      }
      assert replicas[..|replicas|] == replicas;
      f := FileMetadata(key, version, size, checksum, primary, false, chunks, entries, createdAt, now);
      files := files[key := f];
    }

    method NextVersion(key: string) returns (version: nat)
      ensures version == State().NextVersion(key)
    {
      version := if key in files then files[key].version + 1 else 1;
    }

    method MarkReplica(key: string, nodeId: string, state: ReplicaState, now: Time) returns (r: Result<FileMetadata>)
      requires State().Valid()
      modifies this
      ensures (State(), r) == old(State()).MarkReplica(key, nodeId, state, now) && State().Valid()
    {
      if key !in files {
        return Err(ErrMetadataNotFound);
      }
      var f := files[key];
      if nodeId !in f.replicas {
        return Err(ErrReplicaNotFound);
      }
      var replica := f.replicas[nodeId].(state := state, updatedAt := now);
      f := f.(replicas := f.replicas[nodeId := replica], updatedAt := now);
      files := files[key := f];
      r := Ok(f);
    }

    method Tombstone(key: string, now: Time) returns (r: Result<FileMetadata>)
      requires State().Valid()
      modifies this
      ensures (State(), r) == old(State()).Tombstone(key, now) && State().Valid()
    {
      if key !in files {
        return Err(ErrMetadataNotFound);
      }
      var f := files[key];
      var entries := f.replicas;
      var todo := entries.Keys;
      while todo != {}
        invariant todo <= entries.Keys == f.replicas.Keys
        invariant forall n <- entries ::
                    entries[n] == if n in todo then f.replicas[n]
                      else f.replicas[n].(state := ReplicaDeleted, updatedAt := now)
      {
        var n :| n in todo;
        todo := todo - {n};
        entries := entries[n := entries[n].(state := ReplicaDeleted, updatedAt := now)];
      }
      f := f.(version := f.version + 1, deleted := true, updatedAt := now, replicas := entries);
      assert f == Tombstoned(files[key], now);
      files := files[key := f];
      r := Ok(f);
    }

    method GetFile(key: string) returns (r: Option<FileMetadata>)
      ensures r == if key in State().files then Some(State().files[key]) else None
    {
      r := if key in files then Some(files[key]) else None;
    }

    method ListFiles() returns (r: seq<FileMetadata>)
      requires State().Valid()
      ensures r == State().ListFiles()
    {
      FileOrder(State());
      r := CollectSorted(files, AnyFile, FileLess, (f: FileMetadata) => f.key);
    }

    method AddReplica(key: string, nodeId: string, state: ReplicaState, now: Time) returns (r: Result<FileMetadata>)
      requires State().Valid()
      modifies this
      ensures (State(), r) == old(State()).AddReplica(key, nodeId, state, now) && State().Valid()
    {
      if key !in files {
        return Err(ErrMetadataNotFound);
      }
      var f := files[key];
      f := f.(replicas := f.replicas[nodeId := ReplicaMetadata(nodeId, state, now)], updatedAt := now);
      files := files[key := f];
      r := Ok(f);
    }
  }
}
