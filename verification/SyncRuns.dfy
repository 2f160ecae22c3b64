// Runs of syncs: whatever the nodes answer and wherever a sync stops, the cache
// stays coherent and every node's rows are its own (internal/services/node/service.go).
module SyncRuns {
  import CrossPanel
  import opened Domain
  import opened Sync
  import opened SyncProperties
  import opened Tables
  import opened Text

  // One sync: the node, what it answered (None: unreachable) and what failed.
  datatype Request = Request(node: int, remote: Option<Snapshot>, faults: Faults)

  // Nothing was written, or a part of the snapshot up to some write was.
  ghost predicate SyncStep(before: Cache, q: Request, parse: TimeParser, after: Cache) {
    after == before || (q.remote.Some? && exists m: nat, k: nat :: StoppedAt(before, q.node, q.remote.value, parse, after, m, k))
  }

  // caches are the states of a run, from before the first request.
  ghost predicate IsRun(caches: seq<Cache>, qs: seq<Request>, parse: TimeParser) {
    |caches| == |qs| + 1 && forall i :: 0 <= i < |qs| ==> SyncStep(caches[i], qs[i], parse, caches[i + 1])
  }

  // Ids are stable, no row is removed, and the rows that are not of these nodes
  // are as they were, the panel's own rows among them.
  ghost predicate KeptBut(before: Cache, after: Cache, nodes: set<int>) {
    && TableKept(before.inbounds, after.inbounds, nodes, (row: Inbound) => row.nodeId)
    && TableKept(before.clients, after.clients, nodes, (row: Client) => row.nodeId)
  }

  ghost predicate TableKept<T>(before: Table<T>, after: Table<T>, nodes: set<int>, nodeOf: T -> Option<int>) {
    && (forall k :: k in before.index ==> k in after.index && after.index[k] == before.index[k])
    && (forall id :: id in before.rows ==> id in after.rows)
    && (forall id :: id in before.rows && Foreign(nodeOf(before.rows[id]), nodes) ==> after.rows[id] == before.rows[id])
  }

  predicate Foreign(nodeId: Option<int>, nodes: set<int>) {
    nodeId.None? || nodeId.value !in nodes
  }

  lemma {:induction false} TableKeptTwice<T>(t: Table<T>, u: Table<T>, v: Table<T>, m: set<int>, n: set<int>, nodeOf: T -> Option<int>)
    requires TableKept(t, u, m, nodeOf) && TableKept(u, v, n, nodeOf)
    ensures TableKept(t, v, m + n, nodeOf)
  {
    forall id | id in t.rows && Foreign(nodeOf(t.rows[id]), m + n)
      ensures v.rows[id] == t.rows[id]
    {
      assert Foreign(nodeOf(t.rows[id]), m);
      assert Foreign(nodeOf(u.rows[id]), n);
    }
  }

  lemma {:induction false} KeptTwice(a: Cache, b: Cache, c: Cache, m: set<int>, n: set<int>)
    requires KeptBut(a, b, m) && KeptBut(b, c, n)
    ensures KeptBut(a, c, m + n)
  {
    TableKeptTwice(a.inbounds, b.inbounds, c.inbounds, m, n, (row: Inbound) => row.nodeId);
    TableKeptTwice(a.clients, b.clients, c.clients, m, n, (row: Client) => row.nodeId);
    hide TableKept;
  }

  lemma {:induction false} FramedKeeps(before: Cache, after: Cache, node: int, snap: Snapshot)
    requires Framed(before, after, node, snap)
    ensures KeptBut(before, after, {node})
  {
    forall row: Inbound | Foreign(row.nodeId, {node})
      ensures InboundUnlisted(node, snap, row)
    {
    }
    forall row: Client | Foreign(row.nodeId, {node})
      ensures ClientUnlisted(node, snap, row)
    {
    }
    hide InboundUnlisted, ClientUnlisted, Foreign;
  }

  // A coherent cache names no client of a node twice, which is what a bulk request
  // needs to tell the node's clients apart.
  lemma {:induction false} CoherentIsUnique(cache: Cache)
    requires Coherent(cache)
    ensures CrossPanel.UniqueRemote(cache.clients.rows)
  {
    var rows := cache.clients.rows;
    forall a, b | a in rows && b in rows && a != b && rows[a].nodeId.Some? && rows[a].nodeId == rows[b].nodeId && rows[a].remoteId != ""
      ensures rows[a].remoteId != rows[b].remoteId
    {
      assert ClientKey(rows[a]).Some?;
    }
  }

  // A sync keeps the cache coherent and touches its node's rows only, wherever it stops.
  lemma {:induction false} StepKeeps(before: Cache, q: Request, parse: TimeParser, after: Cache)
    requires Coherent(before)
    ensures SyncStep(before, q, parse, after) ==> Coherent(after) && KeptBut(before, after, {q.node})
  {
    hide Coherent, Synced, HasIds, KeptBut, Framed;
    if after == before {
      NothingTouched(before, {q.node});
    } else if SyncStep(before, q, parse, after) {
      var snap := q.remote.value;
      var m: nat, k: nat :| StoppedAt(before, q.node, snap, parse, after, m, k);
      SyncCoherent(before, q.node, Snapshot(snap.inbounds[..m], snap.clients[..k]), parse);
      StoppedSyncFramed(before, q.node, snap, parse, m, k);
      FramedKeeps(before, after, q.node, snap);
    }
  }

  lemma {:induction false} NothingTouched(cache: Cache, nodes: set<int>)
    ensures KeptBut(cache, cache, nodes)
  {
  }

  function NodesOf(qs: seq<Request>): set<int> {
    set i | 0 <= i < |qs| :: qs[i].node
  }

  lemma {:induction false} NodesSplit(qs: seq<Request>, i: nat, j: nat)
    requires i < j <= |qs|
    ensures NodesOf(qs[i..j]) == NodesOf(qs[i..j - 1]) + {qs[j - 1].node}
  {
    assert qs[i..j] == qs[i..j - 1] + [qs[j - 1]];
    var nodes := NodesOf(qs[i..j]);
    assert qs[i..j][j - 1 - i] == qs[j - 1];
    forall n
      ensures n in nodes <==> n in NodesOf(qs[i..j - 1]) + {qs[j - 1].node}
    {
      if n in NodesOf(qs[i..j - 1]) {
        var x :| 0 <= x < |qs[i..j - 1]| && qs[i..j - 1][x].node == n;
        assert qs[i..j][x].node == n;
      }
    }
  }

  // Over every run, failed syncs included: the cache stays coherent, ids are
  // stable, nothing is deleted, and only rows of the synced nodes change.
  lemma {:induction false} RunKeeps(caches: seq<Cache>, qs: seq<Request>, parse: TimeParser, i: nat, j: nat)
    requires IsRun(caches, qs, parse) && i <= j < |caches| && Coherent(caches[i])
    ensures Coherent(caches[j]) && KeptBut(caches[i], caches[j], NodesOf(qs[i..j]))
  {
    hide Coherent, KeptBut, NodesOf;
    if i == j {
      NothingTouched(caches[i], NodesOf(qs[i..j]));
    } else {
      RunKeeps(caches, qs, parse, i, j - 1);
      assert SyncStep(caches[j - 1], qs[j - 1], parse, caches[j]);
      hide SyncStep;
      StepKeeps(caches[j - 1], qs[j - 1], parse, caches[j]);
      KeptTwice(caches[i], caches[j - 1], caches[j], NodesOf(qs[i..j - 1]), {qs[j - 1].node});
      NodesSplit(qs, i, j);
    }
  }

  // The i-th sync went through, and no later one before j was of its node.
  ghost predicate LastSyncOf(caches: seq<Cache>, qs: seq<Request>, parse: TimeParser, i: nat, j: nat)
    requires |caches| == |qs| + 1 && i < j < |caches|
  {
    && qs[i].remote.Some? && HasIds(qs[i].remote.value)
    && caches[i + 1] == Synced(caches[i], qs[i].node, qs[i].remote.value, parse)
    && qs[i].node !in NodesOf(qs[i + 1..j])
  }

  ghost predicate ShowsInbound(cache: Cache, node: int, r: RemoteInbound) {
    var k, inbounds := (node, r.id), cache.inbounds;
    && k in inbounds.index && inbounds.index[k] in inbounds.rows
    && MirrorsInbound(inbounds.rows[inbounds.index[k]], inbounds.index[k], node, r)
  }

  // before: the row there was; it has what only this panel knows.
  ghost predicate ShowsClient(cache: Cache, node: int, c: RemoteClient, parse: TimeParser, before: Option<Client>) {
    var k, clients, inbounds := (node, c.id), cache.clients, cache.inbounds;
    && k in clients.index && clients.index[k] in clients.rows
    && MirrorsClient(clients.rows[clients.index[k]], clients.index[k], node, c, parse, before)
    && (node, c.inboundId) in inbounds.index
    && clients.rows[clients.index[k]].inboundId == inbounds.index[(node, c.inboundId)]
  }

  lemma {:induction false} KeptInboundShown(before: Cache, after: Cache, nodes: set<int>, node: int, r: RemoteInbound)
    requires KeptBut(before, after, nodes) && node !in nodes && ShowsInbound(before, node, r)
    ensures ShowsInbound(after, node, r)
  {
  }

  lemma {:induction false} KeptClientShown(before: Cache, after: Cache, nodes: set<int>, node: int, c: RemoteClient, parse: TimeParser,
                                           was: Option<Client>)
    requires KeptBut(before, after, nodes) && node !in nodes && ShowsClient(before, node, c, parse, was)
    ensures ShowsClient(after, node, c, parse, was)
  {
  }

  // A node's inbounds are shown as its last sync that went through found them,
  // however the syncs of other nodes went since.
  lemma {:induction false} LastSyncShowsInbound(caches: seq<Cache>, qs: seq<Request>, parse: TimeParser, i: nat, j: nat, n: nat)
    requires |caches| == |qs| + 1 && i < j < |caches|
    ensures IsRun(caches, qs, parse) && Coherent(caches[i]) && LastSyncOf(caches, qs, parse, i, j) ==>
              var listed := qs[i].remote.value.inbounds;
              n < |listed| && (forall x :: n < x < |listed| ==> listed[x].id != listed[n].id) ==>
                ShowsInbound(caches[j], qs[i].node, listed[n])
  {
    hide Coherent, HasIds, Synced, IsRun, NodesOf, ShowsInbound, KeptBut;
    if IsRun(caches, qs, parse) && Coherent(caches[i]) && LastSyncOf(caches, qs, parse, i, j) {
      var node, snap := qs[i].node, qs[i].remote.value;
      if n < |snap.inbounds| && forall x :: n < x < |snap.inbounds| ==> snap.inbounds[x].id != snap.inbounds[n].id {
        SyncCoherent(caches[i], node, snap, parse);
        InboundsMirrored(caches[i], node, snap, parse, n);
        assert ShowsInbound(caches[i + 1], node, snap.inbounds[n]) by {
          ShownAtOnce(caches[i + 1], node, snap.inbounds[n]);
        }
        RunKeeps(caches, qs, parse, i + 1, j);
        KeptInboundShown(caches[i + 1], caches[j], NodesOf(qs[i + 1..j]), node, snap.inbounds[n]);
      }
    }
  }

  lemma {:induction false} ShownAtOnce(cache: Cache, node: int, r: RemoteInbound)
    requires (node, r.id) in cache.inbounds.index && cache.inbounds.index[(node, r.id)] in cache.inbounds.rows
    requires MirrorsInbound(cache.inbounds.rows[cache.inbounds.index[(node, r.id)]], cache.inbounds.index[(node, r.id)], node, r)
    ensures ShowsInbound(cache, node, r)
  {
  }

  lemma {:induction false} LastSyncShowsClient(caches: seq<Cache>, qs: seq<Request>, parse: TimeParser, i: nat, j: nat, n: nat)
    requires |caches| == |qs| + 1 && i < j < |caches|
    ensures IsRun(caches, qs, parse) && Coherent(caches[i]) && LastSyncOf(caches, qs, parse, i, j) ==>
              var snap := qs[i].remote.value;
              n < |snap.clients| && Lists(snap.inbounds, snap.clients[n].inboundId) && LastOfItsId(snap, n) ==>
                ShowsClient(caches[j], qs[i].node, snap.clients[n], parse, RowOf(caches[i].clients, (qs[i].node, snap.clients[n].id)))
  {
    hide Coherent, HasIds, Synced, IsRun, NodesOf, Lists, LastOfItsId, KeptBut;
    if IsRun(caches, qs, parse) && Coherent(caches[i]) && LastSyncOf(caches, qs, parse, i, j) {
      var node, snap := qs[i].node, qs[i].remote.value;
      if n < |snap.clients| && Lists(snap.inbounds, snap.clients[n].inboundId) && LastOfItsId(snap, n) {
        SyncCoherent(caches[i], node, snap, parse);
        ClientsMirrored(caches[i], node, snap, parse, n);
        hide MirrorsClient, RowOf;
        var before := RowOf(caches[i].clients, (node, snap.clients[n].id));
        assert ShowsClient(caches[i + 1], node, snap.clients[n], parse, before);
        hide ShowsClient;
        RunKeeps(caches, qs, parse, i + 1, j);
        KeptClientShown(caches[i + 1], caches[j], NodesOf(qs[i + 1..j]), node, snap.clients[n], parse, before);
      }
    }
  }

  // Runs start with empty tables.
  lemma {:induction false} EmptyCacheCoherent()
    ensures Coherent(Cache(Table(map[], map[], 1), Table(map[], map[], 1)))
  {
  }

  // The sync loop over any sequence of requests.
  method RunSyncs(s: NodeService, qs: seq<Request>) returns (outcomes: seq<Outcome>, ghost caches: seq<Cache>)
    requires s.Valid() && Coherent(s.Contents())
    modifies s
    ensures s.Valid() && Coherent(s.Contents()) && KeptBut(old(s.Contents()), s.Contents(), NodesOf(qs))
    ensures |outcomes| == |qs| && IsRun(caches, qs, s.parse) && caches[0] == old(s.Contents()) && caches[|qs|] == s.Contents()
    ensures forall i :: 0 <= i < |qs| && outcomes[i].SyncedNode? ==>
                          && qs[i].remote.Some? && HasIds(qs[i].remote.value)
                          && caches[i + 1] == Synced(caches[i], qs[i].node, qs[i].remote.value, s.parse)
  {
    hide Coherent, KeptBut, NodesOf, Synced, HasIds, SyncStep, StoppedAt, GoesThrough, NodeService.Valid;
    outcomes, caches := [], [s.Contents()];
    for i := 0 to |qs|
      invariant s.Valid() && |outcomes| == i && IsRun(caches, qs[..i], s.parse)
      invariant caches[0] == old(s.Contents()) && caches[i] == s.Contents()
      invariant forall j :: 0 <= j < i && outcomes[j].SyncedNode? ==>
                              && qs[j].remote.Some? && HasIds(qs[j].remote.value)
                              && caches[j + 1] == Synced(caches[j], qs[j].node, qs[j].remote.value, s.parse)
    {
      ghost var before, m, k := s.Contents(), 0, 0;
      var r;
      r, m, k := s.Sync(qs[i].node, qs[i].remote, qs[i].faults);
      if r.SyncedNode? {
        GoesThroughHasIds(qs[i].remote.value, s.parse, qs[i].faults);
      }
      StepTaken(before, qs[i], s.parse, s.Contents(), r, m, k);
      outcomes, caches := outcomes + [r], caches + [s.Contents()];
      assert qs[..i + 1] == qs[..i] + [qs[i]];
    }
    assert qs[..|qs|] == qs == qs[0..|qs|];
    RunKeeps(caches, qs, s.parse, 0, |qs|);
  }

  lemma {:induction false} StepTaken(before: Cache, q: Request, parse: TimeParser, after: Cache, r: Outcome, m: nat, k: nat)
    requires r.NodeUnknown? || r.NodeUnreachable? ==> after == before
    requires r.SyncFailed? ==> q.remote.Some? && StoppedAt(before, q.node, q.remote.value, parse, after, m, k)
    requires r.SyncedNode? ==>
               q.remote.Some? && HasIds(q.remote.value) && after == Synced(before, q.node, q.remote.value, parse)
    ensures SyncStep(before, q, parse, after)
  {
    hide Synced, HasIds;
    if r.SyncedNode? {
      var snap := q.remote.value;
      assert Snapshot(snap.inbounds[..|snap.inbounds|], snap.clients[..|snap.clients|]) == snap;
      assert StoppedAt(before, q.node, snap, parse, after, |snap.inbounds|, |snap.clients|);
    } else if r.SyncFailed? {
      assert StoppedAt(before, q.node, q.remote.value, parse, after, m, k);
    }
  }
}
