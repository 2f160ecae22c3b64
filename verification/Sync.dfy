// Copying a remote panel's inbounds and clients into the local cache:
// Sync of internal/services/node/service.go over UpsertRemote of
// internal/repo/sqlite/inbound_repo.go and client_repo.go.
module Sync {
  import opened Domain
  import opened Tables
  import opened Text

  datatype RemoteInbound = RemoteInbound(
    id: string,
    remark: string,
    protocol: Protocol,
    port: int,
    transmission: Transmission,
    tls: TlsMode,
    sni: string,
    dest: string,
    enabled: bool,
    settings: Settings)

  datatype RemoteClient = RemoteClient(
    id: string,
    inboundId: string,
    name: string,
    uuid: string,
    password: string,
    usedUp: int,
    usedDown: int,
    totalQuota: int,
    expiry: string,
    status: ClientStatus,
    subToken: string,
    startAfterFirstUse: bool,
    enabled: bool,
    firstUsedAt: string)

  datatype Snapshot = Snapshot(inbounds: seq<RemoteInbound>, clients: seq<RemoteClient>)

  datatype NodeStatus = Online | Offline

  // time.Parse with the RFC 3339 layout
  type TimeParser = string -> Option<Time>

  predicate Readable(parse: TimeParser, s: string) {
    s == "" || parse(s).Some?
  }

  function TimeOf(parse: TimeParser, s: string): Option<Time> {
    if s == "" then None else parse(s)
  }

  // INSERT INTO inbounds ... ON CONFLICT(node_id, remote_id) DO UPDATE
  function InboundWrite(node: int, r: RemoteInbound): Write<Inbound> {
    (id: int, before: Option<Inbound>) =>
      match before
      case None => Inbound(id, Some(node), r.id, "", r.remark, r.protocol, r.port, r.transmission, r.tls, r.sni, r.dest,
                           r.enabled, r.settings)
      case Some(row) => row.(remoteVersion := "", remark := r.remark, protocol := r.protocol, port := r.port,
                        transmission := r.transmission, tls := r.tls, sni := r.sni, dest := r.dest,
                        enabled := r.enabled, settings := r.settings)
  }

  function InboundItem(node: int, r: RemoteInbound): Item<Inbound> {
    Item((node, r.id), InboundWrite(node, r))
  }

  // INSERT INTO clients ... ON CONFLICT(node_id, remote_id) DO UPDATE
  function ClientWrite(node: int, inboundId: int, c: RemoteClient, parse: TimeParser): Write<Client> {
    (id: int, before: Option<Client>) =>
      match before
      case None => Client(id, Some(node), c.id, inboundId, [], c.name, c.uuid, c.password, c.usedUp, c.usedDown,
                          c.totalQuota, TimeOf(parse, c.expiry), c.status, c.subToken, c.startAfterFirstUse, c.enabled,
                          TimeOf(parse, c.firstUsedAt), None)
      case Some(row) => row.(inboundId := inboundId, name := c.name, uuid := c.uuid, password := c.password,
                        usedUp := c.usedUp, usedDown := c.usedDown, totalQuota := c.totalQuota,
                        expiry := TimeOf(parse, c.expiry), status := c.status, subToken := c.subToken,
                        startAfterFirstUse := c.startAfterFirstUse, enabled := c.enabled,
                        firstUsedAt := TimeOf(parse, c.firstUsedAt))
  }

  function ClientItem(node: int, inboundId: int, c: RemoteClient, parse: TimeParser): Item<Client> {
    Item((node, c.id), ClientWrite(node, inboundId, c, parse))
  }

  // The writes of one sync.

  function InboundItems(node: int, rs: seq<RemoteInbound>): (items: seq<Item<Inbound>>)
    ensures |items| == |rs| && forall i :: 0 <= i < |rs| ==> items[i] == InboundItem(node, rs[i])
  {
    seq(|rs|, i requires 0 <= i < |rs| => InboundItem(node, rs[i]))
  }

  predicate Lists(rs: seq<RemoteInbound>, rid: string) {
    exists i :: 0 <= i < |rs| && rs[i].id == rid
  }

  // inboundIDs: the local id of every inbound of the snapshot
  ghost predicate MapsInbounds(node: int, rs: seq<RemoteInbound>, inbounds: Table<Inbound>, ids: map<string, int>) {
    && (forall rid :: rid in ids <==> Lists(rs, rid))
    && (forall rid :: rid in ids ==> (node, rid) in inbounds.index && ids[rid] == inbounds.index[(node, rid)])
  }

  function LocalIds(node: int, rs: seq<RemoteInbound>, inbounds: Table<Inbound>): map<string, int> {
    map i | 0 <= i < |rs| && (node, rs[i].id) in inbounds.index :: rs[i].id := inbounds.index[(node, rs[i].id)]
  }

  function ClientItems(node: int, ids: map<string, int>, cs: seq<RemoteClient>, parse: TimeParser): seq<Item<Client>> {
    if |cs| == 0 then []
    else
      var front, last := ClientItems(node, ids, cs[..|cs| - 1], parse), cs[|cs| - 1];
      if last.inboundId in ids then front + [ClientItem(node, ids[last.inboundId], last, parse)] else front
  }

  datatype Cache = Cache(inbounds: Table<Inbound>, clients: Table<Client>)

  // The cache after a sync that went through.
  function Synced(cache: Cache, node: int, snap: Snapshot, parse: TimeParser): Cache {
    var inbounds := UpsertAll(cache.inbounds, InboundItems(node, snap.inbounds));
    var ids := LocalIds(node, snap.inbounds, inbounds);
    Cache(inbounds, UpsertAll(cache.clients, ClientItems(node, ids, snap.clients, parse)))
  }

  ghost predicate Sound(cache: Cache) {
    Consistent(cache.inbounds) && Consistent(cache.clients)
  }

  // What the database does with one upsert; ReadFailed: written, but its id could not be read back.
  datatype WriteOutcome = Written | WriteFailed | ReadFailed

  datatype Faults = Faults(inboundWrites: nat -> WriteOutcome, clientWriteFails: nat -> bool, statusWriteFails: bool)

  datatype Outcome = SyncedNode(inboundCount: nat, clientCount: nat) | NodeUnknown | NodeUnreachable | SyncFailed

  predicate InboundStored(snap: Snapshot, f: Faults, i: nat)
    requires i < |snap.inbounds|
  {
    snap.inbounds[i].id != "" && f.inboundWrites(i).Written?
  }

  predicate ClientStored(snap: Snapshot, parse: TimeParser, f: Faults, i: nat)
    requires i < |snap.clients|
  {
    var c := snap.clients[i];
    Lists(snap.inbounds, c.inboundId) ==>
      Readable(parse, c.expiry) && Readable(parse, c.firstUsedAt) && c.id != "" && !f.clientWriteFails(i)
  }

  ghost predicate GoesThrough(snap: Snapshot, parse: TimeParser, f: Faults) {
    && (forall i :: 0 <= i < |snap.inbounds| ==> InboundStored(snap, f, i))
    && (forall i :: 0 <= i < |snap.clients| ==> ClientStored(snap, parse, f, i))
  }

  // A sync goes through exactly when every inbound has an id and is stored, and
  // every client of a listed inbound has an id, times that are empty or parse, and
  // is stored.
  lemma {:induction false} GoesThroughIff(snap: Snapshot, parse: TimeParser, f: Faults)
    ensures GoesThrough(snap, parse, f) <==>
            && (forall i :: 0 <= i < |snap.inbounds| ==> snap.inbounds[i].id != "" && f.inboundWrites(i) == Written)
            && (forall i :: 0 <= i < |snap.clients| && ListedInbound(snap, snap.clients[i].inboundId) ==>
                              var c := snap.clients[i];
                              && c.id != "" && !f.clientWriteFails(i)
                              && (c.expiry != "" ==> parse(c.expiry).Some?)
                              && (c.firstUsedAt != "" ==> parse(c.firstUsedAt).Some?))
  {
    forall i | 0 <= i < |snap.inbounds|
      ensures InboundStored(snap, f, i) <==> snap.inbounds[i].id != "" && f.inboundWrites(i) == Written
    {
    }
    forall i | 0 <= i < |snap.clients|
      ensures ClientStored(snap, parse, f, i) <==>
              (ListedInbound(snap, snap.clients[i].inboundId) ==>
                 var c := snap.clients[i];
                 && c.id != "" && !f.clientWriteFails(i)
                 && (c.expiry != "" ==> parse(c.expiry).Some?)
                 && (c.firstUsedAt != "" ==> parse(c.firstUsedAt).Some?))
    {
    }
    hide InboundStored, ClientStored, ListedInbound;
  }

  // No time, or one that can be read
  ghost predicate Parses(parse: TimeParser, text: string) {
    text != "" ==> parse(text).Some?
  }

  ghost predicate ListedInbound(snap: Snapshot, rid: string) {
    exists ib :: ib in snap.inbounds && ib.id == rid
  }

  // What is written has an id: the database refuses a row without one.
  predicate HasIds(snap: Snapshot) {
    && (forall i :: 0 <= i < |snap.inbounds| ==> snap.inbounds[i].id != "")
    && (forall i :: 0 <= i < |snap.clients| && Lists(snap.inbounds, snap.clients[i].inboundId) ==> snap.clients[i].id != "")
  }

  // A sync that stopped half way has applied the first m inbound writes and,
  // when those were all, the first k clients.
  ghost predicate StoppedAt(before: Cache, node: int, snap: Snapshot, parse: TimeParser, after: Cache, m: nat, k: nat) {
    && m <= |snap.inbounds| && k <= |snap.clients| && (m < |snap.inbounds| ==> k == 0)
    && HasIds(Snapshot(snap.inbounds[..m], snap.clients[..k]))
    && after == Synced(before, node, Snapshot(snap.inbounds[..m], snap.clients[..k]), parse)
  }

  class NodeService {
    const parse: TimeParser
    var inbounds: Table<Inbound>
    var clients: Table<Client>
    var statuses: map<int, NodeStatus> // the known nodes

    ghost predicate Valid()
      reads this
    {
      Sound(Cache(inbounds, clients))
    }

    ghost function Contents(): Cache
      reads this
    {
      Cache(inbounds, clients)
    }

    constructor (parse: TimeParser, inbounds: Table<Inbound>, clients: Table<Client>, statuses: map<int, NodeStatus>)
      requires Consistent(inbounds) && Consistent(clients)
      ensures Valid() && Contents() == Cache(inbounds, clients) && this.statuses == statuses && this.parse == parse
    {
      this.parse, this.inbounds, this.clients, this.statuses := parse, inbounds, clients, statuses;
    }

    method UpsertInbound(node: int, r: RemoteInbound, outcome: WriteOutcome) returns (id: Option<int>)
      requires Valid()
      modifies this`inbounds
      ensures Valid()
      ensures id.Some? <==> r.id != "" && outcome.Written?
      ensures inbounds == if r.id == "" || outcome.WriteFailed? then old(inbounds)
                          else Upsert(old(inbounds), InboundItem(node, r))
      ensures id.Some? ==> (node, r.id) in inbounds.index && id.value == inbounds.index[(node, r.id)]
    {
      if r.id == "" || outcome.WriteFailed? {
        return None;
      }
      UpsertConsistent(inbounds, InboundItem(node, r));
      inbounds := Upsert(inbounds, InboundItem(node, r));
      if outcome.ReadFailed? {
        return None;
      }
      id := Some(inbounds.index[(node, r.id)]);
    }

    method UpsertClient(node: int, inboundId: int, c: RemoteClient, fails: bool) returns (ok: bool)
      requires Valid()
      modifies this`clients
      ensures Valid()
      ensures ok <==> c.id != "" && !fails
      ensures clients == if ok then Upsert(old(clients), ClientItem(node, inboundId, c, parse)) else old(clients)
    {
      if c.id == "" || fails {
        return false;
      }
      UpsertConsistent(clients, ClientItem(node, inboundId, c, parse));
      clients := Upsert(clients, ClientItem(node, inboundId, c, parse));
      ok := true;
    }

    method SyncInbounds(node: int, snap: Snapshot, f: Faults)
      returns (ok: bool, ids: map<string, int>, ghost m: nat)
      requires Valid()
      modifies this`inbounds
      ensures Valid() && m <= |snap.inbounds|
      ensures inbounds == UpsertAll(old(inbounds), InboundItems(node, snap.inbounds[..m]))
      ensures forall i :: 0 <= i < m ==> snap.inbounds[i].id != ""
      ensures ok <==> forall i :: 0 <= i < |snap.inbounds| ==> InboundStored(snap, f, i)
      ensures ok ==> m == |snap.inbounds| && ids == LocalIds(node, snap.inbounds, inbounds)
                     && MapsInbounds(node, snap.inbounds, inbounds, ids)
    {
      hide Upsert, UpsertAll, InboundItems, InboundItem, LocalIds, MapsInbounds, Consistent, NodeService.Valid;
      ok, ids, m := true, map[], 0;
      NoInbounds(node, inbounds);
      assert snap.inbounds[..0] == [];
      for i := 0 to |snap.inbounds|
        invariant Valid()
        invariant inbounds == UpsertAll(old(inbounds), InboundItems(node, snap.inbounds[..i]))
        invariant forall j :: 0 <= j < i ==> InboundStored(snap, f, j) && snap.inbounds[j].id != ""
        invariant MapsInbounds(node, snap.inbounds[..i], inbounds, ids)
      {
        ghost var before := inbounds;
        var r := snap.inbounds[i];
        InboundItemsAppend(node, snap.inbounds[..i], r);
        assert snap.inbounds[..i] + [r] == snap.inbounds[..i + 1];
        var localId := UpsertInbound(node, r, f.inboundWrites(i));
        if localId.None? {
          m := if inbounds == before then i else i + 1;
          ok := false;
          assert !InboundStored(snap, f, i);
          return;
        }
        MapsInboundsStep(node, snap.inbounds[..i], before, ids, r);
        ids := ids[r.id := localId.value];
      }
      m := |snap.inbounds|;
      assert snap.inbounds[..|snap.inbounds|] == snap.inbounds;
      MapsInboundsIsLocalIds(node, snap.inbounds, inbounds, ids);
    }

    method SyncClients(node: int, snap: Snapshot, ids: map<string, int>, f: Faults) returns (ok: bool, ghost k: nat)
      requires Valid() && MapsInbounds(node, snap.inbounds, inbounds, ids)
      modifies this`clients
      ensures Valid() && k <= |snap.clients|
      ensures clients == UpsertAll(old(clients), ClientItems(node, ids, snap.clients[..k], parse))
      ensures forall i :: 0 <= i < k ==> ClientStored(snap, parse, f, i)
      ensures ok <==> forall i :: 0 <= i < |snap.clients| ==> ClientStored(snap, parse, f, i)
      ensures ok ==> k == |snap.clients|
    {
      hide Upsert, UpsertAll, ClientItems, ClientItem, MapsInbounds, Consistent, Lists;
      ok, k := true, 0;
      NoClients(node, ids, parse, clients);
      assert snap.clients[..0] == [];
      for i := 0 to |snap.clients|
        invariant Valid()
        invariant clients == UpsertAll(old(clients), ClientItems(node, ids, snap.clients[..i], parse))
        invariant forall j :: 0 <= j < i ==> ClientStored(snap, parse, f, j)
      {
        var c := snap.clients[i];
        ClientItemsAppend(node, ids, snap.clients[..i], c, parse, old(clients));
        assert snap.clients[..i] + [c] == snap.clients[..i + 1];
        k := i;
        IdsAreListed(node, snap.inbounds, inbounds, ids, c.inboundId);
        if c.inboundId !in ids {
          continue;
        }
        if !Readable(parse, c.expiry) || !Readable(parse, c.firstUsedAt) {
          assert !ClientStored(snap, parse, f, i);
          ok := false;
          return;
        }
        var stored := UpsertClient(node, ids[c.inboundId], c, f.clientWriteFails(i));
        if !stored {
          assert !ClientStored(snap, parse, f, i);
          ok := false;
          return;
        }
      }
      k := |snap.clients|;
      assert snap.clients[..|snap.clients|] == snap.clients;
    }

    method Sync(node: int, remote: Option<Snapshot>, f: Faults) returns (r: Outcome, ghost m: nat, ghost k: nat)
      requires Valid()
      modifies this
      ensures Valid()
      ensures r.NodeUnknown? <==> node !in old(statuses)
      ensures r.NodeUnreachable? <==> node in old(statuses) && remote.None?
      ensures r.SyncedNode? <==> node in old(statuses) && remote.Some? && GoesThrough(remote.value, parse, f)
      ensures r.SyncedNode? ==>
                forall i :: 0 <= i < |remote.value.clients| && ListedInbound(remote.value, remote.value.clients[i].inboundId) ==>
                              && Parses(parse, remote.value.clients[i].expiry)
                              && Parses(parse, remote.value.clients[i].firstUsedAt)
      ensures r.SyncedNode? ==> Contents() == Synced(old(Contents()), node, remote.value, parse)
                                && r.inboundCount == |remote.value.inbounds| && r.clientCount == |remote.value.clients|
      ensures r.SyncFailed? ==> StoppedAt(old(Contents()), node, remote.value, parse, Contents(), m, k)
      ensures r.NodeUnknown? || r.NodeUnreachable? ==> Contents() == old(Contents())
      ensures statuses == if (r.SyncedNode? || r.NodeUnreachable?) && !f.statusWriteFails
                          then old(statuses)[node := if r.SyncedNode? then Online else Offline] else old(statuses)
    {
      hide Upsert, UpsertAll, ClientItems, InboundItems, LocalIds, MapsInbounds, Consistent, InboundStored, ClientStored, ListedInbound;
      m, k := 0, 0;
      if node !in statuses {
        return NodeUnknown, m, k;
      }
      if remote.Some? {
        GoesThroughIff(remote.value, parse, f);
      }
      if remote.None? {
        if !f.statusWriteFails {
          statuses := statuses[node := Offline];
        }
        return NodeUnreachable, m, k;
      }
      var snap := remote.value;
      var ok, ids;
      ok, ids, m := SyncInbounds(node, snap, f);
      if !ok {
        NoClients(node, LocalIds(node, snap.inbounds[..m], inbounds), parse, clients);
        assert snap.clients[..0] == [];
        return SyncFailed, m, k;
      }
      assert snap.inbounds[..|snap.inbounds|] == snap.inbounds;
      ok, k := SyncClients(node, snap, ids, f);
      if !ok {
        StoredHaveIds(snap, parse, f, k);
        return SyncFailed, m, k;
      }
      assert snap.clients[..|snap.clients|] == snap.clients;
      if !f.statusWriteFails {
        statuses := statuses[node := Online];
      }
      r := SyncedNode(|snap.inbounds|, |snap.clients|);
    }
  }

  lemma {:induction false} StoredHaveIds(snap: Snapshot, parse: TimeParser, f: Faults, k: nat)
    requires forall i :: 0 <= i < |snap.inbounds| ==> snap.inbounds[i].id != ""
    requires k <= |snap.clients| && forall i :: 0 <= i < k ==> ClientStored(snap, parse, f, i)
    ensures HasIds(Snapshot(snap.inbounds, snap.clients[..k]))
  {
    hide Lists, Readable;
    forall i | 0 <= i < k && Lists(snap.inbounds, snap.clients[i].inboundId)
      ensures snap.clients[i].id != ""
    {
      assert ClientStored(snap, parse, f, i);
    }
  }

  lemma {:induction false} InboundItemsAppend(node: int, rs: seq<RemoteInbound>, r: RemoteInbound)
    ensures InboundItems(node, rs + [r]) == InboundItems(node, rs) + [InboundItem(node, r)]
    ensures forall t :: UpsertAll(t, InboundItems(node, rs + [r])) == Upsert(UpsertAll(t, InboundItems(node, rs)), InboundItem(node, r))
  {
    var items := InboundItems(node, rs + [r]);
    assert items == InboundItems(node, rs) + [InboundItem(node, r)];
    assert items[..|items| - 1] == InboundItems(node, rs);
  }

  lemma {:induction false} ClientItemsAppend(node: int, ids: map<string, int>, cs: seq<RemoteClient>, c: RemoteClient,
                                             parse: TimeParser, t: Table<Client>)
    ensures ClientItems(node, ids, cs + [c], parse) ==
            if c.inboundId in ids then ClientItems(node, ids, cs, parse) + [ClientItem(node, ids[c.inboundId], c, parse)]
            else ClientItems(node, ids, cs, parse)
    ensures UpsertAll(t, ClientItems(node, ids, cs + [c], parse)) ==
            if c.inboundId in ids then Upsert(UpsertAll(t, ClientItems(node, ids, cs, parse)), ClientItem(node, ids[c.inboundId], c, parse))
            else UpsertAll(t, ClientItems(node, ids, cs, parse))
  {
    assert (cs + [c])[..|cs|] == cs;
    var items := ClientItems(node, ids, cs + [c], parse);
    assert c.inboundId in ids ==> items[..|items| - 1] == ClientItems(node, ids, cs, parse);
  }

  lemma {:induction false} NoInbounds(node: int, t: Table<Inbound>)
    ensures UpsertAll(t, InboundItems(node, [])) == t
    ensures MapsInbounds(node, [], t, map[])
  {
    assert InboundItems(node, []) == [];
  }

  lemma {:induction false} NoClients(node: int, ids: map<string, int>, parse: TimeParser, t: Table<Client>)
    ensures UpsertAll(t, ClientItems(node, ids, [], parse)) == t
  {
  }

  lemma {:induction false} IdsAreListed(node: int, rs: seq<RemoteInbound>, t: Table<Inbound>, ids: map<string, int>, rid: string)
    requires MapsInbounds(node, rs, t, ids)
    ensures rid in ids <==> Lists(rs, rid)
  {
  }

  lemma {:induction false} MapsInboundsStep(node: int, rs: seq<RemoteInbound>, before: Table<Inbound>, ids: map<string, int>,
                                            r: RemoteInbound)
    requires MapsInbounds(node, rs, before, ids)
    ensures var after := Upsert(before, InboundItem(node, r));
            MapsInbounds(node, rs + [r], after, ids[r.id := after.index[(node, r.id)]])
  {
    var after := Upsert(before, InboundItem(node, r));
    var grown := ids[r.id := after.index[(node, r.id)]];
    assert (rs + [r])[|rs|] == r;
    assert forall i :: 0 <= i < |rs| ==> (rs + [r])[i] == rs[i];
    forall rid
      ensures rid in grown <==> Lists(rs + [r], rid)
    {
    }
  }

  lemma {:induction false} MapsInboundsIsLocalIds(node: int, rs: seq<RemoteInbound>, inbounds: Table<Inbound>, ids: map<string, int>)
    requires MapsInbounds(node, rs, inbounds, ids)
    ensures ids == LocalIds(node, rs, inbounds)
  {
  }

  // Writes to the same key agree on the node, so the last one decides every field but the id.

  lemma {:induction false} InboundItemsAbsorb(node: int, rs: seq<RemoteInbound>)
    ensures Absorbs(InboundItems(node, rs))
  {
    var items := InboundItems(node, rs);
    forall a, b, id, before | a in items && b in items && a.key == b.key
      ensures a.write(id, Some(b.write(id, before))) == a.write(id, before)
    {
      var i :| 0 <= i < |items| && items[i] == a;
      var j :| 0 <= j < |items| && items[j] == b;
      assert a == InboundItem(node, rs[i]) && b == InboundItem(node, rs[j]);
    }
  }

  // Every item comes from a client of the snapshot whose inbound is in it.
  lemma {:induction false} ClientItemsFrom(node: int, ids: map<string, int>, cs: seq<RemoteClient>, parse: TimeParser, item: Item<Client>)
    requires item in ClientItems(node, ids, cs, parse)
    ensures exists i :: 0 <= i < |cs| && cs[i].inboundId in ids && item == ClientItem(node, ids[cs[i].inboundId], cs[i], parse)
  {
    var front, last := cs[..|cs| - 1], cs[|cs| - 1];
    if last.inboundId in ids && item == ClientItem(node, ids[last.inboundId], last, parse) {
      assert cs[|cs| - 1] == last;
    } else {
      ClientItemsFrom(node, ids, front, parse, item);
      var i :| 0 <= i < |front| && front[i].inboundId in ids && item == ClientItem(node, ids[front[i].inboundId], front[i], parse);
      assert cs[i] == front[i];
    }
  }

  lemma {:induction false} ClientItemsAbsorb(node: int, ids: map<string, int>, cs: seq<RemoteClient>, parse: TimeParser)
    ensures Absorbs(ClientItems(node, ids, cs, parse))
  {
    var items := ClientItems(node, ids, cs, parse);
    forall a, b, id, before | a in items && b in items && a.key == b.key
      ensures a.write(id, Some(b.write(id, before))) == a.write(id, before)
    {
      ClientItemsFrom(node, ids, cs, parse, a);
      ClientItemsFrom(node, ids, cs, parse, b);
    }
  }
}
