// What a sync promises about the cache: complete, referentially sound, framed
// and idempotent, over any state an earlier sync may have left.
module SyncProperties {
  import opened Domain
  import opened Sync
  import opened Tables
  import opened Text

  function InboundKey(row: Inbound): Option<Key> {
    if row.nodeId.Some? && row.remoteId != "" then Some((row.nodeId.value, row.remoteId)) else None
  }

  function ClientKey(row: Client): Option<Key> {
    if row.nodeId.Some? && row.remoteId != "" then Some((row.nodeId.value, row.remoteId)) else None
  }

  // Both tables obey their unique index, and every cached client points at an
  // inbound row of its own node.
  ghost predicate Coherent(cache: Cache) {
    && Keyed(cache.inbounds, InboundKey, (row: Inbound) => row.id)
    && Keyed(cache.clients, ClientKey, (row: Client) => row.id)
    && Referential(cache)
  }

  ghost predicate Referential(cache: Cache) {
    forall id :: id in cache.clients.rows && ClientKey(cache.clients.rows[id]).Some? ==>
                   PointsHome(cache.inbounds, cache.clients.rows[id])
  }

  predicate PointsHome(inbounds: Table<Inbound>, c: Client) {
    c.inboundId in inbounds.rows && inbounds.rows[c.inboundId].nodeId == c.nodeId
  }

  lemma {:induction false} GoesThroughHasIds(snap: Snapshot, parse: TimeParser, f: Faults)
    requires GoesThrough(snap, parse, f)
    ensures HasIds(snap)
  {
    forall i | 0 <= i < |snap.clients| && Lists(snap.inbounds, snap.clients[i].inboundId)
      ensures snap.clients[i].id != ""
    {
      assert ClientStored(snap, parse, f, i);
    }
    forall i | 0 <= i < |snap.inbounds|
      ensures snap.inbounds[i].id != ""
    {
      assert InboundStored(snap, f, i);
    }
  }

  // The row cached under id shows exactly the remote inbound.
  predicate MirrorsInbound(row: Inbound, id: int, node: int, r: RemoteInbound) {
    row == Inbound(id, Some(node), r.id, "", r.remark, r.protocol, r.port, r.transmission, r.tls, r.sni, r.dest, r.enabled,
                   r.settings)
  }

  // A time is stored as it parses, and none where none is given.
  predicate ShowsTime(stored: Option<Time>, text: string, parse: TimeParser) {
    (text == "" ==> stored.None?) && (text != "" ==> stored == parse(text))
  }

  // The row cached under id shows the remote client; what only this panel knows stays.
  predicate MirrorsClient(row: Client, id: int, node: int, c: RemoteClient, parse: TimeParser, before: Option<Client>) {
    && row.id == id && row.nodeId == Some(node) && row.remoteId == c.id && row.name == c.name && row.uuid == c.uuid
    && row.password == c.password && row.usedUp == c.usedUp && row.usedDown == c.usedDown
    && row.totalQuota == c.totalQuota && ShowsTime(row.expiry, c.expiry, parse) && row.status == c.status
    && row.subToken == c.subToken && row.startAfterFirstUse == c.startAfterFirstUse && row.enabled == c.enabled
    && ShowsTime(row.firstUsedAt, c.firstUsedAt, parse)
    && row.inboundIds == (if before.Some? then before.value.inboundIds else [])
    && row.lastUsedAt == (if before.Some? then before.value.lastUsedAt else None)
  }

  // No later client of the snapshot with a known inbound has the same id.
  predicate LastOfItsId(snap: Snapshot, i: nat)
    requires i < |snap.clients|
  {
    forall j :: i < j < |snap.clients| && Lists(snap.inbounds, snap.clients[j].inboundId) ==> snap.clients[j].id != snap.clients[i].id
  }

  lemma {:induction false} WritesKeepKeys(node: int, r: RemoteInbound, inboundId: int, c: RemoteClient, parse: TimeParser)
    ensures r.id != "" ==> KeepsKey(InboundItem(node, r), InboundKey, (row: Inbound) => row.id)
    ensures c.id != "" ==> KeepsKey(ClientItem(node, inboundId, c, parse), ClientKey, (row: Client) => row.id)
  {
  }

  // The two halves of a sync, and the ids they agree on.
  function InboundsOf(cache: Cache, node: int, snap: Snapshot): Table<Inbound> {
    UpsertAll(cache.inbounds, InboundItems(node, snap.inbounds))
  }

  function IdsOf(cache: Cache, node: int, snap: Snapshot): map<string, int> {
    LocalIds(node, snap.inbounds, InboundsOf(cache, node, snap))
  }

  function ClientItemsOf(cache: Cache, node: int, snap: Snapshot, parse: TimeParser): seq<Item<Client>> {
    ClientItems(node, IdsOf(cache, node, snap), snap.clients, parse)
  }

  lemma {:induction false} TablesKeyed(cache: Cache, node: int, snap: Snapshot, parse: TimeParser)
    requires Coherent(cache) && HasIds(snap)
    ensures var after := Synced(cache, node, snap, parse);
            && Keyed(after.inbounds, InboundKey, (row: Inbound) => row.id)
            && Keyed(after.clients, ClientKey, (row: Client) => row.id)
  {
    hide Keyed, UpsertAll, KeepsKey;
    var items := InboundItems(node, snap.inbounds);
    forall item | item in items
      ensures KeepsKey(item, InboundKey, (row: Inbound) => row.id)
    {
      var i :| 0 <= i < |items| && items[i] == item;
      assert item == InboundItem(node, snap.inbounds[i]) && snap.inbounds[i].id != "";
      hide InboundItem;
      var c: RemoteClient := RemoteClient("", "", "", "", "", 0, 0, 0, "", Active, "", false, false, "");
      WritesKeepKeys(node, snap.inbounds[i], 0, c, parse);
    }
    UpsertAllKeyed(cache.inbounds, items, InboundKey, (row: Inbound) => row.id);
    forall item | item in ClientItemsOf(cache, node, snap, parse)
      ensures KeepsKey(item, ClientKey, (row: Client) => row.id)
    {
      ClientItemHasId(cache, node, snap, parse, item);
    }
    UpsertAllKeyed(cache.clients, ClientItemsOf(cache, node, snap, parse), ClientKey, (row: Client) => row.id);
  }

  lemma {:induction false} ClientItemHasId(cache: Cache, node: int, snap: Snapshot, parse: TimeParser, item: Item<Client>)
    requires HasIds(snap) && item in ClientItemsOf(cache, node, snap, parse)
    ensures KeepsKey(item, ClientKey, (row: Client) => row.id)
  {
    hide KeepsKey, UpsertAll;
    var ids := IdsOf(cache, node, snap);
    ClientItemsFrom(node, ids, snap.clients, parse, item);
    hide ClientItems;
    var i :| 0 <= i < |snap.clients| && snap.clients[i].inboundId in ids
             && item == ClientItem(node, ids[snap.clients[i].inboundId], snap.clients[i], parse);
    assert Lists(snap.inbounds, snap.clients[i].inboundId);
    var r := RemoteInbound("", "", Vless, 0, Tcp, NoTls, "", "", false, EMPTY_SETTINGS);
    WritesKeepKeys(node, r, ids[snap.clients[i].inboundId], snap.clients[i], parse);
  }

  // Every inbound of the snapshot has its id in the map the clients are resolved with.
  lemma {:induction false} IdsComplete(cache: Cache, node: int, snap: Snapshot, rid: string)
    requires Coherent(cache)
    ensures rid in IdsOf(cache, node, snap) <==> Lists(snap.inbounds, rid)
    ensures Lists(snap.inbounds, rid) ==>
              (node, rid) in InboundsOf(cache, node, snap).index
              && IdsOf(cache, node, snap)[rid] == InboundsOf(cache, node, snap).index[(node, rid)]
  {
    hide Keyed, Referential, UpsertAll, RowsWritten, OthersKept;
    var items := InboundItems(node, snap.inbounds);
    assert Consistent(cache.inbounds) by { KeyedIsConsistent(cache); }
    InboundItemsAbsorb(node, snap.inbounds);
    UpsertAllExact(cache.inbounds, items);
    hide Absorbs, Consistent;
    forall i | 0 <= i < |snap.inbounds|
      ensures (node, snap.inbounds[i].id) in InboundsOf(cache, node, snap).index
    {
      assert items[i] in items && items[i].key == (node, snap.inbounds[i].id);
      assert LastWith(items, items[i].key).Some?;
    }
  }

  lemma {:induction false} KeyedIsConsistent(cache: Cache)
    requires Coherent(cache)
    ensures Consistent(cache.inbounds) && Consistent(cache.clients)
  {
  }

  lemma {:induction false} WritesMirror(node: int, r: RemoteInbound, inboundId: int, c: RemoteClient, parse: TimeParser,
                                        id: int, ib: Option<Inbound>, cl: Option<Client>)
    ensures var row := InboundItem(node, r).write(id, ib);
            row.id == id && InboundKey(row) == Some((node, r.id)) ==> MirrorsInbound(row, id, node, r)
    ensures var row := ClientItem(node, inboundId, c, parse).write(id, cl);
            && row.inboundId == inboundId
            && (row.id == id && ClientKey(row) == Some((node, c.id)) ==> MirrorsClient(row, id, node, c, parse, cl))
  {
  }

  // Every inbound of the snapshot is cached, field by field.
  lemma {:induction false} InboundsMirrored(cache: Cache, node: int, snap: Snapshot, parse: TimeParser, i: nat)
    requires Coherent(cache) && HasIds(snap) && i < |snap.inbounds|
    requires forall j :: i < j < |snap.inbounds| ==> snap.inbounds[j].id != snap.inbounds[i].id
    ensures var r, after := snap.inbounds[i], Synced(cache, node, snap, parse).inbounds;
            && (node, r.id) in after.index && after.index[(node, r.id)] in after.rows
            && MirrorsInbound(after.rows[after.index[(node, r.id)]], after.index[(node, r.id)], node, r)
  {
    TablesKeyed(cache, node, snap, parse);
    KeyedIsConsistent(cache);
    InboundItemsAbsorb(node, snap.inbounds);
    var items, r := InboundItems(node, snap.inbounds), snap.inbounds[i];
    UpsertAllExact(cache.inbounds, items);
    LastWithIs(items, i);
    var u, k := UpsertAll(cache.inbounds, items), (node, r.id);
    hide UpsertAll, LastWith, Absorbs, OthersKept, HasIds, Referential;
    assert k in u.index;
    assert RowOf(u, k) == Some(InboundItem(node, r).write(u.index[k], RowOf(cache.inbounds, k)));
    var c: RemoteClient := RemoteClient("", "", "", "", "", 0, 0, 0, "", Active, "", false, false, "");
    WritesMirror(node, r, 0, c, parse, u.index[k], RowOf(cache.inbounds, k), None);
    hide InboundItem, MirrorsInbound, InboundKey;
  }

  // The last of its id is the item the table ends up with.
  lemma {:induction false} LastClientItem(node: int, ids: map<string, int>, cs: seq<RemoteClient>, parse: TimeParser, i: nat)
    requires i < |cs| && cs[i].inboundId in ids
    requires forall j :: i < j < |cs| && cs[j].inboundId in ids ==> cs[j].id != cs[i].id
    ensures LastWith(ClientItems(node, ids, cs, parse), (node, cs[i].id)) ==
            Some(ClientItem(node, ids[cs[i].inboundId], cs[i], parse))
  {
    var front, last := cs[..|cs| - 1], cs[|cs| - 1];
    if i < |cs| - 1 {
      assert front[i] == cs[i];
      LastClientItem(node, ids, front, parse, i);
    }
    if last.inboundId in ids {
      LastOfAppend(ClientItems(node, ids, front, parse), ClientItem(node, ids[last.inboundId], last, parse), (node, cs[i].id));
    }
  }

  // Every client of the snapshot whose inbound is in it is cached field by
  // field, and points at the local id of that very inbound on that node.
  lemma {:induction false} ClientsMirrored(cache: Cache, node: int, snap: Snapshot, parse: TimeParser, i: nat)
    requires Coherent(cache) && HasIds(snap) && i < |snap.clients|
    requires Lists(snap.inbounds, snap.clients[i].inboundId) && LastOfItsId(snap, i)
    ensures var c, after := snap.clients[i], Synced(cache, node, snap, parse);
            var k := (node, c.id);
            && k in after.clients.index && after.clients.index[k] in after.clients.rows
            && MirrorsClient(after.clients.rows[after.clients.index[k]], after.clients.index[k], node, c, parse, RowOf(cache.clients, k))
            && (node, c.inboundId) in after.inbounds.index
            && after.clients.rows[after.clients.index[k]].inboundId == after.inbounds.index[(node, c.inboundId)]
  {
    TablesKeyed(cache, node, snap, parse);
    var ids, c := IdsOf(cache, node, snap), snap.clients[i];
    forall rid
      ensures rid in ids <==> Lists(snap.inbounds, rid)
      ensures Lists(snap.inbounds, rid) ==> (node, rid) in InboundsOf(cache, node, snap).index
                                            && ids[rid] == InboundsOf(cache, node, snap).index[(node, rid)]
    {
      IdsComplete(cache, node, snap, rid);
    }
    hide Lists, LocalIds, UpsertAll, IdsOf;
    KeyedIsConsistent(cache);
    LastClientItem(node, ids, snap.clients, parse, i);
    ClientItemsAbsorb(node, ids, snap.clients, parse);
    var items := ClientItems(node, ids, snap.clients, parse);
    UpsertAllExact(cache.clients, items);
    hide ClientItems, LastWith, Absorbs, OthersKept, HasIds, Referential;
    var u, k := UpsertAll(cache.clients, items), (node, c.id);
    assert u == Synced(cache, node, snap, parse).clients by { assert items == ClientItemsOf(cache, node, snap, parse); }
    assert k in u.index;
    assert RowOf(u, k) == Some(ClientItem(node, ids[c.inboundId], c, parse).write(u.index[k], RowOf(cache.clients, k)));
    var r := RemoteInbound("", "", Vless, 0, Tcp, NoTls, "", "", false, EMPTY_SETTINGS);
    WritesMirror(node, r, ids[c.inboundId], c, parse, u.index[k], None, RowOf(cache.clients, k));
    hide ClientItem, MirrorsClient, ClientKey;
  }

  ghost predicate InboundsFramed(before: Table<Inbound>, after: Table<Inbound>, node: int, snap: Snapshot) {
    && (forall k :: k in before.index ==> k in after.index && after.index[k] == before.index[k])
    && (forall id :: id in before.rows ==> id in after.rows)
    && (forall id :: id in before.rows && InboundUnlisted(node, snap, before.rows[id]) ==> after.rows[id] == before.rows[id])
  }

  ghost predicate ClientsFramed(before: Table<Client>, after: Table<Client>, node: int, snap: Snapshot) {
    && (forall k :: k in before.index ==> k in after.index && after.index[k] == before.index[k])
    && (forall id :: id in before.rows ==> id in after.rows)
    && (forall id :: id in before.rows && ClientUnlisted(node, snap, before.rows[id]) ==> after.rows[id] == before.rows[id])
  }

  // Local ids survive; rows of other nodes, local rows, and rows the snapshot
  // does not list are untouched; nothing is deleted.
  ghost predicate Framed(before: Cache, after: Cache, node: int, snap: Snapshot) {
    InboundsFramed(before.inbounds, after.inbounds, node, snap) && ClientsFramed(before.clients, after.clients, node, snap)
  }

  lemma {:induction false} SyncFramed(cache: Cache, node: int, snap: Snapshot, parse: TimeParser)
    requires Coherent(cache)
    ensures Framed(cache, Synced(cache, node, snap, parse), node, snap)
  {
    InboundsFrameHolds(cache, node, snap);
    ClientsFrameHolds(cache, node, snap, parse);
    hide Coherent, InboundsFramed, ClientsFramed, UpsertAll;
  }

  lemma {:induction false} InboundsFrameHolds(cache: Cache, node: int, snap: Snapshot)
    requires Coherent(cache)
    ensures InboundsFramed(cache.inbounds, InboundsOf(cache, node, snap), node, snap)
  {
    hide Coherent, InboundUnlisted, InboundsOf;
    InboundIdsKept(cache, node, snap);
    forall id | id in cache.inbounds.rows && InboundUnlisted(node, snap, cache.inbounds.rows[id])
      ensures InboundsOf(cache, node, snap).rows[id] == cache.inbounds.rows[id]
    {
      InboundRowKept(cache, node, snap, id);
    }
  }

  lemma {:induction false} ClientsFrameHolds(cache: Cache, node: int, snap: Snapshot, parse: TimeParser)
    requires Coherent(cache)
    ensures ClientsFramed(cache.clients, UpsertAll(cache.clients, ClientItemsOf(cache, node, snap, parse)), node, snap)
  {
    hide Coherent, ClientUnlisted, ClientItemsOf, UpsertAll, Consistent;
    ClientIdsKept(cache, node, snap, parse);
    var u := UpsertAll(cache.clients, ClientItemsOf(cache, node, snap, parse));
    forall id | id in cache.clients.rows && ClientUnlisted(node, snap, cache.clients.rows[id])
      ensures u.rows[id] == cache.clients.rows[id]
    {
      ClientRowKept(cache, node, snap, parse, id);
    }
  }

  lemma {:induction false} InboundRowKept(cache: Cache, node: int, snap: Snapshot, id: int)
    requires Coherent(cache) && id in cache.inbounds.rows && InboundUnlisted(node, snap, cache.inbounds.rows[id])
    ensures id in InboundsOf(cache, node, snap).rows && InboundsOf(cache, node, snap).rows[id] == cache.inbounds.rows[id]
  {
    hide Keyed, Referential, Absorbs, UpsertAll;
    InboundItemsAbsorb(node, snap.inbounds);
    UnmentionedRowKept(cache.inbounds, InboundItems(node, snap.inbounds), InboundKey, (row: Inbound) => row.id, id);
  }

  lemma {:induction false} ClientRowKept(cache: Cache, node: int, snap: Snapshot, parse: TimeParser, id: int)
    requires Coherent(cache) && id in cache.clients.rows && ClientUnlisted(node, snap, cache.clients.rows[id])
    ensures var u := UpsertAll(cache.clients, ClientItemsOf(cache, node, snap, parse));
            id in u.rows && u.rows[id] == cache.clients.rows[id]
  {
    hide Keyed, Referential, Absorbs, UpsertAll;
    var ids := IdsOf(cache, node, snap);
    var items := ClientItemsOf(cache, node, snap, parse);
    forall item | item in items
      ensures ClientKey(cache.clients.rows[id]) != Some(item.key)
    {
      ClientItemsFrom(node, ids, snap.clients, parse, item);
      assert forall rid :: rid in ids ==> Lists(snap.inbounds, rid);
    }
    ClientItemsAbsorb(node, ids, snap.clients, parse);
    hide ClientItems, ClientUnlisted;
    UnmentionedRowKept(cache.clients, items, ClientKey, (row: Client) => row.id, id);
  }

  lemma {:induction false} InboundIdsKept(cache: Cache, node: int, snap: Snapshot)
    requires Coherent(cache)
    ensures var u := InboundsOf(cache, node, snap);
            && (forall k :: k in cache.inbounds.index ==> k in u.index && u.index[k] == cache.inbounds.index[k])
            && (forall id :: id in cache.inbounds.rows ==> id in u.rows)
  {
    KeyedIsConsistent(cache);
    hide Keyed, Referential, UpsertAll, Absorbs, LastWith, RowsWritten, Consistent;
    InboundItemsAbsorb(node, snap.inbounds);
    UpsertAllExact(cache.inbounds, InboundItems(node, snap.inbounds));
    hide IndexGrows;
    GrownKeepsIds(cache.inbounds, InboundItems(node, snap.inbounds), InboundsOf(cache, node, snap));
  }

  lemma {:induction false} ClientIdsKept(cache: Cache, node: int, snap: Snapshot, parse: TimeParser)
    requires Coherent(cache)
    ensures var u := UpsertAll(cache.clients, ClientItemsOf(cache, node, snap, parse));
            && (forall k :: k in cache.clients.index ==> k in u.index && u.index[k] == cache.clients.index[k])
            && (forall id :: id in cache.clients.rows ==> id in u.rows)
  {
    KeyedIsConsistent(cache);
    hide Keyed, Referential, UpsertAll, Absorbs, LastWith, RowsWritten, Consistent;
    var items := ClientItemsOf(cache, node, snap, parse);
    ClientItemsAbsorb(node, IdsOf(cache, node, snap), snap.clients, parse);
    UpsertAllExact(cache.clients, items);
    hide IndexGrows;
    GrownKeepsIds(cache.clients, items, UpsertAll(cache.clients, items));
  }

  lemma {:induction false} GrownKeepsIds<T>(t: Table<T>, items: seq<Item<T>>, u: Table<T>)
    requires IndexGrows(t, items, u)
    ensures forall k :: k in t.index ==> k in u.index && u.index[k] == t.index[k]
  {
  }

  predicate InboundUnlisted(node: int, snap: Snapshot, row: Inbound) {
    row.nodeId != Some(node) || row.remoteId == "" || !Lists(snap.inbounds, row.remoteId)
  }

  predicate ClientUnlisted(node: int, snap: Snapshot, row: Client) {
    || row.nodeId != Some(node)
    || row.remoteId == ""
    || forall i :: 0 <= i < |snap.clients| && snap.clients[i].id == row.remoteId ==> !Lists(snap.inbounds, snap.clients[i].inboundId)
  }

  // Syncing the same snapshot again changes nothing.
  lemma {:induction false} SyncIdempotent(cache: Cache, node: int, snap: Snapshot, parse: TimeParser)
    requires Coherent(cache)
    ensures Synced(Synced(cache, node, snap, parse), node, snap, parse) == Synced(cache, node, snap, parse)
  {
    hide Keyed, UpsertAll, Absorbs;
    KeyedIsConsistent(cache);
    InboundItemsAbsorb(node, snap.inbounds);
    UpsertAllIdempotent(cache.inbounds, InboundItems(node, snap.inbounds));
    ClientItemsAbsorb(node, IdsOf(cache, node, snap), snap.clients, parse);
    UpsertAllIdempotent(cache.clients, ClientItemsOf(cache, node, snap, parse));
  }

  // A sync of a coherent cache leaves one.
  lemma {:induction false} SyncCoherent(cache: Cache, node: int, snap: Snapshot, parse: TimeParser)
    requires Coherent(cache) && HasIds(snap)
    ensures Coherent(Synced(cache, node, snap, parse))
  {
    TablesKeyed(cache, node, snap, parse);
    var after := Synced(cache, node, snap, parse);
    hide Synced;
    forall id | id in after.clients.rows && ClientKey(after.clients.rows[id]).Some?
      ensures PointsHome(after.inbounds, after.clients.rows[id])
    {
      var k := ClientKey(after.clients.rows[id]).value;
      ClientPointsHome(cache, node, snap, parse, k);
    }
  }

  // Inbound rows never move to another node.
  lemma {:induction false} InboundStaysHome(cache: Cache, node: int, snap: Snapshot, id: int)
    requires Coherent(cache) && id in cache.inbounds.rows
    ensures id in InboundsOf(cache, node, snap).rows && InboundsOf(cache, node, snap).rows[id].nodeId == cache.inbounds.rows[id].nodeId
  {
    hide Referential, Absorbs, LastWith, UpsertAll;
    var row, items, u := cache.inbounds.rows[id], InboundItems(node, snap.inbounds), InboundsOf(cache, node, snap);
    InboundItemsAbsorb(node, snap.inbounds);
    if forall item :: item in items ==> InboundKey(row) != Some(item.key) {
      hide Keyed;
      UnmentionedRowKept(cache.inbounds, items, InboundKey, (row: Inbound) => row.id, id);
    } else {
      UpsertAllExact(cache.inbounds, items);
      hide OthersKept;
      var k := InboundKey(row).value;
      assert k in u.index && u.index[k] == id;
      if LastWith(items, k).Some? {
        var last := LastWith(items, k).value;
        var i :| 0 <= i < |items| && items[i] == last;
        assert last == InboundItem(node, snap.inbounds[i]);
        assert RowOf(u, k) == Some(last.write(id, Some(row)));
      }
    }
  }

  // A client row that is as it was still points home: its inbound has not moved.
  lemma {:induction false} KeptPointsHome(cache: Cache, node: int, snap: Snapshot, id: int)
    requires Coherent(cache) && id in cache.clients.rows && ClientKey(cache.clients.rows[id]).Some?
    ensures PointsHome(InboundsOf(cache, node, snap), cache.clients.rows[id])
  {
    hide Keyed;
    InboundStaysHome(cache, node, snap, cache.clients.rows[id].inboundId);
  }

  lemma {:induction false} ClientPointsHome(cache: Cache, node: int, snap: Snapshot, parse: TimeParser, k: Key)
    requires Coherent(cache) && HasIds(snap)
    ensures var after := Synced(cache, node, snap, parse);
            k in after.clients.index && after.clients.index[k] in after.clients.rows
            && ClientKey(after.clients.rows[after.clients.index[k]]) == Some(k) ==>
              PointsHome(after.inbounds, after.clients.rows[after.clients.index[k]])
  {
    hide Absorbs, OthersKept, UpsertAll, ClientItems, LocalIds, PointsHome, HasIds, Referential, InboundItems;
    var after, items, ids := Synced(cache, node, snap, parse), ClientItemsOf(cache, node, snap, parse), IdsOf(cache, node, snap);
    KeyedIsConsistent(cache);
    hide Keyed;
    ClientItemsAbsorb(node, ids, snap.clients, parse);
    UpsertAllExact(cache.clients, items);
    assert after.clients == UpsertAll(cache.clients, items) && after.inbounds == InboundsOf(cache, node, snap);
    hide Synced, ClientItemsOf, InboundsOf, IdsOf, Coherent;
    if k in after.clients.index && after.clients.index[k] in after.clients.rows
       && ClientKey(after.clients.rows[after.clients.index[k]]) == Some(k) {
      hide ClientKey;
      match LastWith(items, k) {
        case None =>
          assert k in cache.clients.index && RowOf(after.clients, k) == RowOf(cache.clients, k);
          hide RowsWritten, LastWith, IndexGrows;
          KeptPointsHome(cache, node, snap, cache.clients.index[k]);
        case Some(last) =>
          assert RowOf(after.clients, k) == Some(last.write(after.clients.index[k], RowOf(cache.clients, k)));
          hide RowsWritten, LastWith, IndexGrows;
          ListedPointsHome(cache, node, snap, parse, last, after.clients.index[k], RowOf(cache.clients, k));
      }
    }
  }

  lemma {:induction false} KeyedRow(t: Table<Inbound>, k: Key)
    requires Keyed(t, InboundKey, (row: Inbound) => row.id) && k in t.index
    ensures t.index[k] in t.rows && t.rows[t.index[k]].nodeId == Some(k.0)
  {
  }

  lemma {:induction false} HomeIs(inbounds: Table<Inbound>, c: Client, id: int)
    requires c.inboundId == id && id in inbounds.rows && inbounds.rows[id].nodeId == c.nodeId
    ensures PointsHome(inbounds, c)
  {
  }

  // The row written for a listed client points at its inbound.
  lemma {:induction false} ListedPointsHome(cache: Cache, node: int, snap: Snapshot, parse: TimeParser, item: Item<Client>, id: int,
                                            before: Option<Client>)
    requires Coherent(cache) && HasIds(snap)
    ensures item in ClientItemsOf(cache, node, snap, parse) && ClientKey(item.write(id, before)) == Some(item.key) ==>
              PointsHome(InboundsOf(cache, node, snap), item.write(id, before))
  {
    hide Keyed, HasIds, UpsertAll, Referential, Consistent, PointsHome;
    if item !in ClientItemsOf(cache, node, snap, parse) || ClientKey(item.write(id, before)) != Some(item.key) {
      return;
    }
    TablesKeyed(cache, node, snap, parse);
    var ids, u := IdsOf(cache, node, snap), InboundsOf(cache, node, snap);
    ClientItemsFrom(node, ids, snap.clients, parse, item);
    hide ClientItems, IdsOf;
    var i :| 0 <= i < |snap.clients| && snap.clients[i].inboundId in ids
             && item == ClientItem(node, ids[snap.clients[i].inboundId], snap.clients[i], parse);
    var rid := snap.clients[i].inboundId;
    IdsComplete(cache, node, snap, rid);
    assert item.write(id, before).inboundId == ids[rid];
    KeyedRow(u, (node, rid));
    hide InboundsOf, Lists, ClientItem, ClientItemsOf, Coherent;
    HomeIs(u, item.write(id, before), ids[rid]);
  }

  // A sync that stopped half way obeys the same frame: it is a sync of less.
  lemma {:induction false} StoppedSyncFramed(cache: Cache, node: int, snap: Snapshot, parse: TimeParser, m: nat, k: nat)
    requires Coherent(cache) && m <= |snap.inbounds| && k <= |snap.clients|
    ensures Framed(cache, Synced(cache, node, Snapshot(snap.inbounds[..m], snap.clients[..k]), parse), node, snap)
  {
    var part := Snapshot(snap.inbounds[..m], snap.clients[..k]);
    SyncFramed(cache, node, part, parse);
    hide Coherent, Synced, Framed;
    forall rid | Lists(part.inbounds, rid)
      ensures Lists(snap.inbounds, rid)
    {
      var i :| 0 <= i < |part.inbounds| && part.inbounds[i].id == rid;
      assert snap.inbounds[i].id == rid;
    }
    assert forall i :: 0 <= i < k ==> part.clients[i] == snap.clients[i];
    FramedByLess(cache, Synced(cache, node, part, parse), node, part, snap);
  }

  lemma {:induction false} FramedByLess(before: Cache, after: Cache, node: int, part: Snapshot, snap: Snapshot)
    requires Framed(before, after, node, part)
    requires forall rid :: Lists(part.inbounds, rid) ==> Lists(snap.inbounds, rid)
    requires part.clients <= snap.clients
    ensures Framed(before, after, node, snap)
  {
    hide Lists;
    forall row: Client | ClientUnlisted(node, snap, row)
      ensures ClientUnlisted(node, part, row)
    {
    }
  }
}
