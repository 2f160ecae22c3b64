// The clients table and the daily rollup: internal/repo/sqlite/client_repo.go
// and traffic_repo.go. SQLite is a map from ids to rows; a transaction works
// on a copy and commits it or not.
module ClientRepo {
  import opened ClashUser
  import Collections
  import ConservationLimits
  import opened Domain
  import opened Text

  type Rows = map<int, Client>

  ghost predicate WellKeyed(rows: Rows) {
    forall id :: id in rows ==> rows[id].id == id
  }

  // No two rows of one panel share a name: idx_clients_local_name and
  // idx_clients_remote_name.
  ghost predicate UniqueNames(rows: Rows) {
    forall m, n :: m in rows && n in rows && m != n && rows[m].nodeId == rows[n].nodeId ==> rows[m].name != rows[n].name
  }

  // list is the table in descending order of ids.
  ghost predicate Lists(list: seq<Client>, rows: Rows) {
    && ConservationLimits.Descending(list)
    && (forall i :: 0 <= i < |list| ==> list[i].id in rows && rows[list[i].id] == list[i])
    && (forall id :: id in rows ==> rows[id] in list)
  }

  // The unique index on names: local clients among themselves, cached clients per node.
  predicate NameTaken(rows: Rows, c: Client) {
    exists id :: id in rows && id != c.id && rows[id].nodeId == c.nodeId && rows[id].name == c.name
  }

  function FirstOccurrences(ids: seq<int>): (out: seq<int>)
    ensures Collections.Distinct(out) && 0 !in out
    ensures forall id :: id in out <==> id in ids && id != 0
  {
    if |ids| == 0 then []
    else
      var front, last := FirstOccurrences(ids[..|ids| - 1]), ids[|ids| - 1];
      assert ids == ids[..|ids| - 1] + [last];
      if last == 0 || last in front then front else front + [last]
  }

  function NormalizeInboundSet(ids: seq<int>, primary: int): seq<int> {
    var out := FirstOccurrences(ids);
    if |out| == 0 && primary != 0 then [primary] else out
  }

  method NormalizeSet(ids: seq<int>, primary: int) returns (out: seq<int>)
    ensures out == NormalizeInboundSet(ids, primary)
  {
    var seen: set<int> := {};
    out := [];
    for i := 0 to |ids|
      invariant out == FirstOccurrences(ids[..i])
      invariant forall id :: id in seen <==> id in out
    {
      assert ids[..i + 1][..i] == ids[..i];
      if ids[i] == 0 || ids[i] in seen {
        continue;
      }
      seen := seen + {ids[i]};
      out := out + [ids[i]];
    }
    assert ids[..|ids|] == ids;
    if |out| == 0 && primary != 0 {
      out := out + [primary];
    }
  }

  function Edited(stored: Client, c: Client): Client {
    c.(inboundIds := NormalizeInboundSet(c.inboundIds, c.inboundId), usedUp := stored.usedUp, usedDown := stored.usedDown,
       subToken := stored.subToken, firstUsedAt := stored.firstUsedAt, lastUsedAt := stored.lastUsedAt)
  }

  datatype TrafficDelta = TrafficDelta(clientId: int, bytes: Bytes)

  function DeltaTerm(r: int, d: Direction): TrafficDelta -> nat {
    (t: TrafficDelta) => if t.clientId == r then t.bytes.Get(d) else 0
  }

  function Amount(d: Direction): TrafficDelta -> nat {
    (t: TrafficDelta) => t.bytes.Get(d)
  }

  // A row after a committed batch.
  function CreditedRowAfter(c: Client, batch: seq<TrafficDelta>, now: Time): Client {
    var up, down := Collections.Sum(batch, DeltaTerm(c.id, Up)), Collections.Sum(batch, DeltaTerm(c.id, Down));
    if up == 0 && down == 0 then c
    else c.(usedUp := c.usedUp + up, usedDown := c.usedDown + down, lastUsedAt := Some(now))
  }

  function Credit(c: Client, bytes: Bytes, now: Time): Client {
    c.(usedUp := c.usedUp + bytes.up, usedDown := c.usedDown + bytes.down, lastUsedAt := Some(now))
  }

  lemma {:induction false} CreditStep(c: Client, batch: seq<TrafficDelta>, t: TrafficDelta, now: Time)
    ensures CreditedRowAfter(c, batch + [t], now) ==
            if t.clientId == c.id && t.bytes != Bytes(0, 0) then Credit(CreditedRowAfter(c, batch, now), t.bytes, now)
            else CreditedRowAfter(c, batch, now)
  {
    assert (batch + [t])[..|batch|] == batch;
  }

  // rows1 is rows0 with the batch added to every counter it names.
  ghost predicate Credited(rows0: Rows, rows1: Rows, batch: seq<TrafficDelta>, now: Time) {
    && rows1.Keys == rows0.Keys
    && forall id :: id in rows0 ==> rows1[id] == CreditedRowAfter(rows0[id], batch, now)
  }

  lemma {:induction false} CreditRows(rows0: Rows, rows1: Rows, batch: seq<TrafficDelta>, t: TrafficDelta, now: Time)
    requires WellKeyed(rows0) && Credited(rows0, rows1, batch, now)
    ensures var id := t.clientId;
            Credited(rows0, if t.bytes != Bytes(0, 0) && id in rows1 then rows1[id := Credit(rows1[id], t.bytes, now)] else rows1,
                     batch + [t], now)
  {
    forall id | id in rows0 {
      CreditStep(rows0[id], batch, t, now);
    }
  }

  // The statements of the AddTraffic transaction, run on its working copy.
  method Increment(rows: Rows, batch: seq<TrafficDelta>, now: Time) returns (tx: Rows)
    requires WellKeyed(rows)
    ensures Credited(rows, tx, batch, now)
  {
    tx := rows;
    for i := 0 to |batch|
      invariant Credited(rows, tx, batch[..i], now)
    {
      var t := batch[i];
      assert batch[..i + 1] == batch[..i] + [t];
      CreditRows(rows, tx, batch[..i], t, now);
      if t.bytes != Bytes(0, 0) && t.clientId in tx {
        tx := tx[t.clientId := Credit(tx[t.clientId], t.bytes, now)];
      }
    }
    assert batch[..|batch|] == batch;
  }

  method MaxOf(s: set<int>) returns (m: int)
    requires s != {}
    ensures m in s && forall x :: x in s ==> x <= m
  {
    m := Collections.Pick(s);
    var rest := s - {m};
    while rest != {}
      invariant m in s && rest <= s
      invariant forall x :: x in s && x !in rest ==> x <= m
      decreases rest
    {
      var x := Collections.Pick(rest);
      rest := rest - {x};
      if x > m {
        m := x;
      }
    }
  }

  // The column defaults of a new row
  function Unused(c: Client): Client {
    c.(usedUp := 0, usedDown := 0, firstUsedAt := None, lastUsedAt := None)
  }

  class ClientRepo {
    var rows: Rows

    ghost predicate Valid()
      reads this
    {
      WellKeyed(rows) && UniqueNames(rows)
    }

    constructor (rows: Rows)
      requires WellKeyed(rows) && UniqueNames(rows)
      ensures Valid() && this.rows == rows
    {
      this.rows := rows;
    }

    method List() returns (list: seq<Client>)
      requires Valid()
      ensures Lists(list, rows)
    {
      list := [];
      var todo := rows.Keys;
      while todo != {}
        invariant todo <= rows.Keys
        invariant ConservationLimits.Descending(list)
        invariant forall i :: 0 <= i < |list| ==> list[i].id in rows && rows[list[i].id] == list[i]
        invariant forall i, id :: 0 <= i < |list| && id in todo ==> id < list[i].id
        invariant forall id :: id in rows && id !in todo ==> rows[id] in list
        decreases todo
      {
        var id := MaxOf(todo);
        todo := todo - {id};
        list := list + [rows[id]];
      }
    }

    method GetById(id: int) returns (c: Option<Client>)
      requires Valid()
      ensures c == if id in rows then Some(rows[id]) else None
    {
      c := if id in rows then Some(rows[id]) else None;
    }

    // ok is the database's own outcome; a failed statement changes nothing.
    method SetStatus(id: int, status: ClientStatus, enabled: bool, ok: bool)
      requires Valid()
      modifies this
      ensures Valid()
      ensures rows == if ok && id in old(rows) then old(rows)[id := old(rows)[id].(status := status, enabled := enabled)]
                      else old(rows)
    {
      if ok && id in rows {
        rows := rows[id := rows[id].(status := status, enabled := enabled)];
      }
    }

    method SetFirstUsed(id: int, at: Time, ok: bool)
      requires Valid()
      modifies this
      ensures Valid()
      ensures rows == if ok && id in old(rows) && old(rows)[id].firstUsedAt.None?
                      then old(rows)[id := old(rows)[id].(firstUsedAt := Some(at))] else old(rows)
    {
      if ok && id in rows && rows[id].firstUsedAt.None? {
        rows := rows[id := rows[id].(firstUsedAt := Some(at))];
      }
    }

    method SetLastUsedAt(id: int, at: Time, ok: bool)
      requires Valid()
      modifies this
      ensures Valid()
      ensures rows == if ok && id in old(rows) then old(rows)[id := old(rows)[id].(lastUsedAt := Some(at))] else old(rows)
    {
      if ok && id in rows {
        rows := rows[id := rows[id].(lastUsedAt := Some(at))];
      }
    }

    // INSERT; newId is the fresh id the database assigns, and the name index may
    // refuse the row. The counters and the times of use are not among the columns
    // written. None: nothing was written.
    method Create(c: Client, newId: int, ok: bool) returns (r: Option<Client>)
      requires Valid() && newId !in rows
      modifies this
      ensures Valid()
      ensures r.Some? <==> ok && forall id :: id in old(rows) && old(rows)[id].nodeId == c.nodeId ==> old(rows)[id].name != c.name
      ensures r.Some? ==> r.value == c.(id := newId, inboundIds := NormalizeInboundSet(c.inboundIds, c.inboundId))
      ensures rows == if r.Some? then old(rows)[newId := Unused(r.value)] else old(rows)
      ensures r.Some? ==>
                rows[newId] == r.value.(usedUp := 0, usedDown := 0, firstUsedAt := None, lastUsedAt := None)
    {
      if !ok || NameTaken(rows, c.(id := newId)) {
        return None;
      }
      var inbounds := NormalizeSet(c.inboundIds, c.inboundId);
      var row := c.(id := newId, inboundIds := inbounds);
      rows := rows[newId := Unused(row)];
      r := Some(row);
    }

    // UPDATE of the editable columns; counters and usage times stay as stored.
    method Update(c: Client, ok: bool) returns (updated: bool)
      requires Valid()
      modifies this
      ensures Valid()
      ensures updated <==>
              ok && forall id :: id in old(rows) && id != c.id && old(rows)[id].nodeId == c.nodeId ==> old(rows)[id].name != c.name
      ensures rows == if updated && c.id in old(rows) then old(rows)[c.id := Edited(old(rows)[c.id], c)] else old(rows)
    {
      updated := ok && !NameTaken(rows, c);
      if updated && c.id in rows {
        var inbounds := NormalizeSet(c.inboundIds, c.inboundId);
        var stored := rows[c.id];
        rows := rows[c.id := c.(inboundIds := inbounds, usedUp := stored.usedUp, usedDown := stored.usedDown,
                                subToken := stored.subToken, firstUsedAt := stored.firstUsedAt, lastUsedAt := stored.lastUsedAt)];
      }
    }

    method Delete(id: int, ok: bool)
      requires Valid()
      modifies this
      ensures Valid()
      ensures rows == if ok then old(rows) - {id} else old(rows)
    {
      if ok {
        rows := rows - {id};
      }
    }

    method ResetTraffic(id: int, ok: bool)
      requires Valid()
      modifies this
      ensures Valid()
      ensures rows == if ok && id in old(rows) then old(rows)[id := old(rows)[id].(usedUp := 0, usedDown := 0)] else old(rows)
    {
      if ok && id in rows {
        rows := rows[id := rows[id].(usedUp := 0, usedDown := 0)];
      }
    }

    // One transaction: every increment, or none.
    method AddTraffic(batch: seq<TrafficDelta>, now: Time, ok: bool)
      requires Valid()
      modifies this
      ensures Valid()
      ensures if ok then Credited(old(rows), rows, batch, now) else rows == old(rows)
    {
      var tx := Increment(rows, batch, now);
      if ok {
        rows := tx;
      }
    }
  }

  // What the table holds for a day.
  function Day(days: map<string, Bytes>, day: string): Bytes {
    if day in days then days[day] else Bytes(0, 0)
  }

  // days1 is days0 with bytes added to one day.
  ghost predicate AddsToDay(days0: map<string, Bytes>, days1: map<string, Bytes>, day: string, bytes: Bytes) {
    && Day(days1, day) == Day(days0, day).Add(bytes)
    && forall other :: other != day ==> Day(days1, other) == Day(days0, other)
  }

  class TrafficRepo {
    var days: map<string, Bytes>

    constructor ()
      ensures days == map[]
    {
      days := map[];
    }

    method AddDaily(day: string, bytes: Bytes, ok: bool)
      modifies this
      ensures AddsToDay(old(days), days, day, if ok then bytes else Bytes(0, 0))
    {
      if bytes.up == 0 && bytes.down == 0 {
        return;
      }
      if ok {
        days := days[day := Day(days, day).Add(bytes)];
      }
    }
  }
}
