// Per-connection byte counters become per-client deltas:
// internal/services/stats/clash_user.go.
module ClashUser {
  import Collections
  import opened Domain
  import opened Tag
  import opened Text

  datatype Bytes = Bytes(up: nat, down: nat) {
    function Get(d: Direction): nat {
      match d
      case Up => up
      case Down => down
    }

    function Add(b: Bytes): Bytes {
      Bytes(up + b.up, down + b.down)
    }
  }

  datatype Conn = Conn(id: string, bytes: Bytes, chains: seq<string>)

  datatype UserTraffic = UserTraffic(name: string, bytes: Bytes)

  // What looking up a client's name answers during one poll: the stored names,
  // except for the connections during whose handling the lookup failed.
  datatype Directory = Directory(names: map<int, string>, failed: set<string>) {
    function NameById(conn: string, id: int): string {
      if conn in failed || id !in names then "" else names[id]
    }
  }

  // The client a connection is attributed to; None means it is skipped.
  function Owner(dir: Directory, c: Conn): (r: Option<int>)
    ensures r.Some? ==> r.value in dir.names
  {
    if |c.chains| == 0 then None
    else
      match ParseClientOutboundTag(c.chains[0])
      case None => None
      case Some(id) => if dir.NameById(c.id, id) == "" then None else Some(id)
  }

  // The counters remembered for the next poll.
  function Tracked(dir: Directory, conns: seq<Conn>): map<string, Bytes> {
    if |conns| == 0 then map[]
    else
      var front, last := Tracked(dir, conns[..|conns| - 1]), conns[|conns| - 1];
      if Owner(dir, last).Some? then front[last.id := last.bytes] else front
  }

  // The bytes a connection adds: its growth, or its whole counter when it is
  // new or its counter went backwards.
  function Growth(prev: map<string, Bytes>, c: Conn, d: Direction): nat {
    var now := c.bytes.Get(d);
    if c.id in prev && now >= prev[c.id].Get(d) then now - prev[c.id].Get(d) else now
  }

  function ChargeTerm(prev: map<string, Bytes>, dir: Directory, id: int, d: Direction): Conn -> nat {
    c => if Owner(dir, c) == Some(id) then Growth(prev, c, d) else 0
  }

  // What one poll charges to client id.
  function Charge(prev: map<string, Bytes>, dir: Directory, conns: seq<Conn>, id: int): Bytes {
    Bytes(Collections.Sum(conns, ChargeTerm(prev, dir, id, Up)), Collections.Sum(conns, ChargeTerm(prev, dir, id, Down)))
  }

  // The clients online in a snapshot, with the snapshot's time.
  function Seen(dir: Directory, conns: seq<Conn>, now: Time): (seen: map<string, Time>)
    ensures forall n :: n in seen <==> exists c :: c in conns && Owner(dir, c).Some? && dir.names[Owner(dir, c).value] == n
    ensures forall n :: n in seen ==> seen[n] == now
  {
    if |conns| == 0 then map[]
    else
      var front, last := Seen(dir, conns[..|conns| - 1], now), conns[|conns| - 1];
      assert conns == conns[..|conns| - 1] + [last];
      assert forall c :: c in conns <==> c in conns[..|conns| - 1] || c == last;
      if Owner(dir, last).Some? then front[dir.names[Owner(dir, last).value] := now] else front
  }

  // out lists each client with a non-zero charge once, in some order.
  ghost predicate Reports(out: seq<UserTraffic>, ids: seq<int>, prev: map<string, Bytes>, dir: Directory, conns: seq<Conn>) {
    && |out| == |ids|
    && Collections.Distinct(ids)
    && (forall id :: id in ids <==> Charge(prev, dir, conns, id) != Bytes(0, 0))
    && (forall k :: 0 <= k < |ids| ==>
          && ids[k] in dir.names
          && out[k] == UserTraffic(dir.names[ids[k]], Charge(prev, dir, conns, ids[k])))
  }

  // byId holds what has been charged so far, for the clients charged anything.
  ghost predicate Aggregates(byId: map<int, UserTraffic>, prev: map<string, Bytes>, dir: Directory, conns: seq<Conn>) {
    forall id :: Aggregated(byId, dir, id, Charge(prev, dir, conns, id))
  }

  ghost predicate Aggregated(byId: map<int, UserTraffic>, dir: Directory, id: int, charged: Bytes) {
    && (id in byId <==> charged != Bytes(0, 0))
    && (id in byId ==> id in dir.names && byId[id] == UserTraffic(dir.names[id], charged))
  }

  lemma {:induction false} ChargeStep(prev: map<string, Bytes>, dir: Directory, conns: seq<Conn>, c: Conn, id: int)
    ensures Charge(prev, dir, conns + [c], id) ==
            if Owner(dir, c) == Some(id)
            then Charge(prev, dir, conns, id).Add(Bytes(Growth(prev, c, Up), Growth(prev, c, Down)))
            else Charge(prev, dir, conns, id)
  {
    assert (conns + [c])[..|conns|] == conns;
  }

  // byId after one more connection
  function Aggregate(byId: map<int, UserTraffic>, prev: map<string, Bytes>, dir: Directory, c: Conn): map<int, UserTraffic> {
    var growth := Bytes(Growth(prev, c, Up), Growth(prev, c, Down));
    match Owner(dir, c)
    case None => byId
    case Some(id) =>
      if growth == Bytes(0, 0) then byId
      else
        var ut := if id in byId then byId[id] else UserTraffic(dir.names[id], Bytes(0, 0));
        byId[id := ut.(bytes := ut.bytes.Add(growth))]
  }

  lemma {:induction false} AggregateStep(byId: map<int, UserTraffic>, prev: map<string, Bytes>, dir: Directory, conns: seq<Conn>, c: Conn)
    requires Aggregates(byId, prev, dir, conns)
    ensures Aggregates(Aggregate(byId, prev, dir, c), prev, dir, conns + [c])
  {
    forall id
      ensures Aggregated(Aggregate(byId, prev, dir, c), dir, id, Charge(prev, dir, conns + [c], id))
    {
      assert Aggregated(byId, dir, id, Charge(prev, dir, conns, id));
      ChargeStep(prev, dir, conns, c, id);
    }
  }

  method GrowthSince(prevConn: map<string, Bytes>, c: Conn) returns (growth: Bytes)
    ensures growth == Bytes(Growth(prevConn, c, Up), Growth(prevConn, c, Down))
  {
    var up, down := c.bytes.up, c.bytes.down;
    if c.id in prevConn {
      var prev := prevConn[c.id];
      if c.bytes.up >= prev.up {
        up := c.bytes.up - prev.up;
      }
      if c.bytes.down >= prev.down {
        down := c.bytes.down - prev.down;
      }
    }
    growth := Bytes(up, down);
  }

  // The entries of a Go map, in whatever order the iteration takes.
  method Listing(byId: map<int, UserTraffic>) returns (out: seq<UserTraffic>, ghost ids: seq<int>)
    ensures |out| == |ids| && Collections.Distinct(ids)
    ensures forall id :: id in ids <==> id in byId
    ensures forall k :: 0 <= k < |ids| ==> ids[k] in byId && out[k] == byId[ids[k]]
  {
    out, ids := [], [];
    var todo := byId.Keys;
    while todo != {}
      invariant todo <= byId.Keys
      invariant |out| == |ids| && Collections.Distinct(ids)
      invariant forall id :: id in ids <==> id in byId && id !in todo
      invariant forall k :: 0 <= k < |ids| ==> ids[k] in byId && out[k] == byId[ids[k]]
      decreases todo
    {
      var id := Collections.Pick(todo);
      todo := todo - {id};
      out := out + [byId[id]];
      ids := ids + [id];
    }
  }

  class ClashUserSource {
    var prevConn: map<string, Bytes>
    var lastSeen: map<string, Time>

    constructor ()
      ensures prevConn == map[] && lastSeen == map[]
    {
      prevConn, lastSeen := map[], map[];
    }

    // fetched is the decoded payload, or None when the request failed.
    method UserDeltas(fetched: Option<seq<Conn>>, dir: Directory, now: Time)
      returns (deltas: Option<seq<UserTraffic>>, ghost ids: seq<int>)
      modifies this
      ensures fetched.None? ==> deltas.None? && prevConn == old(prevConn) && lastSeen == old(lastSeen)
      ensures fetched.Some? ==>
                && deltas.Some?
                && Reports(deltas.value, ids, old(prevConn), dir, fetched.value)
                && prevConn == Tracked(dir, fetched.value)
                && lastSeen == Seen(dir, fetched.value, now)
    {
      ids := [];
      if fetched.None? {
        return None, ids;
      }
      var conns := fetched.value;
      var next: map<string, Bytes> := map[];
      var byId: map<int, UserTraffic> := map[];
      var seen: map<string, Time> := map[];
      for i := 0 to |conns|
        invariant next == Tracked(dir, conns[..i])
        invariant seen == Seen(dir, conns[..i], now)
        invariant Aggregates(byId, prevConn, dir, conns[..i])
        invariant prevConn == old(prevConn)
      {
        var c := conns[i];
        assert conns[..i + 1] == conns[..i] + [c] && conns[..i + 1][..i] == conns[..i];
        AggregateStep(byId, prevConn, dir, conns[..i], c);
        var owner := Owner(dir, c);
        if owner.None? {
          continue;
        }
        var id := owner.value;
        next := next[c.id := c.bytes];
        seen := seen[dir.names[id] := now];
        var growth := GrowthSince(prevConn, c);
        if growth == Bytes(0, 0) {
          continue;
        }
        var ut := if id in byId then byId[id] else UserTraffic(dir.names[id], Bytes(0, 0));
        byId := byId[id := ut.(bytes := ut.bytes.Add(growth))];
      }
      assert conns[..|conns|] == conns;
      prevConn := next;
      lastSeen := seen;
      var out;
      out, ids := Listing(byId);
      deltas := Some(out);
    }
  }
}
