// The stats worker: deltas become stored counters, exhausted clients are
// disabled (internal/services/stats/worker.go).
module Worker {
  import opened ClashUser
  import opened ClientRepo
  import Collections
  import opened Conservation
  import opened Domain
  import opened Text

  // ---- enforcement -----------------------------------------------------------

  predicate MustExpire(c: Client, now: Time) {
    c.enabled && c.status == Active && (c.IsExpired(now) || c.QuotaExceeded())
  }

  // Past its expiry, or at its quota with both counters together
  ghost predicate Exhausted(c: Client, now: Time) {
    (c.totalQuota > 0 && c.usedUp + c.usedDown >= c.totalQuota) || (c.expiry.Some? && now > c.expiry.value)
  }

  // A row after an enforcement pass; failed: the ids whose update failed.
  function EnforcedRow(c: Client, now: Time, failed: set<int>): Client {
    if MustExpire(c, now) && c.id !in failed then c.(status := Expired, enabled := false) else c
  }

  ghost predicate Enforced(rows0: Rows, rows1: Rows, now: Time, failed: set<int>) {
    && rows1.Keys == rows0.Keys
    && forall id :: id in rows0 ==> rows1[id] == EnforcedRow(rows0[id], now, failed)
  }

  ghost predicate Changes(rows: Rows, id: int, now: Time, failed: set<int>) {
    id in rows && EnforcedRow(rows[id], now, failed) != rows[id]
  }

  // The pass has handled the rows in done.
  ghost predicate EnforcedSoFar(rows0: Rows, rows1: Rows, done: set<int>, changed: bool, now: Time, failed: set<int>) {
    && rows1.Keys == rows0.Keys
    && done <= rows0.Keys
    && (forall id :: id in rows0 ==> rows1[id] == if id in done then EnforcedRow(rows0[id], now, failed) else rows0[id])
    && (changed <==> exists id :: id in done && Changes(rows0, id, now, failed))
  }

  lemma {:induction false} EnforceStep(rows0: Rows, rows1: Rows, done: set<int>, changed: bool, id: int, now: Time, failed: set<int>)
    requires EnforcedSoFar(rows0, rows1, done, changed, now, failed) && id in rows0 && id !in done
    ensures rows1[id] == rows0[id]
    ensures EnforcedSoFar(rows0, rows1[id := EnforcedRow(rows0[id], now, failed)], done + {id},
                          changed || Changes(rows0, id, now, failed), now, failed)
    ensures rows1 == rows1[id := rows0[id]]
  {
    assert forall x :: x in done + {id} <==> x in done || x == id;
  }

  lemma {:induction false} EnforceStart(rows: Rows, now: Time, failed: set<int>)
    ensures EnforcedSoFar(rows, rows, {}, false, now, failed)
  {
  }

  lemma {:induction false} EnforceEnd(rows0: Rows, rows1: Rows, done: set<int>, changed: bool, now: Time, failed: set<int>)
    requires EnforcedSoFar(rows0, rows1, done, changed, now, failed) && done == rows0.Keys
    ensures Enforced(rows0, rows1, now, failed)
    ensures changed <==> rows1 != rows0
  {
    if forall id :: !Changes(rows0, id, now, failed) {
      forall id | id in rows0
        ensures rows1[id] == rows0[id]
      {
        assert !Changes(rows0, id, now, failed);
      }
      assert rows1 == rows0;
    }
  }

  // ---- accounting ------------------------------------------------------------

  // The increments for one tick's deltas; deltas naming no listed client are dropped.
  function BatchOf(list: seq<Client>, deltas: seq<UserTraffic>): seq<TrafficDelta> {
    if |deltas| == 0 then []
    else
      var front, last := BatchOf(list, deltas[..|deltas| - 1]), deltas[|deltas| - 1];
      match RowFor(list, last.name)
      case None => front
      case Some(r) => if last.bytes == Bytes(0, 0) then front else front + [TrafficDelta(r, last.bytes)]
  }

  predicate InBatch(batch: seq<TrafficDelta>, r: int) {
    exists t :: t in batch && t.clientId == r
  }

  // Everything the environment decides during one tick.
  datatype Tick = Tick(
    fetched: Option<seq<Conn>>,
    lookupFailed: set<string>, // connections whose name lookup failed
    listOk: bool,
    firstUsedFailed: set<int>,
    addOk: bool,
    dailyOk: bool,
    lastUsedFailed: set<int>,
    enforceListOk: bool,
    statusFailed: set<int>,
    now: Time,
    enforceNow: Time,
    day: string)

  function MarkedRow(c: Client, batch: seq<TrafficDelta>, t: Tick): Client {
    if InBatch(batch, c.id) && c.startAfterFirstUse && c.firstUsedAt.None? && c.id !in t.firstUsedFailed
    then c.(firstUsedAt := Some(t.now)) else c
  }

  function BeatenRow(c: Client, list: seq<Client>, batch: seq<TrafficDelta>, seen: map<string, Time>, failed: set<int>): Client {
    if c.name in seen && RowFor(list, c.name) == Some(c.id) && !InBatch(batch, c.id) && c.id !in failed
    then c.(lastUsedAt := Some(seen[c.name])) else c
  }

  // A row after a tick whose counters were written, before enforcement.
  function ChargedRow(c: Client, list: seq<Client>, batch: seq<TrafficDelta>, seen: map<string, Time>, t: Tick): Client {
    BeatenRow(CreditedRowAfter(MarkedRow(c, batch, t), batch, t.now), list, batch, seen, t.lastUsedFailed)
  }

  function RowAfterTick(c: Client, list: seq<Client>, batch: seq<TrafficDelta>, seen: map<string, Time>, t: Tick): Client {
    if |batch| > 0 && !t.addOk then MarkedRow(c, batch, t)
    else
      var charged := ChargedRow(c, list, batch, seen, t);
      if t.enforceListOk then EnforcedRow(charged, t.enforceNow, t.statusFailed) else charged
  }

  ghost predicate Marked(rows0: Rows, rows1: Rows, batch: seq<TrafficDelta>, t: Tick) {
    && rows1.Keys == rows0.Keys
    && forall id :: id in rows0 ==> rows1[id] == MarkedRow(rows0[id], batch, t)
  }

  // The heartbeat has been applied for the names in done.
  ghost predicate Beaten(rows0: Rows, rows1: Rows, list: seq<Client>, batch: seq<TrafficDelta>, seen: map<string, Time>,
                         done: set<string>, failed: set<int>) {
    && rows1.Keys == rows0.Keys
    && forall id :: id in rows0 ==>
                      rows1[id] == if rows0[id].name in done then BeatenRow(rows0[id], list, batch, seen, failed) else rows0[id]
  }

  ghost predicate Ticked(rows0: Rows, rows1: Rows, list: seq<Client>, batch: seq<TrafficDelta>, seen: map<string, Time>, t: Tick) {
    && rows1.Keys == rows0.Keys
    && forall id :: id in rows0 ==> rows1[id] == RowAfterTick(rows0[id], list, batch, seen, t)
  }

  // The enforcement that ends the tick disables this row.
  predicate Expires(c: Client, list: seq<Client>, batch: seq<TrafficDelta>, seen: map<string, Time>, t: Tick) {
    MustExpire(ChargedRow(c, list, batch, seen, t), t.enforceNow) && c.id !in t.statusFailed
  }

  ghost predicate TickExpires(rows: Rows, list: seq<Client>, batch: seq<TrafficDelta>, seen: map<string, Time>, t: Tick) {
    && (|batch| > 0 ==> t.addOk) && t.enforceListOk
    && exists id :: id in rows && Expires(rows[id], list, batch, seen, t)
  }

  function Total(batch: seq<TrafficDelta>): Bytes {
    Bytes(Collections.Sum(batch, Amount(Up)), Collections.Sum(batch, Amount(Down)))
  }

  lemma {:induction false} BatchStep(rows0: Rows, rows1: Rows, batch: seq<TrafficDelta>, x: TrafficDelta, t: Tick)
    requires WellKeyed(rows0) && Marked(rows0, rows1, batch, t) && x.clientId in rows0
    ensures Total(batch + [x]) == Total(batch).Add(x.bytes)
    ensures forall r :: InBatch(batch + [x], r) <==> InBatch(batch, r) || r == x.clientId
    ensures var c := rows0[x.clientId];
            Marked(rows0,
                   if c.startAfterFirstUse && c.firstUsedAt.None? && c.id !in t.firstUsedFailed
                   then rows1[c.id := rows1[c.id].(firstUsedAt := Some(t.now))] else rows1,
                   batch + [x], t)
  {
    assert (batch + [x])[..|batch|] == batch;
    forall r
      ensures InBatch(batch + [x], r) <==> InBatch(batch, r) || r == x.clientId
    {
      assert forall y :: y in batch + [x] <==> y in batch || y == x;
      if r == x.clientId {
        assert x in batch + [x];
      }
    }
  }

  lemma {:induction false} NothingCredited(rows: Rows, batch: seq<TrafficDelta>, now: Time)
    requires batch == []
    ensures Credited(rows, rows, batch, now) && Total(batch) == Bytes(0, 0)
  {
  }

  lemma {:induction false} NothingReported(list: seq<Client>)
    ensures Total(BatchOf(list, [])) == Bytes(0, 0)
  {
  }

  lemma {:induction false} NothingBooked(days: map<string, Bytes>, day: string)
    ensures AddsToDay(days, days, day, Bytes(0, 0))
  {
  }

  lemma {:induction false} TickStopped(rows0: Rows, rows1: Rows, list: seq<Client>, batch: seq<TrafficDelta>, seen: map<string, Time>, t: Tick)
    requires Marked(rows0, rows1, batch, t) && |batch| > 0 && !t.addOk
    ensures Ticked(rows0, rows1, list, batch, seen, t) && !TickExpires(rows0, list, batch, seen, t)
  {
  }

  lemma {:induction false} NamesKept(rows0: Rows, rows1: Rows, rows2: Rows, list: seq<Client>, batch: seq<TrafficDelta>, t: Tick)
    requires Lists(list, rows0) && Marked(rows0, rows1, batch, t) && Credited(rows1, rows2, batch, t.now)
    ensures forall c :: c in list ==> c.id in rows2 && rows2[c.id].name == c.name
  {
  }

  lemma {:induction false} TickStages(rows0: Rows, rows1: Rows, rows2: Rows, rows3: Rows, rows4: Rows, list: seq<Client>,
                   batch: seq<TrafficDelta>, seen: map<string, Time>, t: Tick)
    requires Marked(rows0, rows1, batch, t) && Credited(rows1, rows2, batch, t.now)
    requires Beaten(rows2, rows3, list, batch, seen, seen.Keys, t.lastUsedFailed)
    requires if t.enforceListOk then Enforced(rows3, rows4, t.enforceNow, t.statusFailed) else rows4 == rows3
    requires |batch| > 0 ==> t.addOk
    ensures Ticked(rows0, rows4, list, batch, seen, t)
  {
  }

  lemma {:induction false} ChargedStage(rows0: Rows, rows1: Rows, rows2: Rows, rows3: Rows, list: seq<Client>,
                                        batch: seq<TrafficDelta>, seen: map<string, Time>, t: Tick)
    requires Marked(rows0, rows1, batch, t) && Credited(rows1, rows2, batch, t.now)
    requires Beaten(rows2, rows3, list, batch, seen, seen.Keys, t.lastUsedFailed)
    ensures rows3.Keys == rows0.Keys
    ensures forall id :: id in rows0 ==> rows3[id] == ChargedRow(rows0[id], list, batch, seen, t)
  {
  }

  lemma {:induction false} ChargedId(c: Client, list: seq<Client>, batch: seq<TrafficDelta>, seen: map<string, Time>, t: Tick)
    ensures ChargedRow(c, list, batch, seen, t).id == c.id
  {
  }

  // The enforcement changes something exactly when some charged row must expire.
  lemma {:induction false} TickTriggers(rows0: Rows, rows3: Rows, rows4: Rows, list: seq<Client>, batch: seq<TrafficDelta>,
                                        seen: map<string, Time>, t: Tick)
    requires rows3.Keys == rows0.Keys && forall id :: id in rows0 ==> rows3[id] == ChargedRow(rows0[id], list, batch, seen, t)
    requires if t.enforceListOk then Enforced(rows3, rows4, t.enforceNow, t.statusFailed) else rows4 == rows3
    requires |batch| > 0 ==> t.addOk
    ensures rows4 != rows3 <==> TickExpires(rows0, list, batch, seen, t)
  {
    hide ChargedRow;
    forall id | id in rows0
      ensures rows4[id] != rows3[id] <==> t.enforceListOk && Expires(rows0[id], list, batch, seen, t)
    {
      ChargedId(rows0[id], list, batch, seen, t);
    }
    if !TickExpires(rows0, list, batch, seen, t) {
      assert forall id :: id in rows0 ==> rows4[id] == rows3[id];
      assert rows4 == rows3;
    }
  }

  function NamesOf(rows: Rows): map<int, string> {
    map id | id in rows :: rows[id].name
  }

  method ByName(list: seq<Client>) returns (byName: map<string, Client>)
    ensures forall n :: n in byName <==> RowFor(list, n).Some?
    ensures forall n :: n in byName ==> byName[n] in list && byName[n].name == n && RowFor(list, n) == Some(byName[n].id)
  {
    byName := map[];
    for i := 0 to |list|
      invariant forall n :: n in byName <==> RowFor(list[..i], n).Some?
      invariant forall n :: n in byName ==>
                              byName[n] in list && byName[n].name == n && RowFor(list[..i], n) == Some(byName[n].id)
    {
      assert list[..i + 1][..i] == list[..i];
      byName := byName[list[i].name := list[i]];
    }
    assert list[..|list|] == list;
  }

  class Worker {
    const source: ClashUserSource
    const repo: ClientRepo
    const rollup: TrafficRepo
    var triggers: nat

    constructor (source: ClashUserSource, repo: ClientRepo, rollup: TrafficRepo)
      ensures this.source == source && this.repo == repo && this.rollup == rollup && triggers == 0
    {
      this.source, this.repo, this.rollup, triggers := source, repo, rollup, 0;
    }

    // Disables every active client that has expired or used up its quota, and
    // asks for a new config exactly when that changed something.
    method Enforce(listOk: bool, now: Time, failed: set<int>)
      requires repo.Valid()
      modifies this, repo
      ensures repo.Valid()
      ensures if listOk then Enforced(old(repo.rows), repo.rows, now, failed) else repo.rows == old(repo.rows)
      ensures listOk ==>
                forall id :: id in old(repo.rows) ==>
                               var c := old(repo.rows)[id];
                               repo.rows[id] == if c.enabled && c.status == Active && Exhausted(c, now) && id !in failed
                                                then c.(status := Expired, enabled := false) else c
      ensures triggers == old(triggers) + if repo.rows != old(repo.rows) then 1 else 0
    {
      hide EnforcedSoFar, UniqueNames;
      if !listOk {
        return;
      }
      var list := repo.List();
      var changed := false;
      ghost var rows0 := repo.rows;
      ghost var done: set<int> := {};
      EnforceStart(rows0, now, failed);
      for i := 0 to |list|
        invariant repo.Valid() && triggers == old(triggers)
        invariant forall j :: 0 <= j < |list| ==> (list[j].id in done <==> j < i)
        invariant done <= rows0.Keys && EnforcedSoFar(rows0, repo.rows, done, changed, now, failed)
      {
        var c := list[i];
        EnforceStep(rows0, repo.rows, done, changed, c.id, now, failed);
        done := done + {c.id};
        if !c.enabled || c.status != Active {
          continue;
        }
        if c.IsExpired(now) || c.QuotaExceeded() {
          var ok := c.id !in failed;
          repo.SetStatus(c.id, Expired, false, ok);
          if !ok {
            continue;
          }
          changed := true;
        }
      }
      assert forall id :: id in rows0 ==> rows0[id] in list && id in done;
      EnforceEnd(rows0, repo.rows, done, changed, now, failed);
      if changed {
        triggers := triggers + 1;
      }
    }

    // The loop over the deltas: the batch, the day's totals and the first-use marks.
    method ApplyDeltas(list: seq<Client>, deltas: seq<UserTraffic>, t: Tick)
      returns (batch: seq<TrafficDelta>, day: Bytes, bumped: set<int>)
      requires repo.Valid() && Lists(list, repo.rows)
      modifies repo
      ensures repo.Valid() && Marked(old(repo.rows), repo.rows, batch, t)
      ensures batch == BatchOf(list, deltas) && day == Total(batch)
      ensures forall r :: r in bumped <==> InBatch(batch, r)
    {
      hide UniqueNames;
      var byName := ByName(list);
      ghost var rows0 := repo.rows;
      batch, day, bumped := [], Bytes(0, 0), {};
      for i := 0 to |deltas|
        invariant repo.Valid() && Marked(rows0, repo.rows, batch, t)
        invariant batch == BatchOf(list, deltas[..i]) && day == Total(batch)
        invariant forall r :: r in bumped <==> InBatch(batch, r)
      {
        var ut := deltas[i];
        assert deltas[..i + 1][..i] == deltas[..i];
        if ut.name !in byName || ut.bytes == Bytes(0, 0) {
          continue;
        }
        var c := byName[ut.name];
        BatchStep(rows0, repo.rows, batch, TrafficDelta(c.id, ut.bytes), t);
        batch := batch + [TrafficDelta(c.id, ut.bytes)];
        day := day.Add(ut.bytes);
        bumped := bumped + {c.id};
        if c.startAfterFirstUse && c.firstUsedAt.None? {
          repo.SetFirstUsed(c.id, t.now, c.id !in t.firstUsedFailed);
        }
      }
      assert deltas[..|deltas|] == deltas;
    }

    // The loop over the heartbeat, in any order.
    method Heartbeat(list: seq<Client>, batch: seq<TrafficDelta>, bumped: set<int>, seen: map<string, Time>, failed: set<int>)
      requires repo.Valid()
      requires forall c :: c in list ==> c.id in repo.rows && repo.rows[c.id].name == c.name
      requires forall r :: r in bumped <==> InBatch(batch, r)
      modifies repo
      ensures repo.Valid() && Beaten(old(repo.rows), repo.rows, list, batch, seen, seen.Keys, failed)
    {
      var byName := ByName(list);
      ghost var rows0 := repo.rows;
      var todo := seen.Keys;
      while todo != {}
        invariant todo <= seen.Keys
        invariant repo.Valid() && Beaten(rows0, repo.rows, list, batch, seen, seen.Keys - todo, failed)
        decreases todo
      {
        var name := Collections.Pick(todo);
        assert seen.Keys - (todo - {name}) == (seen.Keys - todo) + {name};
        todo := todo - {name};
        if name !in byName {
          continue;
        }
        var c := byName[name];
        if c.id in bumped {
          continue;
        }
        repo.SetLastUsedAt(c.id, seen[name], c.id !in failed);
      }
    }

    // The writes of one tick: counters, rollup, heartbeat, enforcement.
    method Write(list: seq<Client>, deltas: seq<UserTraffic>, heartbeat: map<string, Time>, t: Tick)
      requires repo.Valid() && Lists(list, repo.rows)
      modifies this, repo, rollup
      ensures repo.Valid() && Ticked(old(repo.rows), repo.rows, list, BatchOf(list, deltas), heartbeat, t)
      ensures AddsToDay(old(rollup.days), rollup.days, t.day,
                        if t.addOk && t.dailyOk then Total(BatchOf(list, deltas)) else Bytes(0, 0))
      ensures triggers == old(triggers) + if TickExpires(old(repo.rows), list, BatchOf(list, deltas), heartbeat, t) then 1 else 0
    {
      hide *;
      NothingBooked(rollup.days, t.day);
      ghost var rows0 := repo.rows;
      var batch, day, bumped := ApplyDeltas(list, deltas, t);
      ghost var rows1 := repo.rows;
      if |batch| > 0 {
        repo.AddTraffic(batch, t.now, t.addOk);
        if !t.addOk {
          TickStopped(rows0, rows1, list, batch, heartbeat, t);
          return;
        }
        rollup.AddDaily(t.day, day, t.dailyOk);
      } else {
        NothingCredited(rows1, batch, t.now);
      }
      ghost var rows2 := repo.rows;
      NamesKept(rows0, rows1, rows2, list, batch, t);
      Heartbeat(list, batch, bumped, heartbeat, t.lastUsedFailed);
      ghost var rows3 := repo.rows;
      ChargedStage(rows0, rows1, rows2, rows3, list, batch, heartbeat, t);
      Enforce(t.enforceListOk, t.enforceNow, t.statusFailed);
      TickStages(rows0, rows1, rows2, rows3, repo.rows, list, batch, heartbeat, t);
      TickTriggers(rows0, rows3, repo.rows, list, batch, heartbeat, t);
    }

    // One tick of the accounting loop.
    method Account(t: Tick) returns (ghost list: seq<Client>, ghost deltas: seq<UserTraffic>, ghost ids: seq<int>)
      requires repo.Valid()
      modifies this, source, repo, rollup
      ensures repo.Valid() && Lists(list, old(repo.rows))
      ensures t.fetched.None? ==>
                deltas == [] && source.prevConn == old(source.prevConn) && source.lastSeen == old(source.lastSeen)
      ensures t.fetched.Some? ==>
                var dir := Directory(NamesOf(old(repo.rows)), t.lookupFailed);
                && Reports(deltas, ids, old(source.prevConn), dir, t.fetched.value)
                && source.prevConn == Tracked(dir, t.fetched.value)
                && source.lastSeen == Seen(dir, t.fetched.value, t.now)
      ensures if t.listOk && !(deltas == [] && source.lastSeen == map[])
              then
                && Ticked(old(repo.rows), repo.rows, list, BatchOf(list, deltas), source.lastSeen, t)
                && triggers == old(triggers) + if TickExpires(old(repo.rows), list, BatchOf(list, deltas), source.lastSeen, t) then 1 else 0
              else repo.rows == old(repo.rows) && triggers == old(triggers)
      ensures AddsToDay(old(rollup.days), rollup.days, t.day,
                        if t.listOk && t.addOk && t.dailyOk then Total(BatchOf(list, deltas)) else Bytes(0, 0))
    {
      hide *;
      NothingBooked(rollup.days, t.day);
      var listed := repo.List();
      list := listed;
      var dir := Directory(NamesOf(repo.rows), t.lookupFailed);
      var answer;
      answer, ids := source.UserDeltas(t.fetched, dir, t.now);
      var report := if answer.Some? then answer.value else [];
      deltas := report;
      var heartbeat := source.lastSeen;
      if |report| == 0 && heartbeat == map[] {
        NothingReported(list);
        return;
      }
      if !t.listOk {
        return;
      }
      Write(listed, report, heartbeat, t);
    }
  }
}
