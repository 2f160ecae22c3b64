// Quota safety over runs: whatever sequence of writes the panel makes to its
// client rows, an enforcement pass leaves no exhausted client enabled, and a
// configuration compiled from that state serves none.
module Quota {
  import opened Bulk
  import opened ClientRepo
  import ClientService
  import Collections
  import Conservation
  import opened Domain
  import opened Generator
  import opened Routing
  import opened Worker

  // Every kind of write to the clients table.
  datatype Write =
    | Creates(input: ClientService.CreateInput, binds: seq<int>, secrets: ClientService.Secrets, id: int)
    | Updates(id: int, change: ClientService.UpdateInput)
    | Mutates(ids: set<int>, m: Mutation) // one client, or a bulk change of many
    | Ticks(list: seq<Client>, batch: seq<TrafficDelta>, seen: map<string, Time>, tick: Tick)
    | Enforces(now: Time, failed: set<int>)
    | Caches(id: int, row: Client) // a client synced from a node

  function After(rows: Rows, w: Write): Rows {
    match w
    case Creates(input, binds, secrets, id) =>
      if |binds| == 0 || id in rows then rows else rows[id := ClientService.NewClient(input, binds, secrets, id)]
    case Updates(id, change) =>
      if id !in rows || !rows[id].Local() then rows else rows[id := Edited(rows[id], ClientService.Applied(rows[id], change))]
    case Mutates(ids, m) => MutatedAll(rows, ids, m)
    case Ticks(list, batch, seen, tick) => map id | id in rows :: RowAfterTick(rows[id], list, batch, seen, tick)
    case Enforces(now, failed) => map id | id in rows :: EnforcedRow(rows[id], now, failed)
    case Caches(id, row) => if row.Local() || (id in rows && rows[id].Local()) then rows else rows[id := row]
  }

  function AfterAll(rows: Rows, ws: seq<Write>): Rows {
    if |ws| == 0 then rows else After(AfterAll(rows, ws[..|ws| - 1]), ws[|ws| - 1])
  }

  // A local client is enabled exactly when its status is active.
  predicate AlignedRow(c: Client) {
    c.Local() ==> (c.enabled <==> c.status == Active)
  }

  ghost predicate Aligned(rows: Rows) {
    forall id :: id in rows ==> AlignedRow(rows[id])
  }

  lemma {:induction false} TickAligned(c: Client, list: seq<Client>, batch: seq<TrafficDelta>, seen: map<string, Time>, t: Tick)
    requires AlignedRow(c)
    ensures AlignedRow(RowAfterTick(c, list, batch, seen, t))
  {
    hide Conservation.RowFor, InBatch, Collections.Sum;
    var marked := MarkedRow(c, batch, t);
    var credited := CreditedRowAfter(marked, batch, t.now);
    assert AlignedRow(credited);
    assert AlignedRow(BeatenRow(credited, list, batch, seen, t.lastUsedFailed));
  }

  lemma {:induction false} WriteKeepsAligned(rows: Rows, w: Write)
    requires Aligned(rows)
    ensures Aligned(After(rows, w))
  {
    hide RowAfterTick, NormalizeInboundSet, ClientService.UpdateBinds, MustExpire;
    if w.Ticks? {
      forall id | id in rows {
        TickAligned(rows[id], w.list, w.batch, w.seen, w.tick);
      }
    }
  }

  lemma {:induction false} RunKeepsAligned(rows: Rows, ws: seq<Write>)
    requires Aligned(rows)
    ensures Aligned(AfterAll(rows, ws))
  {
    if |ws| > 0 {
      RunKeepsAligned(rows, ws[..|ws| - 1]);
      WriteKeepsAligned(AfterAll(rows, ws[..|ws| - 1]), ws[|ws| - 1]);
    }
  }

  // Changing one client is the bulk change of one.
  lemma {:induction false} OneIsMany(rows: Rows, id: int, status: ClientStatus)
    requires id in rows
    ensures After(rows, Mutates({id}, SetStatus(status))) == rows[id := rows[id].(status := status, enabled := status == Active)]
    ensures After(rows, Mutates({id}, ResetTraffic)) == rows[id := rows[id].(usedUp := 0, usedDown := 0)]
    ensures After(rows, Mutates({id}, Delete)) == rows - {id}
  {
  }

  // A bulk change, whatever it reports as done, keeps the columns aligned.
  lemma {:induction false} BulkKeepsAligned(p: Panel, after: Panel, results: seq<BulkResult>, m: Mutation)
    requires Aligned(p.rows) && Effect(p.rows, after.rows, OkIds(results), m)
    ensures Aligned(after.rows)
    ensures exists w: Write :: after.rows == After(p.rows, w)
  {
    EffectIsMutation(p.rows, after.rows, OkIds(results), m);
    assert after.rows == After(p.rows, Mutates(OkIds(results), m));
    WriteKeepsAligned(p.rows, Mutates(OkIds(results), m));
  }

  // No local client that may connect has expired or used up its quota at now.
  ghost predicate NoneExhausted(rows: Rows, now: Time) {
    forall id :: id in rows && rows[id].nodeId.None? && rows[id].enabled ==> !Exhausted(rows[id], now)
  }

  // After any run, an enforcement pass whose writes succeed leaves no exhausted
  // client enabled; it changes nothing about the clients that are not exhausted.
  lemma {:induction false} EnforcementIsComplete(rows: Rows, ws: seq<Write>, after: Rows, now: Time)
    requires Aligned(rows) && Enforced(AfterAll(rows, ws), after, now, {})
    ensures NoneExhausted(after, now)
    ensures var before := AfterAll(rows, ws);
            && after.Keys == before.Keys
            && forall id :: id in before ==>
                              var c := before[id];
                              after[id] == if c.enabled && c.status == Active && Exhausted(c, now)
                                           then c.(status := Expired, enabled := false) else c
  {
    RunKeepsAligned(rows, ws);
  }

  // What ListEnabled returns: the enabled local rows, in some order.
  ghost predicate ListsEnabled(clients: seq<Client>, rows: Rows) {
    && (forall c :: c in clients ==> c.id in rows && rows[c.id] == c && c.enabled && c.Local())
    && (forall id :: id in rows && rows[id].enabled && rows[id].Local() ==> rows[id] in clients)
  }

  // A configuration compiled from that state serves no exhausted client: none
  // is in a user list, so none has an outbound or a rule.
  lemma {:induction false} RenderServesNoExhausted(inbounds: seq<Inbound>, clients: seq<Client>, rows: Rows, now: Time, c: Client, ib: int)
    requires ValidInput(inbounds, clients) && ListsEnabled(clients, rows) && NoneExhausted(rows, now)
    requires c in Members(clients, ib) || c in Emitted(inbounds, clients)
    ensures !Exhausted(c, now)
  {
    hide Members, Emitted;
    MembersExactlyOnce(inbounds, clients, ib);
    EmittedExactlyOnce(inbounds, inbounds, clients);
    assert c in clients;
  }
}
