// Bulk changes of clients on one panel: the transactional batch of
// internal/repo/sqlite/client_repo.go, bulkMutate of
// internal/services/client/service.go, the request decoding and result mapping
// of internal/transport/handler/client_handler.go, and the node endpoints of
// internal/transport/handler/node_handler.go.
module Bulk {
  import opened ClientRepo
  import Collections
  import Domain
  import opened Text

  datatype Err = ErrNotFound | ErrUnreachable | ErrRemote | ErrValidation | ErrInternal

  datatype Mutation = Delete | SetStatus(status: Domain.ClientStatus) | ResetTraffic
  {
    // Traffic counters are no part of the config, so a reset does not apply one.
    predicate Notifies() {
      !ResetTraffic?
    }
  }

  // What may go wrong on a panel during one bulk call: lookups that fail, and a
  // statement (or the commit) at which the transaction fails.
  datatype Env = Env(lookupFailed: set<int>, fault: Option<nat>)

  datatype Panel = Panel(rows: Rows, triggers: nat)

  function MutatedRow(c: Domain.Client, m: Mutation): Domain.Client {
    match m
    case Delete => c
    case SetStatus(status) => c.(status := status, enabled := status == Domain.Active)
    case ResetTraffic => c.(usedUp := 0, usedDown := 0)
  }

  // The table after changing every client of ids, and no other.
  function MutatedAll(rows: Rows, ids: set<int>, m: Mutation): Rows {
    if m.Delete? then rows - ids
    else map id | id in rows :: if id in ids then MutatedRow(rows[id], m) else rows[id]
  }

  // What the three changes do to the table, column by column.
  ghost predicate Effect(before: Rows, after: Rows, ids: set<int>, m: Mutation) {
    && (forall id :: id in after <==> id in before && !(m.Delete? && id in ids))
    && forall id :: id in after ==>
                      var c, d := before[id], after[id];
                      if id !in ids then d == c
                      else match m
                           case Delete => false
                           case SetStatus(status) =>
                             d == c.(status := status, enabled := d.enabled) && (d.enabled <==> status == Domain.Active)
                           case ResetTraffic => d == c.(usedUp := d.usedUp, usedDown := d.usedDown) && d.usedUp == 0 == d.usedDown
  }

  lemma {:induction false} MutationHasEffect(rows: Rows, ids: set<int>, m: Mutation)
    ensures Effect(rows, MutatedAll(rows, ids, m), ids, m)
  {
  }

  lemma {:induction false} EffectIsMutation(before: Rows, after: Rows, ids: set<int>, m: Mutation)
    requires Effect(before, after, ids, m)
    ensures after == MutatedAll(before, ids, m)
  {
    var mutated := MutatedAll(before, ids, m);
    assert forall id :: id in after <==> id in mutated;
    assert forall id :: id in after ==> after[id] == mutated[id];
  }

  function Elements(ids: seq<int>): set<int> {
    set id | id in ids
  }

  // ---- one transaction ---------------------------------------------------------

  predicate Applicable(rows: Rows, ids: seq<int>, m: Mutation) {
    && (forall id :: id in ids ==> id in rows)
    && (m.Delete? ==> forall i, j :: 0 <= i < j < |ids| ==> ids[i] != ids[j])
  }

  // All statements, or none: a missing row or a failing statement rolls back.
  method ExecBatch(rows: Rows, ids: seq<int>, m: Mutation, fault: Option<nat>) returns (after: Rows, err: Option<Err>)
    ensures err.Some? ==> after == rows
    ensures err.None? ==> after == MutatedAll(rows, Elements(ids), m) && Applicable(rows, ids, m)
    ensures err.None? ==> Effect(rows, after, Elements(ids), m)
    ensures fault.None? ==> (err.None? <==> Applicable(rows, ids, m))
  {
    hide MutatedAll, MutatedRow, Effect;
    MutationHasEffect(rows, Elements(ids), m);
    if |ids| == 0 {
      NothingMutated(rows, m);
      return rows, None;
    }
    var tx := rows;
    NothingMutated(rows, m);
    for i := 0 to |ids|
      invariant tx == MutatedAll(rows, Elements(ids[..i]), m)
      invariant Applicable(rows, ids[..i], m)
    {
      var id := ids[i];
      assert ids[..i + 1] == ids[..i] + [id];
      if fault == Some(i) {
        return rows, Some(ErrInternal);
      }
      Remaining(rows, ids[..i], m, id);
      if id !in tx {
        assert ids[i] == id;
        return rows, Some(ErrNotFound);
      }
      MutatesOneMore(rows, ids[..i], m, id);
      tx := if m.Delete? then tx - {id} else tx[id := MutatedRow(tx[id], m)];
    }
    assert ids[..|ids|] == ids;
    if fault.Some? {
      return rows, Some(ErrInternal);
    }
    after, err := tx, None;
  }

  lemma {:induction false} NothingMutated(rows: Rows, m: Mutation)
    ensures MutatedAll(rows, Elements([]), m) == rows
  {
  }

  lemma {:induction false} Remaining(rows: Rows, ids: seq<int>, m: Mutation, id: int)
    ensures id in MutatedAll(rows, Elements(ids), m) <==> id in rows && !(m.Delete? && id in ids)
  {
  }

  lemma {:induction false} MutatesOneMore(rows: Rows, ids: seq<int>, m: Mutation, id: int)
    requires id in MutatedAll(rows, Elements(ids), m)
    ensures var tx := MutatedAll(rows, Elements(ids), m);
            (if m.Delete? then tx - {id} else tx[id := MutatedRow(tx[id], m)]) == MutatedAll(rows, Elements(ids + [id]), m)
  {
    assert Elements(ids + [id]) == Elements(ids) + {id};
    if id in ids {
      assert !m.Delete?;
      assert MutatedRow(MutatedRow(rows[id], m), m) == MutatedRow(rows[id], m);
    }
  }

  // ---- the local service ---------------------------------------------------------

  datatype BulkResult = BulkResult(id: int, ok: bool, err: Option<Err>)

  predicate Changeable(rows: Rows, lookupFailed: set<int>, id: int) {
    id in rows && id !in lookupFailed && rows[id].Local()
  }

  function ChangeableIds(rows: Rows, lookupFailed: set<int>, ids: seq<int>): (valid: seq<int>)
    ensures forall id :: id in valid <==> id in ids && Changeable(rows, lookupFailed, id)
  {
    if |ids| == 0 then []
    else
      var front, last := ChangeableIds(rows, lookupFailed, ids[..|ids| - 1]), ids[|ids| - 1];
      assert ids == ids[..|ids| - 1] + [last];
      if Changeable(rows, lookupFailed, last) then front + [last] else front
  }

  function OkIds(results: seq<BulkResult>): set<int> {
    set r | r in results && r.ok :: r.id
  }

  // Every requested id gets its own answer, and an error exactly when it failed.
  ghost predicate Answers(results: seq<BulkResult>, ids: seq<int>) {
    && |results| == |ids|
    && forall i :: 0 <= i < |ids| ==> results[i].id == ids[i] && (results[i].ok <==> results[i].err.None?)
  }

  // One batch for all changeable clients: they succeed together, the table then
  // changes exactly on them, and one config apply is asked for; or nothing changes.
  method BulkMutate(p: Panel, ids: seq<int>, m: Mutation, env: Env) returns (after: Panel, results: seq<BulkResult>)
    ensures Answers(results, ids)
    ensures after.rows == MutatedAll(p.rows, OkIds(results), m) && Effect(p.rows, after.rows, OkIds(results), m)
    ensures after.triggers == p.triggers + if !m.ResetTraffic? && OkIds(results) != {} then 1 else 0
    ensures OkIds(results) == {} || OkIds(results) == Elements(ChangeableIds(p.rows, env.lookupFailed, ids))
    ensures env.fault.None? && Collections.Distinct(ids) ==> OkIds(results) == Elements(ChangeableIds(p.rows, env.lookupFailed, ids))
  {
    hide MutatedAll, Effect;
    MutationHasEffect(p.rows, {}, m);
    var pending: seq<BulkResult> := [];
    var valid: seq<int> := [];
    for i := 0 to |ids|
      invariant valid == ChangeableIds(p.rows, env.lookupFailed, ids[..i])
      invariant |pending| == i
      invariant forall j :: 0 <= j < i ==>
                              && pending[j].id == ids[j] && !pending[j].ok
                              && (pending[j].err.None? <==> Changeable(p.rows, env.lookupFailed, ids[j]))
    {
      var id := ids[i];
      assert ids[..i + 1][..i] == ids[..i];
      if id in env.lookupFailed {
        pending := pending + [BulkResult(id, false, Some(ErrInternal))];
        continue;
      }
      if id !in p.rows {
        pending := pending + [BulkResult(id, false, Some(ErrNotFound))];
        continue;
      }
      if p.rows[id].nodeId.Some? {
        pending := pending + [BulkResult(id, false, Some(ErrValidation))];
        continue;
      }
      pending := pending + [BulkResult(id, false, None)];
      valid := valid + [id];
    }
    assert ids[..|ids|] == ids;
    NothingMutated(p.rows, m);
    assert Elements([]) == {};
    if |valid| == 0 {
      NoneChangeable(pending, ids, p.rows, env.lookupFailed);
      return p, pending;
    }
    var rows, err := ExecBatch(p.rows, valid, m, env.fault);
    results := Settle(pending, err);
    if err.Some? {
      assert OkIds(results) == {};
      if Collections.Distinct(ids) {
        ChangeableDistinct(p.rows, env.lookupFailed, ids);
      }
      return p, results;
    }
    SettledOk(pending, results, ids, p.rows, env.lookupFailed);
    assert valid[0] in Elements(valid);
    after := Panel(rows, p.triggers + if m.Notifies() then 1 else 0);
  }

  // The entries still open get the batch's outcome.
  method Settle(pending: seq<BulkResult>, err: Option<Err>) returns (results: seq<BulkResult>)
    requires forall i :: 0 <= i < |pending| ==> !pending[i].ok
    ensures |results| == |pending|
    ensures forall i :: 0 <= i < |pending| ==>
                          results[i] == if pending[i].err.Some? then pending[i] else BulkResult(pending[i].id, err.None?, err)
  {
    results := pending;
    for i := 0 to |pending|
      invariant |results| == |pending|
      invariant forall j :: 0 <= j < i ==>
                              results[j] == if pending[j].err.Some? then pending[j] else BulkResult(pending[j].id, err.None?, err)
      invariant forall j :: i <= j < |pending| ==> results[j] == pending[j]
    {
      if pending[i].err.None? {
        results := results[i := BulkResult(pending[i].id, err.None?, err)];
      }
    }
  }

  lemma {:induction false} NoneChangeable(pending: seq<BulkResult>, ids: seq<int>, rows: Rows, lookupFailed: set<int>)
    requires |pending| == |ids| && ChangeableIds(rows, lookupFailed, ids) == []
    requires forall j :: 0 <= j < |ids| ==>
               && pending[j].id == ids[j] && !pending[j].ok
               && (pending[j].err.None? <==> Changeable(rows, lookupFailed, ids[j]))
    ensures Answers(pending, ids) && OkIds(pending) == {} && Elements(ChangeableIds(rows, lookupFailed, ids)) == {}
  {
    forall j | 0 <= j < |ids|
      ensures pending[j].err.Some?
    {
      assert ids[j] in ids && ids[j] !in ChangeableIds(rows, lookupFailed, ids);
    }
  }

  lemma {:induction false} SettledOk(pending: seq<BulkResult>, results: seq<BulkResult>, ids: seq<int>, rows: Rows, lookupFailed: set<int>)
    requires |pending| == |results| == |ids|
    requires forall j :: 0 <= j < |ids| ==>
               && pending[j].id == ids[j]
               && !pending[j].ok
               && (pending[j].err.None? <==> Changeable(rows, lookupFailed, ids[j]))
               && results[j] == if pending[j].err.Some? then pending[j] else BulkResult(ids[j], true, None)
    ensures OkIds(results) == Elements(ChangeableIds(rows, lookupFailed, ids))
  {
    forall id
      ensures id in OkIds(results) <==> id in ChangeableIds(rows, lookupFailed, ids)
    {
      if id in ids && Changeable(rows, lookupFailed, id) {
        var j :| 0 <= j < |ids| && ids[j] == id;
        assert results[j] in results;
      }
    }
  }

  lemma {:induction false} ChangeableDistinct(rows: Rows, lookupFailed: set<int>, ids: seq<int>)
    requires Collections.Distinct(ids)
    ensures Applicable(rows, ChangeableIds(rows, lookupFailed, ids), Delete)
  {
    if |ids| > 0 {
      var front, last := ids[..|ids| - 1], ids[|ids| - 1];
      ChangeableDistinct(rows, lookupFailed, front);
      assert last !in front;
    }
  }
}
