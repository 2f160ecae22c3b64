// One bulk request over the local table and any number of remote panels:
// bulkClients of internal/services/node/service.go and runBulk of
// internal/transport/handler/client_handler.go.
module CrossPanel {
  import opened Bulk
  import opened BulkProtocol
  import opened ClientRepo
  import opened Collections
  import Domain
  import opened Text

  // What the network does to one call; a lost answer still reached the panel.
  datatype Net = Unreachable | AnswerLost | Delivered

  // nodeError: why the node cannot be called at all (unknown, disabled, no token).
  datatype RemoteEnv = RemoteEnv(nodeError: Option<Err>, net: Net, lookupFailed: set<int>, remote: Env, cacheFault: Option<nat>)

  predicate Eligible(rows: Rows, nodeId: int, lookupFailed: set<int>, id: int) {
    id in rows && id !in lookupFailed && rows[id].nodeId == Some(nodeId) && rows[id].remoteId != ""
  }

  // The unique index on (node_id, remote_id)
  ghost predicate UniqueRemote(rows: Rows) {
    forall a, b :: a in rows && b in rows && a != b && rows[a].nodeId.Some? && rows[a].nodeId == rows[b].nodeId
                   && rows[a].remoteId != "" ==>
                     rows[a].remoteId != rows[b].remoteId
  }

  // The answer for a remote id: the first entry that carries it.
  function AnswerFor(answer: seq<Entry>, remoteId: string): (r: Option<Entry>)
    ensures r.Some? ==> r.value in answer && r.value.id == remoteId
  {
    if |answer| == 0 then None
    else
      var front, last := AnswerFor(answer[..|answer| - 1], remoteId), answer[|answer| - 1];
      if front.Some? then front else if last.id == remoteId then Some(last) else None
  }

  function Judged(id: int, a: Option<Entry>): BulkResult {
    match a
    case None => BulkResult(id, false, Some(ErrRemote))
    case Some(e) => if e.ok then BulkResult(id, true, None) else BulkResult(id, false, Some(RemoteError(e.error)))
  }

  // pending, remoteIds and index describe the eligible ones among ids.
  ghost predicate Prepared(rows: Rows, nodeId: int, lookupFailed: set<int>, ids: seq<int>, pending: seq<BulkResult>,
                           remoteIds: seq<string>, index: map<string, nat>)
  {
    && |pending| == |ids|
    && (forall j :: 0 <= j < |ids| ==>
          && pending[j].id == ids[j] && !pending[j].ok
          && (pending[j].err.None? <==> Eligible(rows, nodeId, lookupFailed, ids[j]))
          && (pending[j].err.None? ==> rows[ids[j]].remoteId in index && index[rows[ids[j]].remoteId] == j))
    && (forall rid :: rid in index ==>
          && index[rid] < |ids| && pending[index[rid]].err.None?
          && ids[index[rid]] in rows && rows[ids[index[rid]]].remoteId == rid)
    && (forall rid :: rid in remoteIds <==> rid in index)
  }

  lemma {:induction false} NotIndexedYet(rows: Rows, nodeId: int, lookupFailed: set<int>, ids: seq<int>, i: nat, pending: seq<BulkResult>,
                                         remoteIds: seq<string>, index: map<string, nat>)
    requires UniqueRemote(rows) && Distinct(ids) && i < |ids| && Eligible(rows, nodeId, lookupFailed, ids[i])
    requires Prepared(rows, nodeId, lookupFailed, ids[..i], pending, remoteIds, index)
    ensures rows[ids[i]].remoteId !in index
  {
  }

  lemma {:induction false} NonePrepared(rows: Rows, nodeId: int, lookupFailed: set<int>)
    ensures Prepared(rows, nodeId, lookupFailed, [], [], [], map[])
  {
  }

  lemma {:induction false} RefusedOneMore(rows: Rows, nodeId: int, lookupFailed: set<int>, ids: seq<int>, pending: seq<BulkResult>,
                                          remoteIds: seq<string>, index: map<string, nat>, id: int, err: Err)
    requires Prepared(rows, nodeId, lookupFailed, ids, pending, remoteIds, index) && !Eligible(rows, nodeId, lookupFailed, id)
    ensures Prepared(rows, nodeId, lookupFailed, ids + [id], pending + [BulkResult(id, false, Some(err))], remoteIds, index)
  {
    hide Eligible;
  }

  lemma {:induction false} OpenOneMore(rows: Rows, nodeId: int, lookupFailed: set<int>, ids: seq<int>, pending: seq<BulkResult>,
                                       remoteIds: seq<string>, index: map<string, nat>, id: int)
    requires Prepared(rows, nodeId, lookupFailed, ids, pending, remoteIds, index) && Eligible(rows, nodeId, lookupFailed, id)
    requires id in rows && rows[id].remoteId !in index
    ensures var rid := rows[id].remoteId;
            Prepared(rows, nodeId, lookupFailed, ids + [id], pending + [BulkResult(id, false, None)], remoteIds + [rid], index[rid := |ids|])
  {
    hide Eligible;
    var rid := rows[id].remoteId;
    assert forall x :: x in remoteIds + [rid] <==> x in remoteIds || x == rid;
  }

  method Prepare(rows: Rows, nodeId: int, lookupFailed: set<int>, ids: seq<int>)
    returns (pending: seq<BulkResult>, remoteIds: seq<string>, index: map<string, nat>)
    requires UniqueRemote(rows) && Distinct(ids)
    ensures Prepared(rows, nodeId, lookupFailed, ids, pending, remoteIds, index)
  {
    hide UniqueRemote, Distinct, Prepared;
    pending, remoteIds, index := [], [], map[];
    NonePrepared(rows, nodeId, lookupFailed);
    for i := 0 to |ids|
      invariant Prepared(rows, nodeId, lookupFailed, ids[..i], pending, remoteIds, index)
    {
      var id := ids[i];
      assert ids[..i + 1] == ids[..i] + [id];
      if id in lookupFailed {
        RefusedOneMore(rows, nodeId, lookupFailed, ids[..i], pending, remoteIds, index, id, ErrInternal);
        pending := pending + [BulkResult(id, false, Some(ErrInternal))];
        continue;
      }
      if id !in rows {
        RefusedOneMore(rows, nodeId, lookupFailed, ids[..i], pending, remoteIds, index, id, ErrNotFound);
        pending := pending + [BulkResult(id, false, Some(ErrNotFound))];
        continue;
      }
      var c := rows[id];
      if c.nodeId.None? || c.remoteId == "" {
        RefusedOneMore(rows, nodeId, lookupFailed, ids[..i], pending, remoteIds, index, id, ErrValidation);
        pending := pending + [BulkResult(id, false, Some(ErrValidation))];
        continue;
      }
      if c.nodeId.value != nodeId {
        RefusedOneMore(rows, nodeId, lookupFailed, ids[..i], pending, remoteIds, index, id, ErrValidation);
        pending := pending + [BulkResult(id, false, Some(ErrValidation))];
        continue;
      }
      NotIndexedYet(rows, nodeId, lookupFailed, ids, i, pending, remoteIds, index);
      OpenOneMore(rows, nodeId, lookupFailed, ids[..i], pending, remoteIds, index, id);
      pending := pending + [BulkResult(id, false, None)];
      remoteIds := remoteIds + [c.remoteId];
      index := index[c.remoteId := i];
    }
    assert ids[..|ids|] == ids;
  }

  // results judges every eligible id by the answer's entry for it.
  ghost predicate Judges(rows: Rows, ids: seq<int>, pending: seq<BulkResult>, answer: seq<Entry>, results: seq<BulkResult>)
    requires |pending| == |ids| && forall j :: 0 <= j < |ids| && pending[j].err.None? ==> ids[j] in rows
  {
    && |results| == |ids|
    && forall j :: 0 <= j < |ids| ==>
                     results[j] == if pending[j].err.Some? then pending[j]
                                   else Judged(ids[j], AnswerFor(answer, rows[ids[j]].remoteId))
  }

  // results after the entries of answer have been looked at.
  ghost predicate JudgesListed(rows: Rows, ids: seq<int>, pending: seq<BulkResult>, answer: seq<Entry>, results: seq<BulkResult>)
    requires |pending| == |ids| && forall j :: 0 <= j < |ids| && pending[j].err.None? ==> ids[j] in rows
  {
    && |results| == |ids|
    && forall j :: 0 <= j < |ids| ==>
                     results[j] == if pending[j].err.Some? || AnswerFor(answer, rows[ids[j]].remoteId).None? then pending[j]
                                   else Judged(ids[j], AnswerFor(answer, rows[ids[j]].remoteId))
  }

  method ReadAnswers(rows: Rows, nodeId: int, lookupFailed: set<int>, ids: seq<int>, pending: seq<BulkResult>,
                     remoteIds: seq<string>, index: map<string, nat>, answer: seq<Entry>)
    returns (results: seq<BulkResult>, successIds: seq<int>)
    requires Prepared(rows, nodeId, lookupFailed, ids, pending, remoteIds, index) && Distinct(ids)
    ensures JudgesListed(rows, ids, pending, answer, results)
    ensures forall id :: id in successIds <==> exists j :: 0 <= j < |ids| && results[j].ok && ids[j] == id
    ensures Distinct(successIds)
  {
    hide Eligible, RemoteError;
    results, successIds := pending, [];
    var seen: set<string> := {};
    for k := 0 to |answer|
      invariant forall rid :: rid in seen <==> rid in index && AnswerFor(answer[..k], rid).Some?
      invariant JudgesListed(rows, ids, pending, answer[..k], results)
      invariant forall id :: id in successIds <==> exists j :: 0 <= j < |ids| && results[j].ok && ids[j] == id
      invariant Distinct(successIds)
    {
      var e := answer[k];
      assert answer[..k + 1][..k] == answer[..k];
      if e.id !in index || e.id in seen {
        continue;
      }
      ghost var before := results;
      var i := index[e.id];
      seen := seen + {e.id};
      assert !before[i].ok && ids[i] !in successIds;
      if e.ok {
        results := results[i := BulkResult(results[i].id, true, None)];
        successIds := successIds + [results[i].id];
      } else {
        results := results[i := BulkResult(results[i].id, false, Some(RemoteError(e.error)))];
      }
      assert forall j :: 0 <= j < |ids| && j != i ==> results[j] == before[j];
    }
    assert answer[..|answer|] == answer;
  }

  // The eligible clients the answer does not mention count as failed.
  method FailMissing(rows: Rows, ids: seq<int>, pending: seq<BulkResult>, answer: seq<Entry>, read: seq<BulkResult>)
    returns (results: seq<BulkResult>)
    requires |pending| == |ids| && forall j :: 0 <= j < |ids| && pending[j].err.None? ==> ids[j] in rows
    requires forall j :: 0 <= j < |ids| ==> pending[j].id == ids[j] && !pending[j].ok
    requires JudgesListed(rows, ids, pending, answer, read)
    ensures Judges(rows, ids, pending, answer, results)
    ensures forall j :: 0 <= j < |ids| ==> (results[j].ok <==> read[j].ok)
  {
    results := read;
    for j := 0 to |ids|
      invariant |results| == |ids|
      invariant forall x :: j <= x < |ids| ==> results[x] == read[x]
      invariant forall x :: 0 <= x < j ==>
                              results[x] == if read[x].err.None? && !read[x].ok then BulkResult(read[x].id, false, Some(ErrRemote))
                                            else read[x]
    {
      if results[j].err.None? && !results[j].ok {
        results := results[j := BulkResult(results[j].id, false, Some(ErrRemote))];
      }
    }
  }

  // The ids a remote panel changed, seen from this panel's rows.
  ghost predicate ChangedRemotely(rows: Rows, nodeId: int, changed: set<int>, id: int) {
    && id in rows && rows[id].nodeId == Some(nodeId)
    && ParseId(rows[id].remoteId).Some? && ParseId(rows[id].remoteId).value in changed
  }

  // Nothing goes wrong on the way to the node, on it, or in the cache.
  predicate Clean(env: RemoteEnv) {
    env.nodeError.None? && env.net.Delivered? && env.remote.fault.None? && env.cacheFault.None?
  }

  // Remote ids are spelled as a panel spells its own ids.
  predicate OwnSpelling(raw: string) {
    ParseId(raw).Some? && raw == FormatInt(ParseId(raw).value)
  }

  ghost predicate AllOwnSpelling(rows: Rows, nodeId: int, lookupFailed: set<int>, ids: seq<int>) {
    forall id :: id in ids && Eligible(rows, nodeId, lookupFailed, id) ==> OwnSpelling(rows[id].remoteId)
  }

  // A cached client of the node that the node can change.
  predicate RemoteOk(rows: Rows, remote: Panel, nodeId: int, env: RemoteEnv, id: int) {
    && Eligible(rows, nodeId, env.lookupFailed, id)
    && ParseId(rows[id].remoteId).Some?
    && Changeable(remote.rows, env.remote.lookupFailed, ParseId(rows[id].remoteId).value)
  }

  function RemoteOks(rows: Rows, remote: Panel, nodeId: int, env: RemoteEnv, ids: seq<int>): set<int> {
    set id | id in ids && RemoteOk(rows, remote, nodeId, env, id)
  }

  // Mutates the clients cached from one node: first on the node, then in the
  // cache, which changes exactly on the ids reported as changed here; and those
  // the node has changed.
  method BulkClients(rows: Rows, remote: Panel, nodeId: int, ids: seq<int>, m: Mutation, env: RemoteEnv)
    returns (after: Rows, remoteAfter: Panel, results: seq<BulkResult>, ghost changed: set<int>)
    requires UniqueRemote(rows) && Distinct(ids)
    ensures Answers(results, ids)
    ensures after == MutatedAll(rows, OkIds(results), m)
    ensures forall id :: id in OkIds(results) ==> id in ids && ChangedRemotely(rows, nodeId, changed, id)
    ensures remoteAfter.rows == MutatedAll(remote.rows, changed, m)
    ensures remoteAfter.triggers == remote.triggers + if !m.ResetTraffic? && changed != {} then 1 else 0
    ensures forall id :: id in changed ==> id in remote.rows && remote.rows[id].Local()
    ensures env.nodeError.Some? || env.net.Unreachable? ==> changed == {}
    ensures Clean(env) && Settable(m) && AllOwnSpelling(rows, nodeId, env.lookupFailed, ids) ==>
              OkIds(results) == RemoteOks(rows, remote, nodeId, env, ids)
  {
    hide MutatedAll, Eligible, ParseId, Judges, JudgesListed, UniqueRemote, FirstTargets, ChangedRemotely, OkIds, OkSet, Prepared, Answers,
      AllOwnSpelling, RemoteOks, RemoteOk, OwnSpelling, ChangeableTargets, IsPositiveId, Applicable;
    after, remoteAfter, changed := rows, remote, {};
    NoneOk(remote.rows, [], m);
    if !Settable(m) {
      results := FailAll(ids, ErrValidation);
      NoneDone(rows, ids, results, m);
      return;
    }
    var pending, remoteIds, index := Prepare(rows, nodeId, env.lookupFailed, ids);
    Pending(rows, nodeId, env.lookupFailed, ids, pending, remoteIds, index);
    if |remoteIds| == 0 {
      results := pending;
      NonePending(rows, nodeId, env.lookupFailed, ids, pending, remoteIds, index);
      NoneEligible(rows, remote, nodeId, env, ids);
      NoneOk(rows, results, m);
      return;
    }
    if env.nodeError.Some? {
      results := Settle(pending, env.nodeError);
      NoneDone(rows, ids, results, m);
      return;
    }
    if env.net.Unreachable? {
      results := Settle(pending, Some(ErrUnreachable));
      NoneDone(rows, ids, results, m);
      return;
    }
    var answer;
    remoteAfter, answer := NodeBulk(remote, remoteIds, m, env.remote);
    changed := if answer.Some? then OkSet(answer.value, FirstTargets(remoteIds)) else {};
    ChangeableAreLocal(remote.rows, env.remote.lookupFailed, FirstTargets(remoteIds));
    OwnSpellingParses(rows, nodeId, env.lookupFailed, ids, pending, remoteIds, index);
    ParseIdsIff(remoteIds);
    if env.net.AnswerLost? || answer.None? {
      results := Settle(pending, Some(if env.net.AnswerLost? then ErrUnreachable else ErrRemote));
      NoneDone(rows, ids, results, m);
      return;
    }
    AnswerTells(remoteIds, answer.value);
    after, results := CacheAnswers(rows, remote, nodeId, ids, m, env, pending, remoteIds, index, answer.value, changed);
  }

  // What the node answered becomes the results, and the cache follows.
  method CacheAnswers(rows: Rows, ghost remote: Panel, nodeId: int, ids: seq<int>, m: Mutation, env: RemoteEnv, pending: seq<BulkResult>,
                      remoteIds: seq<string>, index: map<string, nat>, answer: seq<Entry>, ghost changed: set<int>)
    returns (after: Rows, results: seq<BulkResult>)
    requires Distinct(ids) && Prepared(rows, nodeId, env.lookupFailed, ids, pending, remoteIds, index)
    requires AnswersTargets(answer, FirstTargets(remoteIds), changed)
    requires env.remote.fault.None? ==> changed == ChangeableTargets(remote.rows, env.remote.lookupFailed, FirstTargets(remoteIds))
    ensures Answers(results, ids)
    ensures after == MutatedAll(rows, OkIds(results), m)
    ensures forall id :: id in OkIds(results) ==> id in ids && ChangedRemotely(rows, nodeId, changed, id)
    ensures Clean(env) && AllOwnSpelling(rows, nodeId, env.lookupFailed, ids) ==>
              OkIds(results) == RemoteOks(rows, remote, nodeId, env, ids)
  {
    hide *;
    Pending(rows, nodeId, env.lookupFailed, ids, pending, remoteIds, index);
    var read, successIds := ReadAnswers(rows, nodeId, env.lookupFailed, ids, pending, remoteIds, index, answer);
    var judged := FailMissing(rows, ids, pending, answer, read);
    JudgedAnswers(rows, nodeId, env.lookupFailed, ids, pending, remoteIds, index, answer, judged, changed);
    JudgedExactly(rows, remote, nodeId, env, ids, pending, remoteIds, index, answer, judged, changed);
    SuccessIsOk(ids, judged, successIds);
    SuccessApplies(rows, nodeId, changed, judged, successIds, m);
    var cached, err := ExecBatch(rows, successIds, m, env.cacheFault);
    CleanIs(env);
    if err.Some? {
      results := Withdraw(judged, err.value);
      NoneOk(rows, results, m);
      WithdrawnAnswers(ids, judged, results);
      return rows, results;
    }
    after, results := cached, judged;
  }

  lemma {:induction false} CleanIs(env: RemoteEnv)
    ensures Clean(env) ==> env.nodeError.None? && env.net.Delivered? && env.remote.fault.None? && env.cacheFault.None?
  {
  }

  // The answer has one entry per target, in order, and says which were changed.
  ghost predicate AnswersTargets(answer: seq<Entry>, ts: seq<Target>, changed: set<int>) {
    |answer| == |ts| && forall i :: 0 <= i < |ts| ==> answer[i].id == ts[i].rawId && (answer[i].ok <==> ts[i].id in changed)
  }

  // No client is eligible.
  lemma {:induction false} NoneEligible(rows: Rows, remote: Panel, nodeId: int, env: RemoteEnv, ids: seq<int>)
    requires forall id :: id in ids ==> !Eligible(rows, nodeId, env.lookupFailed, id)
    ensures RemoteOks(rows, remote, nodeId, env, ids) == {}
  {
  }

  lemma {:induction false} OwnSpellingParses(rows: Rows, nodeId: int, lookupFailed: set<int>, ids: seq<int>, pending: seq<BulkResult>,
                                          remoteIds: seq<string>, index: map<string, nat>)
    requires Prepared(rows, nodeId, lookupFailed, ids, pending, remoteIds, index)
    ensures AllOwnSpelling(rows, nodeId, lookupFailed, ids) ==>
              forall rid :: rid in remoteIds ==> OwnSpelling(rid) && ParseId(rid).Some?
  {
    hide ParseId, Eligible;
    if AllOwnSpelling(rows, nodeId, lookupFailed, ids) {
      forall rid | rid in remoteIds
        ensures OwnSpelling(rid)
      {
        assert rid in index && pending[index[rid]].err.None?;
        var id := ids[index[rid]];
        assert id in ids && Eligible(rows, nodeId, lookupFailed, id);
      }
    }
  }

  lemma {:induction false} SuccessApplies(rows: Rows, nodeId: int, changed: set<int>, judged: seq<BulkResult>, successIds: seq<int>,
                                          m: Mutation)
    requires Distinct(successIds) && Elements(successIds) == OkIds(judged)
    requires forall id :: id in OkIds(judged) ==> ChangedRemotely(rows, nodeId, changed, id)
    ensures Applicable(rows, successIds, m)
  {
    hide OkIds;
    forall id | id in successIds
      ensures id in rows
    {
      assert id in Elements(successIds);
    }
  }

  // The answer has one entry for a remote id, and it is the one of its target.
  lemma {:induction false} EntryOf(remoteIds: seq<string>, answer: seq<Entry>, rid: string, i: nat)
    requires var ts := FirstTargets(remoteIds);
             |answer| == |ts| && i < |ts| && (forall k :: 0 <= k < |ts| ==> answer[k].id == ts[k].rawId) && ts[i].rawId == rid
    ensures AnswerFor(answer, rid) == Some(answer[i])
  {
    TargetsExact(remoteIds);
    hide ParseId, FirstTargets;
    var ts := FirstTargets(remoteIds);
    assert ts[i] in ts;
    forall k | 0 <= k < |ts| && answer[k].id == rid
      ensures k == i
    {
      assert ts[k] in ts && ts[k].id == ts[i].id;
    }
    OnlyAnswer(answer, rid, i);
  }

  lemma {:induction false} OnlyAnswer(answer: seq<Entry>, rid: string, i: nat)
    requires i < |answer| && answer[i].id == rid && forall k :: 0 <= k < |answer| && answer[k].id == rid ==> k == i
    ensures AnswerFor(answer, rid) == Some(answer[i])
  {
    if i < |answer| - 1 {
      OnlyAnswer(answer[..|answer| - 1], rid, i);
    }
  }

  // The target a remote id became keeps its spelling.
  lemma {:induction false} TargetOf(remoteIds: seq<string>, rid: string) returns (i: nat)
    requires rid in remoteIds && forall r :: r in remoteIds ==> OwnSpelling(r)
    ensures var ts := FirstTargets(remoteIds);
            i < |ts| && ts[i].rawId == rid && ParseId(rid) == Some(ts[i].id)
  {
    TargetsExact(remoteIds);
    hide ParseId, FirstTargets;
    var ts := FirstTargets(remoteIds);
    assert OwnSpelling(rid);
    var t :| t in ts && t.id == ParseId(rid).value;
    assert OwnSpelling(t.rawId);
    i :| 0 <= i < |ts| && ts[i] == t;
  }

  // When nothing goes wrong, the clients reported as changed are exactly those the node can change.
  lemma {:induction false} JudgedExactly(rows: Rows, remote: Panel, nodeId: int, env: RemoteEnv, ids: seq<int>, pending: seq<BulkResult>,
                                         remoteIds: seq<string>, index: map<string, nat>, answer: seq<Entry>, results: seq<BulkResult>,
                                         changed: set<int>)
    requires Prepared(rows, nodeId, env.lookupFailed, ids, pending, remoteIds, index)
    requires Judges(rows, ids, pending, answer, results) && Answers(results, ids)
    requires AnswersTargets(answer, FirstTargets(remoteIds), changed)
    ensures AllOwnSpelling(rows, nodeId, env.lookupFailed, ids)
            && changed == ChangeableTargets(remote.rows, env.remote.lookupFailed, FirstTargets(remoteIds)) ==>
              OkIds(results) == RemoteOks(rows, remote, nodeId, env, ids)
  {
    if !(AllOwnSpelling(rows, nodeId, env.lookupFailed, ids)
         && changed == ChangeableTargets(remote.rows, env.remote.lookupFailed, FirstTargets(remoteIds))) {
      return;
    }
    hide ParseId, FirstTargets, Changeable, OwnSpelling, Eligible, RemoteOk, ChangeableTargets, AllOwnSpelling;
    OwnSpellingParses(rows, nodeId, env.lookupFailed, ids, pending, remoteIds, index);
    forall j | 0 <= j < |ids|
      ensures results[j].ok <==> RemoteOk(rows, remote, nodeId, env, ids[j])
    {
      if pending[j].err.None? {
        var rid := rows[ids[j]].remoteId;
        assert rid in remoteIds;
        var i := TargetOf(remoteIds, rid);
        EntryOf(remoteIds, answer, rid, i);
        TargetChanged(remote, env, FirstTargets(remoteIds), i);
        RemoteOkIs(rows, remote, nodeId, env, ids[j]);
      } else {
        RemoteOkIs(rows, remote, nodeId, env, ids[j]);
      }
    }
    OksAre(rows, remote, nodeId, env, ids, results);
  }

  lemma {:induction false} RemoteOkIs(rows: Rows, remote: Panel, nodeId: int, env: RemoteEnv, id: int)
    ensures RemoteOk(rows, remote, nodeId, env, id) ==> Eligible(rows, nodeId, env.lookupFailed, id)
    ensures Eligible(rows, nodeId, env.lookupFailed, id) ==>
              (RemoteOk(rows, remote, nodeId, env, id) <==>
               && ParseId(rows[id].remoteId).Some?
               && Changeable(remote.rows, env.remote.lookupFailed, ParseId(rows[id].remoteId).value))
  {
  }

  lemma {:induction false} TargetChanged(remote: Panel, env: RemoteEnv, ts: seq<Target>, i: nat)
    requires i < |ts|
    ensures ts[i].id in ChangeableTargets(remote.rows, env.remote.lookupFailed, ts) <==>
            Changeable(remote.rows, env.remote.lookupFailed, ts[i].id)
  {
    assert ts[i] in ts;
  }

  lemma {:induction false} OksAre(rows: Rows, remote: Panel, nodeId: int, env: RemoteEnv, ids: seq<int>, results: seq<BulkResult>)
    requires Answers(results, ids) && forall j :: 0 <= j < |ids| ==> (results[j].ok <==> RemoteOk(rows, remote, nodeId, env, ids[j]))
    ensures OkIds(results) == RemoteOks(rows, remote, nodeId, env, ids)
  {
    hide RemoteOk;
    forall id | id in RemoteOks(rows, remote, nodeId, env, ids)
      ensures id in OkIds(results)
    {
      var j :| 0 <= j < |ids| && ids[j] == id;
      assert results[j] in results;
    }
  }

  // After a failed cache batch nothing is reported as done.
  method Withdraw(judged: seq<BulkResult>, err: Err) returns (results: seq<BulkResult>)
    ensures |results| == |judged|
    ensures forall j :: 0 <= j < |judged| ==>
                          results[j] == if judged[j].ok then BulkResult(judged[j].id, false, Some(err)) else judged[j]
  {
    results := judged;
    for j := 0 to |judged|
      invariant |results| == |judged|
      invariant forall x :: j <= x < |judged| ==> results[x] == judged[x]
      invariant forall x :: 0 <= x < j ==>
                              results[x] == if judged[x].ok then BulkResult(judged[x].id, false, Some(err)) else judged[x]
    {
      if results[j].ok {
        results := results[j := BulkResult(results[j].id, false, Some(err))];
      }
    }
  }

  lemma {:induction false} NonePending(rows: Rows, nodeId: int, lookupFailed: set<int>, ids: seq<int>, pending: seq<BulkResult>,
                                       remoteIds: seq<string>, index: map<string, nat>)
    requires Prepared(rows, nodeId, lookupFailed, ids, pending, remoteIds, index) && |remoteIds| == 0
    ensures Answers(pending, ids) && OkIds(pending) == {}
    ensures forall id :: id in ids ==> !Eligible(rows, nodeId, lookupFailed, id)
  {
    assert forall rid :: rid !in index;
    hide Eligible;
    forall id | id in ids
      ensures !Eligible(rows, nodeId, lookupFailed, id)
    {
      var j :| 0 <= j < |ids| && ids[j] == id;
      assert pending[j].err.Some?;
    }
  }

  lemma {:induction false} NoneOk(rows: Rows, results: seq<BulkResult>, m: Mutation)
    requires forall j :: 0 <= j < |results| ==> !results[j].ok
    ensures OkIds(results) == {} && MutatedAll(rows, OkIds(results), m) == rows
  {
  }

  lemma {:induction false} NoneDone(rows: Rows, ids: seq<int>, results: seq<BulkResult>, m: Mutation)
    requires |results| == |ids|
    requires forall j :: 0 <= j < |ids| ==> results[j].id == ids[j] && !results[j].ok && results[j].err.Some?
    ensures Answers(results, ids) && OkIds(results) == {} && MutatedAll(rows, OkIds(results), m) == rows
  {
    NoneOk(rows, results, m);
  }

  lemma {:induction false} Pending(rows: Rows, nodeId: int, lookupFailed: set<int>, ids: seq<int>, pending: seq<BulkResult>,
                                   remoteIds: seq<string>, index: map<string, nat>)
    requires Prepared(rows, nodeId, lookupFailed, ids, pending, remoteIds, index)
    ensures |pending| == |ids|
    ensures forall j :: 0 <= j < |ids| ==>
                          pending[j].id == ids[j] && !pending[j].ok && (pending[j].err.None? ==> ids[j] in rows)
  {
    hide Eligible;
    forall j | 0 <= j < |ids| && pending[j].err.None?
      ensures ids[j] in rows
    {
      assert Eligible(rows, nodeId, lookupFailed, ids[j]);
      EligibleListed(rows, nodeId, lookupFailed, ids[j]);
    }
  }

  lemma {:induction false} EligibleListed(rows: Rows, nodeId: int, lookupFailed: set<int>, id: int)
    requires Eligible(rows, nodeId, lookupFailed, id)
    ensures id in rows
  {
  }

  lemma {:induction false} WithdrawnAnswers(ids: seq<int>, judged: seq<BulkResult>, results: seq<BulkResult>)
    requires Answers(judged, ids) && |results| == |judged|
    requires forall j :: 0 <= j < |judged| ==>
               results[j].id == judged[j].id && !results[j].ok && (results[j].err.None? ==> judged[j].err.None? && !judged[j].ok)
    ensures Answers(results, ids)
  {
  }

  // All ids fail for one reason.
  method FailAll(ids: seq<int>, err: Err) returns (results: seq<BulkResult>)
    ensures |results| == |ids|
    ensures forall j :: 0 <= j < |ids| ==> results[j] == BulkResult(ids[j], false, Some(err))
  {
    results := seq(|ids|, j requires 0 <= j < |ids| => BulkResult(ids[j], false, Some(err)));
  }

  lemma {:induction false} SuccessIsOk(ids: seq<int>, judged: seq<BulkResult>, successIds: seq<int>)
    requires Answers(judged, ids)
    requires forall id :: id in successIds <==> exists j :: 0 <= j < |ids| && judged[j].ok && ids[j] == id
    ensures Elements(successIds) == OkIds(judged)
  {
    forall id
      ensures id in successIds <==> id in OkIds(judged)
    {
      if id in successIds {
        var j :| 0 <= j < |ids| && judged[j].ok && ids[j] == id;
        assert judged[j] in judged;
      }
    }
  }

  lemma {:induction false} AnswerTells(remoteIds: seq<string>, answer: seq<Entry>)
    requires |answer| == |FirstTargets(remoteIds)| && forall i :: 0 <= i < |answer| ==> answer[i].id == FirstTargets(remoteIds)[i].rawId
    ensures AnswersTargets(answer, FirstTargets(remoteIds), OkSet(answer, FirstTargets(remoteIds)))
  {
    TargetsExact(remoteIds);
    hide FirstTargets, OkSet;
    var ts := FirstTargets(remoteIds);
    forall i | 0 <= i < |ts|
      ensures answer[i].ok <==> ts[i].id in OkSet(answer, ts)
    {
      OkSetAt(answer, ts, i);
    }
  }

  lemma {:induction false} JudgedAnswers(rows: Rows, nodeId: int, lookupFailed: set<int>, ids: seq<int>, pending: seq<BulkResult>,
                                         remoteIds: seq<string>, index: map<string, nat>, answer: seq<Entry>, results: seq<BulkResult>,
                                         changed: set<int>)
    requires Prepared(rows, nodeId, lookupFailed, ids, pending, remoteIds, index)
    requires Judges(rows, ids, pending, answer, results)
    requires AnswersTargets(answer, FirstTargets(remoteIds), changed)
    ensures Answers(results, ids)
    ensures forall id :: id in OkIds(results) ==> id in ids && ChangedRemotely(rows, nodeId, changed, id)
  {
    hide ParseId, FirstTargets;
    TargetsExact(remoteIds);
    var ts := FirstTargets(remoteIds);
    forall id | id in OkIds(results)
      ensures id in ids && ChangedRemotely(rows, nodeId, changed, id)
    {
      var r :| r in results && r.ok && r.id == id;
      var j :| 0 <= j < |results| && results[j] == r;
      var e := AnswerFor(answer, rows[ids[j]].remoteId).value;
      var i :| 0 <= i < |answer| && answer[i] == e;
      assert ts[i] in ts;
    }
  }
}
