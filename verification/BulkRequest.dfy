// A whole bulk request: runBulk of internal/transport/handler/client_handler.go.
module BulkRequest {
  import opened Bulk
  import opened BulkProtocol
  import opened ClientRepo
  import Collections
  import opened CrossPanel
  import opened Text

  ghost predicate DistinctTargets(ts: seq<Target>) {
    forall i, j :: 0 <= i < j < |ts| ==> ts[i].id != ts[j].id
  }

  // An entry that has its outcome: changed, or a non-empty error.
  predicate Decided(e: Entry) {
    e.ok <==> e.error == ""
  }

  // The entries of the ids in done are decided, the others still blank; the
  // table has changed exactly on the ids reported so far.
  ghost predicate Progress(ts: seq<Target>, rows0: Rows, rows: Rows, out: seq<Entry>, done: set<int>, m: Mutation) {
    && |out| == |ts|
    && (forall i :: 0 <= i < |ts| ==>
                      && out[i].id == ts[i].rawId
                      && if ts[i].id in done then Decided(out[i]) else out[i] == Entry(ts[i].rawId, false, ""))
    && rows == MutatedAll(rows0, OkSet(out, ts), m)
  }

  lemma {:induction false} MutateAgain(rows: Rows, a: set<int>, b: set<int>, m: Mutation)
    ensures MutatedAll(MutatedAll(rows, a, m), b, m) == MutatedAll(rows, a + b, m)
  {
    if m.Delete? {
      assert rows - a - b == rows - (a + b);
    } else {
      forall id | id in rows
        ensures MutatedRow(MutatedRow(rows[id], m), m) == MutatedRow(rows[id], m)
      {
      }
    }
  }

  // Writing one group's results into the response.
  lemma {:induction false} ProgressStep(ts: seq<Target>, rows0: Rows, rows1: Rows, rows2: Rows, out1: seq<Entry>, out2: seq<Entry>,
                                        done: set<int>, ids: seq<int>, results: seq<BulkResult>, m: Mutation)
    requires DistinctTargets(ts) && Progress(ts, rows0, rows1, out1, done, m)
    requires Answers(results, ids) && Overlaid(out1, out2, ts, results)
    requires forall id :: id in ids ==> id !in done
    requires rows2 == MutatedAll(rows1, OkIds(results), m)
    requires forall id :: id in ids ==> Asks(ts, id)
    ensures Progress(ts, rows0, rows2, out2, done + Elements(ids), m)
    ensures OkSet(out2, ts) == OkSet(out1, ts) + OkIds(results)
  {
    hide PublicError, MutatedAll;
    forall i | 0 <= i < |ts|
      ensures out2[i].id == ts[i].rawId
      ensures if ts[i].id in done + Elements(ids) then Decided(out2[i]) else out2[i] == Entry(ts[i].rawId, false, "")
      ensures out2[i].ok <==> out1[i].ok || ts[i].id in OkIds(results)
    {
      EntryStep(ts, out1, out2, ids, results, i);
      if ts[i].id in ids {
        assert ts[i].id !in done;
      }
    }
    OkSetStep(ts, out1, out2, results, ids);
    MutateAgain(rows0, OkSet(out1, ts), OkIds(results), m);
  }

  lemma {:induction false} EntryStep(ts: seq<Target>, out1: seq<Entry>, out2: seq<Entry>, ids: seq<int>, results: seq<BulkResult>, i: nat)
    requires |out1| == |ts| && i < |ts| && Answers(results, ids) && Overlaid(out1, out2, ts, results)
    ensures ts[i].id !in ids ==> out2[i] == out1[i] && ts[i].id !in OkIds(results)
    ensures ts[i].id in ids && out1[i].error == "" ==>
              Decided(out2[i]) && out2[i].id == out1[i].id && (out2[i].ok ==> ts[i].id in OkIds(results))
    ensures ts[i].id in OkIds(results) ==> out2[i].ok
  {
    hide PublicError;
    if ts[i].id in ids {
      var j :| 0 <= j < |ids| && ids[j] == ts[i].id;
      assert results[j] in results && results[j].id == ts[i].id;
    }
    if ts[i].id in OkIds(results) {
      var r :| r in results && r.ok && r.id == ts[i].id;
    }
  }

  lemma {:induction false} OkSetStep(ts: seq<Target>, out1: seq<Entry>, out2: seq<Entry>, results: seq<BulkResult>, ids: seq<int>)
    requires |out1| == |out2| == |ts| && Answers(results, ids)
    requires forall i :: 0 <= i < |ts| ==> (out2[i].ok <==> out1[i].ok || ts[i].id in OkIds(results))
    requires forall id :: id in ids ==> Asks(ts, id)
    ensures OkSet(out2, ts) == OkSet(out1, ts) + OkIds(results)
  {
    forall id | id in OkIds(results)
      ensures id in OkSet(out2, ts)
    {
      var r :| r in results && r.ok && r.id == id;
      var j :| 0 <= j < |results| && results[j] == r;
      assert ids[j] in ids;
      var t :| t in ts && t.id == id;
      var i :| 0 <= i < |ts| && ts[i] == t;
      assert out2[i].ok;
    }
  }

  // ---- grouping --------------------------------------------------------------------

  datatype Class = Refused | OnThisPanel | OnNode(node: int)

  // Where a requested id goes: refused when its lookup fails.
  function ClassOf(rows: Rows, getFailed: set<int>, id: int): Class {
    if id in getFailed || id !in rows then Refused
    else if rows[id].nodeId.None? then OnThisPanel
    else OnNode(rows[id].nodeId.value)
  }

  function GroupOf(groups: map<int, seq<int>>, node: int): seq<int> {
    if node in groups then groups[node] else []
  }

  // The ids of the first k targets with a given destination.
  predicate Sent(ts: seq<Target>, k: nat, rows: Rows, getFailed: set<int>, to: Class, id: int)
    requires k <= |ts|
  {
    ClassOf(rows, getFailed, id) == to && exists i :: 0 <= i < k && ts[i].id == id
  }

  ghost predicate Grouped(ts: seq<Target>, k: nat, rows: Rows, getFailed: set<int>, localIds: seq<int>, groups: map<int, seq<int>>)
    requires k <= |ts|
  {
    && Holds(ts, k, rows, getFailed, OnThisPanel, localIds)
    && forall n :: Holds(ts, k, rows, getFailed, OnNode(n), GroupOf(groups, n))
  }

  // ids lists the first k targets sent to one destination, each once.
  ghost predicate Holds(ts: seq<Target>, k: nat, rows: Rows, getFailed: set<int>, to: Class, ids: seq<int>)
    requires k <= |ts|
  {
    Collections.Distinct(ids) && forall id :: id in ids <==> Sent(ts, k, rows, getFailed, to, id)
  }

  lemma {:induction false} HoldsStep(ts: seq<Target>, k: nat, rows: Rows, getFailed: set<int>, to: Class, ids: seq<int>)
    requires k < |ts| && DistinctTargets(ts) && Holds(ts, k, rows, getFailed, to, ids)
    ensures var id := ts[k].id;
            Holds(ts, k + 1, rows, getFailed, to, if ClassOf(rows, getFailed, id) == to then ids + [id] else ids)
  {
    hide Sent, ClassOf;
    SentStep(ts, k, rows, getFailed, to);
  }

  lemma {:induction false} SentStep(ts: seq<Target>, k: nat, rows: Rows, getFailed: set<int>, to: Class)
    requires k < |ts| && DistinctTargets(ts)
    ensures forall id :: Sent(ts, k + 1, rows, getFailed, to, id) <==>
                         Sent(ts, k, rows, getFailed, to, id) || (id == ts[k].id && ClassOf(rows, getFailed, id) == to)
    ensures !Sent(ts, k, rows, getFailed, to, ts[k].id)
  {
  }

  // The response after the lookups: an error for the refused ids, blanks for the others.
  ghost predicate Opened(ts: seq<Target>, k: nat, rows: Rows, getFailed: set<int>, out: seq<Entry>)
    requires k <= |ts|
  {
    && |out| == k
    && forall i :: 0 <= i < k ==>
                     && out[i].id == ts[i].rawId && !out[i].ok
                     && (out[i].error == "" <==> ClassOf(rows, getFailed, ts[i].id) != Refused)
  }

  method Group(ts: seq<Target>, rows: Rows, getFailed: set<int>)
    returns (out: seq<Entry>, localIds: seq<int>, groups: map<int, seq<int>>)
    requires DistinctTargets(ts)
    ensures Opened(ts, |ts|, rows, getFailed, out)
    ensures Grouped(ts, |ts|, rows, getFailed, localIds, groups)
  {
    hide PublicError, Sent, Grouped, GroupOf;
    out, localIds, groups := [], [], map[];
    NothingGrouped(ts, rows, getFailed);
    for i := 0 to |ts|
      invariant Opened(ts, i, rows, getFailed, out)
      invariant Grouped(ts, i, rows, getFailed, localIds, groups)
    {
      var id := ts[i].id;
      GroupedStep(ts, i, rows, getFailed, localIds, groups);
      if id in getFailed || id !in rows {
        out := out + [Entry(ts[i].rawId, false, PublicError(Some(if id in getFailed then ErrInternal else ErrNotFound)))];
        continue;
      }
      out := out + [Entry(ts[i].rawId, false, "")];
      if rows[id].nodeId.None? {
        localIds := localIds + [id];
        continue;
      }
      var n := rows[id].nodeId.value;
      groups := groups[n := GroupOf(groups, n) + [id]];
    }
  }

  lemma {:induction false} NothingGrouped(ts: seq<Target>, rows: Rows, getFailed: set<int>)
    ensures Grouped(ts, 0, rows, getFailed, [], map[])
  {
  }

  // One more id joins the list of its destination.
  lemma {:induction false} GroupedStep(ts: seq<Target>, k: nat, rows: Rows, getFailed: set<int>, localIds: seq<int>,
                                       groups: map<int, seq<int>>)
    requires k < |ts| && DistinctTargets(ts) && Grouped(ts, k, rows, getFailed, localIds, groups)
    ensures var id := ts[k].id;
            match ClassOf(rows, getFailed, id)
            case Refused => Grouped(ts, k + 1, rows, getFailed, localIds, groups)
            case OnThisPanel => Grouped(ts, k + 1, rows, getFailed, localIds + [id], groups)
            case OnNode(n) => Grouped(ts, k + 1, rows, getFailed, localIds, groups[n := GroupOf(groups, n) + [id]])
  {
    hide Holds, ClassOf;
    HoldsStep(ts, k, rows, getFailed, OnThisPanel, localIds);
    forall n {
      HoldsStep(ts, k, rows, getFailed, OnNode(n), GroupOf(groups, n));
    }
    var id := ts[k].id;
    match ClassOf(rows, getFailed, id) {
      case Refused =>
      case OnThisPanel =>
      case OnNode(n) =>
        var after := groups[n := GroupOf(groups, n) + [id]];
        assert forall x :: x != n ==> GroupOf(after, x) == GroupOf(groups, x);
    }
  }

  // ---- the request -------------------------------------------------------------------

  // The ids settled once the table's own clients and the given nodes are handled.
  predicate Handled(rows: Rows, getFailed: set<int>, local: bool, nodes: set<int>, id: int) {
    match ClassOf(rows, getFailed, id)
    case Refused => true
    case OnThisPanel => local
    case OnNode(n) => n in nodes
  }

  function DoneIds(ts: seq<Target>, rows: Rows, getFailed: set<int>, local: bool, nodes: set<int>): set<int> {
    set t | t in ts && Handled(rows, getFailed, local, nodes, t.id) :: t.id
  }

  // A client of a node that is reported as changed was changed on that node.
  ghost predicate RemoteBacked(rows: Rows, ok: set<int>, changed: map<int, set<int>>) {
    forall id :: id in ok && id in rows && rows[id].nodeId.Some? ==>
                   var n := rows[id].nodeId.value;
                   n in changed && ChangedRemotely(rows, n, changed[n], id)
  }

  // A node's panel has changed exactly on the ids recorded for it, in one batch.
  ghost predicate NodeChanged(before: Panel, after: Panel, changed: set<int>, m: Mutation) {
    && after.rows == MutatedAll(before.rows, changed, m)
    && after.triggers == before.triggers + (if !m.ResetTraffic? && changed != {} then 1 else 0)
    && forall id :: id in changed ==> id in before.rows && before.rows[id].Local()
  }

  method MinOf(s: set<int>) returns (m: int)
    requires s != {}
    ensures m in s && forall x :: x in s ==> m <= x
  {
    m := Collections.Pick(s);
    var rest := s - {m};
    while rest != {}
      invariant m in s && rest <= s
      invariant forall x :: x in s && x !in rest ==> m <= x
      decreases rest
    {
      var x := Collections.Pick(rest);
      rest := rest - {x};
      if x < m {
        m := x;
      }
    }
  }

  // Nothing is reported before the first batch.
  lemma {:induction false} StartProgress(ts: seq<Target>, rows: Rows, getFailed: set<int>, out: seq<Entry>, m: Mutation)
    requires Opened(ts, |ts|, rows, getFailed, out)
    ensures OkSet(out, ts) == {}
    ensures Progress(ts, rows, rows, out, DoneIds(ts, rows, getFailed, false, {}), m)
  {
    NoneOk(rows, [], m);
    assert OkIds([]) == {};
    forall i | 0 <= i < |ts|
      ensures ts[i].id in DoneIds(ts, rows, getFailed, false, {}) <==> ClassOf(rows, getFailed, ts[i].id) == Refused
    {
      assert ts[i] in ts;
    }
  }

  lemma {:induction false} SentAsked(ts: seq<Target>, rows: Rows, getFailed: set<int>, to: Class, ids: seq<int>)
    requires forall id :: id in ids <==> Sent(ts, |ts|, rows, getFailed, to, id)
    ensures forall id :: id in ids ==> Asks(ts, id) && ClassOf(rows, getFailed, id) == to
  {
    forall id | id in ids
      ensures Asks(ts, id)
    {
      var i :| 0 <= i < |ts| && ts[i].id == id;
      assert ts[i] in ts;
    }
  }

  // Handling one destination settles exactly the ids sent there.
  lemma {:induction false} DoneStep(ts: seq<Target>, rows: Rows, getFailed: set<int>, local: bool, nodes: set<int>, to: Class, ids: seq<int>)
    requires forall id :: id in ids <==> Sent(ts, |ts|, rows, getFailed, to, id)
    requires if local then to.OnNode? && to.node !in nodes else to.OnThisPanel? && nodes == {}
    ensures DoneIds(ts, rows, getFailed, true, if local then nodes + {to.node} else nodes) ==
            DoneIds(ts, rows, getFailed, local, nodes) + Elements(ids)
    ensures forall id :: id in ids ==> id !in DoneIds(ts, rows, getFailed, local, nodes)
  {
    SentAsked(ts, rows, getFailed, to, ids);
    forall t | t in ts
      ensures ClassOf(rows, getFailed, t.id) == to <==> t.id in ids
    {
      var i :| 0 <= i < |ts| && ts[i] == t;
    }
    var after := if local then nodes + {to.node} else nodes;
    forall t | t in ts
      ensures Handled(rows, getFailed, true, after, t.id) <==> Handled(rows, getFailed, local, nodes, t.id) || t.id in ids
    {
    }
    forall id
      ensures id in DoneIds(ts, rows, getFailed, true, after) <==>
              id in DoneIds(ts, rows, getFailed, local, nodes) || id in ids
    {
      if id in ids {
        var t :| t in ts && t.id == id;
      }
    }
  }

  lemma {:induction false} AllDone(ts: seq<Target>, rows0: Rows, rows: Rows, getFailed: set<int>, localIds: seq<int>,
                                   groups: map<int, seq<int>>, out: seq<Entry>, m: Mutation)
    requires Grouped(ts, |ts|, rows0, getFailed, localIds, groups)
    requires Progress(ts, rows0, rows, out, DoneIds(ts, rows0, getFailed, true, groups.Keys), m)
    ensures forall i :: 0 <= i < |ts| ==> out[i].id == ts[i].rawId && Decided(out[i])
    ensures rows == MutatedAll(rows0, OkSet(out, ts), m)
  {
    hide MutatedAll;
    forall i | 0 <= i < |ts|
      ensures ts[i].id in DoneIds(ts, rows0, getFailed, true, groups.Keys)
    {
      TargetDone(ts, rows0, getFailed, localIds, groups, i);
    }
  }

  // A change of the table leaves alone what identifies its cached clients.
  lemma {:induction false} MutatedKeepsRemote(rows: Rows, ids: set<int>, m: Mutation)
    ensures forall id :: id in MutatedAll(rows, ids, m) ==>
                           && id in rows
                           && MutatedAll(rows, ids, m)[id].nodeId == rows[id].nodeId
                           && MutatedAll(rows, ids, m)[id].remoteId == rows[id].remoteId
    ensures UniqueRemote(rows) ==> UniqueRemote(MutatedAll(rows, ids, m))
  {
  }

  lemma {:induction false} RemoteBackedStep(rows0: Rows, rows: Rows, ok: set<int>, ids: set<int>, changed: map<int, set<int>>, n: int,
                                            here: set<int>, prior: set<int>, m: Mutation)
    requires RemoteBacked(rows0, ok, changed) && n !in changed
    requires rows == MutatedAll(rows0, prior, m)
    requires forall id :: id in ids ==> ChangedRemotely(rows, n, here, id)
    ensures RemoteBacked(rows0, ok + ids, changed[n := here])
    ensures forall id :: id in ids ==> id in rows0 && rows0[id].nodeId.Some?
  {
    hide MutatedAll, ParseId;
    MutatedKeepsRemote(rows0, prior, m);
  }

  predicate HasLocal(rows: Rows, ids: set<int>) {
    exists id :: id in ids && id in rows && rows[id].Local()
  }

  ghost predicate NodesChanged(before: map<int, Panel>, after: map<int, Panel>, changed: map<int, set<int>>, m: Mutation) {
    && after.Keys == before.Keys
    && forall n :: n in before ==>
                     if n in changed then NodeChanged(before[n], after[n], changed[n], m) else after[n] == before[n]
  }

  lemma {:induction false} NothingChanged(rows: Rows, nodes: map<int, Panel>, ok: set<int>, m: Mutation)
    requires forall id :: id in ok && id in rows ==> rows[id].nodeId.None?
    ensures RemoteBacked(rows, ok, map[]) && NodesChanged(nodes, nodes, map[], m)
  {
  }

  lemma {:induction false} NodesStep(before: map<int, Panel>, after: map<int, Panel>, changed: map<int, set<int>>, n: int,
                                     panel: Panel, here: set<int>, m: Mutation)
    requires NodesChanged(before, after, changed, m) && n !in changed
    requires n in before ==> NodeChanged(after[n], panel, here, m)
    ensures NodesChanged(before, if n in after then after[n := panel] else after, changed[n := here], m)
  {
    hide MutatedAll;
  }

  lemma {:induction false} GroupedIds(ts: seq<Target>, rows: Rows, getFailed: set<int>, localIds: seq<int>, groups: map<int, seq<int>>,
                                      n: int)
    requires Grouped(ts, |ts|, rows, getFailed, localIds, groups)
    ensures Collections.Distinct(GroupOf(groups, n)) && Collections.Distinct(localIds)
    ensures forall id :: id in GroupOf(groups, n) <==> Sent(ts, |ts|, rows, getFailed, OnNode(n), id)
    ensures forall id :: id in localIds <==> Sent(ts, |ts|, rows, getFailed, OnThisPanel, id)
  {
  }

  // ---- who succeeds --------------------------------------------------------------------

  // What a request meets: both tables' state, and everything that may go wrong.
  datatype World = World(rows: Rows, nodes: map<int, Panel>, getFailed: set<int>, local: Env, remotes: map<int, RemoteEnv>)

  // The panel that holds the client can change it.
  predicate Succeeds(w: World, id: int) {
    match ClassOf(w.rows, w.getFailed, id)
    case Refused => false
    case OnThisPanel => Changeable(w.rows, w.local.lookupFailed, id)
    case OnNode(n) => n in w.nodes && n in w.remotes && RemoteOk(w.rows, w.nodes[n], n, w.remotes[n], id)
  }

  // Nothing goes wrong with the ids sent there.
  ghost predicate Faultless(w: World, ts: seq<Target>, m: Mutation, to: Class) {
    match to
    case Refused => true
    case OnThisPanel => w.local.fault.None?
    case OnNode(n) =>
      && n in w.nodes && n in w.remotes && Clean(w.remotes[n]) && Settable(m)
      && forall t :: t in ts && Eligible(w.rows, n, w.remotes[n].lookupFailed, t.id) ==> OwnSpelling(w.rows[t.id].remoteId)
  }

  // Of the ids in done, wherever nothing went wrong, exactly those that can be
  // changed were; what goes wrong elsewhere does not matter.
  ghost predicate Exact(w: World, ts: seq<Target>, m: Mutation, ok: set<int>, done: set<int>) {
    forall id :: id in done && Faultless(w, ts, m, ClassOf(w.rows, w.getFailed, id)) ==> (id in ok <==> Succeeds(w, id))
  }

  lemma {:induction false} RefusedExact(w: World, ts: seq<Target>, m: Mutation)
    ensures Exact(w, ts, m, {}, DoneIds(ts, w.rows, w.getFailed, false, {}))
  {
  }

  // One destination more
  lemma {:induction false} ExactStep(w: World, ts: seq<Target>, m: Mutation, ok: set<int>, done: set<int>, ids: seq<int>, now: set<int>,
                                     to: Class)
    requires Exact(w, ts, m, ok, done)
    requires forall id :: id in ids ==> id !in done && id !in ok && ClassOf(w.rows, w.getFailed, id) == to
    requires forall id :: id in now ==> id in ids
    requires Faultless(w, ts, m, to) ==> forall id :: id in ids ==> (id in now <==> Succeeds(w, id))
    ensures Exact(w, ts, m, ok + now, done + Elements(ids))
  {
    hide Faultless, Succeeds, ClassOf;
  }

  lemma {:induction false} NotYetOk(ts: seq<Target>, rows0: Rows, rows: Rows, out: seq<Entry>, done: set<int>, m: Mutation)
    requires Progress(ts, rows0, rows, out, done, m)
    ensures forall id :: id in OkSet(out, ts) ==> id in done
  {
    hide MutatedAll;
  }

  lemma {:induction false} LocalExact(w: World, ids: seq<int>, now: set<int>)
    requires w.local.fault.None? ==> now == Elements(ChangeableIds(w.rows, w.local.lookupFailed, ids))
    requires forall id :: id in ids ==> ClassOf(w.rows, w.getFailed, id) == OnThisPanel
    ensures w.local.fault.None? ==> forall id :: id in ids ==> (id in now <==> Succeeds(w, id))
  {
    hide Changeable, ChangeableIds, ClassOf;
  }

  // A change of other clients leaves a cached client as eligible as it was.
  lemma {:induction false} EligibleKept(rows: Rows, prior: set<int>, m: Mutation, n: int, lookupFailed: set<int>, id: int)
    requires id !in prior
    ensures Eligible(MutatedAll(rows, prior, m), n, lookupFailed, id) <==> Eligible(rows, n, lookupFailed, id)
    ensures Eligible(rows, n, lookupFailed, id) ==> MutatedAll(rows, prior, m)[id].remoteId == rows[id].remoteId
  {
  }

  lemma {:induction false} RemoteExact(w: World, ts: seq<Target>, m: Mutation, prior: set<int>, n: int, ids: seq<int>, now: set<int>)
    requires forall id :: id in ids ==> id !in prior && Asks(ts, id) && ClassOf(w.rows, w.getFailed, id) == OnNode(n)
    requires var rows := MutatedAll(w.rows, prior, m);
             n in w.nodes && n in w.remotes && Clean(w.remotes[n]) && Settable(m)
             && AllOwnSpelling(rows, n, w.remotes[n].lookupFailed, ids) ==>
               now == RemoteOks(rows, w.nodes[n], n, w.remotes[n], ids)
    ensures Faultless(w, ts, m, OnNode(n)) ==> forall id :: id in ids ==> (id in now <==> Succeeds(w, id))
  {
    if Faultless(w, ts, m, OnNode(n)) {
      hide MutatedAll, Clean, Settable, ClassOf, ParseId, Changeable, OwnSpelling, Eligible;
      var env, rows := w.remotes[n], MutatedAll(w.rows, prior, m);
      forall id | id in ids
        ensures Eligible(rows, n, env.lookupFailed, id) ==> OwnSpelling(rows[id].remoteId)
        ensures RemoteOk(rows, w.nodes[n], n, env, id) <==> RemoteOk(w.rows, w.nodes[n], n, env, id)
      {
        EligibleKept(w.rows, prior, m, n, env.lookupFailed, id);
      }
    }
  }

  lemma {:induction false} NodeUntouched(before: map<int, Panel>, after: map<int, Panel>, changed: map<int, set<int>>, m: Mutation, n: int)
    requires NodesChanged(before, after, changed, m) && n !in changed
    ensures n in after <==> n in before
    ensures n in after ==> after[n] == before[n]
  {
    hide NodeChanged;
  }

  // For every target
  ghost predicate AsExpected(w: World, ts: seq<Target>, m: Mutation, ok: set<int>) {
    forall t :: t in ts && Faultless(w, ts, m, ClassOf(w.rows, w.getFailed, t.id)) ==> (t.id in ok <==> Succeeds(w, t.id))
  }

  lemma {:induction false} ExactForAll(w: World, ts: seq<Target>, m: Mutation, ok: set<int>, localIds: seq<int>, groups: map<int, seq<int>>)
    requires Grouped(ts, |ts|, w.rows, w.getFailed, localIds, groups)
    requires Exact(w, ts, m, ok, DoneIds(ts, w.rows, w.getFailed, true, groups.Keys))
    ensures AsExpected(w, ts, m, ok)
  {
    hide Faultless, Succeeds;
    forall t | t in ts
      ensures t.id in DoneIds(ts, w.rows, w.getFailed, true, groups.Keys)
    {
      var i :| 0 <= i < |ts| && ts[i] == t;
      TargetDone(ts, w.rows, w.getFailed, localIds, groups, i);
    }
  }

  // Every target's destination is among those handled.
  lemma {:induction false} TargetDone(ts: seq<Target>, rows: Rows, getFailed: set<int>, localIds: seq<int>, groups: map<int, seq<int>>, i: nat)
    requires Grouped(ts, |ts|, rows, getFailed, localIds, groups) && i < |ts|
    ensures ts[i].id in DoneIds(ts, rows, getFailed, true, groups.Keys)
  {
    assert ts[i] in ts;
    match ClassOf(rows, getFailed, ts[i].id) {
      case Refused =>
      case OnThisPanel =>
      case OnNode(n) => assert ts[i].id in GroupOf(groups, n);
    }
  }

  class ControlPlane {
    var panel: Panel
    var nodes: map<int, Panel>

    constructor (panel: Panel, nodes: map<int, Panel>)
      ensures this.panel == panel && this.nodes == nodes
    {
      this.panel, this.nodes := panel, nodes;
    }

    // The clients of this panel, in one batch.
    method RunLocal(ts: seq<Target>, m: Mutation, getFailed: set<int>, local: Env, localIds: seq<int>, index: map<int, nat>,
                    blank: seq<Entry>, ghost w: World)
      returns (out: seq<Entry>)
      requires w.rows == panel.rows && w.getFailed == getFailed && w.local == local
      requires DistinctTargets(ts) && Indexes(index, ts) && Collections.Distinct(localIds)
      requires forall id :: id in localIds <==> Sent(ts, |ts|, panel.rows, getFailed, OnThisPanel, id)
      requires |blank| == |ts| && OkSet(blank, ts) == {}
      requires Progress(ts, panel.rows, panel.rows, blank, DoneIds(ts, panel.rows, getFailed, false, {}), m)
      modifies this`panel
      ensures |out| == |ts|
      ensures Progress(ts, old(panel.rows), panel.rows, out, DoneIds(ts, old(panel.rows), getFailed, true, {}), m)
      ensures forall id :: id in OkSet(out, ts) ==> ClassOf(old(panel.rows), getFailed, id) == OnThisPanel
      ensures panel.triggers == old(panel.triggers) + if !m.ResetTraffic? && OkSet(out, ts) != {} then 1 else 0
      ensures Exact(w, ts, m, OkSet(out, ts), DoneIds(ts, w.rows, getFailed, true, {}))
    {
      hide MutatedAll, Overlaid, Progress, Answers, OkIds, OkSet, DoneIds, Indexes, Asks, DistinctTargets, ClassOf, Exact, ChangeableIds;
      ghost var rows0 := panel.rows;
      out := blank;
      DoneStep(ts, rows0, getFailed, false, {}, OnThisPanel, localIds);
      SentAsked(ts, rows0, getFailed, OnThisPanel, localIds);
      RefusedExact(w, ts, m);
      if |localIds| == 0 {
        NoElements(localIds, DoneIds(ts, rows0, getFailed, false, {}));
        return;
      }
      var results;
      panel, results := BulkMutate(panel, localIds, m, local);
      AnswersDistinct(results, localIds);
      out := ApplyBulkResults(blank, index, ts, results);
      SameLength(blank, out, ts, results);
      ProgressStep(ts, rows0, rows0, panel.rows, blank, out, DoneIds(ts, rows0, getFailed, false, {}), localIds, results, m);
      OkIdsAsked(results, localIds);
      LocalExact(w, localIds, OkIds(results));
      ExactStep(w, ts, m, {}, DoneIds(ts, rows0, getFailed, false, {}), localIds, OkIds(results), OnThisPanel);
    }

    // The clients cached from nodes, node by node in ascending order.
    method RunRemotes(ts: seq<Target>, m: Mutation, getFailed: set<int>, remotes: map<int, RemoteEnv>, ghost w: World,
                      localIds: seq<int>, groups: map<int, seq<int>>, index: map<int, nat>, sofar: seq<Entry>)
      returns (out: seq<Entry>, ghost changed: map<int, set<int>>)
      requires w.nodes == nodes && w.getFailed == getFailed && w.remotes == remotes
      requires DistinctTargets(ts) && Indexes(index, ts) && UniqueRemote(w.rows)
      requires Grouped(ts, |ts|, w.rows, getFailed, localIds, groups)
      requires |sofar| == |ts| && Progress(ts, w.rows, panel.rows, sofar, DoneIds(ts, w.rows, getFailed, true, {}), m)
      requires forall id :: id in OkSet(sofar, ts) && id in w.rows ==> w.rows[id].nodeId.None?
      requires Exact(w, ts, m, OkSet(sofar, ts), DoneIds(ts, w.rows, getFailed, true, {}))
      modifies this
      ensures |out| == |ts|
      ensures Progress(ts, w.rows, panel.rows, out, DoneIds(ts, w.rows, getFailed, true, groups.Keys), m)
      ensures RemoteBacked(w.rows, OkSet(out, ts), changed)
      ensures NodesChanged(old(nodes), nodes, changed, m)
      ensures panel.triggers == old(panel.triggers)
      ensures OkSet(sofar, ts) <= OkSet(out, ts)
      ensures forall id :: id in OkSet(out, ts) && id !in OkSet(sofar, ts) ==> id in w.rows && w.rows[id].nodeId.Some?
      ensures Exact(w, ts, m, OkSet(out, ts), DoneIds(ts, w.rows, getFailed, true, groups.Keys))
    {
      hide MutatedAll, Overlaid, Progress, Grouped, Answers, OkIds, OkSet, DoneIds, Indexes, RemoteBacked, NodesChanged,
        NodeChanged, ChangedRemotely, UniqueRemote, Asks, DistinctTargets, ClassOf, Exact, Faultless, Clean, AllOwnSpelling,
        RemoteOks, Settable;
      ghost var rows0 := w.rows;
      out, changed := sofar, map[];
      ghost var nodes0 := nodes;
      NothingChanged(rows0, nodes0, OkSet(sofar, ts), m);
      var todo := groups.Keys;
      assert groups.Keys - todo == {};
      while todo != {}
        invariant todo <= groups.Keys && changed.Keys == groups.Keys - todo
        invariant |out| == |ts| && Progress(ts, rows0, panel.rows, out, DoneIds(ts, rows0, getFailed, true, groups.Keys - todo), m)
        invariant RemoteBacked(rows0, OkSet(out, ts), changed)
        invariant NodesChanged(nodes0, nodes, changed, m)
        invariant panel.triggers == old(panel.triggers)
        invariant OkSet(sofar, ts) <= OkSet(out, ts)
        invariant forall id :: id in OkSet(out, ts) && id !in OkSet(sofar, ts) ==> id in rows0 && rows0[id].nodeId.Some?
        invariant Exact(w, ts, m, OkSet(out, ts), DoneIds(ts, rows0, getFailed, true, groups.Keys - todo))
        decreases todo
      {
        var n := MinOf(todo);
        ghost var done := groups.Keys - todo;
        todo := todo - {n};
        assert groups.Keys - todo == done + {n};
        var ids := GroupOf(groups, n);
        GroupedIds(ts, rows0, getFailed, localIds, groups, n);
        SentAsked(ts, rows0, getFailed, OnNode(n), ids);
        DoneStep(ts, rows0, getFailed, true, done, OnNode(n), ids);
        ProgressRows(ts, rows0, panel.rows, out, DoneIds(ts, rows0, getFailed, true, done), m);
        MutatedKeepsRemote(rows0, OkSet(out, ts), m);
        NotYetOk(ts, rows0, panel.rows, out, DoneIds(ts, rows0, getFailed, true, done), m);
        NodeUntouched(nodes0, nodes, changed, m, n);
        ghost var rows1, out1 := panel.rows, out;
        var known := n in nodes && n in remotes;
        var env := if known then remotes[n] else RemoteEnv(Some(ErrNotFound), Unreachable, {}, Env({}, None), None);
        var remote := if n in nodes then nodes[n] else Panel(map[], 0);
        ghost var here;
        var rows, remoteAfter, results;
        rows, remoteAfter, results, here := BulkClients(panel.rows, remote, n, ids, m, env);
        panel := Panel(rows, panel.triggers);
        NodeChangedIs(remote, remoteAfter, here, m);
        NodesKeys(nodes0, nodes, changed, m);
        NodesStep(nodes0, nodes, changed, n, remoteAfter, here, m);
        nodes := if n in nodes then nodes[n := remoteAfter] else nodes;
        AnswersDistinct(results, ids);
        out := ApplyBulkResults(out, index, ts, results);
        SameLength(out1, out, ts, results);
        ProgressStep(ts, rows0, rows1, panel.rows, out1, out, DoneIds(ts, rows0, getFailed, true, done), ids, results, m);
        RemoteBackedStep(rows0, rows1, OkSet(out1, ts), OkIds(results), changed, n, here, OkSet(out1, ts), m);
        OkIdsAsked(results, ids);
        RemoteExact(w, ts, m, OkSet(out1, ts), n, ids, OkIds(results));
        ExactStep(w, ts, m, OkSet(out1, ts), DoneIds(ts, rows0, getFailed, true, done), ids, OkIds(results), OnNode(n));
        changed := changed[n := here];
      }
      assert groups.Keys - todo == groups.Keys;
    }

    // The response has one decided entry per target, in order; this panel's table
    // changes exactly on the ids reported as changed; a node's client is reported
    // only if the node changed it; every panel asks for at most one config apply.
    method RunBulk(ts: seq<Target>, m: Mutation, getFailed: set<int>, local: Env, remotes: map<int, RemoteEnv>)
      returns (out: seq<Entry>, ghost changed: map<int, set<int>>)
      requires DistinctTargets(ts) && UniqueRemote(panel.rows)
      modifies this
      ensures |out| == |ts| && forall i :: 0 <= i < |ts| ==> out[i].id == ts[i].rawId && Decided(out[i])
      ensures panel.rows == MutatedAll(old(panel.rows), OkSet(out, ts), m)
      ensures RemoteBacked(old(panel.rows), OkSet(out, ts), changed)
      ensures NodesChanged(old(nodes), nodes, changed, m)
      ensures panel.triggers == old(panel.triggers) +
              if !m.ResetTraffic? && HasLocal(old(panel.rows), OkSet(out, ts)) then 1 else 0
      ensures AsExpected(World(old(panel.rows), old(nodes), getFailed, local, remotes), ts, m, OkSet(out, ts))
    {
      hide Exact, AsExpected, MutatedAll, Progress, Grouped, Opened, OkSet, DoneIds, Indexes, RemoteBacked, NodesChanged, UniqueRemote,
        ClassOf, HasLocal, Decided;
      ghost var rows0 := panel.rows;
      ghost var w := World(panel.rows, nodes, getFailed, local, remotes);
      var blank, localIds, groups := Group(ts, panel.rows, getFailed);
      var index := IndexTargets(ts);
      OpenedLength(ts, rows0, getFailed, blank);
      StartProgress(ts, rows0, getFailed, blank, m);
      GroupedIds(ts, rows0, getFailed, localIds, groups, 0);
      var sofar := RunLocal(ts, m, getFailed, local, localIds, index, blank, w);
      ClassLocal(rows0, getFailed, OkSet(sofar, ts));
      out, changed := RunRemotes(ts, m, getFailed, remotes, w, localIds, groups, index, sofar);
      AllDone(ts, rows0, panel.rows, getFailed, localIds, groups, out, m);
      LocalOk(rows0, OkSet(sofar, ts), OkSet(out, ts));
      ExactForAll(w, ts, m, OkSet(out, ts), localIds, groups);
    }

    // The endpoint: a malformed request changes nothing; otherwise the response
    // has one decided entry per distinct id, in the order of first occurrence.
    method Handle(raws: seq<string>, m: Mutation, getFailed: set<int>, local: Env, remotes: map<int, RemoteEnv>)
      returns (response: Option<seq<Entry>>, ghost changed: map<int, set<int>>)
      requires UniqueRemote(panel.rows)
      modifies this
      ensures response.None? <==> raws == [] || (exists raw :: raw in raws && !IsPositiveId(raw)) ||
                                  (m.SetStatus? && m.status != Domain.Active && m.status != Domain.Disabled)
      ensures response.None? ==> panel == old(panel) && nodes == old(nodes)
      ensures response.Some? ==>
                var (out, ts) := (response.value, FirstTargets(raws));
                && |out| == |ts| && (forall i :: 0 <= i < |ts| ==> out[i].id == ts[i].rawId && Decided(out[i]))
                && panel.rows == MutatedAll(old(panel.rows), OkSet(out, ts), m) && UniqueRemote(panel.rows)
                && RemoteBacked(old(panel.rows), OkSet(out, ts), changed)
                && NodesChanged(old(nodes), nodes, changed, m)
                && panel.triggers == old(panel.triggers) +
                                     (if !m.ResetTraffic? && HasLocal(old(panel.rows), OkSet(out, ts)) then 1 else 0)
                && AsExpected(World(old(panel.rows), old(nodes), getFailed, local, remotes), ts, m, OkSet(out, ts))
    {
      hide AsExpected, ParseId, IsPositiveId, FirstTargets, MutatedAll, OkSet, RemoteBacked, NodesChanged, HasLocal, Decided, UniqueRemote;
      changed := map[];
      var targets := Decode(raws);
      if targets.None? || !Settable(m) {
        return None, changed;
      }
      TargetsExact(raws);
      var out;
      out, changed := RunBulk(targets.value, m, getFailed, local, remotes);
      MutatedKeepsRemote(old(panel.rows), OkSet(out, targets.value), m);
      response := Some(out);
    }
  }

  lemma {:induction false} NoElements(ids: seq<int>, done: set<int>)
    requires |ids| == 0
    ensures done + Elements(ids) == done
  {
  }

  lemma {:induction false} SameLength(before: seq<Entry>, after: seq<Entry>, ts: seq<Target>, results: seq<BulkResult>)
    requires |before| == |ts| && Overlaid(before, after, ts, results)
    ensures |after| == |ts|
  {
  }

  lemma {:induction false} ProgressRows(ts: seq<Target>, rows0: Rows, rows: Rows, out: seq<Entry>, done: set<int>, m: Mutation)
    requires Progress(ts, rows0, rows, out, done, m)
    ensures |out| == |ts| && rows == MutatedAll(rows0, OkSet(out, ts), m)
  {
  }

  lemma {:induction false} NodeChangedIs(before: Panel, after: Panel, changed: set<int>, m: Mutation)
    requires after.rows == MutatedAll(before.rows, changed, m)
    requires after.triggers == before.triggers + if !m.ResetTraffic? && changed != {} then 1 else 0
    requires forall id :: id in changed ==> id in before.rows && before.rows[id].Local()
    ensures NodeChanged(before, after, changed, m)
  {
  }

  lemma {:induction false} NodesKeys(before: map<int, Panel>, after: map<int, Panel>, changed: map<int, set<int>>, m: Mutation)
    requires NodesChanged(before, after, changed, m)
    ensures after.Keys == before.Keys
  {
  }

  lemma {:induction false} OpenedLength(ts: seq<Target>, rows: Rows, getFailed: set<int>, out: seq<Entry>)
    requires Opened(ts, |ts|, rows, getFailed, out)
    ensures |out| == |ts|
  {
  }

  lemma {:induction false} ClassLocal(rows: Rows, getFailed: set<int>, ids: set<int>)
    requires forall id :: id in ids ==> ClassOf(rows, getFailed, id) == OnThisPanel
    ensures forall id :: id in ids ==> id in rows && rows[id].nodeId.None?
  {
  }

  lemma {:induction false} LocalOk(rows: Rows, local: set<int>, all: set<int>)
    requires forall id :: id in local ==> id in rows && rows[id].nodeId.None?
    requires local <= all && forall id :: id in all && id !in local ==> id in rows && rows[id].nodeId.Some?
    ensures HasLocal(rows, all) <==> local != {}
  {
    if !HasLocal(rows, all) {
      assert forall id :: id in local ==> id in all;
      assert forall id :: id !in local;
      assert local == {};
    }
  }
}
