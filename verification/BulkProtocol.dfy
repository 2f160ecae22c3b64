// Bulk changes across panels: the request handler splits the ids into local
// clients and groups of clients cached from nodes, every node applies its own
// batch, and the cache follows what the node reported
// (internal/transport/handler/client_handler.go, node_handler.go,
// internal/services/node/service.go).
module BulkProtocol {
  import opened Bulk
  import ClientRepo
  import Collections
  import Domain
  import opened Text

  // ---- the request and the response ----------------------------------------------

  datatype Target = Target(rawId: string, id: int)

  function ParseId(raw: string): Option<int> {
    match ParseInt(raw)
    case Some(id) => if id > 0 then Some(id) else None
    case None => None
  }

  // A decimal int64 above zero, sign and leading zeros allowed
  ghost predicate IsPositiveId(raw: string) {
    ParseInt(raw).Some? && ParseInt(raw).value > 0
  }

  lemma {:induction false} ParseIdIff(raw: string)
    ensures ParseId(raw).Some? <==> IsPositiveId(raw)
    ensures ParseId(raw).Some? ==> ParseId(raw) == ParseInt(raw)
  {
    hide ParseInt;
  }

  // The panel's own spelling of an id is accepted.
  lemma {:induction false} OwnIdParses(id: int)
    requires IsInt64(id)
    ensures ParseId(FormatInt(id)) == if id > 0 then Some(id) else None
  {
    ParseFormat(id);
    hide ParseInt, FormatInt;
  }

  lemma {:induction false} ParseIdsIff(raws: seq<string>)
    ensures (exists raw :: raw in raws && ParseId(raw).None?) <==> exists raw :: raw in raws && !IsPositiveId(raw)
  {
    hide ParseId, IsPositiveId;
    forall raw
      ensures ParseId(raw).None? <==> !IsPositiveId(raw)
    {
      ParseIdIff(raw);
    }
  }

  predicate Asks(ts: seq<Target>, id: int) {
    exists t :: t in ts && t.id == id
  }

  // One target for every distinct id, spelled as at its first occurrence.
  function FirstTargets(raws: seq<string>): seq<Target> {
    if |raws| == 0 then []
    else
      var front, last := FirstTargets(raws[..|raws| - 1]), raws[|raws| - 1];
      if ParseId(last).None? || Asks(front, ParseId(last).value) then front
      else front + [Target(last, ParseId(last).value)]
  }

  lemma {:induction false} FirstTargetsStep(raws: seq<string>, raw: string)
    ensures FirstTargets(raws + [raw]) ==
            if ParseId(raw).None? || Asks(FirstTargets(raws), ParseId(raw).value) then FirstTargets(raws)
            else FirstTargets(raws) + [Target(raw, ParseId(raw).value)]
  {
    assert (raws + [raw])[..|raws|] == raws;
  }

  // ts has exactly the requested ids, each once, spelled as requested.
  ghost predicate Targets(raws: seq<string>, ts: seq<Target>) {
    && (forall i, j :: 0 <= i < j < |ts| ==> ts[i].id != ts[j].id)
    && (forall t :: t in ts ==> t.rawId in raws && ParseId(t.rawId) == Some(t.id))
    && (forall raw :: raw in raws && ParseId(raw).Some? ==> Asks(ts, ParseId(raw).value))
  }

  lemma {:induction false} TargetsSkip(raws: seq<string>, ts: seq<Target>, raw: string)
    requires Targets(raws, ts) && (ParseId(raw).None? || Asks(ts, ParseId(raw).value))
    ensures Targets(raws + [raw], ts)
  {
    hide ParseId, Asks;
    assert forall x :: x in raws + [raw] <==> x in raws || x == raw;
  }

  lemma {:induction false} TargetsAdd(raws: seq<string>, ts: seq<Target>, raw: string)
    requires Targets(raws, ts) && ParseId(raw).Some? && !Asks(ts, ParseId(raw).value)
    ensures Targets(raws + [raw], ts + [Target(raw, ParseId(raw).value)])
  {
    hide ParseId;
    var t := Target(raw, ParseId(raw).value);
    assert forall i :: 0 <= i < |ts| ==> ts[i] in ts;
    AsksOneMore(ts, t);
    hide Asks;
    assert forall x :: x in raws + [raw] <==> x in raws || x == raw;
    assert forall x :: x in ts + [t] <==> x in ts || x == t;
  }

  lemma {:induction false} TargetsExact(raws: seq<string>)
    ensures Targets(raws, FirstTargets(raws))
  {
    if |raws| > 0 {
      hide ParseId, Asks, Targets, FirstTargets;
      var front, last := raws[..|raws| - 1], raws[|raws| - 1];
      assert raws == front + [last];
      TargetsExact(front);
      FirstTargetsStep(front, last);
      if ParseId(last).None? || Asks(FirstTargets(front), ParseId(last).value) {
        TargetsSkip(front, FirstTargets(front), last);
      } else {
        TargetsAdd(front, FirstTargets(front), last);
      }
    }
  }

  // None: the request is rejected.
  method Decode(raws: seq<string>) returns (r: Option<seq<Target>>)
    ensures r.None? <==> raws == [] || exists raw :: raw in raws && !IsPositiveId(raw)
    ensures r.Some? ==> r.value == FirstTargets(raws)
  {
    hide ParseId, Asks, FirstTargets, IsPositiveId;
    ParseIdsIff(raws);
    if |raws| == 0 {
      return None;
    }
    var seen: set<int> := {};
    var ts: seq<Target> := [];
    AsksNothing();
    NoTargets();
    for i := 0 to |raws|
      invariant ts == FirstTargets(raws[..i])
      invariant forall id :: id in seen <==> Asks(ts, id)
      invariant forall j :: 0 <= j < i ==> ParseId(raws[j]).Some?
    {
      assert raws[..i + 1] == raws[..i] + [raws[i]];
      FirstTargetsStep(raws[..i], raws[i]);
      var id := ParseId(raws[i]);
      if id.None? {
        assert raws[i] in raws;
        return None;
      }
      if id.value in seen {
        continue;
      }
      AsksOneMore(ts, Target(raws[i], id.value));
      seen := seen + {id.value};
      ts := ts + [Target(raws[i], id.value)];
    }
    assert raws[..|raws|] == raws;
    r := Some(ts);
  }

  lemma {:induction false} NoTargets()
    ensures FirstTargets([]) == []
  {
  }

  lemma {:induction false} AsksNothing()
    ensures forall id :: !Asks([], id)
  {
  }

  lemma {:induction false} AsksOneMore(ts: seq<Target>, t: Target)
    ensures forall id :: Asks(ts + [t], id) <==> Asks(ts, id) || id == t.id
  {
    assert (ts + [t])[|ts|] in ts + [t];
    assert forall x :: x in ts + [t] <==> x in ts || x == t;
  }

  datatype Entry = Entry(id: string, ok: bool, error: string)

  function PublicError(err: Option<Err>): (text: string)
    ensures text != ""
  {
    match err
    case None => "internal error"
    case Some(ErrNotFound) => "not found"
    case Some(ErrUnreachable) => "node unreachable"
    case Some(ErrRemote) => "remote node error"
    case Some(ErrValidation) => "invalid client"
    case Some(ErrInternal) => "internal error"
  }

  // What a remote panel's error text is taken for.
  function RemoteError(message: string): Err {
    var text := TrimSpace(message);
    if text == "not found" then ErrNotFound else if text == "node unreachable" then ErrUnreachable else ErrRemote
  }

  // Only the text counts, not the white space around it.
  lemma {:induction false} RemoteErrorIff(before: string, text: string, after: string)
    requires AllSpace(before) && AllSpace(after) && (text != "" ==> !IsSpace(text[0]) && !IsSpace(text[|text| - 1]))
    ensures RemoteError(before + text + after) ==
            if text == "not found" then ErrNotFound else if text == "node unreachable" then ErrUnreachable else ErrRemote
  {
    hide TrimSpace, IsSpace;
    TrimSpaceExact(before, text, after);
  }

  // An error keeps its kind when a node reports it, as far as the text can tell.
  lemma {:induction false} RemoteErrorOfPublic(e: Err)
    ensures PublicError(Some(e)) == match e
                                    case ErrNotFound => "not found"
                                    case ErrUnreachable => "node unreachable"
                                    case ErrRemote => "remote node error"
                                    case ErrValidation => "invalid client"
                                    case ErrInternal => "internal error"
    ensures PublicError(None) == PublicError(Some(ErrInternal))
    ensures RemoteError(PublicError(Some(e))) == if e.ErrNotFound? || e.ErrUnreachable? then e else ErrRemote
  {
    var text := PublicError(Some(e));
    hide TrimSpace, RemoteError;
    assert !IsSpace(text[0]) && !IsSpace(text[|text| - 1]);
    assert "" + text + "" == text;
    RemoteErrorIff("", text, "");
  }

  // index finds every target's position.
  ghost predicate Indexes(index: map<int, nat>, ts: seq<Target>) {
    && (forall i :: 0 <= i < |ts| ==> ts[i].id in index && index[ts[i].id] == i)
    && (forall id :: id in index ==> index[id] < |ts| && ts[index[id]].id == id)
  }

  method IndexTargets(ts: seq<Target>) returns (index: map<int, nat>)
    requires forall i, j :: 0 <= i < j < |ts| ==> ts[i].id != ts[j].id
    ensures Indexes(index, ts)
  {
    index := map[];
    for i := 0 to |ts|
      invariant forall j :: 0 <= j < i ==> ts[j].id in index && index[ts[j].id] == j
      invariant forall id :: id in index ==> index[id] < i && ts[index[id]].id == id
    {
      index := index[ts[i].id := i];
    }
  }

  predicate Has(results: seq<BulkResult>, id: int) {
    exists r :: r in results && r.id == id
  }

  // The entries after writing results into them: an entry with a result shows
  // it, the others stay.
  ghost predicate Overlaid(before: seq<Entry>, after: seq<Entry>, ts: seq<Target>, results: seq<BulkResult>)
    requires |before| == |ts|
  {
    && |after| == |before|
    && (forall i, r :: 0 <= i < |ts| && r in results && r.id == ts[i].id ==>
          after[i] == Entry(before[i].id, r.ok, if r.ok then before[i].error else PublicError(r.err)))
    && (forall i :: 0 <= i < |ts| && !Has(results, ts[i].id) ==> after[i] == before[i])
  }

  method ApplyBulkResults(out: seq<Entry>, index: map<int, nat>, ts: seq<Target>, results: seq<BulkResult>) returns (after: seq<Entry>)
    requires |out| == |ts| && Indexes(index, ts)
    requires forall i, j :: 0 <= i < j < |results| ==> results[i].id != results[j].id
    ensures Overlaid(out, after, ts, results)
  {
    after := out;
    for k := 0 to |results|
      invariant Overlaid(out, after, ts, results[..k])
    {
      var r := results[k];
      OverlayStep(out, after, index, ts, results, k);
      if r.id !in index {
        continue;
      }
      var i := index[r.id];
      after := after[i := Entry(after[i].id, r.ok, if r.ok then after[i].error else PublicError(r.err))];
    }
    assert results[..|results|] == results;
  }

  lemma {:induction false} OverlayStep(out: seq<Entry>, after: seq<Entry>, index: map<int, nat>, ts: seq<Target>,
                                       results: seq<BulkResult>, k: nat)
    requires |out| == |ts| && Indexes(index, ts) && k < |results|
    requires forall i, j :: 0 <= i < j < |results| ==> results[i].id != results[j].id
    requires Overlaid(out, after, ts, results[..k])
    ensures var r := results[k];
            if r.id !in index then Overlaid(out, after, ts, results[..k + 1])
            else
              var i := index[r.id];
              && after[i] == out[i]
              && Overlaid(out, after[i := Entry(after[i].id, r.ok, if r.ok then after[i].error else PublicError(r.err))], ts,
                          results[..k + 1])
  {
    hide PublicError;
    var r := results[k];
    assert results[..k + 1] == results[..k] + [r];
    assert forall x :: x in results[..k + 1] <==> x in results[..k] || x == r;
    assert !Has(results[..k], r.id);
    forall id
      ensures Has(results[..k + 1], id) <==> Has(results[..k], id) || id == r.id
    {
      assert r in results[..k + 1];
    }
  }

  // ---- the remote panel's end ------------------------------------------------------

  // The ids a response reports as changed.
  function OkSet(out: seq<Entry>, ts: seq<Target>): set<int>
    requires |out| == |ts|
  {
    set i | 0 <= i < |ts| && out[i].ok :: ts[i].id
  }

  // The ids asked for that the panel can change.
  function ChangeableTargets(rows: ClientRepo.Rows, lookupFailed: set<int>, ts: seq<Target>): set<int> {
    set t | t in ts && Changeable(rows, lookupFailed, t.id) :: t.id
  }

  predicate Settable(m: Mutation) {
    m.SetStatus? ==> m.status == Domain.Active || m.status == Domain.Disabled
  }

  // None: the request was refused and nothing was done. Otherwise one entry per
  // distinct id; the table changes exactly on the ids reported as changed, and one
  // config apply is asked for if there are any. These are all the ids the panel
  // can change, or none, and all of them when no statement fails.
  method NodeBulk(p: Panel, raws: seq<string>, m: Mutation, env: Env) returns (after: Panel, answer: Option<seq<Entry>>)
    ensures answer.None? <==> raws == [] || (exists raw :: raw in raws && !IsPositiveId(raw)) ||
                              (m.SetStatus? && m.status != Domain.Active && m.status != Domain.Disabled)
    ensures answer.None? ==> after == p
    ensures answer.Some? ==>
              var (out, ts) := (answer.value, FirstTargets(raws));
              && |out| == |ts|
              && (forall i :: 0 <= i < |ts| ==> out[i].id == ts[i].rawId && (out[i].ok <==> out[i].error == ""))
              && after.rows == MutatedAll(p.rows, OkSet(out, ts), m)
              && after.triggers == p.triggers + (if !m.ResetTraffic? && OkSet(out, ts) != {} then 1 else 0)
              && (OkSet(out, ts) == {} || OkSet(out, ts) == ChangeableTargets(p.rows, env.lookupFailed, ts))
              && (env.fault.None? ==> OkSet(out, ts) == ChangeableTargets(p.rows, env.lookupFailed, ts))
  {
    hide MutatedAll, Overlaid, Answers, Indexes, OkIds, FirstTargets, OkSet, ChangeableIds, Changeable, ChangeableTargets, ParseId,
      IsPositiveId;
    var decoded := Decode(raws);
    if decoded.None? || !Settable(m) {
      return p, None;
    }
    var ts := decoded.value;
    TargetsExact(raws);
    var ids := seq(|ts|, i requires 0 <= i < |ts| => ts[i].id);
    var results;
    after, results := BulkMutate(p, ids, m, env);
    AnswersDistinct(results, ids);
    var index := IndexTargets(ts);
    var blank := seq(|ts|, i requires 0 <= i < |ts| => Entry(ts[i].rawId, false, ""));
    var out := ApplyBulkResults(blank, index, ts, results);
    NodeAnswer(ts, ids, results, blank, out);
    AnsweredOk(ts, ids, results, out);
    ChangeableAsked(p.rows, env.lookupFailed, ts, ids);
    answer := Some(out);
  }

  lemma {:induction false} ChangeableAsked(rows: ClientRepo.Rows, lookupFailed: set<int>, ts: seq<Target>, ids: seq<int>)
    requires |ids| == |ts| && forall i :: 0 <= i < |ts| ==> ids[i] == ts[i].id
    ensures Elements(ChangeableIds(rows, lookupFailed, ids)) == ChangeableTargets(rows, lookupFailed, ts)
  {
    hide Changeable, ChangeableIds;
    forall id
      ensures id in ids <==> exists t :: t in ts && t.id == id
    {
      if id in ids {
        var i :| 0 <= i < |ids| && ids[i] == id;
        assert ts[i] in ts;
      }
      if exists t :: t in ts && t.id == id {
        var t :| t in ts && t.id == id;
        var i :| 0 <= i < |ts| && ts[i] == t;
        assert ids[i] == id;
      }
    }
    forall id
      ensures id in Elements(ChangeableIds(rows, lookupFailed, ids)) <==> id in ChangeableTargets(rows, lookupFailed, ts)
    {
      assert id in ChangeableIds(rows, lookupFailed, ids) <==> id in ids && Changeable(rows, lookupFailed, id);
    }
  }

  // What a panel reports as changed are clients of its own.
  lemma {:induction false} ChangeableAreLocal(rows: ClientRepo.Rows, lookupFailed: set<int>, ts: seq<Target>)
    ensures forall id :: id in ChangeableTargets(rows, lookupFailed, ts) ==> id in rows && rows[id].Local()
  {
  }

  // An entry is reported as changed exactly when its id is.
  lemma {:induction false} OkSetAt(out: seq<Entry>, ts: seq<Target>, i: nat)
    requires |out| == |ts| && i < |ts| && forall j, k :: 0 <= j < k < |ts| ==> ts[j].id != ts[k].id
    ensures out[i].ok <==> ts[i].id in OkSet(out, ts)
  {
  }

  lemma {:induction false} AnswersDistinct(results: seq<BulkResult>, ids: seq<int>)
    requires Answers(results, ids) && Collections.Distinct(ids)
    ensures forall i, j :: 0 <= i < j < |results| ==> results[i].id != results[j].id
  {
  }

  lemma {:induction false} OkIdsAsked(results: seq<BulkResult>, ids: seq<int>)
    requires Answers(results, ids)
    ensures forall id :: id in OkIds(results) ==> id in ids
  {
  }

  lemma {:induction false} AnsweredOk(ts: seq<Target>, ids: seq<int>, results: seq<BulkResult>, out: seq<Entry>)
    requires |ids| == |out| == |ts| && Answers(results, ids)
    requires forall i :: 0 <= i < |ts| ==> ids[i] == ts[i].id && (out[i].ok <==> ts[i].id in OkIds(results))
    ensures OkSet(out, ts) == OkIds(results)
  {
    OkIdsAsked(results, ids);
    hide OkIds, Answers;
    forall id | id in OkIds(results)
      ensures id in OkSet(out, ts)
    {
      var i :| 0 <= i < |ids| && ids[i] == id;
      assert out[i].ok && ts[i].id == id;
    }
  }

  lemma {:induction false} NodeAnswer(ts: seq<Target>, ids: seq<int>, results: seq<BulkResult>, blank: seq<Entry>, out: seq<Entry>)
    requires forall i, j :: 0 <= i < j < |ts| ==> ts[i].id != ts[j].id
    requires |ids| == |blank| == |ts| && Answers(results, ids) && Overlaid(blank, out, ts, results)
    requires forall i :: 0 <= i < |ts| ==> ids[i] == ts[i].id && blank[i] == Entry(ts[i].rawId, false, "")
    ensures forall i :: 0 <= i < |ts| ==>
                          && out[i].id == ts[i].rawId
                          && (out[i].ok <==> ts[i].id in OkIds(results))
                          && (out[i].ok <==> out[i].error == "")
  {
    hide PublicError;
    forall i | 0 <= i < |ts|
      ensures out[i] == Entry(ts[i].rawId, results[i].ok, if results[i].ok then "" else PublicError(results[i].err))
      ensures results[i].ok <==> ts[i].id in OkIds(results)
    {
      assert results[i] in results && results[i].id == ts[i].id;
      if ts[i].id in OkIds(results) {
        var r :| r in results && r.ok && r.id == ts[i].id;
        var j :| 0 <= j < |results| && results[j] == r;
        assert ids[j] == ts[j].id;
      }
    }
  }
}
