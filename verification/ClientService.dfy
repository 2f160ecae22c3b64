// Lifecycle of local clients: internal/services/client/service.go.
module ClientService {
  import opened ClientRepo
  import Collections
  import opened Domain
  import opened Text

  datatype Error = NotFound | Validation | InboundMissing | Exists

  datatype Result<+T> = Ok(value: T) | Err(error: Error)

  datatype CreateInput = CreateInput(name: string, inboundId: int, inboundIds: seq<int>, totalQuota: int, expiry: Option<Time>,
                                     startAfterFirstUse: bool)

  datatype UpdateInput = UpdateInput(name: Option<string>, inboundId: Option<int>, inboundIds: Option<seq<int>>,
                                     totalQuota: Option<int>, expiry: Option<Time>, status: Option<ClientStatus>,
                                     startAfterFirstUse: Option<bool>)

  // The freshly generated credentials of a new client.
  datatype Secrets = Secrets(uuid: string, password: string, subToken: string)

  // isLocal has an entry for every inbound: whether it belongs to this panel.
  predicate Usable(isLocal: map<int, bool>, id: int) {
    id in isLocal && isLocal[id]
  }

  // Some id is given, and every one given is an inbound of this panel.
  ghost predicate Bindable(isLocal: map<int, bool>, asked: seq<int>) {
    (exists id :: id in asked && id != 0) && forall id :: id in asked && id != 0 ==> id in isLocal && isLocal[id]
  }

  method ResolveInboundSet(isLocal: map<int, bool>, ids: seq<int>) returns (r: Result<seq<int>>)
    ensures r.Ok? <==> Bindable(isLocal, ids)
    ensures r.Ok? ==> r.value == FirstOccurrences(ids) && |r.value| > 0
    ensures r.Err? ==> r.error == InboundMissing || r.error == Validation
    ensures r.Err? && r.error == InboundMissing ==> exists id :: id in ids && id !in isLocal
  {
    var seen: set<int> := {};
    var out: seq<int> := [];
    for i := 0 to |ids|
      invariant out == FirstOccurrences(ids[..i])
      invariant forall id :: id in seen <==> id in out
      invariant forall id :: id in out ==> Usable(isLocal, id)
    {
      var id := ids[i];
      assert ids[..i + 1][..i] == ids[..i];
      if id == 0 || id in seen {
        continue;
      }
      assert id in ids;
      if id !in isLocal {
        return Err(InboundMissing);
      }
      if !isLocal[id] {
        return Err(Validation);
      }
      seen := seen + {id};
      out := out + [id];
    }
    assert ids[..|ids|] == ids;
    if |out| == 0 {
      return Err(Validation);
    }
    assert out[0] in ids;
    r := Ok(out);
  }

  function NewClient(input: CreateInput, binds: seq<int>, secrets: Secrets, id: int): Client
    requires |binds| > 0
  {
    Client(id, None, "", binds[0], binds, input.name, secrets.uuid, secrets.password, 0, 0, input.totalQuota, input.expiry, Active,
           secrets.subToken, input.startAfterFirstUse, true, None, None)
  }

  function CreateBinds(input: CreateInput): seq<int> {
    FirstOccurrences(if |input.inboundIds| == 0 then [input.inboundId] else input.inboundIds)
  }

  // The binding set an update asks for; None leaves the bindings alone.
  function UpdateBinds(input: UpdateInput): Option<seq<int>> {
    if input.inboundIds.Some? then Some(FirstOccurrences(input.inboundIds.value))
    else if input.inboundId.Some? then Some(FirstOccurrences([input.inboundId.value]))
    else None
  }

  // The client after an update: only the given fields change, status and enabled together.
  function Applied(c: Client, input: UpdateInput): Client {
    var binds := UpdateBinds(input);
    var rebound := if binds.Some? && |binds.value| > 0 then c.(inboundId := binds.value[0], inboundIds := binds.value) else c;
    var described :=
      rebound.(name := if input.name.Some? then input.name.value else c.name,
               totalQuota := if input.totalQuota.Some? then input.totalQuota.value else c.totalQuota,
               expiry := if input.expiry.Some? then input.expiry else c.expiry,
               startAfterFirstUse := if input.startAfterFirstUse.Some? then input.startAfterFirstUse.value else c.startAfterFirstUse);
    if input.status.Some? then described.(status := input.status.value, enabled := input.status.value == Active) else described
  }

  // The binding set stored for the ids asked for: the non-zero ones, each once.
  ghost predicate BindsAsked(c: Client, asked: seq<int>) {
    && |c.inboundIds| > 0 && c.inboundId == c.inboundIds[0] && Collections.Distinct(c.inboundIds)
    && forall id :: id in c.inboundIds <==> id in asked && id != 0
  }

  // The new client column by column
  ghost predicate CarriesCreate(c: Client, input: CreateInput, secrets: Secrets) {
    && c.nodeId.None? && c.remoteId == "" && c.name == input.name
    && c.uuid == secrets.uuid && c.password == secrets.password && c.subToken == secrets.subToken
    && c.usedUp == 0 == c.usedDown && c.totalQuota == input.totalQuota && c.expiry == input.expiry
    && c.status == Active && c.enabled && c.startAfterFirstUse == input.startAfterFirstUse
    && c.firstUsedAt.None? && c.lastUsedAt.None?
    && BindsAsked(c, if |input.inboundIds| == 0 then [input.inboundId] else input.inboundIds)
  }

  // What an update asks to bind to, if anything
  ghost function AskedBinds(input: UpdateInput): Option<seq<int>> {
    if input.inboundIds.Some? then input.inboundIds
    else if input.inboundId.Some? then Some([input.inboundId.value])
    else None
  }

  // The updated client column by column: what is given is taken, the rest stays.
  ghost predicate CarriesUpdate(before: Client, after: Client, input: UpdateInput) {
    && after == before.(name := after.name, totalQuota := after.totalQuota, expiry := after.expiry,
                        startAfterFirstUse := after.startAfterFirstUse, status := after.status, enabled := after.enabled,
                        inboundId := after.inboundId, inboundIds := after.inboundIds)
    && after.name == (if input.name.Some? then input.name.value else before.name)
    && after.totalQuota == (if input.totalQuota.Some? then input.totalQuota.value else before.totalQuota)
    && after.startAfterFirstUse == (if input.startAfterFirstUse.Some? then input.startAfterFirstUse.value else before.startAfterFirstUse)
    && after.expiry == (if input.expiry.Some? then input.expiry else before.expiry)
    && (input.status.Some? ==> after.status == input.status.value && (after.enabled <==> input.status.value == Active))
    && (input.status.None? ==> after.status == before.status && after.enabled == before.enabled)
    && (AskedBinds(input).Some? ==> BindsAsked(after, AskedBinds(input).value))
    && (AskedBinds(input).None? ==> after.inboundId == before.inboundId && after.inboundIds == before.inboundIds)
  }

  class ClientService {
    const repo: ClientRepo
    var triggers: nat

    constructor (repo: ClientRepo)
      ensures this.repo == repo && triggers == 0
    {
      this.repo, triggers := repo, 0;
    }

    // A new client starts active and enabled, and asks for a new config.
    method Create(input: CreateInput, isLocal: map<int, bool>, secrets: Secrets, newId: int, ok: bool) returns (r: Result<Client>)
      requires repo.Valid() && newId !in repo.rows
      modifies this, repo
      ensures repo.Valid()
      ensures r.Ok? <==>
              && input.name != "" && Bindable(isLocal, if |input.inboundIds| == 0 then [input.inboundId] else input.inboundIds)
              && ok && forall id :: id in old(repo.rows) && old(repo.rows)[id].nodeId.None? ==> old(repo.rows)[id].name != input.name
      ensures r.Ok? ==> CreateBinds(input) != [] && r.value == NewClient(input, CreateBinds(input), secrets, newId)
      ensures r.Ok? ==> r.value.id == newId && CarriesCreate(r.value, input, secrets)
      ensures repo.rows == if r.Ok? then old(repo.rows)[newId := r.value] else old(repo.rows)
      ensures triggers == old(triggers) + if r.Ok? then 1 else 0
    {
      hide FirstOccurrences;
      if input.name == "" {
        return Err(Validation);
      }
      var candidate := if |input.inboundIds| == 0 then [input.inboundId] else input.inboundIds;
      var resolved := ResolveInboundSet(isLocal, candidate);
      if resolved.Err? {
        return Err(resolved.error);
      }
      var binds := resolved.value;
      NormalizedStays(binds, binds[0]);
      var created := repo.Create(NewClient(input, binds, secrets, newId), newId, ok);
      if created.None? {
        return Err(Exists);
      }
      triggers := triggers + 1;
      r := Ok(created.value);
    }

    // Writes the given fields of a local client.
    method Update(id: int, input: UpdateInput, isLocal: map<int, bool>, ok: bool) returns (r: Result<Client>)
      requires repo.Valid()
      modifies this, repo
      ensures repo.Valid()
      ensures id !in old(repo.rows) <==> r == Err(NotFound)
      ensures r.Ok? <==>
              && id in old(repo.rows) && old(repo.rows)[id].nodeId.None? && input.name != Some("")
              && (AskedBinds(input).Some? ==> Bindable(isLocal, AskedBinds(input).value))
              && ok
              && var name := if input.name.Some? then input.name.value else old(repo.rows)[id].name;
                 forall x :: x in old(repo.rows) && x != id && old(repo.rows)[x].nodeId.None? ==> old(repo.rows)[x].name != name
      ensures r.Ok? ==> r.value == Applied(old(repo.rows)[id], input) && CarriesUpdate(old(repo.rows)[id], r.value, input)
      ensures repo.rows == if r.Ok? then old(repo.rows)[id := Edited(old(repo.rows)[id], r.value)] else old(repo.rows)
      ensures triggers == old(triggers) + if r.Ok? then 1 else 0
    {
      hide FirstOccurrences, Edited, NameTaken, Usable;
      var found := repo.GetById(id);
      if found.None? {
        return Err(NotFound);
      }
      var c := found.value;
      if c.nodeId.Some? {
        return Err(Validation);
      }
      if input.name == Some("") {
        return Err(Validation);
      }
      if input.inboundIds.Some? || input.inboundId.Some? {
        var candidate := if input.inboundIds.Some? then input.inboundIds.value else [input.inboundId.value];
          var resolved := ResolveInboundSet(isLocal, candidate);
        if resolved.Err? {
          return Err(resolved.error);
        }
      }
      c := Applied(c, input);
      AppliedKeepsId(found.value, input);
      AppliedCarries(found.value, input);
      assert c.name == (if input.name.Some? then input.name.value else found.value.name);
      hide Applied, CarriesUpdate, Bindable;
      var updated := repo.Update(c, ok);
      if !updated {
        return Err(Exists);
      }
      triggers := triggers + 1;
      r := Ok(c);
    }

    method SetStatus(id: int, status: ClientStatus, ok: bool) returns (r: Result<Client>)
      requires repo.Valid()
      modifies this, repo
      ensures repo.Valid()
      ensures r.Ok? <==> id in old(repo.rows) && old(repo.rows)[id].nodeId.None? && ok
      ensures r.Ok? ==> r.value == old(repo.rows)[id].(status := status, enabled := status == Active)
      ensures repo.rows == if r.Ok? then old(repo.rows)[id := r.value] else old(repo.rows)
      ensures triggers == old(triggers) + if r.Ok? then 1 else 0
    {
      var found := repo.GetById(id);
      if found.None? {
        return Err(NotFound);
      }
      var c := found.value;
      if c.nodeId.Some? {
        return Err(Validation);
      }
      var enabled := status == Active;
      repo.SetStatus(id, status, enabled, ok);
      if !ok {
        return Err(Exists);
      }
      triggers := triggers + 1;
      r := Ok(c.(status := status, enabled := enabled));
    }
  }

  lemma {:induction false} AppliedKeepsId(c: Client, input: UpdateInput)
    ensures Applied(c, input).id == c.id && Applied(c, input).nodeId == c.nodeId
  {
  }

  lemma {:induction false} AppliedCarries(c: Client, input: UpdateInput)
    requires AskedBinds(input).Some? ==> exists id :: id in AskedBinds(input).value && id != 0
    ensures CarriesUpdate(c, Applied(c, input), input)
  {
    if AskedBinds(input).Some? {
      var asked := AskedBinds(input).value;
      var id :| id in asked && id != 0;
      assert id in FirstOccurrences(asked);
      assert UpdateBinds(input) == Some(FirstOccurrences(asked));
    }
  }

  // A resolved set is stored as it is.
  lemma {:induction false} NormalizedStays(ids: seq<int>, primary: int)
    requires Collections.Distinct(ids) && 0 !in ids && |ids| > 0
    ensures NormalizeInboundSet(ids, primary) == ids
  {
    FirstOccurrencesOfDistinct(ids);
  }

  lemma {:induction false} FirstOccurrencesOfDistinct(ids: seq<int>)
    requires Collections.Distinct(ids) && 0 !in ids
    ensures FirstOccurrences(ids) == ids
  {
    if |ids| > 0 {
      var front := ids[..|ids| - 1];
      assert ids == front + [ids[|ids| - 1]];
      FirstOccurrencesOfDistinct(front);
    }
  }
}
