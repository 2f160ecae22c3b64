// What a compiled configuration does with a client's traffic: every client is
// pinned to its own outbound (internal/services/singbox/generator.go, tag.go).
module Routing {
  import Collections
  import opened Domain
  import opened Generator
  import opened Tag
  import opened Text

  datatype Target = Rejected | Via(tag: string)

  predicate Matches(rule: Rule, protocol: string, user: string) {
    match rule
    case Reject(p) => p == protocol
    case ToOutbound(authUser, _) => authUser == user
  }

  // The core takes the first matching rule, or the final outbound.
  function Route(rules: seq<Rule>, final: string, protocol: string, user: string): Target {
    if |rules| == 0 then Via(final)
    else if Matches(rules[0], protocol, user) then
      if rules[0].Reject? then Rejected else Via(rules[0].outbound)
    else Route(rules[1..], final, protocol, user)
  }

  // What the repositories hand to Render: rows with their own int64 ids, and
  // binding sets without repetition.
  ghost predicate ValidInput(inbounds: seq<Inbound>, clients: seq<Client>) {
    && (forall i, j :: 0 <= i < j < |inbounds| ==> inbounds[i].id != inbounds[j].id)
    && (forall i, j :: 0 <= i < j < |clients| ==> clients[i].id != clients[j].id)
    && (forall c :: c in clients ==> IsInt64(c.id) && Collections.Distinct(Bindings(c)))
  }

  // ---- user lists ------------------------------------------------------------

  lemma {:induction false} CopiesCount(c: Client, binds: seq<int>, ib: int)
    requires Collections.Distinct(binds)
    ensures Copies(c, binds, ib) == if ib in binds then [c] else []
  {
    if |binds| > 0 {
      var front := binds[..|binds| - 1];
      CopiesCount(c, front, ib);
      assert binds == front + [binds[|binds| - 1]];
    }
  }

  ghost predicate Bound(clients: seq<Client>, ib: int, c: Client) {
    c in clients && c.status == Active && if c.inboundIds == [] then ib == c.inboundId else ib in c.inboundIds
  }

  lemma {:induction false} BoundOneMore(front: seq<Client>, c: Client, ib: int, x: Client)
    ensures Bound(front + [c], ib, x) <==> Bound(front, ib, x) || (x == c && c.status == Active && ib in Bindings(c))
  {
    assert x in front + [c] <==> x in front || x == c;
  }

  // A user list holds every active client bound to the inbound, each exactly once.
  lemma {:induction false} MembersExactlyOnce(inbounds: seq<Inbound>, clients: seq<Client>, ib: int)
    requires ValidInput(inbounds, clients)
    ensures Collections.Distinct(Members(clients, ib))
    ensures forall c :: c in Members(clients, ib) <==> Bound(clients, ib, c)
  {
    if |clients| > 0 {
      var front, c := clients[..|clients| - 1], clients[|clients| - 1];
      assert clients == front + [c];
      MembersExactlyOnce(inbounds, front, ib);
      CopiesCount(c, Bindings(c), ib);
      var more := if c.status == Active && ib in Bindings(c) then [c] else [];
      assert Members(clients, ib) == Members(front, ib) + more;
      assert c !in Members(front, ib);
      forall x
        ensures x in Members(clients, ib) <==> Bound(clients, ib, x)
      {
        hide Bound, Bindings, Members, ValidInput, Copies;
        BoundOneMore(front, c, ib, x);
      }
    }
  }

  // ---- outbounds and rules ---------------------------------------------------

  ghost predicate DistinctClients(cs: seq<Client>) {
    forall i, j :: 0 <= i < j < |cs| ==> cs[i].id != cs[j].id
  }

  lemma {:induction false} AddNewOnce(cs: seq<Client>, more: seq<Client>)
    requires DistinctClients(cs)
    ensures DistinctClients(AddNew(cs, more))
    ensures forall c :: c in AddNew(cs, more) ==> c in cs || c in more
    ensures forall id :: HasId(AddNew(cs, more), id) <==> HasId(cs, id) || HasId(more, id)
  {
    if |more| > 0 {
      var rest, c := more[..|more| - 1], more[|more| - 1];
      assert more == rest + [c];
      AddNewOnce(cs, rest);
      HasIdAppend(rest, c);
      HasIdAppend(AddNew(cs, rest), c);
      if !HasId(AddNew(cs, rest), c.id) {
        forall i | 0 <= i < |AddNew(cs, rest)|
          ensures AddNew(cs, rest)[i].id != c.id
        {
          assert AddNew(cs, rest)[i] in AddNew(cs, rest);
        }
      }
    }
  }

  // The clients with an outbound and a rule are those with a user entry in some
  // inbound, each once, however many inbounds it is bound to.
  lemma {:induction false} EmittedExactlyOnce(inbounds: seq<Inbound>, all: seq<Inbound>, clients: seq<Client>)
    requires ValidInput(all, clients) && inbounds <= all
    ensures DistinctClients(Emitted(inbounds, clients))
    ensures forall c :: c in Emitted(inbounds, clients) <==> exists ib :: ib in inbounds && Bound(clients, ib.id, c)
  {
    if |inbounds| > 0 {
      var front, ib := inbounds[..|inbounds| - 1], inbounds[|inbounds| - 1];
      assert inbounds == front + [ib];
      EmittedExactlyOnce(front, all, clients);
      MembersExactlyOnce(all, clients, ib.id);
      var before, members := Emitted(front, clients), Members(clients, ib.id);
      AddNewOnce(before, members);
      forall c
        ensures c in Emitted(inbounds, clients) <==> exists x :: x in inbounds && Bound(clients, x.id, c)
      {
        EmittedMember(front, ib, clients, c);
      }
    } else {
      assert Emitted(inbounds, clients) == [];
    }
  }

  lemma {:induction false} EmittedMember(front: seq<Inbound>, ib: Inbound, clients: seq<Client>, c: Client)
    requires forall i, j :: 0 <= i < j < |clients| ==> clients[i].id != clients[j].id
    requires forall x :: x in Members(clients, ib.id) <==> Bound(clients, ib.id, x)
    requires forall x :: x in Emitted(front, clients) <==> exists b :: b in front && Bound(clients, b.id, x)
    requires DistinctClients(Emitted(front, clients))
    ensures c in AddNew(Emitted(front, clients), Members(clients, ib.id)) <==>
            exists b :: b in front + [ib] && Bound(clients, b.id, c)
  {
    hide Emitted, Members, AddNew;
    AddNewMember(Emitted(front, clients), Members(clients, ib.id), clients, c);
    assert forall b :: b in front + [ib] <==> b in front || b == ib;
  }

  lemma {:induction false} AddNewMember(before: seq<Client>, members: seq<Client>, clients: seq<Client>, c: Client)
    requires forall i, j :: 0 <= i < j < |clients| ==> clients[i].id != clients[j].id
    requires DistinctClients(before) && forall x :: x in before || x in members ==> x in clients
    ensures c in AddNew(before, members) <==> c in before || c in members
  {
    AddNewOnce(before, members);
    hide AddNew;
    var after := AddNew(before, members);
    if c in before || c in members {
      assert HasId(after, c.id);
      var x :| x in after && x.id == c.id;
      assert x in clients && c in clients;
      assert x == c;
    }
  }

  function FirstNamed(cs: seq<Client>, name: string): Option<Client> {
    if |cs| == 0 then None else if cs[0].name == name then Some(cs[0]) else FirstNamed(cs[1..], name)
  }

  lemma {:induction false} RouteIsFirstNamed(cs: seq<Client>, final: string, protocol: string, name: string)
    ensures Route(UserRules(cs), final, protocol, name) ==
            match FirstNamed(cs, name)
            case None => Via(final)
            case Some(c) => Via(ClientOutboundTag(c.id))
  {
    hide ClientOutboundTag;
    if |cs| > 0 {
      RouteIsFirstNamed(cs[1..], final, protocol, name);
      assert UserRules(cs)[1..] == UserRules(cs[1..]);
    }
  }

  lemma {:induction false} FirstNamedOf(cs: seq<Client>, c: Client)
    requires c in cs && DistinctClients(cs)
    ensures FirstNamed(cs, c.name).Some? && FirstNamed(cs, c.name).value in cs && FirstNamed(cs, c.name).value.name == c.name
    ensures FirstNamed(cs, c.name) == Some(c) <==>
            forall i, j :: 0 <= j < i < |cs| && cs[i] == c ==> cs[j].name != c.name
  {
    if cs[0].name != c.name {
      FirstNamedOf(cs[1..], c);
      if FirstNamed(cs[1..], c.name) == Some(c) {
        forall i, j | 0 <= j < i < |cs| && cs[i] == c
          ensures cs[j].name != c.name
        {
          if j > 0 {
            assert cs[1..][i - 1] == c && cs[1..][j - 1] == cs[j];
          }
        }
      } else {
        var i, j :| 0 <= j < i < |cs[1..]| && cs[1..][i] == c && cs[1..][j].name == c.name;
        assert cs[i + 1] == c && cs[j + 1].name == c.name;
      }
    } else if cs[0] != c {
      var i :| 0 <= i < |cs| && cs[i] == c;
      assert 0 < i;
    }
  }

  // A client's traffic that is not BitTorrent leaves through its own outbound
  // exactly when no client emitted before it has its name.
  lemma {:induction false} OwnOutboundIff(g: GeneratorConfig, inbounds: seq<Inbound>, clients: seq<Client>, cfg: Config, c: Client,
                                          protocol: string)
    requires ValidInput(inbounds, clients) && Compiles(g, inbounds, clients, cfg)
    requires c in Emitted(inbounds, clients) && protocol != "bittorrent"
    ensures var cs := Emitted(inbounds, clients);
            Route(cfg.rules, cfg.final, protocol, c.name) == Via(ClientOutboundTag(c.id)) <==>
            forall i, j :: 0 <= j < i < |cs| && cs[i] == c ==> cs[j].name != c.name
  {
    hide Builds;
    var cs := Emitted(inbounds, clients);
    EmittedExactlyOnce(inbounds, inbounds, clients);
    assert cfg.rules[1..] == UserRules(cs);
    RouteIsFirstNamed(cs, cfg.final, protocol, c.name);
    FirstNamedOf(cs, c);
    var first := FirstNamed(cs, c.name).value;
    assert Bounded(clients, first) && Bounded(clients, c);
    if ClientOutboundTag(first.id) == ClientOutboundTag(c.id) {
      TagInjective(first.id, c.id);
      assert first == c;
    }
  }

  predicate Bounded(clients: seq<Client>, c: Client) {
    c in clients && IsInt64(c.id)
  }

  // With unique names, as the local clients have, every emitted client is routed
  // to its own outbound; the tag it leaves through names it and nobody else.
  lemma {:induction false} EveryClientOwnOutbound(g: GeneratorConfig, inbounds: seq<Inbound>, clients: seq<Client>, cfg: Config,
                                                  c: Client, protocol: string)
    requires ValidInput(inbounds, clients) && Compiles(g, inbounds, clients, cfg)
    requires forall i, j :: 0 <= i < j < |clients| ==> clients[i].name != clients[j].name
    requires c in Emitted(inbounds, clients) && protocol != "bittorrent"
    ensures Route(cfg.rules, cfg.final, protocol, c.name) == Via(ClientOutboundTag(c.id))
    ensures ParseClientOutboundTag(ClientOutboundTag(c.id)) == Some(c.id)
  {
    hide Builds;
    var cs := Emitted(inbounds, clients);
    EmittedExactlyOnce(inbounds, inbounds, clients);
    forall i, j | 0 <= j < i < |cs| && cs[i] == c
      ensures cs[j].name != c.name
    {
      assert cs[j] in cs && cs[i] in cs;
      assert cs[j] in clients && cs[i] in clients;
      assert cs[j].id != cs[i].id;
    }
    OwnOutboundIff(g, inbounds, clients, cfg, c, protocol);
    assert Bounded(clients, c);
    TagRoundTrip(c.id);
  }

  // BitTorrent traffic is rejected whoever sends it.
  lemma {:induction false} BittorrentRejected(g: GeneratorConfig, inbounds: seq<Inbound>, clients: seq<Client>, cfg: Config,
                                              user: string)
    requires Compiles(g, inbounds, clients, cfg)
    ensures Route(cfg.rules, cfg.final, "bittorrent", user) == Rejected
  {
    hide Builds;
    assert cfg.rules[0] == Reject("bittorrent");
  }

  // Clients with distinct int64 ids
  ghost predicate Numbered(cs: seq<Client>) {
    DistinctClients(cs) && forall i :: 0 <= i < |cs| ==> IsInt64(cs[i].id)
  }

  lemma {:induction false} EmittedNumbered(inbounds: seq<Inbound>, clients: seq<Client>)
    requires ValidInput(inbounds, clients)
    ensures Numbered(Emitted(inbounds, clients))
  {
    var cs := Emitted(inbounds, clients);
    EmittedExactlyOnce(inbounds, inbounds, clients);
    forall i | 0 <= i < |cs|
      ensures IsInt64(cs[i].id)
    {
      assert cs[i] in cs;
      assert Bounded(clients, cs[i]);
    }
  }

  lemma {:induction false} TagsParse(cs: seq<Client>)
    requires Numbered(cs)
    ensures forall i :: 0 <= i < |cs| ==> ParseClientOutboundTag(UserOutbounds(cs)[i]) == Some(cs[i].id)
  {
    forall i | 0 <= i < |cs|
      ensures ParseClientOutboundTag(UserOutbounds(cs)[i]) == Some(cs[i].id)
    {
      TagRoundTrip(cs[i].id);
    }
  }

  // No outbound appears twice.
  lemma {:induction false} OutboundsDistinct(g: GeneratorConfig, inbounds: seq<Inbound>, clients: seq<Client>, cfg: Config)
    requires ValidInput(inbounds, clients) && Compiles(g, inbounds, clients, cfg)
    ensures Collections.Distinct(cfg.outbounds)
  {
    hide Builds, ParseClientOutboundTag, ClientOutboundTag, Emitted, UserRules, UserNames;
    var cs := Emitted(inbounds, clients);
    EmittedNumbered(inbounds, clients);
    TagsParse(cs);
    DirectIsNoClient();
    var tags := UserOutbounds(cs);
    hide ValidInput, UserOutbounds;
    forall i, j | 0 <= i < j < |cfg.outbounds|
      ensures cfg.outbounds[i] != cfg.outbounds[j]
    {
      assert cfg.outbounds[j] == tags[j - 1];
      if i > 0 {
        assert cfg.outbounds[i] == tags[i - 1];
      }
    }
  }

  ghost predicate Names(tags: seq<string>, id: int) {
    exists tag :: tag in tags && ParseClientOutboundTag(tag) == Some(id)
  }

  lemma {:induction false} TagsName(cs: seq<Client>, id: int)
    requires Numbered(cs)
    ensures Names(UserOutbounds(cs), id) <==> HasId(cs, id)
  {
    hide ParseClientOutboundTag, ClientOutboundTag;
    TagsParse(cs);
    var tags := UserOutbounds(cs);
    if HasId(cs, id) {
      var c :| c in cs && c.id == id;
      var i :| 0 <= i < |cs| && cs[i] == c;
      assert tags[i] in tags;
    }
    if Names(tags, id) {
      var tag :| tag in tags && ParseClientOutboundTag(tag) == Some(id);
      var i :| 0 <= i < |tags| && tags[i] == tag;
      assert cs[i] in cs && cs[i].id == id;
    }
  }

  // An outbound tag names a client exactly when that client is emitted.
  lemma {:induction false} OutboundsNameEmitted(g: GeneratorConfig, inbounds: seq<Inbound>, clients: seq<Client>, cfg: Config, id: int)
    requires ValidInput(inbounds, clients) && Compiles(g, inbounds, clients, cfg)
    ensures Names(cfg.outbounds, id) <==> HasId(Emitted(inbounds, clients), id)
  {
    hide Builds, ParseClientOutboundTag, Emitted, HasId, UserOutbounds;
    EmittedNumbered(inbounds, clients);
    TagsName(Emitted(inbounds, clients), id);
    DirectIsNoClient();
  }

  // Every rule and the final target lead to an outbound of the list.
  lemma {:induction false} NoDanglingRule(g: GeneratorConfig, inbounds: seq<Inbound>, clients: seq<Client>, cfg: Config, rule: Rule)
    requires Compiles(g, inbounds, clients, cfg)
    requires rule in cfg.rules && rule.ToOutbound?
    ensures rule.outbound in cfg.outbounds && cfg.final in cfg.outbounds
  {
    hide Builds;
    var cs := Emitted(inbounds, clients);
    assert rule in UserRules(cs);
    var i :| 0 <= i < |cs| && UserRules(cs)[i] == rule;
    assert UserOutbounds(cs)[i] in cfg.outbounds;
    assert cfg.outbounds[0] == "direct";
  }

  lemma {:induction false} DirectIsNoClient()
    ensures ParseClientOutboundTag("direct").None?
  {
    assert "direct"[..|PREFIX|][0] == 'd' != PREFIX[0];
  }
}
