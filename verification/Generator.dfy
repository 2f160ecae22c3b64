// The compiler from the database to the core's configuration:
// internal/services/singbox/generator.go.
module Generator {
  import opened Domain
  import Tag
  import opened Text

  datatype Transport = Transport(kind: string, host: string, path: string, serviceName: string)

  datatype Obfs = Obfs(kind: string, password: string, minPacketSize: int, maxPacketSize: int)

  datatype Certificate = NoCertificate | Acme(domain: string, email: string) | Files(certPath: string, keyPath: string)

  datatype ServerReality = ServerReality(privateKey: string, shortIds: seq<string>)

  datatype ServerTls = ServerTls(serverName: string, alpn: seq<string>, reality: Option<ServerReality>, certificate: Certificate)

  datatype VlessUser = VlessUser(name: string, uuid: string, flow: string)

  datatype PasswordUser = PasswordUser(name: string, password: string)

  // One compiled inbound.
  datatype Block =
    | VlessIn(tag: string, listen: string, port: int, vlessUsers: seq<VlessUser>, tls: Option<ServerTls>,
              transport: Option<Transport>, multiplex: bool)
    | Hysteria2In(tag: string, listen: string, port: int, users: seq<PasswordUser>, tls: Option<ServerTls>, upMbps: int,
                  downMbps: int, ignoreClientBandwidth: bool, network: string, brutalDebug: bool, bbrProfile: string,
                  obfs: Option<Obfs>, masquerade: string)
    | NaiveIn(tag: string, listen: string, port: int, users: seq<PasswordUser>, tls: Option<ServerTls>, network: string,
              quicCongestionControl: string)

  datatype Rule = Reject(protocol: string) | ToOutbound(authUser: string, outbound: string)

  datatype Config = Config(inbounds: seq<Block>, outbounds: seq<string>, rules: seq<Rule>, final: string, statsUsers: seq<string>)

  datatype GeneratorConfig = GeneratorConfig(listen: string, defaultCertPath: string, defaultKeyPath: string)

  function ProtocolName(p: Protocol): string {
    match p
    case Vless => "vless"
    case Naive => "naive"
    case Hysteria2 => "hysteria2"
    case OtherProtocol(text) => text
  }

  function InboundTag(ib: Inbound): string {
    ProtocolName(ib.protocol) + "-" + FormatInt(ib.id)
  }

  function BuildTransport(ib: Inbound): Option<Transport> {
    match ib.transmission
    case Ws => Some(Transport("ws", "", ib.settings.wsPath, ""))
    case Grpc => Some(Transport("grpc", "", "", ib.settings.grpcServiceName))
    case HttpUpgrade => Some(Transport("httpupgrade", ib.settings.httpUpgradeHost, ib.settings.httpUpgradePath, ""))
    case _ => None
  }

  function BuildTls(g: GeneratorConfig, ib: Inbound, defaultAlpn: seq<string>): Option<ServerTls> {
    var s := ib.settings;
    match ib.tls
    case Reality => Some(ServerTls(ib.sni, [], Some(ServerReality(s.realityPrivateKey, [s.realityShortId])), NoCertificate))
    case Tls =>
      var certificate :=
        if s.acmeDomain != "" then Acme(s.acmeDomain, s.acmeEmail)
        else if s.certPath != "" && s.keyPath != "" then Files(s.certPath, s.keyPath)
        else Files(g.defaultCertPath, g.defaultKeyPath);
      Some(ServerTls(ib.sni, defaultAlpn, None, certificate))
    case _ => None
  }

  function VlessUsers(ib: Inbound, members: seq<Client>): seq<VlessUser> {
    seq(|members|, i requires 0 <= i < |members| => VlessUser(members[i].name, members[i].uuid, ib.settings.flow))
  }

  function PasswordUsers(members: seq<Client>): seq<PasswordUser> {
    seq(|members|, i requires 0 <= i < |members| => PasswordUser(members[i].name, members[i].password))
  }

  function BuildInbound(g: GeneratorConfig, ib: Inbound, members: seq<Client>): Option<Block> {
    var s := ib.settings;
    match ib.protocol
    case Vless =>
      Some(VlessIn(InboundTag(ib), g.listen, ib.port, VlessUsers(ib, members), BuildTls(g, ib, []), BuildTransport(ib),
                   s.multiplexEnabled))
    case Hysteria2 =>
      var obfs :=
        if s.hy2ObfsPassword != "" then Some(Obfs("salamander", s.hy2ObfsPassword, s.hy2ObfsMinPacketSize, s.hy2ObfsMaxPacketSize))
        else None;
      Some(Hysteria2In(InboundTag(ib), g.listen, ib.port, PasswordUsers(members), BuildTls(g, ib, ["h3"]), s.hy2UpMbps,
                       s.hy2DownMbps, s.hy2IgnoreClientBandwidth, s.hy2Network, s.hy2BrutalDebug, s.hy2BbrProfile, obfs,
                       s.hy2Masquerade))
    case Naive =>
      Some(NaiveIn(InboundTag(ib), g.listen, ib.port, PasswordUsers(members), BuildTls(g, ib, ["h2", "http/1.1"]), s.naiveNetwork,
                   s.naiveQuicCongestionCtrl))
    case OtherProtocol(_) => None
  }

  // ---- who is compiled into what ----------------------------------------------

  // The inbounds a client is bound to; the single legacy binding when the set is empty.
  function Bindings(c: Client): seq<int> {
    if |c.inboundIds| == 0 then [c.inboundId] else c.inboundIds
  }

  function Copies(c: Client, binds: seq<int>, ib: int): seq<Client> {
    if |binds| == 0 then []
    else Copies(c, binds[..|binds| - 1], ib) + if binds[|binds| - 1] == ib then [c] else []
  }

  // The user list of inbound ib.
  function Members(clients: seq<Client>, ib: int): seq<Client> {
    if |clients| == 0 then []
    else
      var c := clients[|clients| - 1];
      Members(clients[..|clients| - 1], ib) + if c.status == Active then Copies(c, Bindings(c), ib) else []
  }

  predicate HasId(cs: seq<Client>, id: int) {
    exists c :: c in cs && c.id == id
  }

  // cs followed by the clients of more that are not in it yet.
  function AddNew(cs: seq<Client>, more: seq<Client>): seq<Client> {
    if |more| == 0 then cs
    else
      var front, c := AddNew(cs, more[..|more| - 1]), more[|more| - 1];
      if HasId(front, c.id) then front else front + [c]
  }

  // The clients that get an outbound and a rule, in emission order.
  function Emitted(inbounds: seq<Inbound>, clients: seq<Client>): seq<Client> {
    if |inbounds| == 0 then []
    else AddNew(Emitted(inbounds[..|inbounds| - 1], clients), Members(clients, inbounds[|inbounds| - 1].id))
  }

  function UserOutbounds(cs: seq<Client>): seq<string> {
    seq(|cs|, i requires 0 <= i < |cs| => Tag.ClientOutboundTag(cs[i].id))
  }

  function UserRules(cs: seq<Client>): seq<Rule> {
    seq(|cs|, i requires 0 <= i < |cs| => ToOutbound(cs[i].name, Tag.ClientOutboundTag(cs[i].id)))
  }

  function UserNames(cs: seq<Client>): seq<string> {
    seq(|cs|, i requires 0 <= i < |cs| => cs[i].name)
  }

  ghost predicate Builds(g: GeneratorConfig, inbounds: seq<Inbound>, clients: seq<Client>, built: seq<Block>) {
    && |built| == |inbounds|
    && forall i :: 0 <= i < |inbounds| ==> BuildInbound(g, inbounds[i], Members(clients, inbounds[i].id)) == Some(built[i])
  }

  // The compiled configuration, as a specification of Render.
  ghost predicate Compiles(g: GeneratorConfig, inbounds: seq<Inbound>, clients: seq<Client>, cfg: Config) {
    var emitted := Emitted(inbounds, clients);
    && Builds(g, inbounds, clients, cfg.inbounds)
    && cfg.outbounds == ["direct"] + UserOutbounds(emitted)
    && cfg.rules == [Reject("bittorrent")] + UserRules(emitted)
    && cfg.final == "direct"
    && cfg.statsUsers == UserNames(emitted)
  }

  function At(byInbound: map<int, seq<Client>>, ib: int): seq<Client> {
    if ib in byInbound then byInbound[ib] else []
  }

  // Appends c to the member list of each of its bindings.
  method Bind(byInbound: map<int, seq<Client>>, c: Client) returns (bound: map<int, seq<Client>>)
    ensures forall ib :: At(bound, ib) == At(byInbound, ib) + Copies(c, Bindings(c), ib)
  {
    hide At, Copies;
    bound := byInbound;
    var binds := Bindings(c);
    NoCopies(c);
    for j := 0 to |binds|
      invariant forall ib :: At(bound, ib) == At(byInbound, ib) + Copies(c, binds[..j], ib)
    {
      assert binds[..j + 1] == binds[..j] + [binds[j]];
      forall ib {
        BindStep(byInbound, bound, c, binds[..j], binds[j], ib);
      }
      bound := bound[binds[j] := At(bound, binds[j]) + [c]];
    }
    assert binds[..|binds|] == binds;
  }

  lemma {:induction false} NoCopies(c: Client)
    ensures forall ib :: Copies(c, [], ib) == []
  {
  }

  lemma {:induction false} BindStep(before: map<int, seq<Client>>, bound: map<int, seq<Client>>, c: Client, binds: seq<int>, b: int,
                                    ib: int)
    requires At(bound, ib) == At(before, ib) + Copies(c, binds, ib)
    ensures At(bound[b := At(bound, b) + [c]], ib) == At(before, ib) + Copies(c, binds + [b], ib)
  {
    assert (binds + [b])[..|binds|] == binds;
  }

  method GroupByInbound(clients: seq<Client>) returns (byInbound: map<int, seq<Client>>)
    ensures forall ib :: At(byInbound, ib) == Members(clients, ib)
  {
    hide At, Copies, Bindings;
    byInbound := map[];
    EmptyGroups();
    for i := 0 to |clients|
      invariant forall ib :: At(byInbound, ib) == Members(clients[..i], ib)
    {
      var c := clients[i];
      assert clients[..i + 1][..i] == clients[..i];
      if c.status != Active {
        continue;
      }
      byInbound := Bind(byInbound, c);
    }
    assert clients[..|clients|] == clients;
  }

  lemma {:induction false} EmptyGroups()
    ensures forall ib :: At(map[], ib) == []
  {
  }

  // The emission lists so far hold exactly the clients cs.
  ghost predicate Emits(seen: set<int>, outbounds: seq<string>, rules: seq<Rule>, names: seq<string>, cs: seq<Client>) {
    && (forall id :: id in seen <==> HasId(cs, id))
    && outbounds == UserOutbounds(cs)
    && rules == UserRules(cs)
    && names == UserNames(cs)
  }

  lemma {:induction false} EmitsNothing()
    ensures Emits({}, [], [], [], [])
  {
  }

  lemma {:induction false} HasIdAppend(cs: seq<Client>, c: Client)
    ensures forall id :: HasId(cs + [c], id) <==> HasId(cs, id) || id == c.id
  {
    assert c in cs + [c];
    assert forall x :: x in cs + [c] <==> x in cs || x == c;
  }

  lemma {:induction false} EmitsOneMore(seen: set<int>, outbounds: seq<string>, rules: seq<Rule>, names: seq<string>,
                                        cs: seq<Client>, c: Client)
    requires Emits(seen, outbounds, rules, names, cs)
    ensures Emits(seen + {c.id}, outbounds + [Tag.ClientOutboundTag(c.id)], rules + [ToOutbound(c.name, Tag.ClientOutboundTag(c.id))],
                  names + [c.name], cs + [c])
  {
    HasIdAppend(cs, c);
  }

  // Emits the members that have not been emitted yet.
  method EmitMembers(members: seq<Client>, seen0: set<int>, outbounds0: seq<string>, rules0: seq<Rule>, names0: seq<string>,
                     ghost cs: seq<Client>)
    returns (seen: set<int>, outbounds: seq<string>, rules: seq<Rule>, names: seq<string>)
    requires Emits(seen0, outbounds0, rules0, names0, cs)
    ensures Emits(seen, outbounds, rules, names, AddNew(cs, members))
  {
    seen, outbounds, rules, names := seen0, outbounds0, rules0, names0;
    for j := 0 to |members|
      invariant Emits(seen, outbounds, rules, names, AddNew(cs, members[..j]))
    {
      var c := members[j];
      assert members[..j + 1][..j] == members[..j];
      if c.id in seen {
        continue;
      }
      EmitsOneMore(seen, outbounds, rules, names, AddNew(cs, members[..j]), c);
      var tag := Tag.ClientOutboundTag(c.id);
      seen := seen + {c.id};
      names := names + [c.name];
      outbounds := outbounds + [tag];
      rules := rules + [ToOutbound(c.name, tag)];
    }
    assert members[..|members|] == members;
  }

  // None: an inbound's protocol is not supported.
  method Render(g: GeneratorConfig, inbounds: seq<Inbound>, clients: seq<Client>) returns (r: Option<Config>)
    ensures r.None? <==> exists ib :: ib in inbounds && ib.protocol.OtherProtocol?
    ensures r.Some? ==> Compiles(g, inbounds, clients, r.value)
  {
    hide Emits, Members, AddNew, BuildInbound, Builds, Compiles;
    BuildsNothing(g, clients);
    var byInbound := GroupByInbound(clients);
    var built: seq<Block> := [];
    var statsUsers: seq<string> := [];
    var perUserOutbounds: seq<string> := [];
    var perUserRules: seq<Rule> := [];
    var seenUser: set<int> := {};
    EmitsNothing();
    for i := 0 to |inbounds|
      invariant Builds(g, inbounds[..i], clients, built)
      invariant Emits(seenUser, perUserOutbounds, perUserRules, statsUsers, Emitted(inbounds[..i], clients))
    {
      var ib := inbounds[i];
      assert inbounds[..i + 1][..i] == inbounds[..i];
      var members := At(byInbound, ib.id);
      var entry := BuildInbound(g, ib, members);
      Supported(g, ib, members);
      if entry.None? {
        return None;
      }
      BuildsOneMore(g, inbounds[..i], clients, built, ib, entry.value);
      assert inbounds[..i + 1] == inbounds[..i] + [ib];
      built := built + [entry.value];
      seenUser, perUserOutbounds, perUserRules, statsUsers :=
        EmitMembers(members, seenUser, perUserOutbounds, perUserRules, statsUsers, Emitted(inbounds[..i], clients));
    }
    assert inbounds[..|inbounds|] == inbounds;
    var cfg := Config(built, ["direct"] + perUserOutbounds, [Reject("bittorrent")] + perUserRules, "direct", statsUsers);
    CompilesAll(g, inbounds, clients, cfg, seenUser, perUserOutbounds, perUserRules, statsUsers);
    r := Some(cfg);
  }

  lemma {:induction false} Supported(g: GeneratorConfig, ib: Inbound, members: seq<Client>)
    ensures BuildInbound(g, ib, members).None? <==> ib.protocol.OtherProtocol?
  {
  }

  lemma {:induction false} BuildsNothing(g: GeneratorConfig, clients: seq<Client>)
    ensures Builds(g, [], clients, [])
  {
  }

  lemma {:induction false} BuildsOneMore(g: GeneratorConfig, inbounds: seq<Inbound>, clients: seq<Client>, built: seq<Block>,
                                         ib: Inbound, entry: Block)
    requires Builds(g, inbounds, clients, built) && BuildInbound(g, ib, Members(clients, ib.id)) == Some(entry)
    ensures Builds(g, inbounds + [ib], clients, built + [entry])
  {
    hide Members, BuildInbound;
  }

  lemma {:induction false} CompilesAll(g: GeneratorConfig, inbounds: seq<Inbound>, clients: seq<Client>, cfg: Config, seen: set<int>,
                                       outbounds: seq<string>, rules: seq<Rule>, names: seq<string>)
    requires Builds(g, inbounds, clients, cfg.inbounds)
    requires Emits(seen, outbounds, rules, names, Emitted(inbounds, clients))
    requires cfg == Config(cfg.inbounds, ["direct"] + outbounds, [Reject("bittorrent")] + rules, "direct", names)
    ensures Compiles(g, inbounds, clients, cfg)
    ensures forall ib :: ib in inbounds ==> !ib.protocol.OtherProtocol?
  {
    hide Members, Emitted, BuildTls, BuildTransport;
    forall ib | ib in inbounds
      ensures !ib.protocol.OtherProtocol?
    {
      var i :| 0 <= i < |inbounds| && inbounds[i] == ib;
      Supported(g, ib, Members(clients, ib.id));
    }
  }
}
