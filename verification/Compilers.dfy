// The two compilers agree: a client configured from its subscription can talk to
// the server configured from the database.
module Compilers {
  import opened Domain
  import opened Generator
  import opened InboundService
  import opened Routing
  import opened Subscription
  import opened Text

  // Both ends negotiate the same TLS: on together, same name, an ALPN the server
  // offers, and for Reality a public key and short id that belong to the server.
  ghost predicate TlsAgree(server: Option<ServerTls>, client: Option<ClientTls>, isPair: KeyPairing) {
    && (server.Some? <==> client.Some?)
    && (server.Some? ==>
          && client.value.serverName == server.value.serverName
          && (forall p :: p in client.value.alpn ==> p in server.value.alpn)
          && (server.value.reality.Some? <==> client.value.reality.Some?)
          && (server.value.reality.Some? ==>
                && isPair(server.value.reality.value.privateKey, client.value.reality.value.publicKey)
                && client.value.reality.value.shortId in server.value.reality.value.shortIds))
  }

  // The outbound reaches the inbound and is let in.
  ghost predicate Connects(block: Block, out: Outbound, c: Client, isPair: KeyPairing) {
    match block
    case VlessIn(_, _, port, users, tls, transport, _) =>
      && out.VlessOut? && out.port == port
      && VlessUser(c.name, out.uuid, out.flow) in users
      && out.transport == transport
      && TlsAgree(tls, out.tls, isPair)
    case Hysteria2In(_, _, port, users, tls, upMbps, downMbps, _, network, brutalDebug, bbrProfile, obfs, _) =>
      && out.Hysteria2Out? && out.port == port
      && PasswordUser(c.name, out.password) in users
      && out.obfs == obfs && out.network == network
      && out.upMbps == upMbps && out.downMbps == downMbps
      && out.bbrProfile == bbrProfile && out.brutalDebug == brutalDebug
      && TlsAgree(tls, out.tls, isPair)
    case NaiveIn(_, _, port, users, tls, _, _) =>
      && out.NaiveOut? && out.port == port
      && PasswordUser(out.username, out.password) in users && out.username == c.name
      && TlsAgree(tls, out.tls, isPair)
  }

  lemma {:induction false} UserListed(ib: Inbound, members: seq<Client>, c: Client)
    requires c in members
    ensures VlessUser(c.name, c.uuid, ib.settings.flow) in VlessUsers(ib, members)
    ensures PasswordUser(c.name, c.password) in PasswordUsers(members)
  {
    var i :| 0 <= i < |members| && members[i] == c;
    assert VlessUsers(ib, members)[i] == VlessUser(c.name, c.uuid, ib.settings.flow);
    assert PasswordUsers(members)[i] == PasswordUser(c.name, c.password);
  }

  lemma {:induction false} TlsAgreeIff(g: GeneratorConfig, ib: Inbound, alpn: seq<string>, isPair: KeyPairing)
    requires ib.protocol.Hysteria2? ==> alpn == ["h3"]
    ensures TlsAgree(BuildTls(g, ib, alpn), ClientTlsOf(ib), isPair) <==>
            (ib.tls.Reality? ==> isPair(ib.settings.realityPrivateKey, ib.settings.realityPublicKey))
    ensures TlsAgree(BuildTls(g, ib, alpn), NaiveClientTls(ib), isPair) <==> !ib.tls.Reality?
  {
  }

  // For any inbound both compilers accept, and any client compiled into it, the
  // two results fit together exactly when the inbound's Reality keys, if it uses
  // them, are a pair, and it is not a naive inbound with Reality.
  lemma {:induction false} CompilersAgreeIff(g: GeneratorConfig, ib: Inbound, members: seq<Client>, c: Client, host: string,
                                             tag: string, block: Block, out: Outbound, isPair: KeyPairing)
    requires c in members
    requires BuildInbound(g, ib, members) == Some(block) && BuildProxyOutbound(ib, c, host, tag) == Some(out)
    ensures Connects(block, out, c, isPair) <==>
            if ib.protocol.Naive? then !ib.tls.Reality?
            else ib.tls.Reality? ==> isPair(ib.settings.realityPrivateKey, ib.settings.realityPublicKey)
  {
    hide VlessUsers, PasswordUsers, BuildTls, ClientTlsOf, NaiveClientTls, TlsAgree;
    UserListed(ib, members, c);
    TlsAgreeIff(g, ib, if ib.protocol.Hysteria2? then ["h3"] else if ib.protocol.Naive? then ["h2", "http/1.1"] else [], isPair);
  }

  // Every inbound the panel can store satisfies that: the only inbounds a
  // subscription leaves out are naive ones without trusted TLS.
  lemma {:induction false} CompilersAgree(g: GeneratorConfig, ib: Inbound, members: seq<Client>, c: Client, host: string, tag: string,
                                          isPair: KeyPairing)
    requires Sane(ib, isPair) && c in members && !Skipped(ib)
    ensures var block, out := BuildInbound(g, ib, members), BuildProxyOutbound(ib, c, host, tag);
            block.Some? && out.Some? && Connects(block.value, out.value, c, isPair)
  {
    hide Connects, BuildTls, ClientTlsOf, NaiveClientTls, BuildTransport, ClientTransport;
    Supported(g, ib, members);
    SkippedIff(ib, c, host, tag);
    CompilersAgreeIff(g, ib, members, c, host, tag, BuildInbound(g, ib, members).value,
                      BuildProxyOutbound(ib, c, host, tag).value, isPair);
  }

  // ---- what either side is made of -------------------------------------------------

  // The certificate a TLS block presents: ACME before explicit files before the
  // panel's own.
  ghost predicate Presents(g: GeneratorConfig, ib: Inbound, certificate: Certificate) {
    var s := ib.settings;
    && (s.acmeDomain != "" ==> certificate == Acme(s.acmeDomain, s.acmeEmail))
    && (s.acmeDomain == "" && s.certPath != "" && s.keyPath != "" ==> certificate == Files(s.certPath, s.keyPath))
    && (s.acmeDomain == "" && (s.certPath == "" || s.keyPath == "") ==> certificate == Files(g.defaultCertPath, g.defaultKeyPath))
  }

  ghost predicate ServerSide(g: GeneratorConfig, ib: Inbound, alpn: seq<string>, tls: Option<ServerTls>) {
    && (tls.Some? <==> ib.tls.Reality? || ib.tls.Tls?)
    && (tls.Some? ==> tls.value.serverName == ib.sni)
    && (ib.tls.Tls? ==> tls.value.alpn == alpn && tls.value.reality.None? && Presents(g, ib, tls.value.certificate))
    && (ib.tls.Reality? ==>
          && tls.value.alpn == [] && tls.value.certificate == NoCertificate
          && tls.value.reality == Some(ServerReality(ib.settings.realityPrivateKey, [ib.settings.realityShortId])))
  }

  // The path, service name or host that the transport needs, and no other.
  ghost predicate TransportSide(ib: Inbound, transport: Option<Transport>) {
    var s := ib.settings;
    && (transport.Some? <==> ib.transmission in {Ws, Grpc, HttpUpgrade})
    && (ib.transmission.Ws? ==> transport.value == Transport("ws", "", s.wsPath, ""))
    && (ib.transmission.Grpc? ==> transport.value == Transport("grpc", "", "", s.grpcServiceName))
    && (ib.transmission.HttpUpgrade? ==> transport.value == Transport("httpupgrade", s.httpUpgradeHost, s.httpUpgradePath, ""))
  }

  ghost predicate ObfsSide(s: Settings, obfs: Option<Obfs>) {
    && (obfs.Some? <==> s.hy2ObfsPassword != "")
    && (obfs.Some? ==> obfs.value == Obfs("salamander", s.hy2ObfsPassword, s.hy2ObfsMinPacketSize, s.hy2ObfsMaxPacketSize))
  }

  // A block carries its inbound's columns and one user per member, in order.
  lemma {:induction false} BlockCarries(g: GeneratorConfig, ib: Inbound, members: seq<Client>, block: Block)
    requires BuildInbound(g, ib, members) == Some(block)
    ensures block.listen == g.listen && block.port == ib.port
    ensures block.VlessIn? <==> ib.protocol.Vless?
    ensures block.Hysteria2In? <==> ib.protocol.Hysteria2?
    ensures block.NaiveIn? <==> ib.protocol.Naive?
    ensures block.tag == (if block.VlessIn? then "vless-" else if block.Hysteria2In? then "hysteria2-" else "naive-") + FormatInt(ib.id)
    ensures block.VlessIn? ==>
              && ServerSide(g, ib, [], block.tls) && TransportSide(ib, block.transport)
              && block.multiplex == ib.settings.multiplexEnabled
              && |block.vlessUsers| == |members|
              && forall i :: 0 <= i < |members| ==>
                               block.vlessUsers[i] == VlessUser(members[i].name, members[i].uuid, ib.settings.flow)
    ensures !block.VlessIn? ==>
              && |block.users| == |members|
              && forall i :: 0 <= i < |members| ==> block.users[i] == PasswordUser(members[i].name, members[i].password)
    ensures block.Hysteria2In? ==>
              var s := ib.settings;
              && ServerSide(g, ib, ["h3"], block.tls) && ObfsSide(s, block.obfs)
              && block.upMbps == s.hy2UpMbps && block.downMbps == s.hy2DownMbps
              && block.ignoreClientBandwidth == s.hy2IgnoreClientBandwidth && block.network == s.hy2Network
              && block.brutalDebug == s.hy2BrutalDebug && block.bbrProfile == s.hy2BbrProfile && block.masquerade == s.hy2Masquerade
    ensures block.NaiveIn? ==>
              && ServerSide(g, ib, ["h2", "http/1.1"], block.tls)
              && block.network == ib.settings.naiveNetwork && block.quicCongestionControl == ib.settings.naiveQuicCongestionCtrl
  {
  }

  // The client verifies unless the override says not to, or there is no override
  // and neither ACME nor files of its own: then the panel's certificate is served.
  ghost predicate MustNotVerify(ib: Inbound) {
    var s := ib.settings;
    ib.tls.Tls? && (s.allowInsecure == Some(true)
                    || (s.allowInsecure.None? && s.acmeDomain == "" && s.certPath == "" && s.keyPath == ""))
  }

  ghost predicate ClientSide(ib: Inbound, tls: Option<ClientTls>) {
    && (tls.Some? <==> ib.tls.Reality? || ib.tls.Tls?)
    && (tls.Some? ==> tls.value.serverName == ib.sni && (tls.value.insecure <==> MustNotVerify(ib)))
    && (ib.tls.Tls? ==>
          tls.value.alpn == (if ib.protocol.Hysteria2? then ["h3"] else []) && tls.value.reality.None? && tls.value.fingerprint == "")
    && (ib.tls.Reality? ==>
          && tls.value.alpn == [] && tls.value.fingerprint == "chrome"
          && tls.value.reality == Some(ClientReality(ib.settings.realityPublicKey, ib.settings.realityShortId)))
  }

  // An outbound carries its inbound's columns and the client's credentials.
  lemma {:induction false} OutboundCarries(ib: Inbound, c: Client, host: string, tag: string, out: Outbound)
    requires BuildProxyOutbound(ib, c, host, tag) == Some(out)
    ensures out.tag == tag
    ensures out.DirectOut? <==> ib.protocol.OtherProtocol?
    ensures !out.DirectOut? ==> out.server == host && out.port == ib.port
    ensures out.VlessOut? <==> ib.protocol.Vless?
    ensures out.Hysteria2Out? <==> ib.protocol.Hysteria2?
    ensures out.VlessOut? ==>
              && out.uuid == c.uuid && out.flow == ib.settings.flow
              && ClientSide(ib, out.tls) && TransportSide(ib, out.transport)
    ensures out.Hysteria2Out? ==>
              var s := ib.settings;
              && out.password == c.password && ClientSide(ib, out.tls) && ObfsSide(s, out.obfs)
              && out.upMbps == s.hy2UpMbps && out.downMbps == s.hy2DownMbps && out.network == s.hy2Network
              && out.bbrProfile == s.hy2BbrProfile && out.brutalDebug == s.hy2BrutalDebug
    ensures out.NaiveOut? ==>
              && out.username == c.name && out.password == c.password && !MustNotVerify(ib)
              && out.tls == if ib.tls.Tls? then Some(ClientTls(ib.sni, false, [], None, "")) else None
  {
  }

  // A given override decides. Without one the client skips verification exactly
  // when the block presents the panel's own self-signed certificate; otherwise
  // the block presents what ACME or the inbound's own files give it.
  ghost predicate InsecureExactly(g: GeneratorConfig, ib: Inbound, block: Block, out: Outbound) {
    var s := ib.settings;
    if !ib.tls.Tls? || out.NaiveOut? then !out.DirectOut? && out.tls.Some? ==> !out.tls.value.insecure
    else
      && !out.DirectOut? && block.tls.Some? && out.tls.Some?
      && var (certificate, insecure) := (block.tls.value.certificate, out.tls.value.insecure);
         && (s.allowInsecure.Some? ==> insecure == s.allowInsecure.value)
         && (s.allowInsecure.None? && insecure ==>
               certificate == Files(g.defaultCertPath, g.defaultKeyPath) && s.acmeDomain == "" && (s.certPath == "" || s.keyPath == ""))
         && (s.allowInsecure.None? && !insecure ==>
               || (s.acmeDomain != "" && certificate == Acme(s.acmeDomain, s.acmeEmail))
               || (s.certPath != "" && s.keyPath != "" && certificate == Files(s.certPath, s.keyPath)))
  }

  lemma {:induction false} InsecureIffSelfSigned(g: GeneratorConfig, ib: Inbound, members: seq<Client>, block: Block, c: Client,
                                                 host: string, tag: string, out: Outbound, isPair: KeyPairing)
    requires Sane(ib, isPair)
    requires BuildInbound(g, ib, members) == Some(block) && BuildProxyOutbound(ib, c, host, tag) == Some(out)
    ensures InsecureExactly(g, ib, block, out)
  {
    BlockCarries(g, ib, members, block);
    OutboundCarries(ib, c, host, tag, out);
    hide BuildInbound, BuildProxyOutbound;
  }

  // The same of an offered subscription and a compiled configuration.
  lemma {:induction false} OfferInsecureExactly(g: GeneratorConfig, inbounds: seq<Inbound>, clients: seq<Client>, cfg: Config, j: nat,
                                                mine: seq<Inbound>, d: Client, host: string, config: ClientConfig, i: nat,
                                                isPair: KeyPairing)
    requires Compiles(g, inbounds, clients, cfg) && Offers(config, Kept(mine), mine, d, host)
    requires j < |inbounds| && i < |config.outbounds| && inbounds[j] == mine[Kept(mine)[i]] && Sane(inbounds[j], isPair)
    ensures InsecureExactly(g, inbounds[j], cfg.inbounds[j], config.outbounds[i])
  {
    hide BuildInbound, BuildProxyOutbound, Members, Emitted, Sane, Kept, InsecureExactly;
    InsecureIffSelfSigned(g, inbounds[j], Members(clients, inbounds[j].id), cfg.inbounds[j], d, host, ProxyTag(Kept(mine)[i]),
                          config.outbounds[i], isPair);
  }

  // ---- whole configurations ------------------------------------------------------

  // resolveInbounds in internal/transport/handler/subscription_handler.go: every
  // bound inbound that can be read; whether it is enabled is not asked.
  function ResolveInbounds(rows: Rows, unreadable: set<int>, ids: seq<int>): (ibs: seq<Inbound>)
    ensures forall ib :: ib in ibs <==> exists id :: id in ids && id in rows && id !in unreadable && rows[id] == ib
  {
    if |ids| == 0 then []
    else
      var front, last := ResolveInbounds(rows, unreadable, ids[..|ids| - 1]), ids[|ids| - 1];
      assert forall id :: id in ids <==> id in ids[..|ids| - 1] || id == last;
      if last in rows && last !in unreadable then front + [rows[last]] else front
  }

  // What the config compiler lists: the enabled local inbounds.
  ghost predicate ListsEnabledInbounds(inbounds: seq<Inbound>, rows: Rows) {
    forall ib :: ib in inbounds <==> ib.id in rows && rows[ib.id] == ib && ib.enabled && ib.nodeId.None?
  }

  // The two compilers may read the client at different times: its counters and
  // times of use play no part.
  predicate SameCredentials(c: Client, d: Client) {
    c.name == d.name && c.uuid == d.uuid && c.password == d.password && Bindings(c) == Bindings(d)
  }

  lemma {:induction false} SameOutbound(ib: Inbound, c: Client, d: Client, host: string, tag: string)
    requires SameCredentials(c, d)
    ensures BuildProxyOutbound(ib, c, host, tag) == BuildProxyOutbound(ib, d, host, tag)
  {
  }

  ghost predicate ReachesSome(cfg: Config, out: Outbound, c: Client, isPair: KeyPairing) {
    exists j :: 0 <= j < |cfg.inbounds| && Connects(cfg.inbounds[j], out, c, isPair)
  }

  lemma {:induction false} PortsMatch(g: GeneratorConfig, ib: Inbound, members: seq<Client>, other: Inbound, c: Client, host: string,
                                      tag: string, isPair: KeyPairing)
    ensures var block, out := BuildInbound(g, ib, members), BuildProxyOutbound(other, c, host, tag);
            block.Some? && out.Some? && Connects(block.value, out.value, c, isPair) ==> ib.port == other.port
  {
    hide TlsAgree, VlessUsers, PasswordUsers, BuildTls, ClientTlsOf, NaiveClientTls;
  }

  // An enabled inbound's block accepts the outbound.
  lemma {:induction false} EnabledConnects(g: GeneratorConfig, inbounds: seq<Inbound>, clients: seq<Client>, cfg: Config, c: Client,
                                           ib: Inbound, host: string, tag: string, out: Outbound, isPair: KeyPairing)
    requires ValidInput(inbounds, clients) && Compiles(g, inbounds, clients, cfg)
    requires c in clients && c.status == Active && ib in inbounds && ib.id in Bindings(c)
    requires Sane(ib, isPair) && BuildProxyOutbound(ib, c, host, tag) == Some(out)
    ensures ReachesSome(cfg, out, c, isPair)
  {
    hide Connects, Sane, BuildInbound, BuildProxyOutbound, Emitted;
    var j :| 0 <= j < |inbounds| && inbounds[j] == ib;
    assert BuildInbound(g, ib, Members(clients, ib.id)) == Some(cfg.inbounds[j]);
    MembersExactlyOnce(inbounds, clients, ib.id);
    hide Compiles, Members, ValidInput;
    assert Bound(clients, ib.id, c);
    SkippedIff(ib, c, host, tag);
    CompilersAgree(g, ib, Members(clients, ib.id), c, host, tag, isPair);
  }

  // A block of another port does not.
  lemma {:induction false} DisabledUnreached(g: GeneratorConfig, inbounds: seq<Inbound>, clients: seq<Client>, cfg: Config, c: Client,
                                             rows: Rows, ib: Inbound, host: string, tag: string, out: Outbound, isPair: KeyPairing)
    requires Compiles(g, inbounds, clients, cfg) && ListsEnabledInbounds(inbounds, rows) && UniquePorts(rows)
    requires ib.id in rows && rows[ib.id] == ib && ib.nodeId.None? && !ib.enabled
    requires BuildProxyOutbound(ib, c, host, tag) == Some(out)
    ensures !ReachesSome(cfg, out, c, isPair)
  {
    hide Connects, BuildInbound, BuildProxyOutbound, Emitted, Members;
    forall j | 0 <= j < |cfg.inbounds|
      ensures !Connects(cfg.inbounds[j], out, c, isPair)
    {
      assert inbounds[j] in inbounds;
      assert rows[inbounds[j].id] == inbounds[j];
      assert BuildInbound(g, inbounds[j], Members(clients, inbounds[j].id)) == Some(cfg.inbounds[j]);
      PortsMatch(g, inbounds[j], Members(clients, inbounds[j].id), ib, c, host, tag, isPair);
    }
  }

  // A subscription against the running configuration, both from the same tables:
  // an offered outbound is accepted by some block exactly when its inbound is
  // enabled. Subscriptions go on offering the inbounds that were switched off.
  lemma {:induction false} OfferConnectsIff(g: GeneratorConfig, inbounds: seq<Inbound>, clients: seq<Client>, cfg: Config, c: Client,
                                            rows: Rows, unreadable: set<int>, d: Client, host: string, config: ClientConfig, i: nat,
                                            isPair: KeyPairing)
    requires AllSane(rows, isPair) && ListsEnabledInbounds(inbounds, rows)
    requires ValidInput(inbounds, clients) && Compiles(g, inbounds, clients, cfg)
    requires c in clients && c.status == Active && SameCredentials(c, d)
    requires forall id :: id in Bindings(d) && id in rows ==> rows[id].nodeId.None?
    requires var mine := ResolveInbounds(rows, unreadable, Bindings(d));
             Offers(config, Kept(mine), mine, d, host) && i < |config.outbounds|
    ensures var mine := ResolveInbounds(rows, unreadable, Bindings(d));
            ReachesSome(cfg, config.outbounds[i], c, isPair) <==> mine[Kept(mine)[i]].enabled
  {
    hide Compiles, ValidInput, UniquePorts, Sane, Kept, BuildProxyOutbound, ReachesSome;
    var mine := ResolveInbounds(rows, unreadable, Bindings(d));
    var ib, tag := mine[Kept(mine)[i]], ProxyTag(Kept(mine)[i]);
    assert ib in mine;
    var id :| id in Bindings(d) && id in rows && rows[id] == ib;
    assert ib.id == id && Sane(ib, isPair);
    SameOutbound(ib, c, d, host, tag);
    hide SameCredentials, Offers, ProxyTag, Bindings;
    if ib.enabled {
      EnabledConnects(g, inbounds, clients, cfg, c, ib, host, tag, config.outbounds[i], isPair);
    } else {
      DisabledUnreached(g, inbounds, clients, cfg, c, rows, ib, host, tag, config.outbounds[i], isPair);
    }
  }

  lemma {:induction false} ResolvesOne(rows: Rows, id: int)
    requires id in rows
    ensures ResolveInbounds(rows, {}, [id]) == [rows[id]]
  {
    assert ResolveInbounds(rows, {}, []) == [];
    assert [id][..0] == [];
  }

  lemma {:induction false} KeepsOne(ib: Inbound)
    requires !Skipped(ib)
    ensures Kept([ib]) == [0]
  {
    hide Skipped;
    assert Kept([]) == [];
    assert [ib][..0] == [];
  }

  // Such an inbound is offered although the configuration has no block at all.
  lemma {:induction false} DisabledStillOffered(rows: Rows, d: Client, ib: Inbound, g: GeneratorConfig, clients: seq<Client>, cfg: Config)
    requires rows == map[ib.id := ib] && !ib.enabled && !Skipped(ib) && Bindings(d) == [ib.id]
    ensures ResolveInbounds(rows, {}, Bindings(d)) == [ib] && Kept([ib]) == [0]
    ensures ListsEnabledInbounds([], rows) && (Compiles(g, [], clients, cfg) ==> cfg.inbounds == [])
  {
    hide Skipped, Bindings, Kept, ResolveInbounds;
    ResolvesOne(rows, ib.id);
    KeepsOne(ib);
  }
}
