// Lifecycle of local inbounds: internal/services/inbound/service.go.
module InboundService {
  import opened Domain
  import opened Text

  datatype Error = NotFound | Validation | Exists | Generation

  datatype Result<+T> = Ok(value: T) | Err(error: Error)

  datatype Input = Input(remark: string, protocol: Protocol, port: int, transmission: Transmission, tls: TlsMode, sni: string,
                         dest: string, material: Settings)

  // What the key generators return during one call; None is a failure.
  datatype Generated = Generated(keyPair: Option<(string, string)>, shortId: Option<string>, suffix: Option<string>)

  type KeyPairing = (string, string) -> bool

  // The generators return usable material: a real Reality pair, non-empty names.
  ghost predicate Sound(gen: Generated, isPair: KeyPairing) {
    && (gen.keyPair.Some? ==> gen.keyPair.value.0 != "" && isPair(gen.keyPair.value.0, gen.keyPair.value.1))
    && (gen.shortId.Some? ==> gen.shortId.value != "")
    && (gen.suffix.Some? ==> gen.suffix.value != "")
  }

  predicate SupportedProtocol(p: Protocol) {
    p.Vless? || p.Naive? || p.Hysteria2?
  }

  // The settings an input carries; the server-side ones are not among them.
  predicate Valid(input: Input) {
    var m := input.material;
    && input.remark != ""
    && 1 <= input.port <= 65535
    && SupportedProtocol(input.protocol)
    && (input.tls.Reality? ==> input.protocol.Vless? && input.dest != "" && input.sni != "")
    && !(input.protocol.Naive? && input.tls.NoTls?)
    && (m.certPath == "" <==> m.keyPath == "")
    && (input.protocol.Hysteria2? ==>
          && m.hy2UpMbps >= 0 && m.hy2DownMbps >= 0
          && !(m.hy2ObfsPassword != "" && input.tls.NoTls?)
          && m.hy2Network in ["", "tcp", "udp"]
          && m.hy2BbrProfile in ["", "conservative", "standard", "aggressive"])
    && (input.protocol.Naive? ==> m.naiveNetwork in ["", "tcp", "udp", "both"])
  }

  // What is refused, reason by reason.
  ghost predicate Rejected(input: Input) {
    var m := input.material;
    || input.remark == ""
    || input.port < 1 || input.port > 65535
    || input.protocol.OtherProtocol?
    || (input.tls.Reality? && (!input.protocol.Vless? || input.dest == "" || input.sni == ""))
    || (input.protocol.Naive? && input.tls.NoTls?)
    || (m.certPath == "" && m.keyPath != "") || (m.certPath != "" && m.keyPath == "")
    || (input.protocol.Hysteria2?
        && (|| m.hy2UpMbps < 0 || m.hy2DownMbps < 0
            || (m.hy2ObfsPassword != "" && input.tls.NoTls?)
            || (m.hy2Network != "" && m.hy2Network != "tcp" && m.hy2Network != "udp")
            || (&& m.hy2BbrProfile != "" && m.hy2BbrProfile != "conservative" && m.hy2BbrProfile != "standard"
                && m.hy2BbrProfile != "aggressive")))
    || (input.protocol.Naive?
        && m.naiveNetwork != "" && m.naiveNetwork != "tcp" && m.naiveNetwork != "udp" && m.naiveNetwork != "both")
  }

  lemma {:induction false} ValidUnlessRejected(input: Input)
    ensures Valid(input) <==> !Rejected(input)
  {
  }

  // The stored inbound carries the input column by column: what was given stays,
  // only the name its transport lacks is made up.
  ghost predicate CarriesInput(ib: Inbound, input: Input) {
    var s, m := ib.settings, input.material;
    && ib.nodeId.None? && ib.remark == input.remark && ib.protocol == input.protocol && ib.port == input.port
    && ib.tls == input.tls && ib.sni == input.sni && ib.dest == input.dest
    && ib.transmission == (if input.protocol.Vless? && input.transmission in {Tcp, Ws, Grpc, HttpUpgrade} then input.transmission else Tcp)
    && s.acmeDomain == m.acmeDomain && s.acmeEmail == m.acmeEmail && s.certPath == m.certPath && s.keyPath == m.keyPath
    && s.allowInsecure == m.allowInsecure && s.multiplexEnabled == m.multiplexEnabled && s.httpUpgradeHost == m.httpUpgradeHost
    && s.hy2UpMbps == m.hy2UpMbps && s.hy2DownMbps == m.hy2DownMbps && s.hy2IgnoreClientBandwidth == m.hy2IgnoreClientBandwidth
    && s.hy2ObfsPassword == m.hy2ObfsPassword && s.hy2ObfsMinPacketSize == m.hy2ObfsMinPacketSize
    && s.hy2ObfsMaxPacketSize == m.hy2ObfsMaxPacketSize && s.hy2Masquerade == m.hy2Masquerade
    && s.hy2Network == m.hy2Network && s.hy2BrutalDebug == m.hy2BrutalDebug && s.hy2BbrProfile == m.hy2BbrProfile
    && s.naiveNetwork == (if m.naiveNetwork == "both" then "" else m.naiveNetwork)
    && s.naiveQuicCongestionCtrl == m.naiveQuicCongestionCtrl
    && (m.wsPath != "" || !ib.transmission.Ws? ==> s.wsPath == m.wsPath)
    && (m.grpcServiceName != "" || !ib.transmission.Grpc? ==> s.grpcServiceName == m.grpcServiceName)
    && (m.httpUpgradePath != "" || !ib.transmission.HttpUpgrade? ==> s.httpUpgradePath == m.httpUpgradePath)
    && s.flow == (if ib.protocol.Vless? && ib.tls.Reality? && ib.transmission.Tcp? then "xtls-rprx-vision" else "")
  }

  function NormalizeTransmission(p: Protocol, t: Transmission): Transmission {
    if !p.Vless? || t.OtherTransmission? then Tcp else t
  }

  function NormalizeNaiveNetwork(network: string): string {
    if network == "both" then "" else network
  }

  // applyTLSMaterial and applyProtocolSettings: everything but the generated
  // Reality material, which stays as stored.
  function WithMaterial(s: Settings, m: Settings): Settings {
    m.(realityPrivateKey := s.realityPrivateKey, realityPublicKey := s.realityPublicKey, realityShortId := s.realityShortId,
       flow := s.flow, naiveNetwork := NormalizeNaiveNetwork(m.naiveNetwork))
  }

  function Configured(ib: Inbound, input: Input): Inbound {
    ib.(remark := input.remark, protocol := input.protocol, port := input.port,
        transmission := NormalizeTransmission(input.protocol, input.transmission), tls := input.tls, sni := input.sni, dest := input.dest,
        settings := WithMaterial(ib.settings, input.material))
  }

  const VISION: string := "xtls-rprx-vision"

  function RealityFlow(ib: Inbound): string {
    if ib.protocol.Vless? && ib.tls.Reality? && ib.transmission.Tcp? then VISION else ""
  }

  // The generators that are needed to fill the settings did not fail.
  predicate RealityMade(s: Settings, gen: Generated) {
    && (s.realityPrivateKey == "" ==> gen.keyPair.Some?)
    && (s.realityShortId == "" ==> gen.shortId.Some?)
  }

  predicate NameMade(tr: Transmission, s: Settings, gen: Generated) {
    && (tr.Ws? && s.wsPath == "" ==> gen.suffix.Some?)
    && (tr.Grpc? && s.grpcServiceName == "" ==> gen.suffix.Some?)
    && (tr.HttpUpgrade? && s.httpUpgradePath == "" ==> gen.suffix.Some?)
  }

  predicate Made(ib: Inbound, gen: Generated) {
    && (ib.tls.Reality? ==> RealityMade(ib.settings, gen))
    && NameMade(ib.transmission, ib.settings, gen)
  }

  // out has ib's missing values from the generators: a key pair, a short id, a
  // path behind a slash or a service name.
  ghost predicate MadeBy(ib: Inbound, gen: Generated, out: Inbound) {
    var s, t := ib.settings, out.settings;
    && (ib.tls.Reality? && s.realityPrivateKey == "" ==> Some((t.realityPrivateKey, t.realityPublicKey)) == gen.keyPair)
    && (ib.tls.Reality? && s.realityShortId == "" ==> Some(t.realityShortId) == gen.shortId)
    && (ib.transmission.Ws? && s.wsPath == "" ==> gen.suffix.Some? && t.wsPath == "/" + gen.suffix.value)
    && (ib.transmission.Grpc? && s.grpcServiceName == "" ==> gen.suffix == Some(t.grpcServiceName))
    && (ib.transmission.HttpUpgrade? && s.httpUpgradePath == "" ==> gen.suffix.Some? && t.httpUpgradePath == "/" + gen.suffix.value)
  }

  method FillReality(s: Settings, gen: Generated, ghost isPair: KeyPairing) returns (r: Result<Settings>)
    requires Sound(gen, isPair)
    ensures r.Ok? <==> RealityMade(s, gen)
    ensures r.Ok? ==>
              var t := r.value;
              && t == s.(realityPrivateKey := t.realityPrivateKey, realityPublicKey := t.realityPublicKey,
                         realityShortId := t.realityShortId)
              && t.realityPrivateKey != "" && t.realityShortId != ""
              && (s.realityPrivateKey != "" ==>
                    t.realityPrivateKey == s.realityPrivateKey && t.realityPublicKey == s.realityPublicKey)
              && (s.realityPrivateKey == "" ==>
                    isPair(t.realityPrivateKey, t.realityPublicKey) && Some((t.realityPrivateKey, t.realityPublicKey)) == gen.keyPair)
              && (s.realityShortId == "" ==> Some(t.realityShortId) == gen.shortId)
              && (s.realityShortId != "" ==> t.realityShortId == s.realityShortId)
  {
    var t := s;
    if t.realityPrivateKey == "" {
      if gen.keyPair.None? {
        return Err(Generation);
      }
      t := t.(realityPrivateKey := gen.keyPair.value.0, realityPublicKey := gen.keyPair.value.1);
    }
    if t.realityShortId == "" {
      if gen.shortId.None? {
        return Err(Generation);
      }
      t := t.(realityShortId := gen.shortId.value);
    }
    r := Ok(t);
  }

  // A missing path or service name is generated, an existing one stays.
  method FillName(name: string, prefix: string, gen: Generated) returns (r: Result<string>)
    requires gen.suffix.Some? ==> gen.suffix.value != ""
    ensures r.Ok? <==> name != "" || gen.suffix.Some?
    ensures r.Ok? ==> if name == "" then r.value != "" && r.value == prefix + gen.suffix.value else r.value == name
  {
    if name != "" {
      return Ok(name);
    }
    if gen.suffix.None? {
      return Err(Generation);
    }
    r := Ok(prefix + gen.suffix.value);
  }

  // t is s with the path or service name of its transport filled.
  predicate NameFilled(tr: Transmission, s: Settings, t: Settings) {
    && t == s.(wsPath := t.wsPath, grpcServiceName := t.grpcServiceName, httpUpgradePath := t.httpUpgradePath)
    && (if tr.Ws? && s.wsPath == "" then t.wsPath != "" else t.wsPath == s.wsPath)
    && (if tr.Grpc? && s.grpcServiceName == "" then t.grpcServiceName != "" else t.grpcServiceName == s.grpcServiceName)
    && (if tr.HttpUpgrade? && s.httpUpgradePath == "" then t.httpUpgradePath != "" else t.httpUpgradePath == s.httpUpgradePath)
  }

  // The switch over the transports.
  method FillTransport(tr: Transmission, s: Settings, gen: Generated) returns (r: Result<Settings>)
    requires gen.suffix.Some? ==> gen.suffix.value != ""
    ensures r.Ok? <==> NameMade(tr, s, gen)
    ensures r.Ok? ==>
              && NameFilled(tr, s, r.value)
              && (tr.Ws? && s.wsPath == "" ==> r.value.wsPath == "/" + gen.suffix.value)
              && (tr.Grpc? && s.grpcServiceName == "" ==> r.value.grpcServiceName == gen.suffix.value)
              && (tr.HttpUpgrade? && s.httpUpgradePath == "" ==> r.value.httpUpgradePath == "/" + gen.suffix.value)
  {
    var name: Result<string>;
    var t := s;
    match tr {
      case Ws =>
        name := FillName(s.wsPath, "/", gen);
        t := if name.Ok? then s.(wsPath := name.value) else s;
      case Grpc =>
        name := FillName(s.grpcServiceName, "", gen);
        t := if name.Ok? then s.(grpcServiceName := name.value) else s;
      case HttpUpgrade =>
        name := FillName(s.httpUpgradePath, "/", gen);
        t := if name.Ok? then s.(httpUpgradePath := name.value) else s;
      case _ =>
        name := Ok("");
    }
    r := if name.Ok? then Ok(t) else Err(name.error);
  }

  // Fills the Reality keys, the flow and the transport defaults that are missing.
  method ApplyGeneratedSettings(ib: Inbound, gen: Generated, ghost isPair: KeyPairing) returns (r: Result<Inbound>)
    requires Sound(gen, isPair)
    ensures r.Ok? <==> Made(ib, gen)
    ensures r.Ok? ==> FilledFrom(ib, r.value) && MadeBy(ib, gen, r.value)
    ensures r.Ok? && ib.tls.Reality? && ib.settings.realityPrivateKey == "" ==>
              isPair(r.value.settings.realityPrivateKey, r.value.settings.realityPublicKey)
  {
    var s := ib.settings;
    if ib.tls.Reality? {
      var reality := FillReality(s, gen, isPair);
      if reality.Err? {
        return Err(reality.error);
      }
      s := reality.value;
    }
    var named := FillTransport(ib.transmission, s.(flow := RealityFlow(ib)), gen);
    r := if named.Ok? then Ok(ib.(settings := named.value)) else Err(named.error);
  }

  // out is ib with its generated settings filled; values already there are stable.
  ghost predicate FilledFrom(ib: Inbound, out: Inbound) {
    var s, t := ib.settings, out.settings;
    && out == ib.(settings := t)
    && NameFilled(ib.transmission,
                  s.(realityPrivateKey := t.realityPrivateKey, realityPublicKey := t.realityPublicKey,
                     realityShortId := t.realityShortId, flow := RealityFlow(ib)), t)
    && (!ib.tls.Reality? || s.realityPrivateKey != "" ==>
          t.realityPrivateKey == s.realityPrivateKey && t.realityPublicKey == s.realityPublicKey)
    && (!ib.tls.Reality? || s.realityShortId != "" ==> t.realityShortId == s.realityShortId)
    && (ib.tls.Reality? ==> t.realityPrivateKey != "" && t.realityShortId != "")
  }

  // What every stored local inbound satisfies.
  ghost predicate Sane(ib: Inbound, isPair: KeyPairing) {
    var s := ib.settings;
    && !ib.protocol.OtherProtocol? && 1 <= ib.port <= 65535 && ib.remark != ""
    && (ib.tls.Reality? ==>
          ib.protocol.Vless? && ib.dest != "" && ib.sni != "" && s.realityPrivateKey != "" && s.realityShortId != "")
    && (ib.protocol.Hysteria2? ==>
          && s.hy2UpMbps >= 0 && s.hy2DownMbps >= 0 && (ib.tls.NoTls? ==> s.hy2ObfsPassword == "")
          && s.hy2Network in ["", "tcp", "udp"] && s.hy2BbrProfile in ["", "conservative", "standard", "aggressive"])
    && (ib.protocol.Naive? ==> s.naiveNetwork in ["", "tcp", "udp"])
    && (s.realityPrivateKey != "" ==> isPair(s.realityPrivateKey, s.realityPublicKey))
    && s.flow == RealityFlow(ib)
    && (!ib.protocol.Vless? ==> ib.transmission.Tcp?)
    && (ib.protocol.Naive? ==> !ib.tls.NoTls?)
    && (s.certPath == "" <==> s.keyPath == "")
    && (ib.transmission.Ws? ==> s.wsPath != "")
    && (ib.transmission.Grpc? ==> s.grpcServiceName != "")
    && (ib.transmission.HttpUpgrade? ==> s.httpUpgradePath != "")
  }

  // The key material a filled inbound may already carry is a pair.
  ghost predicate KeysPaired(s: Settings, isPair: KeyPairing) {
    s.realityPrivateKey != "" ==> isPair(s.realityPrivateKey, s.realityPublicKey)
  }

  // The structural part of Sane, before generation.
  predicate Shaped(ib: Inbound) {
    var s := ib.settings;
    && SupportedProtocol(ib.protocol) && 1 <= ib.port <= 65535 && ib.remark != ""
    && (ib.tls.Reality? ==> ib.protocol.Vless? && ib.dest != "" && ib.sni != "")
    && (ib.protocol.Hysteria2? ==>
          && s.hy2UpMbps >= 0 && s.hy2DownMbps >= 0 && (ib.tls.NoTls? ==> s.hy2ObfsPassword == "")
          && s.hy2Network in ["", "tcp", "udp"] && s.hy2BbrProfile in ["", "conservative", "standard", "aggressive"])
    && (ib.protocol.Naive? ==> s.naiveNetwork in ["", "tcp", "udp"])
    && (!ib.protocol.Vless? ==> ib.transmission.Tcp?)
    && (ib.protocol.Naive? ==> !ib.tls.NoTls?)
    && (ib.settings.certPath == "" <==> ib.settings.keyPath == "")
  }

  lemma {:induction false} FilledIsSane(ib: Inbound, out: Inbound, isPair: KeyPairing)
    requires Shaped(ib) && KeysPaired(ib.settings, isPair) && FilledFrom(ib, out)
    requires ib.tls.Reality? && ib.settings.realityPrivateKey == "" ==>
               isPair(out.settings.realityPrivateKey, out.settings.realityPublicKey)
    ensures Sane(out, isPair)
  {
  }

  type Rows = map<int, Inbound>

  // Every row is filed under its id, local ones are sane and have ports of their own.
  ghost predicate AllSane(rows: Rows, isPair: KeyPairing) {
    && (forall id :: id in rows ==> rows[id].id == id && (rows[id].nodeId.None? ==> Sane(rows[id], isPair)))
    && UniquePorts(rows)
  }

  ghost predicate UniquePorts(rows: Rows) {
    forall m, n :: m in rows && n in rows && m != n && rows[m].nodeId.None? && rows[n].nodeId.None? ==> rows[m].port != rows[n].port
  }

  // The unique index on the ports of local inbounds
  predicate PortTaken(rows: Rows, ib: Inbound) {
    exists id :: id in rows && id != ib.id && rows[id].nodeId.None? && rows[id].port == ib.port
  }

  // No other local inbound has the port.
  ghost predicate PortFree(rows: Rows, id: int, port: int) {
    forall n :: n in rows && n != id && rows[n].nodeId.None? ==> rows[n].port != port
  }

  lemma {:induction false} TakenUnlessFree(rows: Rows, ib: Inbound)
    ensures PortTaken(rows, ib) <==> !PortFree(rows, ib.id, ib.port)
  {
  }

  lemma {:induction false} StoredIsSane(rows: Rows, ib: Inbound, isPair: KeyPairing)
    requires AllSane(rows, isPair) && ib.nodeId.None? && Sane(ib, isPair) && PortFree(rows, ib.id, ib.port)
    ensures AllSane(rows[ib.id := ib], isPair)
  {
    hide Sane;
  }

  // An accepted input makes a shaped inbound out of a new one or a sane one.
  lemma {:induction false} ConfiguredIsShaped(ib: Inbound, input: Input, isPair: KeyPairing)
    requires Valid(input) && KeysPaired(ib.settings, isPair)
    ensures var c := Configured(ib, input);
            && Shaped(c) && KeysPaired(c.settings, isPair) && c.id == ib.id && c.nodeId == ib.nodeId && c.port == input.port
            && c.settings.realityPrivateKey == ib.settings.realityPrivateKey
  {
  }

  lemma {:induction false} FilledCarries(ib: Inbound, input: Input, out: Inbound)
    requires Valid(input) && ib.nodeId.None? && FilledFrom(Configured(ib, input), out)
    ensures CarriesInput(out, input) && KeepsIdentity(ib, out)
    ensures out.id == ib.id && out.nodeId.None? && out.port == input.port && out.enabled == ib.enabled
    ensures out.remoteId == ib.remoteId && out.remoteVersion == ib.remoteVersion
  {
  }

  lemma {:induction false} SaneKeysPaired(rows: Rows, id: int, isPair: KeyPairing)
    requires AllSane(rows, isPair) && id in rows && rows[id].nodeId.None?
    ensures KeysPaired(rows[id].settings, isPair) && rows[id].id == id && Shaped(rows[id])
  {
  }

  lemma {:induction false} CloneFilled(src: Inbound, newId: int, port: int, out: Inbound, isPair: KeyPairing)
    requires Shaped(src) && 1 <= port <= 65535 && FilledFrom(ClonedFrom(src, newId, port), out)
    ensures var c := ClonedFrom(src, newId, port);
            Shaped(c) && KeysPaired(c.settings, isPair) && c.settings.realityPrivateKey == "" && c.tls == src.tls
    ensures CopyOf(src, out) && out.id == newId && out.port == port
  {
  }

  // Whether it is enabled, and the keys it has, outlive an update.
  ghost predicate KeepsIdentity(before: Inbound, after: Inbound) {
    var s, t := before.settings, after.settings;
    && after.id == before.id && after.enabled == before.enabled && after.remoteId == before.remoteId
    && after.remoteVersion == before.remoteVersion
    && (s.realityPrivateKey != "" ==> t.realityPrivateKey == s.realityPrivateKey && t.realityPublicKey == s.realityPublicKey)
    && (s.realityShortId != "" ==> t.realityShortId == s.realityShortId)
  }

  // A disabled copy that shares no settings but the client's verification override.
  ghost predicate CopyOf(src: Inbound, copy: Inbound) {
    && copy.nodeId.None? && copy.remoteId == "" == copy.remoteVersion && !copy.enabled && copy.remark == src.remark + "-copy"
    && copy.protocol == src.protocol && copy.transmission == src.transmission && copy.tls == src.tls
    && copy.sni == src.sni && copy.dest == src.dest && copy.settings.allowInsecure == src.settings.allowInsecure
    && copy.settings.certPath == "" == copy.settings.keyPath && copy.settings.acmeDomain == "" == copy.settings.acmeEmail
    && copy.settings.hy2UpMbps == 0 == copy.settings.hy2DownMbps && copy.settings.hy2ObfsPassword == "" == copy.settings.hy2Masquerade
    && copy.settings.hy2Network == "" == copy.settings.hy2BbrProfile && copy.settings.naiveNetwork == ""
    && copy.settings.naiveQuicCongestionCtrl == "" && !copy.settings.multiplexEnabled
  }

  function NewInbound(id: int): Inbound {
    Inbound(id, None, "", "", "", Vless, 0, Tcp, NoTls, "", "", true, EMPTY_SETTINGS)
  }

  lemma {:induction false} NewKeysPaired(id: int, isPair: KeyPairing)
    ensures KeysPaired(NewInbound(id).settings, isPair)
  {
  }

  class InboundService {
    var rows: Rows
    var triggers: nat

    constructor ()
      ensures rows == map[] && triggers == 0
    {
      rows, triggers := map[], 0;
    }

    method Create(input: Input, gen: Generated, newId: int, ok: bool, ghost isPair: KeyPairing) returns (r: Result<Inbound>)
      requires Sound(gen, isPair) && AllSane(rows, isPair) && newId !in rows
      modifies this
      ensures AllSane(rows, isPair)
      ensures r.Ok? <==>
              && Valid(input) && Made(Configured(NewInbound(newId), input), gen)
              && ok && PortFree(old(rows), newId, input.port)
      ensures r.Ok? ==> FilledFrom(Configured(NewInbound(newId), input), r.value)
      ensures r.Ok? ==> MadeBy(Configured(NewInbound(newId), input), gen, r.value)
      ensures Rejected(input) ==> r == Err(Validation)
      ensures r.Ok? ==> CarriesInput(r.value, input) && r.value.id == newId && r.value.enabled
      ensures r.Ok? ==> r.value.remoteId == "" == r.value.remoteVersion
      ensures rows == if r.Ok? then old(rows)[newId := r.value] else old(rows)
      ensures triggers == old(triggers) + if r.Ok? then 1 else 0
    {
      hide Sane, AllSane, Shaped, KeysPaired, FilledFrom, MadeBy, Configured, CarriesInput, KeepsIdentity, Valid, Made, PortTaken, PortFree,
        Rejected;
      ValidUnlessRejected(input);
      if !Valid(input) {
        return Err(Validation);
      }
      var ib := Configured(NewInbound(newId), input);
      NewKeysPaired(newId, isPair);
      ConfiguredIsShaped(NewInbound(newId), input, isPair);
      var filled := ApplyGeneratedSettings(ib, gen, isPair);
      if filled.Err? {
        return filled;
      }
      FilledCarries(NewInbound(newId), input, filled.value);
      TakenUnlessFree(rows, filled.value);
      if !ok || PortTaken(rows, filled.value) {
        return Err(Exists);
      }
      FilledIsSane(ib, filled.value, isPair);
      StoredIsSane(rows, filled.value, isPair);
      rows := rows[newId := filled.value];
      triggers := triggers + 1;
      r := filled;
    }

    method Update(id: int, input: Input, gen: Generated, ok: bool, ghost isPair: KeyPairing) returns (r: Result<Inbound>)
      requires Sound(gen, isPair) && AllSane(rows, isPair)
      modifies this
      ensures AllSane(rows, isPair)
      ensures r.Ok? <==>
              && Valid(input) && id in old(rows) && old(rows)[id].nodeId.None? && Made(Configured(old(rows)[id], input), gen)
              && ok && PortFree(old(rows), id, input.port)
      ensures r.Ok? ==> FilledFrom(Configured(old(rows)[id], input), r.value)
      ensures r.Ok? ==> MadeBy(Configured(old(rows)[id], input), gen, r.value)
      ensures Rejected(input) ==> r == Err(Validation)
      ensures r.Ok? ==> CarriesInput(r.value, input) && KeepsIdentity(old(rows)[id], r.value)
      ensures rows == if r.Ok? then old(rows)[id := r.value] else old(rows)
      ensures triggers == old(triggers) + if r.Ok? then 1 else 0
    {
      hide Sane, AllSane, Shaped, KeysPaired, FilledFrom, MadeBy, Configured, CarriesInput, KeepsIdentity, Valid, Made, PortTaken, PortFree,
        Rejected;
      ValidUnlessRejected(input);
      if !Valid(input) {
        return Err(Validation);
      }
      if id !in rows {
        return Err(NotFound);
      }
      if rows[id].nodeId.Some? {
        return Err(Validation);
      }
      SaneKeysPaired(rows, id, isPair);
      ConfiguredIsShaped(rows[id], input, isPair);
      var ib := Configured(rows[id], input);
      var filled := ApplyGeneratedSettings(ib, gen, isPair);
      if filled.Err? {
        return filled;
      }
      FilledCarries(rows[id], input, filled.value);
      TakenUnlessFree(rows, filled.value);
      if !ok || PortTaken(rows, filled.value) {
        return Err(Exists);
      }
      FilledIsSane(ib, filled.value, isPair);
      StoredIsSane(rows, filled.value, isPair);
      rows := rows[id := filled.value];
      triggers := triggers + 1;
      r := filled;
    }

    method Toggle(id: int, ok: bool, ghost isPair: KeyPairing) returns (r: Result<Inbound>)
      requires AllSane(rows, isPair)
      modifies this
      ensures AllSane(rows, isPair)
      ensures r.Ok? <==> id in old(rows) && old(rows)[id].nodeId.None? && ok
      ensures r.Ok? ==> r.value == old(rows)[id].(enabled := !old(rows)[id].enabled)
      ensures rows == if r.Ok? then old(rows)[id := r.value] else old(rows)
      ensures triggers == old(triggers) + if r.Ok? then 1 else 0
    {
      if id !in rows {
        return Err(NotFound);
      }
      if rows[id].nodeId.Some? {
        return Err(Validation);
      }
      if !ok {
        return Err(Exists);
      }
      var ib := rows[id].(enabled := !rows[id].enabled);
      rows := rows[id := ib];
      triggers := triggers + 1;
      r := Ok(ib);
    }

    // The copy gets its own port and fresh key material, and starts disabled.
    method Clone(id: int, port: int, gen: Generated, newId: int, ok: bool, ghost isPair: KeyPairing) returns (r: Result<Inbound>)
      requires 1 <= port <= 65535 // the port is drawn from that range
      requires Sound(gen, isPair) && AllSane(rows, isPair) && newId !in rows
      modifies this
      ensures AllSane(rows, isPair)
      ensures r.Ok? <==>
              && id in old(rows) && old(rows)[id].nodeId.None? && Made(ClonedFrom(old(rows)[id], newId, port), gen)
              && ok && PortFree(old(rows), newId, port)
      ensures r.Ok? ==> FilledFrom(ClonedFrom(old(rows)[id], newId, port), r.value)
      ensures r.Ok? ==> MadeBy(ClonedFrom(old(rows)[id], newId, port), gen, r.value)
      ensures r.Ok? ==> CopyOf(old(rows)[id], r.value) && r.value.id == newId && r.value.port == port
      ensures rows == if r.Ok? then old(rows)[newId := r.value] else old(rows)
      ensures triggers == old(triggers) + if r.Ok? then 1 else 0
    {
      hide Sane, AllSane, Shaped, KeysPaired, FilledFrom, MadeBy, Made, PortTaken, PortFree, CopyOf, ClonedFrom;
      if id !in rows {
        return Err(NotFound);
      }
      var src := rows[id];
      if src.nodeId.Some? {
        return Err(Validation);
      }
      var ib := ClonedFrom(src, newId, port);
      var filled := ApplyGeneratedSettings(ib, gen, isPair);
      if filled.Err? {
        return filled;
      }
      SaneKeysPaired(rows, id, isPair);
      CloneFilled(src, newId, port, filled.value, isPair);
      TakenUnlessFree(rows, filled.value);
      if !ok || PortTaken(rows, filled.value) {
        return Err(Exists);
      }
      FilledIsSane(ib, filled.value, isPair);
      StoredIsSane(rows, filled.value, isPair);
      rows := rows[newId := filled.value];
      triggers := triggers + 1;
      r := filled;
    }
  }

  function ClonedFrom(src: Inbound, newId: int, port: int): Inbound {
    Inbound(newId, None, "", "", src.remark + "-copy", src.protocol, port, src.transmission, src.tls, src.sni, src.dest, false,
            EMPTY_SETTINGS.(allowInsecure := src.settings.allowInsecure))
  }
}
