// The compiler from a client's inbounds to its own configuration:
// internal/services/sublink/subscription.go.
module Subscription {
  import Collections
  import opened Domain
  import opened Generator
  import opened Text

  datatype ClientReality = ClientReality(publicKey: string, shortId: string)

  datatype ClientTls = ClientTls(serverName: string, insecure: bool, alpn: seq<string>, reality: Option<ClientReality>,
                                 fingerprint: string)

  datatype Outbound =
    | VlessOut(tag: string, server: string, port: int, uuid: string, flow: string, tls: Option<ClientTls>,
               transport: Option<Transport>)
    | Hysteria2Out(tag: string, server: string, port: int, password: string, tls: Option<ClientTls>, upMbps: int, downMbps: int,
                   network: string, bbrProfile: string, brutalDebug: bool, obfs: Option<Obfs>)
    | NaiveOut(tag: string, server: string, port: int, username: string, password: string, tls: Option<ClientTls>)
    | DirectOut(tag: string)

  function ClientTlsOf(ib: Inbound): Option<ClientTls> {
    match ib.tls
    case Reality =>
      Some(ClientTls(ib.sni, false, [], Some(ClientReality(ib.settings.realityPublicKey, ib.settings.realityShortId)), "chrome"))
    case Tls => Some(ClientTls(ib.sni, ib.EffectiveAllowInsecure(), if ib.protocol.Hysteria2? then ["h3"] else [], None, ""))
    case _ => None
  }

  function NaiveClientTls(ib: Inbound): Option<ClientTls> {
    if ib.tls.Tls? then Some(ClientTls(ib.sni, false, [], None, "")) else None
  }

  function ClientTransport(ib: Inbound): Option<Transport> {
    match ib.transmission
    case Ws => Some(Transport("ws", "", ib.settings.wsPath, ""))
    case Grpc => Some(Transport("grpc", "", "", ib.settings.grpcServiceName))
    case HttpUpgrade => Some(Transport("httpupgrade", ib.settings.httpUpgradeHost, ib.settings.httpUpgradePath, ""))
    case _ => None
  }

  // None: a naive outbound would have to skip certificate verification.
  function BuildProxyOutbound(ib: Inbound, c: Client, host: string, tag: string): Option<Outbound> {
    var s := ib.settings;
    match ib.protocol
    case Vless => Some(VlessOut(tag, host, ib.port, c.uuid, s.flow, ClientTlsOf(ib), ClientTransport(ib)))
    case Hysteria2 =>
      var obfs :=
        if s.hy2ObfsPassword != "" then Some(Obfs("salamander", s.hy2ObfsPassword, s.hy2ObfsMinPacketSize, s.hy2ObfsMaxPacketSize))
        else None;
      Some(Hysteria2Out(tag, host, ib.port, c.password, ClientTlsOf(ib), s.hy2UpMbps, s.hy2DownMbps, s.hy2Network, s.hy2BbrProfile,
                        s.hy2BrutalDebug, obfs))
    case Naive =>
      if ib.EffectiveAllowInsecure() then None
      else Some(NaiveOut(tag, host, ib.port, c.name, c.password, NaiveClientTls(ib)))
    case OtherProtocol(_) => Some(DirectOut(tag))
  }

  datatype ClientConfig = ClientConfig(selector: seq<string>, outbounds: seq<Outbound>)

  datatype Result = Ok(config: ClientConfig) | NeedsTrustedTls | NoUsableInbound

  predicate Skipped(ib: Inbound) {
    ib.protocol.Naive? && ib.EffectiveAllowInsecure()
  }

  // Tags number the inbounds from one; a skipped inbound leaves its number unused.
  function ProxyTag(i: nat): string {
    "proxy-" + FormatInt(i + 1)
  }

  // The positions of the inbounds that get an outbound.
  function Kept(inbounds: seq<Inbound>): (ks: seq<nat>)
    ensures forall k :: k in ks <==> 0 <= k < |inbounds| && !Skipped(inbounds[k])
    ensures forall i, j :: 0 <= i < j < |ks| ==> ks[i] < ks[j]
  {
    if |inbounds| == 0 then []
    else
      var n := |inbounds| - 1;
      var front := Kept(inbounds[..n]);
      assert forall i :: 0 <= i < |front| ==> front[i] in front;
      if Skipped(inbounds[n]) then front else front + [n]
  }

  // config offers exactly the kept inbounds, in order, under their own tags.
  ghost predicate Offers(config: ClientConfig, ks: seq<nat>, inbounds: seq<Inbound>, c: Client, host: string) {
    && |config.selector| == |config.outbounds| == |ks|
    && forall i :: 0 <= i < |ks| ==>
                     && ks[i] < |inbounds|
                     && config.selector[i] == "proxy-" + FormatInt(ks[i] + 1)
                     && BuildProxyOutbound(inbounds[ks[i]], c, host, ProxyTag(ks[i])) == Some(config.outbounds[i])
  }

  method BuildClientConfigMulti(inbounds: seq<Inbound>, c: Client, host: string) returns (r: Result)
    ensures r.Ok? <==> exists ib :: ib in inbounds && !Skipped(ib)
    ensures r.Ok? ==> Offers(r.config, Kept(inbounds), inbounds, c, host)
    ensures r.NoUsableInbound? <==> inbounds == []
  {
    hide BuildProxyOutbound, ProxyTag, Offers, Skipped, Kept;
    var outbounds: seq<Outbound> := [];
    var tags: seq<string> := [];
    var skipped := false;
    OffersNothing(inbounds, c, host);
    for i := 0 to |inbounds|
      invariant Offers(ClientConfig(tags, outbounds), Kept(inbounds[..i]), inbounds, c, host)
      invariant skipped <==> exists j :: 0 <= j < i && Skipped(inbounds[j])
    {
      var tag := ProxyTag(i);
      KeptNext(inbounds, i);
      var out := BuildProxyOutbound(inbounds[i], c, host, tag);
      SkippedIff(inbounds[i], c, host, tag);
      if out.None? {
        skipped := true;
        continue;
      }
      OffersOneMore(ClientConfig(tags, outbounds), Kept(inbounds[..i]), inbounds, c, host, i, out.value);
      outbounds := outbounds + [out.value];
      tags := tags + [tag];
    }
    assert inbounds[..|inbounds|] == inbounds;
    OfferedCount(ClientConfig(tags, outbounds), Kept(inbounds), inbounds, c, host);
    if |outbounds| == 0 {
      NothingKept(inbounds);
      if skipped {
        return NeedsTrustedTls;
      }
      return NoUsableInbound;
    }
    assert Kept(inbounds)[0] in Kept(inbounds);
    assert inbounds[Kept(inbounds)[0]] in inbounds;
    r := Ok(ClientConfig(tags, outbounds));
  }

  lemma {:induction false} KeptNext(inbounds: seq<Inbound>, i: nat)
    requires i < |inbounds|
    ensures Kept(inbounds[..i + 1]) == if Skipped(inbounds[i]) then Kept(inbounds[..i]) else Kept(inbounds[..i]) + [i]
  {
    assert inbounds[..i + 1][..i] == inbounds[..i];
  }

  lemma {:induction false} OffersNothing(inbounds: seq<Inbound>, c: Client, host: string)
    ensures Offers(ClientConfig([], []), Kept([]), inbounds, c, host)
  {
  }

  lemma {:induction false} OfferedCount(config: ClientConfig, ks: seq<nat>, inbounds: seq<Inbound>, c: Client, host: string)
    requires Offers(config, ks, inbounds, c, host)
    ensures |config.outbounds| == |ks|
  {
  }

  lemma {:induction false} OffersOneMore(config: ClientConfig, ks: seq<nat>, inbounds: seq<Inbound>, c: Client, host: string, k: nat,
                                         out: Outbound)
    requires Offers(config, ks, inbounds, c, host) && k < |inbounds|
    requires BuildProxyOutbound(inbounds[k], c, host, ProxyTag(k)) == Some(out)
    ensures Offers(ClientConfig(config.selector + [ProxyTag(k)], config.outbounds + [out]), ks + [k], inbounds, c, host)
  {
    hide BuildProxyOutbound;
  }

  lemma {:induction false} SkippedIff(ib: Inbound, c: Client, host: string, tag: string)
    ensures BuildProxyOutbound(ib, c, host, tag).None? <==> Skipped(ib)
  {
  }

  lemma {:induction false} NothingKept(inbounds: seq<Inbound>)
    requires Kept(inbounds) == []
    ensures forall ib :: ib in inbounds ==> Skipped(ib)
  {
    forall ib | ib in inbounds
      ensures Skipped(ib)
    {
      var k :| 0 <= k < |inbounds| && inbounds[k] == ib;
      assert k !in Kept(inbounds);
    }
  }

  // The selector offers no tag twice, and no tag that is taken by the selector
  // itself or by the direct outbound.
  lemma {:induction false} SelectorDistinct(config: ClientConfig, inbounds: seq<Inbound>, c: Client, host: string)
    requires Offers(config, Kept(inbounds), inbounds, c, host) && |inbounds| <= MAX_INT64
    ensures Collections.Distinct(config.selector)
    ensures "proxy" !in config.selector && "direct" !in config.selector
  {
    var ks, selector := Kept(inbounds), config.selector;
    assert forall i :: 0 <= i < |ks| ==> ks[i] < |inbounds| && selector[i] == ProxyTag(ks[i]);
    hide BuildProxyOutbound, Offers, Kept;
    forall i, j | 0 <= i < j < |ks|
      ensures selector[i] != selector[j]
    {
      TagsDiffer(ks[i], ks[j]);
    }
    forall i | 0 <= i < |ks|
      ensures selector[i] != "proxy" && selector[i] != "direct"
    {
      assert |ProxyTag(ks[i])| > 6;
    }
  }

  lemma {:induction false} TagsDiffer(i: nat, j: nat)
    requires i < j < MAX_INT64
    ensures ProxyTag(i) != ProxyTag(j)
  {
    hide FormatInt;
    assert ProxyTag(i)[6..] == FormatInt(i + 1) && ProxyTag(j)[6..] == FormatInt(j + 1);
    if ProxyTag(i) == ProxyTag(j) {
      FormatInjective(i + 1, j + 1);
    }
  }
}
