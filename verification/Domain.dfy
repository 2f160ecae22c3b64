// The entities shared by the services: internal/domain.
module Domain {
  import opened Text

  // Wall-clock instants, in nanoseconds.
  type Time = int

  // The two counters every traffic figure carries.
  datatype Direction = Up | Down

  datatype ClientStatus = Active | Disabled | Expired | OtherStatus(text: string)

  datatype Client = Client(
    id: int,
    nodeId: Option<int>, // None: the client is served by this panel
    remoteId: string,
    inboundId: int,
    inboundIds: seq<int>,
    name: string,
    uuid: string,
    password: string,
    usedUp: int,
    usedDown: int,
    totalQuota: int,
    expiry: Option<Time>,
    status: ClientStatus,
    subToken: string,
    startAfterFirstUse: bool,
    enabled: bool,
    firstUsedAt: Option<Time>,
    lastUsedAt: Option<Time>)
  {
    predicate Local() {
      nodeId.None?
    }

    function Used(d: Direction): int {
      match d
      case Up => usedUp
      case Down => usedDown
    }

    function UsedTotal(): int {
      usedUp + usedDown
    }

    predicate QuotaExceeded() {
      totalQuota > 0 && UsedTotal() >= totalQuota
    }

    predicate IsExpired(now: Time) {
      expiry.Some? && now > expiry.value
    }
  }

  datatype Protocol = Vless | Naive | Hysteria2 | OtherProtocol(text: string)

  datatype Transmission = Tcp | Ws | Grpc | HttpUpgrade | OtherTransmission(text: string)

  datatype TlsMode = NoTls | Tls | Reality | OtherTls(text: string)

  datatype Settings = Settings(
    realityPrivateKey: string,
    realityPublicKey: string,
    realityShortId: string,
    flow: string,
    wsPath: string,
    grpcServiceName: string,
    httpUpgradePath: string,
    httpUpgradeHost: string,
    certPath: string,
    keyPath: string,
    acmeDomain: string,
    acmeEmail: string,
    allowInsecure: Option<bool>,
    hy2UpMbps: int,
    hy2DownMbps: int,
    hy2IgnoreClientBandwidth: bool,
    hy2ObfsPassword: string,
    hy2ObfsMinPacketSize: int,
    hy2ObfsMaxPacketSize: int,
    hy2Masquerade: string,
    hy2Network: string,
    hy2BrutalDebug: bool,
    hy2BbrProfile: string,
    naiveNetwork: string,
    naiveQuicCongestionCtrl: string,
    multiplexEnabled: bool)

  const EMPTY_SETTINGS := Settings("", "", "", "", "", "", "", "", "", "", "", "", None, 0, 0, false, "", 0, 0, "", "",
                                   false, "", "", "", false)

  datatype Inbound = Inbound(
    id: int,
    nodeId: Option<int>,
    remoteId: string,
    remoteVersion: string,
    remark: string,
    protocol: Protocol,
    port: int,
    transmission: Transmission,
    tls: TlsMode,
    sni: string,
    dest: string,
    enabled: bool,
    settings: Settings)
  {
    predicate EffectiveAllowInsecure() {
      && tls.Tls?
      && if settings.allowInsecure.Some? then settings.allowInsecure.value
         else settings.acmeDomain == "" && settings.certPath == "" && settings.keyPath == ""
    }
  }
}
