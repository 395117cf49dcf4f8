/** The proxy engine as the agent sees it: the few fields of the engine's
    protobuf records that the agent fills in, the RPC calls it issues, and the
    library port check it relies on. The engine itself is not modelled; its
    answers are inputs. */
module V2Ray {
  import opened Models

  /** A VMess account: the user's UUID and alter-id count. */
  datatype Account = Account(id: string, alterId: nat)

  /** An engine-side user (protocol.User). */
  datatype EngineUser = EngineUser(level: nat, email: string, account: Account)

  /** The per-transport settings message. */
  datatype TransportSettings = WebsocketSettings(path: string) | NoSettings

  /** An inbound handler configuration (core.InboundHandlerConfig with its
      proxyman.ReceiverConfig and vmess inbound Config folded in). */
  datatype InboundConfig = InboundConfig(
    tag: string,
    port: nat,
    listen: string,
    allocateAlways: bool,
    streamProtocolName: string,
    transportProtocolName: string,
    transportSettings: TransportSettings,
    receiveOriginalDestination: bool,
    sniffingEnabled: bool,
    destinationOverride: seq<string>,
    users: seq<EngineUser>,
    defaultAlterId: nat,
    detourTo: Option<string>,
    secureEncryptionOnly: bool)

  /** The calls of the engine's handler service that the agent issues. */
  datatype RpcCall =
    | AddInbound(config: InboundConfig)
    | RemoveInbound(tag: string)
    | AddUser(user: EngineUser)
    | DelUser(email: string)

  /** What `net.PortFromInt` returns: a port value and whether it failed. */
  datatype PortResult = PortResult(port: nat, failed: bool)

  /** `net.PortFromInt` is library code whose range rules are not part of this
      model; callers receive it as a function. */
  type PortFn = nat -> PortResult

  /** The protobuf int64 that carries a counter value. */
  type int64 = x: int | -0x8000_0000_0000_0000 <= x < 0x8000_0000_0000_0000

  /** A stats query (statsservice.GetStatsRequest). */
  datatype StatsRequest = StatsRequest(name: string, reset: bool)

  /** The engine's answer to a stats query: a counter value (an int64), or an
      RPC error that either carries a gRPC status with a message or does not. */
  datatype StatsReply =
    | StatValue(value: int64)
    | RpcFailure(isStatus: bool, message: string)

  /** The engine's stats service, as a function from request to reply. */
  type StatsEngine = StatsRequest -> StatsReply
}
