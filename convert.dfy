/** Projection of a control-plane Service onto the engine's records
    (utils/convert.go): one engine user per service, and one dedicated VMess
    inbound per service in multi-inbound mode. */
module Convert {
  import opened Models
  import opened V2Ray

  /** The alter-id count hard-coded for every account and inbound. */
  const ALTER_ID: nat := 64

  /** The listen address hard-coded for every inbound. */
  const ANY_ADDRESS: string := "0.0.0.0"

  /** Whether `n` is a Unicode scalar value, i.e. a code point Go can encode. */
  predicate IsScalarValue(n: int) {
    (0 <= n < 0xD800) || (0xE000 <= n < 0x11_0000)
  }

  /** Go's `string(n)` for an integer `n`: the one-rune string holding code
      point `n`, or the replacement character U+FFFD when `n` is not a valid
      code point. */
  function RuneString(n: uint64): (r: string)
    ensures |r| == 1
    ensures IsScalarValue(n) ==> r[0] as int == n
    ensures !IsScalarValue(n) ==> r[0] == '\U{FFFD}'
  {
    if IsScalarValue(n) then [n as char] else ['\U{FFFD}']
  }

  /** Different valid code points give different tags; every invalid one
      collapses onto the same one-character tag, U+FFFD. */
  lemma RuneStringCollisions(m: uint64, n: uint64)
    requires m != n
    ensures IsScalarValue(m) && IsScalarValue(n) ==> RuneString(m) != RuneString(n)
    ensures !IsScalarValue(m) && !IsScalarValue(n) ==> RuneString(m) == RuneString(n)
  {
    if IsScalarValue(m) && IsScalarValue(n) {
      assert RuneString(m)[0] as int != RuneString(n)[0] as int;
    }
  }

  /** ConvertService: the engine user for a service. */
  function ConvertService(s: Service): (u: EngineUser)
    ensures u.level == 0 && u.email == s.email
    ensures u.account == Account(s.uuid, ALTER_ID)
  {
    EngineUser(0, s.email, Account(s.uuid, ALTER_ID))
  }

  /** The engine user depends on nothing but the service's email and UUID: two
      services that differ only in fields the engine never sees (name,
      description, host, ...) map to the same engine user. */
  lemma ConvertServiceSeesOnlyEmailAndUuid(s: Service, t: Service)
    ensures ConvertService(s) == ConvertService(t) <==> s.email == t.email && s.uuid == t.uuid
  {
    if ConvertService(s) == ConvertService(t) {
      assert ConvertService(s).account.id == ConvertService(t).account.id;
    }
  }

  /** ConvertVmessInbound: the dedicated inbound for a service. The port
      conversion error is ignored (the port value returned with it is used),
      the tag is `string(s.ID)`, and the transport settings are a websocket
      configuration whatever protocol name the service carries. */
  function ConvertVmessInbound(s: Service, portFromInt: PortFn): (c: InboundConfig)
    ensures c.users == [ConvertService(s)]
    ensures c.tag == RuneString(s.id)
    ensures c.port == portFromInt(ToUint32(s.port)).port
    ensures c.listen == ANY_ADDRESS && c.allocateAlways
    ensures c.streamProtocolName == s.transportProtocol
    ensures c.transportProtocolName == s.transportProtocol
    ensures c.transportSettings == WebsocketSettings("")
    ensures c.receiveOriginalDestination
    ensures c.sniffingEnabled && c.destinationOverride == ["http", "tls"]
    ensures c.defaultAlterId == ALTER_ID && c.detourTo == Some("")
    ensures c.secureEncryptionOnly
  {
    var port := portFromInt(ToUint32(s.port)).port;
    InboundConfig(
      RuneString(s.id), port, ANY_ADDRESS, true,
      s.transportProtocol, s.transportProtocol, WebsocketSettings(""),
      true, true, ["http", "tls"],
      [ConvertService(s)], ALTER_ID, Some(""), true)
  }
}
