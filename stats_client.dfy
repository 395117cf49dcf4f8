/** Per-user traffic queries against the engine's stats service
    (modules/statsClient.go): two reset-on-read counter queries, uplink then
    downlink, whose values are added. */
module StatsClient {
  import opened Models
  import opened V2Ray

  const USER_PREFIX: string := "user>>>"
  const UPLINK_SUFFIX: string := ">>>traffic>>>uplink"
  const DOWNLINK_SUFFIX: string := ">>>traffic>>>downlink"
  const NOT_FOUND: string := " not found."

  /** The name of a user's uplink counter. */
  function UplinkName(email: string): string {
    USER_PREFIX + email + UPLINK_SUFFIX
  }

  /** The name of a user's downlink counter. */
  function DownlinkName(email: string): string {
    USER_PREFIX + email + DOWNLINK_SUFFIX
  }

  /** Counter names identify their user and direction: the same name never
      belongs to two users, and an uplink name is never a downlink name. */
  lemma CounterNamesDistinct(e1: string, e2: string)
    ensures UplinkName(e1) == UplinkName(e2) ==> e1 == e2
    ensures DownlinkName(e1) == DownlinkName(e2) ==> e1 == e2
    ensures UplinkName(e1) != DownlinkName(e2)
  {
    var u1, u2 := UplinkName(e1), UplinkName(e2);
    if u1 == u2 {
      assert |e1| == |e2|;
      assert e1 == u1[|USER_PREFIX|..|USER_PREFIX| + |e1|];
      assert e2 == u2[|USER_PREFIX|..|USER_PREFIX| + |e2|];
    }
    var d1, d2 := DownlinkName(e1), DownlinkName(e2);
    if d1 == d2 {
      assert |e1| == |e2|;
      assert e1 == d1[|USER_PREFIX|..|USER_PREFIX| + |e1|];
      assert e2 == d2[|USER_PREFIX|..|USER_PREFIX| + |e2|];
    }
    // the fifth character from the end tells the directions apart
    assert u1[|u1| - 5] == 'p' && d2[|d2| - 5] == 'n';
  }

  /** Go's `strings.HasSuffix`. */
  predicate HasSuffix(s: string, suffix: string) {
    |suffix| <= |s| && s[|s| - |suffix|..] == suffix
  }

  /** Go's conversion `uint64(v)` of an int64: negative values wrap around. */
  function ToUint64(v: int64): (r: uint64)
    ensures v >= 0 ==> r == v
    ensures v < 0 ==> r == v + U64_MODULUS
  {
    if v < 0 then v + U64_MODULUS else v
  }

  /** The inverse conversion, int64(u). */
  function ToInt64(u: uint64): int64 {
    if u < 0x8000_0000_0000_0000 then u else u - U64_MODULUS
  }

  /** The conversion loses nothing: every int64 comes back from its uint64. */
  lemma ToUint64RoundTrip(v: int64)
    ensures ToInt64(ToUint64(v)) == v
  {
  }

  /** An error that reached the caller: the gRPC status flag and message. */
  datatype StatsError = StatsError(isStatus: bool, message: string)

  /** getUserStats: one counter query. A status error whose message ends with
      `name + " not found."` reads as zero; any other error is returned; a
      counter value is converted to uint64. */
  function GetUserStats(name: string, reset: bool, engine: StatsEngine): (r: Result<uint64, StatsError>)
    ensures engine(StatsRequest(name, reset)).StatValue? ==>
              r.Ok? && ToInt64(r.value) == engine(StatsRequest(name, reset)).value
    ensures r.Err? ==>
              engine(StatsRequest(name, reset)).RpcFailure?
                && r.error.message == engine(StatsRequest(name, reset)).message
  {
    match engine(StatsRequest(name, reset))
    case StatValue(v) => Ok(ToUint64(v))
    case RpcFailure(isStatus, message) =>
      if isStatus && HasSuffix(message, name + NOT_FOUND) then Ok(0)
      else Err(StatsError(isStatus, message))
  }

  /** getUserStats, as the counter's owner sees it: a missing counter counts as
      zero traffic, and exactly the other failures are reported. */
  lemma GetUserStatsMeaning(name: string, reset: bool, engine: StatsEngine, prefix: string)
    ensures engine(StatsRequest(name, reset)) == RpcFailure(true, prefix + name + NOT_FOUND) ==>
                GetUserStats(name, reset, engine) == Ok(0)
    ensures GetUserStats(name, reset, engine).Err? <==>
                (engine(StatsRequest(name, reset)).RpcFailure?
                    && !(engine(StatsRequest(name, reset)).isStatus
                         && HasSuffix(engine(StatsRequest(name, reset)).message, name + NOT_FOUND)))
  {
    var reply := engine(StatsRequest(name, reset));
    var m := prefix + name + NOT_FOUND;
    if reply == RpcFailure(true, m) {
      assert m[|m| - |name + NOT_FOUND|..] == name + NOT_FOUND;
    }
  }

  /** The outcome of GetUserTraffic: the counter queries it issued, in order,
      and the value or error it returned (Go returns 0 beside an error). */
  datatype TrafficQuery = TrafficQuery(requests: seq<StatsRequest>, result: Result<uint64, StatsError>)

  /** GetUserTraffic: uplink, then downlink, both with reset, summed in uint64;
      the first error short-circuits. */
  function GetUserTraffic(email: string, engine: StatsEngine): (q: TrafficQuery)
    ensures 1 <= |q.requests| <= 2
    ensures forall i :: 0 <= i < |q.requests| ==> q.requests[i].reset
    ensures q.requests[0].name == UplinkName(email)
    ensures |q.requests| == 2 <==> GetUserStats(UplinkName(email), true, engine).Ok?
    ensures |q.requests| == 2 ==> q.requests[1].name == DownlinkName(email)
    ensures q.result.Ok? <==>
                GetUserStats(UplinkName(email), true, engine).Ok?
                   && GetUserStats(DownlinkName(email), true, engine).Ok?
    ensures q.result.Ok? ==>
                q.result.value == Add64(GetUserStats(UplinkName(email), true, engine).value,
                                          GetUserStats(DownlinkName(email), true, engine).value)
    ensures q.result.Err? ==>
                q.result.error == (if GetUserStats(UplinkName(email), true, engine).Err?
                                   then GetUserStats(UplinkName(email), true, engine).error
                                   else GetUserStats(DownlinkName(email), true, engine).error)
  {
    var upName := UplinkName(email);
    match GetUserStats(upName, true, engine)
    case Err(e) => TrafficQuery([StatsRequest(upName, true)], Err(e))
    case Ok(up) =>
      var downName := DownlinkName(email);
      var requests := [StatsRequest(upName, true), StatsRequest(downName, true)];
      match GetUserStats(downName, true, engine)
      case Err(e2) => TrafficQuery(requests, Err(e2))
      case Ok(down) => TrafficQuery(requests, Ok(Add64(up, down)))
  }

  /** A user the engine has no counters for yet reads as zero traffic. */
  lemma UnknownUserReadsZero(email: string, engine: StatsEngine, p1: string, p2: string)
    requires engine(StatsRequest(UplinkName(email), true)) == RpcFailure(true, p1 + UplinkName(email) + NOT_FOUND)
    requires engine(StatsRequest(DownlinkName(email), true)) == RpcFailure(true, p2 + DownlinkName(email) + NOT_FOUND)
    ensures GetUserTraffic(email, engine).result == Ok(0)
  {
    GetUserStatsMeaning(UplinkName(email), true, engine, p1);
    GetUserStatsMeaning(DownlinkName(email), true, engine, p2);
  }
}
