/** The service poller's batch check and the reconciler (worker/service.go):
    one cycle of each apply mode over the last-applied mirror, the quota
    filter of the single-inbound mode, and the single-inbound initialisation. */
module ServiceWorker {
  import opened Models
  import opened V2Ray
  import opened Convert
  import opened ServiceDiff

  // ---------------------------------------------------------------------
  // Desired-state poller: the batch check of getServices
  // ---------------------------------------------------------------------

  /** The decoded body of GET /nodes/{id}/services: the services that
      json.Unmarshal filled in, the total, and whether decoding reported an
      error (which the poller only logs). */
  datatype ServiceListing = ServiceListing(services: seq<Service>, total: uint64, decodeFailed: bool)

  /** getServices after the request: nothing is sent on a transport error or
      a non-200 status; otherwise the validation loop returns at the first
      invalid service, and only a batch that validates entirely is sent, as
      decoded. A decoding error does not stop the send. */
  method GetServices(response: Response<ServiceListing>) returns (sent: Option<seq<Service>>)
    ensures sent.Some? <==>
              response.Reply? && response.statusCode == STATUS_OK
              && forall i :: 0 <= i < |response.body.services| ==> ServiceValid(response.body.services[i])
    ensures sent.Some? ==> sent.value == response.body.services
  {
    if response.TransportError? {
      return None;
    }
    if response.statusCode != STATUS_OK {
      return None;
    }
    var services := response.body.services;
    var i := 0;
    while i < |services|
      invariant 0 <= i <= |services|
      invariant forall k :: 0 <= k < i ==> ServiceValid(services[k])
    {
      if !ServiceValid(services[i]) {
        return None;
      }
      i := i + 1;
    }
    return Some(services);
  }

  // ---------------------------------------------------------------------
  // Single-inbound initialisation
  // ---------------------------------------------------------------------

  /** isProtocolValid: the stream transports a VMess inbound accepts. */
  function IsProtocolValid(p: string): (valid: bool)
    ensures valid <==> p in {"tcp", "websocket", "http", "mkcp", "domainsocket", "quic"}
  {
    var validProtocol := map["tcp" := true, "websocket" := true, "http" := true,
                             "mkcp" := true, "domainsocket" := true, "quic" := true];
    p in validProtocol
  }

  /** protocolConfig: websocket settings for "websocket", none otherwise. */
  function ProtocolConfig(p: string): (r: TransportSettings)
    ensures r.WebsocketSettings? <==> p == "websocket"
    ensures r.WebsocketSettings? ==> r.path == ""
  {
    if p == "websocket" then WebsocketSettings("") else NoSettings
  }

  /** Why the single-inbound initialisation stopped. */
  datatype InitError = RemoveFailed | InvalidPort | InvalidProtocol | AddFailed

  /** genVmessInbound: the shared inbound with no users. The port is checked
      first, then the protocol; only then is the configuration built. */
  function GenVmessInbound(tag: string, node: Node, portFromInt: PortFn): (r: Result<InboundConfig, InitError>)
    ensures r.Err? <==> portFromInt(ToUint32(node.port)).failed || !IsProtocolValid(node.transportProtocol)
    ensures portFromInt(ToUint32(node.port)).failed ==> r == Err(InvalidPort)
    ensures r.Err? ==> r.error in {InvalidPort, InvalidProtocol}
    ensures r.Ok? ==> r.value.tag == tag && r.value.users == []
    ensures r.Ok? ==> r.value.port == portFromInt(ToUint32(node.port)).port
    ensures r.Ok? ==> r.value.listen == ANY_ADDRESS && r.value.detourTo == None
    ensures r.Ok? ==> r.value.transportSettings == ProtocolConfig(node.transportProtocol)
    ensures r.Ok? ==> (r.value.transportSettings.WebsocketSettings? <==> node.transportProtocol == "websocket")
  {
    var port := portFromInt(ToUint32(node.port));
    if port.failed then Err(InvalidPort)
    else if !IsProtocolValid(node.transportProtocol) then Err(InvalidProtocol)
    else
      Ok(InboundConfig(
        tag, port.port, ANY_ADDRESS, true,
        node.transportProtocol, node.transportProtocol, ProtocolConfig(node.transportProtocol),
        true, true, ["http", "tls"],
        [], ALTER_ID, None, true))
  }

  /** The RPC calls initializeSingleInbound issued and the error it returned. */
  datatype InitResult = InitResult(calls: seq<RpcCall>, error: Option<InitError>)

  /** initializeSingleInbound: remove the inbound with the configured tag,
      generate the shared inbound, add it; each failure returns at once.
      `accepts` is the engine's answer to each call. */
  function InitializeSingleInbound(tag: string, node: Node, portFromInt: PortFn,
                                   accepts: RpcCall -> bool): (r: InitResult)
    ensures 1 <= |r.calls| <= 2 && r.calls[0] == RemoveInbound(tag)
    ensures |r.calls| == 2 <==>
              accepts(RemoveInbound(tag)) && GenVmessInbound(tag, node, portFromInt).Ok?
    ensures |r.calls| == 2 ==> r.calls[1] == AddInbound(GenVmessInbound(tag, node, portFromInt).value)
    ensures r.error.None? <==>
              accepts(RemoveInbound(tag)) && GenVmessInbound(tag, node, portFromInt).Ok?
              && accepts(AddInbound(GenVmessInbound(tag, node, portFromInt).value))
    ensures !accepts(RemoveInbound(tag)) ==> r.error == Some(RemoveFailed)
  {
    if !accepts(RemoveInbound(tag)) then InitResult([RemoveInbound(tag)], Some(RemoveFailed))
    else
      match GenVmessInbound(tag, node, portFromInt)
      case Err(e) => InitResult([RemoveInbound(tag)], Some(e))
      case Ok(config) =>
        var calls := [RemoveInbound(tag), AddInbound(config)];
        if !accepts(AddInbound(config)) then InitResult(calls, Some(AddFailed))
        else InitResult(calls, None)
  }

  // ---------------------------------------------------------------------
  // Inbound tags
  // ---------------------------------------------------------------------

  /** One lower-case hexadecimal digit. */
  function HexDigit(d: nat): (c: char)
    requires d < 16
    ensures '0' <= c <= '9' || 'a' <= c <= 'f'
  {
    if d < 10 then ('0' as int + d) as char else ('a' as int + d - 10) as char
  }

  /** The value of a lower-case hexadecimal digit. */
  function DigitValue(c: char): nat {
    if '0' <= c <= '9' then c as int - '0' as int
    else if 'a' <= c <= 'f' then c as int - 'a' as int + 10
    else 0
  }

  /** Every character is a lower-case hexadecimal digit. */
  predicate LowerHexDigits(s: string) {
    forall i :: 0 <= i < |s| ==> '0' <= s[i] <= '9' || 'a' <= s[i] <= 'f'
  }

  /** `fmt.Sprintf("%x", n)`: lower-case hexadecimal, no prefix, no leading
      zero. */
  function Hex(n: nat): (r: string)
    ensures |r| >= 1
    ensures n < 16 <==> |r| == 1
    ensures LowerHexDigits(r)
    ensures n > 0 ==> r[0] != '0'
    decreases n
  {
    if n < 16 then [HexDigit(n)] else Hex(n / 16) + [HexDigit(n % 16)]
  }

  /** Reading hexadecimal back. */
  function ParseHex(s: string): nat
    decreases |s|
  {
    if |s| == 0 then 0 else ParseHex(s[..|s| - 1]) * 16 + DigitValue(s[|s| - 1])
  }

  /** `%x` loses nothing: reading the digits back gives the number. */
  lemma {:induction false} HexRoundTrip(n: nat)
    ensures ParseHex(Hex(n)) == n
    decreases n
  {
    if n < 16 {
      assert Hex(n)[..0] == [];
    } else {
      HexRoundTrip(n / 16);
      var front, d := Hex(n / 16), HexDigit(n % 16);
      assert Hex(n) == front + [d];
      assert (front + [d])[..|front|] == front;
    }
  }

  /** The tag the multi-inbound loop removes a service's inbound by. */
  function RemovalTag(id: uint64): string {
    Hex(id)
  }

  /** The inbound a service gets is tagged `string(s.ID)`, but the removal asks
      for `%x` of the ID: for every ID the two tags differ, so the removal
      never names the inbound that the addition created. */
  lemma RemovalTagNeverMatchesOwnInbound(s: Service, portFromInt: PortFn)
    ensures RemovalTag(s.id) != ConvertVmessInbound(s, portFromInt).tag
  {
    var tag := ConvertVmessInbound(s, portFromInt).tag;
    if s.id < 16 {
      assert RemovalTag(s.id) == [HexDigit(s.id)];
      assert tag[0] as int == s.id;
      assert RemovalTag(s.id)[0] as int >= '0' as int;
    }
  }

  /** Worse, the removal tag of one service can be another's inbound tag: removing
      service 1 asks for tag "1", the inbound of service 49 ('1' is U+0031). */
  lemma RemovalTagCanHitAnotherInbound(s: Service, t: Service, portFromInt: PortFn)
    requires s.id == 1 && t.id == 49
    ensures RemovalTag(s.id) == ConvertVmessInbound(t, portFromInt).tag
  {
    assert RemovalTag(1) == ['1'];
  }

  // ---------------------------------------------------------------------
  // Quota filter of the single-inbound mode
  // ---------------------------------------------------------------------

  /** The test on services to add: kept while MaxTraffic >= CurrentTraffic. */
  predicate Admits(u: User) {
    u.maxTraffic >= u.currentTraffic
  }

  /** The test on applied services: evicted once MaxTraffic <= CurrentTraffic. */
  predicate Exhausted(u: User) {
    u.maxTraffic <= u.currentTraffic
  }

  /** The services of `toAdd` whose principal the quota admits, in order. */
  function Admitted(toAdd: seq<Service>, users: map<string, User>): seq<Service>
    requires AllKnown(toAdd, users)
  {
    if |toAdd| == 0 then []
    else
      var last := toAdd[|toAdd| - 1];
      Admitted(toAdd[..|toAdd| - 1], users) + (if Admits(users[last.email]) then [last] else [])
  }

  /** The applied services whose principal has exhausted the quota, in order. */
  function Evicted(mirror: seq<Service>, users: map<string, User>): seq<Service>
    requires AllKnown(mirror, users)
  {
    if |mirror| == 0 then []
    else
      var last := mirror[|mirror| - 1];
      Evicted(mirror[..|mirror| - 1], users) + (if Exhausted(users[last.email]) then [last] else [])
  }

  /** The filter keeps every copy of an admitted service and none of the others. */
  lemma {:induction false} AdmittedCount(toAdd: seq<Service>, users: map<string, User>, x: Service)
    requires AllKnown(toAdd, users)
    ensures multiset(Admitted(toAdd, users))[x] ==
              if x.email in users && Admits(users[x.email]) then multiset(toAdd)[x] else 0
  {
    if |toAdd| > 0 {
      var front, last := toAdd[..|toAdd| - 1], toAdd[|toAdd| - 1];
      assert toAdd == front + [last];
      AdmittedCount(front, users, x);
    }
  }

  /** The eviction list holds every copy of an exhausted service and nothing else. */
  lemma {:induction false} EvictedCount(mirror: seq<Service>, users: map<string, User>, x: Service)
    requires AllKnown(mirror, users)
    ensures multiset(Evicted(mirror, users))[x] ==
              if x.email in users && Exhausted(users[x.email]) then multiset(mirror)[x] else 0
  {
    if |mirror| > 0 {
      var front, last := mirror[..|mirror| - 1], mirror[|mirror| - 1];
      assert mirror == front + [last];
      EvictedCount(front, users, x);
    }
  }

  /** Both quota loops look up the principal of every service they visit: the
      services to add and the applied ones. */
  predicate SingleKnown(mirror: seq<Service>, snapshot: seq<Service>, users: map<string, User>) {
    AllKnown(Difference(snapshot, mirror), users) && AllKnown(mirror, users)
  }

  /** The services the single-inbound cycle adds. */
  function SingleAdds(mirror: seq<Service>, snapshot: seq<Service>, users: map<string, User>): seq<Service>
    requires SingleKnown(mirror, snapshot, users)
  {
    Admitted(Difference(snapshot, mirror), users)
  }

  /** The services the single-inbound cycle deletes: the diff's removals, then
      every applied service whose principal has exhausted the quota. */
  function SingleDels(mirror: seq<Service>, snapshot: seq<Service>, users: map<string, User>): seq<Service>
    requires SingleKnown(mirror, snapshot, users)
  {
    Difference(mirror, snapshot) + Evicted(mirror, users)
  }

  /** The mirror after a single-inbound cycle: additions appended, then each
      deletion spliced out; None when a splice index is -1. */
  function SingleApplied(mirror: seq<Service>, snapshot: seq<Service>, users: map<string, User>): Option<seq<Service>>
    requires SingleKnown(mirror, snapshot, users)
  {
    RemoveEach(mirror + SingleAdds(mirror, snapshot, users), SingleDels(mirror, snapshot, users))
  }

  // ---------------------------------------------------------------------
  // The multi-inbound plan
  // ---------------------------------------------------------------------

  /** The mirror after a multi-inbound cycle: additions appended, then each
      removal spliced out. Every removal is an applied service, so no splice
      index is ever -1. */
  function MultiApplied(mirror: seq<Service>, snapshot: seq<Service>): seq<Service> {
    var base := mirror + Difference(snapshot, mirror);
    var toDel := Difference(mirror, snapshot);
    DifferenceSubMultiset(mirror, snapshot);
    assert multiset(toDel) <= multiset(base);
    RemoveEachSucceeds(base, toDel);
    RemoveEach(base, toDel).value
  }

  // ---------------------------------------------------------------------
  // RPC traces
  // ---------------------------------------------------------------------

  /** One AddInbound per service, in order. */
  function AddInboundCalls(adds: seq<Service>, portFromInt: PortFn): (calls: seq<RpcCall>)
    ensures |calls| == |adds|
    ensures forall i :: 0 <= i < |adds| ==> calls[i] == AddInbound(ConvertVmessInbound(adds[i], portFromInt))
  {
    seq(|adds|, i requires 0 <= i < |adds| => AddInbound(ConvertVmessInbound(adds[i], portFromInt)))
  }

  /** One RemoveInbound per service, in order. */
  function RemoveInboundCalls(dels: seq<Service>): (calls: seq<RpcCall>)
    ensures |calls| == |dels|
    ensures forall i :: 0 <= i < |dels| ==> calls[i] == RemoveInbound(RemovalTag(dels[i].id))
  {
    seq(|dels|, i requires 0 <= i < |dels| => RemoveInbound(RemovalTag(dels[i].id)))
  }

  /** One AddUser per service, in order. */
  function AddUserCalls(adds: seq<Service>): (calls: seq<RpcCall>)
    ensures |calls| == |adds|
    ensures forall i :: 0 <= i < |adds| ==> calls[i] == AddUser(ConvertService(adds[i]))
  {
    seq(|adds|, i requires 0 <= i < |adds| => AddUser(ConvertService(adds[i])))
  }

  /** One DelUser per service, in order. */
  function DelUserCalls(dels: seq<Service>): (calls: seq<RpcCall>)
    ensures |calls| == |dels|
    ensures forall i :: 0 <= i < |dels| ==> calls[i] == DelUser(dels[i].email)
  {
    seq(|dels|, i requires 0 <= i < |dels| => DelUser(dels[i].email))
  }

  // ---------------------------------------------------------------------
  // The reconciler
  // ---------------------------------------------------------------------

  /** How a single-inbound cycle ended: applied, or a Go runtime panic (a nil
      *User dereference, or a slice expression with index -1). */
  datatype CycleOutcome = Applied | NilUserPanic | SliceBoundsPanic

  /** The quota filter over the services to add (the loop that builds tmp);
      a service whose principal is missing dereferences nil. */
  method FilterAdmitted(toAdd: seq<Service>, users: map<string, User>) returns (kept: seq<Service>, nilDeref: bool)
    ensures nilDeref <==> !AllKnown(toAdd, users)
    ensures !nilDeref ==> kept == Admitted(toAdd, users)
  {
    kept := [];
    var i := 0;
    while i < |toAdd|
      invariant 0 <= i <= |toAdd|
      invariant AllKnown(toAdd[..i], users)
      invariant kept == Admitted(toAdd[..i], users)
    {
      var email := toAdd[i].email;
      if email !in users {
        return kept, true;
      }
      assert toAdd[..i + 1][..i] == toAdd[..i];
      if users[email].maxTraffic >= users[email].currentTraffic {
        kept := kept + [toAdd[i]];
      }
      i := i + 1;
    }
    assert toAdd[..i] == toAdd;
    return kept, false;
  }

  /** The eviction loop over the applied services, appending to the diff's
      removals; a service whose principal is missing dereferences nil. */
  method CollectEvictions(mirror: seq<Service>, toDel: seq<Service>, users: map<string, User>)
    returns (dels: seq<Service>, nilDeref: bool)
    ensures nilDeref <==> !AllKnown(mirror, users)
    ensures !nilDeref ==> dels == toDel + Evicted(mirror, users)
  {
    dels := toDel;
    var i := 0;
    while i < |mirror|
      invariant 0 <= i <= |mirror|
      invariant AllKnown(mirror[..i], users)
      invariant dels == toDel + Evicted(mirror[..i], users)
    {
      var email := mirror[i].email;
      if email !in users {
        return dels, true;
      }
      assert mirror[..i + 1][..i] == mirror[..i];
      if users[email].maxTraffic <= users[email].currentTraffic {
        dels := dels + [mirror[i]];
      }
      i := i + 1;
    }
    assert mirror[..i] == mirror;
    return dels, false;
  }

  /** The reconciler of one node: the last-applied mirror `services`, which
      starts empty. The shared inbound's tag and the node record are the
      parameters of InitializeSingleInbound. */
  class ServiceHandler {
    var services: seq<Service>

    /** NewServiceHandler: an empty mirror. */
    constructor ()
      ensures services == []
    {
      services := [];
    }

    /** The add loop shared by both modes: each service is appended to the
        mirror whatever the engine answered. */
    method AppendAll(adds: seq<Service>)
      modifies this
      ensures services == old(services) + adds
    {
      var i := 0;
      while i < |adds|
        invariant 0 <= i <= |adds|
        invariant services == old(services) + adds[..i]
      {
        assert adds[..i + 1] == adds[..i] + [adds[i]];
        services := services + [adds[i]];
        i := i + 1;
      }
      assert adds[..i] == adds;
    }

    /** The delete loop shared by both modes: find each service, issue the
        call, splice it out; a -1 index makes the slice expression panic.
        Returns whether every splice succeeded. */
    method SpliceAll(dels: seq<Service>) returns (ok: bool)
      modifies this
      ensures ok <==> RemoveEach(old(services), dels).Some?
      ensures ok ==> services == RemoveEach(old(services), dels).value
    {
      ghost var base := services;
      var i := 0;
      while i < |dels|
        invariant 0 <= i <= |dels|
        invariant RemoveEach(base, dels[..i]) == Some(services)
      {
        var j := FindServiceIndex(dels[i], services);
        RemoveEachStep(base, dels, i, services);
        if j < 0 {
          RemoveEachFailureSticks(base, dels, i + 1);
          assert dels[..|dels|] == dels;
          return false;
        }
        services := services[..j] + services[j + 1..];
        i := i + 1;
      }
      assert dels[..i] == dels;
      return true;
    }

    /** One iteration of syncServicesMultiInbound: diff the snapshot against
        the mirror, add a dedicated inbound per new service, remove the inbound
        of each vanished service by its `%x` tag. Errors are discarded, so the
        mirror follows the plan whatever the engine answers. */
    method SyncMultiInboundCycle(snapshot: seq<Service>, portFromInt: PortFn) returns (calls: seq<RpcCall>)
      modifies this
      ensures services == MultiApplied(old(services), snapshot)
      ensures calls == AddInboundCalls(Difference(snapshot, old(services)), portFromInt)
                       + RemoveInboundCalls(Difference(old(services), snapshot))
    {
      var toAdd := Sub(snapshot, services);
      var toDel := Sub(services, snapshot);
      ghost var base := services + toAdd;
      calls := AddInboundCalls(toAdd, portFromInt) + RemoveInboundCalls(toDel);
      AppendAll(toAdd);
      DifferenceSubMultiset(old(services), snapshot);
      var ok := SpliceAll(toDel);
      assert ok by {
        RemoveEachSucceeds(base, toDel);
      }
    }

    /** One iteration of syncServicesSingleInbound: diff, keep the additions
        the quota admits, append every applied service whose principal is
        exhausted to the deletions, then add users and delete users. Errors of
        AddUser and DelUser are logged and the mirror is updated anyway. */
    method SyncSingleInboundCycle(snapshot: seq<Service>, users: map<string, User>)
      returns (calls: seq<RpcCall>, outcome: CycleOutcome)
      modifies this
      ensures outcome == NilUserPanic <==> !SingleKnown(old(services), snapshot, users)
      ensures outcome == SliceBoundsPanic <==>
                SingleKnown(old(services), snapshot, users)
                && SingleApplied(old(services), snapshot, users).None?
      ensures outcome == Applied ==>
                SingleKnown(old(services), snapshot, users)
                && SingleApplied(old(services), snapshot, users) == Some(services)
                && calls == AddUserCalls(SingleAdds(old(services), snapshot, users))
                            + DelUserCalls(SingleDels(old(services), snapshot, users))
    {
      var toAdd := Sub(snapshot, services);
      var toDel := Sub(services, snapshot);
      var nilDeref;
      calls := [];
      toAdd, nilDeref := FilterAdmitted(toAdd, users);
      if nilDeref {
        return calls, NilUserPanic;
      }
      toDel, nilDeref := CollectEvictions(services, toDel, users);
      if nilDeref {
        return calls, NilUserPanic;
      }
      calls := AddUserCalls(toAdd) + DelUserCalls(toDel);
      AppendAll(toAdd);
      var ok := SpliceAll(toDel);
      outcome := if ok then Applied else SliceBoundsPanic;
    }
  }
}
