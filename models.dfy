/** Records exchanged with the control plane (models/service.go, models/user.go,
    models/node.go), the Go integer widths they use, and the validation tags
    the agent checks before it trusts a record. */
module Models {

  datatype Option<+T> = None | Some(value: T)

  datatype Result<+T, +E> = Ok(value: T) | Err(error: E)

  /** Go's uint64 (and uint, which is 64 bits wide on the agent's targets). */
  const U64_MODULUS: nat := 0x1_0000_0000_0000_0000
  type uint64 = x: nat | x < U64_MODULUS

  /** Go's uint32, the target of the port conversion `uint32(port)`. */
  const U32_MODULUS: nat := 0x1_0000_0000

  /** `a + b` on uint64 in Go: the sum wraps around modulo 2^64. */
  function Add64(a: uint64, b: uint64): (r: uint64)
    ensures a + b < U64_MODULUS ==> r == a + b
    ensures a + b >= U64_MODULUS ==> r == a + b - U64_MODULUS
  {
    (a + b) % U64_MODULUS
  }

  /** `uint32(x)` in Go: keeps the low 32 bits. */
  function ToUint32(x: uint64): (r: nat)
    ensures r < U32_MODULUS
    ensures x < U32_MODULUS ==> r == x
    ensures (x - r) % U32_MODULUS == 0
  {
    x % U32_MODULUS
  }

  /** A desired session binding as the control plane sends it (models/service.go).
      The embedded VmessUser fields (email, uuid, alterId, security) and the
      stream transport protocol are flattened into the record; the embedded
      structs without fields (shadowsocks and sniffing settings) carry nothing
      and are omitted. Go compares two Service values field by field, and so
      does Dafny's `==` on this datatype. */
  datatype Service = Service(
    id: uint64,
    name: string,
    description: string,
    userId: uint64,
    nodeId: uint64,
    host: string,
    port: uint64,
    protocol: string,
    email: string,
    uuid: string,
    alterId: uint64,
    security: string,
    transportProtocol: string)

  /** A principal with its quota (models/user.go). */
  datatype User = User(
    email: string,
    username: string,
    currentTraffic: uint64,
    maxTraffic: uint64)

  /** The node descriptor (models/node.go), with the embedded Settings flattened. */
  datatype Node = Node(
    name: string,
    description: string,
    host: string,
    ports: string,
    accessKey: string,
    currentTraffic: uint64,
    maxTraffic: uint64,
    hasUdp: bool,
    hasMultiPort: bool,
    listen: string,
    port: uint64,
    transportProtocol: string)

  /** One usage sample: a principal's traffic over one collection interval. */
  datatype Stats = Stats(email: string, traffic: uint64)

  /** The `validate:"required"` tag on Service.ID: a required uint64 must be non-zero. */
  predicate ServiceValid(s: Service) {
    s.id != 0
  }

  /** The validation tags on User: Email is `required,email`, Username is
      `required`, MaxTraffic is `required` (non-zero). The e-mail format check
      belongs to a foreign validator library and is supplied as `isEmail`. */
  predicate UserValid(u: User, isEmail: string -> bool) {
    u.email != "" && isEmail(u.email) && u.username != "" && u.maxTraffic != 0
  }

  /** The HTTP status the agent accepts from the control plane. */
  const STATUS_OK: int := 200

  /** The answer to a control-plane request: a transport error, or a status
      code with the body as decoded. */
  datatype Response<+B> = TransportError | Reply(statusCode: int, body: B)

  /** Every service in `ss` belongs to a principal known to `users`. */
  predicate AllKnown(ss: seq<Service>, users: map<string, User>) {
    forall i :: 0 <= i < |ss| ==> ss[i].email in users
  }
}
