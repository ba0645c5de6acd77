/** The STUN messages the handlers see and the replies they send.  Decoding
    and encoding (libre's `stun_msg_decode`, `stun_reply`, `stun_ereply`,
    `stun_indication`) are not part of this model: a message is already
    decoded into its method, class, transaction id and ordered attribute
    list, and a reply is the value the server hands to the encoder. */
module StunMsg {
  import opened Net

  datatype Method =
    | Binding | Allocate | Refresh | Send | Data | CreatePermission | ChannelBind
    | OtherMethod(code: u16)

  datatype MsgClass = Request | Indication | SuccessResponse | ErrorResponse

  /** Attribute type codes of RFC 5389, RFC 5766, RFC 5780 and RFC 6156. */
  const ATTR_MAPPED_ADDR: u16 := 0x0001
  const ATTR_CHANGE_REQ: u16 := 0x0003
  const ATTR_USERNAME: u16 := 0x0006
  const ATTR_MSG_INTEGRITY: u16 := 0x0008
  const ATTR_UNKNOWN_ATTR: u16 := 0x000A
  const ATTR_CHANNEL_NUMBER: u16 := 0x000C
  const ATTR_LIFETIME: u16 := 0x000D
  const ATTR_XOR_PEER_ADDR: u16 := 0x0012
  const ATTR_DATA: u16 := 0x0013
  const ATTR_REALM: u16 := 0x0014
  const ATTR_NONCE: u16 := 0x0015
  const ATTR_XOR_RELAY_ADDR: u16 := 0x0016
  const ATTR_REQ_ADDR_FAMILY: u16 := 0x0017
  const ATTR_EVEN_PORT: u16 := 0x0018
  const ATTR_REQ_TRANSPORT: u16 := 0x0019
  const ATTR_DONT_FRAGMENT: u16 := 0x001A
  const ATTR_XOR_MAPPED_ADDR: u16 := 0x0020
  const ATTR_RSV_TOKEN: u16 := 0x0022
  const ATTR_RESP_PORT: u16 := 0x0027
  const ATTR_SOFTWARE: u16 := 0x8022
  const ATTR_RESP_ORIGIN: u16 := 0x802B
  const ATTR_OTHER_ADDR: u16 := 0x802C

  /** `STUN_AF_IPv4` and `STUN_AF_IPv6`. */
  const STUN_AF_IPv4: byte := 0x01
  const STUN_AF_IPv6: byte := 0x02

  /** `IPPROTO_UDP`, the only REQUESTED-TRANSPORT value a relay accepts. */
  const IPPROTO_UDP: byte := 17

  datatype Attr =
    | MappedAddr(mapped: Addr)
    | ChangeRequest(changeIp: bool, changePort: bool)
    | Username(username: string)
    | MessageIntegrity
    | UnknownAttributes(types: seq<u16>)
    | ChannelNumber(channel: u16)
    | Lifetime(lifetime: u32)
    | XorPeerAddr(peer: Addr)
    | DataAttr(data: seq<byte>)
    | Realm(realm: string)
    | Nonce(nonce: string)
    | XorRelayAddr(relay: Addr)
    | ReqAddrFamily(family: byte)
    | EvenPort(r: bool)
    | ReqTransport(transport: byte)
    | DontFragment
    | XorMappedAddr(xmapped: Addr)
    | RsvToken(token: u64)
    | ResponsePort(rport: u16)
    | Software
    | ResponseOrigin(origin: Addr)
    | OtherAddr(other: Addr)

  function TypeOf(a: Attr): u16
  {
    match a
    case MappedAddr(_) => ATTR_MAPPED_ADDR
    case ChangeRequest(_, _) => ATTR_CHANGE_REQ
    case Username(_) => ATTR_USERNAME
    case MessageIntegrity => ATTR_MSG_INTEGRITY
    case UnknownAttributes(_) => ATTR_UNKNOWN_ATTR
    case ChannelNumber(_) => ATTR_CHANNEL_NUMBER
    case Lifetime(_) => ATTR_LIFETIME
    case XorPeerAddr(_) => ATTR_XOR_PEER_ADDR
    case DataAttr(_) => ATTR_DATA
    case Realm(_) => ATTR_REALM
    case Nonce(_) => ATTR_NONCE
    case XorRelayAddr(_) => ATTR_XOR_RELAY_ADDR
    case ReqAddrFamily(_) => ATTR_REQ_ADDR_FAMILY
    case EvenPort(_) => ATTR_EVEN_PORT
    case ReqTransport(_) => ATTR_REQ_TRANSPORT
    case DontFragment => ATTR_DONT_FRAGMENT
    case XorMappedAddr(_) => ATTR_XOR_MAPPED_ADDR
    case RsvToken(_) => ATTR_RSV_TOKEN
    case ResponsePort(_) => ATTR_RESP_PORT
    case Software => ATTR_SOFTWARE
    case ResponseOrigin(_) => ATTR_RESP_ORIGIN
    case OtherAddr(_) => ATTR_OTHER_ADDR
  }

  /** A decoded message: `stun_msg_method`, `stun_msg_class`,
      `stun_msg_tid`, the attributes in wire order and whether the magic
      cookie was present (`stun_msg_mcookie`). */
  datatype Msg = Msg(meth: Method, cls: MsgClass, tid: seq<byte>, attrs: seq<Attr>, cookie: bool)

  /** `stun_msg_attr(msg, type)`: the first attribute of that type. */
  function Find(attrs: seq<Attr>, t: u16): (r: Option<Attr>)
    ensures r.Some? ==> r.value in attrs && TypeOf(r.value) == t
    ensures r.None? <==> forall a :: a in attrs ==> TypeOf(a) != t
  {
    if |attrs| == 0 then None
    else if TypeOf(attrs[0]) == t then Some(attrs[0])
    else Find(attrs[1..], t)
  }

  /** `stun_msg_attr` finds the first attribute of a type. */
  lemma {:induction false} FindAt(attrs: seq<Attr>, k: nat, t: u16)
    requires k < |attrs| && TypeOf(attrs[k]) == t
    requires forall j :: 0 <= j < k ==> TypeOf(attrs[j]) != t
    ensures Find(attrs, t) == Some(attrs[k])
  {
    if k > 0 {
      FindAt(attrs[1..], k - 1, t);
    }
  }

  function GetAttr(m: Msg, t: u16): Option<Attr>
  {
    Find(m.attrs, t)
  }

  /** The values of the first attribute of each type the TURN handlers
      read, when present. */
  function PeerOf(m: Msg): Option<Addr>
  {
    match GetAttr(m, ATTR_XOR_PEER_ADDR)
    case Some(XorPeerAddr(p)) => Some(p)
    case _ => None
  }

  function ChannelOf(m: Msg): Option<u16>
  {
    match GetAttr(m, ATTR_CHANNEL_NUMBER)
    case Some(ChannelNumber(n)) => Some(n)
    case _ => None
  }

  function LifetimeOf(m: Msg): Option<u32>
  {
    match GetAttr(m, ATTR_LIFETIME)
    case Some(Lifetime(l)) => Some(l)
    case _ => None
  }

  function DataOf(m: Msg): Option<seq<byte>>
  {
    match GetAttr(m, ATTR_DATA)
    case Some(DataAttr(d)) => Some(d)
    case _ => None
  }

  function ReqAfOf(m: Msg): Option<byte>
  {
    match GetAttr(m, ATTR_REQ_ADDR_FAMILY)
    case Some(ReqAddrFamily(f)) => Some(f)
    case _ => None
  }

  function ReqTransportOf(m: Msg): Option<byte>
  {
    match GetAttr(m, ATTR_REQ_TRANSPORT)
    case Some(ReqTransport(t)) => Some(t)
    case _ => None
  }

  function EvenPortOf(m: Msg): Option<bool>
  {
    match GetAttr(m, ATTR_EVEN_PORT)
    case Some(EvenPort(r)) => Some(r)
    case _ => None
  }

  function RsvTokenOf(m: Msg): Option<u64>
  {
    match GetAttr(m, ATTR_RSV_TOKEN)
    case Some(RsvToken(t)) => Some(t)
    case _ => None
  }

  function UsernameOf(m: Msg): Option<string>
  {
    match GetAttr(m, ATTR_USERNAME)
    case Some(Username(u)) => Some(u)
    case _ => None
  }

  /** `struct restund_msgctx`: the comprehension-required attributes the
      decoder did not know, the message-integrity key (`key`, `keylen`)
      and whether a FINGERPRINT was present. */
  datatype MsgCtx = MsgCtx(ua: seq<u16>, key: Option<seq<byte>>, fp: bool)

  /** The context every decoded message starts with (stun.c:46-48). */
  function FreshCtx(ua: seq<u16>): (c: MsgCtx)
    ensures c.ua == ua && c.key.None? && !c.fp
  {
    MsgCtx(ua, None, false)
  }

  /** A success or error response, the STUN Data indication sent towards a
      client, or raw bytes (ChannelData). */
  datatype Body =
    | Success(attrs: seq<Attr>)
    | Failure(code: int, reason: string, attrs: seq<Attr>)
    | DataIndication(attrs: seq<Attr>)
    | Raw(bytes: seq<byte>)

  /** One message handed to the transport: the protocol, the local socket
      (an identity), the destination, the integrity key and the body. */
  datatype Reply = Reply(proto: Proto, sock: nat, dest: Addr, key: Option<seq<byte>>, body: Body)

  predicate IsError(r: Reply, code: int)
  {
    r.body.Failure? && r.body.code == code
  }

  /** `stun_ereply(proto, sock, src, 0, msg, code, reason, ctx->key, ...,
      SOFTWARE)`: the error replies of the TURN and Binding handlers. */
  function ErrorReply(proto: Proto, sock: nat, src: Addr, ctx: MsgCtx, code: int, reason: string): (r: Reply)
    ensures IsError(r, code) && r.dest == src && r.key == ctx.key
  {
    Reply(proto, sock, src, ctx.key, Failure(code, reason, [Software]))
  }
}
