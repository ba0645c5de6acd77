/** The Binding responder: the answer to a STUN Binding request
    (section 7.3 of RFC 5389) with the NAT behaviour discovery attributes
    of RFC 5780 (section 7): XOR-MAPPED-ADDRESS and MAPPED-ADDRESS carry
    the request's source, RESPONSE-ORIGIN the address it arrived on,
    OTHER-ADDRESS a listener differing in both IP and port, RESPONSE-PORT
    redirects the answer to another port of the source IP, and
    CHANGE-REQUEST (over UDP) makes it leave from another listener. */
module BindingResponder {
  import opened Net
  import opened StunMsg
  import opened Listeners

  /** The CHANGE-REQUEST flags, when present. */
  function ChangeRequestOf(m: Msg): Option<(bool, bool)>
  {
    match GetAttr(m, ATTR_CHANGE_REQ)
    case Some(ChangeRequest(ip, port)) => Some((ip, port))
    case _ => None
  }

  /** The RESPONSE-PORT value, when present. */
  function ResponsePortOf(m: Msg): Option<u16>
  {
    match GetAttr(m, ATTR_RESP_PORT)
    case Some(ResponsePort(p)) => Some(p)
    case _ => None
  }

  /** `get_sock`, corrected: the alternate listener of the transport the
      request came on, chosen by comparing addresses (`SA_ADDR`) as
      `restund_tcp_socket` does.  The released `restund_udp_socket`
      compares ports instead; `OtherAddressAsWritten` shows what that
      changes. */
  function Alternate(ls: seq<Listener>, orig: Addr, chIp: bool, chPort: bool): (r: Option<Listener>)
    ensures r.Some? ==> r.value in ls
    ensures r.Some? && chIp ==> !SaCmp(orig, r.value.bnd, SaAddr)
    ensures r.Some? && chPort ==> Port(r.value.bnd) != Port(orig)
    ensures r.None? <==> forall l :: l in ls ==> (chIp && SaCmp(orig, l.bnd, SaAddr)) || (chPort && Port(orig) == Port(l.bnd))
  {
    PickFirst(ls, orig, chIp, chPort);
    Pick(ls, orig, chIp, chPort, SaAddr)
  }

  lemma PickFirst(ls: seq<Listener>, orig: Addr, chIp: bool, chPort: bool)
    ensures var r := Pick(ls, orig, chIp, chPort, SaAddr);
            && (r.Some? ==> r.value in ls && !Skipped(r.value, orig, chIp, chPort, SaAddr))
            && (r.None? <==> forall l :: l in ls ==> Skipped(l, orig, chIp, chPort, SaAddr))
  {
    var r := Pick(ls, orig, chIp, chPort, SaAddr);
    if r.Some? {
      var i :| 0 <= i < |ls| && ls[i] == r.value && !Skipped(ls[i], orig, chIp, chPort, SaAddr);
    } else {
      forall l | l in ls
        ensures Skipped(l, orig, chIp, chPort, SaAddr)
      {
        var i :| 0 <= i < |ls| && ls[i] == l;
      }
    }
  }

  /** `sa_set_port`: a port can only be set on an IPv4 or IPv6 address. */
  function SetPort(a: Addr, p: u16): (r: Addr)
    ensures r.af == a.af && r.ip == a.ip
    ensures a.af != Unspec ==> Port(r) == p
  {
    if a.af == Unspec then a else WithPort(a, p)
  }

  /** Where the answer goes: the source, on the RESPONSE-PORT when one is
      given. */
  function Destination(src: Addr, m: Msg): (d: Addr)
    ensures d.af == src.af && d.ip == src.ip
    ensures ResponsePortOf(m).None? ==> d == src
    ensures ResponsePortOf(m).Some? && src.af != Unspec ==> Port(d) == ResponsePortOf(m).value
  {
    if ResponsePortOf(m).Some? then SetPort(src, ResponsePortOf(m).value) else src
  }

  /** The socket the answer leaves from: over UDP with CHANGE-REQUEST, the
      alternate listener's when one exists; the receiving socket
      otherwise.  The alternate is the corrected `Alternate`. */
  function ReplySocket(proto: Proto, sock: nat, dst: Addr, m: Msg, ls: seq<Listener>): (s: nat)
    ensures proto == Tcp || ChangeRequestOf(m).None? ==> s == sock
    ensures proto == Udp && ChangeRequestOf(m).Some? ==>
              var cr := ChangeRequestOf(m).value;
              var alt := Alternate(ls, dst, cr.0, cr.1);
              && (alt.None? ==> s == sock)
              && (alt.Some? ==> exists l :: l in ls && l.sock == s
                                  && (cr.0 ==> !SaCmp(dst, l.bnd, SaAddr))
                                  && (cr.1 ==> Port(l.bnd) != Port(dst)))
  {
    var cr := ChangeRequestOf(m);
    if proto == Udp && cr.Some? then
      var alt := Alternate(ls, dst, cr.value.0, cr.value.1);
      if alt.Some? then alt.value.sock else sock
    else sock
  }

  /** OTHER-ADDRESS, corrected: the bound address of a listener differing
      from `dst` in both IP and port, when it is a complete address. */
  function OtherAddress(ls: seq<Listener>, dst: Addr): (o: Option<Addr>)
    ensures o.Some? ==> IsSet(o.value, SaAll) && !SaCmp(dst, o.value, SaAddr) && Port(o.value) != Port(dst)
    ensures o.Some? ==> exists l :: l in ls && l.bnd == o.value
    ensures (forall l :: l in ls ==> SaCmp(dst, l.bnd, SaAddr) || Port(dst) == Port(l.bnd)) ==> o.None?
  {
    var alt := Alternate(ls, dst, true, true);
    if alt.Some? && IsSet(alt.value.bnd, SaAll) then Some(alt.value.bnd) else None
  }

  /** OTHER-ADDRESS as released: over UDP `get_sock` reaches
      `restund_udp_socket`, whose change-IP filter compares ports
      (`SA_PORT`), so a listener on the same IP but another port passes
      both filters.  Over TCP it agrees with the corrected one. */
  function OtherAddressAsWritten(proto: Proto, ls: seq<Listener>, dst: Addr): (o: Option<Addr>)
    ensures proto == Tcp ==> o == OtherAddress(ls, dst)
    ensures o.Some? ==> IsSet(o.value, SaAll) && Port(o.value) != Port(dst) && exists l :: l in ls && l.bnd == o.value
  {
    var alt := Pick(ls, dst, true, true, if proto == Udp then SaPort else SaAddr);
    if alt.Some? && IsSet(alt.value.bnd, SaAll) then Some(alt.value.bnd) else None
  }

  /** With UDP listeners 1.2.3.4:3478 and 1.2.3.4:3479 and a request that
      arrived on 1.2.3.4:3478, the released code names 1.2.3.4:3479, on the
      same IP, as OTHER-ADDRESS; the corrected one names none. */
  lemma OtherAddressSameIpAsWritten()
    ensures var ls := [Listener(Addr(Inet, 0x01020304, 3478), 0), Listener(Addr(Inet, 0x01020304, 3479), 1)];
            var dst := Addr(Inet, 0x01020304, 3478);
            && OtherAddressAsWritten(Udp, ls, dst) == Some(Addr(Inet, 0x01020304, 3479))
            && SaCmp(dst, OtherAddressAsWritten(Udp, ls, dst).value, SaAddr)
            && OtherAddress(ls, dst).None?
  {
    var ls := [Listener(Addr(Inet, 0x01020304, 3478), 0), Listener(Addr(Inet, 0x01020304, 3479), 1)];
    assert ls[1..] == [ls[1]];
    assert ls[1..][1..] == [];
  }

  /** The attributes of the Binding success response, OTHER-ADDRESS left
      out when there is none. */
  function BindingAttrs(src: Addr, dst: Addr, other: Option<Addr>): seq<Attr>
  {
    [XorMappedAddr(src), MappedAddr(src)]
    + (if other.Some? then [OtherAddr(other.value)] else [])
    + [ResponseOrigin(dst), Software]
  }

  /** `request_handler`: `None` when the request is not a Binding request
      (left to the next handler); otherwise the answer, which is sent
      whatever the transport reports.  Unknown comprehension-required
      attributes get 420; every other Binding request the success
      response, with the corrected `ReplySocket` and `OtherAddress`. */
  function Respond(ctx: MsgCtx, proto: Proto, sock: nat, src: Addr, dst: Addr, m: Msg, ls: seq<Listener>)
    : (r: Option<Reply>)
    ensures r.None? <==> m.meth != Binding
    ensures r.Some? ==> r.value.proto == proto && r.value.key == ctx.key
    ensures r.Some? && ctx.ua != [] ==>
              r.value == Reply(proto, sock, src, ctx.key,
                               Failure(420, "Unknown Attribute", [UnknownAttributes(ctx.ua), Software]))
    ensures r.Some? && ctx.ua == [] ==>
              && r.value.body.Success?
              && r.value.dest == Destination(src, m)
              && r.value.sock == ReplySocket(proto, sock, dst, m, ls)
  {
    if m.meth != Binding then None
    else if ctx.ua != [] then
      Some(Reply(proto, sock, src, ctx.key, Failure(420, "Unknown Attribute", [UnknownAttributes(ctx.ua), Software])))
    else
      Some(Reply(proto, ReplySocket(proto, sock, dst, m, ls), Destination(src, m), ctx.key,
                 Success(BindingAttrs(src, dst, OtherAddress(ls, dst)))))
  }

  /** A client reading the success response finds its own address in
      XOR-MAPPED-ADDRESS and MAPPED-ADDRESS, the address it sent to in
      RESPONSE-ORIGIN, and OTHER-ADDRESS exactly when the server has a
      listener differing in IP and port. */
  lemma BindingReadable(ctx: MsgCtx, proto: Proto, sock: nat, src: Addr, dst: Addr, m: Msg, ls: seq<Listener>)
    requires m.meth == Binding && ctx.ua == []
    ensures var attrs := Respond(ctx, proto, sock, src, dst, m, ls).value.body.attrs;
            && Find(attrs, ATTR_XOR_MAPPED_ADDR) == Some(XorMappedAddr(src))
            && Find(attrs, ATTR_MAPPED_ADDR) == Some(MappedAddr(src))
            && Find(attrs, ATTR_RESP_ORIGIN) == Some(ResponseOrigin(dst))
            && (Find(attrs, ATTR_OTHER_ADDR).Some? <==> OtherAddress(ls, dst).Some?)
            && (OtherAddress(ls, dst).Some? ==> Find(attrs, ATTR_OTHER_ADDR) == Some(OtherAddr(OtherAddress(ls, dst).value)))
  {
    var o := OtherAddress(ls, dst);
    var attrs := BindingAttrs(src, dst, o);
    if o.Some? {
      ReadWithOther(attrs, src, dst, o.value);
    } else {
      ReadWithoutOther(attrs, src, dst);
    }
  }

  lemma ReadWithOther(attrs: seq<Attr>, src: Addr, dst: Addr, o: Addr)
    requires |attrs| == 5 && attrs[0] == XorMappedAddr(src) && attrs[1] == MappedAddr(src)
    requires attrs[2] == OtherAddr(o) && attrs[3] == ResponseOrigin(dst) && attrs[4] == Software
    ensures Find(attrs, ATTR_XOR_MAPPED_ADDR) == Some(XorMappedAddr(src))
    ensures Find(attrs, ATTR_MAPPED_ADDR) == Some(MappedAddr(src))
    ensures Find(attrs, ATTR_OTHER_ADDR) == Some(OtherAddr(o))
    ensures Find(attrs, ATTR_RESP_ORIGIN) == Some(ResponseOrigin(dst))
  {
    FindAt(attrs, 0, ATTR_XOR_MAPPED_ADDR);
    FindAt(attrs, 1, ATTR_MAPPED_ADDR);
    FindAt(attrs, 2, ATTR_OTHER_ADDR);
    FindAt(attrs, 3, ATTR_RESP_ORIGIN);
  }

  lemma ReadWithoutOther(attrs: seq<Attr>, src: Addr, dst: Addr)
    requires |attrs| == 4 && attrs[0] == XorMappedAddr(src) && attrs[1] == MappedAddr(src)
    requires attrs[2] == ResponseOrigin(dst) && attrs[3] == Software
    ensures Find(attrs, ATTR_XOR_MAPPED_ADDR) == Some(XorMappedAddr(src))
    ensures Find(attrs, ATTR_MAPPED_ADDR) == Some(MappedAddr(src))
    ensures Find(attrs, ATTR_OTHER_ADDR).None?
    ensures Find(attrs, ATTR_RESP_ORIGIN) == Some(ResponseOrigin(dst))
  {
    FindAt(attrs, 0, ATTR_XOR_MAPPED_ADDR);
    FindAt(attrs, 1, ATTR_MAPPED_ADDR);
    FindAt(attrs, 2, ATTR_RESP_ORIGIN);
    assert forall j :: 0 <= j < |attrs| ==> TypeOf(attrs[j]) != ATTR_OTHER_ADDR;
  }
}
