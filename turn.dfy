/** The TURN module's entry points (section 6 to 11 of RFC 5766): the STUN
    request hook that checks a request against its 5-tuple's allocation and
    hands it to the Allocate, Refresh, CreatePermission or ChannelBind
    handler; the Send indication hook and the ChannelData hook that relay
    client data to a peer; and the module's initialisation. */
module Turn {
  import opened Net
  import opened StunMsg
  import opened Db
  import opened Perm
  import Permissions = Perm
  import opened Chan
  import opened Sizing
  import opened TurnState
  import opened Alloc

  const ALLOC_DEFAULT_BSIZE: u32 := 512

  // ---------------------------------------------------------------------
  // Requests

  /** The four request methods the module serves. */
  predicate TurnMethod(meth: Method)
  {
    meth == Allocate || meth == Refresh || meth == CreatePermission || meth == ChannelBind
  }

  /** Where `request_handler` sends a request: not claimed, refused with an
      error response, or handed to a method handler (with the 5-tuple's
      allocation when one is needed). */
  datatype Route =
    | NotMine
    | Refuse(reply: Reply)
    | ToAllocate
    | ToRefresh(al: Allocation)
    | ToCreatePermission(al: Allocation)
    | ToChannelBind(al: Allocation)

  /** An authenticated request for an allocation created by a user names
      another user (or none). */
  predicate WrongCredentials(al: Allocation, ctx: MsgCtx, m: Msg)
  {
    al.username.Some? && ctx.key.Some? && UsernameOf(m) != al.username
  }

  /** The checks of `request_handler`, in order: unknown
      comprehension-required attributes (420), a request other than
      Allocate without an allocation (437), and an authenticated request
      whose USERNAME is not the allocation's owner (441). */
  function RouteOf(allocs: seq<Allocation>, ctx: MsgCtx, proto: Proto, sock: nat, src: Addr, dst: Addr, m: Msg)
    : (rt: Route)
    ensures rt.NotMine? <==> !TurnMethod(m.meth)
    ensures TurnMethod(m.meth) && ctx.ua != [] ==>
              rt == Refuse(Reply(proto, sock, src, ctx.key,
                                 Failure(420, "Unknown Attribute", [UnknownAttributes(ctx.ua), Software])))
    ensures rt.Refuse? ==> rt.reply.dest == src && rt.reply.key == ctx.key
                           && (IsError(rt.reply, 420) || IsError(rt.reply, 437) || IsError(rt.reply, 441))
    ensures rt.Refuse? && IsError(rt.reply, 437) ==>
              m.meth != Allocate && Existing(allocs, proto, src, dst).None?
    ensures rt.ToAllocate? <==> m.meth == Allocate && ctx.ua == [] && !RefusedOwner(allocs, ctx, proto, src, dst, m)
    ensures rt.ToRefresh? || rt.ToCreatePermission? || rt.ToChannelBind? ==>
              && ctx.ua == [] && Existing(allocs, proto, src, dst) == Some(rt.al)
              && !WrongCredentials(rt.al, ctx, m)
              && (rt.ToRefresh? <==> m.meth == Refresh)
              && (rt.ToCreatePermission? <==> m.meth == CreatePermission)
  {
    var alx := Existing(allocs, proto, src, dst);
    if !TurnMethod(m.meth) then NotMine
    else if ctx.ua != [] then
      Refuse(Reply(proto, sock, src, ctx.key, Failure(420, "Unknown Attribute", [UnknownAttributes(ctx.ua), Software])))
    else if alx.None? && m.meth != Allocate then
      Refuse(ErrorReply(proto, sock, src, ctx, 437, "Allocation Mismatch"))
    else if alx.Some? && WrongCredentials(alx.value, ctx, m) then
      Refuse(ErrorReply(proto, sock, src, ctx, 441, "Wrong Credentials"))
    else if m.meth == Allocate then ToAllocate
    else if m.meth == Refresh then ToRefresh(alx.value)
    else if m.meth == CreatePermission then ToCreatePermission(alx.value)
    else ToChannelBind(alx.value)
  }

  /** An allocation exists for the 5-tuple and the request is refused
      because it names another user. */
  predicate RefusedOwner(allocs: seq<Allocation>, ctx: MsgCtx, proto: Proto, src: Addr, dst: Addr, m: Msg)
  {
    Existing(allocs, proto, src, dst).Some? && WrongCredentials(Existing(allocs, proto, src, dst).value, ctx, m)
  }

  /** `request_handler`.  Requests it does not serve are left to the next
      handler; the others are refused as `RouteOf` says or handed to the
      method's handler, whose reply is the reply here.  CreatePermission
      and ChannelBind act on the allocation's own tables; the traffic their
      lazy expiry logs joins the module's traffic log. */
  method RequestHandler(t: Turnd, ctx: MsgCtx, proto: Proto, sock: nat, src: Addr, dst: Addr, m: Msg,
                        now: Time, nowMs: int, hash: AddrHash, att: nat -> Attempt, sendOk: bool)
    returns (claimed: bool, r: Option<Reply>)
    requires t.Valid()
    modifies t, t.allocs, (set a | a in t.allocs :: a.perms), (set a | a in t.allocs :: a.chans), t.chanCount
    ensures t.Valid() && t.Conf() == old(t.Conf())
    ensures var rt := old(RouteOf(t.allocs, ctx, proto, sock, src, dst, m));
            && (rt.ToAllocate? ==>
                  r == Some(old(AllocateAnswer(t.allocs, t.Conf(), ctx, proto, sock, src, dst, m, nowMs, hash, att))))
            && (rt.ToCreatePermission? ==>
                  r.Some? && PermAnswer(r.value, rt.al.perms.entries)
                             == old(Answer(Stage(Start(rt.al.perms.entries), PeersOf(m.attrs), rt.al.rel.af,
                                                 rt.al.OwnerOf(), now, true), now, proto, sock, src, ctx, sendOk)))
            && (rt.ToChannelBind? ==>
                  r == Some(old(BindReply(rt.al.chans.entries, rt.al.rel.af, now, proto, sock, src, ctx, m)))
                  && t.chanCount.cur == Moved(old(t.chanCount.cur), |old(rt.al.chans.entries)|, |rt.al.chans.entries|))
            && (!rt.ToChannelBind? ==> t.chanCount.cur == old(t.chanCount.cur))
    ensures var rt := old(RouteOf(t.allocs, ctx, proto, sock, src, dst, m));
            && (rt.NotMine? || rt.Refuse? ==> forall a :: a in old(t.allocs) ==> unchanged(a, a.perms, a.chans))
            && (rt.ToAllocate? ==>
                  var h := old(Redeemed(t.allocs, t.Conf(), proto, src, dst, m, hash));
                  && (forall a :: a in old(t.allocs) && Some(a) != h ==> unchanged(a, a.perms, a.chans))
                  && (h.Some? ==>
                        RelayOf(h.value) == old(Surrendered(RelayOf(h.value))) && h.value.expiresMs == old(h.value.expiresMs)
                        && h.value.dropcTx == old(h.value.dropcTx) && h.value.dropcRx == old(h.value.dropcRx)
                        && unchanged(h.value.perms, h.value.chans)))
            && (rt.ToRefresh? || rt.ToCreatePermission? || rt.ToChannelBind? ==>
                  forall a :: a in old(t.allocs) && a != rt.al ==> unchanged(a, a.perms, a.chans))
            && (rt.ToRefresh? ==> unchanged(rt.al.perms, rt.al.chans))
            && (rt.ToCreatePermission? ==> unchanged(rt.al, rt.al.chans))
            && (rt.ToChannelBind? ==> unchanged(rt.al))
    ensures var rt := old(RouteOf(t.allocs, ctx, proto, sock, src, dst, m));
            && (rt.ToRefresh? ==>
                  && RelayOf(rt.al) == old(RelayOf(rt.al))
                  && rt.al.dropcTx == old(rt.al.dropcTx) && rt.al.dropcRx == old(rt.al.dropcRx)
                  && rt.al.expiresMs == (if old(FamilyMismatch(rt.al, m)) then old(rt.al.expiresMs)
                                         else nowMs + TimerDelay(RefreshLifetime(LifetimeOf(m), t.lifetimeMax)))
                  && t.traffic == old(t.traffic))
            && (rt.ToCreatePermission? ==>
                  t.traffic == old(t.traffic)
                               + Stage(Start(old(rt.al.perms.entries)), PeersOf(m.attrs), rt.al.rel.af,
                                       rt.al.OwnerOf(), now, true).log)
            && (rt.ToChannelBind? ==>
                  |t.traffic| >= |old(t.traffic)| && t.traffic[..|old(t.traffic)|] == old(t.traffic))
    ensures var rt := old(RouteOf(t.allocs, ctx, proto, sock, src, dst, m));
            && claimed == !rt.NotMine? && (claimed <==> r.Some?)
            && (rt.Refuse? ==> r == Some(rt.reply))
            && (rt.NotMine? || rt.Refuse? ==>
                  t.allocs == old(t.allocs) && t.Stats() == old(t.Stats()) && t.traffic == old(t.traffic))
            && (rt.ToRefresh? || rt.ToCreatePermission? || rt.ToChannelBind? ==>
                  t.allocs == old(t.allocs) && t.Stats() == old(t.Stats()))
            && (rt.ToRefresh? ==>
                  if old(FamilyMismatch(rt.al, m))
                  then r == Some(ErrorReply(proto, sock, src, ctx, 443, "Peer Address Family Mismatch"))
                  else r == Some(Reply(proto, sock, src, ctx.key,
                                       Success([Lifetime(RefreshLifetime(LifetimeOf(m), t.lifetimeMax)), Software]))))
  {
    var rt := RouteOf(t.allocs, ctx, proto, sock, src, dst, m);
    match rt
    case NotMine =>
      return false, None;
    case Refuse(reply) =>
      return true, Some(reply);
    case ToAllocate =>
      var reply := AllocateRequest(t, ctx, proto, sock, src, dst, m, now, nowMs, hash, att, sendOk);
      return true, Some(reply);
    case _ =>
      var reply := Serve(t, rt, ctx, proto, sock, src, m, now, nowMs, sendOk);
      return true, Some(reply);
  }

  /** The routes of `request_handler` that act on the allocation the
      5-tuple names: the method's handler touches that allocation only. */
  method Serve(t: Turnd, rt: Route, ctx: MsgCtx, proto: Proto, sock: nat, src: Addr, m: Msg,
               now: Time, nowMs: int, sendOk: bool)
    returns (r: Reply)
    requires t.Valid()
    requires (rt.ToRefresh? || rt.ToCreatePermission? || rt.ToChannelBind?) && rt.al in t.allocs
    modifies t, t.allocs, (set a | a in t.allocs :: a.perms), (set a | a in t.allocs :: a.chans), t.chanCount
    ensures t.Valid() && t.Conf() == old(t.Conf()) && t.allocs == old(t.allocs) && t.Stats() == old(t.Stats())
    ensures rt.ToCreatePermission? ==>
              PermAnswer(r, rt.al.perms.entries)
              == old(Answer(Stage(Start(rt.al.perms.entries), PeersOf(m.attrs), rt.al.rel.af,
                                  rt.al.OwnerOf(), now, true), now, proto, sock, src, ctx, sendOk))
    ensures rt.ToChannelBind? ==>
              r == old(BindReply(rt.al.chans.entries, rt.al.rel.af, now, proto, sock, src, ctx, m))
              && t.chanCount.cur == Moved(old(t.chanCount.cur), |old(rt.al.chans.entries)|, |rt.al.chans.entries|)
    ensures !rt.ToChannelBind? ==> t.chanCount.cur == old(t.chanCount.cur)
    ensures forall a :: a in old(t.allocs) && a != rt.al ==> unchanged(a, a.perms, a.chans)
    ensures rt.ToRefresh? ==> unchanged(rt.al.perms, rt.al.chans)
    ensures rt.ToCreatePermission? ==> unchanged(rt.al, rt.al.chans)
    ensures rt.ToChannelBind? ==> unchanged(rt.al)
    ensures rt.ToRefresh? ==>
              && RelayOf(rt.al) == old(RelayOf(rt.al))
              && rt.al.dropcTx == old(rt.al.dropcTx) && rt.al.dropcRx == old(rt.al.dropcRx)
              && rt.al.expiresMs == (if old(FamilyMismatch(rt.al, m)) then old(rt.al.expiresMs)
                                     else nowMs + TimerDelay(RefreshLifetime(LifetimeOf(m), t.lifetimeMax)))
              && t.traffic == old(t.traffic)
    ensures rt.ToCreatePermission? ==>
              t.traffic == old(t.traffic)
                           + Stage(Start(old(rt.al.perms.entries)), PeersOf(m.attrs), rt.al.rel.af,
                                   rt.al.OwnerOf(), now, true).log
    ensures rt.ToChannelBind? ==>
              |t.traffic| >= |old(t.traffic)| && t.traffic[..|old(t.traffic)|] == old(t.traffic)
    ensures rt.ToRefresh? ==>
              if old(FamilyMismatch(rt.al, m))
              then r == ErrorReply(proto, sock, src, ctx, 443, "Peer Address Family Mismatch")
              else r == Reply(proto, sock, src, ctx.key,
                              Success([Lifetime(RefreshLifetime(LifetimeOf(m), t.lifetimeMax)), Software]))
  {
    match rt
    case ToRefresh(al) =>
      r := RefreshRequest(t, al, ctx, proto, sock, src, m, nowMs);
    case ToCreatePermission(al) =>
      r := OnPermissions(t, al, ctx, proto, sock, src, m, now, sendOk);
    case ToChannelBind(al) =>
      r := OnChannels(t, al, ctx, proto, sock, src, m, now, sendOk);
  }

  /** `createperm_request` on an allocation of the table, with the
      corrected staging of `Perm.CreatePermission`: the request acts on that
      allocation's permissions only, and what it logs joins the traffic
      log. */
  method OnPermissions(t: Turnd, al: Allocation, ctx: MsgCtx, proto: Proto, sock: nat, src: Addr, m: Msg,
                       now: Time, sendOk: bool)
    returns (r: Reply)
    requires t.Valid() && al in t.allocs
    modifies t, al.perms
    ensures t.Valid() && t.allocs == old(t.allocs) && t.Stats() == old(t.Stats()) && t.Conf() == old(t.Conf())
    ensures var s := Stage(Start(old(al.perms.entries)), PeersOf(m.attrs), al.rel.af, al.OwnerOf(), now, true);
            && t.traffic == old(t.traffic) + s.log
            && PermAnswer(r, al.perms.entries) == Answer(s, now, proto, sock, src, ctx, sendOk)
    ensures forall a :: a in old(t.allocs) && a != al ==> unchanged(a.perms)
  {
    TablesOf(t, al);
    var log;
    r, log := Permissions.CreatePermission(al.perms, al.rel.af, al.OwnerOf(), now, proto, sock, src, ctx, m, sendOk);
    t.traffic := t.traffic + log;
  }

  /** `chanbind_request` on an allocation of the table: the request acts
      on that allocation's channels and permissions only, and what it logs
      joins the traffic log. */
  method OnChannels(t: Turnd, al: Allocation, ctx: MsgCtx, proto: Proto, sock: nat, src: Addr, m: Msg,
                    now: Time, sendOk: bool)
    returns (r: Reply)
    requires t.Valid() && al in t.allocs
    modifies t, al.perms, al.chans, t.chanCount
    ensures t.Valid() && t.allocs == old(t.allocs) && t.Stats() == old(t.Stats()) && t.Conf() == old(t.Conf())
    ensures |t.traffic| >= |old(t.traffic)| && t.traffic[..|old(t.traffic)|] == old(t.traffic)
    ensures r == BindReply(old(al.chans.entries), al.rel.af, now, proto, sock, src, ctx, m)
    ensures t.chanCount.cur == Moved(old(t.chanCount.cur), |old(al.chans.entries)|, |al.chans.entries|)
    ensures forall a :: a in old(t.allocs) && a != al ==> unchanged(a.perms, a.chans)
  {
    TablesOf(t, al);
    var log;
    r, log := ChanBind(al.chans, al.perms, al.rel.af, al.OwnerOf(), now, proto, sock, src, ctx, m, sendOk);
    t.traffic := t.traffic + log;
  }

  // ---------------------------------------------------------------------
  // Data from the client

  /** A UDP datagram sent on an allocation's relayed address. */
  datatype Datagram = Datagram(from: Addr, to: Addr, data: seq<byte>)

  /** A byte count as `size_t` holds it, on a 64-bit platform. */
  function Size(n: nat): (r: u64)
    ensures n < 0x1_0000_0000_0000_0000 ==> r == n
  {
    n % 0x1_0000_0000_0000_0000
  }

  /** `indication_handler`: a Send indication from the client of an
      allocation, carrying XOR-PEER-ADDRESS and DATA, is relayed to the
      peer when a live permission exists for its IP address (dropped and
      counted otherwise).  Every Send indication is claimed; indications
      with unknown attributes, without an allocation or without both
      attributes are discarded. */
  method IndicationHandler(t: Turnd, ctx: MsgCtx, proto: Proto, src: Addr, dst: Addr, m: Msg, now: Time,
                           sendOk: bool)
    returns (claimed: bool, sent: Option<Datagram>)
    requires t.Valid()
    modifies t, t.allocs, (set a | a in t.allocs :: a.perms)
    ensures t.Valid() && t.Conf() == old(t.Conf()) && t.allocs == old(t.allocs)
    ensures t.bytecRx == old(t.bytecRx) && t.errcRx == old(t.errcRx) && t.alloccTot == old(t.alloccTot)
    ensures claimed <==> m.meth == Send
    ensures var alx := old(Existing(t.allocs, proto, src, dst));
            m.meth != Send || ctx.ua != [] || alx.None? || PeerOf(m).None? || DataOf(m).None? ==>
              sent.None? && t.Stats() == old(t.Stats()) && t.traffic == old(t.traffic)
              && forall a :: a in old(t.allocs) ==> unchanged(a, a.perms, a.chans)
    ensures var alx := old(Existing(t.allocs, proto, src, dst));
            forall a :: a in old(t.allocs) && Some(a) != alx ==> unchanged(a, a.perms, a.chans)
    ensures var alx := old(Existing(t.allocs, proto, src, dst));
            m.meth == Send && ctx.ua == [] && alx.Some? && PeerOf(m).Some? && DataOf(m).Some? ==>
              var al, peer, data := alx.value, PeerOf(m).value, DataOf(m).value;
              var pf := Lookup(old(al.perms.entries), peer, old(al.OwnerOf()), now);
              && t.traffic == old(t.traffic) + pf.log
              && RelayOf(al) == old(RelayOf(al)) && al.expiresMs == old(al.expiresMs) && al.dropcRx == old(al.dropcRx)
              && unchanged(al.chans)
              && (pf.at.None? ==>
                    sent.None? && al.dropcTx == Add64(old(al.dropcTx), 1) && al.perms.entries == pf.rest
                    && t.bytecTx == old(t.bytecTx) && t.errcTx == old(t.errcTx))
              && (pf.at.Some? ==>
                    && sent == Some(Datagram(al.rel, peer, data)) && al.dropcTx == old(al.dropcTx)
                    && (sendOk ==> al.perms.entries == Counted(pf.rest, pf.at.value, true, Size(|data|))
                                   && t.bytecTx == Add64(old(t.bytecTx), Size(|data|)) && t.errcTx == old(t.errcTx))
                    && (!sendOk ==> al.perms.entries == pf.rest
                                    && t.bytecTx == old(t.bytecTx) && t.errcTx == Add64(old(t.errcTx), 1)))
  {
    if m.meth != Send {
      return false, None;
    }
    var alx := Existing(t.allocs, proto, src, dst);
    if ctx.ua != [] || alx.None? || PeerOf(m).None? || DataOf(m).None? {
      return true, None;
    }
    var al, peer, data := alx.value, PeerOf(m).value, DataOf(m).value;
    sent := Relay(t, al, peer, data, now, sendOk);
    claimed := true;
  }

  /** The part both client-data hooks share: the permission check, the
      datagram to the peer and the counters.  `perm_find` may destroy an
      expired permission, whose traffic is logged. */
  method Relay(t: Turnd, al: Allocation, peer: Addr, data: seq<byte>, now: Time, sendOk: bool)
    returns (sent: Option<Datagram>)
    requires t.Valid() && al in t.allocs
    modifies t, al, al.perms
    ensures t.Valid() && t.Conf() == old(t.Conf()) && t.allocs == old(t.allocs)
    ensures t.bytecRx == old(t.bytecRx) && t.errcRx == old(t.errcRx) && t.alloccTot == old(t.alloccTot)
    ensures RelayOf(al) == old(RelayOf(al)) && al.dropcRx == old(al.dropcRx) && al.expiresMs == old(al.expiresMs)
    ensures al.chans.entries == old(al.chans.entries)
    ensures forall a :: a in old(t.allocs) && a != al ==> unchanged(a, a.perms, a.chans)
    ensures var pf := Lookup(old(al.perms.entries), peer, old(al.OwnerOf()), now);
            && t.traffic == old(t.traffic) + pf.log
            && (pf.at.None? ==>
                  sent.None? && al.dropcTx == Add64(old(al.dropcTx), 1) && al.perms.entries == pf.rest
                  && t.bytecTx == old(t.bytecTx) && t.errcTx == old(t.errcTx))
            && (pf.at.Some? ==>
                  && sent == Some(Datagram(al.rel, peer, data)) && al.dropcTx == old(al.dropcTx)
                  && (sendOk ==> al.perms.entries == Counted(pf.rest, pf.at.value, true, Size(|data|))
                                 && t.bytecTx == Add64(old(t.bytecTx), Size(|data|)) && t.errcTx == old(t.errcTx))
                  && (!sendOk ==> al.perms.entries == pf.rest
                                  && t.bytecTx == old(t.bytecTx) && t.errcTx == Add64(old(t.errcTx), 1)))
  {
    TablesOf(t, al);
    var i, log := al.perms.Find(peer, al.OwnerOf(), now);
    t.traffic := t.traffic + log;
    if i.None? {
      al.dropcTx := Add64(al.dropcTx, 1);
      return None;
    }
    sent := Forward(t, al, i.value, peer, data, sendOk);
  }

  /** The datagram to the peer once permission `i` allowed it: a send that
      works is counted on the permission and in the transmitted bytes, one
      that fails in the transmit errors. */
  method Forward(t: Turnd, al: Allocation, i: nat, peer: Addr, data: seq<byte>, sendOk: bool)
    returns (sent: Option<Datagram>)
    requires t.Valid() && al in t.allocs && i < |al.perms.entries|
    modifies t, al.perms
    ensures t.Valid() && t.Conf() == old(t.Conf()) && t.allocs == old(t.allocs) && t.traffic == old(t.traffic)
    ensures t.bytecRx == old(t.bytecRx) && t.errcRx == old(t.errcRx) && t.alloccTot == old(t.alloccTot)
    ensures forall a :: a in old(t.allocs) && a != al ==> unchanged(a.perms)
    ensures sent == Some(Datagram(al.rel, peer, data))
    ensures sendOk ==> al.perms.entries == Counted(old(al.perms.entries), i, true, Size(|data|))
                       && t.bytecTx == Add64(old(t.bytecTx), Size(|data|)) && t.errcTx == old(t.errcTx)
    ensures !sendOk ==> al.perms.entries == old(al.perms.entries)
                        && t.bytecTx == old(t.bytecTx) && t.errcTx == Add64(old(t.errcTx), 1)
  {
    TablesOf(t, al);
    sent := Some(Datagram(al.rel, peer, data));
    if sendOk {
      al.perms.Stat(Some(i), true, Size(|data|));
      t.bytecTx := Add64(t.bytecTx, Size(|data|));
    } else {
      t.errcTx := Add64(t.errcTx, 1);
    }
  }

  /** The data a ChannelData message carries: the `len` bytes after the
      4-byte header, without whatever padding follows them. */
  function RawPayload(mb: seq<byte>): (d: seq<byte>)
    requires 4 <= |mb| && ReadU16(mb, 2) <= |mb| - 4
    ensures |d| == ReadU16(mb, 2)
  {
    mb[4..4 + ReadU16(mb, 2)]
  }

  /** What `raw_handler` hands to `udp_send`: everything after the header,
      the padding included. */
  function RawPayloadAsWritten(mb: seq<byte>): seq<byte>
    requires 4 <= |mb|
  {
    mb[4..]
  }

  /** A client's ChannelData datagram gives back its data whatever padding
      the client puts after it; the bytes after the header do so only when
      there is none.  Padding reaches `raw_handler` only over UDP: the TCP
      reassembly ends the frame at the announced length. */
  lemma RawPayloadRoundTrip(numb: u16, data: seq<byte>, pad: seq<byte>)
    requires |data| < 0x10000
    ensures var mb := ChannelFrame(numb, data, false) + pad;
            && 4 <= |mb| && ReadU16(mb, 2) <= |mb| - 4 && ReadU16(mb, 0) == numb
            && RawPayload(mb) == data
            && RawPayloadAsWritten(mb) == data + pad
            && (RawPayloadAsWritten(mb) == data <==> pad == [])
  {
    ChannelFrameParse(numb, data, false);
    var f := ChannelFrame(numb, data, false);
    var mb := f + pad;
    assert mb[0] == f[0] && mb[1] == f[1] && mb[2] == f[2] && mb[3] == f[3];
    assert mb[4..4 + |data|] == f[4..4 + |data|];
    assert mb[4..] == f[4..] + pad;
    if RawPayloadAsWritten(mb) == data {
      assert |data + pad| == |data|;
    }
  }

  /** A ChannelData datagram over UDP for channel 0x4000 with one data
      byte 0xAB, padded to four: the peer receives four bytes instead of
      one. */
  lemma PaddingRelayedAsWritten()
    ensures var mb: seq<byte> := [0x40, 0x00, 0x00, 0x01, 0xAB, 0x00, 0x00, 0x00];
            && ReadU16(mb, 0) == 0x4000 && ReadU16(mb, 2) == 1
            && RawPayload(mb) == [0xAB]
            && RawPayloadAsWritten(mb) == [0xAB, 0x00, 0x00, 0x00]
  {
    var mb: seq<byte> := [0x40, 0x00, 0x00, 0x01, 0xAB, 0x00, 0x00, 0x00];
    assert mb[4..5] == [0xAB];
    assert mb[4..] == [0xAB, 0x00, 0x00, 0x00];
  }

  /** `raw_handler`: a ChannelData message from the client of an
      allocation.  It is left to the next handler (not claimed) when there
      is no allocation, the header is short, the length exceeds the data,
      or no live channel has the number; dropped when the channel's peer
      has no live permission; otherwise the data is relayed to the
      channel's peer.  This is the corrected handler: the data relayed and
      counted is `RawPayload`, the `len` bytes the header announces, where
      the released code relays everything after the header
      (`RawPayloadAsWritten`). */
  method RawHandler(t: Turnd, proto: Proto, src: Addr, dst: Addr, mb: seq<byte>, now: Time, sendOk: bool)
    returns (claimed: bool, sent: Option<Datagram>)
    requires t.Valid()
    modifies t, t.allocs, (set a | a in t.allocs :: a.perms), (set a | a in t.allocs :: a.chans), t.chanCount
    ensures t.Valid() && t.Conf() == old(t.Conf()) && t.allocs == old(t.allocs)
    ensures t.bytecRx == old(t.bytecRx) && t.errcRx == old(t.errcRx) && t.alloccTot == old(t.alloccTot)
    ensures var alx := old(Existing(t.allocs, proto, src, dst));
            alx.None? || |mb| < 4 || ReadU16(mb, 2) > |mb| - 4 ==>
              !claimed && sent.None? && t.Stats() == old(t.Stats()) && t.traffic == old(t.traffic)
              && t.chanCount.cur == old(t.chanCount.cur)
              && forall a :: a in old(t.allocs) ==> unchanged(a, a.perms, a.chans)
    ensures var alx := old(Existing(t.allocs, proto, src, dst));
            forall a :: a in old(t.allocs) && Some(a) != alx ==> unchanged(a, a.perms, a.chans)
    ensures var alx := old(Existing(t.allocs, proto, src, dst));
            alx.Some? && |mb| >= 4 && ReadU16(mb, 2) <= |mb| - 4 ==>
              var al := alx.value;
              var cf := NumbLookup(old(al.chans.entries), ReadU16(mb, 0), now);
              && al.chans.entries == cf.rest
              && t.chanCount.cur == Moved(old(t.chanCount.cur), |old(al.chans.entries)|, |cf.rest|)
              && (cf.at.None? ==>
                    !claimed && sent.None? && t.Stats() == old(t.Stats()) && t.traffic == old(t.traffic)
                    && unchanged(al, al.perms))
              && (cf.at.Some? ==>
                    var peer := cf.rest[cf.at.value].peer;
                    var n := ReadU16(mb, 2);
                    var pf := Lookup(old(al.perms.entries), peer, old(al.OwnerOf()), now);
                    && t.traffic == old(t.traffic) + pf.log
                    && (claimed <==> pf.at.Some?)
                    && RelayOf(al) == old(RelayOf(al)) && al.expiresMs == old(al.expiresMs)
                    && al.dropcRx == old(al.dropcRx)
                    && (pf.at.None? ==>
                          sent.None? && al.dropcTx == Add64(old(al.dropcTx), 1) && al.perms.entries == pf.rest
                          && t.bytecTx == old(t.bytecTx) && t.errcTx == old(t.errcTx))
                    && (pf.at.Some? ==>
                          && sent == Some(Datagram(al.rel, peer, RawPayload(mb))) && al.dropcTx == old(al.dropcTx)
                          && (sendOk ==> al.perms.entries == Counted(pf.rest, pf.at.value, true, n)
                                         && t.bytecTx == Add64(old(t.bytecTx), n) && t.errcTx == old(t.errcTx))
                          && (!sendOk ==> al.perms.entries == pf.rest
                                          && t.bytecTx == old(t.bytecTx) && t.errcTx == Add64(old(t.errcTx), 1))))
  {
    var alx := Existing(t.allocs, proto, src, dst);
    if alx.None? || |mb| < 4 {
      return false, None;
    }
    var al := alx.value;
    var numb := ReadU16(mb, 0);
    var len := ReadU16(mb, 2);
    if |mb| - 4 < len {
      return false, None;
    }
    TablesOf(t, al);
    NumbLookupSound(al.chans.entries, numb, now);
    var c := al.chans.NumbFind(numb, now);
    if c.None? {
      return false, None;
    }
    var peer := al.chans.entries[c.value].peer;
    assert Size(|RawPayload(mb)|) == len;
    sent := Relay(t, al, peer, RawPayload(mb), now, sendOk);
    claimed := sent.Some?;
  }

  // ---------------------------------------------------------------------
  // Initialisation

  /** `module_init` on the zero-initialised state.  Each relay address is
      absent from the configuration (`None`: unset), or its text parsed to
      an address or an error; a parse error, or no relay address with an
      IP address set, fails the initialisation.  The maximum lifetime is
      the configured one or 600 seconds, and the allocation table gets the
      least power of two of at least 4 buckets that holds the configured
      maximum number of allocations (512 by default). */
  method Init(t: Turnd, rel: Option<Result<Addr>>, rel6: Option<Result<Addr>>,
              lifetimeMax: Option<u32>, maxAllocs: Option<u32>)
    returns (err: Option<Errno>)
    requires t.Valid()
    requires maxAllocs.Some? ==> maxAllocs.value <= 0x8000_0000
    modifies t
    ensures t.Valid() && t.allocs == old(t.allocs) && t.Stats() == old(t.Stats()) && t.traffic == old(t.traffic)
    ensures rel.Some? && rel.value.Err? ==> err == Some(rel.value.error)
    ensures (rel.None? || rel.value.Ok?) && rel6.Some? && rel6.value.Err? ==> err == Some(rel6.value.error)
    ensures (rel.None? || rel.value.Ok?) && (rel6.None? || rel6.value.Ok?) ==>
              var a4 := if rel.Some? then rel.value.value else Unset;
              var a6 := if rel6.Some? then rel6.value.value else Unset;
              && t.relAddr == a4 && t.relAddr6 == a6
              && (!IsSet(a4, SaAddr) && !IsSet(a6, SaAddr) ==> err == Some(EINVAL))
              && (IsSet(a4, SaAddr) || IsSet(a6, SaAddr) ==>
                    var n := if maxAllocs.Some? then maxAllocs.value else ALLOC_DEFAULT_BSIZE;
                    && err.None?
                    && t.lifetimeMax == (if lifetimeMax.Some? then lifetimeMax.value else TURN_DEFAULT_LIFETIME)
                    && t.bsize >= 4 && t.bsize >= n
                    && (exists x: nat :: t.bsize == Pow2(x)
                          && forall y: nat :: 2 <= y && Pow2(y) >= n ==> t.bsize <= Pow2(y)))
  {
    if rel.Some? && rel.value.Err? {
      return Some(rel.value.error);
    }
    t.relAddr := if rel.Some? then rel.value.value else Unset;
    if rel6.Some? && rel6.value.Err? {
      return Some(rel6.value.error);
    }
    t.relAddr6 := if rel6.Some? then rel6.value.value else Unset;
    if !IsSet(t.relAddr, SaAddr) && !IsSet(t.relAddr6, SaAddr) {
      return Some(EINVAL);
    }
    t.lifetimeMax := if lifetimeMax.Some? then lifetimeMax.value else TURN_DEFAULT_LIFETIME;
    var n := if maxAllocs.Some? then maxAllocs.value else ALLOC_DEFAULT_BSIZE;
    var x, size := BucketCount(n);
    forall y: nat | 2 <= y && Pow2(y) >= n
      ensures size <= Pow2(y)
    {
      BucketCountLeast(n, x, y);
    }
    t.bsize := size;
    return None;
  }
}
