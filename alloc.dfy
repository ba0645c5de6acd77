/** TURN allocations (section 6 of RFC 5766): creating one for a client
    5-tuple with a relayed transport address, optionally an even port and a
    reservation of the next port, refreshing and expiring it, and relaying
    data that arrives from peers back to the client. */
module Alloc {
  import opened Net
  import opened StunMsg
  import opened Db
  import opened Perm
  import opened Chan
  import opened TurnState

  const TURN_DEFAULT_LIFETIME: u32 := 600
  const PORT_TRY_MAX: nat := 32
  const TCP_MAX_TXQSZ: nat := 8192

  // ---------------------------------------------------------------------
  // Address families and lifetimes

  /** `sa_stunaf`: the STUN family code of an address, 0 when unset. */
  function Stunaf(a: Addr): (b: byte)
    ensures a.af == Inet <==> b == STUN_AF_IPv4
    ensures a.af == Inet6 <==> b == STUN_AF_IPv6
    ensures a.af == Unspec <==> b == 0
  {
    match a.af
    case Inet => STUN_AF_IPv4
    case Inet6 => STUN_AF_IPv6
    case Unspec => 0
  }

  /** `relay_addr`: the configured relay address of a STUN family; none
      for an unknown code. */
  function RelayAddr(rel4: Addr, rel6: Addr, af: byte): (r: Option<Addr>)
    ensures r.Some? <==> af == STUN_AF_IPv4 || af == STUN_AF_IPv6
    ensures forall a: Addr :: af == Stunaf(a) && a.af == Inet ==> r == Some(rel4)
    ensures forall a: Addr :: af == Stunaf(a) && a.af == Inet6 ==> r == Some(rel6)
  {
    if af == STUN_AF_IPv4 then Some(rel4)
    else if af == STUN_AF_IPv6 then Some(rel6)
    else None
  }

  /** The lifetime an Allocate request is granted: the requested one
      (600 seconds when absent), at least 600 and at most the configured
      maximum. */
  function AllocLifetime(req: Option<u32>, max: u32): (l: u32)
    ensures l <= max
    ensures max < TURN_DEFAULT_LIFETIME ==> l == max
    ensures max >= TURN_DEFAULT_LIFETIME ==> TURN_DEFAULT_LIFETIME <= l
    ensures req.None? || req.value < TURN_DEFAULT_LIFETIME ==>
              l == (if max < TURN_DEFAULT_LIFETIME then max else TURN_DEFAULT_LIFETIME)
    ensures req.Some? && TURN_DEFAULT_LIFETIME <= req.value <= max ==> l == req.value
    ensures req.Some? && req.value > max ==> l == max
  {
    var r := if req.Some? then req.value else TURN_DEFAULT_LIFETIME;
    var r := if r < TURN_DEFAULT_LIFETIME then TURN_DEFAULT_LIFETIME else r;
    if r < max then r else max
  }

  /** The lifetime a Refresh request is granted: 0 (delete the allocation)
      when 0 is requested, otherwise what an Allocate request would get. */
  function RefreshLifetime(req: Option<u32>, max: u32): (l: u32)
    ensures l == 0 <==> req == Some(0) || max == 0
    ensures req != Some(0) ==> l == AllocLifetime(req, max)
  {
    var r := if req.Some? then req.value else TURN_DEFAULT_LIFETIME;
    var r := if r != 0 && r < TURN_DEFAULT_LIFETIME then TURN_DEFAULT_LIFETIME else r;
    if r < max then r else max
  }

  /** `lifetime * 1000` in `uint32_t` arithmetic: the timer delay in
      milliseconds, which wraps for lifetimes above 4294967 seconds. */
  function TimerDelay(l: u32): (d: u32)
    ensures l <= 4294967 ==> d == l * 1000
    ensures l > 4294967 ==> d < l * 1000
  {
    (l * 1000) % 0x1_0000_0000
  }

  /** `(uint32_t)(tmr_get_expire(&tmr) / 1000)`: whole seconds left before a
      timer due at `expiresMs` fires, 0 once it is due. */
  function Remaining(expiresMs: int, nowMs: int): (s: u32)
    ensures expiresMs <= nowMs ==> s == 0
  {
    if expiresMs <= nowMs then 0 else ((expiresMs - nowMs) / 1000) % 0x1_0000_0000
  }

  /** A retransmitted Allocate reports the granted lifetime when it comes at
      once, and never more than it later. */
  lemma ReplayLifetime(l: u32, nowMs: int, later: int)
    requires l <= 4294967 && nowMs <= later
    ensures Remaining(nowMs + TimerDelay(l), later) <= l
    ensures Remaining(nowMs + TimerDelay(l), nowMs) == l
  {
    var d := TimerDelay(l);
    if nowMs + d > later {
      assert (d - (later - nowMs)) / 1000 <= d / 1000 == l;
    }
  }

  // ---------------------------------------------------------------------
  // The relay socket

  /** One pass of the loop in `relay_listen`, as the socket layer answers
      it: the error of `udp_listen` on the relay address, the port
      `udp_local_get` reports (or its error), and the error of `udp_listen`
      on the port above it. */
  datatype Attempt = Attempt(listen: Option<Errno>, local: Result<u16>, rsv: Option<Errno>)

  /** The fields of an allocation `relay_listen` writes: the relayed
      address, whether the relay socket is open, the reserved address and
      whether its socket is open. */
  datatype Relay = Relay(rel: Addr, relOpen: bool, rsv: Addr, rsvOpen: bool)

  datatype Listened = Listened(err: Option<Errno>, relay: Relay)

  /** `relay_listen` from pass `i` on.  Without EVEN-PORT the first socket
      is taken; with it an odd port is closed and the next pass tried; with
      its R flag the port above is bound too, and a failure there also
      closes the socket and tries again.  After 32 passes the answer is
      EADDRINUSE. */
  function Listen(relAddr: Addr, even: Option<bool>, att: nat -> Attempt, i: nat, st: Relay): (r: Listened)
    decreases PORT_TRY_MAX - i
  {
    if i >= PORT_TRY_MAX then Listened(Some(EADDRINUSE), st)
    else
      var a := att(i);
      if a.listen.Some? then Listened(a.listen, st)
      else if a.local.Err? then Listened(Some(a.local.error), st.(relOpen := false))
      else
        var rel := WithPort(relAddr, a.local.value);
        if even.None? then Listened(None, st.(rel := rel, relOpen := true))
        else if a.local.value % 2 == 1 then Listen(relAddr, even, att, i + 1, st.(rel := rel, relOpen := false))
        else if !even.value then Listened(None, st.(rel := rel, relOpen := true))
        else
          var rsv := WithPort(rel, a.local.value + 1);
          if a.rsv.Some? then Listen(relAddr, even, att, i + 1, st.(rel := rel, relOpen := false, rsv := rsv))
          else Listened(None, Relay(rel, true, rsv, true))
  }

  /** What `relay_listen` promises: on success the relay socket is open on
      the relay address's IP, with an even port when EVEN-PORT was given,
      and with R the port above it is reserved with a socket of its own;
      on failure no socket is left open. */
  lemma {:induction false} ListenOutcome(relAddr: Addr, even: Option<bool>, att: nat -> Attempt, i: nat, st: Relay)
    requires !st.relOpen && !st.rsvOpen
    ensures var r := Listen(relAddr, even, att, i, st);
            && (r.err.None? ==> r.relay.relOpen && r.relay.rel.af == relAddr.af && r.relay.rel.ip == relAddr.ip)
            && (r.err.None? && even.Some? ==> r.relay.rel.port % 2 == 0)
            && (r.err.None? && even == Some(true) ==>
                  r.relay.rsvOpen && r.relay.rsv == WithPort(r.relay.rel, r.relay.rel.port + 1))
            && (even != Some(true) ==> !r.relay.rsvOpen)
            && (r.err.Some? ==> !r.relay.relOpen && !r.relay.rsvOpen)
    decreases PORT_TRY_MAX - i
  {
    if i < PORT_TRY_MAX {
      var a := att(i);
      if a.listen.None? && a.local.Ok? && even.Some? {
        var rel := WithPort(relAddr, a.local.value);
        if a.local.value % 2 == 1 {
          ListenOutcome(relAddr, even, att, i + 1, st.(rel := rel, relOpen := false));
        } else if even.value && a.rsv.Some? {
          ListenOutcome(relAddr, even, att, i + 1, st.(rel := rel, relOpen := false, rsv := WithPort(rel, a.local.value + 1)));
        }
      }
    }
  }

  /** When every pass binds an odd port, EVEN-PORT gives up with
      EADDRINUSE. */
  lemma {:induction false} ListenExhausted(relAddr: Addr, even: Option<bool>, att: nat -> Attempt, i: nat, st: Relay)
    requires even.Some?
    requires forall k :: i <= k < PORT_TRY_MAX ==>
               att(k).listen.None? && att(k).local.Ok? && att(k).local.value % 2 == 1
    ensures Listen(relAddr, even, att, i, st).err == Some(EADDRINUSE)
    decreases PORT_TRY_MAX - i
  {
    if i < PORT_TRY_MAX {
      ListenExhausted(relAddr, even, att, i + 1, st.(rel := WithPort(relAddr, att(i).local.value), relOpen := false));
    }
  }

  function RelayOf(al: Allocation): Relay
    reads al
  {
    Relay(al.rel, al.relOpen, al.rsv, al.rsvOpen)
  }

  /** `relay_listen` on a new allocation. */
  method RelayListen(al: Allocation, relAddr: Addr, even: Option<bool>, att: nat -> Attempt)
    returns (err: Option<Errno>)
    modifies al
    requires !al.relOpen && !al.rsvOpen
    ensures Listened(err, RelayOf(al)) == Listen(relAddr, even, att, 0, old(RelayOf(al)))
    ensures al.dropcTx == old(al.dropcTx) && al.dropcRx == old(al.dropcRx) && al.expiresMs == old(al.expiresMs)
  {
    ghost var st0 := RelayOf(al);
    var i := 0;
    err := None;
    while i < PORT_TRY_MAX
      invariant 0 <= i <= PORT_TRY_MAX
      invariant !al.relOpen && !al.rsvOpen
      invariant Listen(relAddr, even, att, 0, st0) == Listen(relAddr, even, att, i, RelayOf(al))
      invariant al.dropcTx == old(al.dropcTx) && al.dropcRx == old(al.dropcRx) && al.expiresMs == old(al.expiresMs)
    {
      var a := att(i);
      err := a.listen;
      if err.Some? {
        break;
      }
      if a.local.Err? {
        err := Some(a.local.error);
        break;
      }
      al.rel := WithPort(relAddr, a.local.value);
      al.relOpen := true;
      if even.None? {
        break;
      }
      if a.local.value % 2 == 1 {
        al.relOpen := false;
        i := i + 1;
        continue;
      }
      if !even.value {
        break;
      }
      al.rsv := WithPort(al.rel, a.local.value + 1);
      err := a.rsv;
      if err.Some? {
        al.relOpen := false;
        i := i + 1;
        continue;
      }
      al.rsvOpen := true;
      break;
    }
    if i == PORT_TRY_MAX {
      err := Some(EADDRINUSE);
    }
  }

  // ---------------------------------------------------------------------
  // Reservation tokens

  /** The RESERVATION-TOKEN of an allocation: the 32-bit hash of the
      client address in the high half, the STUN family code of the
      reserved address in bits 24 to 31 and its port in the low 16 bits. */
  function Token(h: u32, af: byte, port: u16): (tok: u64)
  {
    h * 0x1_0000_0000 + af * 0x100_0000 + port
  }

  /** Division by a power of two splits a value into its high and low
      parts. */
  lemma Split32(q: int, r: int)
    requires 0 <= r < 0x1_0000_0000
    ensures (q * 0x1_0000_0000 + r) / 0x1_0000_0000 == q && (q * 0x1_0000_0000 + r) % 0x1_0000_0000 == r
  {
  }

  lemma Split24(q: int, r: int)
    requires 0 <= r < 0x100_0000
    ensures (q * 0x100_0000 + r) / 0x100_0000 == q
  {
  }

  lemma Split16(q: int, r: int)
    requires 0 <= r < 0x1_0000
    ensures (q * 0x1_0000 + r) % 0x1_0000 == r
  {
  }

  lemma Split8(q: int, r: int)
    requires 0 <= r < 0x100
    ensures (q * 0x100 + r) % 0x100 == r
  {
  }

  /** The three fields read back out of a token. */
  lemma TokenFields(h: u32, af: byte, port: u16)
    ensures Token(h, af, port) / 0x1_0000_0000 == h
    ensures (Token(h, af, port) / 0x100_0000) % 0x100 == af
    ensures Token(h, af, port) % 0x1_0000 == port
  {
    Split32(h, af * 0x100_0000 + port);
    Split24(h * 0x100 + af, port);
    Split8(h, af);
    Split16(h * 0x1_0000 + af * 0x100, port);
  }

  /** `rsvt_handler` on an allocation in the token's hash bucket: the
      reserved address has the token's family code and port.  As written
      the source stops there; `open` adds the evidently intended condition
      that the allocation still holds the reserved socket.  Bucket indices
      are written `% bsize`, which is `& (bsize - 1)` for the power-of-two
      sizes the module configures. */
  predicate Claims(a: Allocation, tok: u64, bsize: nat, hash: AddrHash, open: bool)
    requires bsize >= 1
    reads a
  {
    && hash(a.cli) % bsize == (tok / 0x1_0000_0000) % bsize
    && Stunaf(a.rsv) == (tok / 0x100_0000) % 0x100
    && Port(a.rsv) == tok % 0x1_0000
    && (open ==> a.rsvOpen)
  }

  /** `hash_lookup(ht, rsvt >> 32, rsvt_handler, &rsvt)`: the first
      allocation that `Claims` the token; `|allocs|` when none does. */
  function FindHolder(allocs: seq<Allocation>, tok: u64, bsize: nat, hash: AddrHash, open: bool): (i: nat)
    requires bsize >= 1
    reads allocs
    ensures i <= |allocs|
    ensures i < |allocs| ==> Claims(allocs[i], tok, bsize, hash, open)
    ensures forall j :: 0 <= j < i ==> !Claims(allocs[j], tok, bsize, hash, open)
  {
    if |allocs| == 0 then 0
    else if Claims(allocs[0], tok, bsize, hash, open) then 0
    else 1 + FindHolder(allocs[1..], tok, bsize, hash, open)
  }

  /** The allocation whose reserved socket the request's RESERVATION-TOKEN
      redeems, if any, by the corrected claim: as written an allocation
      without a reservation can also claim the token, see
      `UnreservedClaimedAsWritten`. */
  function TokenHolder(pre: seq<Allocation>, m: Msg, bsize: nat, hash: AddrHash): (h: Option<Allocation>)
    requires bsize >= 1
    reads pre
    ensures h.Some? ==> h.value in pre && h.value.rsvOpen
    ensures RsvTokenOf(m).None? ==> h.None?
  {
    if RsvTokenOf(m).None? then None
    else
      var i := FindHolder(pre, RsvTokenOf(m).value, bsize, hash, true);
      if i < |pre| then Some(pre[i]) else None
  }

  /** The holder a token finds in the table with a new allocation appended
      is the one it finds in the table before. */
  lemma TokenHolderAt(pre: seq<Allocation>, al: Allocation, m: Msg, bsize: nat, hash: AddrHash)
    requires bsize >= 1 && !al.rsvOpen && RsvTokenOf(m).Some? && al !in pre
    ensures var i := FindHolder(pre + [al], RsvTokenOf(m).value, bsize, hash, true);
            var h := TokenHolder(pre, m, bsize, hash);
            && (h.None? <==> i == |pre + [al]|)
            && (h.Some? ==> i < |pre| && (pre + [al])[i] == h.value && h.value != al)
  {
    HolderNotNew(pre, al, RsvTokenOf(m).value, bsize, hash);
  }

  /** The allocation appended last to a table of distinct allocations is
      not among the earlier ones. */
  lemma LastNotEarlier(pre: seq<Allocation>, al: Allocation)
    requires UniqueTuples(pre + [al])
    ensures al !in pre
  {
    var all := pre + [al];
    assert all[|pre|] == al;
    forall k | 0 <= k < |pre|
      ensures pre[k] != al
    {
      assert all[k] == pre[k];
    }
  }

  /** A holder's relay after its reserved socket was handed over. */
  function Surrendered(r: Relay): (s: Relay)
    ensures s.rel == r.rel && s.relOpen == r.relOpen && s.rsv == Unset && !s.rsvOpen
  {
    r.(rsv := Unset, rsvOpen := false)
  }

  /** As written, a token naming family 0 and port 0 is claimed by any
      allocation of its bucket that has reserved nothing, the allocation
      being created included: it then gets no relay socket at all. */
  lemma UnreservedClaimedAsWritten(allocs: seq<Allocation>, k: nat, bsize: nat, hash: AddrHash)
    requires bsize >= 1 && k < |allocs| && allocs[k].rsv.af == Unspec
    ensures FindHolder(allocs, Token(hash(allocs[k].cli), 0, 0), bsize, hash, false) <= k
  {
    TokenFields(hash(allocs[k].cli), 0, 0);
    assert Claims(allocs[k], Token(hash(allocs[k].cli), 0, 0), bsize, hash, false);
  }

  /** The token an allocation was given is redeemed: it is claimed by that
      allocation or by an earlier one holding a reservation with the same
      family and port in the same bucket. */
  lemma ReservationRedeemable(allocs: seq<Allocation>, k: nat, bsize: nat, hash: AddrHash)
    requires bsize >= 1 && k < |allocs| && allocs[k].rsvOpen
    ensures var a := allocs[k];
            FindHolder(allocs, Token(hash(a.cli), Stunaf(a.rsv), Port(a.rsv)), bsize, hash, true) <= k
  {
    var a := allocs[k];
    TokenFields(hash(a.cli), Stunaf(a.rsv), Port(a.rsv));
    assert Claims(a, Token(hash(a.cli), Stunaf(a.rsv), Port(a.rsv)), bsize, hash, true);
  }

  /** `rsvt_listen`, corrected: the holder of the reservation hands its
      reserved socket and address over to the new allocation as its relay,
      and is left without a reservation; ENOENT when no allocation holds
      one for the token. */
  method RsvtListen(t: Turnd, al: Allocation, tok: u64, hash: AddrHash) returns (err: Option<Errno>)
    requires t.bsize >= 1 && !al.rsvOpen
    modifies al, t.allocs
    ensures var i := old(FindHolder(t.allocs, tok, t.bsize, hash, true));
            && (err.None? <==> i < |t.allocs|)
            && (err.Some? ==> err == Some(ENOENT) && al.rel == old(al.rel) && al.relOpen == old(al.relOpen))
            && (err.None? ==>
                  al.rel == old(t.allocs[i].rsv) && al.relOpen && t.allocs[i].rsv == Unset && !t.allocs[i].rsvOpen)
            && (forall a :: a in t.allocs && a != al && (i == |t.allocs| || a != t.allocs[i]) ==> unchanged(a))
    ensures al.rsv == old(al.rsv) && !al.rsvOpen
    ensures al.dropcTx == old(al.dropcTx) && al.dropcRx == old(al.dropcRx) && al.expiresMs == old(al.expiresMs)
    ensures forall a :: a in t.allocs && a != al ==> a.rel == old(a.rel) && a.relOpen == old(a.relOpen)
    ensures forall a :: a in t.allocs ==>
              a.dropcTx == old(a.dropcTx) && a.dropcRx == old(a.dropcRx) && a.expiresMs == old(a.expiresMs)
  {
    var i := FindHolder(t.allocs, tok, t.bsize, hash, true);
    if i == |t.allocs| {
      return Some(ENOENT);
    }
    var alr := t.allocs[i];
    al.relOpen := alr.rsvOpen;
    alr.rsvOpen := false;
    al.rel := alr.rsv;
    alr.rsv := Unset;
    err := None;
  }

  // ---------------------------------------------------------------------
  // Destroying an allocation

  /** The allocation destructor, run when the lifetime timer fires or a
      request that created the allocation fails: the permissions are
      destroyed in order, each logging its traffic; the channels go; the
      allocation leaves the table and the current count; its sockets are
      closed. */
  method Destroy(t: Turnd, al: Allocation, now: Time)
    requires t.Valid() && al in t.allocs
    modifies t, al, al.perms, al.chans, t.chanCount
    ensures t.Valid() && al !in t.allocs
    ensures t.allocs == RemoveAt(old(t.allocs), IndexOf(old(t.allocs), al))
    ensures t.traffic == old(t.traffic) + FarewellAll(old(al.OwnerOf()), old(al.perms.entries), now)
    ensures t.chanCount.cur == Moved(old(t.chanCount.cur), |old(al.chans.entries)|, 0)
    ensures al.perms.entries == [] && al.chans.entries == [] && !al.relOpen && !al.rsvOpen
    ensures al.rel == old(al.rel) && al.rsv == old(al.rsv) && al.expiresMs == old(al.expiresMs)
    ensures al.dropcTx == old(al.dropcTx) && al.dropcRx == old(al.dropcRx)
    ensures t.Stats() == old(t.Stats()) && t.Conf() == old(t.Conf())
  {
    var k := IndexOf(t.allocs, al);
    RemoveUnique(t.allocs, k);
    var log := al.perms.Flush(al.OwnerOf(), now);
    al.chans.Flush();
    t.allocs := RemoveAt(t.allocs, k);
    t.alloccCur := t.alloccCur - 1;
    t.traffic := t.traffic + log;
    al.relOpen, al.rsvOpen := false, false;
  }

  /** `timeout`: the lifetime timer of the allocation fired. */
  method Expire(t: Turnd, al: Allocation, now: Time)
    requires t.Valid() && al in t.allocs
    modifies t, al, al.perms, al.chans, t.chanCount
    ensures t.Valid() && al !in t.allocs
    ensures t.allocs == RemoveAt(old(t.allocs), IndexOf(old(t.allocs), al))
    ensures t.traffic == old(t.traffic) + FarewellAll(old(al.OwnerOf()), old(al.perms.entries), now)
    ensures t.chanCount.cur == Moved(old(t.chanCount.cur), |old(al.chans.entries)|, 0)
    ensures t.Stats() == old(t.Stats()) && t.Conf() == old(t.Conf())
  {
    Destroy(t, al, now);
  }

  // ---------------------------------------------------------------------
  // Allocate

  /** The requested address family: REQUESTED-ADDRESS-FAMILY, IPv4 when
      absent. */
  function ReqAf(m: Msg): byte
  {
    if ReqAfOf(m).Some? then ReqAfOf(m).value else STUN_AF_IPv4
  }

  datatype Admission = Admitted(relAddr: Addr) | Refused(code: int, reason: string, attrs: seq<Attr>)

  /** The checks `allocate_request` makes before creating an allocation,
      in order: a configured relay address of the requested family (440),
      REQUESTED-TRANSPORT present (400) and UDP (442), no DONT-FRAGMENT
      (420, naming it as unknown), and no RESERVATION-TOKEN together with
      EVEN-PORT or REQUESTED-ADDRESS-FAMILY (400). */
  function Admit(rel4: Addr, rel6: Addr, m: Msg): (a: Admission)
    ensures a.Admitted? <==>
              && RelayAddr(rel4, rel6, ReqAf(m)).Some? && IsSet(RelayAddr(rel4, rel6, ReqAf(m)).value, SaAddr)
              && ReqTransportOf(m) == Some(IPPROTO_UDP) && GetAttr(m, ATTR_DONT_FRAGMENT).None?
              && !(RsvTokenOf(m).Some? && (EvenPortOf(m).Some? || ReqAfOf(m).Some?))
    ensures a.Admitted? ==> Some(a.relAddr) == RelayAddr(rel4, rel6, ReqAf(m))
    ensures a.Refused? ==> a.code in {400, 420, 440, 442}
    ensures a.Refused? && a.code != 420 ==> a.attrs == [Software]
    ensures a.Refused? && a.code == 420 ==> a.attrs == [UnknownAttributes([ATTR_DONT_FRAGMENT]), Software]
    ensures a.Refused? && a.code == 440 <==> RelayAddr(rel4, rel6, ReqAf(m)).None? || !IsSet(RelayAddr(rel4, rel6, ReqAf(m)).value, SaAddr)
  {
    var ra := RelayAddr(rel4, rel6, ReqAf(m));
    if ra.None? || !IsSet(ra.value, SaAddr) then Refused(440, "Address Family not Supported", [Software])
    else if ReqTransportOf(m).None? then Refused(400, "Requested Transport Missing", [Software])
    else if ReqTransportOf(m).value != IPPROTO_UDP then Refused(442, "Unsupported Transport Protocol", [Software])
    else if GetAttr(m, ATTR_DONT_FRAGMENT).Some? then
      Refused(420, "Unknown Attribute", [UnknownAttributes([ATTR_DONT_FRAGMENT]), Software])
    else if RsvTokenOf(m).Some? && (EvenPortOf(m).Some? || ReqAfOf(m).Some?) then Refused(400, "Bad Request", [Software])
    else Admitted(ra.value)
  }

  /** The success response to Allocate: the relayed address, the lifetime,
      the reservation token when a reserved socket is held, the client's
      mapped address and SOFTWARE. */
  function AllocReply(proto: Proto, sock: nat, src: Addr, key: Option<seq<byte>>, rel: Addr, l: u32,
                      rsvOpen: bool, rsv: Addr, h: u32): (r: Reply)
    ensures r.body.Success? && r.dest == src && r.key == key && r.proto == proto && r.sock == sock
  {
    var tok := if rsvOpen then [RsvToken(Token(h, Stunaf(rsv), Port(rsv)))] else [];
    Reply(proto, sock, src, key, Success([XorRelayAddr(rel), Lifetime(l)] + tok + [XorMappedAddr(src), Software]))
  }

  /** A client reading the success response finds its relayed address,
      lifetime and mapped address, and a reservation token exactly when a
      reserved socket is held, the token naming that reservation. */
  lemma AllocReplyReadable(proto: Proto, sock: nat, src: Addr, key: Option<seq<byte>>, rel: Addr, l: u32,
                           rsvOpen: bool, rsv: Addr, h: u32)
    ensures var attrs := AllocReply(proto, sock, src, key, rel, l, rsvOpen, rsv, h).body.attrs;
            && Find(attrs, ATTR_XOR_RELAY_ADDR) == Some(XorRelayAddr(rel))
            && Find(attrs, ATTR_LIFETIME) == Some(Lifetime(l))
            && Find(attrs, ATTR_XOR_MAPPED_ADDR) == Some(XorMappedAddr(src))
            && (rsvOpen <==> Find(attrs, ATTR_RSV_TOKEN).Some?)
            && (rsvOpen ==> Find(attrs, ATTR_RSV_TOKEN) == Some(RsvToken(Token(h, Stunaf(rsv), Port(rsv)))))
  {
    var attrs := AllocReply(proto, sock, src, key, rel, l, rsvOpen, rsv, h).body.attrs;
    if rsvOpen {
      ReadFive(attrs, rel, l, Token(h, Stunaf(rsv), Port(rsv)), src);
    } else {
      ReadFour(attrs, rel, l, src);
    }
  }

  lemma ReadFive(attrs: seq<Attr>, rel: Addr, l: u32, tok: u64, src: Addr)
    requires |attrs| == 5 && attrs[0] == XorRelayAddr(rel) && attrs[1] == Lifetime(l)
    requires attrs[2] == RsvToken(tok) && attrs[3] == XorMappedAddr(src) && attrs[4] == Software
    ensures Find(attrs, ATTR_XOR_RELAY_ADDR) == Some(XorRelayAddr(rel))
    ensures Find(attrs, ATTR_LIFETIME) == Some(Lifetime(l))
    ensures Find(attrs, ATTR_RSV_TOKEN) == Some(RsvToken(tok))
    ensures Find(attrs, ATTR_XOR_MAPPED_ADDR) == Some(XorMappedAddr(src))
  {
    FindAt(attrs, 0, ATTR_XOR_RELAY_ADDR);
    FindAt(attrs, 1, ATTR_LIFETIME);
    FindAt(attrs, 2, ATTR_RSV_TOKEN);
    FindAt(attrs, 3, ATTR_XOR_MAPPED_ADDR);
  }

  lemma ReadFour(attrs: seq<Attr>, rel: Addr, l: u32, src: Addr)
    requires |attrs| == 4 && attrs[0] == XorRelayAddr(rel) && attrs[1] == Lifetime(l)
    requires attrs[2] == XorMappedAddr(src) && attrs[3] == Software
    ensures Find(attrs, ATTR_XOR_RELAY_ADDR) == Some(XorRelayAddr(rel))
    ensures Find(attrs, ATTR_LIFETIME) == Some(Lifetime(l))
    ensures Find(attrs, ATTR_RSV_TOKEN).None?
    ensures Find(attrs, ATTR_XOR_MAPPED_ADDR) == Some(XorMappedAddr(src))
  {
    FindAt(attrs, 0, ATTR_XOR_RELAY_ADDR);
    FindAt(attrs, 1, ATTR_LIFETIME);
    FindAt(attrs, 2, ATTR_XOR_MAPPED_ADDR);
    assert forall j :: 0 <= j < |attrs| ==> TypeOf(attrs[j]) != ATTR_RSV_TOKEN;
  }

  /** The 5-tuple's allocation, as `allocation_find` returns it. */
  function Existing(allocs: seq<Allocation>, proto: Proto, src: Addr, dst: Addr): Option<Allocation>
  {
    var i := FindTuple(allocs, proto, src, dst);
    if i < |allocs| then Some(allocs[i]) else None
  }

  /** The response `allocate_request` sends, from the table and the
      configuration before the request: the retransmission answer or 437
      for an existing allocation, the refusal of `Admit`, 508 when no relay
      socket can be had, and otherwise the success response for the relay
      `Relayed` names. */
  function AllocateAnswer(allocs: seq<Allocation>, conf: TurnConf, ctx: MsgCtx, proto: Proto, sock: nat,
                          src: Addr, dst: Addr, m: Msg, nowMs: int, hash: AddrHash, att: nat -> Attempt): Reply
    requires conf.bsize >= 1
    reads allocs
  {
    var alx := Existing(allocs, proto, src, dst);
    if alx.Some? then
      if alx.value.tid == m.tid && proto == Udp then
        AllocReply(proto, sock, src, ctx.key, alx.value.rel, Remaining(alx.value.expiresMs, nowMs),
                   alx.value.rsvOpen, alx.value.rsv, hash(src))
      else ErrorReply(proto, sock, src, ctx, 437, "Allocation Mismatch")
    else
      var a := Admit(conf.relAddr, conf.relAddr6, m);
      if a.Refused? then Reply(proto, sock, src, ctx.key, Failure(a.code, a.reason, a.attrs))
      else
        var f := Relayed(allocs, m, a.relAddr, att, conf.bsize, hash);
        if f.err.Some? then ErrorReply(proto, sock, src, ctx, 508, "Insufficient Port Capacity")
        else AllocReply(proto, sock, src, ctx.key, f.relay.rel, AllocLifetime(LifetimeOf(m), conf.lifetimeMax),
                        f.relay.rsvOpen, f.relay.rsv, hash(src))
  }

  /** An Allocate request succeeds exactly when it retransmits the request
      of the 5-tuple's allocation over UDP, or when no allocation exists,
      the request is admitted and a relay socket is had; every other answer
      is an error with one of the codes of `allocate_request`, sent to the
      client under the request's key. */
  lemma AllocateOutcome(allocs: seq<Allocation>, conf: TurnConf, ctx: MsgCtx, proto: Proto, sock: nat,
                        src: Addr, dst: Addr, m: Msg, nowMs: int, hash: AddrHash, att: nat -> Attempt)
    requires conf.bsize >= 1
    ensures var r := AllocateAnswer(allocs, conf, ctx, proto, sock, src, dst, m, nowMs, hash, att);
            var alx := Existing(allocs, proto, src, dst);
            var a := Admit(conf.relAddr, conf.relAddr6, m);
            && r.dest == src && r.key == ctx.key && r.proto == proto && r.sock == sock
            && (r.body.Success? <==>
                  (alx.Some? && alx.value.tid == m.tid && proto == Udp)
                  || (alx.None? && a.Admitted? && Relayed(allocs, m, a.relAddr, att, conf.bsize, hash).err.None?))
            && (!r.body.Success? ==> r.body.Failure? && r.body.code in {400, 420, 437, 440, 442, 508})
  {
  }

  /** The allocation an Allocate request takes a reserved socket from: the
      holder of its token, by the corrected claim, when the request creates
      an allocation. */
  function Redeemed(allocs: seq<Allocation>, conf: TurnConf, proto: Proto, src: Addr, dst: Addr, m: Msg,
                    hash: AddrHash): (h: Option<Allocation>)
    requires conf.bsize >= 1
    reads allocs
    ensures h.Some? ==> h.value in allocs && h.value.rsvOpen && RsvTokenOf(m).Some?
  {
    if Existing(allocs, proto, src, dst).None? && Admit(conf.relAddr, conf.relAddr6, m).Admitted?
    then TokenHolder(allocs, m, conf.bsize, hash)
    else None
  }

  /** `allocate_request`.  An allocation that exists for the 5-tuple is
      answered again when the request is a UDP retransmission (same
      transaction ID), with the seconds left of its lifetime, and refused
      with 437 otherwise.  Without one the request is checked (`Admit`)
      and a new allocation created (`NewAllocation`). */
  method AllocateRequest(t: Turnd, ctx: MsgCtx, proto: Proto, sock: nat, src: Addr, dst: Addr, m: Msg,
                         now: Time, nowMs: int, hash: AddrHash, att: nat -> Attempt, sendOk: bool)
    returns (r: Reply)
    requires t.Valid()
    modifies t, t.allocs, t.chanCount
    ensures t.Valid() && t.Conf() == old(t.Conf()) && t.traffic == old(t.traffic)
    ensures t.chanCount.cur == old(t.chanCount.cur)
    ensures r == old(AllocateAnswer(t.allocs, t.Conf(), ctx, proto, sock, src, dst, m, nowMs, hash, att))
    ensures var h := old(Redeemed(t.allocs, t.Conf(), proto, src, dst, m, hash));
            && (forall a :: a in old(t.allocs) && Some(a) != h ==> unchanged(a, a.perms, a.chans))
            && (h.Some? ==>
                  RelayOf(h.value) == old(Surrendered(RelayOf(h.value))) && h.value.expiresMs == old(h.value.expiresMs)
                  && h.value.dropcTx == old(h.value.dropcTx) && h.value.dropcRx == old(h.value.dropcRx)
                  && unchanged(h.value.perms, h.value.chans))
    ensures Existing(old(t.allocs), proto, src, dst).None? && Admit(t.relAddr, t.relAddr6, m).Admitted? ==>
              var f := old(Relayed(t.allocs, m, Admit(t.relAddr, t.relAddr6, m).relAddr, att, t.bsize, hash));
              var n := |old(t.allocs)|;
              && (f.err.None? && sendOk ==>
                    && |t.allocs| == n + 1 && t.allocs[..n] == old(t.allocs) && fresh(t.allocs[n])
                    && t.allocs[n].tid == m.tid && t.allocs[n].cli == src && t.allocs[n].srv == dst
                    && t.allocs[n].proto == proto && t.allocs[n].cliSock == sock
                    && t.allocs[n].username == UsernameOf(m) && RelayOf(t.allocs[n]) == f.relay
                    && t.allocs[n].expiresMs == nowMs + TimerDelay(AllocLifetime(LifetimeOf(m), t.lifetimeMax)))
              && (f.err.Some? || !sendOk ==> t.allocs == old(t.allocs))
    ensures var alx := Existing(old(t.allocs), proto, src, dst);
            && (alx.Some? && alx.value.tid == m.tid && proto == Udp ==>
                  r == old(AllocReply(proto, sock, src, ctx.key, alx.value.rel, Remaining(alx.value.expiresMs, nowMs),
                                      alx.value.rsvOpen, alx.value.rsv, hash(src)))
                  && t.allocs == old(t.allocs) && t.Stats() == old(t.Stats()))
            && (alx.Some? && !(alx.value.tid == m.tid && proto == Udp) ==>
                  r == ErrorReply(proto, sock, src, ctx, 437, "Allocation Mismatch")
                  && t.allocs == old(t.allocs) && t.Stats() == old(t.Stats()))
            && (alx.None? && Admit(t.relAddr, t.relAddr6, m).Refused? ==>
                  var a := Admit(t.relAddr, t.relAddr6, m);
                  r == Reply(proto, sock, src, ctx.key, Failure(a.code, a.reason, a.attrs))
                  && t.allocs == old(t.allocs) && t.Stats() == old(t.Stats()))
            && (alx.None? && Admit(t.relAddr, t.relAddr6, m).Admitted? ==>
                  t.Stats() == old(t.Stats()).(alloccTot := Add64(old(t.alloccTot), 1)))
  {
    var i := FindTuple(t.allocs, proto, src, dst);
    if i < |t.allocs| {
      var alx := t.allocs[i];
      if alx.tid == m.tid && proto == Udp {
        r := AllocReply(proto, sock, src, ctx.key, alx.rel, Remaining(alx.expiresMs, nowMs), alx.rsvOpen, alx.rsv, hash(src));
      } else {
        r := ErrorReply(proto, sock, src, ctx, 437, "Allocation Mismatch");
      }
      return;
    }
    var a := Admit(t.relAddr, t.relAddr6, m);
    if a.Refused? {
      return Reply(proto, sock, src, ctx.key, Failure(a.code, a.reason, a.attrs));
    }
    var al;
    r, al := NewAllocation(t, ctx, proto, sock, src, dst, m, a.relAddr, now, nowMs, hash, att, sendOk);
  }

  /** The relay a new allocation gets without a token. */
  function Fresh(relAddr: Addr, m: Msg, att: nat -> Attempt): Listened
  {
    Listen(relAddr, EvenPortOf(m), att, 0, Relay(Unset, false, Unset, false))
  }

  /** The second half of `allocate_request`: the allocation is created
      (`Create`), given its relay socket (`OpenRelay`), and the success
      response sent.  Without a relay socket the answer is 508 and the
      allocation is destroyed again, as it is when the success response
      cannot be sent. */
  method NewAllocation(t: Turnd, ctx: MsgCtx, proto: Proto, sock: nat, src: Addr, dst: Addr, m: Msg,
                       relAddr: Addr, now: Time, nowMs: int, hash: AddrHash, att: nat -> Attempt, sendOk: bool)
    returns (r: Reply, al: Allocation)
    requires t.Valid() && FindTuple(t.allocs, proto, src, dst) == |t.allocs|
    modifies t, t.allocs, t.chanCount
    ensures fresh(al) && t.Valid() && t.Conf() == old(t.Conf()) && t.traffic == old(t.traffic)
    ensures t.chanCount.cur == old(t.chanCount.cur)
    ensures t.Stats() == old(t.Stats()).(alloccTot := Add64(old(t.alloccTot), 1))
    ensures al.tid == m.tid && al.cli == src && al.srv == dst && al.proto == proto && al.cliSock == sock
    ensures al.username == UsernameOf(m) && al.expiresMs == nowMs + TimerDelay(AllocLifetime(LifetimeOf(m), t.lifetimeMax))
    ensures var f := old(Relayed(t.allocs, m, relAddr, att, t.bsize, hash));
            && (f.err.Some? ==> r == ErrorReply(proto, sock, src, ctx, 508, "Insufficient Port Capacity"))
            && (f.err.None? ==>
                  r == AllocReply(proto, sock, src, ctx.key, f.relay.rel, AllocLifetime(LifetimeOf(m), t.lifetimeMax),
                                  f.relay.rsvOpen, f.relay.rsv, hash(src)))
            && (f.err.None? && sendOk ==> t.allocs == old(t.allocs) + [al] && RelayOf(al) == f.relay)
            && (f.err.Some? || !sendOk ==> t.allocs == old(t.allocs) && !al.relOpen && !al.rsvOpen)
    ensures var h := old(TokenHolder(t.allocs, m, t.bsize, hash));
            && (forall a :: a in old(t.allocs) && Some(a) != h ==> unchanged(a, a.perms, a.chans))
            && (h.Some? ==>
                  RelayOf(h.value) == old(Surrendered(RelayOf(h.value))) && h.value.expiresMs == old(h.value.expiresMs)
                  && h.value.dropcTx == old(h.value.dropcTx) && h.value.dropcRx == old(h.value.dropcRx)
                  && unchanged(h.value.perms, h.value.chans))
  {
    var l := AllocLifetime(LifetimeOf(m), t.lifetimeMax);
    ghost var pre := t.allocs;
    ghost var f := Relayed(pre, m, relAddr, att, t.bsize, hash);
    ghost var h := TokenHolder(pre, m, t.bsize, hash);
    al := Create(t, proto, src, dst, sock, m, nowMs + TimerDelay(l));
    assert Relayed(pre, m, relAddr, att, t.bsize, hash) == f;
    assert TokenHolder(pre, m, t.bsize, hash) == h;
    r := Settle(t, al, ctx, proto, sock, src, m, relAddr, l, now, hash, att, sendOk, pre);
  }

  /** The new allocation, appended to the table, gets its relay socket
      (`OpenRelay`) and the answer is sent (`Respond`). */
  method Settle(t: Turnd, al: Allocation, ctx: MsgCtx, proto: Proto, sock: nat, src: Addr, m: Msg,
                relAddr: Addr, l: u32, now: Time, hash: AddrHash, att: nat -> Attempt, sendOk: bool,
                ghost pre: seq<Allocation>)
    returns (r: Reply)
    requires t.Valid() && t.allocs == pre + [al] && RelayOf(al) == Relay(Unset, false, Unset, false)
    requires al.perms.entries == [] && al.chans.entries == []
    modifies t, al, t.allocs, al.perms, al.chans, t.chanCount
    ensures t.Valid() && t.Conf() == old(t.Conf()) && t.traffic == old(t.traffic) && t.Stats() == old(t.Stats())
    ensures t.chanCount.cur == old(t.chanCount.cur)
    ensures al.expiresMs == old(al.expiresMs)
    ensures var f := old(Relayed(pre, m, relAddr, att, t.bsize, hash));
            && (f.err.Some? ==> r == ErrorReply(proto, sock, src, ctx, 508, "Insufficient Port Capacity"))
            && (f.err.None? ==>
                  r == AllocReply(proto, sock, src, ctx.key, f.relay.rel, l, f.relay.rsvOpen, f.relay.rsv, hash(src)))
            && (f.err.None? && sendOk ==> t.allocs == old(t.allocs) && RelayOf(al) == f.relay)
            && (f.err.Some? || !sendOk ==> t.allocs == pre && !al.relOpen && !al.rsvOpen)
    ensures var h := old(TokenHolder(pre, m, t.bsize, hash));
            && (forall a :: a in pre && Some(a) != h ==> unchanged(a, a.perms, a.chans))
            && (h.Some? ==>
                  RelayOf(h.value) == old(Surrendered(RelayOf(h.value))) && h.value.expiresMs == old(h.value.expiresMs)
                  && h.value.dropcTx == old(h.value.dropcTx) && h.value.dropcRx == old(h.value.dropcRx)
                  && unchanged(h.value.perms, h.value.chans))
  {
    ghost var f := Relayed(pre, m, relAddr, att, t.bsize, hash);
    var err := OpenRelay(t, al, m, relAddr, hash, att, pre);
    assert Listened(err, RelayOf(al)) == f;
    r := Respond(t, al, err, ctx, proto, sock, src, l, now, hash, sendOk, pre);
  }

  /** What opening the relay socket of a new allocation gives, from the
      table before the allocation was added: the socket `relay_listen`
      binds, or the reserved socket of the allocation holding the token,
      ENOENT when none holds it.  The holder is found by the corrected
      claim (an open reservation), see `UnreservedClaimedAsWritten`. */
  function Relayed(pre: seq<Allocation>, m: Msg, relAddr: Addr, att: nat -> Attempt, bsize: nat, hash: AddrHash): Listened
    requires bsize >= 1
    reads pre
  {
    if RsvTokenOf(m).None? then Fresh(relAddr, m, att)
    else
      var i := FindHolder(pre, RsvTokenOf(m).value, bsize, hash, true);
      if i < |pre| then Listened(None, Relay(pre[i].rsv, true, Unset, false))
      else Listened(Some(ENOENT), Relay(Unset, false, Unset, false))
  }

  /** A new allocation holds no reservation, so appending it leaves the
      holder of a token where it was. */
  lemma HolderNotNew(allocs: seq<Allocation>, al: Allocation, tok: u64, bsize: nat, hash: AddrHash)
    requires bsize >= 1 && !al.rsvOpen
    ensures var i := FindHolder(allocs, tok, bsize, hash, true);
            var j := FindHolder(allocs + [al], tok, bsize, hash, true);
            (i < |allocs| ==> j == i) && (i == |allocs| ==> j == |allocs| + 1)
  {
    assert forall k :: 0 <= k < |allocs| ==> (allocs + [al])[k] == allocs[k];
  }

  /** The end of `allocate_request` for a new allocation: 508 and the
      allocation destroyed without a relay socket; otherwise the success
      response, and the allocation destroyed when it cannot be sent. */
  method Respond(t: Turnd, al: Allocation, err: Option<Errno>, ctx: MsgCtx, proto: Proto, sock: nat, src: Addr,
                 l: u32, now: Time, hash: AddrHash, sendOk: bool, ghost pre: seq<Allocation>)
    returns (r: Reply)
    requires t.Valid() && t.allocs == pre + [al]
    requires al.perms.entries == [] && al.chans.entries == [] && (err.None? ==> al.relOpen)
    requires err.Some? ==> !al.relOpen && !al.rsvOpen
    modifies t, al, al.perms, al.chans, t.chanCount
    ensures t.Valid() && t.Conf() == old(t.Conf()) && t.Stats() == old(t.Stats()) && t.traffic == old(t.traffic)
    ensures t.chanCount.cur == old(t.chanCount.cur)
    ensures al.rel == old(al.rel) && al.rsv == old(al.rsv) && al.expiresMs == old(al.expiresMs)
    ensures err.Some? ==> r == ErrorReply(proto, sock, src, ctx, 508, "Insufficient Port Capacity")
    ensures err.None? ==> r == AllocReply(proto, sock, src, ctx.key, old(al.rel), l, old(al.rsvOpen), old(al.rsv), hash(src))
    ensures err.None? && sendOk ==> t.allocs == old(t.allocs) && RelayOf(al) == old(RelayOf(al))
    ensures err.Some? || !sendOk ==> t.allocs == pre && !al.relOpen && !al.rsvOpen
    ensures forall a :: a in pre ==> unchanged(a, a.perms, a.chans)
  {
    var k := |t.allocs| - 1;
    MovedNone(t.chanCount.cur, 0);
    assert IndexOf(t.allocs, al) == k by {
      assert t.allocs[k] == al;
    }
    LastNotEarlier(pre, al);
    TablesOf(t, al);
    assert forall a :: a in pre ==> a in t.allocs && a != al;
    if err.Some? {
      r := ErrorReply(proto, sock, src, ctx, 508, "Insufficient Port Capacity");
      Destroy(t, al, now);
      return;
    }
    r := AllocReply(proto, sock, src, ctx.key, al.rel, l, al.rsvOpen, al.rsv, hash(src));
    if !sendOk {
      Destroy(t, al, now);
    }
  }

  /** `mem_zalloc` and `hash_append` in `allocate_request`: a new, empty
      allocation for the 5-tuple joins the table and both counters. */
  method Create(t: Turnd, proto: Proto, src: Addr, dst: Addr, sock: nat, m: Msg, expiresMs: int)
    returns (al: Allocation)
    requires t.Valid() && FindTuple(t.allocs, proto, src, dst) == |t.allocs|
    modifies t
    ensures fresh(al) && fresh(al.perms) && fresh(al.chans) && t.Valid()
    ensures t.allocs == old(t.allocs) + [al] && t.traffic == old(t.traffic) && t.Conf() == old(t.Conf())
    ensures t.Stats() == old(t.Stats()).(alloccTot := Add64(old(t.alloccTot), 1))
    ensures al.tid == m.tid && al.cli == src && al.srv == dst && al.proto == proto && al.cliSock == sock
    ensures al.username == UsernameOf(m) && al.expiresMs == expiresMs
    ensures al.perms.entries == [] && al.chans.entries == []
    ensures RelayOf(al) == Relay(Unset, false, Unset, false)
  {
    al := new Allocation(m.tid, src, dst, proto, sock, UsernameOf(m), expiresMs, t.chanCount);
    AppendUnique(t.allocs, al);
    t.allocs := t.allocs + [al];
    t.alloccTot := Add64(t.alloccTot, 1);
    t.alloccCur := t.alloccCur + 1;
  }

  /** The relay socket of a new allocation: the reserved socket a
      RESERVATION-TOKEN names (by the corrected claim), or a new one. */
  method OpenRelay(t: Turnd, al: Allocation, m: Msg, relAddr: Addr, hash: AddrHash, att: nat -> Attempt,
                   ghost pre: seq<Allocation>)
    returns (err: Option<Errno>)
    requires t.Valid() && t.allocs == pre + [al] && RelayOf(al) == Relay(Unset, false, Unset, false)
    modifies al, t.allocs
    ensures al.dropcTx == old(al.dropcTx) && al.dropcRx == old(al.dropcRx) && al.expiresMs == old(al.expiresMs)
    ensures Listened(err, RelayOf(al)) == old(Relayed(pre, m, relAddr, att, t.bsize, hash))
    ensures t.Valid() && al.perms.entries == old(al.perms.entries)
    ensures err.None? ==> al.relOpen
    ensures err.Some? ==> !al.relOpen && !al.rsvOpen
    ensures var h := old(TokenHolder(pre, m, t.bsize, hash));
            && (forall a :: a in pre && Some(a) != h ==> unchanged(a))
            && (h.Some? ==>
                  RelayOf(h.value) == old(Surrendered(RelayOf(h.value))) && h.value.expiresMs == old(h.value.expiresMs)
                  && h.value.dropcTx == old(h.value.dropcTx) && h.value.dropcRx == old(h.value.dropcRx))
    ensures forall a :: a in t.allocs ==> unchanged(a.perms, a.chans)
  {
    if RsvTokenOf(m).Some? {
      err := Redeem(t, al, m, hash, pre);
    } else {
      LastNotEarlier(pre, al);
      err := RelayListen(al, relAddr, EvenPortOf(m), att);
      ListenOutcome(relAddr, EvenPortOf(m), att, 0, Relay(Unset, false, Unset, false));
    }
  }

  /** The relay socket of a new allocation whose request carries a
      RESERVATION-TOKEN: the holder's reserved socket, which the holder
      loses, or ENOENT when no allocation holds the reservation.  The
      holder is found by the corrected claim of `RsvtListen`. */
  method Redeem(t: Turnd, al: Allocation, m: Msg, hash: AddrHash, ghost pre: seq<Allocation>)
    returns (err: Option<Errno>)
    requires t.Valid() && t.allocs == pre + [al] && RelayOf(al) == Relay(Unset, false, Unset, false)
    requires RsvTokenOf(m).Some?
    modifies al, t.allocs
    ensures al.dropcTx == old(al.dropcTx) && al.dropcRx == old(al.dropcRx) && al.expiresMs == old(al.expiresMs)
    ensures var h := old(TokenHolder(pre, m, t.bsize, hash));
            && (h.None? ==> err == Some(ENOENT) && RelayOf(al) == old(RelayOf(al)))
            && (h.Some? ==> err.None? && RelayOf(al) == Relay(old(h.value.rsv), true, Unset, false))
            && (forall a :: a in pre && Some(a) != h ==> unchanged(a))
            && (h.Some? ==>
                  RelayOf(h.value) == old(Surrendered(RelayOf(h.value))) && h.value.expiresMs == old(h.value.expiresMs)
                  && h.value.dropcTx == old(h.value.dropcTx) && h.value.dropcRx == old(h.value.dropcRx))
    ensures t.Valid()
  {
    LastNotEarlier(pre, al);
    ghost var h := TokenHolder(pre, m, t.bsize, hash);
    TokenHolderAt(pre, al, m, t.bsize, hash);
    ghost var i := FindHolder(t.allocs, RsvTokenOf(m).value, t.bsize, hash, true);
    err := RsvtListen(t, al, RsvTokenOf(m).value, hash);
    forall a | a in pre && Some(a) != h
      ensures unchanged(a)
    {
      assert a in t.allocs && a != al && (i == |t.allocs| || a != t.allocs[i]);
    }
  }

  // ---------------------------------------------------------------------
  // Refresh

  /** The REQUESTED-ADDRESS-FAMILY of a Refresh request names a family
      other than the relayed address's. */
  predicate FamilyMismatch(al: Allocation, m: Msg)
    reads al
  {
    ReqAfOf(m).Some? && ReqAfOf(m).value != Stunaf(al.rel)
  }

  /** `refresh_request`: 443 when the requested family differs from the
      relayed address's; otherwise the lifetime timer restarts with the
      granted lifetime (0 lets it fire at once, which destroys the
      allocation) and the response reports that lifetime.  A reply that
      cannot be sent is only logged. */
  method RefreshRequest(t: Turnd, al: Allocation, ctx: MsgCtx, proto: Proto, sock: nat, src: Addr, m: Msg,
                        nowMs: int)
    returns (r: Reply)
    modifies al
    ensures FamilyMismatch(al, m) ==>
      r == ErrorReply(proto, sock, src, ctx, 443, "Peer Address Family Mismatch") && al.expiresMs == old(al.expiresMs)
    ensures !FamilyMismatch(al, m) ==>
      var l := RefreshLifetime(LifetimeOf(m), t.lifetimeMax);
      && r == Reply(proto, sock, src, ctx.key, Success([Lifetime(l), Software]))
      && al.expiresMs == nowMs + TimerDelay(l)
      && (l <= 4294967 ==> Remaining(al.expiresMs, nowMs) == l)
      && (LifetimeOf(m) == Some(0) ==> al.expiresMs == nowMs)
    ensures RelayOf(al) == old(RelayOf(al)) && al.dropcTx == old(al.dropcTx) && al.dropcRx == old(al.dropcRx)
  {
    if ReqAfOf(m).Some? && ReqAfOf(m).value != Stunaf(al.rel) {
      return ErrorReply(proto, sock, src, ctx, 443, "Peer Address Family Mismatch");
    }
    var l := RefreshLifetime(LifetimeOf(m), t.lifetimeMax);
    al.expiresMs := nowMs + TimerDelay(l);
    if l <= 4294967 {
      ReplayLifetime(l, nowMs, nowMs);
    }
    r := Reply(proto, sock, src, ctx.key, Success([Lifetime(l), Software]));
  }

  // ---------------------------------------------------------------------
  // Data from a peer

  /** The zero bytes that pad a ChannelData message on a stream transport
      to a multiple of four bytes (section 11.5 of RFC 5766). */
  function Pad(len: nat): (p: nat)
    ensures p < 4 && (len + p) % 4 == 0
  {
    (4 - len % 4) % 4
  }

  function Zeros(n: nat): (z: seq<byte>)
    ensures |z| == n && forall i :: 0 <= i < n ==> z[i] == 0
  {
    seq(n, _ => 0)
  }

  /** A ChannelData message: the channel number and the data length as
      16-bit big-endian fields, the data, and on TCP the padding. */
  function ChannelFrame(numb: u16, data: seq<byte>, tcp: bool): seq<byte>
    requires |data| < 0x10000
  {
    WriteU16(numb) + WriteU16(|data| as u16) + data + (if tcp then Zeros(Pad(|data|)) else [])
  }

  /** The frame `udp_recv` builds in front of and behind the datagram: the
      4-byte header, then on TCP zero bytes written while the 16-bit length
      counter is not a multiple of four. */
  method Frame(numb: u16, data: seq<byte>, tcp: bool) returns (f: seq<byte>)
    requires |data| < 0x10000
    ensures f == ChannelFrame(numb, data, tcp)
  {
    var len: u16 := |data| as u16;
    f := WriteU16(numb) + WriteU16(len) + data;
    if tcp {
      var pad := 0;
      while len % 4 != 0
        invariant pad <= Pad(|data|)
        invariant len == (|data| + pad) % 0x10000
        invariant f == WriteU16(numb) + WriteU16(|data| as u16) + data + Zeros(pad)
        decreases Pad(|data|) - pad
      {
        assert pad != Pad(|data|);
        f := f + [0];
        pad := pad + 1;
        len := (len + 1) % 0x10000;
      }
    }
  }

  /** A ChannelData frame reads back as what it was built from: the channel
      number, the length, the data after the header, and on TCP a length
      that is a multiple of four. */
  lemma ChannelFrameParse(numb: u16, data: seq<byte>, tcp: bool)
    requires |data| < 0x10000
    ensures var f := ChannelFrame(numb, data, tcp);
            && |f| >= 4 && ReadU16(f, 0) == numb && ReadU16(f, 2) == |data|
            && 4 + |data| <= |f| && f[4..4 + |data|] == data
            && (tcp ==> |f| % 4 == 0 && |f| == 4 + |data| + Pad(|data|))
            && (!tcp ==> |f| == 4 + |data|)
  {
    var f := ChannelFrame(numb, data, tcp);
    U16RoundTrip(numb, f, 0);
    U16RoundTrip(|data| as u16, f, 0);
    assert f[..2] == WriteU16(numb);
    assert f[2..4] == WriteU16(|data| as u16);
    assert f[4..4 + |data|] == data;
  }

  /** The bytes `udp_recv` counts for a datagram relayed to the client:
      the data, plus the padding of a ChannelData frame on TCP. */
  function RxBytes(proto: Proto, numb: Option<u16>, data: seq<byte>): (n: u64)
    requires |data| < 0x10000
    ensures n <= |data| + 3
  {
    if numb.Some? && proto == Tcp then |data| + Pad(|data|) else |data|
  }

  /** What `udp_recv` sends the client: a ChannelData frame when a channel
      is bound to the peer, otherwise a Data indication carrying the peer's
      address and the data, without integrity. */
  function ToClient(proto: Proto, sock: nat, cli: Addr, numb: Option<u16>, src: Addr, data: seq<byte>): (r: Reply)
    requires |data| < 0x10000
    ensures r.proto == proto && r.sock == sock && r.dest == cli && r.key.None?
    ensures numb.Some? ==> r.body == Raw(ChannelFrame(numb.value, data, proto == Tcp))
                           && |r.body.bytes| == 4 + RxBytes(proto, numb, data)
    ensures numb.None? ==> r.body == DataIndication([XorPeerAddr(src), DataAttr(data)])
  {
    if numb.Some? then
      ChannelFrameParse(numb.value, data, proto == Tcp);
      Reply(proto, sock, cli, None, Raw(ChannelFrame(numb.value, data, proto == Tcp)))
    else Reply(proto, sock, cli, None, DataIndication([XorPeerAddr(src), DataAttr(data)]))
  }

  /** The message `udp_recv` builds for the client, as `ToClient` states
      it. */
  method BuildToClient(proto: Proto, sock: nat, cli: Addr, numb: Option<u16>, src: Addr, data: seq<byte>)
    returns (r: Reply)
    requires |data| < 0x10000
    ensures r == ToClient(proto, sock, cli, numb, src, data)
  {
    if numb.Some? {
      var f := Frame(numb.value, data, proto == Tcp);
      r := Reply(proto, sock, cli, None, Raw(f));
    } else {
      r := Reply(proto, sock, cli, None, DataIndication([XorPeerAddr(src), DataAttr(data)]));
    }
  }

  /** A TCP client whose send queue holds more than `TCP_MAX_TXQSZ` bytes. */
  predicate Congested(proto: Proto, txqsz: nat)
  {
    proto == Tcp && txqsz > TCP_MAX_TXQSZ
  }

  /** `udp_recv`: a datagram from `src` on the relayed address.  It is
      dropped (counted in `dropcRx`) when the client's TCP queue is
      congested or no live permission exists for the peer's IP address;
      otherwise it is relayed as `ToClient` states, and counted as sent or
      failed.  `txqsz` is `tcp_conn_txqsz` of the client connection and
      `sendOk` whether the transport accepted the message. */
  method PeerData(t: Turnd, al: Allocation, src: Addr, data: seq<byte>, now: Time, txqsz: nat, sendOk: bool)
    returns (out: Option<Reply>)
    requires t.Valid() && al in t.allocs && |data| < 0x10000
    modifies t, al.perms, al.chans, al, t.chanCount
    ensures t.Valid() && t.allocs == old(t.allocs) && t.Conf() == old(t.Conf())
    ensures t.chanCount.cur == Moved(old(t.chanCount.cur), |old(al.chans.entries)|, |al.chans.entries|)
    ensures t.bytecTx == old(t.bytecTx) && t.errcTx == old(t.errcTx) && t.alloccTot == old(t.alloccTot)
    ensures RelayOf(al) == old(RelayOf(al)) && al.expiresMs == old(al.expiresMs) && al.dropcTx == old(al.dropcTx)
    ensures Congested(al.proto, txqsz) ==>
      && out.None? && al.dropcRx == Add64(old(al.dropcRx), 1) && t.traffic == old(t.traffic)
      && al.perms.entries == old(al.perms.entries) && al.chans.entries == old(al.chans.entries)
      && t.bytecRx == old(t.bytecRx) && t.errcRx == old(t.errcRx)
    ensures !Congested(al.proto, txqsz) ==>
      var pf := Lookup(old(al.perms.entries), src, old(al.OwnerOf()), now);
      && t.traffic == old(t.traffic) + pf.log
      && (pf.at.None? ==>
            && out.None? && al.dropcRx == Add64(old(al.dropcRx), 1) && al.perms.entries == pf.rest
            && al.chans.entries == old(al.chans.entries) && t.bytecRx == old(t.bytecRx) && t.errcRx == old(t.errcRx))
      && (pf.at.Some? ==>
            var cf := PeerLookup(old(al.chans.entries), src, now);
            var numb := if cf.at.Some? then Some(cf.rest[cf.at.value].numb) else None;
            var n := RxBytes(al.proto, numb, data);
            && al.dropcRx == old(al.dropcRx) && al.chans.entries == cf.rest
            && out == Some(ToClient(al.proto, al.cliSock, al.cli, numb, src, data))
            && (sendOk ==> al.perms.entries == Counted(pf.rest, pf.at.value, false, n)
                           && t.bytecRx == Add64(old(t.bytecRx), n) && t.errcRx == old(t.errcRx))
            && (!sendOk ==> al.perms.entries == pf.rest
                            && t.bytecRx == old(t.bytecRx) && t.errcRx == Add64(old(t.errcRx), 1)))
  {
    MovedNone(t.chanCount.cur, |al.chans.entries|);
    if al.proto == Tcp && txqsz > TCP_MAX_TXQSZ {
      al.dropcRx := Add64(al.dropcRx, 1);
      return None;
    }
    TablesOf(t, al);
    var i, log := al.perms.Find(src, al.OwnerOf(), now);
    t.traffic := t.traffic + log;
    if i.None? {
      al.dropcRx := Add64(al.dropcRx, 1);
      return None;
    }
    out := Deliver(t, al, i.value, src, data, now, sendOk);
  }

  /** The tables of a member of a valid allocation table are its own. */
  lemma TablesOf(t: Turnd, al: Allocation)
    requires t.Valid() && al in t.allocs
    ensures al.perms.Valid() && al.chans.Valid()
    ensures forall a :: a in t.allocs && a != al ==> a.perms != al.perms && a.chans != al.chans
  {
  }

  /** The part of `udp_recv` after the permission check: the channel
      lookup, the message to the client and the counters. */
  method Deliver(t: Turnd, al: Allocation, k: nat, src: Addr, data: seq<byte>, now: Time, sendOk: bool)
    returns (out: Option<Reply>)
    requires t.Valid() && al in t.allocs && |data| < 0x10000 && k < |al.perms.entries|
    modifies t, al.perms, al.chans, t.chanCount
    ensures t.Valid() && t.allocs == old(t.allocs) && t.Conf() == old(t.Conf()) && t.traffic == old(t.traffic)
    ensures t.chanCount.cur == Moved(old(t.chanCount.cur), |old(al.chans.entries)|, |al.chans.entries|)
    ensures t.bytecTx == old(t.bytecTx) && t.errcTx == old(t.errcTx) && t.alloccTot == old(t.alloccTot)
    ensures var cf := PeerLookup(old(al.chans.entries), src, now);
            var numb := if cf.at.Some? then Some(cf.rest[cf.at.value].numb) else None;
            var n := RxBytes(al.proto, numb, data);
            && al.chans.entries == cf.rest
            && out == Some(ToClient(al.proto, al.cliSock, al.cli, numb, src, data))
            && (sendOk ==> al.perms.entries == Counted(old(al.perms.entries), k, false, n)
                           && t.bytecRx == Add64(old(t.bytecRx), n)
                           && t.errcRx == old(t.errcRx))
            && (!sendOk ==> al.perms.entries == old(al.perms.entries)
                            && t.bytecRx == old(t.bytecRx) && t.errcRx == Add64(old(t.errcRx), 1))
  {
    TablesOf(t, al);
    PeerLookupSound(al.chans.entries, src, now);
    var c := al.chans.PeerFind(src, now);
    var numb := if c.Some? then Some(al.chans.entries[c.value].numb) else None;
    var r := BuildToClient(al.proto, al.cliSock, al.cli, numb, src, data);
    out := Some(r);
    if sendOk {
      var n := RxBytes(al.proto, numb, data);
      al.perms.Stat(Some(k), false, n);
      t.bytecRx := Add64(t.bytecRx, n);
    } else {
      t.errcRx := Add64(t.errcRx, 1);
    }
  }
}
