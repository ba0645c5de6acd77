/** The UDP transport: the listener list built from the `udp_listen`
    directives, the hand-off of every datagram to the dispatcher, and the
    alternate-socket selector used by the Binding responder. */
module Udp {
  import opened Net
  import opened Listeners
  import opened Dispatch

  /** `udp_recv`: every datagram becomes a UDP packet for the dispatcher,
      addressed to the listener's bound address. */
  function Deliver(l: Listener, src: Addr, data: seq<byte>): (p: Packet)
    ensures p.proto == Udp && p.dst == Some(l.bnd) && p.sock == Some(l.sock)
    ensures p.src == Some(src) && p.data == Some(data)
  {
    Packet(Udp, Some(l.sock), Some(src), Some(l.bnd), Some(data))
  }

  /** A `udp_listen` directive as `sa_decode` and the socket layer see it:
      the address, or `None` when it does not parse, and the error the
      bind would report. */
  datatype Directive = Directive(addr: Option<Addr>, bindErr: Option<Errno>)

  /** The address checks of `listen_handler`. */
  predicate Acceptable(a: Option<Addr>)
  {
    a.Some? && !IsAny(a.value) && Port(a.value) != 0
  }

  class UdpServer {
    /** `lstnrl`, in configuration order. */
    var listeners: seq<Listener>
    /** Identity of the next socket the socket layer hands out. */
    var nextSock: nat

    constructor()
      ensures listeners == [] && nextSock == 0
    {
      listeners := [];
      nextSock := 0;
    }

    /** `listen_handler`: an unparsable address, the any-address or port 0
        is refused with EINVAL, a failed bind with its error; in both cases
        the listener is unlinked again.  Otherwise it stays at the tail. */
    method Listen(d: Directive) returns (err: Option<Errno>)
      modifies this
      ensures !Acceptable(d.addr) ==> err == Some(EINVAL) && listeners == old(listeners)
      ensures Acceptable(d.addr) && d.bindErr.Some? ==> err == d.bindErr && listeners == old(listeners)
      ensures Acceptable(d.addr) && d.bindErr.None? ==>
                err.None? && listeners == old(listeners) + [Listener(d.addr.value, old(nextSock))]
      ensures nextSock >= old(nextSock)
    {
      if !Acceptable(d.addr) {
        return Some(EINVAL);
      }
      if d.bindErr.Some? {
        return d.bindErr;
      }
      listeners := listeners + [Listener(d.addr.value, nextSock)];
      nextSock := nextSock + 1;
      return None;
    }

    /** `restund_udp_init`: start from an empty list, apply every directive
        in order; the first error stops the walk and `restund_udp_close`
        flushes the whole list. */
    method Init(ds: seq<Directive>) returns (err: Option<Errno>)
      modifies this
      ensures err.None? <==> forall i :: 0 <= i < |ds| ==> Acceptable(ds[i].addr) && ds[i].bindErr.None?
      ensures err.Some? ==> listeners == []
      ensures err.None? ==> |listeners| == |ds|
      ensures err.None? ==> forall i :: 0 <= i < |ds| ==> listeners[i].bnd == ds[i].addr.value
    {
      listeners := [];
      var i := 0;
      while i < |ds|
        invariant 0 <= i <= |ds|
        invariant forall j :: 0 <= j < i ==> Acceptable(ds[j].addr) && ds[j].bindErr.None?
        invariant |listeners| == i
        invariant forall j :: 0 <= j < i ==> listeners[j].bnd == ds[j].addr.value
      {
        err := Listen(ds[i]);
        if err.Some? {
          listeners := [];
          return;
        }
        i := i + 1;
      }
      return None;
    }

    /** `restund_udp_socket`: the first listener whose IP differs from
        `orig` when `chIp` is asked and whose port differs when `chPort` is
        asked.  This is the corrected comparison (by address); the released
        code compares by port, see `SocketAsWritten`. */
    method Socket(orig: Addr, chIp: bool, chPort: bool) returns (r: Option<Listener>)
      ensures r == Pick(listeners, orig, chIp, chPort, SaAddr)
    {
      r := Select(listeners, orig, chIp, chPort, SaAddr);
    }

    /** `restund_udp_socket` as released: the `chIp` filter compares the
        ports (`SA_PORT`), so it passes over listeners on the same port and
        may return one on the same IP. */
    method SocketAsWritten(orig: Addr, chIp: bool, chPort: bool) returns (r: Option<Listener>)
      ensures r == Pick(listeners, orig, chIp, chPort, SaPort)
    {
      r := Select(listeners, orig, chIp, chPort, SaPort);
    }
  }

  /** With the corrected filter a change-IP answer always comes from another
      IP (or another address family), and nothing is returned only when
      every listener shares the IP of `orig` (or its port, when that is
      asked too). */
  lemma ChangeIpGivesOtherIp(ls: seq<Listener>, orig: Addr, chPort: bool)
    ensures var r := Pick(ls, orig, true, chPort, SaAddr);
            && (r.Some? ==> !SaCmp(orig, r.value.bnd, SaAddr) && r.value in ls)
            && (r.Some? && chPort ==> Port(r.value.bnd) != Port(orig))
            && (r.None? <==> forall l :: l in ls ==> SaCmp(orig, l.bnd, SaAddr) || (chPort && Port(orig) == Port(l.bnd)))
  {
    var r := Pick(ls, orig, true, chPort, SaAddr);
    if r.None? {
      forall l | l in ls
        ensures SaCmp(orig, l.bnd, SaAddr) || (chPort && Port(orig) == Port(l.bnd))
      {
        var i :| 0 <= i < |ls| && ls[i] == l;
        assert Skipped(ls[i], orig, true, chPort, SaAddr);
      }
    } else {
      var i :| 0 <= i < |ls| && ls[i] == r.value && !Skipped(ls[i], orig, true, chPort, SaAddr);
    }
  }

  /** The released comparison answers a change-IP request from the same IP:
      with listeners 1.2.3.4:3478 and 1.2.3.4:3479 and a request that
      arrived on 1.2.3.4:3478, it returns 1.2.3.4:3479. */
  lemma SocketAsWrittenKeepsIp()
    ensures var ls := [Listener(Addr(Inet, 0x01020304, 3478), 0), Listener(Addr(Inet, 0x01020304, 3479), 1)];
            var orig := Addr(Inet, 0x01020304, 3478);
            && Pick(ls, orig, true, false, SaPort) == Some(ls[1])
            && SaCmp(orig, ls[1].bnd, SaAddr)
            && Pick(ls, orig, true, false, SaAddr).None?
  {
    var ls := [Listener(Addr(Inet, 0x01020304, 3478), 0), Listener(Addr(Inet, 0x01020304, 3479), 1)];
    var orig := Addr(Inet, 0x01020304, 3478);
    assert ls[1..] == [ls[1]];
    assert ls[1..][1..] == [];
  }
}
