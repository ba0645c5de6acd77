/** The listener lists of the UDP and TCP transports and the walk that
    `restund_udp_socket` and `restund_tcp_socket` make over them to find an
    alternate socket for the Binding responder (CHANGE-REQUEST and
    OTHER-ADDRESS of RFC 5780). */
module Listeners {
  import opened Net

  /** A configured listener: its bound address and its socket. */
  datatype Listener = Listener(bnd: Addr, sock: nat)

  /** The two filters of the walk: with `chIp` a listener that compares equal
      to `orig` under `ipFlag` is passed over, with `chPort` one on the same
      port as `orig`. */
  predicate Skipped(l: Listener, orig: Addr, chIp: bool, chPort: bool, ipFlag: SaFlag)
  {
    (chIp && SaCmp(orig, l.bnd, ipFlag)) || (chPort && Port(orig) == Port(l.bnd))
  }

  /** The first listener, in list order, that no filter passes over. */
  function Pick(ls: seq<Listener>, orig: Addr, chIp: bool, chPort: bool, ipFlag: SaFlag): (r: Option<Listener>)
    ensures r.None? <==> forall i :: 0 <= i < |ls| ==> Skipped(ls[i], orig, chIp, chPort, ipFlag)
    ensures r.Some? ==> exists i :: 0 <= i < |ls| && ls[i] == r.value
                          && !Skipped(ls[i], orig, chIp, chPort, ipFlag)
                          && forall j :: 0 <= j < i ==> Skipped(ls[j], orig, chIp, chPort, ipFlag)
  {
    if |ls| == 0 then None
    else if Skipped(ls[0], orig, chIp, chPort, ipFlag) then
      var r := Pick(ls[1..], orig, chIp, chPort, ipFlag);
      assert r.Some? ==> exists i :: 0 <= i < |ls| && ls[i] == r.value
                          && !Skipped(ls[i], orig, chIp, chPort, ipFlag)
                          && forall j :: 0 <= j < i ==> Skipped(ls[j], orig, chIp, chPort, ipFlag) by {
        if r.Some? {
          var i :| 0 <= i < |ls| - 1 && ls[1..][i] == r.value
                   && !Skipped(ls[1..][i], orig, chIp, chPort, ipFlag)
                   && forall j :: 0 <= j < i ==> Skipped(ls[1..][j], orig, chIp, chPort, ipFlag);
          assert ls[i + 1] == r.value;
          assert forall j :: 0 <= j < i + 1 ==> Skipped(ls[j], orig, chIp, chPort, ipFlag) by {
            forall j | 0 <= j < i + 1
              ensures Skipped(ls[j], orig, chIp, chPort, ipFlag)
            {
              if j > 0 {
                assert ls[j] == ls[1..][j - 1];
              }
            }
          }
        }
      }
      assert r.None? ==> forall i :: 0 <= i < |ls| ==> Skipped(ls[i], orig, chIp, chPort, ipFlag) by {
        if r.None? {
          forall i | 0 <= i < |ls|
            ensures Skipped(ls[i], orig, chIp, chPort, ipFlag)
          {
            if i > 0 {
              assert ls[i] == ls[1..][i - 1];
            }
          }
        }
      }
      r
    else Some(ls[0])
  }

  /** The `while (le)` walk over the listener list. */
  method Select(ls: seq<Listener>, orig: Addr, chIp: bool, chPort: bool, ipFlag: SaFlag)
    returns (r: Option<Listener>)
    ensures r == Pick(ls, orig, chIp, chPort, ipFlag)
  {
    var i := 0;
    while i < |ls|
      invariant 0 <= i <= |ls|
      invariant Pick(ls, orig, chIp, chPort, ipFlag) == Pick(ls[i..], orig, chIp, chPort, ipFlag)
    {
      assert ls[i..][1..] == ls[i + 1..];
      if !Skipped(ls[i], orig, chIp, chPort, ipFlag) {
        return Some(ls[i]);
      }
      i := i + 1;
    }
    return None;
  }
}
