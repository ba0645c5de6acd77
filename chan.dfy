/** TURN channels (section 11 of RFC 5766): per allocation, bindings of a
    channel number in 0x4000..0x7fff to one peer transport address, found
    by number or by peer, with a ten-minute lifetime checked lazily at
    lookup, and the ChannelBind request. */
module Chan {
  import opened Net
  import opened StunMsg
  import opened Db
  import opened Perm

  const CHAN_NUMB_MIN: u16 := 0x4000
  const CHAN_NUMB_MAX: u16 := 0x7fff
  const CHAN_LIFETIME: int := 600

  /** `struct chan`, without the back pointer to the allocation. */
  datatype Chan = Chan(numb: u16, peer: Addr, expires: int)

  /** `chan_numb_valid`. */
  predicate NumbValid(numb: u16)
  {
    CHAN_NUMB_MIN <= numb <= CHAN_NUMB_MAX
  }

  /** The first channel with that number (`hash_numb_cmp_handler`). */
  function FindNumb(cs: seq<Chan>, numb: u16): (i: nat)
    ensures i <= |cs|
    ensures i < |cs| ==> cs[i].numb == numb
    ensures forall j :: 0 <= j < i ==> cs[j].numb != numb
  {
    if |cs| == 0 then 0
    else if cs[0].numb == numb then 0
    else 1 + FindNumb(cs[1..], numb)
  }

  /** The first channel bound to that peer address and port
      (`hash_peer_cmp_handler`, `sa_cmp` with `SA_ALL`). */
  function FindPeer(cs: seq<Chan>, peer: Addr): (i: nat)
    ensures i <= |cs|
    ensures i < |cs| ==> SaCmp(cs[i].peer, peer, SaAll)
    ensures forall j :: 0 <= j < i ==> !SaCmp(cs[j].peer, peer, SaAll)
  {
    if |cs| == 0 then 0
    else if SaCmp(cs[0].peer, peer, SaAll) then 0
    else 1 + FindPeer(cs[1..], peer)
  }

  /** `chan_numb_find`: the channel with that number, destroyed instead
      when it has expired. */
  function NumbLookup(cs: seq<Chan>, numb: u16, now: Time): (f: Found<Chan>)
    ensures f.at.Some? ==> f.rest == cs && f.at.value < |cs| && cs[f.at.value].numb == numb
  {
    var k := FindNumb(cs, numb);
    if k == |cs| then Found(cs, None, [])
    else if cs[k].expires < now then Found(RemoveAt(cs, k), None, [])
    else Found(cs, Some(k), [])
  }

  /** `chan_peer_find`: the channel bound to that peer, destroyed instead
      when it has expired. */
  function PeerLookup(cs: seq<Chan>, peer: Addr, now: Time): Found<Chan>
  {
    var k := FindPeer(cs, peer);
    if k == |cs| then Found(cs, None, [])
    else if cs[k].expires < now then Found(RemoveAt(cs, k), None, [])
    else Found(cs, Some(k), [])
  }

  /** What every channel list keeps: valid numbers, and no number and no
      peer bound twice. */
  predicate Bindings(cs: seq<Chan>)
  {
    && (forall i :: 0 <= i < |cs| ==> NumbValid(cs[i].numb))
    && (forall i, j :: 0 <= i < j < |cs| ==> cs[i].numb != cs[j].numb && !SaCmp(cs[i].peer, cs[j].peer, SaAll))
  }

  lemma RemoveAtBindings(cs: seq<Chan>, k: nat)
    requires Bindings(cs) && k < |cs|
    ensures Bindings(RemoveAt(cs, k))
  {
    var r := RemoveAt(cs, k);
    forall i, j | 0 <= i < j < |r|
      ensures r[i].numb != r[j].numb && !SaCmp(r[i].peer, r[j].peer, SaAll)
    {
      var i' := if i < k then i else i + 1;
      var j' := if j < k then j else j + 1;
      assert r[i] == cs[i'] && r[j] == cs[j'];
    }
  }

  /** A lookup by number keeps the bindings, removes at most one expired
      channel, and when it finds nothing live no channel with that number
      is left. */
  lemma NumbLookupSound(cs: seq<Chan>, numb: u16, now: Time)
    requires Bindings(cs)
    ensures var f := NumbLookup(cs, numb, now);
            && Bindings(f.rest)
            && (f.at.Some? ==> f.rest == cs && f.at.value < |cs| && cs[f.at.value].numb == numb && cs[f.at.value].expires >= now)
            && (f.at.None? ==> forall j :: 0 <= j < |f.rest| ==> f.rest[j].numb != numb)
            && (f.rest == cs || exists k :: 0 <= k < |cs| && cs[k].expires < now && f.rest == RemoveAt(cs, k))
  {
    var k := FindNumb(cs, numb);
    if k < |cs| && cs[k].expires < now {
      RemoveAtBindings(cs, k);
      var r := RemoveAt(cs, k);
      forall j | 0 <= j < |r|
        ensures r[j].numb != numb
      {
        if j >= k {
          assert r[j] == cs[j + 1];
        }
      }
    }
  }

  /** The same for a lookup by peer. */
  lemma PeerLookupSound(cs: seq<Chan>, peer: Addr, now: Time)
    requires Bindings(cs)
    ensures var f := PeerLookup(cs, peer, now);
            && Bindings(f.rest)
            && (f.at.Some? ==> f.rest == cs && f.at.value < |cs| && SaCmp(cs[f.at.value].peer, peer, SaAll) && cs[f.at.value].expires >= now)
            && (f.at.None? ==> forall j :: 0 <= j < |f.rest| ==> !SaCmp(f.rest[j].peer, peer, SaAll))
            && (f.rest == cs || exists k :: 0 <= k < |cs| && cs[k].expires < now && f.rest == RemoveAt(cs, k))
  {
    var k := FindPeer(cs, peer);
    if k < |cs| && cs[k].expires < now {
      RemoveAtBindings(cs, k);
      var r := RemoveAt(cs, k);
      forall j | 0 <= j < |r|
        ensures !SaCmp(r[j].peer, peer, SaAll)
      {
        if j >= k {
          assert r[j] == cs[j + 1];
          assert !SaCmp(cs[k].peer, cs[j + 1].peer, SaAll);
        }
      }
    }
  }

  /** `chan_cur` of the module's state, which every channel list reaches
      through `turndp()`; it is printed as an unsigned 64-bit value. */
  class ChanCount {
    var cur: u64

    constructor()
      ensures cur == 0
    {
      cur := 0;
    }
  }

  /** The counter after a list went from `before` to `after` channels:
      one up per channel created, one down per channel destroyed, with
      64-bit wrap-around. */
  function Moved(cur: u64, before: nat, after: nat): u64
  {
    (cur + after - before) % 0x1_0000_0000_0000_0000
  }

  /** A list whose length did not change leaves the counter alone. */
  lemma MovedNone(cur: u64, n: nat)
    ensures Moved(cur, n, n) == cur
  {
  }

  /** Two moves add up. */
  lemma MovedTwice(cur: u64, a: nat, b: nat, c: nat)
    ensures Moved(Moved(cur, a, b), b, c) == Moved(cur, a, c)
  {
    var m := 0x1_0000_0000_0000_0000;
    var x := cur + b - a;
    var k := x / m;
    assert x == k * m + x % m;
    assert Moved(cur, a, b) + c - b == (cur + c - a) - k * m;
  }

  /** A channel created counts one more; one destroyed, one fewer. */
  lemma MovedByOne(cur: u64, n: nat)
    ensures Moved(cur, n, n + 1) == Add64(cur, 1)
    ensures n > 0 ==> Moved(cur, n, n - 1) == (if cur == 0 then 0xFFFF_FFFF_FFFF_FFFF else cur - 1)
  {
  }

  /** `struct chanlist`: both hash tables hold the same channels, kept
      here once, in creation order.  `count` is the module-wide channel
      counter. */
  class ChanList {
    var entries: seq<Chan>
    const count: ChanCount

    constructor(count: ChanCount)
      ensures entries == [] && this.count == count
    {
      entries := [];
      this.count := count;
    }

    predicate Valid()
      reads this
    {
      Bindings(entries)
    }

    /** `chan_numb_find`; an expired channel found is destroyed, which
        counts it out. */
    method NumbFind(numb: u16, now: Time) returns (i: Option<nat>)
      modifies this, count
      ensures Found(entries, i, []) == NumbLookup(old(entries), numb, now)
      ensures count.cur == Moved(old(count.cur), |old(entries)|, |entries|)
    {
      var k := FindNumb(entries, numb);
      if k < |entries| && entries[k].expires < now {
        MovedByOne(count.cur, |entries|);
        entries := RemoveAt(entries, k);
        count.cur := if count.cur == 0 then 0xFFFF_FFFF_FFFF_FFFF else count.cur - 1;
        return None;
      }
      MovedNone(count.cur, |entries|);
      return if k < |entries| then Some(k) else None;
    }

    /** `chan_peer_find`, likewise. */
    method PeerFind(peer: Addr, now: Time) returns (i: Option<nat>)
      modifies this, count
      ensures Found(entries, i, []) == PeerLookup(old(entries), peer, now)
      ensures count.cur == Moved(old(count.cur), |old(entries)|, |entries|)
    {
      var k := FindPeer(entries, peer);
      if k < |entries| && entries[k].expires < now {
        MovedByOne(count.cur, |entries|);
        entries := RemoveAt(entries, k);
        count.cur := if count.cur == 0 then 0xFFFF_FFFF_FFFF_FFFF else count.cur - 1;
        return None;
      }
      MovedNone(count.cur, |entries|);
      return if k < |entries| then Some(k) else None;
    }

    /** `chan_create`: a new binding lasting the channel lifetime, counted
        in. */
    method Create(numb: u16, peer: Addr, now: Time) returns (i: nat)
      modifies this, count
      ensures entries == old(entries) + [Chan(numb, peer, now + CHAN_LIFETIME)] && i == |old(entries)|
      ensures count.cur == Add64(old(count.cur), 1)
    {
      entries := entries + [Chan(numb, peer, now + CHAN_LIFETIME)];
      i := |entries| - 1;
      count.cur := Add64(count.cur, 1);
    }

    /** `chan_refresh`: a new lifetime from now; a null channel is left
        alone. */
    method Refresh(i: Option<nat>, now: Time)
      modifies this
      requires i.Some? ==> i.value < |entries|
      ensures i.None? ==> entries == old(entries)
      ensures i.Some? ==> entries == old(entries)[i.value := old(entries)[i.value].(expires := now + CHAN_LIFETIME)]
    {
      if i.Some? {
        entries := entries[i.value := entries[i.value].(expires := now + CHAN_LIFETIME)];
      }
    }

    /** `destructor` of a channel: unlinked and counted out. */
    method Destroy(i: nat)
      modifies this, count
      requires i < |entries|
      ensures entries == RemoveAt(old(entries), i)
      ensures count.cur == (if old(count.cur) == 0 then 0xFFFF_FFFF_FFFF_FFFF else old(count.cur) - 1)
    {
      entries := RemoveAt(entries, i);
      count.cur := if count.cur == 0 then 0xFFFF_FFFF_FFFF_FFFF else count.cur - 1;
    }

    /** `chanlist_destructor`: every channel goes, each counted out. */
    method Flush()
      modifies this, count
      ensures entries == []
      ensures count.cur == Moved(old(count.cur), |old(entries)|, 0)
    {
      MovedNone(count.cur, |entries|);
      while |entries| > 0
        invariant count.cur == Moved(old(count.cur), |old(entries)|, |entries|)
      {
        var n := |entries|;
        MovedByOne(count.cur, n);
        MovedTwice(old(count.cur), |old(entries)|, n, n - 1);
        entries := entries[1..];
        count.cur := if count.cur == 0 then 0xFFFF_FFFF_FFFF_FFFF else count.cur - 1;
      }
    }
  }

  /** The channel list after a successful ChannelBind: the channel found
      is refreshed, or the new one appended. */
  function BoundChans(cs: seq<Chan>, at: Option<nat>, numb: u16, peer: Addr, now: Time): seq<Chan>
  {
    if at.Some? && at.value < |cs| then cs[at.value := cs[at.value].(expires := now + CHAN_LIFETIME)]
    else cs + [Chan(numb, peer, now + CHAN_LIFETIME)]
  }

  /** The permission table after a successful ChannelBind: the permission
      found is refreshed, or a new one appended. */
  function BoundPerms(ps: seq<Perm>, at: Option<nat>, peer: Addr, now: Time): seq<Perm>
  {
    if at.Some? && at.value < |ps| then ps[at.value := ps[at.value].(expires := now + PERM_LIFETIME)]
    else ps + [Fresh(peer, now)]
  }

  /** The reply of `chanbind_request`, in order: 400 without a valid
      CHANNEL-NUMBER or an XOR-PEER-ADDRESS, 443 for a peer of another
      family than the relay, 400 when the live channel of that number and
      the live channel of that peer are not the same one (either may be
      absent), and success otherwise. */
  function BindReply(cs: seq<Chan>, relAf: Family, now: Time, proto: Proto, sock: nat, src: Addr,
                     ctx: MsgCtx, m: Msg): Reply
  {
    if ChannelOf(m).None? || !NumbValid(ChannelOf(m).value) || PeerOf(m).None? then
      ErrorReply(proto, sock, src, ctx, 400, "Bad Attributes")
    else if PeerOf(m).value.af != relAf then
      ErrorReply(proto, sock, src, ctx, 443, "Peer Address Family Mismatch")
    else
      var n := NumbLookup(cs, ChannelOf(m).value, now);
      if n.at != PeerLookup(n.rest, PeerOf(m).value, now).at then
        ErrorReply(proto, sock, src, ctx, 400, "Channel/Peer Already Bound")
      else Reply(proto, sock, src, ctx.key, Success([Software]))
  }

  lemma BindReplyAfterLookups(cs: seq<Chan>, relAf: Family, now: Time, proto: Proto, sock: nat, src: Addr,
                              ctx: MsgCtx, m: Msg, numb: u16, peer: Addr, n: Found<Chan>, p: Found<Chan>)
    requires ChannelOf(m) == Some(numb) && NumbValid(numb) && PeerOf(m) == Some(peer) && peer.af == relAf
    requires n == NumbLookup(cs, numb, now) && p == PeerLookup(n.rest, peer, now)
    ensures BindReply(cs, relAf, now, proto, sock, src, ctx, m)
            == if n.at != p.at then ErrorReply(proto, sock, src, ctx, 400, "Channel/Peer Already Bound")
               else Reply(proto, sock, src, ctx.key, Success([Software]))
  {
  }

  /** `chanbind_request`: the reply is `BindReply`.  When the success reply
      is sent the binding and the permission are refreshed or kept; when it
      cannot be sent whatever was created is destroyed again.  The channel
      counter moves with the number of channels. */
  method ChanBind(chans: ChanList, perms: PermTable, relAf: Family, owner: Owner, now: Time,
                  proto: Proto, sock: nat, src: Addr, ctx: MsgCtx, m: Msg, sendOk: bool)
    returns (r: Reply, log: seq<Traffic>)
    modifies chans, chans.count, perms
    requires chans.Valid() && perms.Valid()
    ensures chans.Valid() && perms.Valid()
    ensures r == BindReply(old(chans.entries), relAf, now, proto, sock, src, ctx, m)
    ensures chans.count.cur == Moved(old(chans.count.cur), |old(chans.entries)|, |chans.entries|)
    ensures ChannelOf(m).None? || !NumbValid(ChannelOf(m).value) || PeerOf(m).None? ==>
              log == [] && chans.entries == old(chans.entries) && perms.entries == old(perms.entries)
    ensures ChannelOf(m).Some? && NumbValid(ChannelOf(m).value) && PeerOf(m).Some? && PeerOf(m).value.af != relAf ==>
              log == [] && chans.entries == old(chans.entries) && perms.entries == old(perms.entries)
    ensures ChannelOf(m).Some? && NumbValid(ChannelOf(m).value) && PeerOf(m).Some? && PeerOf(m).value.af == relAf ==>
              var numb, peer := ChannelOf(m).value, PeerOf(m).value;
              var n := NumbLookup(old(chans.entries), numb, now);
              var p := PeerLookup(n.rest, peer, now);
              var q := Lookup(old(perms.entries), peer, owner, now);
              && (n.at != p.at ==>
                    log == [] && chans.entries == p.rest && perms.entries == old(perms.entries))
              && (n.at == p.at ==>
                    log == q.log
                    && (sendOk ==> chans.entries == BoundChans(p.rest, n.at, numb, peer, now)
                                   && perms.entries == BoundPerms(q.rest, q.at, peer, now))
                    && (!sendOk ==> chans.entries == p.rest && perms.entries == q.rest))
  {
    ghost var cs0 := chans.entries;
    MovedNone(chans.count.cur, |cs0|);
    var chnr := ChannelOf(m);
    var pa := PeerOf(m);
    if chnr.None? || !NumbValid(chnr.value) || pa.None? {
      return ErrorReply(proto, sock, src, ctx, 400, "Bad Attributes"), [];
    }
    var numb, peer := chnr.value, pa.value;
    if peer.af != relAf {
      return ErrorReply(proto, sock, src, ctx, 443, "Peer Address Family Mismatch"), [];
    }
    BindReplyAfterLookups(cs0, relAf, now, proto, sock, src, ctx, m, numb, peer,
                          NumbLookup(cs0, numb, now), PeerLookup(NumbLookup(cs0, numb, now).rest, peer, now));
    r, log := BindPeer(chans, perms, numb, peer, owner, now, proto, sock, src, ctx, sendOk);
  }

  /** `chanbind_request` once the number and the peer are checked: both
      lookups, then 400 when they found different channels, or the success
      reply and `Grant`. */
  method BindPeer(chans: ChanList, perms: PermTable, numb: u16, peer: Addr, owner: Owner, now: Time,
                  proto: Proto, sock: nat, src: Addr, ctx: MsgCtx, sendOk: bool)
    returns (r: Reply, log: seq<Traffic>)
    modifies chans, chans.count, perms
    requires chans.Valid() && perms.Valid() && NumbValid(numb)
    ensures chans.Valid() && perms.Valid()
    ensures chans.count.cur == Moved(old(chans.count.cur), |old(chans.entries)|, |chans.entries|)
    ensures var n := NumbLookup(old(chans.entries), numb, now);
            var p := PeerLookup(n.rest, peer, now);
            var q := Lookup(old(perms.entries), peer, owner, now);
            && (n.at != p.at ==>
                  r == ErrorReply(proto, sock, src, ctx, 400, "Channel/Peer Already Bound")
                  && log == [] && chans.entries == p.rest && perms.entries == old(perms.entries))
            && (n.at == p.at ==>
                  r == Reply(proto, sock, src, ctx.key, Success([Software])) && log == q.log
                  && (sendOk ==> chans.entries == BoundChans(p.rest, n.at, numb, peer, now)
                                 && perms.entries == BoundPerms(q.rest, q.at, peer, now))
                  && (!sendOk ==> chans.entries == p.rest && perms.entries == q.rest))
  {
    ghost var c0, n0 := chans.count.cur, |chans.entries|;
    NumbLookupSound(chans.entries, numb, now);
    var chNumb := chans.NumbFind(numb, now);
    ghost var n1 := |chans.entries|;
    PeerLookupSound(chans.entries, peer, now);
    var chPeer := chans.PeerFind(peer, now);
    ghost var n2 := |chans.entries|;
    MovedTwice(c0, n0, n1, n2);
    if chNumb != chPeer {
      return ErrorReply(proto, sock, src, ctx, 400, "Channel/Peer Already Bound"), [];
    }
    r := Reply(proto, sock, src, ctx.key, Success([Software]));
    log := Grant(chans, perms, chNumb, numb, peer, owner, now, sendOk);
    MovedTwice(c0, n0, n2, |chans.entries|);
  }

  /** The part of `chanbind_request` after the lookups agreed: the channel
      is created when there was none, the permission looked up or created,
      and after the reply either both are refreshed or what was created is
      destroyed. */
  method Grant(chans: ChanList, perms: PermTable, at: Option<nat>, numb: u16, peer: Addr,
               owner: Owner, now: Time, sendOk: bool) returns (log: seq<Traffic>)
    modifies chans, chans.count, perms
    requires chans.Valid() && perms.Valid() && NumbValid(numb)
    requires at.Some? ==> at.value < |chans.entries| && chans.entries[at.value].numb == numb
    requires at.None? ==> forall j :: 0 <= j < |chans.entries| ==>
                            chans.entries[j].numb != numb && !SaCmp(chans.entries[j].peer, peer, SaAll)
    ensures chans.Valid() && perms.Valid()
    ensures var q := Lookup(old(perms.entries), peer, owner, now);
            && log == q.log
            && (sendOk ==> chans.entries == BoundChans(old(chans.entries), at, numb, peer, now)
                           && perms.entries == BoundPerms(q.rest, q.at, peer, now))
            && (!sendOk ==> chans.entries == old(chans.entries) && perms.entries == q.rest)
    ensures chans.count.cur == Moved(old(chans.count.cur), |old(chans.entries)|, |chans.entries|)
  {
    ghost var cs := chans.entries;
    ghost var c0 := chans.count.cur;
    MovedNone(c0, |cs|);
    var created := false;
    if at.None? {
      MovedByOne(c0, |cs|);
      var _ := chans.Create(numb, peer, now);
      created := true;
    }
    var permx;
    permx, log := perms.Find(peer, owner, now);
    ghost var ps := perms.entries;
    var permCreated := false;
    if permx.None? {
      var _ := perms.Create(peer, now);
      permCreated := true;
    }
    if !sendOk {
      if created {
        MovedByOne(chans.count.cur, |cs| + 1);
        MovedTwice(c0, |cs|, |cs| + 1, |cs|);
        chans.Destroy(|chans.entries| - 1);
        assert chans.entries == cs;
      }
      if permCreated {
        var _ := perms.Destroy(|perms.entries| - 1, owner, now);
        assert perms.entries == ps;
      }
    } else {
      chans.Refresh(at, now);
      perms.Refresh(permx, now);
      BindKeepsValid(cs, at, numb, peer, now);
      GrantKeepsValid(ps, permx, peer, now);
    }
  }

  lemma BindKeepsValid(cs: seq<Chan>, at: Option<nat>, numb: u16, peer: Addr, now: Time)
    requires Bindings(cs) && NumbValid(numb)
    requires at.Some? ==> at.value < |cs| && cs[at.value].numb == numb
    requires at.None? ==> forall j :: 0 <= j < |cs| ==> cs[j].numb != numb && !SaCmp(cs[j].peer, peer, SaAll)
    ensures Bindings(BoundChans(cs, at, numb, peer, now))
  {
  }

  lemma GrantKeepsValid(ps: seq<Perm>, at: Option<nat>, peer: Addr, now: Time)
    requires UniqueIps(ps) && NoNew(ps)
    requires at.Some? ==> at.value < |ps| && SaCmp(ps[at.value].peer, peer, SaAddr)
    requires at.None? ==> FindIp(ps, peer) == |ps|
    ensures UniqueIps(BoundPerms(ps, at, peer, now)) && NoNew(BoundPerms(ps, at, peer, now))
  {
  }

  /** Some live channel has the number but another peer, or the peer but
      another number. */
  predicate Conflict(cs: seq<Chan>, numb: u16, peer: Addr, now: Time)
  {
    exists j :: 0 <= j < |cs| && cs[j].expires >= now && ((cs[j].numb == numb) != SaCmp(cs[j].peer, peer, SaAll))
  }

  /** The lookup with lazy expiry keeps every live channel, at the same
      index or one lower. */
  lemma LiveKept(cs: seq<Chan>, rest: seq<Chan>, j: nat, now: Time)
    requires rest == cs || exists k :: 0 <= k < |cs| && cs[k].expires < now && rest == RemoveAt(cs, k)
    requires j < |cs| && cs[j].expires >= now
    ensures exists j' :: 0 <= j' < |rest| && rest[j'] == cs[j]
  {
    if rest != cs {
      var k :| 0 <= k < |cs| && cs[k].expires < now && rest == RemoveAt(cs, k);
      if j < k {
        assert rest[j] == cs[j];
      } else {
        assert rest[j - 1] == cs[j];
      }
    }
  }

  /** With unique numbers and peers, the entry holding a number or a peer
      is the one the lookup finds. */
  lemma FirstNumbIs(cs: seq<Chan>, i: nat, numb: u16)
    requires Bindings(cs) && i < |cs|
    ensures cs[i].numb == numb ==> FindNumb(cs, numb) == i
  {
  }

  lemma FirstPeerIs(cs: seq<Chan>, i: nat, peer: Addr)
    requires Bindings(cs) && i < |cs|
    ensures SaCmp(cs[i].peer, peer, SaAll) ==> FindPeer(cs, peer) == i
  {
    if SaCmp(cs[i].peer, peer, SaAll) {
      var f := FindPeer(cs, peer);
      assert f <= i;
      assert f < i ==> !SaCmp(cs[f].peer, cs[i].peer, SaAll);
    }
  }

  /** ChannelBind is refused as already bound exactly when a live channel
      binds the number to another peer or the peer to another number. */
  lemma AlreadyBoundMeans(cs: seq<Chan>, numb: u16, peer: Addr, now: Time)
    requires Bindings(cs)
    ensures var n := NumbLookup(cs, numb, now);
            n.at != PeerLookup(n.rest, peer, now).at <==> Conflict(cs, numb, peer, now)
  {
    var n := NumbLookup(cs, numb, now);
    if n.at != PeerLookup(n.rest, peer, now).at {
      ConflictIfDiffer(cs, numb, peer, now);
    }
    if Conflict(cs, numb, peer, now) {
      DifferIfConflict(cs, numb, peer, now);
    }
  }

  lemma ConflictIfDiffer(cs: seq<Chan>, numb: u16, peer: Addr, now: Time)
    requires Bindings(cs)
    requires var n := NumbLookup(cs, numb, now); n.at != PeerLookup(n.rest, peer, now).at
    ensures Conflict(cs, numb, peer, now)
  {
    var n := NumbLookup(cs, numb, now);
    NumbLookupSound(cs, numb, now);
    PeerLookupSound(n.rest, peer, now);
    var p := PeerLookup(n.rest, peer, now);
    if n.at.Some? {
      var i := n.at.value;
      FirstPeerIs(cs, i, peer);
      assert cs[i].expires >= now && cs[i].numb == numb && !SaCmp(cs[i].peer, peer, SaAll);
    } else {
      var i := p.at.value;
      LiveKeptBack(cs, n.rest, i, now);
      var j :| 0 <= j < |cs| && cs[j] == n.rest[i];
      assert cs[j].expires >= now && cs[j].numb != numb && SaCmp(cs[j].peer, peer, SaAll);
    }
  }

  lemma DifferIfConflict(cs: seq<Chan>, numb: u16, peer: Addr, now: Time)
    requires Bindings(cs) && Conflict(cs, numb, peer, now)
    ensures var n := NumbLookup(cs, numb, now); n.at != PeerLookup(n.rest, peer, now).at
  {
    var j :| 0 <= j < |cs| && cs[j].expires >= now && ((cs[j].numb == numb) != SaCmp(cs[j].peer, peer, SaAll));
    if cs[j].numb == numb {
      NumbTakenElsewhere(cs, j, numb, peer, now);
    } else {
      PeerTakenElsewhere(cs, j, numb, peer, now);
    }
  }

  lemma NumbTakenElsewhere(cs: seq<Chan>, j: nat, numb: u16, peer: Addr, now: Time)
    requires Bindings(cs) && j < |cs| && cs[j].expires >= now
    requires cs[j].numb == numb && !SaCmp(cs[j].peer, peer, SaAll)
    ensures var n := NumbLookup(cs, numb, now); n.at != PeerLookup(n.rest, peer, now).at
  {
    FirstNumbIs(cs, j, numb);
    PeerLookupSound(cs, peer, now);
  }

  lemma PeerTakenElsewhere(cs: seq<Chan>, j: nat, numb: u16, peer: Addr, now: Time)
    requires Bindings(cs) && j < |cs| && cs[j].expires >= now
    requires cs[j].numb != numb && SaCmp(cs[j].peer, peer, SaAll)
    ensures var n := NumbLookup(cs, numb, now); n.at != PeerLookup(n.rest, peer, now).at
  {
    var n := NumbLookup(cs, numb, now);
    NumbLookupSound(cs, numb, now);
    if n.at.Some? {
      PeerLookupFinds(cs, j, peer, now);
    } else {
      LiveKept(cs, n.rest, j, now);
      var j' :| 0 <= j' < |n.rest| && n.rest[j'] == cs[j];
      PeerLookupFinds(n.rest, j', peer, now);
    }
  }

  /** A live channel is what the lookup by its number finds. */
  lemma NumbLookupFinds(cs: seq<Chan>, i: nat, numb: u16, now: Time)
    requires Bindings(cs) && i < |cs| && cs[i].numb == numb && cs[i].expires >= now
    ensures NumbLookup(cs, numb, now).at == Some(i)
  {
    FirstNumbIs(cs, i, numb);
  }

  /** A live channel is what the lookup by its peer finds. */
  lemma PeerLookupFinds(cs: seq<Chan>, i: nat, peer: Addr, now: Time)
    requires Bindings(cs) && i < |cs| && SaCmp(cs[i].peer, peer, SaAll) && cs[i].expires >= now
    ensures PeerLookup(cs, peer, now).at == Some(i)
  {
    FirstPeerIs(cs, i, peer);
  }

  /** Every channel left by a lookup was there before. */
  lemma LiveKeptBack(cs: seq<Chan>, rest: seq<Chan>, i: nat, now: Time)
    requires rest == cs || exists k :: 0 <= k < |cs| && cs[k].expires < now && rest == RemoveAt(cs, k)
    requires i < |rest|
    ensures exists j :: 0 <= j < |cs| && cs[j] == rest[i]
  {
    if rest != cs {
      var k :| 0 <= k < |cs| && cs[k].expires < now && rest == RemoveAt(cs, k);
      if i < k {
        assert cs[i] == rest[i];
      } else {
        assert cs[i + 1] == rest[i];
      }
    } else {
      assert cs[i] == rest[i];
    }
  }

  /** After a successful ChannelBind the number leads to the peer, and the
      peer to the number, for the whole channel lifetime. */
  lemma BindThenLookup(cs: seq<Chan>, numb: u16, peer: Addr, now: Time, later: Time)
    requires Bindings(cs) && NumbValid(numb) && peer.af != Unspec
    requires now <= later <= now + CHAN_LIFETIME
    requires var n := NumbLookup(cs, numb, now); n.at == PeerLookup(n.rest, peer, now).at
    ensures var n := NumbLookup(cs, numb, now);
            var b := BoundChans(PeerLookup(n.rest, peer, now).rest, n.at, numb, peer, now);
            var j := NumbLookup(b, numb, later).at;
            && j.Some? && j.value < |b| && b[j.value] == Chan(numb, peer, now + CHAN_LIFETIME)
            && PeerLookup(b, peer, later).at == j
  {
    var n := NumbLookup(cs, numb, now);
    NumbLookupSound(cs, numb, now);
    PeerLookupSound(n.rest, peer, now);
    var p := PeerLookup(n.rest, peer, now);
    if n.at.None? {
      forall j | 0 <= j < |p.rest|
        ensures p.rest[j].numb != numb
      {
        LiveKeptBack(n.rest, p.rest, j, now);
      }
    }
    BindKeepsValid(p.rest, n.at, numb, peer, now);
    var b := BoundChans(p.rest, n.at, numb, peer, now);
    var i := if n.at.Some? then n.at.value else |p.rest|;
    assert b[i] == Chan(numb, peer, now + CHAN_LIFETIME);
    NumbLookupFinds(b, i, numb, later);
    PeerLookupFinds(b, i, peer, later);
  }
}
