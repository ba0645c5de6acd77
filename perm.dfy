/** TURN permissions (section 8 of RFC 5766): the per-allocation table of
    peer IP addresses the client may exchange data with, each with a
    five-minute lifetime that is checked lazily at lookup, and the
    all-or-nothing CreatePermission request (section 9.2 of RFC 5766). */
module Perm {
  import opened Net
  import opened StunMsg
  import opened Db

  const PERM_LIFETIME: int := 300

  /** `struct perm`.  The back pointer to the allocation is not stored: the
      parts of the allocation a traffic record needs are passed as an
      `Owner`.  `isNew` is the `new` flag used while a CreatePermission
      request is staged. */
  datatype Perm = Perm(peer: Addr, ts: TrafStat, expires: int, start: Time, isNew: bool)

  const NoTraffic: TrafStat := TrafStat(0, 0, 0, 0)

  /** The user name, client address and relay address of the allocation
      that owns a permission. */
  datatype Owner = Owner(username: Option<string>, cli: Addr, rel: Addr)

  /** The entry `perm_create` makes: zero counters, started now, expiring
      after the permission lifetime. */
  function Fresh(peer: Addr, now: Time): Perm
  {
    Perm(peer, NoTraffic, now + PERM_LIFETIME, now, false)
  }

  /** `perm_find`'s `hash_lookup`: the first entry whose peer has the same
      family and IP address as `peer` (`sa_cmp` with `SA_ADDR`); `|ps|` when
      there is none. */
  function FindIp(ps: seq<Perm>, peer: Addr): (i: nat)
    ensures i <= |ps|
    ensures i < |ps| ==> SaCmp(ps[i].peer, peer, SaAddr)
    ensures forall j :: 0 <= j < i ==> !SaCmp(ps[j].peer, peer, SaAddr)
  {
    if |ps| == 0 then 0
    else if SaCmp(ps[0].peer, peer, SaAddr) then 0
    else 1 + FindIp(ps[1..], peer)
  }

  /** Permissions are matched by IP address only: the peer's port never
      changes which entry is found. */
  lemma {:induction false} PortIgnored(ps: seq<Perm>, peer: Addr, port: u16)
    ensures FindIp(ps, WithPort(peer, port)) == FindIp(ps, peer)
  {
    if |ps| > 0 {
      PortIgnored(ps[1..], peer, port);
    }
  }

  /** No two entries of the table are for the same peer IP address. */
  predicate UniqueIps(ps: seq<Perm>)
  {
    forall i, j :: 0 <= i < j < |ps| ==> !SaCmp(ps[i].peer, ps[j].peer, SaAddr)
  }

  /** No entry is marked new. */
  predicate NoNew(ps: seq<Perm>)
  {
    forall i :: 0 <= i < |ps| ==> !ps[i].isNew
  }

  /** No entry of `a` has the IP address of an entry of `b`. */
  predicate Disjoint(a: seq<Perm>, b: seq<Perm>)
  {
    forall i, j :: 0 <= i < |a| && 0 <= j < |b| ==> !SaCmp(a[i].peer, b[j].peer, SaAddr)
  }

  function RemoveAt<T>(s: seq<T>, k: nat): (r: seq<T>)
    requires k < |s|
    ensures |r| == |s| - 1
    ensures forall j :: 0 <= j < k ==> r[j] == s[j]
    ensures forall j :: k <= j < |r| ==> r[j] == s[j + 1]
  {
    s[..k] + s[k + 1..]
  }

  lemma RemoveAtMultiset<T>(s: seq<T>, k: nat)
    requires k < |s|
    ensures multiset(RemoveAt(s, k)) + multiset{s[k]} == multiset(s)
  {
    assert s == s[..k] + [s[k]] + s[k + 1..];
  }

  /** The permission destructor's traffic record: one record when at least
      one packet was relayed in either direction, none otherwise. */
  function Farewell(o: Owner, p: Perm, now: Time): (log: seq<Traffic>)
    ensures |log| <= 1
    ensures log != [] <==> p.ts.pktcTx != 0 || p.ts.pktcRx != 0
    ensures log != [] ==> log[0].cli == o.cli && log[0].relay == o.rel && log[0].peer == p.peer
                          && log[0].start == p.start && log[0].end == now && log[0].ts == p.ts
  {
    if p.ts.pktcTx == 0 && p.ts.pktcRx == 0 then []
    else [Traffic(if o.username.Some? then o.username.value else "", o.cli, o.rel, p.peer, p.start, now, p.ts)]
  }

  /** The records logged when every entry of `ps` is destroyed in order. */
  function FarewellAll(o: Owner, ps: seq<Perm>, now: Time): seq<Traffic>
  {
    if |ps| == 0 then [] else FarewellAll(o, ps[..|ps| - 1], now) + Farewell(o, ps[|ps| - 1], now)
  }

  /** One packet of `n` bytes counted in one direction, with the 64-bit
      wrap-around of the counters. */
  function Count(ts: TrafStat, tx: bool, n: u64): TrafStat
  {
    if tx then ts.(pktcTx := Add64(ts.pktcTx, 1), bytcTx := Add64(ts.bytcTx, n))
    else ts.(pktcRx := Add64(ts.pktcRx, 1), bytcRx := Add64(ts.bytcRx, n))
  }

  /** The outcome of a lookup with lazy expiry: the table afterwards, the
      index of the live entry found, and the traffic logged. */
  datatype Found<T> = Found(rest: seq<T>, at: Option<nat>, log: seq<Traffic>)

  /** `perm_find`: the first entry for the peer's IP address; when it has
      expired (`expires < now`) it is destroyed, its traffic logged, and
      nothing is found.  An entry expiring exactly now is still found. */
  function Lookup(ps: seq<Perm>, peer: Addr, o: Owner, now: Time): (f: Found<Perm>)
    ensures f.at.Some? ==> f.rest == ps && f.log == [] && f.at.value < |ps|
                           && SaCmp(ps[f.at.value].peer, peer, SaAddr) && ps[f.at.value].expires >= now
    ensures f.at.None? ==> forall j :: 0 <= j < |ps| && SaCmp(ps[j].peer, peer, SaAddr) && ps[j].expires >= now
                                       ==> exists j' :: 0 <= j' < j && SaCmp(ps[j'].peer, peer, SaAddr)
    ensures f.rest == ps || exists k :: 0 <= k < |ps| && ps[k].expires < now && f.rest == RemoveAt(ps, k)
  {
    var k := FindIp(ps, peer);
    if k == |ps| then Found(ps, None, [])
    else if ps[k].expires < now then Found(RemoveAt(ps, k), None, Farewell(o, ps[k], now))
    else Found(ps, Some(k), [])
  }

  /** The table after entry `k` counted one packet of `n` bytes. */
  function Counted(ps: seq<Perm>, k: nat, tx: bool, n: u64): (r: seq<Perm>)
    requires k < |ps|
    ensures |r| == |ps| && forall j :: 0 <= j < |ps| && j != k ==> r[j] == ps[j]
    ensures r[k].peer == ps[k].peer && r[k].expires == ps[k].expires && r[k].ts == Count(ps[k].ts, tx, n)
  {
    ps[k := ps[k].(ts := Count(ps[k].ts, tx, n))]
  }

  /** The per-allocation permission table (`al->perms`), in insertion
      order. */
  class PermTable {
    var entries: seq<Perm>

    constructor()
      ensures entries == []
    {
      entries := [];
    }

    /** Outside a CreatePermission request: one entry per IP address, and
        no entry marked new. */
    predicate Valid()
      reads this
    {
      UniqueIps(entries) && NoNew(entries)
    }

    /** `perm_find`, as `Lookup` states it; when the table was valid it
        still is, and when nothing live was found no entry for that IP
        address is left. */
    method Find(peer: Addr, owner: Owner, now: Time) returns (i: Option<nat>, log: seq<Traffic>)
      modifies this
      ensures Found(entries, i, log) == Lookup(old(entries), peer, owner, now)
      ensures old(Valid()) ==> Valid()
      ensures old(Valid()) && i.None? ==> FindIp(entries, peer) == |entries|
    {
      var k := FindIp(entries, peer);
      if k == |entries| {
        return None, [];
      }
      if entries[k].expires < now {
        log := Farewell(owner, entries[k], now);
        if Valid() {
          EvictLeavesNone(entries, k, peer);
        }
        entries := RemoveAt(entries, k);
        return None, log;
      }
      return Some(k), [];
    }

    /** `perm_create`: appends a fresh entry; `perm_refresh` on it is not
        needed. */
    method Create(peer: Addr, now: Time) returns (i: nat)
      modifies this
      ensures entries == old(entries) + [Fresh(peer, now)] && i == |old(entries)|
    {
      entries := entries + [Fresh(peer, now)];
      i := |entries| - 1;
    }

    /** `perm_refresh`: a new lifetime from now; a null permission is left
        alone. */
    method Refresh(i: Option<nat>, now: Time)
      modifies this
      requires i.Some? ==> i.value < |entries|
      ensures i.None? ==> entries == old(entries)
      ensures i.Some? ==> entries == old(entries)[i.value := old(entries)[i.value].(expires := now + PERM_LIFETIME)]
    {
      if i.Some? {
        entries := entries[i.value := entries[i.value].(expires := now + PERM_LIFETIME)];
      }
    }

    /** `perm_tx_stat` (`tx`) and `perm_rx_stat`: one packet and `n` bytes
        in that direction only. */
    method Stat(i: Option<nat>, tx: bool, n: u64)
      modifies this
      requires i.Some? ==> i.value < |entries|
      ensures i.None? ==> entries == old(entries)
      ensures i.Some? ==> entries == Counted(old(entries), i.value, tx, n)
      ensures old(Valid()) ==> Valid()
    {
      if i.Some? {
        entries := entries[i.value := entries[i.value].(ts := Count(entries[i.value].ts, tx, n))];
      }
    }

    /** Destroys entry `i`, logging its traffic. */
    method Destroy(i: nat, owner: Owner, now: Time) returns (log: seq<Traffic>)
      modifies this
      requires i < |entries|
      ensures entries == RemoveAt(old(entries), i)
      ensures log == Farewell(owner, old(entries)[i], now)
    {
      log := Farewell(owner, entries[i], now);
      entries := RemoveAt(entries, i);
    }

    /** `hash_flush` in the allocation destructor: every entry is destroyed
        in order and the traffic of each is logged. */
    method Flush(owner: Owner, now: Time) returns (log: seq<Traffic>)
      modifies this
      ensures entries == [] && log == FarewellAll(owner, old(entries), now)
    {
      var ps := entries;
      log := [];
      var i := 0;
      while i < |ps|
        invariant 0 <= i <= |ps|
        invariant log == FarewellAll(owner, ps[..i], now)
      {
        assert ps[..i + 1][..i] == ps[..i];
        log := log + Farewell(owner, ps[i], now);
        i := i + 1;
      }
      assert ps[..i] == ps;
      entries := [];
    }
  }

  /** Removing the unique entry for an IP address leaves none. */
  lemma EvictLeavesNone(ps: seq<Perm>, k: nat, peer: Addr)
    requires UniqueIps(ps) && NoNew(ps) && k == FindIp(ps, peer) && k < |ps|
    ensures FindIp(RemoveAt(ps, k), peer) == |ps| - 1
    ensures UniqueIps(RemoveAt(ps, k)) && NoNew(RemoveAt(ps, k))
  {
    var r := RemoveAt(ps, k);
    forall i, j | 0 <= i < j < |r|
      ensures !SaCmp(r[i].peer, r[j].peer, SaAddr)
    {
      var i', j' := if i < k then i else i + 1, if j < k then j else j + 1;
      assert r[i] == ps[i'] && r[j] == ps[j'];
    }
    forall j | 0 <= j < |r|
      ensures !SaCmp(r[j].peer, peer, SaAddr)
    {
      var j' := if j < k then j else j + 1;
      assert r[j] == ps[j'];
      if j' > k {
        assert !SaCmp(ps[k].peer, ps[j'].peer, SaAddr);
      }
    }
  }

  // ---------------------------------------------------------------------
  // CreatePermission

  /** The state of a CreatePermission request between attributes: the
      table without the staged entries (they are unlinked from the hash
      table), the staging list `cp.perml`, the entries destroyed because
      they had expired, whether a peer of the wrong family was seen, and
      the traffic logged. */
  datatype Staging = Staging(table: seq<Perm>, staged: seq<Perm>, evicted: seq<Perm>, mismatch: bool, log: seq<Traffic>)

  function Start(table: seq<Perm>): Staging
  {
    Staging(table, [], [], false, [])
  }

  /** The XOR-PEER-ADDRESS values of the request, in order; every other
      attribute is ignored. */
  function PeersOf(attrs: seq<Attr>): seq<Addr>
  {
    if |attrs| == 0 then []
    else (if attrs[0].XorPeerAddr? then [attrs[0].peer] else []) + PeersOf(attrs[1..])
  }

  /** `attrib_handler` for one XOR-PEER-ADDRESS.  A peer of a family other
      than the relay's sets the mismatch flag.  Otherwise the peer's entry
      is looked up (destroying it when expired) or created, and moved to the
      staging list.  `searchStaged` selects the corrected handler, which
      first looks in the staging list and leaves a peer already staged
      alone; the handler as written does not. */
  function StageOne(s: Staging, peer: Addr, relAf: Family, o: Owner, now: Time, searchStaged: bool): Staging
  {
    if peer.af != relAf then s.(mismatch := true)
    else if searchStaged && FindIp(s.staged, peer) < |s.staged| then s
    else
      var k := FindIp(s.table, peer);
      if k < |s.table| && s.table[k].expires >= now then
        s.(table := RemoveAt(s.table, k), staged := s.staged + [s.table[k]])
      else if k < |s.table| then
        s.(table := RemoveAt(s.table, k), staged := s.staged + [Fresh(peer, now).(isNew := true)],
           evicted := s.evicted + [s.table[k]], log := s.log + Farewell(o, s.table[k], now))
      else
        s.(staged := s.staged + [Fresh(peer, now).(isNew := true)])
  }

  /** `stun_msg_attr_apply` with `attrib_handler`: the peers in order,
      stopping at the first family mismatch. */
  function Stage(s: Staging, peers: seq<Addr>, relAf: Family, o: Owner, now: Time, searchStaged: bool): Staging
    decreases |peers|
  {
    if |peers| == 0 || s.mismatch then s
    else Stage(StageOne(s, peers[0], relAf, o, now, searchStaged), peers[1..], relAf, o, now, searchStaged)
  }

  /** `commit_handler` on one staged entry: a new entry keeps its creation
      lifetime, an existing one is refreshed. */
  function Committed(p: Perm, now: Time): Perm
  {
    if p.isNew then p.(isNew := false) else p.(expires := now + PERM_LIFETIME)
  }

  /** The table after every staged entry is re-appended and committed. */
  function Commit(table: seq<Perm>, staged: seq<Perm>, now: Time): (r: seq<Perm>)
    ensures |r| == |table| + |staged|
  {
    table + seq(|staged|, k requires 0 <= k < |staged| => Committed(staged[k], now))
  }

  /** The staged entries that existed before the request, in order. */
  function Olds(staged: seq<Perm>): seq<Perm>
  {
    if |staged| == 0 then []
    else Olds(staged[..|staged| - 1]) + (if staged[|staged| - 1].isNew then [] else [staged[|staged| - 1]])
  }

  /** `rollback_handler` over the staging list: new entries are destroyed,
      existing ones are re-appended unchanged. */
  function Rollback(table: seq<Perm>, staged: seq<Perm>): seq<Perm>
  {
    table + Olds(staged)
  }

  /** The reply and the table `createperm_request` ends with once the
      peers are staged. */
  datatype PermAnswer = PermAnswer(reply: Reply, table: seq<Perm>)

  /** A family mismatch gets 443 and a rollback; a request that staged no
      XOR-PEER-ADDRESS gets 400; otherwise the answer is success, and the
      staged entries are committed when it is sent and rolled back when it
      is not. */
  function Answer(s: Staging, now: Time, proto: Proto, sock: nat, src: Addr, ctx: MsgCtx, sendOk: bool): PermAnswer
  {
    if s.mismatch then
      PermAnswer(ErrorReply(proto, sock, src, ctx, 443, "Peer Address Family Mismatch"), Rollback(s.table, s.staged))
    else if s.staged == [] then
      PermAnswer(ErrorReply(proto, sock, src, ctx, 400, "No Peer Attributes"), s.table)
    else
      PermAnswer(Reply(proto, sock, src, ctx.key, Success([Software])),
                 if sendOk then Commit(s.table, s.staged, now) else Rollback(s.table, s.staged))
  }

  /** What staging keeps true from the table `t0` it started on: nothing
      is lost (every original entry is in the table, staged unchanged, or
      evicted), evicted entries had expired, the table holds no new entry,
      and staged new entries carry a full lifetime from now. */
  predicate Accounted(t0: seq<Perm>, s: Staging, now: Time)
  {
    && multiset(s.table) + multiset(Olds(s.staged)) + multiset(s.evicted) == multiset(t0)
    && (forall i :: 0 <= i < |s.evicted| ==> s.evicted[i].expires < now)
    && (forall i :: 0 <= i < |s.table| ==> !s.table[i].isNew)
    && (forall i :: 0 <= i < |s.staged| ==> s.staged[i].isNew ==> s.staged[i].expires == now + PERM_LIFETIME)
  }

  lemma OldsAppend(staged: seq<Perm>, p: Perm)
    ensures Olds(staged + [p]) == Olds(staged) + (if p.isNew then [] else [p])
  {
    assert (staged + [p])[..|staged|] == staged;
  }

  lemma MoveAccounted(t0: seq<Perm>, s: Staging, k: nat, now: Time)
    requires Accounted(t0, s, now) && k < |s.table|
    ensures Accounted(t0, s.(table := RemoveAt(s.table, k), staged := s.staged + [s.table[k]]), now)
  {
    var p := s.table[k];
    MoveMultiset(s.table, s.staged, k);
    var rest := RemoveAt(s.table, k);
    assert forall i :: 0 <= i < |rest| ==> rest[i] in s.table by {
      RemoveAtMultiset(s.table, k);
      forall i | 0 <= i < |rest| ensures rest[i] in s.table {
        assert rest[i] in multiset(rest);
      }
    }
  }

  /** Moving entry `k` of the table to the end of the staging list keeps
      the union of the table and the staged existing entries. */
  lemma MoveMultiset(table: seq<Perm>, staged: seq<Perm>, k: nat)
    requires k < |table| && !table[k].isNew
    ensures multiset(RemoveAt(table, k)) + multiset(Olds(staged + [table[k]]))
         == multiset(table) + multiset(Olds(staged))
  {
    RemoveAtMultiset(table, k);
    OldsAppend(staged, table[k]);
  }

  lemma EvictAccounted(t0: seq<Perm>, s: Staging, k: nat, p: Perm, log: seq<Traffic>, now: Time)
    requires Accounted(t0, s, now) && k < |s.table| && s.table[k].expires < now
    requires p.isNew && p.expires == now + PERM_LIFETIME
    ensures Accounted(t0, s.(table := RemoveAt(s.table, k), staged := s.staged + [p],
                             evicted := s.evicted + [s.table[k]], log := log), now)
  {
    var q, t := s.table[k], RemoveAt(s.table, k);
    var s2 := s.(table := t, staged := s.staged + [p], evicted := s.evicted + [q], log := log);
    RemoveAtMultiset(s.table, k);
    OldsAppend(s.staged, p);
    assert multiset(s2.evicted) == multiset(s.evicted) + multiset{q};
    forall i | 0 <= i < |s2.evicted|
      ensures s2.evicted[i].expires < now
    {
      if i < |s.evicted| {
        assert s2.evicted[i] == s.evicted[i];
      }
    }
    forall i | 0 <= i < |s2.staged|
      ensures s2.staged[i].isNew ==> s2.staged[i].expires == now + PERM_LIFETIME
    {
      if i < |s.staged| {
        assert s2.staged[i] == s.staged[i];
      }
    }
    forall i | 0 <= i < |t|
      ensures !t[i].isNew
    {
      if i < k {
        assert t[i] == s.table[i];
      } else {
        assert t[i] == s.table[i + 1];
      }
    }
  }

  lemma NewAccounted(t0: seq<Perm>, s: Staging, p: Perm, now: Time)
    requires Accounted(t0, s, now)
    requires p.isNew && p.expires == now + PERM_LIFETIME
    ensures Accounted(t0, s.(staged := s.staged + [p]), now)
  {
    OldsAppend(s.staged, p);
  }

  lemma StageOneAccounted(t0: seq<Perm>, s: Staging, peer: Addr, relAf: Family, o: Owner, now: Time, searchStaged: bool)
    requires Accounted(t0, s, now)
    ensures Accounted(t0, StageOne(s, peer, relAf, o, now, searchStaged), now)
  {
    var r := StageOne(s, peer, relAf, o, now, searchStaged);
    if peer.af != relAf {
      assert r == s.(mismatch := true);
    } else if !(searchStaged && FindIp(s.staged, peer) < |s.staged|) {
      var k := FindIp(s.table, peer);
      var p := Fresh(peer, now).(isNew := true);
      if k < |s.table| && s.table[k].expires >= now {
        MoveAccounted(t0, s, k, now);
        assert r == s.(table := RemoveAt(s.table, k), staged := s.staged + [s.table[k]]);
      } else if k < |s.table| {
        var log := s.log + Farewell(o, s.table[k], now);
        EvictAccounted(t0, s, k, p, log, now);
        assert r == s.(table := RemoveAt(s.table, k), staged := s.staged + [p], evicted := s.evicted + [s.table[k]], log := log);
      } else {
        NewAccounted(t0, s, p, now);
        assert r == s.(staged := s.staged + [p]);
      }
    }
  }

  lemma {:induction false} StageAccounted(t0: seq<Perm>, s: Staging, peers: seq<Addr>, relAf: Family, o: Owner, now: Time, searchStaged: bool)
    requires Accounted(t0, s, now)
    ensures Accounted(t0, Stage(s, peers, relAf, o, now, searchStaged), now)
    decreases |peers|
  {
    if |peers| > 0 && !s.mismatch {
      StageOneAccounted(t0, s, peers[0], relAf, o, now, searchStaged);
      StageAccounted(t0, StageOne(s, peers[0], relAf, o, now, searchStaged), peers[1..], relAf, o, now, searchStaged);
    }
  }

  /** A failed CreatePermission changes nothing but the lazy expiry: the
      table afterwards holds exactly the original entries, unrefreshed,
      less the expired entries the lookups destroyed. */
  lemma RollbackRestores(t0: seq<Perm>, peers: seq<Addr>, relAf: Family, o: Owner, now: Time, searchStaged: bool)
    requires forall i :: 0 <= i < |t0| ==> !t0[i].isNew
    ensures var s := Stage(Start(t0), peers, relAf, o, now, searchStaged);
            && multiset(Rollback(s.table, s.staged)) + multiset(s.evicted) == multiset(t0)
            && forall i :: 0 <= i < |s.evicted| ==> s.evicted[i].expires < now
  {
    StageAccounted(t0, Start(t0), peers, relAf, o, now, searchStaged);
  }

  /** Some entry of `ps` is for the IP address of `q`. */
  predicate Covers(ps: seq<Perm>, q: Addr)
  {
    exists j :: 0 <= j < |ps| && IpKeyOf(ps[j].peer) == IpKeyOf(q)
  }

  lemma StageOneCovers(s: Staging, peer: Addr, relAf: Family, o: Owner, now: Time, searchStaged: bool)
    requires !s.mismatch
    ensures var s' := StageOne(s, peer, relAf, o, now, searchStaged);
            && |s'.staged| >= |s.staged| && s'.staged[..|s.staged|] == s.staged
            && (!s'.mismatch ==> Covers(s'.staged, peer))
  {
    var s' := StageOne(s, peer, relAf, o, now, searchStaged);
    if peer.af == relAf {
      if searchStaged && FindIp(s.staged, peer) < |s.staged| {
        var j := FindIp(s.staged, peer);
        assert IpKeyOf(s'.staged[j].peer) == IpKeyOf(peer);
      } else {
        assert IpKeyOf(s'.staged[|s.staged|].peer) == IpKeyOf(peer);
      }
    }
  }

  lemma {:induction false} StageCovers(s: Staging, peers: seq<Addr>, relAf: Family, o: Owner, now: Time, searchStaged: bool)
    requires !Stage(s, peers, relAf, o, now, searchStaged).mismatch
    ensures var s' := Stage(s, peers, relAf, o, now, searchStaged);
            forall q :: q in peers ==> Covers(s'.staged, q)
    decreases |peers|
  {
    if |peers| > 0 {
      var s1 := StageOne(s, peers[0], relAf, o, now, searchStaged);
      var s' := Stage(s, peers, relAf, o, now, searchStaged);
      assert s' == Stage(s1, peers[1..], relAf, o, now, searchStaged);
      StageCovers(s1, peers[1..], relAf, o, now, searchStaged);
      StageOneCovers(s, peers[0], relAf, o, now, searchStaged);
      StageKeepsPrefix(s1, peers[1..], relAf, o, now, searchStaged);
      var j :| 0 <= j < |s1.staged| && IpKeyOf(s1.staged[j].peer) == IpKeyOf(peers[0]);
      assert s'.staged[j] == s1.staged[j];
      assert forall q :: q in peers ==> q == peers[0] || q in peers[1..];
    }
  }

  lemma {:induction false} StageKeepsPrefix(s: Staging, peers: seq<Addr>, relAf: Family, o: Owner, now: Time, searchStaged: bool)
    ensures var s' := Stage(s, peers, relAf, o, now, searchStaged);
            |s'.staged| >= |s.staged| && s'.staged[..|s.staged|] == s.staged
    decreases |peers|
  {
    if |peers| > 0 && !s.mismatch {
      var s1 := StageOne(s, peers[0], relAf, o, now, searchStaged);
      StageKeepsPrefix(s1, peers[1..], relAf, o, now, searchStaged);
      StageOneCovers(s, peers[0], relAf, o, now, searchStaged);
      var s' := Stage(s, peers, relAf, o, now, searchStaged);
      assert s'.staged[..|s.staged|] == s'.staged[..|s1.staged|][..|s.staged|];
    }
  }

  /** A committed CreatePermission grants every requested peer IP a
      permission that lasts the full lifetime from now, whether the entry
      was new or refreshed. */
  lemma CommitGrants(t0: seq<Perm>, peers: seq<Addr>, relAf: Family, o: Owner, now: Time, searchStaged: bool)
    requires forall i :: 0 <= i < |t0| ==> !t0[i].isNew
    requires !Stage(Start(t0), peers, relAf, o, now, searchStaged).mismatch
    ensures var s := Stage(Start(t0), peers, relAf, o, now, searchStaged);
            var c := Commit(s.table, s.staged, now);
            forall q :: q in peers ==>
              exists j :: 0 <= j < |c| && IpKeyOf(c[j].peer) == IpKeyOf(q) && c[j].expires == now + PERM_LIFETIME && !c[j].isNew
  {
    var s := Stage(Start(t0), peers, relAf, o, now, searchStaged);
    StageAccounted(t0, Start(t0), peers, relAf, o, now, searchStaged);
    StageCovers(Start(t0), peers, relAf, o, now, searchStaged);
    var c := Commit(s.table, s.staged, now);
    forall q | q in peers
      ensures exists j :: 0 <= j < |c| && IpKeyOf(c[j].peer) == IpKeyOf(q) && c[j].expires == now + PERM_LIFETIME && !c[j].isNew
    {
      var j :| 0 <= j < |s.staged| && IpKeyOf(s.staged[j].peer) == IpKeyOf(q);
      assert c[|s.table| + j] == Committed(s.staged[j], now);
    }
  }

  /** What the corrected staging keeps true: the table and the staging
      list each hold one entry per IP address, and none in common. */
  predicate Separate(s: Staging)
  {
    UniqueIps(s.table) && UniqueIps(s.staged) && Disjoint(s.table, s.staged)
  }

  lemma RemoveAtUnique(ps: seq<Perm>, k: nat)
    requires UniqueIps(ps) && k < |ps|
    ensures UniqueIps(RemoveAt(ps, k))
  {
    var r := RemoveAt(ps, k);
    forall i, j | 0 <= i < j < |r|
      ensures !SaCmp(r[i].peer, r[j].peer, SaAddr)
    {
      var i' := if i < k then i else i + 1;
      var j' := if j < k then j else j + 1;
      assert r[i] == ps[i'] && r[j] == ps[j'];
    }
  }

  /** `sa_cmp` with `SA_ADDR` is an equivalence on addresses of a known
      family. */
  lemma SameIpTrans(a: Addr, b: Addr, c: Addr)
    requires SaCmp(a, b, SaAddr) && SaCmp(b, c, SaAddr)
    ensures SaCmp(a, c, SaAddr) && SaCmp(c, a, SaAddr) && SaCmp(b, a, SaAddr)
  {
  }

  lemma StageOneSeparate(s: Staging, peer: Addr, relAf: Family, o: Owner, now: Time)
    requires Separate(s) && NoNew(s.table)
    ensures Separate(StageOne(s, peer, relAf, o, now, true)) && NoNew(StageOne(s, peer, relAf, o, now, true).table)
  {
    if peer.af == relAf && FindIp(s.staged, peer) == |s.staged| {
      var k := FindIp(s.table, peer);
      var s' := StageOne(s, peer, relAf, o, now, true);
      var p := s'.staged[|s.staged|];
      assert s'.staged == s.staged + [p];
      // Whatever matches the staged entry's address matches the peer's.
      assert forall x :: SaCmp(x, p.peer, SaAddr) ==> SaCmp(x, peer, SaAddr);
      if k < |s.table| {
        RemoveAtUnique(s.table, k);
      }
      forall i, j | 0 <= i < |s'.table| && 0 <= j < |s'.staged|
        ensures !SaCmp(s'.table[i].peer, s'.staged[j].peer, SaAddr)
      {
        var i' := if k < |s.table| && i >= k then i + 1 else i;
        assert s'.table[i] == s.table[i'];
      }
      StagedAppendUnique(s.staged, p);
    }
  }

  lemma StagedAppendUnique(staged: seq<Perm>, p: Perm)
    requires UniqueIps(staged)
    requires forall j :: 0 <= j < |staged| ==> !SaCmp(staged[j].peer, p.peer, SaAddr)
    ensures UniqueIps(staged + [p])
  {
  }

  lemma {:induction false} StageSeparate(s: Staging, peers: seq<Addr>, relAf: Family, o: Owner, now: Time)
    requires Separate(s) && NoNew(s.table)
    ensures Separate(Stage(s, peers, relAf, o, now, true))
    decreases |peers|
  {
    if |peers| > 0 && !s.mismatch {
      StageOneSeparate(s, peers[0], relAf, o, now);
      StageSeparate(StageOne(s, peers[0], relAf, o, now, true), peers[1..], relAf, o, now);
    }
  }

  /** The corrected CreatePermission keeps one permission per peer IP
      address: committing or rolling back leaves a table without
      duplicates when it started without them. */
  lemma CommitKeepsUnique(t0: seq<Perm>, peers: seq<Addr>, relAf: Family, o: Owner, now: Time)
    requires UniqueIps(t0) && NoNew(t0)
    ensures var s := Stage(Start(t0), peers, relAf, o, now, true);
            UniqueIps(Commit(s.table, s.staged, now))
  {
    StageSeparate(Start(t0), peers, relAf, o, now);
    var s := Stage(Start(t0), peers, relAf, o, now, true);
    var c := Commit(s.table, s.staged, now);
    forall i, j | 0 <= i < j < |c|
      ensures !SaCmp(c[i].peer, c[j].peer, SaAddr)
    {
      if j >= |s.table| {
        assert c[j].peer == s.staged[j - |s.table|].peer;
        if i >= |s.table| {
          assert c[i].peer == s.staged[i - |s.table|].peer;
        }
      }
    }
  }

  /** The handler as written stages two entries for one IP address when a
      request names it twice (with different ports, say): `perm_find` does
      not see the entry already moved to the staging list, so a second one
      is created and both are committed. */
  lemma DuplicatePeerAsWritten()
    ensures var p1 := Addr(Inet, 0xC000_0201, 1000);
            var p2 := Addr(Inet, 0xC000_0201, 2000);
            var s := Stage(Start([]), [p1, p2], Inet, Owner(None, Unset, Unset), 0, false);
            !s.mismatch && |Commit(s.table, s.staged, 0)| == 2 && !UniqueIps(Commit(s.table, s.staged, 0))
  {
    var p1 := Addr(Inet, 0xC000_0201, 1000);
    var p2 := Addr(Inet, 0xC000_0201, 2000);
    var o := Owner(None, Unset, Unset);
    var s1 := StageOne(Start([]), p1, Inet, o, 0, false);
    assert s1.staged == [Fresh(p1, 0).(isNew := true)] && s1.table == [];
    var s2 := StageOne(s1, p2, Inet, o, 0, false);
    assert s2.staged == [Fresh(p1, 0).(isNew := true), Fresh(p2, 0).(isNew := true)];
    assert [p1, p2][1..] == [p2];
    assert Stage(Start([]), [p1, p2], Inet, o, 0, false) == Stage(s1, [p2], Inet, o, 0, false);
    assert Stage(s1, [p2], Inet, o, 0, false) == Stage(s2, [], Inet, o, 0, false);
    var c := Commit(s2.table, s2.staged, 0);
    assert c[0].peer == p1 && c[1].peer == p2;
  }

  /** `createperm_request`, with the corrected staging that also searches
      the staging list (`StagePeer`), so a peer IP named twice is staged
      once.  `sendOk` is whether the success reply could be sent; the error
      paths send their reply and roll back regardless. */
  method CreatePermission(table: PermTable, relAf: Family, owner: Owner, now: Time,
                          proto: Proto, sock: nat, src: Addr, ctx: MsgCtx, m: Msg, sendOk: bool)
    returns (r: Reply, log: seq<Traffic>)
    modifies table
    requires table.Valid()
    ensures table.Valid()
    ensures var s := Stage(Start(old(table.entries)), PeersOf(m.attrs), relAf, owner, now, true);
            log == s.log && PermAnswer(r, table.entries) == Answer(s, now, proto, sock, src, ctx, sendOk)
  {
    var staged, mismatch;
    ghost var evicted;
    staged, evicted, mismatch, log := StageAll(table, relAf, owner, now, m.attrs);
    ghost var fin := Staging(table.entries, staged, evicted, mismatch, log);
    var sendErr: bool;
    if mismatch {
      r := ErrorReply(proto, sock, src, ctx, 443, "Peer Address Family Mismatch");
      sendErr := true;
    } else if staged == [] {
      r := ErrorReply(proto, sock, src, ctx, 400, "No Peer Attributes");
      sendErr := true;
    } else {
      r := Reply(proto, sock, src, ctx.key, Success([Software]));
      sendErr := !sendOk;
    }
    if sendErr {
      RollbackTable(table, staged);
      RollbackKeepsUnique(fin.table, staged);
      assert staged == [] ==> Olds(staged) == [];
    } else {
      CommitTable(table, staged, now);
      CommitKeepsUniqueStep(fin, now);
    }
  }

  /** `stun_msg_attr_apply(msg, attrib_handler, &cp)`: the attributes in
      order until a family mismatch, each staged by the corrected
      `StagePeer`. */
  method StageAll(table: PermTable, relAf: Family, owner: Owner, now: Time, attrs: seq<Attr>)
    returns (staged: seq<Perm>, ghost evicted: seq<Perm>, mismatch: bool, log: seq<Traffic>)
    modifies table
    requires UniqueIps(table.entries) && NoNew(table.entries)
    ensures Staging(table.entries, staged, evicted, mismatch, log)
            == Stage(Start(old(table.entries)), PeersOf(attrs), relAf, owner, now, true)
    ensures Separate(Staging(table.entries, staged, evicted, mismatch, log)) && NoNew(table.entries)
  {
    ghost var t0 := table.entries;
    staged, evicted, mismatch, log := [], [], false, [];
    var i := 0;
    assert attrs[0..] == attrs;
    while i < |attrs| && !mismatch
      decreases |attrs| - i
      invariant 0 <= i <= |attrs|
      invariant Stage(Start(t0), PeersOf(attrs), relAf, owner, now, true)
                == Stage(Staging(table.entries, staged, evicted, mismatch, log), PeersOf(attrs[i..]), relAf, owner, now, true)
      invariant Separate(Staging(table.entries, staged, evicted, mismatch, log)) && NoNew(table.entries)
    {
      ghost var s := Staging(table.entries, staged, evicted, mismatch, log);
      PeersOfStep(attrs, i);
      if attrs[i].XorPeerAddr? {
        var peer := attrs[i].peer;
        StageOneSeparate(s, peer, relAf, owner, now);
        StageStep(s, peer, PeersOf(attrs[i + 1..]), relAf, owner, now);
        staged, evicted, mismatch, log := StagePeer(table, staged, evicted, log, peer, relAf, owner, now);
      } else {
        assert [] + PeersOf(attrs[i + 1..]) == PeersOf(attrs[i + 1..]);
      }
      i := i + 1;
    }
    assert !mismatch ==> attrs[i..] == [];
  }

  lemma PeersOfStep(attrs: seq<Attr>, i: nat)
    requires i < |attrs|
    ensures PeersOf(attrs[i..]) == (if attrs[i].XorPeerAddr? then [attrs[i].peer] else []) + PeersOf(attrs[i + 1..])
  {
    assert attrs[i..][1..] == attrs[i + 1..];
  }

  lemma StageStep(s: Staging, peer: Addr, rest: seq<Addr>, relAf: Family, o: Owner, now: Time)
    requires !s.mismatch
    ensures Stage(s, [peer] + rest, relAf, o, now, true) == Stage(StageOne(s, peer, relAf, o, now, true), rest, relAf, o, now, true)
  {
    assert ([peer] + rest)[1..] == rest;
  }

  /** `attrib_handler` on one XOR-PEER-ADDRESS, with the corrected search
      of the staging list. */
  method StagePeer(table: PermTable, staged: seq<Perm>, ghost evicted: seq<Perm>, log: seq<Traffic>,
                   peer: Addr, relAf: Family, owner: Owner, now: Time)
    returns (staged': seq<Perm>, ghost evicted': seq<Perm>, mismatch: bool, log': seq<Traffic>)
    modifies table
    ensures Staging(table.entries, staged', evicted', mismatch, log')
            == StageOne(Staging(old(table.entries), staged, evicted, false, log), peer, relAf, owner, now, true)
  {
    staged', evicted', mismatch, log' := staged, evicted, false, log;
    if peer.af != relAf {
      mismatch := true;
    } else if FindIp(staged, peer) == |staged| {
      // `perm_find`, then either the entry found or a new one moves to the
      // staging list.
      ghost var t := table.entries;
      ghost var k := FindIp(t, peer);
      var found, flog := table.Find(peer, owner, now);
      if found.Some? {
        var p := table.entries[found.value];
        table.entries := RemoveAt(table.entries, found.value);
        staged' := staged + [p];
      } else {
        if k < |t| {
          evicted' := evicted + [t[k]];
        }
        log' := log + flog;
        staged' := staged + [Fresh(peer, now).(isNew := true)];
      }
    }
  }

  /** The list walk of `rollback_handler`. */
  method RollbackTable(table: PermTable, staged: seq<Perm>)
    modifies table
    ensures table.entries == Rollback(old(table.entries), staged)
  {
    ghost var t := table.entries;
    var i := 0;
    while i < |staged|
      invariant 0 <= i <= |staged|
      invariant table.entries == t + Olds(staged[..i])
    {
      assert staged[..i + 1] == staged[..i] + [staged[i]];
      OldsAppend(staged[..i], staged[i]);
      if !staged[i].isNew {
        table.entries := table.entries + [staged[i]];
      }
      i := i + 1;
    }
    assert staged[..i] == staged;
  }

  /** The list walk of `commit_handler`. */
  method CommitTable(table: PermTable, staged: seq<Perm>, now: Time)
    modifies table
    ensures table.entries == Commit(old(table.entries), staged, now)
  {
    ghost var t := table.entries;
    var i := 0;
    while i < |staged|
      invariant 0 <= i <= |staged|
      invariant table.entries == t + seq(i, k requires 0 <= k < i => Committed(staged[k], now))
    {
      table.entries := table.entries + [Committed(staged[i], now)];
      i := i + 1;
    }
  }

  lemma CommitKeepsUniqueStep(s: Staging, now: Time)
    requires Separate(s)
    requires forall k :: 0 <= k < |s.table| ==> !s.table[k].isNew
    ensures UniqueIps(Commit(s.table, s.staged, now))
    ensures forall k :: 0 <= k < |Commit(s.table, s.staged, now)| ==> !Commit(s.table, s.staged, now)[k].isNew
  {
    var c := Commit(s.table, s.staged, now);
    forall i, j | 0 <= i < j < |c|
      ensures !SaCmp(c[i].peer, c[j].peer, SaAddr)
    {
      if j >= |s.table| {
        assert c[j].peer == s.staged[j - |s.table|].peer;
        if i >= |s.table| {
          assert c[i].peer == s.staged[i - |s.table|].peer;
        }
      }
    }
  }

  lemma {:induction false} OldsFrom(staged: seq<Perm>)
    ensures forall x :: x in Olds(staged) ==> x in staged && !x.isNew
  {
    if |staged| > 0 {
      var init := staged[..|staged| - 1];
      OldsFrom(init);
      assert staged == init + [staged[|staged| - 1]];
    }
  }

  /** Rolling back re-appends only entries that were in the table before
      the request, so the table keeps one entry per IP address. */
  lemma {:induction false} RollbackKeepsUnique(table: seq<Perm>, staged: seq<Perm>)
    requires UniqueIps(table) && UniqueIps(staged) && Disjoint(table, staged)
    requires forall i :: 0 <= i < |table| ==> !table[i].isNew
    ensures UniqueIps(Rollback(table, staged))
    ensures forall i :: 0 <= i < |Rollback(table, staged)| ==> !Rollback(table, staged)[i].isNew
  {
    if |staged| > 0 {
      var n := |staged| - 1;
      var init, last := staged[..n], staged[n];
      RollbackKeepsUnique(table, init);
      OldsFrom(init);
      var r := Rollback(table, init);
      assert Olds(staged) == Olds(init) + (if last.isNew then [] else [last]);
      if !last.isNew {
        forall i | 0 <= i < |r|
          ensures !SaCmp(r[i].peer, last.peer, SaAddr)
        {
          if i >= |table| {
            assert r[i] in Olds(init);
            var j :| 0 <= j < |init| && init[j] == r[i];
            assert staged[j] == r[i];
          }
        }
        StagedAppendUnique(r, last);
        assert Rollback(table, staged) == r + [last];
      } else {
        assert Rollback(table, staged) == r;
      }
    }
  }
}
