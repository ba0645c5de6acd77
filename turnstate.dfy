/** The state of the TURN module: one allocation per client 5-tuple, with
    its relayed transport address, its permission table and its channel
    list, and the module-wide counters and configuration. */
module TurnState {
  import opened Net
  import opened Db
  import opened Perm
  import opened Chan

  /** `struct allocation`.  What the allocation request fixes when it
      creates the allocation is `const`; the relayed and reserved
      addresses, whether their sockets are open, the drop counters and the
      expiry of the lifetime timer (in milliseconds of the timer clock)
      change afterwards. */
  class Allocation {
    const tid: seq<byte>
    const cli: Addr
    const srv: Addr
    const proto: Proto
    const cliSock: nat
    const username: Option<string>
    const perms: PermTable
    const chans: ChanList
    var rel: Addr
    var rsv: Addr
    var relOpen: bool
    var rsvOpen: bool
    var dropcTx: u64
    var dropcRx: u64
    var expiresMs: int

    /** `mem_zalloc` plus the fields `allocate_request` fills in: the
        relayed and reserved addresses start unset, no socket is open, the
        counters are zero and both tables are empty. */
    constructor(tid: seq<byte>, cli: Addr, srv: Addr, proto: Proto, cliSock: nat,
                username: Option<string>, expiresMs: int, count: ChanCount)
      ensures this.tid == tid && this.cli == cli && this.srv == srv && this.proto == proto
      ensures this.cliSock == cliSock && this.username == username && this.expiresMs == expiresMs
      ensures rel == Unset && rsv == Unset && !relOpen && !rsvOpen && dropcTx == 0 && dropcRx == 0
      ensures fresh(perms) && fresh(chans) && perms.entries == [] && chans.entries == []
      ensures chans.count == count
    {
      this.tid := tid;
      this.cli := cli;
      this.srv := srv;
      this.proto := proto;
      this.cliSock := cliSock;
      this.username := username;
      this.expiresMs := expiresMs;
      rel, rsv := Unset, Unset;
      relOpen, rsvOpen := false, false;
      dropcTx, dropcRx := 0, 0;
      perms := new PermTable();
      chans := new ChanList(count);
    }

    /** What a permission's traffic record names about its allocation. */
    function OwnerOf(): Owner
      reads this
    {
      Owner.Owner(username, cli, rel)
    }

    /** Both tables keep their invariants. */
    predicate Tables()
      reads perms, chans
    {
      perms.Valid() && chans.Valid()
    }
  }

  /** `hash_cmp_handler` of the allocation table: same client address and
      port, same server address and port, same transport. */
  predicate Matches(a: Allocation, proto: Proto, src: Addr, dst: Addr)
  {
    SaCmp(a.cli, src, SaAll) && SaCmp(a.srv, dst, SaAll) && a.proto == proto
  }

  /** `allocation_find`: the first allocation of the 5-tuple; `|allocs|`
      when there is none. */
  function FindTuple(allocs: seq<Allocation>, proto: Proto, src: Addr, dst: Addr): (i: nat)
    ensures i <= |allocs|
    ensures i < |allocs| ==> Matches(allocs[i], proto, src, dst)
    ensures forall j :: 0 <= j < i ==> !Matches(allocs[j], proto, src, dst)
  {
    if |allocs| == 0 then 0
    else if Matches(allocs[0], proto, src, dst) then 0
    else 1 + FindTuple(allocs[1..], proto, src, dst)
  }

  /** At most one allocation per 5-tuple, each listed once. */
  predicate UniqueTuples(allocs: seq<Allocation>)
  {
    forall i, j :: 0 <= i < j < |allocs| ==>
      allocs[i] != allocs[j] && !Matches(allocs[i], allocs[j].proto, allocs[j].cli, allocs[j].srv)
  }

  /** No two allocations share a permission table or a channel list. */
  predicate OwnTables(allocs: seq<Allocation>)
  {
    forall a, b :: a in allocs && b in allocs && a != b ==> a.perms != b.perms && a.chans != b.chans
  }

  /** `struct turnd` (the module's static `turnd`); `traffic` holds the
      records handed to `restund_log_traffic`, in order. */
  class Turnd {
    var relAddr: Addr
    var relAddr6: Addr
    var allocs: seq<Allocation>
    var bsize: nat
    var bytecTx: u64
    var bytecRx: u64
    var errcTx: u64
    var errcRx: u64
    var alloccTot: u64
    var alloccCur: nat
    var lifetimeMax: u32
    var traffic: seq<Traffic>
    /** `chan_cur`, shared by every allocation's channel list. */
    const chanCount: ChanCount

    /** The zero-initialised static structure. */
    constructor()
      ensures allocs == [] && alloccCur == 0 && alloccTot == 0 && traffic == []
      ensures bytecTx == 0 && bytecRx == 0 && errcTx == 0 && errcRx == 0 && bsize == 1
      ensures relAddr == Unset && relAddr6 == Unset && lifetimeMax == 0
      ensures fresh(chanCount) && chanCount.cur == 0
    {
      relAddr, relAddr6 := Unset, Unset;
      allocs := [];
      bsize := 1;
      bytecTx, bytecRx, errcTx, errcRx, alloccTot := 0, 0, 0, 0, 0;
      alloccCur := 0;
      lifetimeMax := 0;
      traffic := [];
      chanCount := new ChanCount();
    }

    /** The traffic counters. */
    function Stats(): TurnStats
      reads this
    {
      TurnStats(bytecTx, bytecRx, errcTx, errcRx, alloccTot)
    }

    /** The configuration `module_init` sets. */
    function Conf(): TurnConf
      reads this
    {
      TurnConf(relAddr, relAddr6, bsize, lifetimeMax)
    }

    /** The current-allocation counter counts the table, the table has at
        least one bucket, no 5-tuple has two allocations, and every
        allocation owns its tables, keeps their invariants and counts its
        channels in `chanCount`. */
    predicate Valid()
      reads this, (set a | a in allocs :: a.perms), (set a | a in allocs :: a.chans)
    {
      && alloccCur == |allocs| && bsize >= 1 && UniqueTuples(allocs) && OwnTables(allocs)
      && (forall a :: a in allocs ==> a.Tables())
      && forall a :: a in allocs ==> a.chans.count == chanCount
    }
  }

  datatype TurnStats = TurnStats(bytecTx: u64, bytecRx: u64, errcTx: u64, errcRx: u64, alloccTot: u64)

  datatype TurnConf = TurnConf(relAddr: Addr, relAddr6: Addr, bsize: nat, lifetimeMax: u32)

  /** Appending an allocation for a 5-tuple that has none keeps the tuples
      unique. */
  lemma AppendUnique(allocs: seq<Allocation>, al: Allocation)
    requires UniqueTuples(allocs) && al !in allocs
    requires FindTuple(allocs, al.proto, al.cli, al.srv) == |allocs|
    ensures UniqueTuples(allocs + [al])
  {
  }

  /** Removing an allocation keeps the tuples unique and the tables owned,
      and leaves no allocation sharing a table with the removed one. */
  lemma RemoveUnique(allocs: seq<Allocation>, k: nat)
    requires UniqueTuples(allocs) && OwnTables(allocs) && k < |allocs|
    ensures UniqueTuples(RemoveAt(allocs, k)) && OwnTables(RemoveAt(allocs, k))
    ensures forall a :: a in RemoveAt(allocs, k) <==> a in allocs && a != allocs[k]
    ensures forall a :: a in RemoveAt(allocs, k) ==> a.perms != allocs[k].perms && a.chans != allocs[k].chans
  {
    var r := RemoveAt(allocs, k);
    forall i, j | 0 <= i < j < |r|
      ensures r[i] != r[j] && !Matches(r[i], r[j].proto, r[j].cli, r[j].srv)
    {
      var i' := if i < k then i else i + 1;
      var j' := if j < k then j else j + 1;
      assert r[i] == allocs[i'] && r[j] == allocs[j'];
    }
    RemoveMembers(allocs, k);
  }

  lemma RemoveMembers(allocs: seq<Allocation>, k: nat)
    requires UniqueTuples(allocs) && k < |allocs|
    ensures forall a :: a in RemoveAt(allocs, k) <==> a in allocs && a != allocs[k]
  {
    var r := RemoveAt(allocs, k);
    forall a
      ensures a in r <==> a in allocs && a != allocs[k]
    {
      if a in allocs && a != allocs[k] {
        var i :| 0 <= i < |allocs| && allocs[i] == a;
        if i < k { assert r[i] == a; } else { assert r[i - 1] == a; }
      }
      if a in r {
        var i :| 0 <= i < |r| && r[i] == a;
        var i' := if i < k then i else i + 1;
        assert allocs[i'] == a;
      }
    }
  }

  /** The index of an allocation in the table. */
  function IndexOf(allocs: seq<Allocation>, al: Allocation): (i: nat)
    requires al in allocs
    ensures i < |allocs| && allocs[i] == al
  {
    if allocs[0] == al then 0 else 1 + IndexOf(allocs[1..], al)
  }
}
