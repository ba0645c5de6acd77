/** The server database: the queue of traffic records waiting to be written
    by the back-end, and the credential table loaded from the back-end that
    `restund_get_ha1` answers from.  The database thread, its mutexes and
    its condition variable are not modelled: each operation below is one
    step taken with the relevant lock held. */
module Db {
  import opened Net
  import opened Text
  import opened Sizing

  /** `struct restund_trafstat`: packet and byte counts per direction. */
  datatype TrafStat = TrafStat(pktcTx: u64, pktcRx: u64, bytcTx: u64, bytcRx: u64)

  /** `struct traffic`: one queued record. */
  datatype Traffic = Traffic(username: string, cli: Addr, relay: Addr, peer: Addr,
                             start: Time, end: Time, ts: TrafStat)

  /** `struct account`: a user name and its HA1 key. */
  datatype Account = Account(username: string, ha1: Digest)

  /** One row the back-end's `allh` hands to `account_handler`. */
  datatype Row = Row(username: string, ha1: string)

  /** `struct restund_db`: which of the handlers `allh`, `cnth` and `tlogh`
      the back-end provides. */
  datatype Backend = Backend(hasAllh: bool, hasCnth: bool, hasTlogh: bool)

  /** `account_handler`: `str_hex` only checks that the text is exactly 32
      characters; characters that are not hexadecimal digits read as 0. */
  function ParseAccount(r: Row): (a: Result<Account>)
    ensures a.Err? <==> |r.ha1| != 32
    ensures a.Err? ==> a.error == EINVAL
    ensures a.Ok? ==> a.value.username == r.username
  {
    if |r.ha1| != 32 then Err(EINVAL) else Ok(Account(r.username, UnHexBytes(r.ha1)))
  }

  /** An HA1 written as 32 hexadecimal digits loads as the key it spells. */
  lemma ParseAccountRoundTrip(u: string, d: Digest)
    ensures ParseAccount(Row(u, HexBytes(d))) == Ok(Account(u, d))
  {
  }

  /** The back-end's row walk: `account_handler` on every row in order,
      stopping at the first error, which is returned. */
  function Load(rows: seq<Row>): Result<seq<Account>>
  {
    if |rows| == 0 then Ok([])
    else match Load(rows[..|rows| - 1])
      case Err(e) => Err(e)
      case Ok(t) =>
        match ParseAccount(rows[|rows| - 1])
        case Err(e) => Err(e)
        case Ok(a) => Ok(t + [a])
  }

  /** Loading succeeds exactly when every row's HA1 has 32 characters, and
      then yields one account per row, in row order. */
  lemma {:induction false} LoadAll(rows: seq<Row>)
    ensures Load(rows).Ok? <==> forall i :: 0 <= i < |rows| ==> |rows[i].ha1| == 32
    ensures Load(rows).Ok? ==> Mirrors(Load(rows).value, rows)
  {
    if |rows| > 0 {
      LoadAll(rows[..|rows| - 1]);
    }
  }

  /** The position of the first account named `u`, or `|t|` when there is
      none (the bucket walk of `hash_lookup` with `strcmp`). */
  function FirstUser(t: seq<Account>, u: string): (i: nat)
    ensures i <= |t|
    ensures i < |t| ==> t[i].username == u
    ensures forall j :: 0 <= j < i ==> t[j].username != u
  {
    if |t| == 0 then 0
    else if t[0].username == u then 0
    else 1 + FirstUser(t[1..], u)
  }

  /** What `restund_get_ha1` answers for a user name: ENOENT when the
      database is not running, no table is loaded or no account has that
      name; otherwise the key of the first such account. */
  function Ha1Of(run: bool, creds: Option<seq<Account>>, u: string): Result<Digest>
  {
    if !run || creds.None? then Err(ENOENT)
    else
      var i := FirstUser(creds.value, u);
      if i < |creds.value| then Ok(creds.value[i].ha1) else Err(ENOENT)
  }

  /** After a table is loaded from `rows`, a user's key is the HA1 of the
      first row with that name, and a name with no row is unknown. */
  lemma LoadedLookup(rows: seq<Row>, u: string)
    requires Load(rows).Ok?
    ensures Ha1Of(true, Some(Load(rows).value), u).Ok? <==> exists i :: 0 <= i < |rows| && rows[i].username == u
    ensures forall i :: 0 <= i < |rows| && rows[i].username == u
                        && (forall j :: 0 <= j < i ==> rows[j].username != u)
                        ==> Ha1Of(true, Some(Load(rows).value), u).Ok?
                            && Ha1Of(true, Some(Load(rows).value), u).value == UnHexBytes(rows[i].ha1)
  {
    LoadAll(rows);
    MirrorLookup(Load(rows).value, rows, u);
  }

  /** `t` holds one account per row of `rows`, in row order. */
  predicate Mirrors(t: seq<Account>, rows: seq<Row>)
  {
    |t| == |rows|
    && forall i :: 0 <= i < |rows| ==> t[i].username == rows[i].username && t[i].ha1 == UnHexBytes(rows[i].ha1)
  }

  lemma MirrorLookup(t: seq<Account>, rows: seq<Row>, u: string)
    requires Mirrors(t, rows)
    ensures Ha1Of(true, Some(t), u).Ok? <==> exists i :: 0 <= i < |rows| && rows[i].username == u
    ensures forall i :: 0 <= i < |rows| && rows[i].username == u
                        && (forall j :: 0 <= j < i ==> rows[j].username != u)
                        ==> Ha1Of(true, Some(t), u).Ok? && Ha1Of(true, Some(t), u).value == UnHexBytes(rows[i].ha1)
  {
    var k := FirstUser(t, u);
    var h := Ha1Of(true, Some(t), u);
    assert h == if k < |t| then Ok(t[k].ha1) else Err(ENOENT);
    if k < |t| {
      assert rows[k].username == u;
    } else {
      forall i | 0 <= i < |rows|
        ensures rows[i].username != u
      {
        assert t[i].username == rows[i].username;
      }
    }
    forall i | 0 <= i < |rows| && rows[i].username == u && (forall j :: 0 <= j < i ==> rows[j].username != u)
      ensures h.Ok? && h.value == UnHexBytes(rows[i].ha1)
    {
      assert t[i].username == u;
      assert t[k].username == rows[k].username;
      assert k == i;
    }
  }

  /** The result of draining the queue: the records taken off it for good
      (written, or dropped when there is no `tlogh`), the records left, and
      the error that stopped the drain. */
  datatype Drained = Drained(taken: seq<Traffic>, rest: seq<Traffic>, err: Option<Errno>)

  /** `save_traffic_records` as a function of the queue, whether the
      back-end can write, and the answer `tlogh` gives for each record. */
  function Drain(fifo: seq<Traffic>, canWrite: bool, write: Traffic -> Option<Errno>): Drained
  {
    if |fifo| == 0 then Drained([], [], None)
    else if canWrite && write(fifo[0]).Some? then Drained([], fifo, write(fifo[0]))
    else
      var d := Drain(fifo[1..], canWrite, write);
      Drained([fifo[0]] + d.taken, d.rest, d.err)
  }

  /** Draining loses and reorders nothing: the records taken and the
      records left are the queue; the drain stops exactly at a failed write,
      which is left at the head for a later retry; without a writer every
      record is dropped. */
  lemma {:induction false} DrainKeepsOrder(fifo: seq<Traffic>, canWrite: bool, write: Traffic -> Option<Errno>)
    ensures var d := Drain(fifo, canWrite, write);
            && d.taken + d.rest == fifo
            && (d.err.None? <==> d.rest == [])
            && (d.err.Some? ==> canWrite && d.err == write(d.rest[0]))
            && (forall t :: t in d.taken && canWrite ==> write(t).None?)
            && (!canWrite ==> d.taken == fifo)
  {
    if |fifo| > 0 && !(canWrite && write(fifo[0]).Some?) {
      DrainKeepsOrder(fifo[1..], canWrite, write);
      var d := Drain(fifo[1..], canWrite, write);
      assert [fifo[0]] + d.taken + d.rest == [fifo[0]] + (d.taken + d.rest);
      assert fifo == [fifo[0]] + fifo[1..];
    }
  }

  /** The static `database` structure (without its thread and locks). */
  class Database {
    var db: Option<Backend>
    var run: bool
    var realm: string
    /** `traffic.fifo`, head first. */
    var fifo: seq<Traffic>
    /** `cred.ht`: `None` while no table is loaded. */
    var creds: Option<seq<Account>>
    /** The bucket count of the loaded table. */
    var bsize: nat

    /** The static initialiser plus `restund_db_set_handler`. */
    constructor(backend: Option<Backend>)
      ensures db == backend && !run && realm == "myrealm" && fifo == [] && creds.None?
    {
      db := backend;
      run := false;
      realm := "myrealm";
      fifo := [];
      creds := None;
      bsize := 0;
    }

    /** `restund_db_init`: the configured realm replaces the default; with a
        back-end the database thread is started and the database runs. */
    method Init(realmConf: Option<string>, threadErr: Option<Errno>) returns (err: Option<Errno>)
      modifies this
      ensures realm == if realmConf.Some? then realmConf.value else old(realm)
      ensures db.None? ==> err.None? && run == old(run)
      ensures db.Some? ==> err == threadErr && run == (old(run) || threadErr.None?)
      ensures db == old(db) && fifo == old(fifo) && creds == old(creds) && bsize == old(bsize)
    {
      if realmConf.Some? {
        realm := realmConf.value;
      }
      if db.None? {
        return None;
      }
      if threadErr.Some? {
        return threadErr;
      }
      run := true;
      return None;
    }

    /** `restund_db_close`: a running database thread is told to quit and
        joined; before it ends it saves the queued traffic records once
        more (`taken`, as `SaveTrafficRecords` does).  What it could not
        write is then flushed, and the credential table dropped. */
    method Close(write: Traffic -> Option<Errno>) returns (taken: seq<Traffic>)
      modifies this
      ensures old(run) ==> taken == Drain(old(fifo), db.Some? && db.value.hasTlogh, write).taken
      ensures !old(run) ==> taken == []
      ensures !run && fifo == [] && creds.None?
      ensures db == old(db) && realm == old(realm)
    {
      taken := [];
      if run {
        var err;
        err, taken := SaveTrafficRecords(write);
        run := false;
      }
      fifo := [];
      creds := None;
    }

    /** `restund_log_traffic`: EINVAL when an address or the statistics are
        missing; nothing is queued unless the database runs with a `tlogh`;
        otherwise the record goes to the tail, a missing user name as "". */
    method LogTraffic(username: Option<string>, cli: Option<Addr>, relay: Option<Addr>, peer: Option<Addr>,
                      start: Time, end: Time, ts: Option<TrafStat>) returns (err: Option<Errno>)
      modifies this
      ensures cli.None? || relay.None? || peer.None? || ts.None? ==> err == Some(EINVAL) && fifo == old(fifo)
      ensures cli.Some? && relay.Some? && peer.Some? && ts.Some? ==> err.None?
      ensures cli.Some? && relay.Some? && peer.Some? && ts.Some? && run && db.Some? && db.value.hasTlogh ==>
                fifo == old(fifo) + [Traffic(if username.Some? then username.value else "",
                                             cli.value, relay.value, peer.value, start, end, ts.value)]
      ensures !(run && db.Some? && db.value.hasTlogh) ==> fifo == old(fifo)
      ensures run == old(run) && db == old(db) && creds == old(creds) && realm == old(realm)
    {
      if cli.None? || relay.None? || peer.None? || ts.None? {
        return Some(EINVAL);
      }
      if !run || db.None? || !db.value.hasTlogh {
        return None;
      }
      var name := if username.Some? then username.value else "";
      fifo := fifo + [Traffic(name, cli.value, relay.value, peer.value, start, end, ts.value)];
      return None;
    }

    /** `save_traffic_records`: pops records from the head and hands each to
        `tlogh`; a record whose write fails goes back to the head and the
        drain stops.  Without a `tlogh` every record is popped and dropped. */
    method SaveTrafficRecords(write: Traffic -> Option<Errno>) returns (err: Option<Errno>, taken: seq<Traffic>)
      modifies this
      ensures Drained(taken, fifo, err) == Drain(old(fifo), db.Some? && db.value.hasTlogh, write)
      ensures run == old(run) && db == old(db) && creds == old(creds) && realm == old(realm)
    {
      var canWrite := db.Some? && db.value.hasTlogh;
      ghost var f0 := fifo;
      err := None;
      taken := [];
      while |fifo| > 0
        invariant err.None?
        invariant Drain(f0, canWrite, write) == Drained(taken + Drain(fifo, canWrite, write).taken,
                                                       Drain(fifo, canWrite, write).rest,
                                                       Drain(fifo, canWrite, write).err)
        invariant run == old(run) && db == old(db) && creds == old(creds) && realm == old(realm)
        decreases |fifo|
      {
        var trf := fifo[0];
        fifo := fifo[1..];
        if canWrite {
          err := write(trf);
        }
        if err.Some? {
          fifo := [trf] + fifo;
          return;
        }
        assert taken + ([trf] + Drain(fifo, canWrite, write).taken) == (taken + [trf]) + Drain(fifo, canWrite, write).taken;
        taken := taken + [trf];
      }
      assert taken + [] == taken;
    }

    /** `restund_get_ha1`: EINVAL for a missing user name or key buffer,
        otherwise the answer of the loaded table. */
    method GetHa1(username: Option<string>, hasBuf: bool) returns (r: Result<Digest>)
      ensures username.None? || !hasBuf ==> r == Err(EINVAL)
      ensures username.Some? && hasBuf ==> r == Ha1Of(run, creds, username.value)
    {
      if username.None? || !hasBuf {
        return Err(EINVAL);
      }
      if !run || creds.None? {
        return Err(ENOENT);
      }
      var t := creds.value;
      var i := 0;
      while i < |t|
        invariant 0 <= i <= |t|
        invariant forall j :: 0 <= j < i ==> t[j].username != username.value
      {
        if t[i].username == username.value {
          return Ok(t[i].ha1);
        }
        i := i + 1;
      }
      return Err(ENOENT);
    }

    /** `sync_credentials`: without `allh` and `cnth` nothing happens; a
        count or load error is returned and the old table stays; otherwise
        the new table, sized to the least power of two that is at least the
        count and at least 4, replaces the old one. */
    method SyncCredentials(count: Result<u32>, rows: Result<seq<Row>>) returns (err: Option<Errno>)
      modifies this
      requires count.Ok? ==> count.value <= 0x8000_0000
      ensures db.None? || !db.value.hasAllh || !db.value.hasCnth ==> err.None? && creds == old(creds)
      ensures db.Some? && db.value.hasAllh && db.value.hasCnth ==>
                && (count.Err? ==> err == Some(count.error) && creds == old(creds))
                && (count.Ok? && rows.Err? ==> err == Some(rows.error) && creds == old(creds))
                && (count.Ok? && rows.Ok? && Load(rows.value).Err? ==> err == Some(Load(rows.value).error) && creds == old(creds))
                && (count.Ok? && rows.Ok? && Load(rows.value).Ok? ==>
                      err.None? && creds == Some(Load(rows.value).value)
                      && bsize >= 4 && bsize >= count.value
                      && exists x: nat :: 2 <= x && bsize == Pow2(x) && forall y: nat :: 2 <= y < x ==> Pow2(y) < count.value)
      ensures run == old(run) && db == old(db) && fifo == old(fifo) && realm == old(realm)
    {
      if db.None? || !db.value.hasAllh || !db.value.hasCnth {
        return None;
      }
      if count.Err? {
        return Some(count.error);
      }
      var x, sz := BucketCount(count.value);
      if rows.Err? {
        return Some(rows.error);
      }
      var rs := rows.value;
      var table: seq<Account> := [];
      var i := 0;
      while i < |rs|
        invariant 0 <= i <= |rs|
        invariant Load(rs[..i]) == Ok(table)
      {
        assert rs[..i + 1][..i] == rs[..i];
        var a := ParseAccount(rs[i]);
        if a.Err? {
          assert Load(rs[..i + 1]).Err?;
          LoadStops(rs, i + 1);
          return Some(a.error);
        }
        table := table + [a.value];
        i := i + 1;
      }
      assert rs[..i] == rs;
      creds := Some(table);
      bsize := sz;
      return None;
    }
  }

  /** Once a prefix of the rows fails to load, so do all the rows, with the
      same error. */
  lemma {:induction false} LoadStops(rows: seq<Row>, n: nat)
    requires n <= |rows| && Load(rows[..n]).Err?
    ensures Load(rows) == Load(rows[..n])
    decreases |rows| - n
  {
    if n < |rows| {
      assert rows[..n + 1][..n] == rows[..n];
      LoadStops(rows, n + 1);
    } else {
      assert rows[..n] == rows;
    }
  }
}
