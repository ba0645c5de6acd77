/** The statistics module: a request hook that counts requests per method
    without ever claiming them, and the "stat" command that prints the five
    counters. */
module Stat {
  import opened Net
  import opened StunMsg
  import opened Text

  datatype Counter = BindReq | AllocReq | RefreshReq | ChanBindReq | UnknownReq

  /** The counter a request is counted under: its method's own counter for
      Binding, Allocate, Refresh and ChannelBind; the unknown-request counter
      for any other method, but only when the magic cookie is present. */
  function CounterOf(m: Msg): (c: Option<Counter>)
    ensures m.meth == Binding <==> c == Some(BindReq)
    ensures m.meth == Allocate <==> c == Some(AllocReq)
    ensures m.meth == Refresh <==> c == Some(RefreshReq)
    ensures m.meth == ChannelBind <==> c == Some(ChanBindReq)
    ensures c == Some(UnknownReq) <==> m.cookie && !m.meth.Binding? && !m.meth.Allocate?
                                        && !m.meth.Refresh? && !m.meth.ChannelBind?
  {
    match m.meth
    case Binding => Some(BindReq)
    case Allocate => Some(AllocReq)
    case Refresh => Some(RefreshReq)
    case ChannelBind => Some(ChanBindReq)
    case _ => if m.cookie then Some(UnknownReq) else None
  }

  /** One line of the report: the name, a blank, the value in decimal. */
  function Line(name: string, v: u32): string
  {
    name + " " + Numeral(v, 10) + "\n"
  }

  /** `print_stat`: the five counters in a fixed order. */
  function Report(bind: u32, alloc: u32, refresh: u32, chanbind: u32, unknown: u32): string
  {
    Line("binding_req", bind) + FromAlloc(alloc, refresh, chanbind, unknown)
  }

  function FromAlloc(alloc: u32, refresh: u32, chanbind: u32, unknown: u32): string
  {
    Line("allocate_req", alloc) + FromRefresh(refresh, chanbind, unknown)
  }

  function FromRefresh(refresh: u32, chanbind: u32, unknown: u32): string
  {
    Line("refresh_req", refresh) + FromChanBind(chanbind, unknown)
  }

  function FromChanBind(chanbind: u32, unknown: u32): string
  {
    Line("chanbind_req", chanbind) + Line("unknown_req", unknown)
  }

  /** Two digit strings followed by a line break can be told apart at the
      first line break. */
  lemma SplitAtBreak(a: string, b: string, r1: string, r2: string)
    requires forall k :: 0 <= k < |a| ==> a[k] != '\n'
    requires forall k :: 0 <= k < |b| ==> b[k] != '\n'
    requires a + "\n" + r1 == b + "\n" + r2
    ensures a == b && r1 == r2
  {
    if |a| <= |b| {
      SameBreak(a, b, r1, r2);
    } else {
      SameBreak(b, a, r2, r1);
    }
    var x := a + "\n" + r1;
    assert a == x[..|a|] == b;
    assert r1 == x[|a| + 1..] == r2;
  }

  lemma SameBreak(a: string, b: string, r1: string, r2: string)
    requires |a| <= |b|
    requires forall k :: 0 <= k < |b| ==> b[k] != '\n'
    requires a + "\n" + r1 == b + "\n" + r2
    ensures |a| == |b|
  {
    if |a| < |b| {
      BreakAt(a, r1);
      assert false;
    }
  }

  lemma BreakAt(a: string, r: string)
    ensures |a| < |a + "\n" + r| && (a + "\n" + r)[|a|] == '\n'
  {
  }

  /** A line determines its value and what follows it. */
  lemma LineSplit(name: string, v: u32, w: u32, r1: string, r2: string)
    requires Line(name, v) + r1 == Line(name, w) + r2
    ensures v == w && r1 == r2
  {
    var p := name + " ";
    NumeralRoundTrip(v, 10);
    NumeralRoundTrip(w, 10);
    assert Line(name, v) + r1 == p + (Numeral(v, 10) + "\n" + r1);
    assert Line(name, w) + r2 == p + (Numeral(w, 10) + "\n" + r2);
    var x := Line(name, v) + r1;
    assert Numeral(v, 10) + "\n" + r1 == x[|p|..] == Numeral(w, 10) + "\n" + r2;
    SplitAtBreak(Numeral(v, 10), Numeral(w, 10), r1, r2);
    assert Value(Numeral(v, 10), 10) == Value(Numeral(w, 10), 10);
  }

  /** The report can be read back: different counter values never print
      the same text. */
  lemma ReportDetermines(b1: u32, a1: u32, r1: u32, c1: u32, u1: u32,
                         b2: u32, a2: u32, r2: u32, c2: u32, u2: u32)
    requires Report(b1, a1, r1, c1, u1) == Report(b2, a2, r2, c2, u2)
    ensures b1 == b2 && a1 == a2 && r1 == r2 && c1 == c2 && u1 == u2
  {
    LineSplit("binding_req", b1, b2, FromAlloc(a1, r1, c1, u1), FromAlloc(a2, r2, c2, u2));
    FromAllocDetermines(a1, r1, c1, u1, a2, r2, c2, u2);
  }

  lemma FromAllocDetermines(a1: u32, r1: u32, c1: u32, u1: u32, a2: u32, r2: u32, c2: u32, u2: u32)
    requires FromAlloc(a1, r1, c1, u1) == FromAlloc(a2, r2, c2, u2)
    ensures a1 == a2 && r1 == r2 && c1 == c2 && u1 == u2
  {
    LineSplit("allocate_req", a1, a2, FromRefresh(r1, c1, u1), FromRefresh(r2, c2, u2));
    FromRefreshDetermines(r1, c1, u1, r2, c2, u2);
  }

  lemma FromRefreshDetermines(r1: u32, c1: u32, u1: u32, r2: u32, c2: u32, u2: u32)
    requires FromRefresh(r1, c1, u1) == FromRefresh(r2, c2, u2)
    ensures r1 == r2 && c1 == c2 && u1 == u2
  {
    LineSplit("refresh_req", r1, r2, FromChanBind(c1, u1), FromChanBind(c2, u2));
    LineSplit("chanbind_req", c1, c2, Line("unknown_req", u1), Line("unknown_req", u2));
    assert Line("unknown_req", u1) + "" == Line("unknown_req", u2) + "";
    LineSplit("unknown_req", u1, u2, "", "");
  }

  /** The module's static `stat` structure. */
  class Stats {
    var bind: u32
    var alloc: u32
    var refresh: u32
    var chanbind: u32
    var unknown: u32

    constructor()
      ensures bind == 0 && alloc == 0 && refresh == 0 && chanbind == 0 && unknown == 0
    {
      bind, alloc, refresh, chanbind, unknown := 0, 0, 0, 0, 0;
    }

    function Get(c: Counter): u32
      reads this
    {
      match c
      case BindReq => bind
      case AllocReq => alloc
      case RefreshReq => refresh
      case ChanBindReq => chanbind
      case UnknownReq => unknown
    }

    /** The request hook: it never claims the request; the request's
        counter (if any) goes up by one with 32-bit wrap-around and every
        other counter is unchanged. */
    method Request(m: Msg) returns (claimed: bool)
      modifies this
      ensures !claimed
      ensures forall c :: Get(c) == if CounterOf(m) == Some(c) then Inc32(old(Get(c))) else old(Get(c))
    {
      claimed := false;
      match m.meth
      case Binding => bind := Inc32(bind);
      case Allocate => alloc := Inc32(alloc);
      case Refresh => refresh := Inc32(refresh);
      case ChannelBind => chanbind := Inc32(chanbind);
      case _ =>
        if m.cookie {
          unknown := Inc32(unknown);
        }
    }

    /** The "stat" command: appends the report of the current counters. */
    method Print(mb: string) returns (r: string)
      ensures r == mb + Report(bind, alloc, refresh, chanbind, unknown)
    {
      var tail := Line("chanbind_req", chanbind) + Line("unknown_req", unknown);
      tail := Line("refresh_req", refresh) + tail;
      tail := Line("allocate_req", alloc) + tail;
      r := mb + (Line("binding_req", bind) + tail);
    }
  }
}
