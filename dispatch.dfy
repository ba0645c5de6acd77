/** The STUN dispatcher: an ordered chain of handler records, each with an
    optional request hook, indication hook and raw hook.  A message is
    offered to the hooks of its kind in registration order until one of them
    claims it.  The hooks themselves (auth, turn, binding, stat) are separate
    modules; here a hook call is a parameter that answers, for a handler id
    and the current message context, whether the handler claimed the message
    and what the context became. */
module Dispatch {
  import opened Net
  import opened StunMsg

  /** `struct restund_stun`: an identity and which of `reqh`, `indh`,
      `rawh` are non-null. */
  datatype Handler = Handler(id: nat, hasReq: bool, hasInd: bool, hasRaw: bool)

  /** The arguments of `restund_process_msg`; a null pointer is `None`. */
  datatype Packet = Packet(proto: Proto, sock: Option<nat>, src: Option<Addr>,
                           dst: Option<Addr>, data: Option<seq<byte>>)

  /** What `stun_msg_decode` yields on success: the message and the
      comprehension-required attribute types it did not know. */
  datatype Decoded = Decoded(msg: Msg, ua: seq<u16>)

  /** Which chain a message is offered to. */
  datatype Kind = ReqKind | IndKind | RawKind

  predicate Hooks(h: Handler, k: Kind)
  {
    match k
    case ReqKind => h.hasReq
    case IndKind => h.hasInd
    case RawKind => h.hasRaw
  }

  /** The ids, in chain order, of the handlers with a hook of kind `k`. */
  function Eligible(chain: seq<Handler>, k: Kind): (ids: seq<nat>)
    ensures |ids| <= |chain|
  {
    if |chain| == 0 then []
    else if Hooks(chain[0], k) then [chain[0].id] + Eligible(chain[1..], k)
    else Eligible(chain[1..], k)
  }

  /** A chain walk reaches exactly the handlers that have a hook of its kind. */
  lemma {:induction false} EligibleMembers(chain: seq<Handler>, k: Kind)
    ensures forall id :: id in Eligible(chain, k) <==> exists h :: h in chain && h.id == id && Hooks(h, k)
  {
    if |chain| > 0 {
      EligibleMembers(chain[1..], k);
      assert forall h :: h in chain ==> h == chain[0] || h in chain[1..];
    }
  }

  /** The result of offering a message along a chain: the handlers called,
      what each answered, whether one claimed the message and the context
      after the last call. */
  datatype Offered = Offered(invoked: seq<nat>, answers: seq<bool>, claimed: bool, ctx: MsgCtx)

  type Hook = (nat, MsgCtx) -> (bool, MsgCtx)

  /** Offer the message to `ids` in order, stopping at the first claim. */
  function Offer(ids: seq<nat>, call: Hook, ctx: MsgCtx): Offered
  {
    if |ids| == 0 then Offered([], [], false, ctx)
    else
      var (claimed, ctx') := call(ids[0], ctx);
      if claimed then Offered([ids[0]], [true], true, ctx')
      else
        var rest := Offer(ids[1..], call, ctx');
        Offered([ids[0]] + rest.invoked, [false] + rest.answers, rest.claimed, rest.ctx)
  }

  /** The walk calls a prefix of the eligible handlers in order; every
      handler but the last answered false; the message counts as claimed
      exactly when the last one answered true; an unclaimed message was
      offered to every eligible handler. */
  lemma {:induction false} OfferStopsAtFirstClaim(ids: seq<nat>, call: Hook, ctx: MsgCtx)
    ensures var r := Offer(ids, call, ctx);
            && |r.invoked| == |r.answers| <= |ids|
            && r.invoked == ids[..|r.invoked|]
            && (forall k :: 0 <= k < |r.answers| - 1 ==> !r.answers[k])
            && (r.claimed <==> |r.answers| > 0 && r.answers[|r.answers| - 1])
            && (!r.claimed ==> r.invoked == ids)
  {
    if |ids| > 0 {
      var (claimed, ctx') := call(ids[0], ctx);
      if !claimed {
        OfferStopsAtFirstClaim(ids[1..], call, ctx');
        var rest := Offer(ids[1..], call, ctx');
        assert [ids[0]] + ids[1..][..|rest.invoked|] == ids[..|rest.invoked| + 1];
      }
    }
  }

  /** What one call of `restund_process_msg` did: nothing (a null
      argument), the raw chain, the request or indication chain, or no chain
      (a response class). */
  datatype Outcome =
    | Ignored
    | RawOffered(raw: Offered)
    | MsgOffered(kind: Kind, offered: Offered)
    | Unhandled(cls: MsgClass)

  function KindOf(c: MsgClass): Option<Kind>
  {
    match c
    case Request => Some(ReqKind)
    case Indication => Some(IndKind)
    case _ => None
  }

  /** The behaviour of `restund_process_msg` as a function of the chain, the
      packet, the decoder and the hooks. */
  function Process(chain: seq<Handler>, p: Packet, decode: seq<byte> -> Option<Decoded>,
                   reqh: Msg -> Hook, indh: Msg -> Hook, rawh: nat -> bool): (o: Outcome)
    ensures (p.sock.None? || p.src.None? || p.dst.None? || p.data.None?) <==> o.Ignored?
    ensures o.RawOffered? <==> !o.Ignored? && decode(p.data.value).None?
    ensures o.MsgOffered? ==> var d := decode(p.data.value).value;
              KindOf(d.msg.cls) == Some(o.kind)
    ensures o.MsgOffered? && o.kind == ReqKind ==> var d := decode(p.data.value).value;
              o.offered == Offer(Eligible(chain, ReqKind), reqh(d.msg), MsgCtx(d.ua, None, false))
    ensures o.MsgOffered? && o.kind == IndKind ==> var d := decode(p.data.value).value;
              o.offered == Offer(Eligible(chain, IndKind), indh(d.msg), MsgCtx(d.ua, None, false))
    ensures o.Unhandled? ==> KindOf(o.cls).None?
  {
    if p.sock.None? || p.src.None? || p.dst.None? || p.data.None? then Ignored
    else match decode(p.data.value)
      case None =>
        RawOffered(Offer(Eligible(chain, RawKind), (id: nat, c: MsgCtx) => (rawh(id), c), FreshCtx([])))
      case Some(d) =>
        match KindOf(d.msg.cls)
        case Some(k) =>
          MsgOffered(k, Offer(Eligible(chain, k), if k == ReqKind then reqh(d.msg) else indh(d.msg), FreshCtx(d.ua)))
        case None => Unhandled(d.msg.cls)
  }

  /** The handler chain: `stn.stunl`. */
  class Dispatcher {
    var chain: seq<Handler>

    /** Handler records are distinct list elements. */
    predicate Valid()
      reads this
    {
      Distinct(chain)
    }

    constructor()
      ensures chain == [] && Valid()
    {
      chain := [];
    }

    /** `restund_stun_register_handler`: append at the tail; null is a
        no-op.  A record already in the list cannot be linked twice. */
    method Register(h: Option<Handler>)
      requires Valid()
      requires h.Some? ==> forall g :: g in chain ==> g.id != h.value.id
      modifies this
      ensures Valid()
      ensures h.None? ==> chain == old(chain)
      ensures h.Some? ==> chain == old(chain) + [h.value]
    {
      if h.Some? {
        chain := chain + [h.value];
      }
    }

    /** `restund_stun_unregister_handler`: unlink that record only. */
    method Unregister(id: Option<nat>)
      requires Valid()
      modifies this
      ensures Valid()
      ensures id.None? ==> chain == old(chain)
      ensures id.Some? ==> chain == Without(old(chain), id.value)
    {
      if id.Some? {
        WithoutDistinct(chain, id.value);
        chain := Without(chain, id.value);
      }
    }

    /** `restund_process_msg`: the walks over the chain. */
    method ProcessMsg(p: Packet, decode: seq<byte> -> Option<Decoded>,
                      reqh: Msg -> Hook, indh: Msg -> Hook, rawh: nat -> bool)
      returns (o: Outcome)
      ensures o == Process(chain, p, decode, reqh, indh, rawh)
    {
      if p.sock.None? || p.src.None? || p.dst.None? || p.data.None? {
        return Ignored;
      }
      var dec := decode(p.data.value);
      if dec.None? {
        var r := Walk(chain, RawKind, (id: nat, c: MsgCtx) => (rawh(id), c), FreshCtx([]));
        return RawOffered(r);
      }
      var d := dec.value;
      match KindOf(d.msg.cls) {
        case Some(k) =>
          var r := Walk(chain, k, if k == ReqKind then reqh(d.msg) else indh(d.msg), FreshCtx(d.ua));
          return MsgOffered(k, r);
        case None =>
          return Unhandled(d.msg.cls);
      }
    }
  }

  /** The chain after unlinking the record `id`; nothing else moves. */
  function Without(chain: seq<Handler>, id: nat): (r: seq<Handler>)
    ensures forall h :: h in r <==> h in chain && h.id != id
  {
    if |chain| == 0 then []
    else
      assert forall h :: h in chain ==> h == chain[0] || h in chain[1..];
      if chain[0].id == id then Without(chain[1..], id)
      else [chain[0]] + Without(chain[1..], id)
  }

  predicate Distinct(chain: seq<Handler>)
  {
    forall i, j :: 0 <= i < j < |chain| ==> chain[i].id != chain[j].id
  }

  lemma DistinctTail(chain: seq<Handler>)
    requires |chain| > 0 && Distinct(chain)
    ensures Distinct(chain[1..])
    ensures forall h :: h in chain[1..] ==> h.id != chain[0].id
  {
    forall h | h in chain[1..]
      ensures h.id != chain[0].id
    {
      var k :| 0 <= k < |chain[1..]| && chain[1..][k] == h;
      assert chain[k + 1] == h;
    }
  }

  /** Unlinking keeps the records of a valid chain distinct. */
  lemma {:induction false} WithoutDistinct(chain: seq<Handler>, id: nat)
    requires Distinct(chain)
    ensures Distinct(Without(chain, id))
  {
    if |chain| > 0 {
      DistinctTail(chain);
      WithoutDistinct(chain[1..], id);
      var rest := Without(chain[1..], id);
      if chain[0].id != id {
        var r := [chain[0]] + rest;
        forall i, j | 0 <= i < j < |r|
          ensures r[i].id != r[j].id
        {
          if i == 0 {
            assert r[j] in rest;
          } else {
            assert r[i] == rest[i - 1] && r[j] == rest[j - 1];
          }
        }
      }
    }
  }

  /** Unregistering removes exactly one record of a valid chain and keeps
      the order of the others. */
  lemma {:induction false} WithoutRemovesOne(chain: seq<Handler>, i: nat)
    requires i < |chain|
    requires Distinct(chain)
    ensures Without(chain, chain[i].id) == chain[..i] + chain[i + 1..]
  {
    var id := chain[i].id;
    if i == 0 {
      WithoutHead(chain);
      assert chain[..0] + chain[1..] == chain[1..];
    } else {
      var tail := chain[1..];
      DistinctDrop(chain);
      assert tail[i - 1] == chain[i];
      WithoutRemovesOne(tail, i - 1);
      assert chain[0].id != id;
      WithoutKeepsHead(chain, id);
      SpliceCons(chain, i);
    }
  }

  /** The record at the head of a valid chain is its only one with that id. */
  lemma WithoutHead(chain: seq<Handler>)
    requires |chain| > 0 && Distinct(chain)
    ensures Without(chain, chain[0].id) == chain[1..]
  {
    DistinctTail(chain);
    WithoutAbsent(chain[1..], chain[0].id);
  }

  lemma WithoutKeepsHead(chain: seq<Handler>, id: nat)
    requires |chain| > 0 && chain[0].id != id
    ensures Without(chain, id) == [chain[0]] + Without(chain[1..], id)
  {
  }

  lemma DistinctDrop(chain: seq<Handler>)
    requires |chain| > 0 && Distinct(chain)
    ensures Distinct(chain[1..])
  {
    var tail := chain[1..];
    forall a, b | 0 <= a < b < |tail|
      ensures tail[a].id != tail[b].id
    {
      assert tail[a] == chain[a + 1] && tail[b] == chain[b + 1];
    }
  }

  /** Cutting record `i` out of a chain is cutting record `i - 1` out of
      its tail, behind the head. */
  lemma SpliceCons(chain: seq<Handler>, i: nat)
    requires 0 < i < |chain|
    ensures [chain[0]] + (chain[1..][..i - 1] + chain[1..][i..]) == chain[..i] + chain[i + 1..]
  {
    var tail := chain[1..];
    assert tail[..i - 1] == chain[1..i] && tail[i..] == chain[i + 1..];
    assert [chain[0]] + chain[1..i] == chain[..i];
  }

  lemma {:induction false} WithoutAbsent(chain: seq<Handler>, id: nat)
    requires forall h :: h in chain ==> h.id != id
    ensures Without(chain, id) == chain
  {
    if |chain| > 0 {
      WithoutAbsent(chain[1..], id);
    }
  }

  lemma EligibleStep(chain: seq<Handler>, i: nat, k: Kind)
    requires i < |chain|
    ensures Eligible(chain[i..], k)
         == (if Hooks(chain[i], k) then [chain[i].id] else []) + Eligible(chain[i + 1..], k)
  {
    assert chain[i..][1..] == chain[i + 1..];
  }

  lemma OfferCons(id: nat, e: seq<nat>, call: Hook, ctx: MsgCtx)
    ensures Offer([id] + e, call, ctx)
         == var (claimed, ctx') := call(id, ctx);
            if claimed then Offered([id], [true], true, ctx')
            else
              var rest := Offer(e, call, ctx');
              Offered([id] + rest.invoked, [false] + rest.answers, rest.claimed, rest.ctx)
  {
    assert ([id] + e)[0] == id && ([id] + e)[1..] == e;
  }

  /** The calls already made, followed by the walk still to come. */
  function After(invoked: seq<nat>, answers: seq<bool>, rest: Offered): Offered
  {
    Offered(invoked + rest.invoked, answers + rest.answers, rest.claimed, rest.ctx)
  }

  /** A handler that declines passes the message and its context on. */
  lemma WalkDeclined(invoked: seq<nat>, answers: seq<bool>, id: nat, e: seq<nat>, call: Hook, ctx: MsgCtx, ctx': MsgCtx)
    requires call(id, ctx) == (false, ctx')
    ensures After(invoked, answers, Offer([id] + e, call, ctx))
         == After(invoked + [id], answers + [false], Offer(e, call, ctx'))
  {
    OfferCons(id, e, call, ctx);
    var rest := Offer(e, call, ctx');
    assert invoked + ([id] + rest.invoked) == (invoked + [id]) + rest.invoked;
    assert answers + ([false] + rest.answers) == (answers + [false]) + rest.answers;
  }

  /** A handler that claims the message ends the walk. */
  lemma WalkClaimed(invoked: seq<nat>, answers: seq<bool>, id: nat, e: seq<nat>, call: Hook, ctx: MsgCtx, ctx': MsgCtx)
    requires call(id, ctx) == (true, ctx')
    ensures After(invoked, answers, Offer([id] + e, call, ctx))
         == Offered(invoked + [id], answers + [true], true, ctx')
  {
    OfferCons(id, e, call, ctx);
    assert invoked + [id] + [] == invoked + [id];
  }

  /** The walk `while (le) { ...; if (hook && hook(...)) break; }`. */
  method Walk(chain: seq<Handler>, k: Kind, call: Hook, ctx0: MsgCtx) returns (r: Offered)
    ensures r == Offer(Eligible(chain, k), call, ctx0)
  {
    var i := 0;
    var invoked: seq<nat> := [];
    var answers: seq<bool> := [];
    var ctx := ctx0;
    assert chain[0..] == chain;
    assert After([], [], Offer(Eligible(chain, k), call, ctx0)) == Offer(Eligible(chain, k), call, ctx0);
    while i < |chain|
      invariant 0 <= i <= |chain|
      invariant Offer(Eligible(chain, k), call, ctx0) == After(invoked, answers, Offer(Eligible(chain[i..], k), call, ctx))
    {
      var h := chain[i];
      EligibleStep(chain, i, k);
      ghost var e := Eligible(chain[i + 1..], k);
      i := i + 1;
      if Hooks(h, k) {
        var (claimed, ctx') := call(h.id, ctx);
        if claimed {
          WalkClaimed(invoked, answers, h.id, e, call, ctx, ctx');
          return Offered(invoked + [h.id], answers + [claimed], true, ctx');
        }
        WalkDeclined(invoked, answers, h.id, e, call, ctx, ctx');
        invoked := invoked + [h.id];
        answers := answers + [claimed];
        ctx := ctx';
      } else {
        assert [] + e == e;
      }
    }
    assert chain[i..] == [];
    assert invoked + [] == invoked && answers + [] == answers;
    return Offered(invoked, answers, false, ctx);
  }
}
