/** The control-command registry: modules subscribe a handler under a
    command name, and a command is run by every subscriber of that name. */
module Cmd {
  import opened Net

  /** `struct restund_cmdsub`: an identity, the command name `cmd` and
      whether the handler `cmdh` is set. */
  datatype Sub = Sub(id: nat, name: string, hasHandler: bool)

  /** What the handler of each subscriber appends to the output buffer. */
  type Output = nat -> string

  predicate Runs(s: Sub, cmd: string)
  {
    s.hasHandler && s.name == cmd
  }

  /** The subscribers a command reaches, in subscription order. */
  function Matching(subs: seq<Sub>, cmd: string): seq<nat>
  {
    if |subs| == 0 then []
    else
      var last := subs[|subs| - 1];
      Matching(subs[..|subs| - 1], cmd) + (if Runs(last, cmd) then [last.id] else [])
  }

  /** The output of the handlers `ids`, one after the other. */
  function Outputs(out: Output, ids: seq<nat>): string
  {
    if |ids| == 0 then "" else Outputs(out, ids[..|ids| - 1]) + out(ids[|ids| - 1])
  }

  const NotFound: string := ": command not found\n"

  /** What running `cmd` appends: the output of every matching handler, or
      the single line "<cmd>: command not found" when none matched. */
  function Response(subs: seq<Sub>, cmd: string, out: Output): string
  {
    var ids := Matching(subs, cmd);
    if |ids| == 0 then cmd + NotFound else Outputs(out, ids)
  }

  /** A subscriber is run exactly when it has a handler and its name is the
      command. */
  lemma {:induction false} MatchingMembers(subs: seq<Sub>, cmd: string)
    ensures forall id :: id in Matching(subs, cmd) <==> exists s :: s in subs && s.id == id && Runs(s, cmd)
  {
    if |subs| > 0 {
      var init := subs[..|subs| - 1];
      MatchingMembers(init, cmd);
      assert subs == init + [subs[|subs| - 1]];
      assert forall s :: s in subs <==> s in init || s == subs[|subs| - 1];
    }
  }

  /** The list without the subscriber `id` (`list_unlink`). */
  function Without(subs: seq<Sub>, id: nat): seq<Sub>
  {
    if |subs| == 0 then []
    else
      var last := subs[|subs| - 1];
      Without(subs[..|subs| - 1], id) + (if last.id == id then [] else [last])
  }

  function RemoveId(ids: seq<nat>, id: nat): seq<nat>
  {
    if |ids| == 0 then []
    else RemoveId(ids[..|ids| - 1], id) + (if ids[|ids| - 1] == id then [] else [ids[|ids| - 1]])
  }

  /** Subscribing appends: a new subscriber runs after every earlier one. */
  lemma SubscribeRunsLast(subs: seq<Sub>, s: Sub, cmd: string)
    ensures Matching(subs + [s], cmd) == Matching(subs, cmd) + (if Runs(s, cmd) then [s.id] else [])
  {
    assert (subs + [s])[..|subs|] == subs;
  }

  /** Unsubscribing removes that subscriber's run and keeps the order of
      the others. */
  lemma {:induction false} UnsubscribeRemovesRun(subs: seq<Sub>, id: nat, cmd: string)
    ensures Matching(Without(subs, id), cmd) == RemoveId(Matching(subs, cmd), id)
  {
    if |subs| > 0 {
      var init, last := subs[..|subs| - 1], subs[|subs| - 1];
      UnsubscribeRemovesRun(init, id, cmd);
      var m := Matching(init, cmd);
      var w := Without(init, id);
      assert Matching(subs, cmd) == m + (if Runs(last, cmd) then [last.id] else []);
      assert Without(subs, id) == w + (if last.id == id then [] else [last]);
      if Runs(last, cmd) {
        assert (m + [last.id])[..|m|] == m;
        assert RemoveId(m + [last.id], id) == RemoveId(m, id) + (if last.id == id then [] else [last.id]);
      } else {
        assert m + [] == m;
      }
      if last.id != id {
        SubscribeRunsLast(w, last, cmd);
      } else {
        assert w + [] == w;
      }
    }
  }

  /** `csl`, the subscriber list. */
  class Registry {
    var subs: seq<Sub>

    constructor()
      ensures subs == []
    {
      subs := [];
    }

    /** `restund_cmd_subscribe`: a null subscriber is ignored, any other is
        appended (it must not be linked already). */
    method Subscribe(cs: Option<Sub>)
      modifies this
      requires cs.Some? ==> forall s :: s in subs ==> s.id != cs.value.id
      ensures cs.None? ==> subs == old(subs)
      ensures cs.Some? ==> subs == old(subs) + [cs.value]
    {
      if cs.Some? {
        subs := subs + [cs.value];
      }
    }

    /** `restund_cmd_unsubscribe`: unlinks that subscriber only. */
    method Unsubscribe(id: Option<nat>)
      modifies this
      ensures id.None? ==> subs == old(subs)
      ensures id.Some? ==> subs == Without(old(subs), id.value)
    {
      if id.Some? {
        subs := Without(subs, id.value);
      }
    }

    /** `restund_cmd`: with a null command or buffer nothing happens;
        otherwise every matching handler runs in list order and the
        not-found line is appended when none did. */
    method Run(cmd: Option<string>, mb: Option<string>, out: Output) returns (r: Option<string>)
      ensures cmd.None? || mb.None? ==> r == mb
      ensures cmd.Some? && mb.Some? ==> r == Some(mb.value + Response(subs, cmd.value, out))
    {
      if cmd.None? || mb.None? {
        return mb;
      }
      var c := cmd.value;
      var buf := mb.value;
      var found := false;
      var i := 0;
      while i < |subs|
        invariant 0 <= i <= |subs|
        invariant buf == mb.value + Outputs(out, Matching(subs[..i], c))
        invariant found <==> |Matching(subs[..i], c)| > 0
      {
        var cs := subs[i];
        assert subs[..i + 1][..i] == subs[..i];
        var ids := Matching(subs[..i], c);
        assert Matching(subs[..i + 1], c) == ids + (if Runs(cs, c) then [cs.id] else []);
        if cs.hasHandler && cs.name == c {
          assert (ids + [cs.id])[..|ids|] == ids;
          assert Outputs(out, ids + [cs.id]) == Outputs(out, ids) + out(cs.id);
          assert mb.value + Outputs(out, ids) + out(cs.id) == mb.value + (Outputs(out, ids) + out(cs.id));
          buf := buf + out(cs.id);
          found := true;
        } else {
          assert ids + [] == ids;
        }
        i := i + 1;
      }
      assert subs[..i] == subs;
      if !found {
        assert buf + c + NotFound == mb.value + (c + NotFound);
        buf := buf + c + NotFound;
      }
      return Some(buf);
    }
  }
}
