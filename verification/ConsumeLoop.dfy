/** The consume loop of the SDKs against an environment that answers every request and handler call as it likes. The
    calls and their answers form a trace; an environment may make each answer depend on the whole trace so far, so it
    may be a broker with other consumers, failing requests and failing handlers. */
module ConsumeLoop {
  import opened Text

  datatype FetchReply = FetchError | Fetched(ids: seq<nat>)

  /** Whether the client saw the ack succeed, and whether the broker moved the offset: a lost ack is (false, false), a
      lost ack reply (false, true). */
  datatype AckReply = AckReply(ok: bool, took: bool)

  datatype Call =
    | Fetch(answer: FetchReply)
    | Handle(msg: nat, ok: bool)
    | Ack(acked: nat, reply: AckReply)

  type Trace = seq<Call>

  datatype Env = Env(
    fetch: Trace -> FetchReply,
    handle: (Trace, nat) -> bool,
    ack: (Trace, nat) -> AckReply)

  // ---------------------------------------------------------------- the calls of a loop

  function HandleTrace(env: Env, acks: bool, t: Trace, id: nat): Trace {
    var ok := env.handle(t, id);
    var handled := t + [Handle(id, ok)];
    if ok && acks then handled + [Ack(id, env.ack(handled, id))] else handled
  }

  /** The trace after a batch. */
  function BatchTrace(env: Env, acks: bool, t: Trace, ids: seq<nat>): Trace
    decreases |ids|
  {
    if ids == [] then t
    else HandleTrace(env, acks, BatchTrace(env, acks, t, ids[..|ids| - 1]), ids[|ids| - 1])
  }

  /** The trace after one more turn of the outer loop. */
  function RoundTrace(env: Env, acks: bool, t: Trace): Trace {
    var reply := env.fetch(t);
    var fetched := t + [Fetch(reply)];
    if reply.Fetched? then BatchTrace(env, acks, fetched, reply.ids) else fetched
  }

  function LoopTrace(env: Env, acks: bool, rounds: nat): Trace {
    if rounds == 0 then [] else RoundTrace(env, acks, LoopTrace(env, acks, rounds - 1))
  }

  /** How many calls of a trace are of some kind. */
  function Tally(t: Trace, kind: Call -> bool): nat {
    if t == [] then 0 else Tally(t[..|t| - 1], kind) + if kind(t[|t| - 1]) then 1 else 0
  }

  predicate Succeeded(c: Call) {
    c.Handle? && c.ok
  }

  predicate Acked(c: Call) {
    c.Ack? && c.reply.ok
  }

  predicate AckFailed(c: Call) {
    c.Ack? && !c.reply.ok
  }

  /** What the loops that count after the ack count. */
  function CountedLast(acks: bool): Call -> bool {
    if acks then Acked else Succeeded
  }

  lemma TallyGrow(t: Trace, c: Call, kind: Call -> bool)
    ensures Tally(t + [c], kind) == Tally(t, kind) + if kind(c) then 1 else 0
  {
  }

  /** The messages the handler was called with, in order. */
  function HandledIds(t: Trace): seq<nat> {
    if t == [] then []
    else HandledIds(t[..|t| - 1]) + if t[|t| - 1].Handle? then [t[|t| - 1].msg] else []
  }

  // ---------------------------------------------------------------- the two loops

  class Consumer {
    var processed: nat
    var calls: Trace

    constructor ()
      ensures processed == 0 && calls == []
    {
      processed, calls := 0, [];
    }

    method DoFetch(env: Env) returns (reply: FetchReply)
      modifies this`calls
      ensures reply == env.fetch(old(calls)) && calls == old(calls) + [Fetch(reply)]
    {
      reply := env.fetch(calls);
      calls := calls + [Fetch(reply)];
    }

    method DoHandle(env: Env, id: nat) returns (ok: bool)
      modifies this`calls
      ensures ok == env.handle(old(calls), id) && calls == old(calls) + [Handle(id, ok)]
    {
      ok := env.handle(calls, id);
      calls := calls + [Handle(id, ok)];
    }

    method DoAck(env: Env, id: nat) returns (ok: bool)
      modifies this`calls
      ensures ok == env.ack(old(calls), id).ok
      ensures calls == old(calls) + [Ack(id, env.ack(old(calls), id))]
    {
      var reply := env.ack(calls, id);
      calls := calls + [Ack(id, reply)];
      ok := reply.ok;
    }

    method CountingFirstMessage(env: Env, acks: bool, id: nat)
      requires processed == Tally(calls, Succeeded)
      modifies this
      ensures calls == HandleTrace(env, acks, old(calls), id)
      ensures processed == Tally(calls, Succeeded)
    {
      ghost var before := calls;
      var ok := DoHandle(env, id);
      TallyGrow(before, Handle(id, ok), Succeeded);
      if ok {
        processed := processed + 1;
        if acks {
          ghost var handled := calls;
          var acked := DoAck(env, id);
          TallyGrow(handled, Ack(id, env.ack(handled, id)), Succeeded);
        }
      }
    }

    method CountingFirstBatch(env: Env, acks: bool, ids: seq<nat>)
      requires processed == Tally(calls, Succeeded)
      modifies this
      ensures calls == BatchTrace(env, acks, old(calls), ids)
      ensures processed == Tally(calls, Succeeded)
    {
      hide Tally;
      hide HandleTrace;
      var i := 0;
      while i < |ids|
        invariant i <= |ids|
        invariant calls == BatchTrace(env, acks, old(calls), ids[..i])
        invariant processed == Tally(calls, Succeeded)
      {
        CountingFirstMessage(env, acks, ids[i]);
        i := i + 1;
        assert ids[..i][..i - 1] == ids[..i - 1];
      }
      assert ids[..i] == ids;
    }

    /** Go, Rust and Java: a message counts when its handler has succeeded, whatever becomes of its ack. The loop is
        stopped after some number of turns. */
    method ConsumeCountingFirst(env: Env, acks: bool, rounds: nat)
      requires processed == 0 && calls == []
      modifies this
      ensures calls == LoopTrace(env, acks, rounds)
      ensures processed == Tally(calls, Succeeded)
    {
      var r := 0;
      while r < rounds
        invariant r <= rounds
        invariant calls == LoopTrace(env, acks, r)
        invariant processed == Tally(calls, Succeeded)
      {
        hide Tally;
        hide BatchTrace;
        ghost var before := calls;
        var reply := DoFetch(env);
        TallyGrow(before, Fetch(reply), Succeeded);
        r := r + 1;
        if reply.FetchError? {
          continue;
        }
        CountingFirstBatch(env, acks, reply.ids);
      }
    }

    method CountingLastMessage(env: Env, acks: bool, id: nat)
      requires processed == Tally(calls, CountedLast(acks))
      modifies this
      ensures calls == HandleTrace(env, acks, old(calls), id)
      ensures processed == Tally(calls, CountedLast(acks))
    {
      ghost var before := calls;
      var ok := DoHandle(env, id);
      TallyGrow(before, Handle(id, ok), CountedLast(acks));
      if ok {
        if acks {
          ghost var handled := calls;
          var acked := DoAck(env, id);
          TallyGrow(handled, Ack(id, env.ack(handled, id)), CountedLast(acks));
          if !acked {
            return;
          }
        }
        processed := processed + 1;
      }
    }

    method CountingLastBatch(env: Env, acks: bool, ids: seq<nat>)
      requires processed == Tally(calls, CountedLast(acks))
      modifies this
      ensures calls == BatchTrace(env, acks, old(calls), ids)
      ensures processed == Tally(calls, CountedLast(acks))
    {
      hide Tally;
      hide HandleTrace;
      var i := 0;
      while i < |ids|
        invariant i <= |ids|
        invariant calls == BatchTrace(env, acks, old(calls), ids[..i])
        invariant processed == Tally(calls, CountedLast(acks))
      {
        CountingLastMessage(env, acks, ids[i]);
        i := i + 1;
        assert ids[..i][..i - 1] == ids[..i - 1];
      }
      assert ids[..i] == ids;
    }

    /** Python and JavaScript: the ack is awaited inside the same try block, and a message counts after it. */
    method ConsumeCountingLast(env: Env, acks: bool, rounds: nat)
      requires processed == 0 && calls == []
      modifies this
      ensures calls == LoopTrace(env, acks, rounds)
      ensures processed == Tally(calls, CountedLast(acks))
    {
      var r := 0;
      while r < rounds
        invariant r <= rounds
        invariant calls == LoopTrace(env, acks, r)
        invariant processed == Tally(calls, CountedLast(acks))
      {
        hide Tally;
        hide BatchTrace;
        ghost var before := calls;
        var reply := DoFetch(env);
        TallyGrow(before, Fetch(reply), CountedLast(acks));
        r := r + 1;
        if reply.FetchError? {
          continue;
        }
        CountingLastBatch(env, acks, reply.ids);
      }
    }
  }
}
