/** What a run of the consume loop looks like, call by call: which call follows which, what is handled, what is acked and
    what is counted. */
module CallOrder {
  import opened Text
  import opened ConsumeLoop

  // ---------------------------------------------------------------- statements about traces

  /** A call that has the environment's answer to the calls before it. */
  predicate AnswerTo(env: Env, t: Trace, c: Call) {
    && (c.Fetch? ==> c.answer == env.fetch(t))
    && (c.Handle? ==> c.ok == env.handle(t, c.msg))
    && (c.Ack? ==> c.reply == env.ack(t, c.acked))
  }

  predicate AnswerAt(env: Env, t: Trace, i: nat)
    requires i < |t|
  {
    AnswerTo(env, t[..i], t[i])
  }

  predicate Answered(env: Env, t: Trace) {
    forall i :: 0 <= i < |t| ==> AnswerAt(env, t, i)
  }

  /** Every success of a handler is followed at once by an ack of its message. */
  predicate AcksEach(t: Trace) {
    forall i :: 0 <= i < |t| && t[i].Handle? && t[i].ok ==>
      i + 1 < |t| && t[i + 1].Ack? && t[i + 1].acked == t[i].msg
  }

  /** Nothing else is acked. */
  predicate AcksOnlySuccesses(t: Trace) {
    forall i :: 0 <= i < |t| && t[i].Ack? ==>
      i > 0 && t[i - 1].Handle? && t[i - 1].ok && t[i - 1].msg == t[i].acked
  }

  predicate AcksNone(t: Trace) {
    forall i :: 0 <= i < |t| ==> !t[i].Ack?
  }

  /** The messages that fetches have returned, in order. */
  function FetchedIds(t: Trace): seq<nat> {
    if t == [] then []
    else
      var c := t[|t| - 1];
      FetchedIds(t[..|t| - 1]) + if c.Fetch? && c.answer.Fetched? then c.answer.ids else []
  }

  /** A fetch is made only when all that was fetched before has been handled. */
  predicate FetchesInTurn(t: Trace) {
    forall i :: 0 <= i < |t| && t[i].Fetch? ==> HandledIds(t[..i]) == FetchedIds(t[..i])
  }

  function FetchPlaces(t: Trace): set<nat> {
    set i: nat | i < |t| && t[i].Fetch?
  }

  function SuccessPlaces(t: Trace): set<nat> {
    set i: nat | i < |t| && t[i].Handle? && t[i].ok
  }

  function FailedAckPlaces(t: Trace): set<nat> {
    set i: nat | i < |t| && t[i].Ack? && !t[i].reply.ok
  }

  function Fetches(t: Trace): nat {
    |FetchPlaces(t)|
  }

  function Successes(t: Trace): nat {
    |SuccessPlaces(t)|
  }

  function FailedAcks(t: Trace): nat {
    |FailedAckPlaces(t)|
  }

  // ---------------------------------------------------------------- one call more

  lemma FetchedGrow(t: Trace, c: Call)
    ensures FetchedIds(t + [c]) == FetchedIds(t) + if c.Fetch? && c.answer.Fetched? then c.answer.ids else []
  {
    assert (t + [c])[..|t|] == t;
  }

  lemma HandledGrow(t: Trace, c: Call)
    ensures HandledIds(t + [c]) == HandledIds(t) + if c.Handle? then [c.msg] else []
  {
    assert (t + [c])[..|t|] == t;
  }

  lemma FetchesGrow(t: Trace, c: Call)
    ensures Fetches(t + [c]) == Fetches(t) + (if c.Fetch? then 1 else 0)
  {
    assert FetchPlaces(t + [c]) == FetchPlaces(t) + (if c.Fetch? then {|t|} else {});
  }

  lemma SuccessesGrow(t: Trace, c: Call)
    ensures Successes(t + [c]) == Successes(t) + (if c.Handle? && c.ok then 1 else 0)
  {
    assert SuccessPlaces(t + [c]) == SuccessPlaces(t) + (if c.Handle? && c.ok then {|t|} else {});
  }

  lemma FailedAcksGrow(t: Trace, c: Call)
    ensures FailedAcks(t + [c]) == FailedAcks(t) + (if c.Ack? && !c.reply.ok then 1 else 0)
  {
    assert FailedAckPlaces(t + [c]) == FailedAckPlaces(t) + (if c.Ack? && !c.reply.ok then {|t|} else {});
  }

  lemma AnsweredGrow(env: Env, t: Trace, c: Call)
    requires Answered(env, t) && AnswerAt(env, t + [c], |t|)
    ensures Answered(env, t + [c])
  {
    var u := t + [c];
    forall i | 0 <= i < |t| ensures AnswerAt(env, u, i) {
      assert AnswerAt(env, t, i) && u[..i] == t[..i];
    }
  }

  lemma InTurnGrow(t: Trace, c: Call)
    requires FetchesInTurn(t) && (c.Fetch? ==> HandledIds(t) == FetchedIds(t))
    ensures FetchesInTurn(t + [c])
  {
    var u := t + [c];
    forall i | 0 <= i < |u| && u[i].Fetch? ensures HandledIds(u[..i]) == FetchedIds(u[..i]) {
      if i < |t| {
        assert u[..i] == t[..i];
      } else {
        assert u[..i] == t;
      }
    }
  }

  // ---------------------------------------------------------------- the shape of a run

  /** What every part of a run has. */
  predicate Shape(env: Env, acks: bool, t: Trace) {
    && Answered(env, t) && FetchesInTurn(t) && AcksOnlySuccesses(t)
    && (if acks then AcksEach(t) else AcksNone(t))
  }

  lemma AcksGrow(acks: bool, t: Trace, h: Call, a: Call)
    requires h.Handle? && a.Ack? && a.acked == h.msg
    requires AcksOnlySuccesses(t) && (if acks then AcksEach(t) else AcksNone(t))
    ensures var u := if h.ok && acks then t + [h] + [a] else t + [h];
            AcksOnlySuccesses(u) && (if acks then AcksEach(u) else AcksNone(u))
  {
  }

  lemma MessageShape(env: Env, acks: bool, t: Trace, id: nat)
    requires Shape(env, acks, t)
    ensures var u := HandleTrace(env, acks, t, id);
            && Shape(env, acks, u)
            && HandledIds(u) == HandledIds(t) + [id] && FetchedIds(u) == FetchedIds(t)
            && Fetches(u) == Fetches(t)
  {
    var h := Handle(id, env.handle(t, id));
    var v := t + [h];
    var a := Ack(id, env.ack(v, id));
    AcksGrow(acks, t, h, a);
    hide AcksOnlySuccesses;
    hide AcksEach;
    hide AcksNone;
    hide HandledIds;
    hide FetchedIds;
    hide Fetches;
    hide Answered;
    hide FetchesInTurn;
    MessageCall(env, t, h);
    if h.ok && acks {
      MessageCall(env, v, a);
    }
  }

  /** A handler call or an ack more. */
  lemma MessageCall(env: Env, t: Trace, c: Call)
    requires Answered(env, t) && FetchesInTurn(t) && !c.Fetch?
    requires AnswerTo(env, t, c)
    ensures var u := t + [c];
            && Answered(env, u) && FetchesInTurn(u)
            && HandledIds(u) == HandledIds(t) + (if c.Handle? then [c.msg] else [])
            && FetchedIds(u) == FetchedIds(t) && Fetches(u) == Fetches(t)
  {
    assert (t + [c])[..|t|] == t;
    AnsweredGrow(env, t, c);
    InTurnGrow(t, c);
    HandledGrow(t, c);
    FetchedGrow(t, c);
    FetchesGrow(t, c);
  }

  lemma {:induction false} BatchShape(env: Env, acks: bool, t: Trace, ids: seq<nat>)
    requires Shape(env, acks, t)
    ensures var u := BatchTrace(env, acks, t, ids);
            && Shape(env, acks, u)
            && HandledIds(u) == HandledIds(t) + ids && FetchedIds(u) == FetchedIds(t)
            && Fetches(u) == Fetches(t)
    decreases |ids|
  {
    hide Shape;
    hide HandleTrace;
    hide HandledIds;
    hide FetchedIds;
    hide Fetches;
    if ids == [] {
      assert HandledIds(t) + ids == HandledIds(t);
    } else {
      var init, id := ids[..|ids| - 1], ids[|ids| - 1];
      BatchShape(env, acks, t, init);
      MessageShape(env, acks, BatchTrace(env, acks, t, init), id);
      assert HandledIds(t) + init + [id] == HandledIds(t) + ids;
    }
  }

  lemma AcksAfterFetch(acks: bool, t: Trace, c: Call)
    requires c.Fetch? && AcksOnlySuccesses(t) && (if acks then AcksEach(t) else AcksNone(t))
    ensures AcksOnlySuccesses(t + [c]) && (if acks then AcksEach(t + [c]) else AcksNone(t + [c]))
  {
  }

  lemma FetchShape(env: Env, acks: bool, t: Trace)
    requires Shape(env, acks, t) && HandledIds(t) == FetchedIds(t)
    ensures var reply := env.fetch(t);
            var u := t + [Fetch(reply)];
            && Shape(env, acks, u)
            && HandledIds(u) == HandledIds(t)
            && FetchedIds(u) == FetchedIds(t) + (if reply.Fetched? then reply.ids else [])
            && Fetches(u) == Fetches(t) + 1
  {
    var c := Fetch(env.fetch(t));
    assert (t + [c])[..|t|] == t;
    AnsweredGrow(env, t, c);
    InTurnGrow(t, c);
    HandledGrow(t, c);
    FetchedGrow(t, c);
    FetchesGrow(t, c);
    AcksAfterFetch(acks, t, c);
    hide AcksEach;
    hide AcksNone;
    hide AcksOnlySuccesses;
    hide HandledIds;
    hide FetchedIds;
    hide Fetches;
    hide Answered;
    hide FetchesInTurn;
  }

  /** Every run: each turn makes one fetch, also after one that failed; all messages fetched are handled, in the order they
      came, before the next fetch; with acks each success and nothing else is acked at once, without acks nothing is; and
      every answer is the environment's. */
  lemma {:induction false} LoopShape(env: Env, acks: bool, rounds: nat)
    ensures var t := LoopTrace(env, acks, rounds);
            Shape(env, acks, t) && HandledIds(t) == FetchedIds(t) && Fetches(t) == rounds
  {
    hide Shape;
    hide HandledIds;
    hide FetchedIds;
    hide Fetches;
    hide BatchTrace;
    if rounds == 0 {
      NoCalls(env, acks);
    } else {
      var t := LoopTrace(env, acks, rounds - 1);
      LoopShape(env, acks, rounds - 1);
      FetchShape(env, acks, t);
      var reply := env.fetch(t);
      if reply.Fetched? {
        BatchShape(env, acks, t + [Fetch(reply)], reply.ids);
      }
    }
  }

  lemma NoCalls(env: Env, acks: bool)
    ensures Shape(env, acks, []) && HandledIds([]) == [] && FetchedIds([]) == [] && Fetches([]) == 0
  {
    assert FetchPlaces([]) == {};
  }

  // ---------------------------------------------------------------- counts

  /** Tallies are numbers of places. */
  lemma {:induction false} TallyIsCount(t: Trace)
    ensures Tally(t, Succeeded) == Successes(t)
    ensures Tally(t, AckFailed) == FailedAcks(t)
  {
    if t != [] {
      var init, c := t[..|t| - 1], t[|t| - 1];
      TallyIsCount(init);
      assert t == init + [c];
      SuccessesGrow(init, c);
      FailedAcksGrow(init, c);
      hide Successes;
      hide FailedAcks;
    }
  }

  lemma {:induction false} NoFailedAcks(t: Trace)
    requires AcksNone(t)
    ensures FailedAcks(t) == 0
  {
    assert FailedAckPlaces(t) == {};
  }
}
