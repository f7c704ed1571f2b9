/** One consumer draining a mailbox, and how the trace model and the multi-worker model agree on what a FETCH returns. */
module Drain {
  import opened Text
  import opened ConsumeLoop
  import opened OffsetLaws
  import CallOrder
  import GroupOffset

  /** A broker that holds these messages for one consumer: a fetch fails or returns at most numMsgs of the pending
      messages, at least one when there is one; handlers and acks succeed. */
  ghost predicate Serves(env: Env, log: seq<nat>, numMsgs: nat) {
    && (forall t :: ServedBy(env.fetch(t), Pending(log, Offset(0, t)), numMsgs))
    && (forall t, id :: env.handle(t, id))
    && (forall t, id :: env.ack(t, id) == AckReply(true, true))
  }

  predicate ServedBy(reply: FetchReply, pending: seq<nat>, numMsgs: nat) {
    reply.Fetched? ==>
      reply.ids <= pending && |reply.ids| <= numMsgs && (pending != [] ==> reply.ids != [])
  }

  predicate Answered(c: Call) {
    c.Fetch? && c.answer.Fetched?
  }

  predicate NonEmpty(c: Call) {
    c.Fetch? && c.answer.Fetched? && c.answer.ids != []
  }

  /** What matters of a trace here: the messages handled, the offset, and three counts. */
  datatype Summary = Summary(done: seq<nat>, offset: nat, succeeded: nat, answered: nat, nonEmpty: nat)

  function Sum(t: Trace): Summary {
    Summary(HandledIds(t), Offset(0, t), Tally(t, Succeeded), Tally(t, Answered), Tally(t, NonEmpty))
  }

  lemma SumGrow(t: Trace, c: Call)
    ensures Sum(t + [c]) == Summary(
        HandledIds(t) + (if c.Handle? then [c.msg] else []),
        if c.Ack? && c.reply.took && c.acked >= Offset(0, t) then c.acked + 1 else Offset(0, t),
        Tally(t, Succeeded) + (if Succeeded(c) then 1 else 0),
        Tally(t, Answered) + (if Answered(c) then 1 else 0),
        Tally(t, NonEmpty) + (if NonEmpty(c) then 1 else 0))
  {
  }

  /** The summary after a batch whose messages are above the offset. */
  function AfterBatch(x: Summary, ids: seq<nat>): Summary {
    if ids == [] then x
    else x.(done := x.done + ids, offset := ids[|ids| - 1] + 1, succeeded := x.succeeded + |ids|)
  }

  /** What a message whose handler and ack succeed adds to a trace. */
  lemma OneHandled(env: Env, log: seq<nat>, numMsgs: nat, t: Trace, id: nat)
    requires Serves(env, log, numMsgs) && id >= Offset(0, t)
    ensures Sum(HandleTrace(env, true, t, id)) == AfterBatch(Sum(t), [id])
  {
    hide Tally;
    hide Offset;
    hide HandledIds;
    hide Pending;
    var h := Handle(id, env.handle(t, id));
    var v := t + [h];
    SumGrow(t, h);
    SumGrow(v, Ack(id, env.ack(v, id)));
  }

  lemma {:induction false} BatchHandled(env: Env, log: seq<nat>, numMsgs: nat, t: Trace, ids: seq<nat>)
    requires Serves(env, log, numMsgs) && Sorted(ids) && (ids != [] ==> ids[0] >= Offset(0, t))
    ensures Sum(BatchTrace(env, true, t, ids)) == AfterBatch(Sum(t), ids)
    decreases |ids|
  {
    hide Tally;
    hide Offset;
    hide HandledIds;
    hide HandleTrace;
    hide Serves;
    if ids != [] {
      var init, id := ids[..|ids| - 1], ids[|ids| - 1];
      BatchHandled(env, log, numMsgs, t, init);
      assert ids == init + [id];
      assert |ids| > 1 ==> init[|init| - 1] < id;
      OneHandled(env, log, numMsgs, BatchTrace(env, true, t, init), id);
    }
  }

  /** The most messages some fetches can return. */
  function Capacity(fetches: nat, numMsgs: nat): nat {
    fetches * numMsgs
  }

  lemma OneFetchMore(f: nat, m: nat)
    ensures Capacity(f + 1, m) == Capacity(f, m) + m
  {
  }

  /** Where the consumer stands: what was handled and what is pending make up the mailbox. */
  ghost predicate Progress(log: seq<nat>, numMsgs: nat, x: Summary) {
    var n := |x.done|;
    && n <= |log| && x.done == log[..n]
    && From(log, x.offset) == n
    && x.offset == (if n == 0 then 0 else log[n - 1] + 1)
    && x.succeeded == n
    && x.nonEmpty <= n <= Capacity(x.nonEmpty, numMsgs)
    && (n == |log| || x.answered <= n)
  }

  /** The summary after a fetch, before its batch. */
  function AfterFetch(x: Summary, reply: FetchReply): Summary {
    match reply
    case FetchError => x
    case Fetched(ids) => x.(answered := x.answered + 1, nonEmpty := x.nonEmpty + if ids == [] then 0 else 1)
  }

  lemma SumFetch(t: Trace, reply: FetchReply)
    ensures Sum(t + [Fetch(reply)]) == AfterFetch(Sum(t), reply)
  {
  }

  /** A served batch is the next part of the mailbox. */
  lemma BatchReady(log: seq<nat>, numMsgs: nat, x: Summary, ids: seq<nat>)
    requires Sorted(log) && Progress(log, numMsgs, x)
    requires ServedBy(Fetched(ids), Pending(log, x.offset), numMsgs)
    ensures var n := |x.done|;
            && n + |ids| <= |log| && log[..n] + ids == log[..n + |ids|]
            && |ids| <= numMsgs && (n < |log| ==> ids != [])
            && Sorted(ids)
            && (ids != [] ==> ids[0] >= x.offset && ids[|ids| - 1] == log[n + |ids| - 1])
  {
    hide Capacity;
    var n := |x.done|;
    assert ids == log[n..n + |ids|];
    assert forall i :: 0 <= i < |ids| ==> ids[i] == log[n + i];
  }

  /** An answered fetch and its batch keep the progress. */
  lemma BatchProgress(log: seq<nat>, numMsgs: nat, x: Summary, ids: seq<nat>)
    requires Sorted(log) && Progress(log, numMsgs, x)
    requires ServedBy(Fetched(ids), Pending(log, x.offset), numMsgs)
    ensures Progress(log, numMsgs, AfterBatch(AfterFetch(x, Fetched(ids)), ids))
  {
    hide Sorted;
    hide From;
    hide Pending;
    hide ServedBy;
    hide Capacity;
    BatchReady(log, numMsgs, x, ids);
    OneFetchMore(x.nonEmpty, numMsgs);
    if ids != [] {
      FromPast(log, |x.done| + |ids| - 1);
    }
  }

  lemma RoundCases(env: Env, log: seq<nat>, numMsgs: nat, t: Trace)
    requires Serves(env, log, numMsgs)
    ensures var reply := env.fetch(t);
            && ServedBy(reply, Pending(log, Offset(0, t)), numMsgs)
            && RoundTrace(env, true, t) ==
                 if reply.Fetched? then BatchTrace(env, true, t + [Fetch(reply)], reply.ids) else t + [Fetch(reply)]
  {
  }

  lemma RoundProgress(env: Env, log: seq<nat>, numMsgs: nat, t: Trace)
    requires Serves(env, log, numMsgs) && Sorted(log) && Progress(log, numMsgs, Sum(t))
    ensures Progress(log, numMsgs, Sum(RoundTrace(env, true, t)))
  {
    hide *;
    var reply := env.fetch(t);
    var x := Sum(t);
    RoundCases(env, log, numMsgs, t);
    SumFetch(t, reply);
    SumOffset(t);
    SumOffset(t + [Fetch(reply)]);
    FetchOffset(x, reply);
    if reply.Fetched? {
      BatchReady(log, numMsgs, x, reply.ids);
      BatchHandled(env, log, numMsgs, t + [Fetch(reply)], reply.ids);
      BatchProgress(log, numMsgs, x, reply.ids);
    }
  }

  lemma SumOffset(t: Trace)
    ensures Sum(t).offset == Offset(0, t)
  {
  }

  lemma FetchOffset(x: Summary, reply: FetchReply)
    ensures AfterFetch(x, reply).offset == x.offset
    ensures reply.FetchError? ==> AfterFetch(x, reply) == x
  {
  }

  lemma NoProgressYet(log: seq<nat>, numMsgs: nat)
    ensures Progress(log, numMsgs, Sum([]))
  {
  }

  lemma LoopUnfold(env: Env, rounds: nat)
    ensures LoopTrace(env, true, 0) == []
    ensures rounds > 0 ==> LoopTrace(env, true, rounds) == RoundTrace(env, true, LoopTrace(env, true, rounds - 1))
  {
  }

  lemma {:induction false} LoopProgress(env: Env, log: seq<nat>, numMsgs: nat, rounds: nat)
    requires Serves(env, log, numMsgs) && Sorted(log)
    ensures Progress(log, numMsgs, Sum(LoopTrace(env, true, rounds)))
  {
    hide *;
    LoopUnfold(env, rounds);
    if rounds == 0 {
      NoProgressYet(log, numMsgs);
    } else {
      LoopProgress(env, log, numMsgs, rounds - 1);
      RoundProgress(env, log, numMsgs, LoopTrace(env, true, rounds - 1));
    }
  }

  /** Draining. At every moment the messages handled are a prefix of the mailbox, each exactly once and in id order; after
      as many answered fetches as there are messages all are handled and counted and none is pending, and the non-empty
      fetches number at least |log| / numMsgs and at most |log|. With ids from 0 the offset ends at |log|. */
  lemma Drained(env: Env, log: seq<nat>, numMsgs: nat, rounds: nat)
    requires Serves(env, log, numMsgs) && Sorted(log)
    ensures var t := LoopTrace(env, true, rounds);
            && HandledIds(t) <= log
            && Tally(t, Succeeded) == |HandledIds(t)|
            && (Tally(t, Answered) >= |log| ==>
                  && HandledIds(t) == log
                  && Pending(log, Offset(0, t)) == []
                  && Tally(t, NonEmpty) <= |log| <= Tally(t, NonEmpty) * numMsgs
                  && ((forall i :: 0 <= i < |log| ==> log[i] == i) ==> Offset(0, t) == |log|))
  {
    LoopProgress(env, log, numMsgs, rounds);
    assert log[..|log|] == log;
  }

  lemma {:induction false} AllSucceed(env: Env, log: seq<nat>, numMsgs: nat, t: Trace)
    requires Serves(env, log, numMsgs) && CallOrder.Answered(env, t)
    ensures CallOrder.Successes(t) == |HandledIds(t)| && CallOrder.FailedAcks(t) == 0
  {
    hide ServedBy;
    if t == [] {
      assert CallOrder.SuccessPlaces(t) == {} && CallOrder.FailedAckPlaces(t) == {};
    } else {
      var init, c := t[..|t| - 1], t[|t| - 1];
      forall i | 0 <= i < |init| ensures CallOrder.AnswerAt(env, init, i) {
        assert CallOrder.AnswerAt(env, t, i) && init[..i] == t[..i];
      }
      AllSucceed(env, log, numMsgs, init);
      assert CallOrder.AnswerAt(env, t, |t| - 1);
      assert t == init + [c];
      CallOrder.SuccessesGrow(init, c);
      CallOrder.FailedAcksGrow(init, c);
      hide CallOrder.Successes;
      hide CallOrder.FailedAcks;
    }
  }

  /** While a mailbox is served without failures, every SDK reports exactly the number of messages handled, whatever its
      options. */
  lemma DrainedCounts(sdk: Sdk, o: Options, env: Env, log: seq<nat>, numMsgs: nat, rounds: nat)
    requires Serves(env, log, numMsgs)
    ensures var t := LoopTrace(env, Acks(sdk, o), rounds);
            Processed(sdk, o, t) == |HandledIds(t)|
  {
    hide LoopTrace;
    hide Serves;
    hide Processed;
    hide CallOrder.Successes;
    hide CallOrder.FailedAcks;
    hide CallOrder.Answered;
    CallsOf(sdk, env, o, rounds);
    CountsOf(sdk, env, o, rounds);
    AllSucceed(env, log, numMsgs, LoopTrace(env, Acks(sdk, o), rounds));
  }

  /** Any front part of the pending messages is a batch of the multi-worker model. */
  lemma PendingPartIsBatch(s: GroupOffset.State, prio: GroupOffset.Priorities, log: seq<nat>, k: nat)
    requires Sorted(log) && s.stored == (set m | m in log) && GroupOffset.Fifo(prio)
    requires k <= |Pending(log, s.offset)|
    ensures GroupOffset.IsBatch(s, prio, Pending(log, s.offset)[..k])
  {
    hide From;
    hide Sorted;
    hide GroupOffset.Fifo;
    hide GroupOffset.Before;
    var n := From(log, s.offset);
    var batch := log[n..n + k];
    assert Pending(log, s.offset)[..k] == batch;
    hide Pending;
    forall i | 0 <= i < k ensures batch[i] in s.stored && batch[i] >= s.offset {
      assert batch[i] == log[n + i];
      PendingAbove(log, s.offset, n + i);
    }
    forall m, i | m in s.stored && m >= s.offset && 0 <= i < |batch| && GroupOffset.Before(prio, m, batch[i])
      ensures m in batch[..i]
    {
      PendingEarlier(log, prio, s.offset, k, m, i);
    }
    BatchInOrder(log, prio, n, k);
  }

  lemma PendingAbove(log: seq<nat>, off: nat, i: nat)
    requires Sorted(log) && From(log, off) <= i < |log|
    ensures log[i] >= off
  {
    hide From;
  }

  lemma PendingEarlier(log: seq<nat>, prio: GroupOffset.Priorities, off: nat, k: nat, m: nat, i: nat)
    requires Sorted(log) && GroupOffset.Fifo(prio)
    requires From(log, off) + k <= |log| && i < k && m in log && m >= off
    requires GroupOffset.Before(prio, m, log[From(log, off) + i])
    ensures m in log[From(log, off)..From(log, off) + k][..i]
  {
    hide From;
    var n := From(log, off);
    var j :| 0 <= j < |log| && log[j] == m;
    assert m < log[n + i];
    assert n <= j < n + i;
    assert log[n..n + i][j - n] == m;
    assert log[n..n + k][..i] == log[n..n + i];
  }

  lemma BatchInOrder(log: seq<nat>, prio: GroupOffset.Priorities, n: nat, k: nat)
    requires Sorted(log) && GroupOffset.Fifo(prio) && n + k <= |log|
    ensures var batch := log[n..n + k];
            forall i, j :: 0 <= i < j < k ==> GroupOffset.Before(prio, batch[i], batch[j])
  {
    var batch := log[n..n + k];
    forall i, j | 0 <= i < j < k ensures GroupOffset.Before(prio, batch[i], batch[j]) {
      assert log[n + i] < log[n + j];
    }
  }
}
