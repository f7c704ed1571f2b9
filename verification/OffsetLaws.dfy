/** What the traces of the consume loops mean for counts, for the group offset and for redelivery, on a mailbox of one
    priority whose ids grow. */
module OffsetLaws {
  import opened Text
  import opened ConsumeLoop
  import opened CallOrder

  // ---------------------------------------------------------------- the five SDKs

  datatype Sdk = Go | Rust | Java | Python | Js

  /** The group is "" in Go when it is not set. */
  datatype Options = Options(group: Option<string>, autoAck: bool)

  /** Whether a loop acks after a handler has succeeded. */
  predicate Acks(sdk: Sdk, o: Options) {
    match sdk
    case Go => o.autoAck
    case Rust => o.autoAck && o.group.Some?
    case Java => o.autoAck && o.group.Some?
    case Python => o.autoAck && o.group.Some?
    case Js => o.autoAck && o.group.Some? && o.group.value != ""
  }

  predicate CountsFirst(sdk: Sdk) {
    sdk.Go? || sdk.Rust? || sdk.Java?
  }

  /** The number an SDK reports as processed. */
  function Processed(sdk: Sdk, o: Options, t: Trace): nat {
    Tally(t, if CountsFirst(sdk) then Succeeded else CountedLast(Acks(sdk, o)))
  }

  /** Any of the loops. All of them make one fetch a turn and handle all they fetch in its order. With auto-ack and a group
      that is not empty each success is acked at once, without auto-ack nothing is; without a group only Go acks, and with
      an empty one all but JavaScript do. Python and JavaScript do not count a success whose ack failed. */
  method Consume(sdk: Sdk, env: Env, o: Options, rounds: nat) returns (calls: Trace, processed: nat)
    ensures calls == LoopTrace(env, Acks(sdk, o), rounds) && processed == Processed(sdk, o, calls)
    ensures Answered(env, calls)
    ensures Fetches(calls) == rounds && FetchesInTurn(calls) && HandledIds(calls) == FetchedIds(calls)
    ensures AcksOnlySuccesses(calls)
    ensures !o.autoAck ==> AcksNone(calls)
    ensures o.autoAck && o.group.Some? && o.group.value != "" ==> AcksEach(calls)
    ensures o.autoAck && o.group == None ==> if sdk == Go then AcksEach(calls) else AcksNone(calls)
    ensures o.autoAck && o.group == Some("") ==> if sdk == Js then AcksNone(calls) else AcksEach(calls)
    ensures sdk in {Go, Rust, Java} ==> processed == Successes(calls)
    ensures sdk in {Python, Js} ==> processed + FailedAcks(calls) == Successes(calls)
  {
    var c := new Consumer();
    if CountsFirst(sdk) {
      c.ConsumeCountingFirst(env, Acks(sdk, o), rounds);
    } else {
      c.ConsumeCountingLast(env, Acks(sdk, o), rounds);
    }
    calls, processed := c.calls, c.processed;
    CallsOf(sdk, env, o, rounds);
    CountsOf(sdk, env, o, rounds);
  }

  lemma CallsOf(sdk: Sdk, env: Env, o: Options, rounds: nat)
    ensures var calls := LoopTrace(env, Acks(sdk, o), rounds);
            && Answered(env, calls)
            && Fetches(calls) == rounds && FetchesInTurn(calls) && HandledIds(calls) == FetchedIds(calls)
            && AcksOnlySuccesses(calls)
            && (if Acks(sdk, o) then AcksEach(calls) else AcksNone(calls))
  {
    hide LoopTrace;
    LoopShape(env, Acks(sdk, o), rounds);
  }

  /** Every success is counted, but in Python and JavaScript not one whose ack failed. */
  lemma CountsOf(sdk: Sdk, env: Env, o: Options, rounds: nat)
    ensures var calls := LoopTrace(env, Acks(sdk, o), rounds);
            Processed(sdk, o, calls) + (if sdk in {Python, Js} then FailedAcks(calls) else 0) == Successes(calls)
  {
    hide LoopTrace;
    hide Tally;
    hide Successes;
    hide FailedAcks;
    var calls := LoopTrace(env, Acks(sdk, o), rounds);
    TallyIsCount(calls);
    if Acks(sdk, o) {
      LoopBalances(env, rounds);
    } else {
      LoopShape(env, false, rounds);
      NoFailedAcks(calls);
    }
  }

  lemma {:induction false} BatchBalances(env: Env, t: Trace, ids: seq<nat>)
    ensures var u := BatchTrace(env, true, t, ids);
            Tally(u, Succeeded) + Tally(t, Acked) + Tally(t, AckFailed)
            == Tally(t, Succeeded) + Tally(u, Acked) + Tally(u, AckFailed)
    decreases |ids|
  {
    if ids != [] {
      hide Tally;
      var u := BatchTrace(env, true, t, ids[..|ids| - 1]);
      BatchBalances(env, t, ids[..|ids| - 1]);
      var id := ids[|ids| - 1];
      var h := Handle(id, env.handle(u, id));
      var v := u + [h];
      var a := Ack(id, env.ack(v, id));
      TallyGrow(u, h, Succeeded);
      TallyGrow(u, h, Acked);
      TallyGrow(u, h, AckFailed);
      TallyGrow(v, a, Succeeded);
      TallyGrow(v, a, Acked);
      TallyGrow(v, a, AckFailed);
    }
  }

  /** Every success of a handler is followed by one ack, confirmed or failed. */
  lemma {:induction false} LoopBalances(env: Env, rounds: nat)
    ensures var t := LoopTrace(env, true, rounds);
            Tally(t, Succeeded) == Tally(t, Acked) + Tally(t, AckFailed)
  {
    if rounds > 0 {
      LoopBalances(env, rounds - 1);
      hide Tally;
      var t := LoopTrace(env, true, rounds - 1);
      var f := Fetch(env.fetch(t));
      TallyGrow(t, f, Succeeded);
      TallyGrow(t, f, Acked);
      TallyGrow(t, f, AckFailed);
      if f.answer.Fetched? {
        BatchBalances(env, t + [f], f.answer.ids);
      }
    }
  }

  /** With a non-empty group and auto-ack on, all five loops issue the same calls against the same environment, and a loop
      that counts before the ack is ahead of one that counts after it by exactly the acks that failed. */
  lemma SameCallsCountsDiffer(first: Sdk, last: Sdk, o: Options, env: Env, rounds: nat)
    requires CountsFirst(first) && !CountsFirst(last)
    requires o.autoAck && o.group.Some? && o.group.value != ""
    ensures var t := LoopTrace(env, Acks(first, o), rounds);
            t == LoopTrace(env, Acks(last, o), rounds)
            && Processed(first, o, t) == Processed(last, o, t) + FailedAcks(t)
  {
    hide LoopTrace;
    hide Processed;
    CountsOf(first, env, o, rounds);
    CountsOf(last, env, o, rounds);
  }

  /** An environment with one message, for ever. */
  function OneMessage(): Env {
    Env(t => Fetched([0]), (t, id) => true, (t, id) => AckReply(true, true))
  }

  /** The loops of all SDKs agree on every environment exactly when auto-ack is off or the group is set and not empty. */
  lemma SameCallsExactly(o: Options)
    ensures (forall a: Sdk, b: Sdk, env: Env, rounds: nat ::
              LoopTrace(env, Acks(a, o), rounds) == LoopTrace(env, Acks(b, o), rounds))
            <==> !o.autoAck || (o.group.Some? && o.group.value != "")
  {
    if !o.autoAck || (o.group.Some? && o.group.value != "") {
      forall a: Sdk, b: Sdk, env: Env, rounds: nat
        ensures LoopTrace(env, Acks(a, o), rounds) == LoopTrace(env, Acks(b, o), rounds)
      {
        assert Acks(a, o) == Acks(b, o);
      }
    } else {
      assert Acks(Go, o) && !Acks(Js, o);
      OneRound(OneMessage(), true);
      OneRound(OneMessage(), false);
      assert LoopTrace(OneMessage(), Acks(Go, o), 1) != LoopTrace(OneMessage(), Acks(Js, o), 1);
    }
  }

  lemma OneRound(env: Env, acks: bool)
    requires env == OneMessage()
    ensures |LoopTrace(env, acks, 1)| == if acks then 3 else 2
  {
  }

  // ---------------------------------------------------------------- the broker's side

  /** The group offset after a trace: an ack that takes effect moves it past its message and never back. */
  function Offset(from: nat, t: Trace): nat {
    if t == [] then from
    else
      var o := Offset(from, t[..|t| - 1]);
      var c := t[|t| - 1];
      if c.Ack? && c.reply.took && c.acked >= o then c.acked + 1 else o
  }

  lemma OffsetGrow(from: nat, t: Trace, c: Call)
    ensures Offset(from, t + [c]) ==
            var o := Offset(from, t); if c.Ack? && c.reply.took && c.acked >= o then c.acked + 1 else o
  {
  }

  ghost predicate Sorted(log: seq<nat>) {
    forall i, j :: 0 <= i < j < |log| ==> log[i] < log[j]
  }

  /** The position of the first stored message from an offset on. */
  function From(log: seq<nat>, off: nat): (n: nat)
    ensures n <= |log|
    ensures forall i :: 0 <= i < n ==> log[i] < off
    ensures n < |log| ==> log[n] >= off
  {
    if log == [] || log[0] >= off then 0 else 1 + From(log[1..], off)
  }

  /** The stored messages from an offset on. */
  function Pending(log: seq<nat>, off: nat): seq<nat> {
    log[From(log, off)..]
  }

  /** Moving the offset past a stored message leaves those after it. */
  lemma FromPast(log: seq<nat>, i: nat)
    requires Sorted(log) && i < |log|
    ensures From(log, log[i] + 1) == i + 1
  {
  }

  /** Messages that arrive later do not move the first pending one. */
  lemma FromMore(log: seq<nat>, more: seq<nat>, off: nat)
    requires From(log, off) < |log|
    ensures From(log + more, off) == From(log, off)
  {
    var n := From(log, off);
    var all := log + more;
    assert all[n] == log[n];
    assert forall i :: 0 <= i < n ==> all[i] == log[i];
  }

  // ---------------------------------------------------------------- the retry law

  /** An ack of this message took effect in t[from..]. */
  ghost predicate Took(t: Trace, from: nat, id: nat) {
    exists i :: from <= i < |t| && t[i].Ack? && t[i].acked == id && t[i].reply.took
  }

  lemma TookStays(t: Trace, c: Call, from: nat, id: nat)
    requires from <= |t|
    ensures Took(t + [c], from, id) <==> Took(t, from, id) || (c.Ack? && c.acked == id && c.reply.took)
  {
    var u := t + [c];
    if Took(t, from, id) {
      var i :| from <= i < |t| && t[i].Ack? && t[i].acked == id && t[i].reply.took;
      assert u[i] == t[i];
    }
    if c.Ack? && c.acked == id && c.reply.took {
      assert u[|t|] == c;
    }
    if Took(u, from, id) {
      var i :| from <= i < |u| && u[i].Ack? && u[i].acked == id && u[i].reply.took;
      if i < |t| {
        assert u[i] == t[i];
      }
    }
  }

  lemma HandleTook(env: Env, acks: bool, t: Trace, id: nat, from: nat, off: nat) returns (took: bool)
    requires from <= |t|
    ensures var u := HandleTrace(env, acks, t, id);
            && |u| >= |t|
            && (forall m :: Took(u, from, m) <==> Took(t, from, m) || (took && m == id))
            && Offset(off, u) == var o := Offset(off, t); if took && id >= o then id + 1 else o
  {
    var h := Handle(id, env.handle(t, id));
    var v := t + [h];
    OffsetGrow(off, t, h);
    forall m ensures Took(v, from, m) <==> Took(t, from, m) {
      TookStays(t, h, from, m);
    }
    took := false;
    if h.ok && acks {
      var a := Ack(id, env.ack(v, id));
      OffsetGrow(off, v, a);
      took := a.reply.took;
      forall m ensures Took(v + [a], from, m) <==> Took(v, from, m) || (took && m == id) {
        TookStays(v, a, from, m);
      }
    }
  }

  /** The part of a batch after the last message whose ack took effect starts at n. */
  ghost predicate SettledTo(t: Trace, from: nat, ids: seq<nat>, n: nat) {
    && n <= |ids|
    && (n > 0 ==> Took(t, from, ids[n - 1]))
    && (forall i :: n <= i < |ids| ==> !Took(t, from, ids[i]))
  }

  /** What the trace u of a batch after t did: it settled the batch up to n and moved the offset there. */
  ghost predicate Settles(from: nat, t: Trace, u: Trace, ids: seq<nat>, n: nat) {
    && |u| >= |t| && n <= |ids|
    && SettledTo(u, |t|, ids, n)
    && Offset(from, u) == (if n == 0 then Offset(from, t) else ids[n - 1] + 1)
    && (forall m :: Took(u, |t|, m) ==> m in ids)
  }

  lemma {:induction false} BatchSettles(env: Env, acks: bool, t: Trace, ids: seq<nat>, from: nat) returns (n: nat)
    requires Sorted(ids) && (ids != [] ==> ids[0] >= Offset(from, t))
    ensures Settles(from, t, BatchTrace(env, acks, t, ids), ids, n)
    decreases |ids|
  {
    n := 0;
    if ids == [] {
      assert Settles(from, t, t, [], 0);
    } else {
      var init, id := ids[..|ids| - 1], ids[|ids| - 1];
      n := BatchSettles(env, acks, t, init, from);
      BatchStep(env, acks, t, ids);
      assert ids == init + [id];
      hide *;
      n := LastSettles(env, acks, from, t, BatchTrace(env, acks, t, init), init, id, n);
    }
  }

  lemma BatchStep(env: Env, acks: bool, t: Trace, ids: seq<nat>)
    requires ids != []
    ensures BatchTrace(env, acks, t, ids)
         == HandleTrace(env, acks, BatchTrace(env, acks, t, ids[..|ids| - 1]), ids[|ids| - 1])
  {
  }

  /** The last message of a batch settles everything when its ack takes effect, and nothing otherwise. */
  lemma LastSettles(env: Env, acks: bool, from: nat, t: Trace, u: Trace, init: seq<nat>, id: nat, n: nat)
    returns (m: nat)
    requires Sorted(init + [id]) && (init + [id])[0] >= Offset(from, t)
    requires Settles(from, t, u, init, n)
    ensures Settles(from, t, HandleTrace(env, acks, u, id), init + [id], m)
  {
    hide HandleTrace;
    hide Offset;
    hide Took;
    var ids := init + [id];
    var took := HandleTook(env, acks, u, id, |t|, from);
    m := if took then |init| + 1 else n;
    forall i | 0 <= i < |init| ensures init[i] != id && ids[i] == init[i] {
      assert ids[i] < ids[|init|];
    }
    assert n > 0 ==> ids[n - 1] < ids[|init|];
  }

  /** The retry law. Whatever the handlers and the acks of a non-empty batch do, and whatever is sent meanwhile, what the
      group is offered next is the part of the batch after the last message whose ack took effect, in the same order,
      and then the messages after the batch. */
  lemma RetryLaw(env: Env, acks: bool, from: nat, t: Trace, log: seq<nat>, more: seq<nat>, k: nat) returns (n: nat)
    requires Sorted(log + more)
    requires 0 < k <= |Pending(log, Offset(from, t))|
    ensures var pending := Pending(log, Offset(from, t));
            var batch := pending[..k];
            var fetched := t + [Fetch(Fetched(batch))];
            var u := BatchTrace(env, acks, fetched, batch);
            && n <= k && SettledTo(u, |fetched|, batch, n)
            && Offset(from, u) == (if n == 0 then Offset(from, t) else batch[n - 1] + 1)
            && Pending(log + more, Offset(from, u)) == batch[n..] + pending[k..] + more
  {
    var off := Offset(from, t);
    var pending := Pending(log, off);
    var batch := pending[..k];
    var fetched := t + [Fetch(Fetched(batch))];
    OffsetGrow(from, t, Fetch(Fetched(batch)));
    SortedPart(log, more, From(log, off), k);
    n := BatchSettles(env, acks, fetched, batch, from);
    NextOffered(log, more, off, k, n);
  }

  lemma SortedPart(log: seq<nat>, more: seq<nat>, n: nat, k: nat)
    requires Sorted(log + more) && n + k <= |log|
    ensures Sorted(log[n..][..k])
  {
    var all := log + more;
    var part := log[n..][..k];
    forall i, j | 0 <= i < j < |part| ensures part[i] < part[j] {
      assert part[i] == all[n + i] && part[j] == all[n + j];
    }
  }

  lemma NextOffered(log: seq<nat>, more: seq<nat>, off: nat, k: nat, n: nat)
    requires Sorted(log + more)
    requires 0 < k <= |Pending(log, off)| && n <= k
    ensures var pending := Pending(log, off);
            Pending(log + more, if n == 0 then off else pending[n - 1] + 1) == pending[..k][n..] + pending[k..] + more
  {
    var first := From(log, off);
    var all := log + more;
    FromMore(log, more, off);
    hide From;
    if n > 0 {
      assert Pending(log, off)[n - 1] == all[first + n - 1];
      FromPast(all, first + n - 1);
    }
    Parts(log, more, first, k, n);
  }

  lemma Parts(log: seq<nat>, more: seq<nat>, first: nat, k: nat, n: nat)
    requires n <= k && first + k <= |log|
    ensures (log + more)[first + n..] == log[first..][..k][n..] + log[first..][k..] + more
  {
  }
}
