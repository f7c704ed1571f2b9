/** The consume loop as a worker of the machine: in an environment whose answers come from the machine, with any other
    workers, senders and network steps in between, every run of the loop is a run of the machine. */
module LoopInMachine {
  import opened Text
  import opened ConsumeLoop
  import opened Drain
  import G = GroupOffset

  // ---------------------------------------------------------------- what the others do

  /** The steps that a worker takes itself. */
  predicate StepOf(step: G.Step, w: G.WorkerId) {
    match step
    case Send(_) => false
    case Delete(_) => false
    case AckArrives(_) => false
    case AckLost(_) => false
    case _ => step.w == w
  }

  ghost function RunFrom(prio: G.Priorities, s: G.State, steps: seq<G.Step>): Option<G.State> {
    if steps == [] then Some(s)
    else
      match RunFrom(prio, s, steps[..|steps| - 1])
      case Some(t) =>
        if G.Enabled(t, prio, steps[|steps| - 1]) then Some(G.After(t, prio, steps[|steps| - 1])) else None
      case None => None
  }

  /** From s to t by steps of anyone but w. */
  ghost predicate Others(prio: G.Priorities, w: G.WorkerId, s: G.State, t: G.State) {
    exists steps :: (forall step :: step in steps ==> !StepOf(step, w)) && RunFrom(prio, s, steps) == Some(t)
  }

  /** What a worker finds when it looks again. */
  ghost predicate Later(prio: G.Priorities, w: G.WorkerId, s: G.State, t: G.State) {
    && G.Reachable(prio, t) && s.handed <= t.handed
    && w in s.workers && w in t.workers && t.workers[w] == s.workers[w]
  }

  lemma OthersStep(prio: G.Priorities, w: G.WorkerId, s: G.State, step: G.Step)
    requires G.Enabled(s, prio, step) && !StepOf(step, w) && w in s.workers
    ensures var t := G.After(s, prio, step);
            s.handed <= t.handed && w in t.workers && t.workers[w] == s.workers[w]
  {
    hide G.IsBatch;
  }

  lemma {:induction false} StepsOfOthers(prio: G.Priorities, w: G.WorkerId, s: G.State, steps: seq<G.Step>)
    requires G.Reachable(prio, s) && w in s.workers
    requires (forall step :: step in steps ==> !StepOf(step, w)) && RunFrom(prio, s, steps).Some?
    ensures Later(prio, w, s, RunFrom(prio, s, steps).value)
  {
    hide G.Enabled;
    hide G.After;
    hide G.Reachable;
    hide StepOf;
    if steps != [] {
      var n := |steps| - 1;
      StepsOfOthers(prio, w, s, steps[..n]);
      var u := RunFrom(prio, s, steps[..n]).value;
      OthersStep(prio, w, u, steps[n]);
      var t := G.Reach(prio, u, steps[n]);
    }
  }

  lemma OthersAreLater(prio: G.Priorities, w: G.WorkerId, s: G.State, t: G.State)
    requires G.Reachable(prio, s) && w in s.workers && Others(prio, w, s, t)
    ensures Later(prio, w, s, t)
  {
    hide RunFrom;
    hide G.Reachable;
    hide Later;
    var steps :| (forall step :: step in steps ==> !StepOf(step, w)) && RunFrom(prio, s, steps) == Some(t);
    StepsOfOthers(prio, w, s, steps);
  }

  // ---------------------------------------------------------------- one call of the loop

  /** A loop that has used up its batch is at its top. */
  function Top(s: G.State, w: G.WorkerId): G.State {
    if w in s.workers && s.workers[w].InBatch? then G.Move(s, w, G.AtTop) else s
  }

  /** The loop is where this call comes next. */
  predicate Ready(s: G.State, w: G.WorkerId, c: Call) {
    w in s.workers &&
    var x := s.workers[w];
    match c
    case Fetch(_) => x.AtTop? || (x.InBatch? && x.next >= |x.batch|)
    case Handle(id, _) => x.InBatch? && x.next < |x.batch| && x.batch[x.next] == id
    case Ack(id, _) => x.AckSent? && x.next < |x.batch| && x.batch[x.next] == id
  }

  /** The step is taken from s and gives t. */
  ghost predicate Takes(prio: G.Priorities, s: G.State, step: G.Step, t: G.State) {
    G.Enabled(s, prio, step) && t == G.After(s, prio, step)
  }

  ghost predicate FetchFailed(prio: G.Priorities, w: G.WorkerId, s: G.State, t: G.State) {
    exists a, b :: Takes(prio, Top(s, w), G.FetchCall(w), a) && Others(prio, w, a, b) && Takes(prio, b, G.FetchFails(w), t)
  }

  /** The batch is served at some moment and may be stale when the loop gets it. */
  ghost predicate BatchFetched(prio: G.Priorities, w: G.WorkerId, s: G.State, ids: seq<nat>, t: G.State) {
    exists a, b, c, d ::
      && Takes(prio, Top(s, w), G.FetchCall(w), a) && Others(prio, w, a, b)
      && Takes(prio, b, G.FetchServed(w, ids), c) && Others(prio, w, c, d)
      && Takes(prio, d, G.FetchReturns(w), t)
  }

  ghost predicate Handled(prio: G.Priorities, w: G.WorkerId, acks: bool, s: G.State, ok: bool, t: G.State) {
    exists a, b ::
      && Takes(prio, s, G.Hand(w), a) && Others(prio, w, a, b)
      && Takes(prio, b, if ok then G.HandlerSucceeds(w, acks) else G.HandlerFails(w), t)
  }

  /** An ack that took effect arrived before its call was over; what becomes of another is left to the network. */
  ghost predicate AckDone(prio: G.Priorities, w: G.WorkerId, s: G.State, id: nat, took: bool, t: G.State) {
    exists a, b, c ::
      && Others(prio, w, s, a)
      && (if took then Takes(prio, a, G.AckArrives(id), b) else a == b)
      && Others(prio, w, b, c) && Takes(prio, c, G.AckReturns(w), t)
  }

  ghost predicate CallMade(prio: G.Priorities, w: G.WorkerId, acks: bool, s: G.State, c: Call, t: G.State) {
    match c
    case Fetch(FetchError) => FetchFailed(prio, w, s, t)
    case Fetch(Fetched(ids)) => BatchFetched(prio, w, s, ids, t)
    case Handle(_, ok) => Handled(prio, w, acks, s, ok, t)
    case Ack(id, reply) => AckDone(prio, w, s, id, reply.took, t)
  }

  /** `at` is the machine's state after each trace of the worker's calls: whenever the loop stands where a call comes
      next, the environment's answer is one that the machine gives. */
  ghost predicate Backed(env: Env, prio: G.Priorities, w: G.WorkerId, acks: bool, at: Trace -> G.State) {
    && G.Reachable(prio, at([])) && w in at([]).workers && at([]).workers[w].AtTop?
    && (forall t :: Ready(at(t), w, Fetch(env.fetch(t))) ==>
          CallMade(prio, w, acks, at(t), Fetch(env.fetch(t)), at(t + [Fetch(env.fetch(t))])))
    && (forall t, id :: Ready(at(t), w, Handle(id, env.handle(t, id))) ==>
          CallMade(prio, w, acks, at(t), Handle(id, env.handle(t, id)), at(t + [Handle(id, env.handle(t, id))])))
    && (forall t, id :: Ready(at(t), w, Ack(id, env.ack(t, id))) ==>
          CallMade(prio, w, acks, at(t), Ack(id, env.ack(t, id)), at(t + [Ack(id, env.ack(t, id))])))
  }

  // ---------------------------------------------------------------- what a call does

  /** Where the loop stands after a call. */
  function Moved(x: G.Worker, acks: bool, c: Call): G.Worker {
    match c
    case Fetch(FetchError) => G.AtTop
    case Fetch(Fetched(ids)) => G.InBatch(ids, 0)
    case Handle(_, ok) =>
      if !x.InBatch? then x
      else if ok && acks then G.AckSent(x.batch, x.next)
      else G.InBatch(x.batch, x.next + 1)
    case Ack(_, _) => if x.AckSent? then G.InBatch(x.batch, x.next + 1) else x
  }

  ghost predicate Follows(prio: G.Priorities, w: G.WorkerId, s: G.State, t: G.State, x: G.Worker) {
    G.Reachable(prio, t) && s.handed <= t.handed && w in t.workers && t.workers[w] == x
  }

  lemma TopReachable(prio: G.Priorities, w: G.WorkerId, s: G.State)
    requires G.Reachable(prio, s) && w in s.workers
    requires s.workers[w].AtTop? || (s.workers[w].InBatch? && s.workers[w].next >= |s.workers[w].batch|)
    ensures Follows(prio, w, s, Top(s, w), G.AtTop)
  {
    hide G.Reachable;
    if s.workers[w].InBatch? {
      var t := G.Reach(prio, s, G.BatchEnds(w));
    }
  }

  /** A step of the worker itself. */
  lemma Steps(prio: G.Priorities, w: G.WorkerId, s: G.State, step: G.Step, t: G.State)
    requires G.Reachable(prio, s) && Takes(prio, s, step, t)
    ensures G.Reachable(prio, t) && s.handed <= t.handed
  {
    hide G.Reachable;
    hide G.Enabled;
    hide G.After;
    G.OffsetNeverGoesBack(s, prio, step);
    var u := G.Reach(prio, s, step);
  }

  lemma FetchFailedEffect(prio: G.Priorities, w: G.WorkerId, s: G.State, t: G.State)
    requires G.Reachable(prio, s) && Ready(s, w, Fetch(FetchError)) && FetchFailed(prio, w, s, t)
    ensures Follows(prio, w, s, t, G.AtTop)
  {
    hide G.Reachable;
    hide Others;
    var a, b :|
      Takes(prio, Top(s, w), G.FetchCall(w), a) && Others(prio, w, a, b) && Takes(prio, b, G.FetchFails(w), t);
    TopReachable(prio, w, s);
    Steps(prio, w, Top(s, w), G.FetchCall(w), a);
    OthersAreLater(prio, w, a, b);
    Steps(prio, w, b, G.FetchFails(w), t);
  }

  lemma BatchFetchedEffect(prio: G.Priorities, w: G.WorkerId, s: G.State, ids: seq<nat>, t: G.State)
    requires G.Reachable(prio, s) && Ready(s, w, Fetch(FetchError)) && BatchFetched(prio, w, s, ids, t)
    ensures Follows(prio, w, s, t, G.InBatch(ids, 0))
  {
    hide G.Reachable;
    hide G.IsBatch;
    hide Others;
    var a, b, c, d :|
      && Takes(prio, Top(s, w), G.FetchCall(w), a) && Others(prio, w, a, b)
      && Takes(prio, b, G.FetchServed(w, ids), c) && Others(prio, w, c, d)
      && Takes(prio, d, G.FetchReturns(w), t);
    TopReachable(prio, w, s);
    Steps(prio, w, Top(s, w), G.FetchCall(w), a);
    OthersAreLater(prio, w, a, b);
    Steps(prio, w, b, G.FetchServed(w, ids), c);
    OthersAreLater(prio, w, c, d);
    Steps(prio, w, d, G.FetchReturns(w), t);
  }

  lemma HandledEffect(prio: G.Priorities, w: G.WorkerId, acks: bool, s: G.State, id: nat, ok: bool, t: G.State)
    requires G.Reachable(prio, s) && Ready(s, w, Handle(id, ok)) && Handled(prio, w, acks, s, ok, t)
    ensures Follows(prio, w, s, t, Moved(s.workers[w], acks, Handle(id, ok))) && id in t.handed
  {
    hide G.Reachable;
    hide Others;
    var last := if ok then G.HandlerSucceeds(w, acks) else G.HandlerFails(w);
    var a, b :| Takes(prio, s, G.Hand(w), a) && Others(prio, w, a, b) && Takes(prio, b, last, t);
    Steps(prio, w, s, G.Hand(w), a);
    OthersAreLater(prio, w, a, b);
    Steps(prio, w, b, last, t);
  }

  lemma AckDoneEffect(prio: G.Priorities, w: G.WorkerId, s: G.State, id: nat, reply: AckReply, t: G.State)
    requires G.Reachable(prio, s) && Ready(s, w, Ack(id, reply)) && AckDone(prio, w, s, id, reply.took, t)
    ensures Follows(prio, w, s, t, G.InBatch(s.workers[w].batch, s.workers[w].next + 1))
  {
    hide G.Reachable;
    hide Others;
    var a, b, c :|
      && Others(prio, w, s, a)
      && (if reply.took then Takes(prio, a, G.AckArrives(id), b) else a == b)
      && Others(prio, w, b, c) && Takes(prio, c, G.AckReturns(w), t);
    OthersAreLater(prio, w, s, a);
    if reply.took {
      Steps(prio, w, a, G.AckArrives(id), b);
    }
    OthersAreLater(prio, w, b, c);
    Steps(prio, w, c, G.AckReturns(w), t);
  }

  /** Every call that the loop makes in its turn leads from a reachable state to a reachable one and moves the loop as the
      machine does. */
  lemma CallFollows(prio: G.Priorities, w: G.WorkerId, acks: bool, s: G.State, c: Call, t: G.State)
    requires G.Reachable(prio, s) && Ready(s, w, c) && CallMade(prio, w, acks, s, c, t)
    ensures Follows(prio, w, s, t, Moved(s.workers[w], acks, c))
    ensures c.Handle? ==> c.msg in t.handed
  {
    hide G.Reachable;
    hide Follows;
    hide FetchFailed;
    hide BatchFetched;
    hide Handled;
    hide AckDone;
    match c {
      case Fetch(FetchError) => FetchFailedEffect(prio, w, s, t);
      case Fetch(Fetched(ids)) => BatchFetchedEffect(prio, w, s, ids, t);
      case Handle(id, ok) => HandledEffect(prio, w, acks, s, id, ok, t);
      case Ack(id, reply) => AckDoneEffect(prio, w, s, id, reply, t);
    }
  }

  // ---------------------------------------------------------------- whole loops

  predicate Answers(env: Env, t: Trace, c: Call) {
    match c
    case Fetch(reply) => reply == env.fetch(t)
    case Handle(id, ok) => ok == env.handle(t, id)
    case Ack(id, reply) => reply == env.ack(t, id)
  }

  /** The machine can be in this state when the loop has made these calls and stands there. */
  ghost predicate Stands(prio: G.Priorities, w: G.WorkerId, s: G.State, t: Trace, x: G.Worker) {
    G.Reachable(prio, s) && w in s.workers && s.workers[w] == x && forall id :: id in HandledIds(t) ==> id in s.handed
  }

  lemma CallStands(
      env: Env, prio: G.Priorities, w: G.WorkerId, acks: bool, at: Trace -> G.State, t: Trace, x: G.Worker, c: Call)
    requires Backed(env, prio, w, acks, at) && Stands(prio, w, at(t), t, x)
    requires Answers(env, t, c) && Ready(at(t), w, c)
    ensures Stands(prio, w, at(t + [c]), t + [c], Moved(x, acks, c))
  {
    hide G.Reachable;
    hide CallMade;
    hide Moved;
    assert CallMade(prio, w, acks, at(t), c, at(t + [c]));
    hide Backed;
    hide Ready;
    CallFollows(prio, w, acks, at(t), c, at(t + [c]));
    assert (t + [c])[..|t|] == t;
  }

  lemma MessageStands(
      env: Env, prio: G.Priorities, w: G.WorkerId, acks: bool, at: Trace -> G.State, t: Trace, ids: seq<nat>, k: nat)
    requires Backed(env, prio, w, acks, at) && k < |ids| && Stands(prio, w, at(t), t, G.InBatch(ids, k))
    ensures var u := HandleTrace(env, acks, t, ids[k]);
            Stands(prio, w, at(u), u, G.InBatch(ids, k + 1))
  {
    hide Backed;
    hide G.Reachable;
    hide HandledIds;
    var h := Handle(ids[k], env.handle(t, ids[k]));
    CallStands(env, prio, w, acks, at, t, G.InBatch(ids, k), h);
    if h.ok && acks {
      var u := t + [h];
      CallStands(env, prio, w, acks, at, u, G.AckSent(ids, k), Ack(ids[k], env.ack(u, ids[k])));
    }
  }

  lemma {:induction false} BatchStands(
      env: Env, prio: G.Priorities, w: G.WorkerId, acks: bool, at: Trace -> G.State, t: Trace, ids: seq<nat>, k: nat)
    requires Backed(env, prio, w, acks, at) && k <= |ids| && Stands(prio, w, at(t), t, G.InBatch(ids, 0))
    ensures var u := BatchTrace(env, acks, t, ids[..k]);
            Stands(prio, w, at(u), u, G.InBatch(ids, k))
  {
    hide Backed;
    hide Stands;
    hide HandleTrace;
    if k > 0 {
      BatchStands(env, prio, w, acks, at, t, ids, k - 1);
      assert ids[..k][..k - 1] == ids[..k - 1];
      MessageStands(env, prio, w, acks, at, BatchTrace(env, acks, t, ids[..k - 1]), ids, k - 1);
    }
  }

  /** The loop is about to fetch. */
  predicate AtTurn(x: G.Worker) {
    x.AtTop? || (x.InBatch? && x.next >= |x.batch|)
  }

  lemma RoundStands(
      env: Env, prio: G.Priorities, w: G.WorkerId, acks: bool, at: Trace -> G.State, t: Trace, x: G.Worker)
    returns (y: G.Worker)
    requires Backed(env, prio, w, acks, at) && Stands(prio, w, at(t), t, x) && AtTurn(x)
    ensures var u := RoundTrace(env, acks, t);
            Stands(prio, w, at(u), u, y) && AtTurn(y)
  {
    var c := Fetch(env.fetch(t));
    assert Ready(at(t), w, c);
    hide Backed;
    CallStands(env, prio, w, acks, at, t, x, c);
    hide Stands;
    hide BatchTrace;
    if c.answer.FetchError? {
      y := G.AtTop;
    } else {
      var ids := c.answer.ids;
      BatchStands(env, prio, w, acks, at, t + [c], ids, |ids|);
      assert ids[..|ids|] == ids;
      y := G.InBatch(ids, |ids|);
    }
  }

  /** Every run of the loop is a run of the machine: after any number of turns the machine is in a reachable state that
      has handed over everything the loop's handler was called with. */
  lemma {:induction false} LoopIsWorker(
      env: Env, prio: G.Priorities, w: G.WorkerId, acks: bool, at: Trace -> G.State, rounds: nat)
    returns (x: G.Worker)
    requires Backed(env, prio, w, acks, at)
    ensures var t := LoopTrace(env, acks, rounds);
            Stands(prio, w, at(t), t, x) && AtTurn(x)
  {
    if rounds == 0 {
      x := G.AtTop;
    } else {
      hide Backed;
      hide Stands;
      hide RoundTrace;
      var y := LoopIsWorker(env, prio, w, acks, at, rounds - 1);
      x := RoundStands(env, prio, w, acks, at, LoopTrace(env, acks, rounds - 1), y);
    }
  }

  /** At-least-once for the loop itself: on a first-in first-out mailbox, whatever other workers, senders and the network
      do around it, no turn of a loop leaves a stored message below the group offset that no handler was called with. */
  lemma LoopSkipsNothing(
      env: Env, prio: G.Priorities, w: G.WorkerId, acks: bool, at: Trace -> G.State, rounds: nat)
    requires Backed(env, prio, w, acks, at) && G.Fifo(prio)
    ensures var t := LoopTrace(env, acks, rounds);
            && G.NothingSkipped(at(t))
            && forall id :: id in HandledIds(t) ==> id in at(t).handed
  {
    hide Backed;
    hide LoopTrace;
    hide G.NothingSkipped;
    hide G.Reachable;
    hide G.Fifo;
    var x := LoopIsWorker(env, prio, w, acks, at, rounds);
    G.AtLeastOnce(prio);
  }

  // ---------------------------------------------------------------- a lone consumer

  /** The machine's state after a call when nobody else does anything. */
  function Alone(s: G.State, w: G.WorkerId, acks: bool, c: Call): G.State {
    if !Ready(s, w, c) then s
    else
      var x := Moved(s.workers[w], acks, c);
      match c
      case Fetch(_) => G.Move(s, w, x)
      case Handle(id, ok) =>
        var t := G.Move(s, w, x).(handed := s.handed + {id});
        if ok && acks then t.(wire := s.wire + {id}) else t
      case Ack(id, reply) =>
        G.Move(s, w, x).(offset := if reply.took then G.Max(s.offset, id + 1) else s.offset)
  }

  function AloneAfter(s: G.State, w: G.WorkerId, acks: bool, t: Trace): G.State {
    if t == [] then s else Alone(AloneAfter(s, w, acks, t[..|t| - 1]), w, acks, t[|t| - 1])
  }

  lemma NobodyElse(prio: G.Priorities, w: G.WorkerId, s: G.State)
    ensures Others(prio, w, s, s)
  {
    assert RunFrom(prio, s, []) == Some(s);
  }

  /** A loop that waits for an ack has sent it. */
  predicate AckOut(s: G.State, w: G.WorkerId) {
    w in s.workers &&
    var x := s.workers[w];
    x.AckSent? ==> x.next < |x.batch| && x.batch[x.next] in s.wire
  }

  lemma AloneKeeps(s: G.State, w: G.WorkerId, acks: bool, c: Call)
    requires AckOut(s, w)
    ensures AckOut(Alone(s, w, acks, c), w)
  {
  }

  lemma {:induction false} AloneAckOut(s: G.State, w: G.WorkerId, acks: bool, t: Trace)
    requires w in s.workers && s.workers[w].AtTop?
    ensures AckOut(AloneAfter(s, w, acks, t), w)
  {
    if t != [] {
      AloneAckOut(s, w, acks, t[..|t| - 1]);
      AloneKeeps(AloneAfter(s, w, acks, t[..|t| - 1]), w, acks, t[|t| - 1]);
    }
  }

  lemma AloneFetchFails(prio: G.Priorities, w: G.WorkerId, acks: bool, s: G.State)
    requires Ready(s, w, Fetch(FetchError))
    ensures FetchFailed(prio, w, s, Alone(s, w, acks, Fetch(FetchError)))
  {
    var a := G.Move(Top(s, w), w, G.FetchSent);
    NobodyElse(prio, w, a);
    hide Others;
    assert Takes(prio, Top(s, w), G.FetchCall(w), a);
    assert Takes(prio, a, G.FetchFails(w), Alone(s, w, acks, Fetch(FetchError)));
  }

  lemma AloneFetches(prio: G.Priorities, w: G.WorkerId, acks: bool, s: G.State, ids: seq<nat>)
    requires Ready(s, w, Fetch(Fetched(ids))) && G.IsBatch(s, prio, ids)
    ensures BatchFetched(prio, w, s, ids, Alone(s, w, acks, Fetch(Fetched(ids))))
  {
    var a := G.Move(Top(s, w), w, G.FetchSent);
    var c := G.Move(a, w, G.FetchAnswered(ids));
    NobodyElse(prio, w, a);
    NobodyElse(prio, w, c);
    hide Others;
    assert G.IsBatch(a, prio, ids);
    hide G.IsBatch;
    assert Takes(prio, Top(s, w), G.FetchCall(w), a);
    assert Takes(prio, a, G.FetchServed(w, ids), c);
    assert Takes(prio, c, G.FetchReturns(w), Alone(s, w, acks, Fetch(Fetched(ids))));
  }

  lemma AloneHandles(prio: G.Priorities, w: G.WorkerId, acks: bool, s: G.State, id: nat, ok: bool)
    requires Ready(s, w, Handle(id, ok))
    ensures Handled(prio, w, acks, s, ok, Alone(s, w, acks, Handle(id, ok)))
  {
    var x := s.workers[w];
    var a := G.Move(s, w, G.Handling(x.batch, x.next)).(handed := s.handed + {id});
    NobodyElse(prio, w, a);
    hide Others;
    assert Takes(prio, s, G.Hand(w), a);
    assert Takes(prio, a, if ok then G.HandlerSucceeds(w, acks) else G.HandlerFails(w),
                 Alone(s, w, acks, Handle(id, ok)));
  }

  lemma AloneAcks(prio: G.Priorities, w: G.WorkerId, acks: bool, s: G.State, id: nat, reply: AckReply)
    requires Ready(s, w, Ack(id, reply)) && AckOut(s, w)
    ensures AckDone(prio, w, s, id, reply.took, Alone(s, w, acks, Ack(id, reply)))
  {
    var b := if reply.took then s.(offset := G.Max(s.offset, id + 1)) else s;
    NobodyElse(prio, w, s);
    NobodyElse(prio, w, b);
    hide Others;
    assert reply.took ==> Takes(prio, s, G.AckArrives(id), b);
    assert Takes(prio, b, G.AckReturns(w), Alone(s, w, acks, Ack(id, reply)));
  }

  lemma AloneMade(prio: G.Priorities, w: G.WorkerId, acks: bool, s: G.State, c: Call)
    requires Ready(s, w, c) && AckOut(s, w)
    requires c.Fetch? && c.answer.Fetched? ==> G.IsBatch(s, prio, c.answer.ids)
    ensures CallMade(prio, w, acks, s, c, Alone(s, w, acks, c))
  {
    hide G.IsBatch;
    hide FetchFailed;
    hide BatchFetched;
    hide Handled;
    hide AckDone;
    hide Alone;
    match c {
      case Fetch(FetchError) => AloneFetchFails(prio, w, acks, s);
      case Fetch(Fetched(ids)) => AloneFetches(prio, w, acks, s, ids);
      case Handle(id, ok) => AloneHandles(prio, w, acks, s, id, ok);
      case Ack(id, reply) => AloneAcks(prio, w, acks, s, id, reply);
    }
  }

  /** Any environment whose batches are right is backed by the machine, with any handler results, lost acks and lost ack
      replies: the loop alone on a mailbox that some run of the others has left behind. */
  lemma {:induction false} LoneIsBacked(env: Env, prio: G.Priorities, w: G.WorkerId, acks: bool, s: G.State)
    requires G.Reachable(prio, s) && w in s.workers && s.workers[w].AtTop?
    requires forall t :: env.fetch(t).Fetched? ==> G.IsBatch(AloneAfter(s, w, acks, t), prio, env.fetch(t).ids)
    ensures Backed(env, prio, w, acks, (t: Trace) => AloneAfter(s, w, acks, t))
  {
    hide G.Reachable;
    hide G.IsBatch;
    hide Alone;
    hide CallMade;
    hide Ready;
    var at := (t: Trace) => AloneAfter(s, w, acks, t);
    forall t, c | Answers(env, t, c) && Ready(at(t), w, c)
      ensures CallMade(prio, w, acks, at(t), c, at(t + [c]))
    {
      AloneAckOut(s, w, acks, t);
      AloneMade(prio, w, acks, at(t), c);
      assert (t + [c])[..|t|] == t;
    }
  }
}
