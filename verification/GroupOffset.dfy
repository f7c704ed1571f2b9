/** Any number of workers consuming one mailbox through one group offset, as a machine whose steps interleave freely.
    The broker's side is the FETCH and ACK contract of the protocol document; the worker's side is the consume loop that
    every SDK runs. Messages are named by their ids. */
module GroupOffset {
  import opened Text

  type WorkerId = nat

  /** Where one consume loop stands. `next` is the position of the message the loop is at. */
  datatype Worker =
    | AtTop
    | FetchSent
    | FetchAnswered(batch: seq<nat>)
    | InBatch(batch: seq<nat>, next: nat)
    | Handling(batch: seq<nat>, next: nat)
    | AckSent(batch: seq<nat>, next: nat)
    | Gone

  /** `wire` holds the acks a worker has issued and the network may still deliver; `handed` every message some
      handler was called with; ids from `unused` on were never used. */
  datatype State = State(
    stored: set<nat>,
    unused: nat,
    offset: nat,
    wire: set<nat>,
    handed: set<nat>,
    workers: map<WorkerId, Worker>)

  /** The priority of each message: a greater number is served first. */
  type Priorities = nat -> nat

  predicate Before(prio: Priorities, x: nat, y: nat) {
    prio(x) > prio(y) || (prio(x) == prio(y) && x < y)
  }

  /** A FETCH answer: some of the first stored messages from the offset on, higher priority first and in id order within
      a priority. */
  ghost predicate IsBatch(s: State, prio: Priorities, batch: seq<nat>) {
    && (forall i :: 0 <= i < |batch| ==> batch[i] in s.stored && batch[i] >= s.offset)
    && (forall i, j :: 0 <= i < j < |batch| ==> Before(prio, batch[i], batch[j]))
    && (forall m, i :: m in s.stored && m >= s.offset && 0 <= i < |batch| && Before(prio, m, batch[i]) ==>
          m in batch[..i])
  }

  datatype Step =
    | Send(id: nat)
    | Delete(id: nat)
    | Join(w: WorkerId)
    | FetchCall(w: WorkerId)
    | FetchServed(w: WorkerId, answer: seq<nat>)
    | FetchFails(w: WorkerId)
    | FetchReturns(w: WorkerId)
    | Hand(w: WorkerId)
    | HandlerFails(w: WorkerId)
    | HandlerSucceeds(w: WorkerId, acks: bool)
    | AckReturns(w: WorkerId)
    | BatchEnds(w: WorkerId)
    | Leaves(w: WorkerId)
    | AckArrives(id: nat)
    | AckLost(id: nat)

  const EMPTY := State({}, 0, 0, {}, {}, map[])

  function Move(s: State, w: WorkerId, to: Worker): State {
    s.(workers := s.workers[w := to])
  }

  function Max(a: nat, b: nat): nat {
    if a >= b then a else b
  }

  /** Whether a step may be taken. */
  ghost predicate Enabled(s: State, prio: Priorities, step: Step) {
    match step
    case Send(id) => id >= s.unused
    case Delete(_) => true
    case Join(w) => w !in s.workers
    case FetchCall(w) => w in s.workers && s.workers[w].AtTop?
    case FetchServed(w, answer) => w in s.workers && s.workers[w].FetchSent? && IsBatch(s, prio, answer)
    case FetchFails(w) => w in s.workers && (s.workers[w].FetchSent? || s.workers[w].FetchAnswered?)
    case FetchReturns(w) => w in s.workers && s.workers[w].FetchAnswered?
    case Hand(w) => w in s.workers && s.workers[w].InBatch? && s.workers[w].next < |s.workers[w].batch|
    case HandlerFails(w) => w in s.workers && s.workers[w].Handling?
    case HandlerSucceeds(w, _) => w in s.workers && s.workers[w].Handling? && s.workers[w].next < |s.workers[w].batch|
    case AckReturns(w) => w in s.workers && s.workers[w].AckSent?
    case BatchEnds(w) => w in s.workers && s.workers[w].InBatch? && s.workers[w].next >= |s.workers[w].batch|
    case Leaves(w) => w in s.workers
    case AckArrives(id) => id in s.wire
    case AckLost(id) => id in s.wire
  }

  /** The state after a step. An ack stays on the wire when it arrives, so it may arrive twice or long after its sender
      gave up; a fetch is served and received in two steps, so a batch may be stale when the loop gets it. */
  ghost function After(s: State, prio: Priorities, step: Step): State
    requires Enabled(s, prio, step)
  {
    match step
    case Send(id) => s.(stored := s.stored + {id}, unused := id + 1)
    case Delete(id) => s.(stored := s.stored - {id})
    case Join(w) => Move(s, w, AtTop)
    case FetchCall(w) => Move(s, w, FetchSent)
    case FetchServed(w, answer) => Move(s, w, FetchAnswered(answer))
    case FetchFails(w) => Move(s, w, AtTop)
    case FetchReturns(w) => Move(s, w, InBatch(s.workers[w].batch, 0))
    case Hand(w) =>
      var x := s.workers[w];
      Move(s, w, Handling(x.batch, x.next)).(handed := s.handed + {x.batch[x.next]})
    case HandlerFails(w) =>
      var x := s.workers[w];
      Move(s, w, InBatch(x.batch, x.next + 1))
    case HandlerSucceeds(w, acks) =>
      var x := s.workers[w];
      if acks then Move(s, w, AckSent(x.batch, x.next)).(wire := s.wire + {x.batch[x.next]})
      else Move(s, w, InBatch(x.batch, x.next + 1))
    case AckReturns(w) =>
      var x := s.workers[w];
      Move(s, w, InBatch(x.batch, x.next + 1))
    case BatchEnds(w) => Move(s, w, AtTop)
    case Leaves(w) => Move(s, w, Gone)
    case AckArrives(id) => s.(offset := Max(s.offset, id + 1))
    case AckLost(id) => s.(wire := s.wire - {id})
  }

  /** The state after a run from the empty mailbox; None when some step could not be taken. */
  ghost function Run(prio: Priorities, steps: seq<Step>): Option<State>
    decreases |steps|
  {
    if steps == [] then Some(EMPTY)
    else
      var last := steps[|steps| - 1];
      match Run(prio, steps[..|steps| - 1])
      case Some(s) => if Enabled(s, prio, last) then Some(After(s, prio, last)) else None
      case None => None
  }

  ghost predicate Reachable(prio: Priorities, s: State) {
    exists steps :: Run(prio, steps) == Some(s)
  }

  /** At-least-once: no stored message below the group offset was never handed to a handler. */
  ghost predicate NothingSkipped(s: State) {
    forall m :: m in s.stored && m < s.offset ==> m in s.handed
  }

  /** No message is ever served before an earlier one of its mailbox. */
  ghost predicate Fifo(prio: Priorities) {
    forall i: nat, j: nat :: i < j ==> prio(i) >= prio(j)
  }

  // ---------------------------------------------------------------- the invariant

  /** How many messages of its batch a loop has handed over. */
  function Handed(w: Worker): (n: nat) {
    match w
    case InBatch(_, next) => next
    case Handling(_, next) => next + 1
    case AckSent(_, next) => next + 1
    case _ => 0
  }

  predicate HasBatch(w: Worker) {
    w.FetchAnswered? || w.InBatch? || w.Handling? || w.AckSent?
  }

  /** Every stored message up to the i-th of the batch was handed over or stands no later in the batch. */
  ghost predicate Covered(s: State, batch: seq<nat>) {
    forall i, m :: 0 <= i < |batch| && m in s.stored && m <= batch[i] ==> m in s.handed || m in batch[..i + 1]
  }

  ghost predicate WorkerOk(s: State, w: Worker) {
    HasBatch(w) ==>
      && Handed(w) <= |w.batch|
      && (forall i :: 0 <= i < |w.batch| ==> w.batch[i] < s.unused)
      && (forall i :: 0 <= i < Handed(w) ==> w.batch[i] in s.handed)
      && Covered(s, w.batch)
  }

  /** Acking `id` would skip nothing. */
  ghost predicate SafeAck(s: State, id: nat) {
    id < s.unused && forall m :: m in s.stored && m <= id ==> m in s.handed
  }

  ghost predicate Invariant(s: State) {
    && NothingSkipped(s)
    && s.offset <= s.unused
    && (forall m :: m in s.stored ==> m < s.unused)
    && (forall id :: id in s.wire ==> SafeAck(s, id))
    && (forall w :: w in s.workers ==> WorkerOk(s, s.workers[w]))
  }

  lemma MoveKeeps(s: State, w: WorkerId, x: Worker)
    requires Invariant(s) && WorkerOk(s, x)
    ensures Invariant(Move(s, w, x))
  {
  }

  lemma EnvironmentKeeps(s: State, t: State)
    requires Invariant(s)
    requires s.unused <= t.unused && s.handed <= t.handed
    requires forall m :: m in t.stored ==> m < t.unused && (m in s.stored || m >= s.unused)
    requires t.workers == s.workers && t.offset == s.offset && t.wire <= s.wire
    ensures Invariant(t)
  {
  }

  /** A batch served from the offset under a first-in first-out mailbox covers every stored message up to each of its own
      messages. */
  lemma ServedBatchCovers(s: State, prio: Priorities, batch: seq<nat>)
    requires Fifo(prio) && Invariant(s) && IsBatch(s, prio, batch)
    ensures Covered(s, batch)
  {
  }

  lemma HandKeeps(s: State, prio: Priorities, w: WorkerId)
    requires Invariant(s) && Enabled(s, prio, Hand(w))
    ensures Invariant(After(s, prio, Hand(w)))
  {
  }

  /** When a handler has succeeded, everything stored up to its message was handed over. */
  lemma AckIsSafe(s: State, w: WorkerId)
    requires Invariant(s) && w in s.workers && s.workers[w].Handling? && s.workers[w].next < |s.workers[w].batch|
    ensures SafeAck(s, s.workers[w].batch[s.workers[w].next])
  {
  }

  lemma AckArrivesKeeps(s: State, prio: Priorities, id: nat)
    requires Invariant(s) && id in s.wire
    ensures Invariant(After(s, prio, AckArrives(id)))
  {
  }

  lemma HandlerSucceedsKeeps(s: State, prio: Priorities, w: WorkerId, acks: bool)
    requires Invariant(s) && Enabled(s, prio, HandlerSucceeds(w, acks))
    ensures Invariant(After(s, prio, HandlerSucceeds(w, acks)))
  {
  }

  lemma WorkerKept(s: State, w: WorkerId)
    requires Invariant(s) && w in s.workers
    ensures WorkerOk(s, s.workers[w])
  {
  }

  /** A worker without a batch, and one that goes on in its batch, rely on nothing new. */
  lemma EasyMoves(s: State, x: Worker)
    ensures !HasBatch(x) ==> WorkerOk(s, x)
    ensures WorkerOk(s, x) && HasBatch(x) ==> WorkerOk(s, InBatch(x.batch, Handed(x)))
  {
  }

  lemma OutsideKeeps(s: State, prio: Priorities, step: Step)
    requires Invariant(s) && Enabled(s, prio, step)
    requires step.Send? || step.Delete? || step.AckArrives? || step.AckLost?
    ensures Invariant(After(s, prio, step))
  {
    match step {
      case Send(id) => EnvironmentKeeps(s, s.(stored := s.stored + {id}, unused := id + 1));
      case Delete(id) => EnvironmentKeeps(s, s.(stored := s.stored - {id}));
      case AckArrives(id) => AckArrivesKeeps(s, prio, id);
      case AckLost(id) => EnvironmentKeeps(s, s.(wire := s.wire - {id}));
    }
  }

  lemma ServedKeeps(s: State, prio: Priorities, w: WorkerId, answer: seq<nat>)
    requires Fifo(prio) && Invariant(s) && Enabled(s, prio, FetchServed(w, answer))
    ensures Invariant(After(s, prio, FetchServed(w, answer)))
  {
    ServedBatchCovers(s, prio, answer);
    assert WorkerOk(s, FetchAnswered(answer));
    MoveKeeps(s, w, FetchAnswered(answer));
  }

  lemma MovesKeep(s: State, prio: Priorities, w: WorkerId, step: Step, x: Worker)
    requires Invariant(s) && Enabled(s, prio, step) && After(s, prio, step) == Move(s, w, x)
    requires !HasBatch(x) ||
             (w in s.workers && HasBatch(s.workers[w]) && x == InBatch(s.workers[w].batch, Handed(s.workers[w])))
    ensures Invariant(After(s, prio, step))
  {
    hide Invariant;
    hide WorkerOk;
    hide Enabled;
    hide After;
    EasyMoves(s, x);
    if HasBatch(x) {
      WorkerKept(s, w);
      EasyMoves(s, s.workers[w]);
    }
    MoveKeeps(s, w, x);
  }

  lemma StepKeeps(s: State, prio: Priorities, step: Step)
    requires Fifo(prio) && Invariant(s) && Enabled(s, prio, step)
    ensures Invariant(After(s, prio, step))
  {
    hide Invariant;
    hide IsBatch;
    hide Fifo;
    match step {
      case FetchServed(w, answer) => ServedKeeps(s, prio, w, answer);
      case Hand(w) => HandKeeps(s, prio, w);
      case HandlerSucceeds(w, acks) =>
        if acks {
          HandlerSucceedsKeeps(s, prio, w, acks);
        } else {
          MovesKeep(s, prio, w, step, InBatch(s.workers[w].batch, s.workers[w].next + 1));
        }
      case FetchReturns(w) => MovesKeep(s, prio, w, step, InBatch(s.workers[w].batch, 0));
      case HandlerFails(w) => MovesKeep(s, prio, w, step, InBatch(s.workers[w].batch, s.workers[w].next + 1));
      case AckReturns(w) => MovesKeep(s, prio, w, step, InBatch(s.workers[w].batch, s.workers[w].next + 1));
      case Join(w) => MovesKeep(s, prio, w, step, AtTop);
      case FetchCall(w) => MovesKeep(s, prio, w, step, FetchSent);
      case FetchFails(w) => MovesKeep(s, prio, w, step, AtTop);
      case BatchEnds(w) => MovesKeep(s, prio, w, step, AtTop);
      case Leaves(w) => MovesKeep(s, prio, w, step, Gone);
      case _ => OutsideKeeps(s, prio, step);
    }
  }

  // ---------------------------------------------------------------- whole runs

  lemma {:induction false} RunKeepsInvariant(prio: Priorities, steps: seq<Step>)
    requires Fifo(prio) && Run(prio, steps).Some?
    ensures Invariant(Run(prio, steps).value)
    decreases |steps|
  {
    hide Enabled;
    hide After;
    if steps != [] {
      hide Invariant;
      RunKeepsInvariant(prio, steps[..|steps| - 1]);
      StepKeeps(Run(prio, steps[..|steps| - 1]).value, prio, steps[|steps| - 1]);
    }
  }

  lemma Reach(prio: Priorities, s: State, step: Step) returns (t: State)
    requires Reachable(prio, s) && Enabled(s, prio, step)
    ensures t == After(s, prio, step) && Reachable(prio, t)
  {
    hide Enabled;
    hide After;
    t := After(s, prio, step);
    var steps :| Run(prio, steps) == Some(s);
    var longer := steps + [step];
    assert longer[..|longer| - 1] == steps && longer[|longer| - 1] == step;
    assert Run(prio, longer) == Some(t);
  }

  /** A message of higher priority is sent after another and is served alone. */
  lemma ServeLaterFirst(prio: Priorities, i: nat, j: nat) returns (s: State)
    requires i < j && prio(i) < prio(j)
    ensures Reachable(prio, s) && s == State({i, j}, j + 1, 0, {}, {}, map[0 := FetchAnswered([j])])
  {
    assert Reachable(prio, EMPTY) by {
      assert Run(prio, []) == Some(EMPTY);
    }
    hide Reachable;
    s := Reach(prio, EMPTY, Send(i));
    s := Reach(prio, s, Send(j));
    s := Reach(prio, s, Join(0));
    s := Reach(prio, s, FetchCall(0));
    s := Reach(prio, s, FetchServed(0, [j]));
  }

  /** The run that loses a message: the one of higher priority is handled and acked, and the offset passes the other. */
  lemma LaterFirstSkips(prio: Priorities, i: nat, j: nat)
    requires i < j && prio(i) < prio(j)
    ensures exists s :: Reachable(prio, s) && !NothingSkipped(s)
  {
    var s := ServeLaterFirst(prio, i, j);
    hide Reachable;
    s := Reach(prio, s, FetchReturns(0));
    s := Reach(prio, s, Hand(0));
    s := Reach(prio, s, HandlerSucceeds(0, true));
    s := Reach(prio, s, AckArrives(j));
    assert i in s.stored && i !in s.handed && i < s.offset;
  }

  /** At-least-once delivery holds in every reachable state exactly when the mailbox is first-in first-out, as a mailbox
      of one priority is: per-message acks cannot pass over a message that a batch leaves for later. */
  lemma AtLeastOnce(prio: Priorities)
    ensures (forall s :: Reachable(prio, s) ==> NothingSkipped(s)) <==> Fifo(prio)
  {
    if Fifo(prio) {
      forall s | Reachable(prio, s) ensures NothingSkipped(s) {
        var steps :| Run(prio, steps) == Some(s);
        RunKeepsInvariant(prio, steps);
      }
    } else {
      var i: nat, j: nat :| i < j && prio(i) < prio(j);
      LaterFirstSkips(prio, i, j);
    }
  }

  /** The group offset never goes back, whatever the order of the acks. */
  lemma OffsetNeverGoesBack(s: State, prio: Priorities, step: Step)
    requires Enabled(s, prio, step)
    ensures s.offset <= After(s, prio, step).offset
    ensures s.handed <= After(s, prio, step).handed
  {
  }

  /** Senders, deletes, joins, crashes and lost acks may come at any time, and an ack that was issued may arrive at any time
      and again. */
  lemma AnyTime(s: State, prio: Priorities, w: WorkerId, id: nat)
    ensures id >= s.unused ==> Enabled(s, prio, Send(id)) && id in After(s, prio, Send(id)).stored
    ensures Enabled(s, prio, Delete(id)) && After(s, prio, Delete(id)).stored == s.stored - {id}
    ensures w !in s.workers ==> Enabled(s, prio, Join(w)) && w in After(s, prio, Join(w)).workers
    ensures w in s.workers ==> Enabled(s, prio, Leaves(w)) && After(s, prio, Leaves(w)).workers == s.workers[w := Gone]
    ensures id in s.wire ==>
              && Enabled(s, prio, AckLost(id)) && id !in After(s, prio, AckLost(id)).wire
              && Enabled(s, prio, AckArrives(id)) && id in After(s, prio, AckArrives(id)).wire
              && id < After(s, prio, AckArrives(id)).offset
  {
  }

  // ---------------------------------------------------------------- what is offered again

  /** The offset is right after the greatest id whose ack has arrived. */
  lemma {:induction false} OffsetIsLastAck(prio: Priorities, steps: seq<Step>)
    requires Run(prio, steps).Some?
    ensures var s := Run(prio, steps).value;
            && (forall id: nat :: AckArrives(id) in steps ==> id < s.offset)
            && (s.offset > 0 ==> AckArrives(s.offset - 1) in steps)
    decreases |steps|
  {
    if steps != [] {
      var init, last := steps[..|steps| - 1], steps[|steps| - 1];
      OffsetIsLastAck(prio, init);
      OffsetAfter(Run(prio, init).value, prio, last);
      assert forall step :: step in steps <==> step in init || step == last;
      hide Enabled;
      hide After;
    }
  }

  lemma OffsetAfter(s: State, prio: Priorities, step: Step)
    requires Enabled(s, prio, step)
    ensures After(s, prio, step).offset == if step.AckArrives? then Max(s.offset, step.id + 1) else s.offset
  {
    hide IsBatch;
  }

  /** Of some messages one is served first. */
  lemma {:induction false} First(prio: Priorities, ids: set<nat>) returns (t: nat)
    requires ids != {}
    ensures t in ids && forall x :: x in ids && x != t ==> Before(prio, t, x)
  {
    var x :| x in ids;
    t := x;
    if ids != {x} {
      assert ids - {x} != {};
      var y := First(prio, ids - {x});
      if !Before(prio, x, y) {
        t := y;
      }
      forall z | z in ids && z != t ensures Before(prio, t, z) {
        assert z == x || z == y || Before(prio, y, z);
      }
    }
  }

  function Pending(s: State): set<nat> {
    set m | m in s.stored && m >= s.offset
  }

  lemma BatchGrows(s: State, prio: Priorities, batch: seq<nat>, t: nat)
    requires IsBatch(s, prio, batch) && t in Pending(s) && t !in batch
    requires forall x :: x in Pending(s) && x !in batch && x != t ==> Before(prio, t, x)
    ensures IsBatch(s, prio, batch + [t])
  {
    var more := batch + [t];
    forall i, j | 0 <= i < j < |more| ensures Before(prio, more[i], more[j]) {
      if j == |batch| {
        assert t !in batch[..i] && batch[i] != t;
        assert !Before(prio, t, batch[i]);
      }
    }
    forall m, i | m in s.stored && m >= s.offset && 0 <= i < |more| && Before(prio, m, more[i]) ensures m in more[..i] {
      if i < |batch| {
        assert m in batch[..i] && more[..i] == batch[..i];
      } else {
        assert more[..i] == batch && m != t;
      }
    }
  }

  /** The broker can serve everything that is pending. */
  lemma {:induction false} ServeAll(s: State, prio: Priorities, batch: seq<nat>) returns (all: seq<nat>)
    requires IsBatch(s, prio, batch)
    ensures IsBatch(s, prio, all) && forall m :: m in Pending(s) ==> m in all
    decreases Pending(s) - set m | m in batch
  {
    hide IsBatch;
    var rest := Pending(s) - set m | m in batch;
    all := batch;
    if rest != {} {
      var t := First(prio, rest);
      hide Pending;
      BatchGrows(s, prio, batch, t);
      all := ServeAll(s, prio, batch + [t]);
    } else {
      forall m | m in Pending(s) ensures m in batch {
        assert m !in rest;
      }
    }
  }

  /** In every run of any number of workers, on a mailbox of any priorities: a stored message is offered, for the first
      time or again, exactly when no ack of it or of a later message has arrived. */
  lemma {:induction false} OfferedExactly(prio: Priorities, steps: seq<Step>, m: nat)
    requires Run(prio, steps).Some? && m in Run(prio, steps).value.stored
    ensures (exists batch :: IsBatch(Run(prio, steps).value, prio, batch) && m in batch) <==>
            forall id: nat :: AckArrives(id) in steps ==> id < m
  {
    var s := Run(prio, steps).value;
    OffsetIsLastAck(prio, steps);
    hide Run;
    assert IsBatch(s, prio, []);
    var all := ServeAll(s, prio, []);
    if batch :| IsBatch(s, prio, batch) && m in batch {
      assert m >= s.offset;
    }
  }
}
