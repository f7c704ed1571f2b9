/** How the Java agent answers one request: every event carries the task id, a final event is marked as the last, a
    failure of the handler is reported, and a sentinel is sent when the handler enqueued no final event. */
module JavaReplies {
  import opened Text
  import opened TaskStore
  import opened ReplyStreams

  const SENTINEL := StatusUpdate(Completed, true)
  const REPORT := StatusUpdate(Failed, true)

  /** How a handler ends: its future completes, its future fails, or it throws before it has returned a future. */
  datatype Ending = Completes | Fails | Throws

  predicate IsFinal(e: Event) {
    e.StatusUpdate? && e.final
  }

  /** How many of the events are final. */
  function Finals(events: seq<Event>): nat {
    if events == [] then 0 else Finals(events[..|events| - 1]) + if IsFinal(events[|events| - 1]) then 1 else 0
  }

  /** The events that can be encoded; the others are never sent. */
  function Kept(encodes: Event -> bool, events: seq<Event>): (kept: seq<Event>)
    ensures |kept| <= |events|
  {
    if events == [] then []
    else
      var e := events[|events| - 1];
      Kept(encodes, events[..|events| - 1]) + if encodes(e) then [e] else []
  }

  predicate ReportGoes(encodes: Event -> bool, ending: Ending) {
    ending == Fails && encodes(REPORT)
  }

  /** A final event keeps the sentinel back, also one that was never sent. */
  predicate SentinelGoes(encodes: Event -> bool, events: seq<Event>, ending: Ending) {
    ending != Throws && Finals(events) == 0 && encodes(SENTINEL)
  }

  /** What the agent sends after the handler's events. The report of a failure is not waited for, so the sentinel may
      overtake it. */
  function Tail(encodes: Event -> bool, events: seq<Event>, ending: Ending, overtaken: bool): seq<Event> {
    var report := if ReportGoes(encodes, ending) then [REPORT] else [];
    var sentinel := if SentinelGoes(encodes, events, ending) then [SENTINEL] else [];
    if overtaken then sentinel + report else report + sentinel
  }

  function Forwarded(events: seq<Event>, taskId: string): seq<Reply> {
    Stamped(events, IsFinal, Some(taskId))
  }

  function SentFor(
      encodes: Event -> bool, events: seq<Event>, ending: Ending, overtaken: bool, taskId: string): seq<Reply> {
    Forwarded(Kept(encodes, events) + Tail(encodes, events, ending, overtaken), taskId)
  }

  // ---------------------------------------------------------------- a handler that chains its sends

  /** Some send of an event did not succeed. */
  predicate Halted(net: Net, encodes: Event -> bool, events: seq<Event>) {
    events != [] &&
    var n := |events| - 1;
    Halted(net, encodes, events[..n]) || (encodes(events[n]) && net(|Kept(encodes, events[..n])|) != Done)
  }

  /** What is enqueued by a handler that goes on only when a send has succeeded. */
  function Enqueued(net: Net, encodes: Event -> bool, events: seq<Event>): seq<Event> {
    if events == [] then []
    else
      var n := |events| - 1;
      if Halted(net, encodes, events[..n]) then Enqueued(net, encodes, events[..n]) else events
  }

  // ---------------------------------------------------------------- the objects

  class ForwardingEventQueue {
    const wire: Wire
    const encodes: Event -> bool
    const replyTo: Option<string>
    const taskId: string
    var lastSent: bool

    constructor (wire: Wire, encodes: Event -> bool, replyTo: Option<string>, taskId: string)
      ensures this.wire == wire && this.encodes == encodes && this.replyTo == replyTo && this.taskId == taskId
      ensures !lastSent
    {
      this.wire, this.encodes, this.replyTo, this.taskId, lastSent := wire, encodes, replyTo, taskId, false;
    }

    /** The agent's sendEvent: an event that cannot be encoded is dropped and counts as a success, a send that fails is a
        failure. */
    method SendEvent(event: Event) returns (success: bool)
      requires wire.Valid()
      modifies wire
      ensures wire.Valid()
      ensures wire.sent == old(wire.sent) + if encodes(event) then Forwarded([event], taskId) else []
      ensures success == (encodes(event) ==> wire.net(|old(wire.sent)|) == Done)
    {
      success := true;
      if encodes(event) {
        success := wire.Send(Reply(event, IsFinal(event), Some(taskId), Normal));
      }
    }

    /** `lastSent` is raised before the send, so also by a final event that is never sent. */
    method Enqueue(event: Event) returns (success: bool)
      requires wire.Valid()
      modifies this, wire
      ensures wire.Valid()
      ensures lastSent == (old(lastSent) || (replyTo.Some? && IsFinal(event)))
      ensures wire.sent ==
              old(wire.sent) + if replyTo.Some? && encodes(event) then Forwarded([event], taskId) else []
      ensures success == (replyTo.Some? && encodes(event) ==> wire.net(|old(wire.sent)|) == Done)
    {
      if replyTo.None? {
        return true;
      }
      if IsFinal(event) {
        lastSent := true;
      }
      success := SendEvent(event);
    }

    method FlushLast()
      requires wire.Valid()
      modifies this, wire
      ensures wire.Valid()
      ensures lastSent == (old(lastSent) || replyTo.Some?)
      ensures wire.sent == old(wire.sent) + if replyTo.Some? && !old(lastSent) && encodes(SENTINEL)
                                            then Forwarded([SENTINEL], taskId) else []
    {
      if replyTo.None? || lastSent {
        return;
      }
      lastSent := true;
      var _ := SendEvent(SENTINEL);
    }
  }

  /** What the queue stands for after some events. */
  ghost predicate Holds(queue: ForwardingEventQueue, events: seq<Event>)
    reads queue, queue.wire
  {
    && queue.wire.Valid()
    && queue.lastSent == (queue.replyTo.Some? && Finals(events) > 0)
    && queue.wire.sent == if queue.replyTo.Some? then Forwarded(Kept(queue.encodes, events), queue.taskId) else []
  }

  /** The handler enqueues its events one after the other. One that chains them stops and fails at the first send that
      does not succeed. */
  method RunHandler(queue: ForwardingEventQueue, events: seq<Event>, chains: bool) returns (failed: bool)
    requires Holds(queue, [])
    modifies queue, queue.wire
    ensures failed == (chains && queue.replyTo.Some? && Halted(queue.wire.net, queue.encodes, events))
    ensures Holds(queue, if failed then Enqueued(queue.wire.net, queue.encodes, events) else events)
  {
    hide *;
    var i := 0;
    assert events[..0] == [];
    NotHaltedYet(queue.wire.net, queue.encodes);
    while i < |events|
      invariant i <= |events| && Holds(queue, events[..i])
      invariant chains && queue.replyTo.Some? ==> !Halted(queue.wire.net, queue.encodes, events[..i])
    {
      var success := EnqueueNext(queue, events, i);
      i := i + 1;
      if chains && !success {
        HaltsFor(queue.wire.net, queue.encodes, events, i);
        return true;
      }
    }
    assert events[..i] == events;
    return false;
  }

  lemma NotHaltedYet(net: Net, encodes: Event -> bool)
    ensures !Halted(net, encodes, [])
  {
  }

  /** What one more event adds. */
  lemma EventTaken(net: Net, encodes: Event -> bool, events: seq<Event>, i: nat, taskId: string)
    requires i < |events|
    ensures var before, after, e := events[..i], events[..i + 1], events[i];
            && Finals(after) == Finals(before) + (if IsFinal(e) then 1 else 0)
            && Forwarded(Kept(encodes, after), taskId) ==
               Forwarded(Kept(encodes, before), taskId) + (if encodes(e) then Forwarded([e], taskId) else [])
            && (Halted(net, encodes, after) <==>
                  Halted(net, encodes, before) || (encodes(e) && net(|Kept(encodes, before)|) != Done))
  {
    assert events[..i + 1][..i] == events[..i];
    if encodes(events[i]) {
      JoinForwarded(Kept(encodes, events[..i]), [events[i]], taskId);
    } else {
      assert Kept(encodes, events[..i + 1]) == Kept(encodes, events[..i]);
    }
  }

  method EnqueueNext(queue: ForwardingEventQueue, events: seq<Event>, i: nat) returns (success: bool)
    requires i < |events| && Holds(queue, events[..i])
    modifies queue, queue.wire
    ensures Holds(queue, events[..i + 1])
    ensures !Halted(queue.wire.net, queue.encodes, events[..i]) ==>
              success == !(queue.replyTo.Some? && Halted(queue.wire.net, queue.encodes, events[..i + 1]))
    ensures !success ==> queue.replyTo.Some?
  {
    hide Stamped;
    hide Kept;
    hide Finals;
    hide Halted;
    EventTaken(queue.wire.net, queue.encodes, events, i, queue.taskId);
    assert |Forwarded(Kept(queue.encodes, events[..i]), queue.taskId)| == |Kept(queue.encodes, events[..i])|;
    success := queue.Enqueue(events[i]);
  }

  lemma {:induction false} JoinForwarded(a: seq<Event>, b: seq<Event>, taskId: string)
    ensures Forwarded(a + b, taskId) == Forwarded(a, taskId) + Forwarded(b, taskId)
  {
    if b == [] {
      assert a + b == a;
    } else {
      JoinForwarded(a, b[..|b| - 1], taskId);
      assert (a + b)[..|a + b| - 1] == a + b[..|b| - 1];
    }
  }

  /** A handler that halts after i events has enqueued exactly those. */
  lemma {:induction false} HaltsFor(net: Net, encodes: Event -> bool, events: seq<Event>, i: nat)
    requires 0 < i <= |events| && Halted(net, encodes, events[..i]) && !Halted(net, encodes, events[..i - 1])
    ensures Halted(net, encodes, events) && Enqueued(net, encodes, events) == events[..i]
  {
    if i == |events| {
      assert events[..i] == events;
    } else {
      assert events[..|events| - 1][..i] == events[..i] && events[..|events| - 1][..i - 1] == events[..i - 1];
      HaltsFor(net, encodes, events[..|events| - 1], i);
    }
  }

  /** What a request comes to: the events enqueued and how the handler's future ends. */
  function Course(net: Net, encodes: Event -> bool, events: seq<Event>, ending: Ending, chains: bool)
    : (seq<Event>, Ending)
  {
    if chains && Halted(net, encodes, events) then (Enqueued(net, encodes, events), Fails) else (events, ending)
  }

  /** `chains` says whether the handler goes on only when a send has succeeded; one that does not chain recovers from the
      sends that fail. */
  method HandleSendMessage(
      wire: Wire, encodes: Event -> bool, registered: bool, parsed: bool, replyTo: Option<string>, taskId: string,
      events: seq<Event>, ending: Ending, chains: bool, overtaken: bool)
    requires wire.Valid() && wire.sent == []
    modifies wire
    ensures wire.Valid()
    ensures wire.sent ==
            if !registered || !parsed || replyTo.None? then []
            else
              var (done, end) := Course(wire.net, encodes, events, ending, chains);
              SentFor(encodes, done, end, overtaken, taskId)
    ensures wire.mailbox == Delivered(wire.net, wire.sent)
    ensures forall r :: r in wire.sent ==>
              && (r.last <==> r.event.StatusUpdate? && r.event.final)
              && r.taskId == Some(taskId) && r.priority == Normal
    ensures registered && parsed && replyTo.Some? && !chains && (forall e :: encodes(e)) ==>
              wire.sent == RepliesTo(events, ending, overtaken, taskId)
  {
    if forall e :: encodes(e) {
      SentExactly(encodes, events, ending, overtaken, taskId);
    }
    hide SentFor;
    hide Finals;
    hide RepliesTo;
    if !registered || !parsed {
      return;
    }
    var queue := new ForwardingEventQueue(wire, encodes, replyTo, taskId);
    var failed := RunHandler(queue, events, chains);
    var end := if failed then Fails else ending;
    ghost var done := if failed then Enqueued(wire.net, encodes, events) else events;
    Finish(queue, done, end, overtaken);
    RepliesAlike(encodes, done, end, overtaken, taskId);
  }

  function ReportSent(encodes: Event -> bool, ending: Ending, taskId: string): seq<Reply> {
    if ReportGoes(encodes, ending) then Forwarded([REPORT], taskId) else []
  }

  function SentinelSent(encodes: Event -> bool, events: seq<Event>, ending: Ending, taskId: string): seq<Reply> {
    if SentinelGoes(encodes, events, ending) then Forwarded([SENTINEL], taskId) else []
  }

  /** The tail is sent in one or the other order. */
  lemma TailSent(encodes: Event -> bool, events: seq<Event>, ending: Ending, overtaken: bool, taskId: string)
    ensures var report, sentinel := ReportSent(encodes, ending, taskId), SentinelSent(encodes, events, ending, taskId);
            SentFor(encodes, events, ending, overtaken, taskId) ==
            if overtaken then Forwarded(Kept(encodes, events), taskId) + sentinel + report
            else Forwarded(Kept(encodes, events), taskId) + report + sentinel
  {
    hide Stamped;
    hide Kept;
    hide Finals;
    assert Stamped([], IsFinal, Some(taskId)) == [];
    var report := if ReportGoes(encodes, ending) then [REPORT] else [];
    var sentinel := if SentinelGoes(encodes, events, ending) then [SENTINEL] else [];
    JoinForwarded(Kept(encodes, events), Tail(encodes, events, ending, overtaken), taskId);
    JoinForwarded(sentinel, report, taskId);
    JoinForwarded(report, sentinel, taskId);
  }

  method Report(queue: ForwardingEventQueue, end: Ending)
    requires queue.wire.Valid()
    modifies queue.wire
    ensures queue.wire.Valid()
    ensures queue.wire.sent == old(queue.wire.sent) +
                               if queue.replyTo.Some? then ReportSent(queue.encodes, end, queue.taskId) else []
  {
    hide Forwarded;
    if end == Fails && queue.replyTo.Some? {
      var _ := queue.SendEvent(REPORT);
    }
  }

  method Close(queue: ForwardingEventQueue, ghost done: seq<Event>, end: Ending)
    requires queue.wire.Valid() && queue.lastSent == (queue.replyTo.Some? && Finals(done) > 0)
    modifies queue, queue.wire
    ensures queue.wire.Valid()
    ensures queue.wire.sent ==
            old(queue.wire.sent) +
            if queue.replyTo.Some? then SentinelSent(queue.encodes, done, end, queue.taskId) else []
  {
    hide Forwarded;
    hide Finals;
    if end != Throws {
      queue.FlushLast();
    }
  }

  /** What follows the handler; nothing does when it has thrown. */
  method Finish(queue: ForwardingEventQueue, ghost done: seq<Event>, end: Ending, overtaken: bool)
    requires Holds(queue, done)
    modifies queue, queue.wire
    ensures queue.wire.Valid()
    ensures queue.wire.sent ==
            if queue.replyTo.Some? then SentFor(queue.encodes, done, end, overtaken, queue.taskId) else []
  {
    TailSent(queue.encodes, done, end, overtaken, queue.taskId);
    hide SentFor;
    hide ReportSent;
    hide SentinelSent;
    hide Forwarded;
    hide Kept;
    hide Finals;
    hide Delivered;
    if overtaken {
      Close(queue, done, end);
      Report(queue, end);
    } else {
      Report(queue, end);
      Close(queue, done, end);
    }
  }

  // ---------------------------------------------------------------- the replies spelled out

  function EventReplies(events: seq<Event>, taskId: string): seq<Reply> {
    seq(|events|, i requires 0 <= i < |events| =>
      Reply(events[i], events[i].StatusUpdate? && events[i].final, Some(taskId), Normal))
  }

  function FailedReply(ending: Ending, taskId: string): seq<Reply> {
    if ending == Fails then [Reply(StatusUpdate(Failed, true), true, Some(taskId), Normal)] else []
  }

  function CompletedReply(events: seq<Event>, ending: Ending, taskId: string): seq<Reply> {
    if ending != Throws && (forall e :: e in events ==> !(e.StatusUpdate? && e.final))
    then [Reply(StatusUpdate(Completed, true), true, Some(taskId), Normal)] else []
  }

  /** The replies of a run whose events can all be encoded: each event with the task id, marked exactly when it is a final
      status; then a final FAILED status after a failure, and a final COMPLETED status when the handler has returned and
      enqueued no final status; neither when it has thrown. */
  function RepliesTo(events: seq<Event>, ending: Ending, overtaken: bool, taskId: string): seq<Reply> {
    if overtaken
    then EventReplies(events, taskId) + CompletedReply(events, ending, taskId) + FailedReply(ending, taskId)
    else EventReplies(events, taskId) + FailedReply(ending, taskId) + CompletedReply(events, ending, taskId)
  }

  lemma RepliesAlike(encodes: Event -> bool, events: seq<Event>, ending: Ending, overtaken: bool, taskId: string)
    ensures forall r :: r in SentFor(encodes, events, ending, overtaken, taskId) ==>
              && (r.last <==> r.event.StatusUpdate? && r.event.final)
              && r.taskId == Some(taskId) && r.priority == Normal
  {
    hide Finals;
    hide Kept;
    hide Stamped;
    StampedMarks(Kept(encodes, events) + Tail(encodes, events, ending, overtaken), IsFinal, Some(taskId));
  }

  lemma TailExactly(encodes: Event -> bool, events: seq<Event>, ending: Ending, taskId: string)
    requires forall e :: encodes(e)
    ensures ReportSent(encodes, ending, taskId) == FailedReply(ending, taskId)
    ensures SentinelSent(encodes, events, ending, taskId) == CompletedReply(events, ending, taskId)
  {
    FinalsExactly(events);
    hide Finals;
    hide FinalPlaces;
  }

  lemma SentExactly(encodes: Event -> bool, events: seq<Event>, ending: Ending, overtaken: bool, taskId: string)
    requires forall e :: encodes(e)
    ensures SentFor(encodes, events, ending, overtaken, taskId) == RepliesTo(events, ending, overtaken, taskId)
  {
    hide Forwarded;
    hide SentFor;
    hide ReportSent;
    hide SentinelSent;
    hide Kept;
    hide EventReplies;
    hide FailedReply;
    hide CompletedReply;
    KeptAll(encodes, events);
    TailSent(encodes, events, ending, overtaken, taskId);
    TailExactly(encodes, events, ending, taskId);
    ForwardedExactly(events, taskId);
  }

  lemma ForwardedExactly(events: seq<Event>, taskId: string)
    ensures Forwarded(events, taskId) == EventReplies(events, taskId)
  {
    forall i: nat | i < |events|
      ensures Forwarded(events, taskId)[i] ==
              Reply(events[i], events[i].StatusUpdate? && events[i].final, Some(taskId), Normal)
    {
      StampedAre(events, IsFinal, Some(taskId), i);
    }
  }

  function FinalPlaces(events: seq<Event>): set<nat> {
    set i: nat | i < |events| && events[i].StatusUpdate? && events[i].final
  }

  lemma PlacesGrow(events: seq<Event>, e: Event)
    ensures |FinalPlaces(events + [e])| == |FinalPlaces(events)| + if e.StatusUpdate? && e.final then 1 else 0
  {
    assert FinalPlaces(events + [e]) == FinalPlaces(events) + if e.StatusUpdate? && e.final then {|events|} else {};
  }

  lemma {:induction false} NoneIsFinal(events: seq<Event>)
    ensures Finals(events) == 0 <==> forall e :: e in events ==> !(e.StatusUpdate? && e.final)
  {
    if events != [] {
      NoneIsFinal(events[..|events| - 1]);
      assert forall e :: e in events <==> e in events[..|events| - 1] || e == events[|events| - 1];
    }
  }

  /** Finals are the final status updates. */
  lemma {:induction false} FinalsExactly(events: seq<Event>)
    ensures Finals(events) == |FinalPlaces(events)|
    ensures Finals(events) == 0 <==> forall e :: e in events ==> !(e.StatusUpdate? && e.final)
  {
    NoneIsFinal(events);
    if events == [] {
      assert FinalPlaces(events) == {};
    } else {
      var init, e := events[..|events| - 1], events[|events| - 1];
      FinalsExactly(init);
      PlacesGrow(init, e);
      assert init + [e] == events;
      hide FinalPlaces;
    }
  }

  lemma {:induction false} KeptCounts(encodes: Event -> bool, events: seq<Event>, e: Event)
    ensures multiset(Kept(encodes, events))[e] == if encodes(e) then multiset(events)[e] else 0
  {
    if events != [] {
      KeptCounts(encodes, events[..|events| - 1], e);
      assert events == events[..|events| - 1] + [events[|events| - 1]];
    }
  }

  lemma {:induction false} KeptInOrder(encodes: Event -> bool, events: seq<Event>)
    ensures Subsequence(Kept(encodes, events), events)
  {
    if events != [] {
      var n := |events| - 1;
      KeptInOrder(encodes, events[..n]);
      if encodes(events[n]) {
        assert Kept(encodes, events)[..|Kept(encodes, events)| - 1] == Kept(encodes, events[..n]);
      } else {
        assert Kept(encodes, events) == Kept(encodes, events[..n]);
        SubsequenceDrop(Kept(encodes, events), events);
      }
    }
  }

  /** The events that are sent are those that can be encoded, each as often as it was enqueued, in their order. */
  lemma KeptExactly(encodes: Event -> bool, events: seq<Event>)
    ensures forall e :: multiset(Kept(encodes, events))[e] == if encodes(e) then multiset(events)[e] else 0
    ensures Subsequence(Kept(encodes, events), events)
  {
    hide *;
    KeptInOrder(encodes, events);
    forall e ensures multiset(Kept(encodes, events))[e] == if encodes(e) then multiset(events)[e] else 0 {
      KeptCounts(encodes, events, e);
    }
  }

  /** A send that fails: that of an event that can be encoded, at the place that the ones before it give. */
  predicate SendFails(net: Net, encodes: Event -> bool, events: seq<Event>, i: nat) {
    i < |events| && encodes(events[i]) && net(|Kept(encodes, events[..i])|) != Done
  }

  /** A handler that chains its sends halts exactly when some send fails, and has then enqueued the events up to the first
      one whose send does. */
  lemma {:induction false} HaltedExactly(net: Net, encodes: Event -> bool, events: seq<Event>)
    ensures Halted(net, encodes, events) <==> exists i: nat :: SendFails(net, encodes, events, i)
    ensures Halted(net, encodes, events) ==>
              exists i: nat :: SendFails(net, encodes, events, i) && Enqueued(net, encodes, events) == events[..i + 1] &&
                               forall j: nat :: j < i ==> !SendFails(net, encodes, events, j)
  {
    if events != [] {
      var n := |events| - 1;
      HaltedExactly(net, encodes, events[..n]);
      forall i: nat | i < n
        ensures SendFails(net, encodes, events[..n], i) <==> SendFails(net, encodes, events, i)
        ensures events[..n][..i + 1] == events[..i + 1]
      {
        assert events[..n][..i] == events[..i];
      }
      hide Kept;
      if Halted(net, encodes, events[..n]) {
        var i: nat :| SendFails(net, encodes, events[..n], i) && Enqueued(net, encodes, events[..n]) == events[..n][..i + 1]
                      && forall j: nat :: j < i ==> !SendFails(net, encodes, events[..n], j);
        assert SendFails(net, encodes, events, i);
      } else if Halted(net, encodes, events) {
        assert SendFails(net, encodes, events, n) && events[..n + 1] == events;
      }
    }
  }

  // ---------------------------------------------------------------- marks

  lemma {:induction false} FinalsJoin(a: seq<Event>, b: seq<Event>)
    ensures Finals(a + b) == Finals(a) + Finals(b)
  {
    if b == [] {
      assert a + b == a;
    } else {
      FinalsJoin(a, b[..|b| - 1]);
      assert (a + b)[..|a + b| - 1] == a + b[..|b| - 1];
    }
  }

  lemma {:induction false} KeptAll(encodes: Event -> bool, events: seq<Event>)
    requires forall e :: e in events ==> encodes(e)
    ensures Kept(encodes, events) == events
  {
    if events != [] {
      var n := |events| - 1;
      assert encodes(events[n]) && Kept(encodes, events) == Kept(encodes, events[..n]) + [events[n]];
      hide Kept;
      KeptAll(encodes, events[..n]);
    }
  }

  lemma {:induction false} ForwardedMarks(events: seq<Event>, taskId: string)
    ensures Marks(Forwarded(events, taskId)) == Finals(events)
  {
    if events != [] {
      var n := |events| - 1;
      ForwardedMarks(events[..n], taskId);
      MarksGrow(Forwarded(events[..n], taskId), Reply(events[n], IsFinal(events[n]), Some(taskId), Normal));
    }
  }

  /** Every reply carries the task id and has the normal priority. */
  lemma ForwardedAlike(net: Net, events: seq<Event>, taskId: string)
    ensures NeverRises(Delivered(net, Forwarded(events, taskId)))
    ensures OfTask(Delivered(net, Forwarded(events, taskId)), Some(taskId)) == Delivered(net, Forwarded(events, taskId))
  {
    var sent := Forwarded(events, taskId);
    StampedMarks(events, IsFinal, Some(taskId));
    hide Stamped;
    hide Delivered;
    forall r | r in Delivered(net, sent) ensures r.priority == Normal && r.taskId == Some(taskId) {
      DeliveredAre(net, sent, r);
    }
    OfTaskAll(Delivered(net, sent), Some(taskId));
  }

  /** What a handler that completes makes the agent send. */
  function Whole(encodes: Event -> bool, events: seq<Event>): seq<Event> {
    Kept(encodes, events) + if SentinelGoes(encodes, events, Completes) then [SENTINEL] else []
  }

  lemma CompleteSent(encodes: Event -> bool, events: seq<Event>, overtaken: bool, taskId: string)
    ensures SentFor(encodes, events, Completes, overtaken, taskId) == Forwarded(Whole(encodes, events), taskId)
  {
    assert [] + [SENTINEL] == [SENTINEL] == [SENTINEL] + [];
  }

  /** The marks of a completed stream: one for each final event that can be encoded, and without a final event one for the
      sentinel. */
  function MarksDue(encodes: Event -> bool, events: seq<Event>): nat {
    Finals(Kept(encodes, events)) + if SentinelGoes(encodes, events, Completes) then 1 else 0
  }

  lemma WholeMarks(encodes: Event -> bool, events: seq<Event>)
    ensures Finals(Whole(encodes, events)) == MarksDue(encodes, events)
  {
    FinalsJoin(Kept(encodes, events), if SentinelGoes(encodes, events, Completes) then [SENTINEL] else []);
    hide Kept;
    hide Finals;
    OneFinal();
  }

  /** When every send arrives, a completed stream has a mark for each final event that can be encoded, or one for the
      sentinel: max(1, k) for k final events when all can be. Every event carries the task id. */
  lemma {:induction false} MarksArePerFinal(
      net: Net, encodes: Event -> bool, events: seq<Event>, overtaken: bool, taskId: string)
    requires AllReach(net, SentFor(encodes, events, Completes, overtaken, taskId))
    ensures var box := Delivered(net, SentFor(encodes, events, Completes, overtaken, taskId));
            && Marks(box) == MarksDue(encodes, events)
            && OfTask(box, Some(taskId)) == box
    ensures (forall e :: e in events || e == SENTINEL ==> encodes(e)) ==>
              MarksDue(encodes, events) == if Finals(events) == 0 then 1 else Finals(events)
  {
    hide Delivered;
    hide Marks;
    hide Stamped;
    hide OfTask;
    CompleteSent(encodes, events, overtaken, taskId);
    hide SentFor;
    var all := Whole(encodes, events);
    DeliveredExactly(net, Forwarded(all, taskId));
    ForwardedMarks(all, taskId);
    ForwardedAlike(net, all, taskId);
    WholeMarks(encodes, events);
    if forall e :: e in events || e == SENTINEL ==> encodes(e) {
      KeptAll(encodes, events);
    }
  }

  lemma OneFinal()
    ensures Finals([SENTINEL]) == 1 && Finals([REPORT]) == 1 && Finals([]) == 0
  {
  }

  // ---------------------------------------------------------------- what a reader sees

  /** A reader that stops at the first mark sees a whole stream exactly when no event follows the first final one. */
  lemma SeesWholeExactly(events: seq<Event>, taskId: string)
    ensures Seen(Forwarded(events, taskId)) == Forwarded(events, taskId)
            <==> events == [] || Finals(events[..|events| - 1]) == 0
  {
    if events != [] {
      var n := |events| - 1;
      var head, last := Forwarded(events[..n], taskId), Reply(events[n], IsFinal(events[n]), Some(taskId), Normal);
      assert Forwarded(events, taskId) == head + [last];
      ForwardedMarks(events[..n], taskId);
      if Finals(events[..n]) == 0 {
        UnmarkedAll(head);
        SeenPast(head, [last]);
        assert Seen([last]) == [last];
      } else {
        SeenStops(head, [last]);
      }
    }
  }

  lemma {:induction false} UnmarkedAll(s: seq<Reply>)
    requires Marks(s) == 0
    ensures forall r :: r in s ==> !r.last
  {
    if s != [] {
      UnmarkedAll(s[..|s| - 1]);
    }
  }

  /** When every send arrives, a reader of a completed stream sees all that was sent exactly when no event that can be
      encoded follows the first such final one, however its fetches fall. */
  lemma {:induction false} SeesAllExactly(
      net: Net, encodes: Event -> bool, events: seq<Event>, overtaken: bool, taskId: string, fs: seq<Fetching>)
    requires AllRead(net, SentFor(encodes, events, Completes, overtaken, taskId), fs)
    ensures var sent := SentFor(encodes, events, Completes, overtaken, taskId);
            var kept := Kept(encodes, events);
            Seen(Taken(Delivered(net, sent), fs)) == sent <==> kept == [] || Finals(kept[..|kept| - 1]) == 0
  {
    hide *;
    CompleteSent(encodes, events, overtaken, taskId);
    var all := Whole(encodes, events);
    ForwardedAlike(net, all, taskId);
    AllReadSeen(net, Forwarded(all, taskId), fs);
    SeesWholeExactly(all, taskId);
    FinalsButLast(encodes, events);
  }

  lemma {:induction false} KeptFinals(encodes: Event -> bool, events: seq<Event>)
    ensures Finals(Kept(encodes, events)) <= Finals(events)
  {
    if events != [] {
      var n := |events| - 1;
      KeptFinals(encodes, events[..n]);
      FinalsJoin(Kept(encodes, events[..n]), [events[n]]);
      assert Kept(encodes, events[..n]) + [] == Kept(encodes, events[..n]);
    }
  }

  lemma FinalsButLast(encodes: Event -> bool, events: seq<Event>)
    ensures var all, kept := Whole(encodes, events), Kept(encodes, events);
            (all == [] || Finals(all[..|all| - 1]) == 0) <==> (kept == [] || Finals(kept[..|kept| - 1]) == 0)
  {
    var kept := Kept(encodes, events);
    KeptFinals(encodes, events);
    hide Kept;
    if SentinelGoes(encodes, events, Completes) {
      assert (kept + [SENTINEL])[..|kept|] == kept;
    } else {
      assert kept + [] == kept;
    }
  }

  /** If among the events that can be encoded at most the last one is final, a completed stream has exactly the one mark
      that is due, and then it ends the stream; there is none only when a final event or the sentinel cannot be encoded. A
      reader sees the whole stream. */
  lemma {:induction false} OneMarkAtTheEnd(
      net: Net, encodes: Event -> bool, events: seq<Event>, overtaken: bool, taskId: string, fs: seq<Fetching>)
    requires AllRead(net, SentFor(encodes, events, Completes, overtaken, taskId), fs)
    requires var kept := Kept(encodes, events); kept == [] || Finals(kept[..|kept| - 1]) == 0
    ensures var box := Delivered(net, SentFor(encodes, events, Completes, overtaken, taskId));
            var due := Finals(Kept(encodes, events)) > 0 || SentinelGoes(encodes, events, Completes);
            && Marks(box) == (if due then 1 else 0)
            && (due ==> box != [] && box[|box| - 1].last)
            && Seen(Taken(box, fs)) == box
            && OfTask(box, Some(taskId)) == box
  {
    hide *;
    ReadReaches(net, SentFor(encodes, events, Completes, overtaken, taskId), fs);
    SeesAllExactly(net, encodes, events, overtaken, taskId, fs);
    MarksArePerFinal(net, encodes, events, overtaken, taskId);
    CompleteSent(encodes, events, overtaken, taskId);
    EndsInMark(encodes, events, taskId);
    DeliveredExactly(net, SentFor(encodes, events, Completes, overtaken, taskId));
  }

  lemma ReadReaches(net: Net, sent: seq<Reply>, fs: seq<Fetching>)
    requires AllRead(net, sent, fs)
    ensures AllReach(net, sent)
  {
  }

  lemma EndsInMark(encodes: Event -> bool, events: seq<Event>, taskId: string)
    requires var kept := Kept(encodes, events); kept == [] || Finals(kept[..|kept| - 1]) == 0
    ensures var due := Finals(Kept(encodes, events)) > 0 || SentinelGoes(encodes, events, Completes);
            var sent := Forwarded(Whole(encodes, events), taskId);
            && MarksDue(encodes, events) == (if due then 1 else 0)
            && (due ==> sent != [] && sent[|sent| - 1].last)
  {
    var kept := Kept(encodes, events);
    KeptFinals(encodes, events);
    hide Kept;
    if !SentinelGoes(encodes, events, Completes) {
      assert kept + [] == kept;
    }
  }

  /** What a reader sees of a handler that fails, when every send arrives: up to the first final event that can be encoded;
      without one, all events that can be, and then whichever comes first of the report and the sentinel, as far as they
      can be encoded and the sentinel is due. It learns of the failure exactly when that is the report. */
  lemma {:induction false} FailureAsRead(
      net: Net, encodes: Event -> bool, events: seq<Event>, overtaken: bool, taskId: string, fs: seq<Fetching>)
    requires AllRead(net, SentFor(encodes, events, Fails, overtaken, taskId), fs)
    ensures var kept := Kept(encodes, events);
            var report, sentinel := encodes(REPORT), Finals(events) == 0 && encodes(SENTINEL);
            Seen(Taken(Delivered(net, SentFor(encodes, events, Fails, overtaken, taskId)), fs)) ==
            if Finals(kept) > 0 then Seen(Forwarded(kept, taskId))
            else Forwarded(kept, taskId)
                 + if report && !(sentinel && overtaken) then [Reply(REPORT, true, Some(taskId), Normal)]
                   else if sentinel then [Reply(SENTINEL, true, Some(taskId), Normal)]
                   else []
  {
    hide *;
    var all := Kept(encodes, events) + Tail(encodes, events, Fails, overtaken);
    assert SentFor(encodes, events, Fails, overtaken, taskId) == Forwarded(all, taskId) by {
      SentForIs(encodes, events, Fails, overtaken, taskId);
    }
    ForwardedAlike(net, all, taskId);
    AllReadSeen(net, Forwarded(all, taskId), fs);
    FailureSeen(encodes, events, overtaken, taskId);
    FirstOfTail(encodes, events, overtaken, taskId);
  }

  lemma SentForIs(encodes: Event -> bool, events: seq<Event>, ending: Ending, overtaken: bool, taskId: string)
    ensures SentFor(encodes, events, ending, overtaken, taskId)
         == Forwarded(Kept(encodes, events) + Tail(encodes, events, ending, overtaken), taskId)
  {
  }

  lemma FailureSeen(encodes: Event -> bool, events: seq<Event>, overtaken: bool, taskId: string)
    ensures var kept, tail := Kept(encodes, events), Tail(encodes, events, Fails, overtaken);
            Seen(Forwarded(kept + tail, taskId)) ==
            if Finals(kept) > 0 then Seen(Forwarded(kept, taskId))
            else Forwarded(kept, taskId) + Seen(Forwarded(tail, taskId))
  {
    hide Seen;
    hide Marks;
    hide Stamped;
    hide Finals;
    hide Kept;
    hide Tail;
    var kept, tail := Kept(encodes, events), Tail(encodes, events, Fails, overtaken);
    JoinForwarded(kept, tail, taskId);
    ForwardedMarks(kept, taskId);
    if Finals(kept) > 0 {
      SeenStops(Forwarded(kept, taskId), Forwarded(tail, taskId));
    } else {
      UnmarkedAll(Forwarded(kept, taskId));
      SeenPast(Forwarded(kept, taskId), Forwarded(tail, taskId));
    }
  }

  lemma FirstOfTail(encodes: Event -> bool, events: seq<Event>, overtaken: bool, taskId: string)
    ensures var report, sentinel := encodes(REPORT), Finals(events) == 0 && encodes(SENTINEL);
            Seen(Forwarded(Tail(encodes, events, Fails, overtaken), taskId)) ==
            if report && !(sentinel && overtaken) then [Reply(REPORT, true, Some(taskId), Normal)]
            else if sentinel then [Reply(SENTINEL, true, Some(taskId), Normal)]
            else []
  {
    hide Finals;
    hide Forwarded;
    hide Seen;
    SeenOfMarks(SENTINEL, REPORT, taskId);
    SeenOfMarks(REPORT, SENTINEL, taskId);
    var none: seq<Event> := [];
    var report := if encodes(REPORT) then [REPORT] else [];
    var sentinel := if SentinelGoes(encodes, events, Fails) then [SENTINEL] else [];
    assert report + none == report == none + report && sentinel + none == sentinel == none + sentinel;
    assert Tail(encodes, events, Fails, overtaken) == if overtaken then sentinel + report else report + sentinel;
  }

  lemma SeenOfMarks(a: Event, b: Event, taskId: string)
    requires IsFinal(a)
    ensures Seen(Forwarded([], taskId)) == []
    ensures Seen(Forwarded([a], taskId)) == [Reply(a, true, Some(taskId), Normal)]
    ensures Seen(Forwarded([a] + [b], taskId)) == [Reply(a, true, Some(taskId), Normal)]
  {
    TwoMarks(a, b, taskId);
    assert Forwarded([a], taskId) == [Reply(a, true, Some(taskId), Normal)];
  }

  lemma TwoMarks(a: Event, b: Event, taskId: string)
    requires IsFinal(a)
    ensures Seen(Forwarded([a] + [b], taskId)) == [Reply(a, true, Some(taskId), Normal)]
  {
    JoinForwarded([a], [b], taskId);
    assert Forwarded([a], taskId) == [Reply(a, true, Some(taskId), Normal)];
  }

  // ---------------------------------------------------------------- when a stream is closed

  /** Whatever is lost or cannot be encoded, and however the handler ends, the stream is closed exactly when some final
      event, the report of a failure or the sentinel gets through. A final event that cannot be encoded suppresses the
      sentinel, and a handler that throws gets neither report nor sentinel. */
  lemma ClosedExactly(
      net: Net, encodes: Event -> bool, events: seq<Event>, ending: Ending, overtaken: bool, taskId: string)
    ensures var last := |Kept(encodes, events)|;
            var report, sentinel := ReportGoes(encodes, ending), SentinelGoes(encodes, events, ending);
            Marks(Delivered(net, SentFor(encodes, events, ending, overtaken, taskId))) > 0 <==>
            || FinalArrives(net, encodes, events)
            || ((report || sentinel) && Arrives(net, last))
            || (report && sentinel && Arrives(net, last + 1))
  {
    hide *;
    var kept, tail := Kept(encodes, events), Tail(encodes, events, ending, overtaken);
    SentForIs(encodes, events, ending, overtaken, taskId);
    MarkIsFinal(net, kept + tail, taskId);
    FinalInTail(net, encodes, events, ending, overtaken);
    KeptFinalArrives(net, encodes, events);
  }

  /** Some final event of those sent arrives. */
  predicate SentFinalArrives(net: Net, sent: seq<Event>) {
    exists k: nat :: k < |sent| && IsFinal(sent[k]) && Arrives(net, k)
  }

  lemma MarkIsFinal(net: Net, sent: seq<Event>, taskId: string)
    ensures Marks(Delivered(net, Forwarded(sent, taskId))) > 0 <==> SentFinalArrives(net, sent)
  {
    hide Delivered;
    hide Marks;
    hide Stamped;
    MarkArrives(net, Forwarded(sent, taskId));
    forall i: nat | i < |sent| ensures Forwarded(sent, taskId)[i].last == IsFinal(sent[i]) {
      StampedAre(sent, IsFinal, Some(taskId), i);
    }
  }

  lemma FinalInTail(net: Net, encodes: Event -> bool, events: seq<Event>, ending: Ending, overtaken: bool)
    ensures var kept := Kept(encodes, events);
            var report, sentinel := ReportGoes(encodes, ending), SentinelGoes(encodes, events, ending);
            SentFinalArrives(net, kept + Tail(encodes, events, ending, overtaken)) <==>
            || SentFinalArrives(net, kept)
            || ((report || sentinel) && Arrives(net, |kept|))
            || (report && sentinel && Arrives(net, |kept| + 1))
  {
    hide Kept;
    hide Finals;
    var kept, tail := Kept(encodes, events), Tail(encodes, events, ending, overtaken);
    assert forall i: nat :: i < |kept| ==> (kept + tail)[i] == kept[i];
    if |tail| > 0 {
      assert (kept + tail)[|kept|] == tail[0] && IsFinal(tail[0]);
    }
    if |tail| > 1 {
      assert (kept + tail)[|kept| + 1] == tail[1] && IsFinal(tail[1]);
    }
  }

  /** Some final event that can be encoded arrives; its place among the sends counts the encodable events before it. */
  predicate FinalArrives(net: Net, encodes: Event -> bool, events: seq<Event>) {
    exists i: nat :: i < |events| && IsFinal(events[i]) && encodes(events[i]) && Arrives(net, |Kept(encodes, events[..i])|)
  }

  lemma {:induction false} KeptFinalArrives(net: Net, encodes: Event -> bool, events: seq<Event>)
    ensures FinalArrives(net, encodes, events) <==>
            SentFinalArrives(net, Kept(encodes, events))
  {
    if events != [] {
      var n := |events| - 1;
      var before, kept := Kept(encodes, events[..n]), Kept(encodes, events);
      KeptFinalArrives(net, encodes, events[..n]);
      FinalArrivesGrow(net, encodes, events);
      assert forall k: nat :: k < |before| ==> kept[k] == before[k];
    }
  }

  lemma FinalArrivesGrow(net: Net, encodes: Event -> bool, events: seq<Event>)
    requires events != []
    ensures var n := |events| - 1;
            FinalArrives(net, encodes, events) <==>
            || FinalArrives(net, encodes, events[..n])
            || (IsFinal(events[n]) && encodes(events[n]) && Arrives(net, |Kept(encodes, events[..n])|))
  {
    var n := |events| - 1;
    forall i: nat | i < n ensures events[..n][i] == events[i] && events[..n][..i] == events[..i] {
    }
  }

  /** The sends of the first k events succeed, and that of the next event, if there is one, does not. */
  predicate FailsFirstAt(net: Net, encodes: Event -> bool, events: seq<Event>, k: nat)
    requires k <= |events|
  {
    && !Halted(net, encodes, events[..k])
    && (k < |events| ==> encodes(events[k]) && net(|Kept(encodes, events[..k])|) != Done)
  }

  /** The usual handler chains its sends. If they all succeed, the stream is closed by a final event that can be encoded
      or, when none was enqueued, by the sentinel. At the first send that fails the handler fails with it, and then the
      stream is closed exactly when a final event was sent before, or the failed send was one and only its confirmation
      was lost, or the report arrives, or the sentinel does where it is due. Sends are counted over what can be encoded. */
  lemma {:induction false} ChainedClosedExactly(
      net: Net, encodes: Event -> bool, events: seq<Event>, k: nat, overtaken: bool, taskId: string)
    requires k <= |events| && FailsFirstAt(net, encodes, events, k)
    ensures var (done, end) := Course(net, encodes, events, Completes, true);
            var before := Kept(encodes, events[..k]);
            Marks(Delivered(net, SentFor(encodes, done, end, overtaken, taskId))) > 0 <==>
            || Finals(before) > 0
            || (if k == |events| then Finals(events) == 0 && encodes(SENTINEL) && Arrives(net, |before|)
                else
                  var report, sentinel := encodes(REPORT), Finals(events[..k + 1]) == 0 && encodes(SENTINEL);
                  || (IsFinal(events[k]) && net(|before|) == ReplyLost)
                  || ((report || sentinel) && Arrives(net, |before| + 1))
                  || (report && sentinel && Arrives(net, |before| + 2)))
  {
    FinalsArrive(net, encodes, events[..k]);
    hide *;
    if k == |events| {
      AllSucceed(net, encodes, events);
      ClosedExactly(net, encodes, events, Completes, overtaken, taskId);
      TailGoes(encodes, events);
    } else {
      OneFails(net, encodes, events, k);
      ClosedExactly(net, encodes, events[..k + 1], Fails, overtaken, taskId);
      TailGoes(encodes, events[..k + 1]);
      LastArrives(net, encodes, events, k);
    }
  }

  lemma TailGoes(encodes: Event -> bool, events: seq<Event>)
    ensures !ReportGoes(encodes, Completes) && (ReportGoes(encodes, Fails) <==> encodes(REPORT))
    ensures SentinelGoes(encodes, events, Completes) <==> Finals(events) == 0 && encodes(SENTINEL)
    ensures SentinelGoes(encodes, events, Fails) <==> Finals(events) == 0 && encodes(SENTINEL)
  {
  }

  lemma AllSucceed(net: Net, encodes: Event -> bool, events: seq<Event>)
    requires FailsFirstAt(net, encodes, events, |events|)
    ensures events[..|events|] == events && Course(net, encodes, events, Completes, true) == (events, Completes)
  {
    assert events[..|events|] == events;
  }

  lemma OneFails(net: Net, encodes: Event -> bool, events: seq<Event>, k: nat)
    requires k < |events| && FailsFirstAt(net, encodes, events, k)
    ensures Course(net, encodes, events, Completes, true) == (events[..k + 1], Fails)
  {
    assert events[..k + 1][..k] == events[..k];
    HaltsFor(net, encodes, events, k + 1);
  }

  /** The send that failed counts when it was one of a final event and only its confirmation was lost. */
  lemma LastArrives(net: Net, encodes: Event -> bool, events: seq<Event>, k: nat)
    requires k < |events| && FailsFirstAt(net, encodes, events, k)
    ensures FinalArrives(net, encodes, events[..k + 1]) <==>
            || FinalArrives(net, encodes, events[..k])
            || (IsFinal(events[k]) && net(|Kept(encodes, events[..k])|) == ReplyLost)
    ensures |Kept(encodes, events[..k + 1])| == |Kept(encodes, events[..k])| + 1
  {
    assert events[..k + 1][..k] == events[..k];
    FinalArrivesGrow(net, encodes, events[..k + 1]);
    hide FinalArrives;
    hide Halted;
  }

  /** When all sends succeed, the final events that can be encoded arrive. */
  lemma {:induction false} FinalsArrive(net: Net, encodes: Event -> bool, events: seq<Event>)
    ensures !Halted(net, encodes, events) ==>
              (FinalArrives(net, encodes, events) <==> Finals(Kept(encodes, events)) > 0)
  {
    if events != [] {
      var n := |events| - 1;
      FinalsArrive(net, encodes, events[..n]);
      FinalArrivesGrow(net, encodes, events);
      FinalsJoin(Kept(encodes, events[..n]), [events[n]]);
      assert Kept(encodes, events[..n]) + [] == Kept(encodes, events[..n]);
      hide FinalArrives;
    }
  }
}
