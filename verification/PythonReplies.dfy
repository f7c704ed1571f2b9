/** How the Python agent answers one request: each event the handler enqueues is forwarded at once, a failure is
    reported, and a terminal marker closes the stream whatever happened. */
module PythonReplies {
  import opened Text
  import opened TaskStore
  import opened ReplyStreams

  /** How a handler ends. A cancelled handler's exception is not one that the agent catches. */
  datatype Ending = Returned | Raised | Cancelled

  const FAILED := StatusUpdate(Failed, false)
  const COMPLETED := StatusUpdate(Completed, false)

  predicate NeverLast(e: Event) {
    false
  }

  /** An absent and an empty task id are the same: no header is written. */
  function Header(taskId: Option<string>): Option<string> {
    if taskId == Some("") then None else taskId
  }

  predicate Answers(replyTo: Option<string>) {
    replyTo.Some? && replyTo.value != ""
  }

  const REPORT := Reply(FAILED, true, None, Normal)

  function Marker(taskId: Option<string>): (r: Reply) {
    Reply(COMPLETED, true, Header(taskId), Normal)
  }

  function Forwarded(events: seq<Event>, taskId: Option<string>): seq<Reply> {
    Stamped(events, NeverLast, Header(taskId))
  }

  /** All that one request makes the agent send. The report of a failure has no task id. */
  function SentFor(events: seq<Event>, ending: Ending, taskId: Option<string>): seq<Reply> {
    Forwarded(events, taskId) + (if ending == Raised then [REPORT] else []) + [Marker(taskId)]
  }

  /** How many events come before the first that cannot be encoded. */
  function Encoded(encodes: Event -> bool, events: seq<Event>): (n: nat)
    ensures n <= |events|
    ensures forall i :: 0 <= i < n ==> encodes(events[i])
    ensures n < |events| ==> !encodes(events[n])
  {
    if events == [] || !encodes(events[0]) then 0 else 1 + Encoded(encodes, events[1..])
  }

  /** The replies of a run, spelled out: the events unmarked and with the task id, a FAILED status without it after a
      failure, and a COMPLETED status with it at the end, all at the normal priority. */
  function RepliesTo(events: seq<Event>, failed: bool, id: Option<string>): seq<Reply> {
    seq(|events|, i requires 0 <= i < |events| => Reply(events[i], false, id, Normal))
    + (if failed then [Reply(StatusUpdate(Failed, false), true, None, Normal)] else [])
    + [Reply(StatusUpdate(Completed, false), true, id, Normal)]
  }

  lemma SentExactly(events: seq<Event>, ending: Ending, taskId: Option<string>)
    ensures SentFor(events, ending, taskId) ==
            RepliesTo(events, ending == Raised, if taskId == Some("") then None else taskId)
  {
    var id := if taskId == Some("") then None else taskId;
    assert Forwarded(events, taskId) ==
           seq(|events|, i requires 0 <= i < |events| => Reply(events[i], false, id, Normal)) by {
      forall i: nat | i < |events| ensures Forwarded(events, taskId)[i] == Reply(events[i], false, id, Normal) {
        StampedAre(events, NeverLast, Header(taskId), i);
      }
    }
  }

  class ForwardingEventQueue {
    const wire: Wire
    const replyTo: Option<string>
    const taskId: Option<string>
    const encodes: Event -> bool
    var closed: bool

    constructor (wire: Wire, replyTo: Option<string>, taskId: Option<string>, encodes: Event -> bool)
      ensures this.wire == wire && this.replyTo == replyTo && this.taskId == taskId && this.encodes == encodes
      ensures !closed
    {
      this.wire, this.replyTo, this.taskId, this.encodes, closed := wire, replyTo, taskId, encodes, false;
    }

    /** An event that cannot be encoded raises into the handler; a send that fails is logged and forgotten. */
    method EnqueueEvent(event: Event) returns (raised: bool)
      requires wire.Valid()
      modifies wire
      ensures wire.Valid()
      ensures raised == (Answers(replyTo) && !encodes(event))
      ensures wire.sent == old(wire.sent) +
                           if Answers(replyTo) && encodes(event)
                           then [Reply(event, false, Header(taskId), Normal)] else []
    {
      raised := false;
      if Answers(replyTo) {
        if !encodes(event) {
          return true;
        }
        var _ := wire.Send(Reply(event, false, Header(taskId), Normal));
      }
    }

    /** Only the first call sends. */
    method FlushLast()
      requires wire.Valid()
      modifies this, wire
      ensures wire.Valid()
      ensures closed == (old(closed) || Answers(replyTo))
      ensures wire.sent == old(wire.sent) + if Answers(replyTo) && !old(closed) then [Marker(taskId)] else []
    {
      if Answers(replyTo) && !closed {
        closed := true;
        var _ := wire.Send(Marker(taskId));
      }
    }
  }

  /** The handler enqueues its events until one cannot be encoded. */
  method RunHandler(queue: ForwardingEventQueue, events: seq<Event>) returns (raised: bool)
    requires queue.wire.Valid() && queue.wire.sent == []
    modifies queue.wire
    ensures queue.wire.Valid()
    ensures raised == (Answers(queue.replyTo) && Encoded(queue.encodes, events) < |events|)
    ensures queue.wire.sent ==
            if Answers(queue.replyTo) then Forwarded(events[..Encoded(queue.encodes, events)], queue.taskId) else []
  {
    hide Stamped;
    var i := 0;
    raised := false;
    assert events[0..] == events;
    while i < |events|
      invariant i <= |events| && queue.wire.Valid()
      invariant queue.wire.sent == if Answers(queue.replyTo) then Forwarded(events[..i], queue.taskId) else []
      invariant Answers(queue.replyTo) ==>
                  Encoded(queue.encodes, events) == i + Encoded(queue.encodes, events[i..])
    {
      assert events[i..][0] == events[i] && events[i..][1..] == events[i + 1..];
      raised := queue.EnqueueEvent(events[i]);
      if raised {
        return;
      }
      ForwardedGrow(events, i, queue.taskId);
      i := i + 1;
    }
  }

  /** `registered` says whether the agent has a handler, `parsed` whether the payload is a request; the handler enqueues
      `events` and then ends, or fails at the first event that cannot be encoded. A handler that catches that failure is
      one that does not enqueue the event. */
  method HandleSendMessage(
      wire: Wire, encodes: Event -> bool, registered: bool, parsed: bool, replyTo: Option<string>,
      taskId: Option<string>, events: seq<Event>, ending: Ending)
    requires wire.Valid() && wire.sent == []
    modifies wire
    ensures wire.Valid()
    ensures wire.sent == if !registered || !parsed || !Answers(replyTo) then []
                         else if Encoded(encodes, events) < |events|
                         then SentFor(events[..Encoded(encodes, events)], Raised, taskId)
                         else SentFor(events, ending, taskId)
    ensures wire.mailbox == Delivered(wire.net, wire.sent)
    ensures !registered || !parsed || replyTo == None || replyTo == Some("") ==> wire.sent == []
    ensures registered && parsed && replyTo.Some? && replyTo.value != "" ==>
              var n := Encoded(encodes, events);
              wire.sent == RepliesTo(events[..n], ending == Raised || n < |events|,
                                     if taskId == Some("") then None else taskId)
  {
    hide Stamped;
    hide Encoded;
    SentExactly(events[..Encoded(encodes, events)], Raised, taskId);
    SentExactly(events, ending, taskId);
    if !registered || !parsed {
      return;
    }
    var queue := new ForwardingEventQueue(wire, replyTo, taskId, encodes);
    var raised := RunHandler(queue, events);
    assert events[..|events|] == events;
    if (raised || ending == Raised) && Answers(replyTo) {
      var _ := wire.Send(REPORT);
    }
    queue.FlushLast();
  }

  lemma ForwardedGrow(events: seq<Event>, i: nat, taskId: Option<string>)
    requires i < |events|
    ensures Forwarded(events[..i + 1], taskId)
         == Forwarded(events[..i], taskId) + [Reply(events[i], false, Header(taskId), Normal)]
  {
    assert events[..i + 1][..i] == events[..i];
  }

  // ---------------------------------------------------------------- what a reader of the mailbox gets

  lemma EventsCarryNoMark(events: seq<Event>, taskId: Option<string>)
    ensures forall r :: r in Forwarded(events, taskId) ==> !r.last && r.taskId == Header(taskId)
    ensures Marks(Forwarded(events, taskId)) == 0
  {
    StampedMarks(events, NeverLast, Header(taskId));
    NoMarks(Forwarded(events, taskId));
  }

  lemma {:induction false} NoMarks(s: seq<Reply>)
    requires forall r :: r in s ==> !r.last
    ensures Marks(s) == 0
  {
    if s != [] {
      NoMarks(s[..|s| - 1]);
    }
  }

  /** What a reader sees of an unmarked beginning, a report or none, and a marker or none. */
  lemma SeenParts(head: seq<Reply>, report: seq<Reply>, marker: seq<Reply>)
    requires forall r :: r in head ==> !r.last
    requires |report| <= 1 && |marker| <= 1 && forall r :: r in report + marker ==> r.last
    ensures Seen(head + report + marker) == head + if report != [] then report else marker
  {
    assert head + report + marker == head + (report + marker);
    SeenPast(head, report + marker);
    SeenTail(report, marker);
  }

  lemma SeenTail(report: seq<Reply>, marker: seq<Reply>)
    requires |report| <= 1 && |marker| <= 1 && forall r :: r in report + marker ==> r.last
    ensures Seen(report + marker) == if report != [] then report else marker
  {
  }

  /** All that the agent sends has the normal priority, so no loss can make a reply more urgent than an earlier one. */
  lemma OnePriority(net: Net, events: seq<Event>, ending: Ending, taskId: Option<string>)
    ensures NeverRises(Delivered(net, SentFor(events, ending, taskId)))
  {
    var sent := SentFor(events, ending, taskId);
    StampedMarks(events, NeverLast, Header(taskId));
    hide Stamped;
    hide Delivered;
    forall r | r in Delivered(net, sent) ensures r.priority == Normal {
      DeliveredAre(net, sent, r);
    }
  }

  /** When every send arrives, a reader that stops at the first mark sees the handler's events in order and one terminal
      event that tells how the handler ended, however its fetches fall; the mailbox has one mark, or two after a
      failure. */
  lemma {:induction false} ReaderSeesTheRun(
      net: Net, events: seq<Event>, ending: Ending, taskId: Option<string>, fs: seq<Fetching>)
    requires AllRead(net, SentFor(events, ending, taskId), fs)
    ensures var box := Delivered(net, SentFor(events, ending, taskId));
            && Seen(Taken(box, fs)) == Forwarded(events, taskId)
                                       + [if ending == Raised then REPORT else Marker(taskId)]
            && Marks(box) == if ending == Raised then 2 else 1
  {
    hide *;
    OnePriority(net, events, ending, taskId);
    AllReadSeen(net, SentFor(events, ending, taskId), fs);
    SentIsSeen(events, ending, taskId);
  }

  lemma SentIsSeen(events: seq<Event>, ending: Ending, taskId: Option<string>)
    ensures var sent := SentFor(events, ending, taskId);
            && Seen(sent) == Forwarded(events, taskId) + [if ending == Raised then REPORT else Marker(taskId)]
            && Marks(sent) == if ending == Raised then 2 else 1
  {
    hide Seen;
    hide Marks;
    hide Stamped;
    var head, report := Forwarded(events, taskId), if ending == Raised then [REPORT] else [];
    EventsCarryNoMark(events, taskId);
    SeenParts(head, report, [Marker(taskId)]);
    MarksOfRun(head, ending, taskId);
  }

  lemma MarksOfRun(head: seq<Reply>, ending: Ending, taskId: Option<string>)
    requires Marks(head) == 0
    ensures Marks(head + (if ending == Raised then [REPORT] else []) + [Marker(taskId)])
            == if ending == Raised then 2 else 1
  {
    if ending == Raised {
      MarksGrow(head, REPORT);
      MarksGrow(head + [REPORT], Marker(taskId));
    } else {
      assert head + [] == head;
      MarksGrow(head, Marker(taskId));
    }
  }

  /** Replies are read in the order they were sent, whatever is lost and however fetches and arrivals interleave: what a
      reader has read is an in-order part of what the agent sent, with nothing that arrived left out in between, and
      when nothing is pending for the reader it is all of it exactly when no send was lost. */
  lemma RepliesKeepOrder(net: Net, events: seq<Event>, ending: Ending, taskId: Option<string>, fs: seq<Fetching>)
    requires Reading(Delivered(net, SentFor(events, ending, taskId)), fs)
    ensures var sent := SentFor(events, ending, taskId);
            var box := Delivered(net, sent);
            && Taken(box, fs) <= box && Subsequence(box, sent)
            && (ReaderOffset(fs) >= |box| ==> (Taken(box, fs) == sent <==> AllReach(net, sent)))
  {
    hide *;
    var sent := SentFor(events, ending, taskId);
    DeliveredInOrder(net, sent);
    DeliveredExactly(net, sent);
    OnePriority(net, events, ending, taskId);
    TakenIsPrefix(Delivered(net, sent), fs);
  }

  /** That is owed to the one priority: raise the priority of any reply but the first, and some reader gets replies out
      of order. */
  lemma RaisedReplyOvertakes(events: seq<Event>, ending: Ending, taskId: Option<string>, k: nat, p: Priority)
    requires k < |SentFor(events, ending, taskId)| && p != Normal
    ensures var sent := SentFor(events, ending, taskId);
            ReadInOrder(sent[k := sent[k].(priority := p)]) <==> k == 0
  {
    var sent := SentFor(events, ending, taskId);
    var box := sent[k := sent[k].(priority := p)];
    StampedMarks(events, NeverLast, Header(taskId));
    hide Stamped;
    assert forall r :: r in sent ==> r.priority == Normal;
    assert forall i :: 0 <= i < |box| && i != k ==> box[i] == sent[i] && sent[i] in sent;
    hide SentFor;
    hide ReadInOrder;
    ReadInOrderExactly(box);
    if k > 0 {
      assert Rank(box[0].priority) < Rank(box[k].priority);
    }
  }

  /** The arrived part of the events, the report and the marker. */
  lemma DeliveredParts(net: Net, events: seq<Event>, ending: Ending, taskId: Option<string>)
    ensures Delivered(net, SentFor(events, ending, taskId)) ==
            Delivered(net, Forwarded(events, taskId))
            + (if ending == Raised && Arrives(net, |events|) then [REPORT] else [])
            + (if Arrives(net, |events| + if ending == Raised then 1 else 0) then [Marker(taskId)] else [])
  {
    hide Delivered;
    hide Stamped;
    var head := Forwarded(events, taskId);
    assert |head| == |events|;
    if ending == Raised {
      DeliveredJoin(net, head, REPORT);
      DeliveredJoin(net, head + [REPORT], Marker(taskId));
    } else {
      assert head + [] == head;
      DeliveredJoin(net, head, Marker(taskId));
    }
  }

  /** What the reader takes the outcome to be, for every pattern of losses and fetches: it learns of a failure exactly
      when the report of the failure arrives, and takes a failed run for a completed one exactly when the report is lost
      and the closing marker is not. It waits for ever exactly when both are lost. */
  lemma {:induction false} OutcomeAsRead(net: Net, events: seq<Event>, ending: Ending, taskId: Option<string>, fs: seq<Fetching>)
    requires var box := Delivered(net, SentFor(events, ending, taskId)); Reading(box, fs) && Finished(box, fs)
    ensures var failure := ending == Raised && Arrives(net, |events|);
            var marker := Arrives(net, |events| + if ending == Raised then 1 else 0);
            Seen(Taken(Delivered(net, SentFor(events, ending, taskId)), fs)) ==
            Delivered(net, Forwarded(events, taskId))
            + if failure then [REPORT] else if marker then [Reply(COMPLETED, true, Header(taskId), Normal)] else []
  {
    hide *;
    OnePriority(net, events, ending, taskId);
    SeenByReader(Delivered(net, SentFor(events, ending, taskId)), fs);
    OutcomeArrived(net, events, ending, taskId);
  }

  lemma OutcomeArrived(net: Net, events: seq<Event>, ending: Ending, taskId: Option<string>)
    ensures var failure := ending == Raised && Arrives(net, |events|);
            var marker := Arrives(net, |events| + if ending == Raised then 1 else 0);
            Seen(Delivered(net, SentFor(events, ending, taskId))) ==
            Delivered(net, Forwarded(events, taskId))
            + if failure then [REPORT] else if marker then [Reply(COMPLETED, true, Header(taskId), Normal)] else []
  {
    hide Delivered;
    hide Seen;
    hide Stamped;
    hide SentFor;
    var head := Forwarded(events, taskId);
    DeliveredParts(net, events, ending, taskId);
    ArrivedCarryNoMark(net, events, taskId);
    SeenParts(Delivered(net, head),
              if ending == Raised && Arrives(net, |events|) then [REPORT] else [],
              if Arrives(net, |events| + if ending == Raised then 1 else 0) then [Marker(taskId)] else []);
  }

  lemma ArrivedCarryNoMark(net: Net, events: seq<Event>, taskId: Option<string>)
    ensures forall r :: r in Delivered(net, Forwarded(events, taskId)) ==> !r.last
  {
    EventsCarryNoMark(events, taskId);
    forall r | r in Delivered(net, Forwarded(events, taskId)) ensures !r.last {
      DeliveredAre(net, Forwarded(events, taskId), r);
    }
  }

  /** A reader that follows the task id, as the headers are meant to be used, sees every run as completed, also one that
      has failed: the report of a failure does not carry the id. */
  lemma {:induction false} FailureIsNotRouted(net: Net, events: seq<Event>, ending: Ending, taskId: string, fs: seq<Fetching>)
    requires taskId != "" && AllReach(net, SentFor(events, ending, Some(taskId)))
    requires var box := Delivered(net, SentFor(events, ending, Some(taskId)));
             Reading(box, fs) && ReaderOffset(fs) >= |box|
    ensures var box := Delivered(net, SentFor(events, ending, Some(taskId)));
            Seen(OfTask(Taken(box, fs), Some(taskId))) ==
            Forwarded(events, Some(taskId)) + [Reply(COMPLETED, true, Some(taskId), Normal)]
  {
    hide *;
    RepliesKeepOrder(net, events, ending, Some(taskId), fs);
    RoutedIsCompleted(events, ending, taskId);
  }

  lemma RoutedIsCompleted(events: seq<Event>, ending: Ending, taskId: string)
    requires taskId != ""
    ensures Seen(OfTask(SentFor(events, ending, Some(taskId)), Some(taskId))) ==
            Forwarded(events, Some(taskId)) + [Reply(COMPLETED, true, Some(taskId), Normal)]
  {
    hide Stamped;
    hide Seen;
    hide OfTask;
    var head := Forwarded(events, Some(taskId));
    EventsCarryNoMark(events, Some(taskId));
    OfTaskAll(head, Some(taskId));
    RoutedPart(head, ending, taskId);
    SeenParts(head, [], [Marker(Some(taskId))]);
    assert head + [] + [Marker(Some(taskId))] == head + [Marker(Some(taskId))];
  }

  lemma RoutedPart(head: seq<Reply>, ending: Ending, taskId: string)
    requires taskId != ""
    ensures OfTask(head + (if ending == Raised then [REPORT] else []) + [Marker(Some(taskId))], Some(taskId)) ==
            OfTask(head, Some(taskId)) + [Marker(Some(taskId))]
  {
    var report := if ending == Raised then [REPORT] else [];
    OfTaskJoin(head + report, [Marker(Some(taskId))], Some(taskId));
    OfTaskJoin(head, report, Some(taskId));
    OfTaskOne(REPORT, Some(taskId));
    OfTaskOne(Marker(Some(taskId)), Some(taskId));
  }

  lemma OfTaskOne(r: Reply, taskId: Option<string>)
    ensures OfTask([], taskId) == []
    ensures OfTask([r], taskId) == if r.taskId == taskId then [r] else []
  {
  }
}
