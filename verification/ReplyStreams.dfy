/** What an agent sends to a reply mailbox while it works on one request, what of it arrives, and what a reader of the
    mailbox sees. */
module ReplyStreams {
  import opened Text
  import opened TaskStore
  import GroupOffset

  /** `final` is the event's own field, which only Java looks at. */
  datatype Event = StatusUpdate(state: TaskState, final: bool) | Content(text: string)

  /** An event with its headers: the mark that ends a stream, the task id, and the priority it is sent at. */
  datatype Reply = Reply(event: Event, last: bool, taskId: Option<string>, priority: Priority)

  /** How each send turns out; a send is named by its place in the stream. */
  type Net = nat -> Outcome

  predicate Arrives(net: Net, i: nat) {
    net(i) != Lost
  }

  /** What the mailbox holds of what was sent. */
  function Delivered(net: Net, sent: seq<Reply>): seq<Reply> {
    if sent == [] then []
    else
      var n := |sent| - 1;
      Delivered(net, sent[..n]) + if Arrives(net, n) then [sent[n]] else []
  }

  predicate AllReach(net: Net, sent: seq<Reply>) {
    forall i: nat :: i < |sent| ==> Arrives(net, i)
  }

  /** The number of replies marked as the last one. */
  function Marks(s: seq<Reply>): nat {
    if s == [] then 0 else Marks(s[..|s| - 1]) + if s[|s| - 1].last then 1 else 0
  }

  /** What a reader sees that stops at the first mark. */
  function Seen(s: seq<Reply>): seq<Reply> {
    if s == [] then []
    else if s[0].last then [s[0]]
    else [s[0]] + Seen(s[1..])
  }

  /** The replies that carry a task id. */
  function OfTask(s: seq<Reply>, taskId: Option<string>): seq<Reply> {
    if s == [] then []
    else OfTask(s[..|s| - 1], taskId) + if s[|s| - 1].taskId == taskId then [s[|s| - 1]] else []
  }

  /** The events as a queue sends them, all at the normal priority. */
  function Stamped(events: seq<Event>, marks: Event -> bool, taskId: Option<string>): (s: seq<Reply>)
    ensures |s| == |events|
  {
    if events == [] then []
    else
      var e := events[|events| - 1];
      Stamped(events[..|events| - 1], marks, taskId) + [Reply(e, marks(e), taskId, Normal)]
  }

  predicate Subsequence<T(==)>(a: seq<T>, b: seq<T>) {
    if a == [] then true
    else if b == [] then false
    else if a[|a| - 1] == b[|b| - 1] then Subsequence(a[..|a| - 1], b[..|b| - 1])
    else Subsequence(a, b[..|b| - 1])
  }

  /** What one request sends to its reply mailbox, and what the mailbox gets of it. */
  class Wire {
    const net: Net
    ghost var sent: seq<Reply>
    var count: nat
    var mailbox: seq<Reply>

    ghost predicate Valid()
      reads this
    {
      count == |sent| && mailbox == Delivered(net, sent)
    }

    constructor (net: Net)
      ensures this.net == net && sent == [] && mailbox == [] && Valid()
    {
      this.net, sent, count, mailbox := net, [], 0, [];
    }

    /** A send fails for its caller when it is lost, and also when only its confirmation is. */
    method Send(reply: Reply) returns (success: bool)
      requires Valid()
      modifies this
      ensures Valid() && sent == old(sent) + [reply]
      ensures success == (net(|old(sent)|) == Done)
    {
      success := net(count) == Done;
      if net(count) != Lost {
        mailbox := mailbox + [reply];
      }
      count, sent := count + 1, sent + [reply];
      assert sent[..count - 1] == old(sent);
    }
  }

  // ---------------------------------------------------------------- order and loss

  /** Dropping an element of the longer sequence, or the same last element of both. */
  lemma {:induction false} SubsequenceShorter<T>(a: seq<T>, b: seq<T>)
    requires a != [] && Subsequence(a, b)
    ensures Subsequence(a[..|a| - 1], b)
  {
    var a' := a[..|a| - 1];
    if a' != [] {
      var b' := b[..|b| - 1];
      if a[|a| - 1] == b[|b| - 1] {
        SubsequenceShorter(a', b');
        if a'[|a'| - 1] != b[|b| - 1] {
          SubsequenceDrop(a', b);
        }
      } else {
        SubsequenceShorter(a, b');
        SubsequenceDrop(a', b);
      }
    }
  }

  lemma SubsequenceDrop<T>(a: seq<T>, b: seq<T>)
    requires b != [] && Subsequence(a, b[..|b| - 1])
    ensures Subsequence(a, b)
  {
    if a != [] && a[|a| - 1] == b[|b| - 1] {
      SubsequenceShorter(a, b[..|b| - 1]);
    }
  }

  /** What arrives is in the order of what was sent. */
  lemma {:induction false} DeliveredInOrder(net: Net, sent: seq<Reply>)
    ensures Subsequence(Delivered(net, sent), sent)
  {
    if sent != [] {
      var n := |sent| - 1;
      DeliveredInOrder(net, sent[..n]);
      if Arrives(net, n) {
        assert Delivered(net, sent)[..|Delivered(net, sent)| - 1] == Delivered(net, sent[..n]);
      } else {
        assert Delivered(net, sent) == Delivered(net, sent[..n]);
        SubsequenceDrop(Delivered(net, sent), sent);
      }
    }
  }

  /** The mailbox holds all that was sent exactly when every send arrives. */
  lemma {:induction false} DeliveredExactly(net: Net, sent: seq<Reply>)
    ensures |Delivered(net, sent)| <= |sent|
    ensures Delivered(net, sent) == sent <==> AllReach(net, sent)
  {
    if sent != [] {
      var n := |sent| - 1;
      DeliveredExactly(net, sent[..n]);
      if Arrives(net, n) {
        assert sent == sent[..n] + [sent[n]];
        if Delivered(net, sent) == sent {
          assert Delivered(net, sent[..n]) == sent[..n];
        }
      } else {
        assert |Delivered(net, sent)| <= n;
      }
    }
  }

  lemma MarksGrow(s: seq<Reply>, r: Reply)
    ensures Marks(s + [r]) == Marks(s) + if r.last then 1 else 0
  {
  }

  lemma {:induction false} MarksJoin(a: seq<Reply>, b: seq<Reply>)
    ensures Marks(a + b) == Marks(a) + Marks(b)
  {
    if b == [] {
      assert a + b == a;
    } else {
      MarksJoin(a, b[..|b| - 1]);
      assert (a + b)[..|a + b| - 1] == a + b[..|b| - 1];
    }
  }

  function MarkedPlaces(s: seq<Reply>): set<nat> {
    set i: nat | i < |s| && s[i].last
  }

  /** Marks are the replies marked as the last one. */
  lemma {:induction false} MarksExactly(s: seq<Reply>)
    ensures Marks(s) == |MarkedPlaces(s)|
  {
    if s == [] {
      assert MarkedPlaces(s) == {};
    } else {
      var init, r := s[..|s| - 1], s[|s| - 1];
      MarksExactly(init);
      assert s == init + [r];
      assert MarkedPlaces(s) == MarkedPlaces(init) + if r.last then {|init|} else {};
    }
  }

  /** A stream has a mark exactly when some marked reply has arrived. */
  lemma {:induction false} MarkArrives(net: Net, sent: seq<Reply>)
    ensures Marks(Delivered(net, sent)) > 0 <==> exists i: nat :: i < |sent| && sent[i].last && Arrives(net, i)
  {
    hide Delivered;
    hide Marks;
    if sent == [] {
      NothingDelivered(net);
    } else {
      var n := |sent| - 1;
      MarkArrives(net, sent[..n]);
      assert forall i :: 0 <= i < n ==> sent[..n][i] == sent[i];
      assert sent == sent[..n] + [sent[n]];
      DeliveredJoin(net, sent[..n], sent[n]);
      MarksGrow(Delivered(net, sent[..n]), sent[n]);
      assert Delivered(net, sent[..n]) + [] == Delivered(net, sent[..n]);
    }
  }

  lemma NothingDelivered(net: Net)
    ensures Delivered(net, []) == [] && Marks([]) == 0
  {
  }

  /** A reader goes past what has no mark. */
  lemma {:induction false} SeenPast(a: seq<Reply>, b: seq<Reply>)
    requires forall r :: r in a ==> !r.last
    ensures Seen(a + b) == a + Seen(b)
  {
    if a == [] {
      assert a + b == b;
    } else {
      SeenPast(a[1..], b);
      assert (a + b)[1..] == a[1..] + b;
    }
  }

  lemma {:induction false} DeliveredAre(net: Net, sent: seq<Reply>, r: Reply)
    requires r in Delivered(net, sent)
    ensures r in sent
  {
    var n := |sent| - 1;
    if r in Delivered(net, sent[..n]) {
      DeliveredAre(net, sent[..n], r);
    }
  }

  lemma {:induction false} StampedAre(events: seq<Event>, marks: Event -> bool, taskId: Option<string>, i: nat)
    requires i < |events|
    ensures Stamped(events, marks, taskId)[i] == Reply(events[i], marks(events[i]), taskId, Normal)
  {
    if i < |events| - 1 {
      StampedAre(events[..|events| - 1], marks, taskId, i);
    }
  }

  lemma StampedMarks(events: seq<Event>, marks: Event -> bool, taskId: Option<string>)
    ensures forall r :: r in Stamped(events, marks, taskId) ==>
              r.event in events && r.taskId == taskId && r.last == marks(r.event) && r.priority == Normal
  {
  }

  lemma {:induction false} OfTaskAll(s: seq<Reply>, taskId: Option<string>)
    requires forall r :: r in s ==> r.taskId == taskId
    ensures OfTask(s, taskId) == s
  {
    if s != [] {
      OfTaskAll(s[..|s| - 1], taskId);
    }
  }

  lemma {:induction false} OfTaskJoin(a: seq<Reply>, b: seq<Reply>, taskId: Option<string>)
    ensures OfTask(a + b, taskId) == OfTask(a, taskId) + OfTask(b, taskId)
  {
    if b == [] {
      assert a + b == a;
    } else {
      OfTaskJoin(a, b[..|b| - 1], taskId);
      assert (a + b)[..|a + b| - 1] == a + b[..|b| - 1];
    }
  }

  lemma {:induction false} DeliveredJoin(net: Net, a: seq<Reply>, r: Reply)
    ensures Delivered(net, a + [r]) == Delivered(net, a) + if Arrives(net, |a|) then [r] else []
  {
  }

  /** A reader does not pass a mark. */
  lemma {:induction false} SeenStops(a: seq<Reply>, b: seq<Reply>)
    requires Marks(a) > 0
    ensures Seen(a + b) == Seen(a) && |Seen(a)| <= |a|
  {
    assert (a + b)[1..] == a[1..] + b;
    if !a[0].last {
      assert a == [a[0]] + a[1..];
      MarksJoin([a[0]], a[1..]);
      SeenStops(a[1..], b);
    }
  }

  // ---------------------------------------------------------------- the reader of a mailbox

  function Rank(p: Priority): nat {
    match p
    case Normal => 0
    case Urgent => 1
    case Critical => 2
  }

  /** The priorities of the replies of a mailbox, whose ids are their places. */
  function Ranks(box: seq<Reply>): GroupOffset.Priorities {
    (i: nat) => if i < |box| then Rank(box[i].priority) else 0
  }

  /** One FETCH of the reader: how many replies the mailbox held by then, and the ids it returned. */
  datatype Fetching = Fetching(held: nat, ids: seq<nat>)

  function Below(n: nat): (ids: set<nat>)
    ensures forall m: nat :: m in ids <==> m < n
  {
    if n == 0 then {} else Below(n - 1) + {n - 1}
  }

  /** A mailbox with this many replies, and the reader's group at an offset. */
  function Held(held: nat, offset: nat): GroupOffset.State {
    GroupOffset.State(Below(held), held, offset, {}, {}, map[])
  }

  /** The offset of the reader's group when it has acked these messages. */
  function AckedTo(offset: nat, ids: seq<nat>): nat {
    if ids == [] then offset else GroupOffset.Max(AckedTo(offset, ids[..|ids| - 1]), ids[|ids| - 1] + 1)
  }

  function ReaderOffset(fs: seq<Fetching>): nat {
    if fs == [] then 0 else AckedTo(ReaderOffset(fs[..|fs| - 1]), fs[|fs| - 1].ids)
  }

  /** A reader that acks what it reads: each FETCH returns a batch that the protocol allows, of what had arrived by then;
      fetches and arrivals interleave freely. */
  ghost predicate Reading(box: seq<Reply>, fs: seq<Fetching>) {
    fs == [] ||
    var n := |fs| - 1;
    && Reading(box, fs[..n])
    && fs[n].held <= |box|
    && (n > 0 ==> fs[n - 1].held <= fs[n].held)
    && GroupOffset.IsBatch(Held(fs[n].held, ReaderOffset(fs[..n])), Ranks(box), fs[n].ids)
  }

  function ReadIds(fs: seq<Fetching>): seq<nat> {
    if fs == [] then [] else ReadIds(fs[..|fs| - 1]) + fs[|fs| - 1].ids
  }

  function Pick(box: seq<Reply>, ids: seq<nat>): seq<Reply> {
    if ids == [] then []
    else
      var id := ids[|ids| - 1];
      Pick(box, ids[..|ids| - 1]) + if id < |box| then [box[id]] else []
  }

  /** What the reader has read. */
  function Taken(box: seq<Reply>, fs: seq<Fetching>): seq<Reply> {
    Pick(box, ReadIds(fs))
  }

  /** The reader has met a mark, or nothing is pending for it. */
  predicate Finished(box: seq<Reply>, fs: seq<Fetching>) {
    Marks(Taken(box, fs)) > 0 || ReaderOffset(fs) >= |box|
  }

  /** All that was sent arrives, and the reader comes to its end. */
  ghost predicate AllRead(net: Net, sent: seq<Reply>, fs: seq<Fetching>) {
    AllReach(net, sent) && Reading(Delivered(net, sent), fs) && Finished(Delivered(net, sent), fs)
  }

  /** No reply is more urgent than an earlier one. */
  ghost predicate NeverRises(box: seq<Reply>) {
    forall i, j :: 0 <= i < j < |box| ==> Rank(box[i].priority) >= Rank(box[j].priority)
  }

  ghost predicate ReadInOrder(box: seq<Reply>) {
    forall fs: seq<Fetching> :: Reading(box, fs) ==> Taken(box, fs) <= box
  }

  function Upto(n: nat): (ids: seq<nat>)
    ensures |ids| == n
  {
    seq(n, i => i)
  }

  lemma NeverRisesIsFifo(box: seq<Reply>)
    ensures NeverRises(box) <==> GroupOffset.Fifo(Ranks(box))
  {
    var r := Ranks(box);
    if GroupOffset.Fifo(r) {
      forall i, j | 0 <= i < j < |box| ensures Rank(box[i].priority) >= Rank(box[j].priority) {
        assert r(i) >= r(j);
      }
    }
  }

  /** When priorities never rise, a batch is the next part of the mailbox. */
  lemma {:induction false} BatchIsNext(box: seq<Reply>, held: nat, offset: nat, ids: seq<nat>, n: nat)
    requires GroupOffset.Fifo(Ranks(box)) && n <= |ids|
    requires GroupOffset.IsBatch(Held(held, offset), Ranks(box), ids)
    ensures forall i :: 0 <= i < n ==> ids[i] == offset + i && ids[i] < held
  {
    if n > 0 {
      BatchIsNext(box, held, offset, ids, n - 1);
      var m, k := offset + n - 1, ids[n - 1];
      assert k in Held(held, offset).stored && k >= offset;
      forall x: nat {:trigger x in ids[..n - 1]} | offset <= x < m ensures x in ids[..n - 1] {
        assert ids[..n - 1][x - offset] == x;
      }
      forall i | 0 <= i < n - 1 ensures ids[i] != k {
        assert GroupOffset.Before(Ranks(box), ids[i], ids[n - 1]);
      }
      assert k !in ids[..n - 1];
      if m < k {
        assert m in Held(held, offset).stored && GroupOffset.Before(Ranks(box), m, ids[n - 1]);
      }
    }
  }

  lemma {:induction false} AckedRun(offset: nat, ids: seq<nat>)
    requires forall i :: 0 <= i < |ids| ==> ids[i] == offset + i
    ensures AckedTo(offset, ids) == offset + |ids|
  {
    if ids != [] {
      AckedRun(offset, ids[..|ids| - 1]);
    }
  }

  lemma {:induction false} ReadsUpto(box: seq<Reply>, fs: seq<Fetching>)
    requires NeverRises(box) && Reading(box, fs)
    ensures ReadIds(fs) == Upto(ReaderOffset(fs))
    ensures ReaderOffset(fs) <= if fs == [] then 0 else fs[|fs| - 1].held
  {
    if fs != [] {
      var n := |fs| - 1;
      var offset, f := ReaderOffset(fs[..n]), fs[n];
      hide NeverRises;
      hide GroupOffset.IsBatch;
      ReadsUpto(box, fs[..n]);
      NeverRisesIsFifo(box);
      hide Ranks;
      hide Upto;
      NextUpto(box, f.held, offset, f.ids);
    }
  }

  lemma NextUpto(box: seq<Reply>, held: nat, offset: nat, ids: seq<nat>)
    requires GroupOffset.Fifo(Ranks(box)) && GroupOffset.IsBatch(Held(held, offset), Ranks(box), ids) && offset <= held
    ensures Upto(offset) + ids == Upto(AckedTo(offset, ids)) && AckedTo(offset, ids) <= held
  {
    hide GroupOffset.IsBatch;
    hide GroupOffset.Fifo;
    hide Ranks;
    BatchIsNext(box, held, offset, ids, |ids|);
    AckedRun(offset, ids);
  }

  lemma {:induction false} PickUpto(box: seq<Reply>, k: nat)
    requires k <= |box|
    ensures Pick(box, Upto(k)) == box[..k]
  {
    if k > 0 {
      PickUpto(box, k - 1);
      assert Upto(k)[..k - 1] == Upto(k - 1);
    }
  }

  /** When priorities never rise, the reader has read the replies up to its offset, in their order. */
  lemma TakenIsPrefix(box: seq<Reply>, fs: seq<Fetching>)
    requires NeverRises(box) && Reading(box, fs)
    ensures ReaderOffset(fs) <= |box| && Taken(box, fs) == box[..ReaderOffset(fs)]
  {
    ReadsUpto(box, fs);
    PickUpto(box, ReaderOffset(fs));
  }

  /** A finished reader has seen what one sees that reads the replies as they were sent. */
  lemma SeenByReader(box: seq<Reply>, fs: seq<Fetching>)
    requires NeverRises(box) && Reading(box, fs) && Finished(box, fs)
    ensures Seen(Taken(box, fs)) == Seen(box)
  {
    hide *;
    TakenIsPrefix(box, fs);
    FinishedPrefix(box, fs);
  }

  lemma FinishedPrefix(box: seq<Reply>, fs: seq<Fetching>)
    requires ReaderOffset(fs) <= |box| && Taken(box, fs) == box[..ReaderOffset(fs)] && Finished(box, fs)
    ensures Seen(Taken(box, fs)) == Seen(box)
  {
    var k := ReaderOffset(fs);
    assert box == box[..k] + box[k..];
    if k < |box| {
      SeenStops(box[..k], box[k..]);
    } else {
      assert box[..k] == box;
    }
  }

  /** Then all that was sent is seen as it was sent. */
  lemma AllReadSeen(net: Net, sent: seq<Reply>, fs: seq<Fetching>)
    requires AllRead(net, sent, fs) && NeverRises(Delivered(net, sent))
    ensures AllReach(net, sent) && Delivered(net, sent) == sent
    ensures Seen(Taken(Delivered(net, sent), fs)) == Seen(sent)
  {
    hide Delivered;
    hide Reading;
    hide NeverRises;
    hide Seen;
    hide Taken;
    DeliveredExactly(net, sent);
    SeenByReader(sent, fs);
  }

  // ---------------------------------------------------------------- a rising priority breaks the order

  /** The reader may fetch each reply as it arrives. */
  lemma {:induction false} OneByOne(box: seq<Reply>, n: nat) returns (fs: seq<Fetching>)
    requires n <= |box|
    ensures Reading(box, fs) && ReaderOffset(fs) == n && ReadIds(fs) == Upto(n)
    ensures fs != [] ==> fs[|fs| - 1].held <= n
  {
    hide GroupOffset.IsBatch;
    fs := [];
    if n > 0 {
      hide Reading;
      hide ReaderOffset;
      hide ReadIds;
      fs := OneByOne(box, n - 1);
      OnlyOnePending(box, n - 1);
      fs := ReadOn(box, fs, Fetching(n, [n - 1]));
    }
  }

  lemma OnlyOnePending(box: seq<Reply>, n: nat)
    ensures GroupOffset.IsBatch(Held(n + 1, n), Ranks(box), [n])
    ensures AckedTo(n, [n]) == n + 1
  {
  }

  lemma ReadOn(box: seq<Reply>, fs: seq<Fetching>, f: Fetching) returns (more: seq<Fetching>)
    requires Reading(box, fs) && f.held <= |box| && (fs != [] ==> fs[|fs| - 1].held <= f.held)
    requires GroupOffset.IsBatch(Held(f.held, ReaderOffset(fs)), Ranks(box), f.ids)
    ensures more == fs + [f] && Reading(box, more)
    ensures ReadIds(more) == ReadIds(fs) + f.ids && ReaderOffset(more) == AckedTo(ReaderOffset(fs), f.ids)
  {
    hide GroupOffset.IsBatch;
    hide AckedTo;
    more := fs + [f];
    assert more[..|fs|] == fs;
  }

  /** The place of the first of the most urgent replies in a part of a mailbox. */
  function Top(prio: GroupOffset.Priorities, lo: nat, hi: nat): (t: nat)
    requires lo < hi
    ensures lo <= t < hi
    ensures forall m :: lo <= m < hi ==> prio(t) > prio(m) || (prio(t) == prio(m) && t <= m)
  {
    if hi == lo + 1 then lo
    else
      var t := Top(prio, lo, hi - 1);
      if prio(hi - 1) > prio(t) then hi - 1 else t
  }

  /** A more urgent reply is read before an earlier one that waits beside it. */
  lemma RisingIsReadEarly(box: seq<Reply>, i: nat, j: nat)
    requires i < j < |box| && Rank(box[i].priority) < Rank(box[j].priority)
    ensures !ReadInOrder(box)
  {
    var fs := OneByOne(box, i);
    var t := Top(Ranks(box), i, j + 1);
    assert Rank(box[t].priority) > Rank(box[i].priority) by {
      assert Ranks(box)(t) >= Ranks(box)(j);
    }
    TopIsBatch(Ranks(box), i, j);
    hide Ranks;
    hide GroupOffset.IsBatch;
    hide Reading;
    hide Top;
    fs := ReadOn(box, fs, Fetching(j + 1, [t]));
    TakenThen(box, fs, i, t);
    assert Taken(box, fs)[i] != box[i];
  }

  lemma TakenThen(box: seq<Reply>, fs: seq<Fetching>, i: nat, t: nat)
    requires i < |box| && t < |box| && ReadIds(fs) == Upto(i) + [t]
    ensures Taken(box, fs) == box[..i] + [box[t]]
  {
    PickUpto(box, i);
    assert (Upto(i) + [t])[..i] == Upto(i);
  }

  lemma TopIsBatch(prio: GroupOffset.Priorities, i: nat, j: nat)
    requires i < j
    ensures GroupOffset.IsBatch(Held(j + 1, i), prio, [Top(prio, i, j + 1)])
  {
    hide Top;
  }

  /** Whatever the interleaving of arrivals and fetches, replies are read in the order they were sent exactly when no
      reply is more urgent than an earlier one. */
  lemma ReadInOrderExactly(box: seq<Reply>)
    ensures ReadInOrder(box) <==> NeverRises(box)
  {
    if NeverRises(box) {
      forall fs: seq<Fetching> | Reading(box, fs) ensures Taken(box, fs) <= box {
        TakenIsPrefix(box, fs);
      }
    } else {
      var i, j :| 0 <= i < j < |box| && Rank(box[i].priority) < Rank(box[j].priority);
      RisingIsReadEarly(box, i, j);
    }
  }

  /** Critical overtakes urgent and normal, urgent overtakes normal, and nothing else overtakes. */
  lemma OvertakesExactly(first: Reply, second: Reply)
    ensures !ReadInOrder([first, second]) <==>
            || (second.priority == Critical && first.priority != Critical)
            || (second.priority == Urgent && first.priority == Normal)
  {
    hide ReadInOrder;
    ReadInOrderExactly([first, second]);
    assert NeverRises([first, second]) <==> Rank(first.priority) >= Rank(second.priority) by {
      var box := [first, second];
      assert box[0] == first && box[1] == second;
    }
  }
}
