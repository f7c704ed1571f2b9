/** The cancel request of the A2A agent: it marks the stored task, tells the agent's own inbox and answers. */
module Cancel {
  import opened Text
  import opened TaskStore

  /** How the requests of one cancel call turn out. */
  datatype Fate = Fate(read: bool, save: Outcome, tell: Outcome, answer: Outcome)

  const CANCELED := Status(Canceled, "")

  /** The notice to running handlers. */
  function Notice(id: string): Mail {
    Mail(None, Critical, false, StatusJson(id, Canceled))
  }

  function Answer(task: Task): Mail {
    Mail(None, Normal, false, TaskJson(task))
  }

  function Tell(boxes: Boxes, addr: string, mail: Mail, outcome: Outcome): Boxes {
    if addr == "" then boxes else Sent(boxes, addr, mail, outcome)
  }

  /** What the agent finds under the id. */
  function Read(boxes: Boxes, store: string, id: string, fate: Fate): Option<Task> {
    if store in boxes && fate.read then Got(boxes[store], id) else None
  }

  /** The mailboxes after a cancel call. */
  function AfterCancel(boxes: Boxes, store: string, inbox: string, id: string, replyTo: string, fate: Fate): Boxes {
    var task := Read(boxes, store, id, fate);
    var told := Tell(AfterMark(boxes, store, task, fate), inbox, Notice(id), fate.tell);
    if task.None? then told else Tell(told, replyTo, Answer(task.value.(status := CANCELED)), fate.answer)
  }

  function AfterMark(boxes: Boxes, store: string, task: Option<Task>, fate: Fate): Boxes {
    if task.None? then boxes else Sent(boxes, store, TaskMail(task.value.(status := CANCELED)), fate.save)
  }

  /** The empty string stands for an absent address. */
  class Agent {
    const mq9: Mq9
    const inbox: string
    var store: Store?

    /** The agent makes its store on its own client and marks it ready at once. */
    ghost predicate Valid()
      reads this, store
    {
      store != null ==> store.mq9 == mq9 && store.ready
    }

    constructor (mq9: Mq9, inbox: string)
      ensures this.mq9 == mq9 && this.inbox == inbox && store == null && Valid()
    {
      this.mq9, this.inbox, store := mq9, inbox, null;
    }

    /** No request in the payload, or no store: nothing happens. */
    method HandleCancelTask(request: Option<string>, replyTo: string, fate: Fate)
      requires Valid()
      modifies mq9
      ensures Valid()
      ensures mq9.boxes == if store == null || request.None? then old(mq9.boxes)
                           else AfterCancel(old(mq9.boxes), store.mailbox, inbox, request.value, replyTo, fate)
    {
      if store == null || request.None? {
        return;
      }
      var id := request.value;
      var task := store.Get(id, fate.read);
      if task.Some? {
        task := Some(task.value.(status := CANCELED));
        store.Save(task.value, fate.save);
      }
      if inbox != "" {
        var _ := mq9.Send(inbox, Notice(id), fate.tell);
      }
      if replyTo != "" && task.Some? {
        var _ := mq9.Send(replyTo, Answer(task.value), fate.answer);
      }
    }
  }

  // ---------------------------------------------------------------- what a cancel changes

  /** Mail without a key changes no task, even when it lands in the store's own mailbox. */
  lemma TellKeepsTasks(boxes: Boxes, store: string, addr: string, mail: Mail, outcome: Outcome, id: string)
    requires store in boxes && Sound(boxes[store]) && mail.key == None
    ensures var after := Tell(boxes, addr, mail, outcome);
            store in after && Sound(after[store]) && Got(after[store], id) == Got(boxes[store], id)
  {
  }

  /** What a read returns has the id that was asked for. */
  lemma ReadHasId(box: Box, id: string)
    requires Sound(box) && Got(box, id).Some?
    ensures Got(box, id).value.id == id
  {
    var m := ByKey(box, Key(id))[0];
    LatestIsStored(box.log, Key(id), m);
    KeyInjective(id, m.mail.body.task.id);
  }

  lemma MarkedTask(boxes: Boxes, store: string, id: string, other: string, fate: Fate)
    requires store in boxes && Sound(boxes[store])
    ensures var task := Read(boxes, store, id, fate);
            var after := AfterMark(boxes, store, task, fate);
            && store in after && Sound(after[store])
            && Got(after[store], other) ==
               if other == id && task.Some? && fate.save != Lost then Some(task.value.(status := CANCELED))
               else Got(boxes[store], other)
  {
    hide Sound;
    var task := Read(boxes, store, id, fate);
    if task.Some? {
      ReadHasId(boxes[store], id);
      var mail := TaskMail(task.value.(status := CANCELED));
      KeyInjective(id, other);
      PutSound(boxes[store], mail);
      PutUpdates(boxes[store], mail, other);
    }
  }

  /** Cancelling a stored task changes its status to CANCELED and nothing else of it, and no other task, wherever the
      agent's notice and answer go. */
  lemma CancelChangesOneStatus(
      boxes: Boxes, store: string, inbox: string, id: string, replyTo: string, fate: Fate, other: string)
    requires store in boxes && Sound(boxes[store])
    ensures var after := AfterCancel(boxes, store, inbox, id, replyTo, fate);
            var was := Got(boxes[store], other);
            && store in after && Sound(after[store])
            && Got(after[store], other) ==
               if other == id && was.Some? && fate.read && fate.save != Lost
               then Some(Task(id, Status(Canceled, ""), was.value.rest))
               else was
  {
    hide Sound;
    hide Got;
    var task := Read(boxes, store, id, fate);
    MarkedTask(boxes, store, id, other, fate);
    var marked := AfterMark(boxes, store, task, fate);
    TellKeepsTasks(marked, store, inbox, Notice(id), fate.tell, other);
    if task.Some? {
      TellKeepsTasks(Tell(marked, inbox, Notice(id), fate.tell), store, replyTo,
                     Answer(task.value.(status := CANCELED)), fate.answer, other);
      if other == id {
        ReadHasId(boxes[store], id);
      }
    }
  }

  /** Cancelling an id that is not stored leaves every mailbox but the inbox as it was, and the inbox gets one critical
      notice that does not end a stream. */
  lemma CancelOfUnknown(
      boxes: Boxes, store: string, inbox: string, id: string, replyTo: string, fate: Fate, addr: string)
    requires store in boxes && Got(boxes[store], id) == None
    requires addr in boxes
    ensures var after := AfterCancel(boxes, store, inbox, id, replyTo, fate);
            && addr in after
            && (addr != inbox ==> after[addr] == boxes[addr])
            && (addr == inbox && inbox != "" && fate.tell != Lost ==>
                  after[addr].log == boxes[addr].log
                    + [Message(boxes[addr].next, Mail(None, Critical, false, StatusJson(id, Canceled)))])
  {
  }

  /** These mails with the next ids. */
  function Numbered(mails: seq<Mail>, next: nat): seq<Message> {
    seq(|mails|, i requires 0 <= i < |mails| => Message(next + i, mails[i]))
  }

  /** What a cancel does to every mailbox, whichever of its addresses coincide, are missing or get nothing: the store's
      mailbox gets the cancelled task in place of the old one, the inbox then the notice, and the reply address then the
      cancelled task; nothing else changes. */
  lemma {:induction false} CancelTells(
      boxes: Boxes, store: string, inbox: string, id: string, replyTo: string, fate: Fate, addr: string)
    requires addr in boxes
    ensures var after := AfterCancel(boxes, store, inbox, id, replyTo, fate);
            var task := Read(boxes, store, id, fate);
            var marked := if addr == store && task.Some? && fate.save != Lost
                          then Put(boxes[addr], TaskMail(task.value.(status := Status(Canceled, "")))) else boxes[addr];
            var notice := if addr == inbox && inbox != "" && fate.tell != Lost
                          then [Mail(None, Critical, false, StatusJson(id, Canceled))] else [];
            var answer := if addr == replyTo && replyTo != "" && task.Some? && fate.answer != Lost
                          then [Mail(None, Normal, false, TaskJson(task.value.(status := Status(Canceled, ""))))] else [];
            && after.Keys == boxes.Keys
            && after[addr] == Box(marked.log + Numbered(notice + answer, marked.next), marked.next + |notice + answer|)
  {
    hide Got;
    hide Put;
    hide AfterMark;
    hide Tell;
    hide Read;
    var task := Read(boxes, store, id, fate);
    var marked := AfterMark(boxes, store, task, fate);
    MarkAt(boxes, store, task, fate, addr);
    TellAt(marked, inbox, Notice(id), fate.tell, addr);
    if task.Some? {
      TellAt(Tell(marked, inbox, Notice(id), fate.tell), replyTo, Answer(task.value.(status := CANCELED)), fate.answer,
             addr);
    }
  }

  lemma MarkAt(boxes: Boxes, store: string, task: Option<Task>, fate: Fate, addr: string)
    requires addr in boxes
    ensures AfterMark(boxes, store, task, fate).Keys == boxes.Keys
    ensures AfterMark(boxes, store, task, fate)[addr] ==
            if addr == store && task.Some? && fate.save != Lost
            then Put(boxes[addr], TaskMail(task.value.(status := CANCELED))) else boxes[addr]
  {
  }

  lemma TellAt(boxes: Boxes, to: string, mail: Mail, outcome: Outcome, addr: string)
    requires addr in boxes && mail.key == None
    ensures var after := Tell(boxes, to, mail, outcome);
            && after.Keys == boxes.Keys
            && after[addr] == if addr == to && to != "" && outcome != Lost
                              then Box(boxes[addr].log + [Message(boxes[addr].next, mail)], boxes[addr].next + 1)
                              else boxes[addr]
  {
  }

  /** A cancel that read the task at place p of a run and writes it back at the end: what is stored then is the cancelled
      form of what was read, and no other task changes. It is the cancelled form of the task as it was then stored if and
      only if the save that stands there differs from what was read in nothing but its status; otherwise a state saved in
      between is overwritten, or a task deleted in between comes back. If no save and no delete of the task fell in
      between, the task read is still the one stored. */
  lemma {:induction false} CancelInRun(ops: seq<Op>, p: nat, id: string, outcome: Outcome)
    requires AllFair(ops) && p <= |ops| && outcome != Lost
    requires Got(BoxAfter(ops[..p]), id).Some?
    ensures var read := Got(BoxAfter(ops[..p]), id).value;
            var now := Got(BoxAfter(ops), id);
            var after := BoxAfter(ops + [Op.Save(true, read.(status := CANCELED), outcome)]);
            && Got(after, id) == Some(Task(id, CANCELED, read.rest))
            && (forall other :: other != id ==> Got(after, other) == Got(BoxAfter(ops), other))
            && ((now.Some? && Got(after, id) == Some(now.value.(status := CANCELED))) <==>
                  exists i: nat :: Stands(ops, i, id) && ops[i].task.rest == read.rest)
            && ((forall j: nat :: p <= j < |ops| ==> !Saves(ops[j], id) && !Drops(ops, j, id)) ==> now == Some(read))
  {
    hide *;
    var read := Got(BoxAfter(ops[..p]), id).value;
    var now := Got(BoxAfter(ops), id);
    FairPart(ops, p);
    RunSound(ops[..p]);
    RunSound(ops);
    ReadHasId(BoxAfter(ops[..p]), id);
    CancelWrites(ops, id, read, outcome);
    CurrentRest(ops, id, read.rest);
    if now.Some? {
      ReadHasId(BoxAfter(ops), id);
    }
    if forall j: nat :: p <= j < |ops| ==> !Saves(ops[j], id) && !Drops(ops, j, id) {
      Undisturbed(ops, p, id);
    }
  }

  lemma FairPart(ops: seq<Op>, p: nat)
    requires AllFair(ops) && p <= |ops|
    ensures AllFair(ops[..p])
  {
  }

  /** The write of a cancel. */
  lemma CancelWrites(ops: seq<Op>, id: string, read: Task, outcome: Outcome)
    requires AllFair(ops) && read.id == id && outcome != Lost
    ensures var after := BoxAfter(ops + [Op.Save(true, read.(status := CANCELED), outcome)]);
            && Got(after, id) == Some(Task(id, CANCELED, read.rest))
            && (forall other :: other != id ==> Got(after, other) == Got(BoxAfter(ops), other))
  {
    var mail := TaskMail(read.(status := CANCELED));
    RunSound(ops);
    hide Sound;
    hide Got;
    SavedRun(ops, read.(status := CANCELED), outcome);
    forall other ensures Got(Put(BoxAfter(ops), mail), other) ==
                         if other == id then Some(Task(id, CANCELED, read.rest)) else Got(BoxAfter(ops), other) {
      KeyInjective(id, other);
      PutUpdates(BoxAfter(ops), mail, other);
    }
  }

  /** What the standing save says of the stored task. */
  lemma CurrentRest(ops: seq<Op>, id: string, rest: string)
    requires AllFair(ops)
    ensures (Got(BoxAfter(ops), id).Some? && Got(BoxAfter(ops), id).value.rest == rest) <==>
            exists i: nat :: Stands(ops, i, id) && ops[i].task.rest == rest
  {
    hide Got;
    var now := Got(BoxAfter(ops), id);
    if now.Some? {
      ReadsLastSave(ops, id, now.value);
    }
    if i: nat :| Stands(ops, i, id) && ops[i].task.rest == rest {
      ReadsStanding(ops, i, id);
    }
  }

  lemma SavedRun(ops: seq<Op>, task: Task, outcome: Outcome)
    requires outcome != Lost
    ensures BoxAfter(ops + [Op.Save(true, task, outcome)]) == Put(BoxAfter(ops), TaskMail(task))
  {
  }

  /** The result that was saved while a cancel was under way is gone after it. */
  lemma CancelLosesResult(draft: Task, result: Task)
    requires draft.id == result.id && draft.rest != result.rest
    ensures var first, second := Op.Save(true, draft, Done), Op.Save(true, result, Done);
            && Got(BoxAfter([first]), draft.id) == Some(draft)
            && Got(BoxAfter([first, second]), draft.id) == Some(result)
            && Got(BoxAfter([first, second] + [Op.Save(true, draft.(status := CANCELED), Done)]), draft.id)
               == Some(draft.(status := CANCELED))
  {
    var first, second := Op.Save(true, draft, Done), Op.Save(true, result, Done);
    var last := Op.Save(true, draft.(status := CANCELED), Done);
    hide Got;
    assert [first][0] == first;
    ReadsStanding([first], 0, draft.id);
    ReadsStanding([first, second], 1, draft.id);
    ReadsStanding([first, second] + [last], 2, draft.id);
  }

  /** A task that was deleted while a cancel was under way is back after it. */
  lemma CancelRestoresDeleted(task: Task)
    ensures var ops := [Op.Save(true, task, Done), Op.Find(true, task.id, true), Op.Drop(1, Done)];
            && Got(BoxAfter(ops[..1]), task.id) == Some(task)
            && Got(BoxAfter(ops), task.id) == None
            && Got(BoxAfter(ops + [Op.Save(true, task.(status := CANCELED), Done)]), task.id)
               == Some(task.(status := CANCELED))
  {
    var ops := [Op.Save(true, task, Done), Op.Find(true, task.id, true), Op.Drop(1, Done)];
    var last := Op.Save(true, task.(status := CANCELED), Done);
    hide Got;
    assert ops[..1] == [ops[0]];
    ReadsStanding([ops[0]], 0, task.id);
    ReadsStanding(ops + [last], 3, task.id);
    assert Drops(ops, 2, task.id);
    ReadsNothing(ops, task.id);
  }

  lemma ReadsStanding(ops: seq<Op>, i: nat, id: string)
    requires AllFair(ops) && Stands(ops, i, id)
    ensures Got(BoxAfter(ops), id) == Some(ops[i].task)
  {
    ReadsLastSave(ops, id, ops[i].task);
  }

  lemma ReadsNothing(ops: seq<Op>, id: string)
    requires AllFair(ops) && forall i: nat :: !Stands(ops, i, id)
    ensures Got(BoxAfter(ops), id) == None
  {
    if Got(BoxAfter(ops), id).Some? {
      ReadsLastSave(ops, id, Got(BoxAfter(ops), id).value);
    }
  }
}
