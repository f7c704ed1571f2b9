/** The A2A task store: a map from task ids to tasks kept inside a mailbox that compacts messages by key. */
module TaskStore {
  import opened Text

  datatype TaskState = Submitted | Working | Completed | Failed | Canceled

  /** `detail` stands for the other fields of a status, `rest` for the other fields of a task. */
  datatype Status = Status(state: TaskState, detail: string)
  datatype Task = Task(id: string, status: Status, rest: string)

  /** What a payload decodes to. */
  datatype Body =
    | TaskJson(task: Task)
    | StatusJson(taskId: string, state: TaskState)
    | Opaque(text: string)

  datatype Priority = Normal | Urgent | Critical
  datatype Mail = Mail(key: Option<string>, priority: Priority, last: bool, body: Body)
  datatype Message = Message(id: nat, mail: Mail)
  datatype Box = Box(log: seq<Message>, next: nat)

  /** A request may fail before or after the broker has acted on it. */
  datatype Outcome = Done | Lost | ReplyLost

  const EMPTY := Box([], 0)
  const KEY_PREFIX := "task."
  const DEFAULT_LIMIT: nat := 100

  // ---------------------------------------------------------------- the broker's side

  function Without(log: seq<Message>, key: Option<string>): seq<Message> {
    if log == [] || key.None? then log
    else
      var m := log[|log| - 1];
      Without(log[..|log| - 1], key) + if m.mail.key == key then [] else [m]
  }

  function Discard(log: seq<Message>, id: nat): seq<Message> {
    if log == [] then []
    else
      var m := log[|log| - 1];
      Discard(log[..|log| - 1], id) + if m.id == id then [] else [m]
  }

  function Latest(log: seq<Message>, key: string): Option<Message> {
    if log == [] then None
    else if log[|log| - 1].mail.key == Some(key) then Some(log[|log| - 1])
    else Latest(log[..|log| - 1], key)
  }

  /** SEND: of the messages with one key only the new one is retained. */
  function Put(box: Box, mail: Mail): Box {
    Box(Without(box.log, mail.key) + [Message(box.next, mail)], box.next + 1)
  }

  /** QUERY with a key: the latest message for that key. */
  function ByKey(box: Box, key: string): seq<Message> {
    match Latest(box.log, key)
    case None => []
    case Some(m) => [m]
  }

  /** QUERY with a limit: the most recent messages. */
  function Recent(box: Box, limit: nat): seq<Message> {
    if |box.log| <= limit then box.log else box.log[|box.log| - limit..]
  }

  function Deleted(box: Box, msgs: seq<Message>): Box {
    if msgs == [] then box else Box(Discard(box.log, msgs[0].id), box.next)
  }

  // ---------------------------------------------------------------- the store's side

  function Key(id: string): string {
    KEY_PREFIX + id
  }

  function TaskMail(task: Task): Mail {
    Mail(Some(Key(task.id)), Normal, false, TaskJson(task))
  }

  function ParseTask(body: Body): Option<Task> {
    if body.TaskJson? then Some(body.task) else None
  }

  function Got(box: Box, id: string): Option<Task> {
    var msgs := ByKey(box, Key(id));
    if msgs == [] then None else ParseTask(msgs[0].mail.body)
  }

  /** The tasks among some messages; what does not parse is skipped. */
  function Parsed(msgs: seq<Message>): seq<Task> {
    if msgs == [] then []
    else
      var rest := Parsed(msgs[..|msgs| - 1]);
      match ParseTask(msgs[|msgs| - 1].mail.body)
      case None => rest
      case Some(t) => rest + [t]
  }

  function Limit(pageSize: int): nat {
    if pageSize > 0 then pageSize else DEFAULT_LIMIT
  }

  function Saved(box: Box, ready: bool, task: Task, outcome: Outcome): Box {
    if ready && outcome != Lost then Put(box, TaskMail(task)) else box
  }

  // ---------------------------------------------------------------- the objects

  type Boxes = map<string, Box>

  /** What a SEND leaves behind; an address without a mailbox is an error. */
  function Sent(boxes: Boxes, addr: string, mail: Mail, outcome: Outcome): Boxes {
    if addr in boxes && outcome != Lost then boxes[addr := Put(boxes[addr], mail)] else boxes
  }

  class Mq9 {
    var boxes: Boxes

    constructor (boxes: Boxes)
      ensures this.boxes == boxes
    {
      this.boxes := boxes;
    }

    method Send(addr: string, mail: Mail, outcome: Outcome) returns (success: bool)
      modifies this
      ensures boxes == Sent(old(boxes), addr, mail, outcome)
      ensures success == (addr in boxes && outcome == Done)
    {
      success := addr in boxes && outcome == Done;
      if addr in boxes && outcome != Lost {
        boxes := boxes[addr := Put(boxes[addr], mail)];
      }
    }

    method QueryKey(addr: string, key: string, answered: bool) returns (msgs: Option<seq<Message>>)
      ensures msgs == if addr in boxes && answered then Some(ByKey(boxes[addr], key)) else None
    {
      msgs := if addr in boxes && answered then Some(ByKey(boxes[addr], key)) else None;
    }

    method QueryLimit(addr: string, limit: nat, answered: bool) returns (msgs: Option<seq<Message>>)
      ensures msgs == if addr in boxes && answered then Some(Recent(boxes[addr], limit)) else None
    {
      msgs := if addr in boxes && answered then Some(Recent(boxes[addr], limit)) else None;
    }

    method Delete(addr: string, id: nat, outcome: Outcome) returns (success: bool)
      requires addr in boxes
      modifies this
      ensures boxes == if outcome == Lost then old(boxes)
                       else old(boxes)[addr := Box(Discard(old(boxes)[addr].log, id), old(boxes)[addr].next)]
      ensures success == (outcome == Done)
    {
      success := outcome == Done;
      if outcome != Lost {
        boxes := boxes[addr := Box(Discard(boxes[addr].log, id), boxes[addr].next)];
      }
    }
  }

  /** Several stores may hold the same client and the same mailbox. A failed request is logged and forgotten. */
  class Store {
    const mq9: Mq9
    const mailbox: string
    var ready: bool

    constructor (mq9: Mq9, mailbox: string)
      ensures this.mq9 == mq9 && this.mailbox == mailbox && !ready
    {
      this.mq9, this.mailbox, ready := mq9, mailbox, false;
    }

    method MarkReady()
      modifies this
      ensures ready
    {
      ready := true;
    }

    method Save(task: Task, outcome: Outcome)
      modifies mq9
      ensures !ready || outcome == Lost || mailbox !in old(mq9.boxes) ==> mq9.boxes == old(mq9.boxes)
      ensures ready && outcome != Lost && mailbox in old(mq9.boxes) ==>
                mailbox in mq9.boxes && mq9.boxes[mailbox].log != [] &&
                mq9.boxes[mailbox].log[|mq9.boxes[mailbox].log| - 1] ==
                  Message(old(mq9.boxes)[mailbox].next, Mail(Some("task." + task.id), Normal, false, TaskJson(task)))
      ensures mq9.boxes == if mailbox !in old(mq9.boxes) then old(mq9.boxes)
                           else old(mq9.boxes)[mailbox := Saved(old(mq9.boxes)[mailbox], ready, task, outcome)]
    {
      if !ready {
        return;
      }
      var _ := mq9.Send(mailbox, TaskMail(task), outcome);
    }

    method Get(id: string, answered: bool) returns (task: Option<Task>)
      ensures !ready || !answered ==> task == None
      ensures task == if ready && answered && mailbox in mq9.boxes then Got(mq9.boxes[mailbox], id) else None
    {
      task := None;
      if !ready {
        return;
      }
      var msgs := mq9.QueryKey(mailbox, Key(id), answered);
      if msgs.None? || msgs.value == [] {
        return;
      }
      task := ParseTask(msgs.value[0].mail.body);
    }

    method Delete(id: string, answered: bool, outcome: Outcome)
      modifies mq9
      ensures !ready || !answered || outcome == Lost ==> mq9.boxes == old(mq9.boxes)
      ensures ready && answered && outcome != Lost && mailbox in old(mq9.boxes) && Sound(old(mq9.boxes)[mailbox]) ==>
                mailbox in mq9.boxes && Got(mq9.boxes[mailbox], id) == None
      ensures mq9.boxes == if mailbox in old(mq9.boxes) && ready && answered && outcome != Lost
                           then var box := old(mq9.boxes)[mailbox];
                                old(mq9.boxes)[mailbox := Deleted(box, ByKey(box, Key(id)))]
                           else old(mq9.boxes)
    {
      if !ready {
        return;
      }
      var msgs := mq9.QueryKey(mailbox, Key(id), answered);
      if msgs.None? {
        return;
      }
      var i := 0;
      while i < |msgs.value|
        invariant i <= |msgs.value| <= 1
        invariant mq9.boxes == if i > 0 && outcome != Lost
                               then old(mq9.boxes)[mailbox := Deleted(old(mq9.boxes)[mailbox], msgs.value)]
                               else old(mq9.boxes)
      {
        var success := mq9.Delete(mailbox, msgs.value[i].id, outcome);
        if !success {
          break;
        }
        i := i + 1;
      }
      ghost var was := old(mq9.boxes)[mailbox];
      if Sound(was) {
        DeleteRemoves(was, id, id);
      }
    }

    /** The tasks among the most recent messages, as many as the page size says or 100, oldest first. */
    method List(pageSize: int, answered: bool) returns (tasks: seq<Task>)
      ensures if ready && answered && mailbox in mq9.boxes
              then
                var log, size := mq9.boxes[mailbox].log, if pageSize > 0 then pageSize else 100;
                |tasks| <= size && ShowsFrom(log, |log| - size, tasks)
              else tasks == []
      ensures tasks == if ready && answered && mailbox in mq9.boxes
                       then Parsed(Recent(mq9.boxes[mailbox], Limit(pageSize)))
                       else []
    {
      tasks := [];
      if !ready {
        return;
      }
      var limit := if pageSize > 0 then pageSize else DEFAULT_LIMIT;
      var msgs := mq9.QueryLimit(mailbox, limit, answered);
      if msgs.None? {
        return;
      }
      var i := 0;
      while i < |msgs.value|
        invariant i <= |msgs.value|
        invariant tasks == Parsed(msgs.value[..i])
      {
        var task := ParseTask(msgs.value[i].mail.body);
        if task.Some? {
          tasks := tasks + [task.value];
        }
        i := i + 1;
        assert msgs.value[..i][..i - 1] == msgs.value[..i - 1];
      }
      assert msgs.value[..i] == msgs.value;
      RecentShows(mq9.boxes[mailbox], limit);
    }
  }

  /** The tasks are those of the messages from a place on, each one and in their order. */
  ghost predicate ShowsFrom(log: seq<Message>, from: int, tasks: seq<Task>) {
    exists at: seq<nat> :: ShowsAt(log, from, tasks, at)
  }

  ghost predicate ShowsAt(log: seq<Message>, from: int, tasks: seq<Task>, at: seq<nat>) {
    && |at| == |tasks|
    && (forall k :: 0 <= k < |at| ==> from <= at[k] < |log| && log[at[k]].mail.body == TaskJson(tasks[k]))
    && (forall j, k :: 0 <= j < k < |at| ==> at[j] < at[k])
    && (forall i :: 0 <= i < |log| && from <= i && log[i].mail.body.TaskJson? ==> i in at)
  }

  lemma {:induction false} ParsedShows(log: seq<Message>, from: nat) returns (at: seq<nat>)
    requires from <= |log|
    ensures ShowsAt(log, from, Parsed(log[from..]), at) && |at| <= |log| - from
    decreases |log|
  {
    at := [];
    if from < |log| {
      var n := |log| - 1;
      at := ParsedShows(log[..n], from);
      assert log[from..][..n - from] == log[..n][from..] && log[from..][n - from] == log[n];
      at := OneMoreShown(log, from, Parsed(log[..n][from..]), at);
    }
  }

  lemma OneMoreShown(log: seq<Message>, from: nat, tasks: seq<Task>, at: seq<nat>) returns (more: seq<nat>)
    requires from < |log| && ShowsAt(log[..|log| - 1], from, tasks, at) && |at| <= |log| - 1 - from
    ensures var body := log[|log| - 1].mail.body;
            ShowsAt(log, from, tasks + (if body.TaskJson? then [body.task] else []), more) && |more| <= |log| - from
  {
    var n := |log| - 1;
    more := at + if log[n].mail.body.TaskJson? then [n] else [];
    assert forall i :: 0 <= i < n ==> log[..n][i] == log[i];
    forall i | 0 <= i < |log| && from <= i && log[i].mail.body.TaskJson? ensures i in more {
      if i < n {
        assert log[..n][i].mail.body.TaskJson?;
      }
    }
  }

  lemma RecentShows(box: Box, limit: nat)
    ensures ShowsFrom(box.log, |box.log| - limit, Parsed(Recent(box, limit))) && |Parsed(Recent(box, limit))| <= limit
  {
    var from := if |box.log| <= limit then 0 else |box.log| - limit;
    hide Parsed;
    assert box.log[0..] == box.log;
    var at := ParsedShows(box.log, from);
    assert ShowsAt(box.log, |box.log| - limit, Parsed(Recent(box, limit)), at);
  }

  // ---------------------------------------------------------------- runs

  /** What stores on one mailbox and other senders do to it, in any interleaving. A delete is two requests: `Find`
      looks the id up, and `Drop` deletes what the `Find` at that place of the run has found. */
  datatype Op =
    | Save(ready: bool, task: Task, outcome: Outcome)
    | Find(ready: bool, id: string, answered: bool)
    | Drop(found: nat, outcome: Outcome)
    | Foreign(mail: Mail)

  /** Other senders leave the store's keys alone. */
  predicate Fair(op: Op) {
    op.Foreign? && op.mail.key.Some? ==> !(KEY_PREFIX <= op.mail.key.value)
  }

  predicate Looks(op: Op, id: string) {
    op.Find? && op.ready && op.answered && op.id == id
  }

  predicate Saves(op: Op, id: string) {
    op.Save? && op.ready && op.outcome != Lost && op.task.id == id
  }

  /** The operation at `at` asks the broker to delete what a lookup of `id` found. */
  predicate Drops(ops: seq<Op>, at: nat, id: string) {
    at < |ops| && ops[at].Drop? && ops[at].outcome != Lost && ops[at].found < at && Looks(ops[ops[at].found], id)
  }

  function BoxAfter(ops: seq<Op>): Box
    decreases |ops|
  {
    if ops == [] then EMPTY
    else
      var n := |ops| - 1;
      var box := BoxAfter(ops[..n]);
      match ops[n]
      case Save(ready, task, outcome) => Saved(box, ready, task, outcome)
      case Find(_, _, _) => box
      case Drop(f, outcome) =>
        if f < n && ops[f].Find? && Drops(ops, n, ops[f].id)
        then Deleted(box, ByKey(BoxAfter(ops[..f]), Key(ops[f].id)))
        else box
      case Foreign(mail) => Put(box, mail)
  }

  predicate SavedSince(ops: seq<Op>, from: nat, id: string) {
    exists i :: from <= i < |ops| && Saves(ops[i], id)
  }

  /** The save at `at` is the last one of its task, and no lookup made after it led to a delete. */
  predicate Stands(ops: seq<Op>, at: nat, id: string) {
    && at < |ops|
    && Saves(ops[at], id)
    && !SavedSince(ops, at + 1, id)
    && forall j :: at < j < |ops| && Drops(ops, j, id) ==> ops[j].found < at
  }

  // ---------------------------------------------------------------- what every operation keeps

  predicate Older(log: seq<Message>, m: Message) {
    forall e :: e in log ==> e.id < m.id && (e.mail.key.None? || e.mail.key != m.mail.key)
  }

  /** Ids increase, and no key occurs twice. */
  predicate Ordered(log: seq<Message>) {
    log == [] || (Ordered(log[..|log| - 1]) && Older(log[..|log| - 1], log[|log| - 1]))
  }

  predicate Proper(m: Message) {
    m.mail.key.Some? && KEY_PREFIX <= m.mail.key.value ==>
      m.mail.body.TaskJson? && Key(m.mail.body.task.id) == m.mail.key.value
  }

  predicate Sound(box: Box) {
    && Ordered(box.log)
    && forall m :: m in box.log ==> m.id < box.next && Proper(m)
  }

  lemma {:induction false} WithoutKeeps(log: seq<Message>, key: Option<string>, m: Message)
    ensures m in Without(log, key) <==> m in log && (key.None? || m.mail.key != key)
  {
    if log != [] {
      WithoutKeeps(log[..|log| - 1], key, m);
    }
  }

  lemma {:induction false} DiscardKeeps(log: seq<Message>, id: nat, m: Message)
    ensures m in Discard(log, id) <==> m in log && m.id != id
  {
    if log != [] {
      DiscardKeeps(log[..|log| - 1], id, m);
    }
  }

  lemma {:induction false} WithoutOrdered(log: seq<Message>, key: Option<string>)
    requires Ordered(log)
    ensures Ordered(Without(log, key))
  {
    if log != [] && key.Some? {
      var n := |log| - 1;
      WithoutOrdered(log[..n], key);
      var w := Without(log[..n], key);
      forall e | e in w ensures e in log[..n] {
        WithoutKeeps(log[..n], key, e);
      }
      assert w + [] == w && (w + [log[n]])[..|w|] == w;
    }
  }

  lemma {:induction false} DiscardOrdered(log: seq<Message>, id: nat)
    requires Ordered(log)
    ensures Ordered(Discard(log, id))
  {
    if log != [] {
      var n := |log| - 1;
      DiscardOrdered(log[..n], id);
      var w := Discard(log[..n], id);
      forall e | e in w ensures e in log[..n] {
        DiscardKeeps(log[..n], id, e);
      }
      assert w + [] == w && (w + [log[n]])[..|w|] == w;
    }
  }

  lemma PutMembers(box: Box, mail: Mail, m: Message)
    ensures m in Put(box, mail).log <==>
            m == Message(box.next, mail) || (m in box.log && (mail.key.None? || m.mail.key != mail.key))
  {
    WithoutKeeps(box.log, mail.key, m);
  }

  lemma PutSound(box: Box, mail: Mail)
    requires Sound(box) && Proper(Message(box.next, mail))
    ensures Sound(Put(box, mail))
  {
    hide Proper;
    WithoutOrdered(box.log, mail.key);
    var w := Without(box.log, mail.key);
    forall m ensures m in w <==> m in box.log && (mail.key.None? || m.mail.key != mail.key) {
      WithoutKeeps(box.log, mail.key, m);
    }
    assert (w + [Message(box.next, mail)])[..|w|] == w;
  }

  lemma DeletedSound(box: Box, msgs: seq<Message>)
    requires Sound(box)
    ensures Sound(Deleted(box, msgs))
  {
    hide Proper;
    if msgs != [] {
      DiscardOrdered(box.log, msgs[0].id);
      forall m ensures m in Discard(box.log, msgs[0].id) ==> m in box.log {
        DiscardKeeps(box.log, msgs[0].id, m);
      }
    }
  }

  predicate AllFair(ops: seq<Op>) {
    forall op :: op in ops ==> Fair(op)
  }

  lemma {:induction false} RunSound(ops: seq<Op>)
    requires AllFair(ops)
    ensures Sound(BoxAfter(ops))
  {
    if ops != [] {
      var n := |ops| - 1;
      RunSound(ops[..n]);
      var box := BoxAfter(ops[..n]);
      assert Fair(ops[n]);
      hide Sound;
      match ops[n]
      case Save(_, task, _) => PutSound(box, TaskMail(task));
      case Find(_, _, _) =>
      case Drop(f, _) =>
        if f < n && ops[f].Find? {
          DeletedSound(box, ByKey(BoxAfter(ops[..f]), Key(ops[f].id)));
        }
      case Foreign(mail) => PutSound(box, mail);
    }
  }

  // ---------------------------------------------------------------- queries under the invariant

  lemma {:induction false} LatestIsStored(log: seq<Message>, key: string, m: Message)
    requires Ordered(log)
    ensures Latest(log, key) == Some(m) <==> m in log && m.mail.key == Some(key)
  {
    if log != [] {
      LatestIsStored(log[..|log| - 1], key, m);
    }
  }

  lemma {:induction false} IdsDiffer(log: seq<Message>, m: Message, e: Message)
    requires Ordered(log) && m in log && e in log && m.id == e.id
    ensures m == e
  {
    var n := |log| - 1;
    if m != log[n] && e != log[n] {
      IdsDiffer(log[..n], m, e);
    }
  }

  /** What a mailbox gained after some point has ids from then on, and nothing older comes back. */
  lemma {:induction false} OlderWasThere(ops: seq<Op>, p: nat, m: Message)
    requires p <= |ops| && m in BoxAfter(ops).log
    ensures m in BoxAfter(ops[..p]).log || BoxAfter(ops[..p]).next <= m.id
  {
    if p == |ops| {
      assert ops[..p] == ops;
    } else {
      var n := |ops| - 1;
      assert ops[..n][..p] == ops[..p];
      NextGrows(ops[..n], p);
      StepMembers(ops, m);
      if m in BoxAfter(ops[..n]).log {
        OlderWasThere(ops[..n], p, m);
      }
    }
  }

  lemma {:induction false} NextGrows(ops: seq<Op>, p: nat)
    requires p <= |ops|
    ensures BoxAfter(ops[..p]).next <= BoxAfter(ops).next
  {
    if p == |ops| {
      assert ops[..p] == ops;
    } else {
      assert ops[..|ops| - 1][..p] == ops[..p];
      NextGrows(ops[..|ops| - 1], p);
    }
  }

  /** What one operation adds to a mailbox. */
  lemma StepMembers(ops: seq<Op>, m: Message)
    requires ops != [] && m in BoxAfter(ops).log
    ensures var box := BoxAfter(ops[..|ops| - 1]);
            m in box.log || (m.id == box.next && ((ops[|ops| - 1].Foreign? && ops[|ops| - 1].mail == m.mail) ||
              (ops[|ops| - 1].Save? && Saves(ops[|ops| - 1], ops[|ops| - 1].task.id)
               && m.mail == TaskMail(ops[|ops| - 1].task))))
  {
    var n := |ops| - 1;
    var box := BoxAfter(ops[..n]);
    match ops[n]
    case Save(_, task, _) => PutMembers(box, TaskMail(task), m);
    case Find(_, _, _) =>
    case Drop(f, _) =>
      if f < n && ops[f].Find? && Drops(ops, n, ops[f].id) {
        var msgs := ByKey(BoxAfter(ops[..f]), Key(ops[f].id));
        if msgs != [] {
          DiscardKeeps(box.log, msgs[0].id, m);
        }
      }
    case Foreign(mail) => PutMembers(box, mail, m);
  }

  /** A task's message that a lookup could see is gone or unchanged while no save of that task intervenes. */
  lemma {:induction false} OnlySavesAdd(ops: seq<Op>, p: nat, m: Message, id: string)
    requires AllFair(ops) && p <= |ops| && m in BoxAfter(ops).log && m.mail.key == Some(Key(id))
    requires !SavedSince(ops, p, id)
    ensures m in BoxAfter(ops[..p]).log
  {
    if p == |ops| {
      assert ops[..p] == ops;
    } else {
      var n := |ops| - 1;
      assert ops[..n][..p] == ops[..p];
      assert Fair(ops[n]) && !Saves(ops[n], id);
      StepMembers(ops, m);
      KeysDiffer(ops[n], m, id);
      assert forall i :: p <= i < n ==> ops[..n][i] == ops[i];
      OnlySavesAdd(ops[..n], p, m, id);
    }
  }

  lemma KeyInjective(a: string, b: string)
    ensures KEY_PREFIX <= Key(a)
    ensures Key(a) == Key(b) ==> a == b
  {
    assert Key(a)[|KEY_PREFIX|..] == a && Key(b)[|KEY_PREFIX|..] == b;
  }

  lemma KeysDiffer(op: Op, m: Message, id: string)
    requires Fair(op) && m.mail.key == Some(Key(id))
    ensures op.Foreign? ==> op.mail != m.mail
    ensures op.Save? && m.mail == TaskMail(op.task) ==> op.task.id == id
  {
    KeyInjective(id, id);
    if op.Save? {
      KeyInjective(op.task.id, id);
    }
  }

  /** After a save of a task, its message is younger than anything an earlier lookup could see. */
  lemma {:induction false} SavedIsYounger(ops: seq<Op>, p: nat, m: Message, id: string)
    requires AllFair(ops) && p <= |ops| && m in BoxAfter(ops).log && m.mail.key == Some(Key(id))
    requires SavedSince(ops, p, id)
    ensures BoxAfter(ops[..p]).next <= m.id
  {
    var n := |ops| - 1;
    assert ops[..n][..p] == ops[..p];
    NextGrows(ops[..n], p);
    StepMembers(ops, m);
    if m in BoxAfter(ops[..n]).log {
      if Saves(ops[n], id) {
        SaveReplaces(ops, m);
      } else {
        var i :| p <= i < |ops| && Saves(ops[i], id);
        assert Saves(ops[..n][i], id);
        SavedIsYounger(ops[..n], p, m, id);
      }
    }
  }

  /** A save replaces the message that had its key. */
  lemma SaveReplaces(ops: seq<Op>, m: Message)
    requires ops != [] && m in BoxAfter(ops).log
    requires ops[|ops| - 1].Save? && Saves(ops[|ops| - 1], ops[|ops| - 1].task.id)
    requires m.mail.key == Some(Key(ops[|ops| - 1].task.id))
    ensures m.id == BoxAfter(ops[..|ops| - 1]).next
  {
    PutMembers(BoxAfter(ops[..|ops| - 1]), TaskMail(ops[|ops| - 1].task), m);
  }

  // ---------------------------------------------------------------- the store is a map

  /** The place of the save that a read of `id` shows. */
  function Standing(ops: seq<Op>, id: string): Option<nat>
    decreases |ops|
  {
    if ops == [] then None
    else
      var n := |ops| - 1;
      var before := Standing(ops[..n], id);
      if Saves(ops[n], id) then Some(n)
      else if before.Some? && Drops(ops, n, id) && ops[n].found > before.value then None
      else before
  }

  lemma {:induction false} StandingStands(ops: seq<Op>, i: nat, id: string)
    ensures Standing(ops, id) == Some(i) <==> Stands(ops, i, id)
  {
    if ops != [] {
      var n := |ops| - 1;
      StandingStands(ops[..n], i, id);
      if i < n {
        assert forall j :: i <= j < n ==> ops[..n][j] == ops[j];
        assert forall j :: i <= j < n ==> (Drops(ops[..n], j, id) <==> Drops(ops, j, id));
        if Stands(ops[..n], i, id) && !Saves(ops[n], id) {
          assert !SavedSince(ops, i + 1, id);
        }
        if Stands(ops, i, id) {
          assert !Saves(ops[n], id);
          assert !SavedSince(ops[..n], i + 1, id);
        }
      } else {
        assert Standing(ops[..n], id) != Some(i);
      }
    }
  }

  lemma LatestAfterPut(box: Box, mail: Mail, key: string)
    requires Sound(box) && Proper(Message(box.next, mail))
    ensures Latest(Put(box, mail).log, key) ==
            if mail.key == Some(key) then Some(Message(box.next, mail)) else Latest(box.log, key)
  {
    PutSound(box, mail);
    var result := Put(box, mail);
    hide Put;
    hide Latest;
    hide Ordered;
    hide Proper;
    PutMembers(box, mail, Message(box.next, mail));
    LatestIsStored(result.log, key, Message(box.next, mail));
    if Latest(box.log, key).Some? {
      var m := Latest(box.log, key).value;
      LatestIsStored(box.log, key, m);
      PutMembers(box, mail, m);
      LatestIsStored(result.log, key, m);
    }
    if Latest(result.log, key).Some? {
      var m := Latest(result.log, key).value;
      LatestIsStored(result.log, key, m);
      PutMembers(box, mail, m);
      LatestIsStored(box.log, key, m);
    }
  }

  lemma LatestAfterDelete(box: Box, m: Message, key: string)
    requires Sound(box)
    ensures var was := Latest(box.log, key);
            Latest(Deleted(box, [m]).log, key) == if was.Some? && was.value.id == m.id then None else was
  {
    DeletedSound(box, [m]);
    var result := Deleted(box, [m]);
    var was, now := Latest(box.log, key), Latest(result.log, key);
    hide Latest;
    hide Ordered;
    hide Proper;
    if was.Some? {
      LatestIsStored(box.log, key, was.value);
      DiscardKeeps(box.log, m.id, was.value);
      LatestIsStored(result.log, key, was.value);
    }
    if now.Some? {
      LatestIsStored(result.log, key, now.value);
      DiscardKeeps(box.log, m.id, now.value);
      LatestIsStored(box.log, key, now.value);
    }
  }

  /** The message a store would read for a task. */
  function Entry(ops: seq<Op>, id: string): Option<Message> {
    Latest(BoxAfter(ops).log, Key(id))
  }

  /** What a delete does to the entry of any task: it takes effect if the task was not saved since its lookup. */
  lemma DropEffect(ops: seq<Op>, id: string)
    requires AllFair(ops) && ops != [] && ops[|ops| - 1].Drop?
    ensures var n := |ops| - 1;
            Entry(ops, id) ==
              if Drops(ops, n, id) && !SavedSince(ops[..n], ops[n].found, id) then None else Entry(ops[..n], id)
  {
    var n, f := |ops| - 1, ops[|ops| - 1].found;
    if f < n && ops[f].Find? && Drops(ops, n, ops[f].id) {
      DropFound(ops, id);
    }
  }

  lemma DropFound(ops: seq<Op>, id: string)
    requires AllFair(ops) && ops != [] && ops[|ops| - 1].Drop?
    requires ops[|ops| - 1].found < |ops| - 1 && ops[ops[|ops| - 1].found].Find?
    requires Drops(ops, |ops| - 1, ops[ops[|ops| - 1].found].id)
    ensures var n := |ops| - 1;
            Entry(ops, id) ==
              if Drops(ops, n, id) && !SavedSince(ops[..n], ops[n].found, id) then None else Entry(ops[..n], id)
  {
    var n, f := |ops| - 1, ops[|ops| - 1].found;
    var was, seen := Entry(ops[..n], id), Entry(ops[..f], ops[f].id);
    assert ops[..n][..f] == ops[..f];
    RunSound(ops[..n]);
    RunSound(ops[..f]);
    if seen.Some? {
      LatestIsStored(BoxAfter(ops[..f]).log, Key(ops[f].id), seen.value);
      LatestAfterDelete(BoxAfter(ops[..n]), seen.value, Key(id));
    }
    if was.Some? {
      WasSeen(ops, id, was.value);
    }
  }

  /** The entry a delete meets is the one its lookup saw exactly when it is of that task and was not saved since. */
  lemma WasSeen(ops: seq<Op>, id: string, was: Message)
    requires AllFair(ops) && ops != [] && ops[|ops| - 1].Drop?
    requires ops[|ops| - 1].found < |ops| - 1 && ops[ops[|ops| - 1].found].Find?
    requires Entry(ops[..|ops| - 1], id) == Some(was)
    ensures var n, f := |ops| - 1, ops[|ops| - 1].found;
            var seen := Entry(ops[..f], ops[f].id);
            (seen.Some? && seen.value.id == was.id) <==> (ops[f].id == id && !SavedSince(ops[..n], f, id))
  {
    var n, f := |ops| - 1, ops[|ops| - 1].found;
    var seen := Entry(ops[..f], ops[f].id);
    assert ops[..n][..f] == ops[..f];
    RunSound(ops[..n]);
    RunSound(ops[..f]);
    LatestIsStored(BoxAfter(ops[..n]).log, Key(id), was);
    OlderWasThere(ops[..n], f, was);
    KeyInjective(ops[f].id, id);
    if seen.Some? {
      LatestIsStored(BoxAfter(ops[..f]).log, Key(ops[f].id), seen.value);
      if seen.value.id == was.id {
        IdsDiffer(BoxAfter(ops[..f]).log, seen.value, was);
      }
    }
    if SavedSince(ops[..n], f, id) {
      SavedIsYounger(ops[..n], f, was, id);
    } else {
      OnlySavesAdd(ops[..n], f, was, id);
      LatestIsStored(BoxAfter(ops[..f]).log, Key(id), was);
    }
  }

  lemma {:induction false} EntryIsStanding(ops: seq<Op>, id: string)
    requires AllFair(ops)
    ensures Entry(ops, id).Some? <==> Standing(ops, id).Some?
    ensures var i := Standing(ops, id);
            i.Some? ==> (i.value < |ops| && Saves(ops[i.value], id) && Entry(ops, id).value.mail == TaskMail(ops[i.value].task))
  {
    if ops != [] {
      var n := |ops| - 1;
      EntryIsStanding(ops[..n], id);
      if ops[n].Drop? {
        DropEffect(ops, id);
        if Standing(ops[..n], id).Some? {
          StandingStands(ops[..n], Standing(ops[..n], id).value, id);
        }
      } else {
        EntryAfterOther(ops, id);
      }
    }
  }

  lemma EntryAfterOther(ops: seq<Op>, id: string)
    requires AllFair(ops) && ops != [] && !ops[|ops| - 1].Drop?
    ensures var op := ops[|ops| - 1];
            if Saves(op, id) then Entry(ops, id).Some? && Entry(ops, id).value.mail == TaskMail(op.task)
            else Entry(ops, id) == Entry(ops[..|ops| - 1], id)
  {
    var n := |ops| - 1;
    var box := BoxAfter(ops[..n]);
    RunSound(ops[..n]);
    KeyInjective(id, id);
    assert Fair(ops[n]);
    match ops[n]
    case Save(_, task, _) =>
      KeyInjective(task.id, id);
      LatestAfterPut(box, TaskMail(task), Key(id));
    case Find(_, _, _) =>
    case Foreign(mail) => LatestAfterPut(box, mail, Key(id));
  }

  /** A read returns the last task saved under its id, unless a delete whose lookup came after that save took effect;
      so a save that falls between the two requests of a delete survives it. */
  lemma ReadsLastSave(ops: seq<Op>, id: string, task: Task)
    requires AllFair(ops)
    ensures Got(BoxAfter(ops), id) == Some(task) <==> exists i: nat :: Stands(ops, i, id) && ops[i].task == task
  {
    EntryIsStanding(ops, id);
    if Standing(ops, id).Some? {
      StandingStands(ops, Standing(ops, id).value, id);
    }
    if i: nat :| Stands(ops, i, id) && ops[i].task == task {
      StandingStands(ops, i, id);
    }
  }

  /** Operations on other tasks, lookups, and foreign mail do not disturb a task. */
  lemma {:induction false} Undisturbed(ops: seq<Op>, p: nat, id: string)
    requires AllFair(ops) && p <= |ops|
    requires forall j: nat :: p <= j < |ops| ==> !Saves(ops[j], id) && !Drops(ops, j, id)
    ensures Entry(ops, id) == Entry(ops[..p], id)
    ensures Got(BoxAfter(ops), id) == Got(BoxAfter(ops[..p]), id)
  {
    if p == |ops| {
      assert ops[..p] == ops;
    } else {
      var n := |ops| - 1;
      assert ops[..n][..p] == ops[..p];
      assert forall j: nat :: p <= j < n ==> ops[..n][j] == ops[j] && (Drops(ops[..n], j, id) <==> Drops(ops, j, id));
      Undisturbed(ops[..n], p, id);
      if ops[n].Drop? {
        DropEffect(ops, id);
      } else {
        EntryAfterOther(ops, id);
      }
    }
  }

  // ---------------------------------------------------------------- one operation at a time

  /** A save changes what is read under its task's id and nothing else; mail with no key of the store changes nothing. */
  lemma PutUpdates(box: Box, mail: Mail, id: string)
    requires Sound(box) && Proper(Message(box.next, mail))
    ensures Got(Put(box, mail), id) == if mail.key == Some(Key(id)) then ParseTask(mail.body) else Got(box, id)
  {
    LatestAfterPut(box, mail, Key(id));
  }

  /** An undisturbed delete removes the task under its id and nothing else. */
  lemma DeleteRemoves(box: Box, id: string, other: string)
    requires Sound(box)
    ensures Got(Deleted(box, ByKey(box, Key(id))), other) == if other == id then None else Got(box, other)
  {
    if Latest(box.log, Key(id)).Some? {
      var m := Latest(box.log, Key(id)).value;
      LatestAfterDelete(box, m, Key(other));
      LatestIsStored(box.log, Key(id), m);
      if Latest(box.log, Key(other)).Some? {
        var e := Latest(box.log, Key(other)).value;
        LatestIsStored(box.log, Key(other), e);
        if m.id == e.id {
          IdsDiffer(box.log, m, e);
          KeyInjective(id, other);
        }
      }
    }
  }

  /** The `Delete` of a store is a lookup and, right after it, its delete. */
  lemma {:induction false} DeleteIsTwoRequests(ops: seq<Op>, ready: bool, id: string, answered: bool, outcome: Outcome)
    ensures BoxAfter(ops + [Find(ready, id, answered), Drop(|ops|, outcome)]) ==
            if ready && answered && outcome != Lost then Deleted(BoxAfter(ops), ByKey(BoxAfter(ops), Key(id)))
            else BoxAfter(ops)
  {
    var find, drop := Find(ready, id, answered), Drop(|ops|, outcome);
    var all := ops + [find, drop];
    assert all[..|ops| + 1] == ops + [find] && (ops + [find])[..|ops|] == ops && all[..|ops|] == ops;
    assert BoxAfter(ops + [find]) == BoxAfter(ops);
    assert all[|ops|] == find && all[|ops| + 1] == drop;
  }

  // ---------------------------------------------------------------- the list

  /** Whatever parses as a task is the store's own. */
  predicate OwnTasks(log: seq<Message>) {
    forall m :: m in log && m.mail.body.TaskJson? ==> m.mail == TaskMail(m.mail.body.task)
  }

  predicate Holds(log: seq<Message>, task: Task) {
    exists m :: m in log && m.mail == TaskMail(task)
  }

  lemma {:induction false} ParsedOnce(log: seq<Message>, task: Task)
    requires Ordered(log) && OwnTasks(log)
    ensures multiset(Parsed(log))[task] == if Holds(log, task) then 1 else 0
  {
    if log != [] {
      var n := |log| - 1;
      ParsedOnce(log[..n], task);
      assert forall m :: m in log <==> m in log[..n] || m == log[n];
      assert log[n] in log;
      if log[n].mail == TaskMail(task) {
        assert !Holds(log[..n], task);
      }
    }
  }

  lemma RunOwnTasks(ops: seq<Op>)
    requires forall op :: op in ops ==> Fair(op) && (op.Foreign? ==> !op.mail.body.TaskJson?)
    ensures OwnTasks(BoxAfter(ops).log)
  {
    if ops != [] {
      RunOwnTasks(ops[..|ops| - 1]);
      forall m | m in BoxAfter(ops).log && m.mail.body.TaskJson? ensures m.mail == TaskMail(m.mail.body.task) {
        StepMembers(ops, m);
      }
    }
  }

  lemma HoldsIsGot(box: Box, task: Task)
    requires Sound(box)
    ensures Holds(box.log, task) ==> Got(box, task.id) == Some(task)
    ensures OwnTasks(box.log) && Got(box, task.id) == Some(task) ==> Holds(box.log, task)
  {
    var key := Key(task.id);
    if m :| m in box.log && m.mail == TaskMail(task) {
      LatestIsStored(box.log, key, m);
    }
    if Latest(box.log, key).Some? {
      LatestIsStored(box.log, key, Latest(box.log, key).value);
    }
  }

  /** When the mailbox holds no more messages than the limit and no other sender's mail parses as a task, a list returns
      every stored task exactly once and nothing else. */
  lemma ListsEachOnce(ops: seq<Op>, limit: nat, task: Task)
    requires forall op :: op in ops ==> Fair(op) && (op.Foreign? ==> !op.mail.body.TaskJson?)
    requires |BoxAfter(ops).log| <= limit
    ensures multiset(Parsed(Recent(BoxAfter(ops), limit)))[task] ==
            if Got(BoxAfter(ops), task.id) == Some(task) then 1 else 0
  {
    RunSound(ops);
    RunOwnTasks(ops);
    ParsedOnce(BoxAfter(ops).log, task);
    HoldsIsGot(BoxAfter(ops), task);
  }

  /** How many messages are too old for a list with a limit. */
  function Cut(box: Box, limit: nat): (n: nat)
    ensures n <= |box.log|
  {
    if |box.log| <= limit then 0 else |box.log| - limit
  }

  /** A store has written the message. */
  predicate OfStore(m: Message) {
    m.mail.key.Some? && KEY_PREFIX <= m.mail.key.value
  }

  predicate Shows(log: seq<Message>, body: Body) {
    exists m :: m in log && m.mail.body == body
  }

  predicate Complete(box: Box, limit: nat, task: Task) {
    Got(box, task.id) == Some(task) ==> task in Parsed(Recent(box, limit))
  }

  lemma {:induction false} ParsedAre(log: seq<Message>, task: Task)
    ensures task in Parsed(log) <==> Shows(log, TaskJson(task))
  {
    if log != [] {
      var n := |log| - 1;
      ParsedAre(log[..n], task);
      assert forall m :: m in log <==> m in log[..n] || m == log[n];
    }
  }

  /** What a read returns is the body of a message that a store has written, and the other way round. */
  lemma GotIsWritten(box: Box, task: Task)
    requires Sound(box)
    ensures Got(box, task.id) == Some(task) <==>
            exists m :: m in box.log && OfStore(m) && m.mail.body == TaskJson(task)
  {
    var key := Key(task.id);
    KeyInjective(task.id, task.id);
    if m :| m in box.log && OfStore(m) && m.mail.body == TaskJson(task) {
      LatestIsStored(box.log, key, m);
    }
    if Latest(box.log, key).Some? {
      LatestIsStored(box.log, key, Latest(box.log, key).value);
    }
  }

  /** In any mailbox that stores share with other senders, a list is complete exactly when every task message of a store
      that is too old for the limit has a copy among the messages that are not. */
  lemma {:induction false} ListIsCompleteExactly(ops: seq<Op>, limit: nat)
    requires AllFair(ops)
    ensures var box := BoxAfter(ops);
            var cut := Cut(box, limit);
            (forall task :: Complete(box, limit, task)) <==>
            forall i: nat :: i < cut && OfStore(box.log[i]) ==> Shows(box.log[cut..], box.log[i].mail.body)
  {
    RunSound(ops);
    hide *;
    CompleteExactly(BoxAfter(ops), limit);
  }

  lemma {:induction false} CompleteExactly(box: Box, limit: nat)
    requires Sound(box)
    ensures var cut := Cut(box, limit);
            (forall task :: Complete(box, limit, task)) <==>
            forall i: nat :: i < cut && OfStore(box.log[i]) ==> Shows(box.log[cut..], box.log[i].mail.body)
  {
    var cut := Cut(box, limit);
    if forall task :: Complete(box, limit, task) {
      forall i: nat | i < cut && OfStore(box.log[i]) ensures Shows(box.log[cut..], box.log[i].mail.body) {
        OldIsShown(box, limit, i);
      }
    }
    if forall i: nat :: i < cut && OfStore(box.log[i]) ==> Shows(box.log[cut..], box.log[i].mail.body) {
      forall task ensures Complete(box, limit, task) {
        WrittenIsListed(box, limit, task);
      }
    }
  }

  lemma OldIsShown(box: Box, limit: nat, i: nat)
    requires Sound(box) && i < Cut(box, limit) && OfStore(box.log[i])
    requires forall task :: Complete(box, limit, task)
    ensures Shows(box.log[Cut(box, limit)..], box.log[i].mail.body)
  {
    hide Got;
    hide Parsed;
    hide Ordered;
    assert box.log[i] in box.log && Proper(box.log[i]);
    var task := box.log[i].mail.body.task;
    GotIsWritten(box, task);
    assert Complete(box, limit, task);
    ParsedAre(Recent(box, limit), task);
  }

  lemma WrittenIsListed(box: Box, limit: nat, task: Task)
    requires Sound(box)
    requires forall i: nat :: i < Cut(box, limit) && OfStore(box.log[i]) ==>
               Shows(box.log[Cut(box, limit)..], box.log[i].mail.body)
    ensures Complete(box, limit, task)
  {
    hide Got;
    hide Parsed;
    hide Ordered;
    hide OfStore;
    GotIsWritten(box, task);
    ParsedAre(Recent(box, limit), task);
    var cut := Cut(box, limit);
    if m :| m in box.log && OfStore(m) && m.mail.body == TaskJson(task) {
      var i :| 0 <= i < |box.log| && box.log[i] == m;
      if i >= cut {
        assert box.log[cut..][i - cut] == m;
      }
    }
  }

  /** With a limit that covers the mailbox a list is complete, whatever other senders put there. */
  lemma {:induction false} ListHoldsStored(ops: seq<Op>, limit: nat, task: Task)
    requires AllFair(ops) && |BoxAfter(ops).log| <= limit
    ensures Got(BoxAfter(ops), task.id) == Some(task) ==> task in Parsed(Recent(BoxAfter(ops), limit))
  {
    hide BoxAfter;
    ListIsCompleteExactly(ops, limit);
    assert Complete(BoxAfter(ops), limit, task);
  }

  // ---------------------------------------------------------------- when no other mail parses as a task

  lemma {:induction false} IdsIncrease(log: seq<Message>, i: nat, j: nat)
    requires Ordered(log) && i < j < |log|
    ensures log[i].id < log[j].id
  {
    var n := |log| - 1;
    if j < n {
      IdsIncrease(log[..n], i, j);
    } else {
      assert log[i] == log[..n][i];
    }
  }

  /** A store's message has no second copy. */
  lemma NotShownLater(log: seq<Message>, k: nat, i: nat)
    requires Ordered(log) && OwnTasks(log) && i < k <= |log|
    requires log[i].mail.body.TaskJson?
    ensures !Shows(log[k..], log[i].mail.body)
  {
    hide Ordered;
    var task := log[i].mail.body.task;
    assert log[i] in log;
    if m :| m in log[k..] && m.mail.body == log[i].mail.body {
      var j :| k <= j < |log| && log[j] == m;
      LatestIsStored(log, Key(task.id), m);
      LatestIsStored(log, Key(task.id), log[i]);
      IdsIncrease(log, i, j);
    }
  }

  /** When no other sender's mail parses as a task, a list is complete exactly when no message too old for the limit holds
      a task. */
  lemma {:induction false} ListOfOwnExactly(ops: seq<Op>, limit: nat)
    requires forall op :: op in ops ==> Fair(op) && (op.Foreign? ==> !op.mail.body.TaskJson?)
    ensures var box := BoxAfter(ops);
            (forall task :: Complete(box, limit, task)) <==>
            forall i: nat :: i < Cut(box, limit) ==> !box.log[i].mail.body.TaskJson?
  {
    var box := BoxAfter(ops);
    var cut := Cut(box, limit);
    RunSound(ops);
    RunOwnTasks(ops);
    ListIsCompleteExactly(ops, limit);
    hide Complete;
    hide BoxAfter;
    hide Ordered;
    hide Shows;
    forall i: nat | i < cut
      ensures (OfStore(box.log[i]) ==> box.log[i].mail.body.TaskJson?)
      ensures box.log[i].mail.body.TaskJson? ==> OfStore(box.log[i]) && !Shows(box.log[cut..], box.log[i].mail.body)
    {
      assert box.log[i] in box.log && Proper(box.log[i]);
      if box.log[i].mail.body.TaskJson? {
        KeyInjective(box.log[i].mail.body.task.id, "");
        NotShownLater(box.log, cut, i);
      }
    }
  }

  lemma {:induction false} AllAreTasks(ops: seq<Op>, m: Message)
    requires (forall op :: op in ops ==> !op.Foreign?) && m in BoxAfter(ops).log
    ensures m.mail.body.TaskJson?
  {
    StepMembers(ops, m);
    if m in BoxAfter(ops[..|ops| - 1]).log {
      AllAreTasks(ops[..|ops| - 1], m);
    }
  }

  /** In a mailbox that only stores write to, a list is complete exactly when the limit is at least the number of stored
      tasks. */
  lemma {:induction false} ListOfStoresExactly(ops: seq<Op>, limit: nat)
    requires forall op :: op in ops ==> !op.Foreign?
    ensures (forall task :: Complete(BoxAfter(ops), limit, task)) <==> |BoxAfter(ops).log| <= limit
  {
    hide Complete;
    ListOfOwnExactly(ops, limit);
    var box := BoxAfter(ops);
    if |box.log| > limit {
      AllAreTasks(ops, box.log[0]);
    }
  }

  /** One keyless mail is enough to push a stored task out of a list that is as long as the tasks are many. */
  lemma ForeignMailHidesTask(task: Task, text: string)
    ensures var mail := Mail(None, Normal, false, Opaque(text));
            var box := BoxAfter([Save(true, task, Done), Foreign(mail)]);
            && AllFair([Save(true, task, Done), Foreign(mail)])
            && Got(box, task.id) == Some(task) && task !in Parsed(Recent(box, 1))
  {
    var mail := Mail(None, Normal, false, Opaque(text));
    var ops := [Save(true, task, Done), Foreign(mail)];
    ReadsLastSave(ops, task.id, task);
    assert Stands(ops, 0, task.id);
    assert BoxAfter(ops).log == BoxAfter(ops[..1]).log + [Message(BoxAfter(ops[..1]).next, mail)];
    ParsedAre(Recent(BoxAfter(ops), 1), task);
  }

  // ---------------------------------------------------------------- a list after a run

  /** Every stored task is among these. */
  ghost predicate AllStored(box: Box, tasks: seq<Task>) {
    forall task: Task :: Got(box, task.id) == Some(task) ==> task in tasks
  }

  /** The same body stands among the last messages. */
  predicate CopiedLater(log: seq<Message>, i: nat, size: nat)
    requires i < |log|
  {
    exists j: nat :: |log| - size <= j < |log| && log[j].mail.body == log[i].mail.body
  }

  /** What a list with a page size returns after any run of stores and other senders: it is complete exactly when every task
      message of a store before the last `pageSize` messages, or the last 100, has a copy among those; always when the
      mailbox holds no more than that; and only then when no one else writes to it. Then, and when no other mail parses as a
      task, every stored task is there exactly once and nothing else is. */
  method ListAfterRun(store: Store, pageSize: int, ghost ops: seq<Op>) returns (tasks: seq<Task>)
    requires store.ready && store.mailbox in store.mq9.boxes
    requires AllFair(ops) && store.mq9.boxes[store.mailbox] == BoxAfter(ops)
    ensures var box, size := BoxAfter(ops), if pageSize > 0 then pageSize else 100;
            && (AllStored(box, tasks) <==>
                  forall i: nat :: i < |box.log| - size && OfStore(box.log[i]) ==> CopiedLater(box.log, i, size))
            && (|box.log| <= size ==> AllStored(box, tasks))
            && ((forall op :: op in ops ==> !op.Foreign?) ==> (AllStored(box, tasks) <==> |box.log| <= size))
            && (|box.log| <= size && (forall op :: op in ops && op.Foreign? ==> !op.mail.body.TaskJson?) ==>
                  forall task: Task :: multiset(tasks)[task] == if Got(box, task.id) == Some(task) then 1 else 0)
  {
    tasks := store.List(pageSize, true);
    ghost var box, size := BoxAfter(ops), if pageSize > 0 then pageSize else 100;
    assert tasks == Parsed(Recent(box, size));
    hide *;
    PageIsComplete(ops, size, tasks);
    PageOnce(ops, size, tasks);
  }

  lemma {:induction false} PageIsComplete(ops: seq<Op>, size: nat, tasks: seq<Task>)
    requires AllFair(ops) && tasks == Parsed(Recent(BoxAfter(ops), size))
    ensures var box := BoxAfter(ops);
            && (AllStored(box, tasks) <==>
                  forall i: nat :: i < |box.log| - size && OfStore(box.log[i]) ==> CopiedLater(box.log, i, size))
            && (|box.log| <= size ==> AllStored(box, tasks))
            && ((forall op :: op in ops ==> !op.Foreign?) ==> (AllStored(box, tasks) <==> |box.log| <= size))
  {
    hide BoxAfter;
    hide AllFair;
    hide Parsed;
    hide Recent;
    hide Got;
    hide OfStore;
    var box := BoxAfter(ops);
    ListIsCompleteExactly(ops, size);
    if forall op :: op in ops ==> !op.Foreign? {
      ListOfStoresExactly(ops, size);
    }
    assert AllStored(box, tasks) <==> forall task :: Complete(box, size, task) by {
      if AllStored(box, tasks) {
        forall task ensures Complete(box, size, task) {
        }
      }
      if forall task :: Complete(box, size, task) {
        forall task: Task | Got(box, task.id) == Some(task) ensures task in tasks {
          assert Complete(box, size, task);
        }
      }
    }
    forall i: nat | i < Cut(box, size)
      ensures Shows(box.log[Cut(box, size)..], box.log[i].mail.body) <==> CopiedLater(box.log, i, size) {
      ShowsIsCopied(box, size, i);
    }
  }

  lemma ShowsIsCopied(box: Box, size: nat, i: nat)
    requires i < Cut(box, size)
    ensures Shows(box.log[Cut(box, size)..], box.log[i].mail.body) <==> CopiedLater(box.log, i, size)
  {
    var cut := Cut(box, size);
    if CopiedLater(box.log, i, size) {
      var j: nat :| |box.log| - size <= j < |box.log| && box.log[j].mail.body == box.log[i].mail.body;
      assert box.log[cut..][j - cut] == box.log[j];
    }
  }

  lemma PageOnce(ops: seq<Op>, size: nat, tasks: seq<Task>)
    requires AllFair(ops) && tasks == Parsed(Recent(BoxAfter(ops), size))
    ensures |BoxAfter(ops).log| <= size && (forall op :: op in ops && op.Foreign? ==> !op.mail.body.TaskJson?) ==>
              forall task: Task :: multiset(tasks)[task] == if Got(BoxAfter(ops), task.id) == Some(task) then 1 else 0
  {
    hide BoxAfter;
    hide Parsed;
    hide Recent;
    hide Got;
    if |BoxAfter(ops).log| <= size && (forall op :: op in ops && op.Foreign? ==> !op.mail.body.TaskJson?) {
      forall task: Task
        ensures multiset(tasks)[task] == if Got(BoxAfter(ops), task.id) == Some(task) then 1 else 0
      {
        ListsEachOnce(ops, size, task);
      }
    }
  }
}
