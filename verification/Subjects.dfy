/** The NATS subjects of the protocol's operations, as every SDK builds them. */
module Subjects {
  import opened Text
  import opened SubjectMatch

  /** The operations on a mailbox that carry its address in the subject. */
  datatype Verb = Send | Fetch | Ack | Query

  datatype Operation =
    | MailboxCreate
    | OnMailbox(verb: Verb, address: string)
    | Delete(address: string, msgId: int)
    | AgentRegister
    | AgentUnregister
    | AgentReport
    | AgentDiscover

  const HEAD := "$mq9.AI.MSG."

  function VerbText(v: Verb): string {
    match v
    case Send => "SEND"
    case Fetch => "FETCH"
    case Ack => "ACK"
    case Query => "QUERY"
  }

  /** A subject that names no mailbox. */
  function Plain(group: string, action: string): string {
    "$mq9.AI." + group + "." + action
  }

  predicate NamesMailbox(op: Operation) {
    op.OnMailbox? || op.Delete?
  }

  function Group(op: Operation): string
    requires !NamesMailbox(op)
  {
    if op.MailboxCreate? then "MAILBOX" else "AGENT"
  }

  function Action(op: Operation): string
    requires !NamesMailbox(op)
  {
    match op
    case MailboxCreate => "CREATE"
    case AgentRegister => "REGISTER"
    case AgentUnregister => "UNREGISTER"
    case AgentReport => "REPORT"
    case AgentDiscover => "DISCOVER"
  }

  function Subject(op: Operation): string {
    match op
    case OnMailbox(verb, address) => HEAD + VerbText(verb) + "." + address
    case Delete(address, msgId) => HEAD + "DELETE" + "." + address + "." + SignedDecimal(msgId)
    case _ => Plain(Group(op), Action(op))
  }

  // ---------------------------------------------------------------- reading a subject

  /** The position of the last `c`, or the length when there is none. */
  function LastIndexOf(s: string, c: char): (i: nat)
    ensures i <= |s|
    ensures i < |s| ==> s[i] == c
  {
    if s == "" then 0
    else if s[|s| - 1] == c then |s| - 1
    else
      var i := LastIndexOf(s[..|s| - 1], c);
      if i == |s| - 1 then |s| else i
  }

  lemma {:induction false} LastIndexBefore(head: string, c: char, tail: string)
    requires c !in tail
    ensures LastIndexOf(head + [c] + tail, c) == |head|
    decreases |tail|
  {
    var s := head + [c] + tail;
    if tail != "" {
      assert tail[|tail| - 1] in tail;
      assert s[..|s| - 1] == head + [c] + tail[..|tail| - 1];
      LastIndexBefore(head, c, tail[..|tail| - 1]);
    }
  }

  /** The part of a DELETE subject after the verb, cut at its last dot. */
  function ReadDelete(arg: string): Option<Operation> {
    var i := LastIndexOf(arg, '.');
    if i == |arg| then None
    else
      match ParseSigned(arg[i + 1..])
      case Some(id) => Some(Delete(arg[..i], id))
      case None => None
  }

  function ReadVerb(verb: string, arg: string): Option<Operation> {
    if verb == "SEND" then Some(OnMailbox(Send, arg))
    else if verb == "FETCH" then Some(OnMailbox(Fetch, arg))
    else if verb == "ACK" then Some(OnMailbox(Ack, arg))
    else if verb == "QUERY" then Some(OnMailbox(Query, arg))
    else if verb == "DELETE" then ReadDelete(arg)
    else None
  }

  /** What a message subject asks for: the word after the head, and the rest. */
  function ReadMessage(s: string): Option<Operation>
    requires HEAD <= s
  {
    var rest := s[|HEAD|..];
    var i := IndexOf(rest, '.');
    if i == |rest| then None else ReadVerb(rest[..i], rest[i + 1..])
  }

  function Read(s: string): Option<Operation> {
    if HEAD <= s then ReadMessage(s)
    else if s == Subject(MailboxCreate) then Some(MailboxCreate)
    else if s == Subject(AgentRegister) then Some(AgentRegister)
    else if s == Subject(AgentUnregister) then Some(AgentUnregister)
    else if s == Subject(AgentReport) then Some(AgentReport)
    else if s == Subject(AgentDiscover) then Some(AgentDiscover)
    else None
  }

  lemma VerbTaken(verb: string, arg: string)
    requires '.' !in verb
    ensures var s := HEAD + verb + "." + arg; HEAD <= s && ReadMessage(s) == ReadVerb(verb, arg)
  {
    hide ReadVerb;
    var s := HEAD + verb + "." + arg;
    IndexOfAfter(verb, '.', arg);
    var rest := verb + ['.'] + arg;
    assert s == HEAD + rest;
    assert s[|HEAD|..] == rest;
    assert rest[..|verb|] == verb && rest[|verb| + 1..] == arg;
  }

  lemma DeleteTaken(address: string, msgId: int)
    ensures ReadDelete(address + "." + SignedDecimal(msgId)) == Some(Delete(address, msgId))
  {
    var id := SignedDecimal(msgId);
    var arg := address + ['.'] + id;
    LastIndexBefore(address, '.', id);
    assert arg[|address| + 1..] == id && arg[..|address|] == address;
    SignedDecimalParses(msgId);
  }

  /** Every subject tells its operation, with any address, dotted or not, and any id: DELETE at its last dot. */
  lemma SubjectReadsBack(op: Operation)
    ensures Read(Subject(op)) == Some(op)
  {
    hide *;
    match op {
      case OnMailbox(verb, address) => VerbReadsBack(verb, address);
      case Delete(address, msgId) => DeleteReadsBack(address, msgId);
      case _ =>
        NamesMailboxCases(op);
        FixedReadsBack(op);
    }
  }

  lemma NamesMailboxCases(op: Operation)
    ensures NamesMailbox(op) <==> op.OnMailbox? || op.Delete?
  {
  }

  lemma VerbReadsBack(verb: Verb, address: string)
    ensures Read(Subject(OnMailbox(verb, address))) == Some(OnMailbox(verb, address))
  {
    hide ReadMessage;
    hide ReadDelete;
    VerbTaken(VerbText(verb), address);
  }

  lemma DeleteReadsBack(address: string, msgId: int)
    ensures Read(Subject(Delete(address, msgId))) == Some(Delete(address, msgId))
  {
    hide ReadMessage;
    hide ReadDelete;
    hide SignedDecimal;
    var arg := address + "." + SignedDecimal(msgId);
    VerbTaken("DELETE", arg);
    DeleteTaken(address, msgId);
    assert Subject(Delete(address, msgId)) == HEAD + "DELETE" + "." + arg;
  }

  lemma FixedReadsBack(op: Operation)
    requires !NamesMailbox(op)
    ensures Read(Subject(op)) == Some(op)
  {
    hide ReadMessage;
    hide Subject;
    NotUnderHead(op);
    PlainDiffers(op, MailboxCreate);
    PlainDiffers(op, AgentRegister);
    PlainDiffers(op, AgentUnregister);
    PlainDiffers(op, AgentReport);
  }

  lemma NotUnderHead(op: Operation)
    requires !NamesMailbox(op)
    ensures !(HEAD <= Subject(op))
  {
    assert HEAD[8] == 'M' && HEAD[9] == 'S';
    assert Subject(op)[8] == Group(op)[0] && Subject(op)[9] == Group(op)[1];
  }

  lemma PlainDiffers(a: Operation, b: Operation)
    requires !NamesMailbox(a) && !NamesMailbox(b)
    ensures Subject(a) == Subject(b) ==> a == b
  {
    FixedTokens(a);
    FixedTokens(b);
    hide Split;
    hide Subject;
  }

  /** No two operations share a subject. */
  lemma SubjectInjective(a: Operation, b: Operation)
    ensures Subject(a) == Subject(b) <==> a == b
  {
    hide *;
    SubjectReadsBack(a);
    SubjectReadsBack(b);
  }

  // ---------------------------------------------------------------- subjects and wildcards

  lemma SplitCons(t: string, c: char, rest: string)
    requires c !in t
    ensures Split(t + [c] + rest, c) == [t] + Split(rest, c)
  {
    IndexOfAfter(t, c, rest);
    var s := t + [c] + rest;
    assert s[..|t|] == t && s[|t| + 1..] == rest;
  }

  /** The tokens of a message subject: three fixed ones, the verb, and those of the rest. */
  lemma MessageTokens(verb: string, arg: string)
    requires '.' !in verb
    ensures Split(HEAD + verb + "." + arg, '.') == ["$mq9", "AI", "MSG", verb] + Split(arg, '.')
  {
    hide Split;
    SplitCons(verb, '.', arg);
    var r3 := verb + ['.'] + arg;
    SplitCons("MSG", '.', r3);
    var r2 := "MSG" + ['.'] + r3;
    SplitCons("AI", '.', r2);
    var r1 := "AI" + ['.'] + r2;
    SplitCons("$mq9", '.', r1);
    assert "$mq9" + ['.'] + "AI" + ['.'] + "MSG" + ['.'] == HEAD;
    assert "$mq9" + ['.'] + r1 == HEAD + verb + "." + arg;
  }

  /** The wildcard pattern of a verb. */
  function VerbPattern(v: Verb): string {
    HEAD + VerbText(v) + "." + REST
  }

  lemma VerbTokens(v: Verb, address: string)
    ensures Split(Subject(OnMailbox(v, address)), '.') == ["$mq9", "AI", "MSG", VerbText(v)] + Split(address, '.')
  {
    hide Split;
    MessageTokens(VerbText(v), address);
  }

  lemma PatternTokens(v: Verb)
    ensures Split(VerbPattern(v), '.') == ["$mq9", "AI", "MSG", VerbText(v)] + [REST]
  {
    SplitJoinFree([REST], '.');
    assert Split(REST, '.') == [REST];
    hide Split;
    MessageTokens(VerbText(v), REST);
  }

  /** Listening on the pattern of a verb gets exactly that operation's subjects, of every mailbox. */
  lemma VerbPatternRoutes(v: Verb, op: Operation)
    ensures Denotes(Split(VerbPattern(v), '.'), Split(Subject(op), '.')) <==> op.OnMailbox? && op.verb == v
  {
    hide *;
    PatternTokens(v);
    match op {
      case OnMailbox(verb, address) =>
        VerbTokens(verb, address);
        VerbsDiffer(v, verb);
        FourthDecides(VerbText(v), VerbText(verb), Split(address, '.'));
      case Delete(address, msgId) =>
        var arg := address + "." + SignedDecimal(msgId);
        DeleteTokens(address, msgId);
        VerbsDiffer(v, v);
        FourthDecides(VerbText(v), "DELETE", Split(arg, '.'));
      case _ =>
        NamesMailboxCases(op);
        FixedTokens(op);
        GroupIsNotMsg(op);
        ThirdDecides(VerbText(v), Group(op), Action(op));
    }
  }

  lemma DeleteTokens(address: string, msgId: int)
    ensures var arg := address + "." + SignedDecimal(msgId);
            Split(Subject(Delete(address, msgId)), '.') == ["$mq9", "AI", "MSG", "DELETE"] + Split(arg, '.')
  {
    hide Split;
    hide SignedDecimal;
    var arg := address + "." + SignedDecimal(msgId);
    MessageTokens("DELETE", arg);
    assert Subject(Delete(address, msgId)) == HEAD + "DELETE" + "." + arg;
  }

  lemma OneToken(t: string)
    requires '.' !in t
    ensures Split(t, '.') == [t]
  {
  }

  lemma PlainTokens(group: string, action: string)
    requires '.' !in group && '.' !in action
    ensures Split(Plain(group, action), '.') == ["$mq9", "AI", group, action]
  {
    hide Split;
    OneToken(action);
    SplitCons(group, '.', action);
    var r2 := group + ['.'] + action;
    SplitCons("AI", '.', r2);
    var r1 := "AI" + ['.'] + r2;
    SplitCons("$mq9", '.', r1);
    assert "$mq9" + ['.'] + "AI" + ['.'] == "$mq9.AI.";
    assert "$mq9" + ['.'] + r1 == Plain(group, action);
  }

  /** The tokens of the subjects that name no mailbox. */
  lemma FixedTokens(op: Operation)
    requires !NamesMailbox(op)
    ensures Split(Subject(op), '.') == ["$mq9", "AI", Group(op), Action(op)]
  {
    hide Split;
    hide Plain;
    PlainTokens(Group(op), Action(op));
  }

  lemma GroupIsNotMsg(op: Operation)
    requires !NamesMailbox(op)
    ensures Group(op) != "MSG"
  {
  }

  lemma ThirdDecides(verb: string, mid: string, last: string)
    requires mid != "MSG"
    ensures !Denotes(["$mq9", "AI", "MSG", verb] + [REST], ["$mq9", "AI", mid, last])
  {
    hide Denotes;
    SameHead("$mq9", "AI", "MSG", verb, mid, last, []);
    assert ["$mq9", "AI", mid, last] + [] == ["$mq9", "AI", mid, last];
  }

  lemma FourthDecides(mine: string, theirs: string, more: seq<string>)
    requires mine != ANY && mine != REST && more != []
    ensures Denotes(["$mq9", "AI", "MSG", mine] + [REST], ["$mq9", "AI", "MSG", theirs] + more) <==> mine == theirs
  {
    hide Denotes;
    SameHead("$mq9", "AI", "MSG", mine, "MSG", theirs, more);
    DropFirst(mine, [REST], theirs, more);
    AnyRest(more);
  }

  /** Two equal plain words at the front do not matter, and the third decides when it is plain. */
  lemma SameHead(a: string, b: string, c: string, mine: string, mid: string, theirs: string, more: seq<string>)
    requires a != ANY && a != REST && b != ANY && b != REST && c != ANY && c != REST
    ensures Denotes([a, b, c, mine] + [REST], [a, b, mid, theirs] + more) <==>
            c == mid && Denotes([mine] + [REST], [theirs] + more)
  {
    hide Denotes;
    DropFirst(a, [b, c, mine] + [REST], a, [b, mid, theirs] + more);
    DropFirst(b, [c, mine] + [REST], b, [mid, theirs] + more);
    DropFirst(c, [mine] + [REST], mid, [theirs] + more);
    assert [a, b, c, mine] + [REST] == [a] + ([b, c, mine] + [REST]);
    assert [a, b, mid, theirs] + more == [a] + ([b, mid, theirs] + more);
    assert [b, c, mine] + [REST] == [b] + ([c, mine] + [REST]);
    assert [b, mid, theirs] + more == [b] + ([mid, theirs] + more);
    assert [c, mine] + [REST] == [c] + ([mine] + [REST]);
    assert [mid, theirs] + more == [mid] + ([theirs] + more);
  }

  lemma DropFirst(p: string, pat: seq<string>, t: string, sub: seq<string>)
    requires p != ANY && p != REST
    ensures Denotes([p] + pat, [t] + sub) <==> p == t && Denotes(pat, sub)
  {
  }

  lemma AnyRest(sub: seq<string>)
    ensures Denotes([REST], sub) <==> sub != []
  {
  }

  lemma VerbsDiffer(a: Verb, b: Verb)
    ensures VerbText(a) == VerbText(b) <==> a == b
    ensures VerbText(a) != ANY && VerbText(a) != REST && VerbText(a) != "DELETE"
  {
  }

  /** The subjects letter for letter, as the protocol document lists them. */
  lemma SubjectsSpelled(address: string, msgId: int)
    ensures Subject(MailboxCreate) == "$mq9.AI.MAILBOX.CREATE"
    ensures Subject(OnMailbox(Send, address)) == "$mq9.AI.MSG.SEND." + address
    ensures Subject(OnMailbox(Fetch, address)) == "$mq9.AI.MSG.FETCH." + address
    ensures Subject(OnMailbox(Ack, address)) == "$mq9.AI.MSG.ACK." + address
    ensures Subject(OnMailbox(Query, address)) == "$mq9.AI.MSG.QUERY." + address
    ensures Subject(Delete(address, msgId)) == "$mq9.AI.MSG.DELETE." + address + "." + SignedDecimal(msgId)
    ensures Subject(AgentRegister) == "$mq9.AI.AGENT.REGISTER"
    ensures Subject(AgentUnregister) == "$mq9.AI.AGENT.UNREGISTER"
    ensures Subject(AgentReport) == "$mq9.AI.AGENT.REPORT"
    ensures Subject(AgentDiscover) == "$mq9.AI.AGENT.DISCOVER"
  {
    MessageSubjects(address, msgId);
    PlainSubjects();
  }

  lemma MessageSubjects(address: string, msgId: int)
    ensures Subject(OnMailbox(Send, address)) == "$mq9.AI.MSG.SEND." + address
    ensures Subject(OnMailbox(Fetch, address)) == "$mq9.AI.MSG.FETCH." + address
    ensures Subject(OnMailbox(Ack, address)) == "$mq9.AI.MSG.ACK." + address
    ensures Subject(OnMailbox(Query, address)) == "$mq9.AI.MSG.QUERY." + address
    ensures Subject(Delete(address, msgId)) == "$mq9.AI.MSG.DELETE." + address + "." + SignedDecimal(msgId)
  {
    hide SignedDecimal;
    assert HEAD + "SEND" + "." == "$mq9.AI.MSG.SEND." && HEAD + "FETCH" + "." == "$mq9.AI.MSG.FETCH.";
    assert HEAD + "ACK" + "." == "$mq9.AI.MSG.ACK." && HEAD + "QUERY" + "." == "$mq9.AI.MSG.QUERY.";
    assert HEAD + "DELETE" + "." == "$mq9.AI.MSG.DELETE.";
  }

  lemma PlainSubjects()
    ensures Plain("MAILBOX", "CREATE") == "$mq9.AI.MAILBOX.CREATE"
    ensures Plain("AGENT", "REGISTER") == "$mq9.AI.AGENT.REGISTER"
    ensures Plain("AGENT", "UNREGISTER") == "$mq9.AI.AGENT.UNREGISTER"
    ensures Plain("AGENT", "REPORT") == "$mq9.AI.AGENT.REPORT"
    ensures Plain("AGENT", "DISCOVER") == "$mq9.AI.AGENT.DISCOVER"
  {
  }
}
