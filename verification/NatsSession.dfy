/** The fake NATS server session: a reader of length-framed commands, a subscription table, and a writer of MSG
    frames. `Commands` and `Answered` say what the loop of `Session` computes on any input; the lemmas say that well
    formed frames are read back exactly and that a client reads back exactly what the session wrote. */
module NatsSession {
  import opened Text
  import SubjectMatch
  import Utf8

  const CRLF := "\r\n"
  const USIZE := 0x1_0000_0000_0000_0000
  const DEFAULT_SID := "1"

  // ---------------------------------------------------------------- reading bytes

  /** One line with its line feed, or what is left at the end of the stream. */
  function LineLength(input: string): (n: nat)
    ensures n <= |input| && (input != "" ==> n > 0)
  {
    var i := IndexOf(input, '\n');
    if i < |input| then i + 1 else i
  }

  function TrimLineEnd(s: string): (t: string)
    ensures |t| <= |s|
  {
    if s != "" && (s[|s| - 1] == '\r' || s[|s| - 1] == '\n') then TrimLineEnd(s[..|s| - 1]) else s
  }

  predicate IsSpace(c: char) {
    c == ' ' || 9 <= c as int <= 13
  }

  function TrimLeft(s: string): string {
    if s != "" && IsSpace(s[0]) then TrimLeft(s[1..]) else s
  }

  function TrimRight(s: string): string {
    if s != "" && IsSpace(s[|s| - 1]) then TrimRight(s[..|s| - 1]) else s
  }

  /** `trim().parse::<usize>().unwrap_or(0)`: an optional plus sign and digits that fit in 64 bits, else 0. */
  function ParseLength(text: string): (n: nat) {
    var t := TrimRight(TrimLeft(text));
    var d := if t != "" && t[0] == '+' then t[1..] else t;
    if d != "" && AllDigits(d) && DigitsValue(d) < USIZE then DigitsValue(d) else 0
  }

  function Zeros(n: nat): (z: string)
    ensures |z| == n
  {
    seq(n, _ => '\0')
  }

  /** Fills a zeroed buffer of `n` bytes; a stream that ends early leaves the rest of the buffer zero. */
  function Exact(input: string, n: nat): (buf: string)
    ensures |buf| == n
  {
    if n <= |input| then input[..n] else input + Zeros(n - |input|)
  }

  function After(input: string, n: nat): (rest: string)
    ensures |rest| <= |input|
  {
    if n <= |input| then input[n..] else ""
  }

  // ---------------------------------------------------------------- commands

  /** What one line, with the body that follows it, asks of the server. An empty reply means none was given. */
  datatype Command =
    | Ping
    | Nothing
    | Subscribe(subject: string, sid: string)
    | Publish(subject: string, reply: string, payload: string)

  function PubBody(subject: string, reply: string, count: string, rest: string): (Command, string) {
    var n := ParseLength(count);
    (Publish(subject, reply, Exact(rest, n)), After(After(rest, n), 2))
  }

  function PubOf(parts: seq<string>, rest: string): (Command, string) {
    if |parts| < 3 then (Nothing, rest)
    else if |parts| == 4 then PubBody(parts[1], parts[2], parts[3], rest)
    else PubBody(parts[1], "", parts[2], rest)
  }

  /** The header section is counted in the total length and is thrown away. */
  function HpubBody(subject: string, reply: string, hdrText: string, totalText: string, rest: string)
    : (Command, string)
  {
    var hdr, total := ParseLength(hdrText), ParseLength(totalText);
    var n := if total >= hdr then total - hdr else 0;
    (Publish(subject, reply, Exact(After(rest, hdr), n)), After(After(After(rest, hdr), n), 2))
  }

  function HpubOf(parts: seq<string>, rest: string): (Command, string) {
    if |parts| < 4 then (Nothing, rest)
    else if |parts| == 5 then HpubBody(parts[1], parts[2], parts[3], parts[4], rest)
    else HpubBody(parts[1], "", parts[2], parts[3], rest)
  }

  /** The command a line stands for and the stream after its body. */
  function CommandOf(line: string, rest: string): (r: (Command, string))
    ensures |r.1| <= |rest|
  {
    var parts := SplitN(TrimLineEnd(line), 5, ' ');
    var cmd := parts[0];
    if cmd == "PING" then (Ping, rest)
    else if cmd == "SUB" then
      (if |parts| >= 3 then Subscribe(parts[1], parts[|parts| - 1]) else Nothing, rest)
    else if cmd == "PUB" then PubOf(parts, rest)
    else if cmd == "HPUB" then HpubOf(parts, rest)
    else (Nothing, rest)
  }

  /** The session stops at the end of the stream and at a line that is not UTF-8. */
  predicate Ends(input: string) {
    input == "" || !Utf8.Valid(input[..LineLength(input)])
  }

  /** Every command of a stream, in order. */
  function Commands(input: string): seq<Command>
    decreases |input|
  {
    if Ends(input) then []
    else
      var n := LineLength(input);
      var (c, rest) := CommandOf(input[..n], input[n..]);
      [c] + Commands(rest)
  }

  /** The stream after the CONNECT line and the first PING that follows it; None when it ends before. */
  function AfterHandshake(input: string, connected: bool): (r: Option<string>)
    ensures r.Some? ==> |r.value| <= |input|
    decreases |input|
  {
    if Ends(input) then None
    else
      var n := LineLength(input);
      var t := TrimLineEnd(input[..n]);
      if "CONNECT" <= t then AfterHandshake(input[n..], true)
      else if t == "PING" && connected then Some(input[n..])
      else AfterHandshake(input[n..], connected)
  }

  // ---------------------------------------------------------------- answers

  /** What the server writes after the handshake. */
  datatype Reply = Pong | Msg(subject: string, sid: string, payload: string)

  /** What the handler is called with; the first part counts the earlier calls, so it may keep state. */
  type Handler = (nat, string, string) -> string

  datatype Request = Request(subject: string, payload: string)

  predicate AsksReply(c: Command) {
    c.Publish? && c.reply != ""
  }

  function Last<T>(s: seq<T>): T
    requires s != []
  {
    s[|s| - 1]
  }

  function Init<T>(s: seq<T>): seq<T>
    requires s != []
  {
    s[..|s| - 1]
  }

  /** The publications that carry a reply subject, in order: exactly these reach the handler. */
  function Asking(cs: seq<Command>): (r: seq<Command>)
    ensures forall i :: 0 <= i < |r| ==> AsksReply(r[i])
  {
    if cs == [] then [] else Asking(Init(cs)) + if AsksReply(Last(cs)) then [Last(cs)] else []
  }

  function Requests(cs: seq<Command>): seq<Request> {
    var a := Asking(cs);
    seq(|a|, i requires 0 <= i < |a| => Request(a[i].subject, a[i].payload))
  }

  /** The table after some commands: sid to pattern, a later SUB replacing an earlier one. */
  function Subscribed(cs: seq<Command>): map<string, string> {
    if cs == [] then map[]
    else
      var m := Subscribed(Init(cs));
      match Last(cs)
      case Subscribe(subject, sid) => m[sid := subject]
      case _ => m
  }

  /** The sid of an answer is one of a subscription that covers the reply subject, or the default when none does. */
  predicate Eligible(subs: map<string, string>, reply: string, sid: string) {
    SubjectMatch.Covers(subs, sid, reply) ||
    (sid == DEFAULT_SID && forall s :: s in subs ==> !SubjectMatch.Covers(subs, s, reply))
  }

  /** What one command makes the server write, when `n` requests went to the handler before. */
  ghost predicate Reaction(handler: Handler, n: nat, subs: map<string, string>, c: Command, sent: seq<Reply>) {
    if c.Ping? then sent == [Pong]
    else if AsksReply(c) then
      |sent| == 1 && sent[0].Msg?
      && sent[0].subject == c.reply
      && sent[0].payload == handler(n, c.subject, c.payload)
      && Eligible(subs, c.reply, sent[0].sid)
    else sent == []
  }

  /** These replies answer these commands. */
  ghost predicate Answered(handler: Handler, cs: seq<Command>, rs: seq<Reply>)
    decreases |cs|
  {
    if cs == [] then rs == []
    else
      var k := if Last(cs).Ping? || AsksReply(Last(cs)) then 1 else 0;
      k <= |rs|
      && Reaction(handler, |Asking(Init(cs))|, Subscribed(Init(cs)), Last(cs), rs[|rs| - k..])
      && Answered(handler, Init(cs), rs[..|rs| - k])
  }

  lemma AnsweredGrow(handler: Handler, cs: seq<Command>, rs: seq<Reply>, c: Command, sent: seq<Reply>)
    requires Answered(handler, cs, rs)
    requires Reaction(handler, |Asking(cs)|, Subscribed(cs), c, sent)
    ensures Answered(handler, cs + [c], rs + sent)
  {
  }

  function Render(r: Reply): string {
    match r
    case Pong => "PONG" + CRLF
    case Msg(subject, sid, payload) =>
      "MSG " + subject + " " + sid + " " + Decimal(|payload|) + CRLF + payload + CRLF
  }

  function RenderAll(rs: seq<Reply>): string {
    if rs == [] then "" else RenderAll(Init(rs)) + Render(Last(rs))
  }

  // ---------------------------------------------------------------- the session

  class Session {
    const handler: Handler
    var input: string
    var output: string
    var subscriptions: map<string, string>
    var calls: seq<Request>

    constructor (handler: Handler, input: string)
      ensures this.handler == handler && this.input == input
      ensures output == "" && subscriptions == map[] && calls == []
    {
      this.handler := handler;
      this.input := input;
      output, subscriptions, calls := "", map[], [];
    }

    method Write(bytes: string)
      modifies this`output
      ensures output == old(output) + bytes
    {
      output := output + bytes;
    }

    /** None at the end of the stream and after a line that is not UTF-8. */
    method ReadLine() returns (line: Option<string>)
      modifies this`input
      ensures line.None? <==> Ends(old(input))
      ensures line.Some? ==> var n := LineLength(old(input));
                             line.value == old(input)[..n] && input == old(input)[n..]
    {
      var n := LineLength(input);
      var bytes := input[..n];
      input := input[n..];
      line := if bytes == "" || !Utf8.Valid(bytes) then None else Some(bytes);
    }

    method ReadExact(n: nat) returns (buf: string)
      modifies this`input
      ensures buf == Exact(old(input), n) && input == After(old(input), n)
    {
      buf := Exact(input, n);
      input := After(input, n);
    }

    /** Hands a request to the handler and writes its answer. */
    method Respond(subject: string, reply: string, payload: string) returns (ghost sent: Reply)
      modifies this`output, this`calls
      ensures calls == old(calls) + [Request(subject, payload)]
      ensures sent.Msg? && sent.subject == reply && sent.payload == handler(|old(calls)|, subject, payload)
      ensures Eligible(subscriptions, reply, sent.sid)
      ensures output == old(output) + Render(sent)
    {
      hide SubjectMatch.Denotes;
      hide Decimal;
      var resp := handler(|calls|, subject, payload);
      calls := calls + [Request(subject, payload)];
      var found := SubjectMatch.FindSidFor(subscriptions, reply);
      var sid := if found.Some? then found.value else DEFAULT_SID;
      sent := Msg(reply, sid, resp);
      ghost var before := output;
      var header := "MSG " + reply + " " + sid + " " + Decimal(|resp|) + CRLF;
      Write(header);
      Write(resp);
      Write(CRLF);
      assert Render(sent) == header + resp + CRLF;
      assert output == before + (header + resp + CRLF);
    }

    /** The common end of PUB and HPUB. */
    method Published(subject: string, reply: string, payload: string) returns (ghost sent: seq<Reply>)
      modifies this`output, this`calls
      ensures Reaction(handler, |old(calls)|, subscriptions, Publish(subject, reply, payload), sent)
      ensures calls == old(calls) + if reply != "" then [Request(subject, payload)] else []
      ensures output == old(output) + RenderAll(sent)
    {
      sent := [];
      if reply != "" {
        ghost var m := Respond(subject, reply, payload);
        sent := [m];
        RenderOne(m);
      }
    }

    method ReadPub(subject: string, reply: string, count: string) returns (payload: string)
      modifies this`input
      ensures (Publish(subject, reply, payload), input) == PubBody(subject, reply, count, old(input))
    {
      hide ParseLength;
      hide Exact;
      hide After;
      payload := ReadExact(ParseLength(count));
      var crlf := ReadExact(2);
    }

    method ReadHpub(subject: string, reply: string, hdrText: string, totalText: string) returns (payload: string)
      modifies this`input
      ensures (Publish(subject, reply, payload), input) == HpubBody(subject, reply, hdrText, totalText, old(input))
    {
      hide ParseLength;
      hide Exact;
      hide After;
      var hdrLen := ParseLength(hdrText);
      var totalLen := ParseLength(totalText);
      var payloadLen := if totalLen >= hdrLen then totalLen - hdrLen else 0;
      var headers := ReadExact(hdrLen);
      payload := ReadExact(payloadLen);
      var crlf := ReadExact(2);
    }

    method ServePub(parts: seq<string>) returns (ghost c: Command, ghost sent: seq<Reply>)
      modifies this`input, this`output, this`calls
      ensures (c, input) == PubOf(parts, old(input))
      ensures Reaction(handler, |old(calls)|, subscriptions, c, sent)
      ensures calls == old(calls) + if AsksReply(c) then [Request(c.subject, c.payload)] else []
      ensures output == old(output) + RenderAll(sent)
    {
      QuietReactions(handler, |calls|, subscriptions);
      hide Reaction;
      hide RenderAll;
      hide PubBody;
      c, sent := Nothing, [];
      if |parts| < 3 {
        return;
      }
      var subject, reply, count := parts[1], "", parts[2];
      if |parts| == 4 {
        reply, count := parts[2], parts[3];
      }
      var payload := ReadPub(subject, reply, count);
      c := Publish(subject, reply, payload);
      sent := Published(subject, reply, payload);
    }

    method ServeHpub(parts: seq<string>) returns (ghost c: Command, ghost sent: seq<Reply>)
      modifies this`input, this`output, this`calls
      ensures (c, input) == HpubOf(parts, old(input))
      ensures Reaction(handler, |old(calls)|, subscriptions, c, sent)
      ensures calls == old(calls) + if AsksReply(c) then [Request(c.subject, c.payload)] else []
      ensures output == old(output) + RenderAll(sent)
    {
      QuietReactions(handler, |calls|, subscriptions);
      hide Reaction;
      hide RenderAll;
      hide HpubBody;
      c, sent := Nothing, [];
      if |parts| < 4 {
        return;
      }
      var subject, reply, hdrText, totalText := parts[1], "", parts[2], parts[3];
      if |parts| == 5 {
        reply, hdrText, totalText := parts[2], parts[3], parts[4];
      }
      var payload := ReadHpub(subject, reply, hdrText, totalText);
      c := Publish(subject, reply, payload);
      sent := Published(subject, reply, payload);
    }

    method Handshake() returns (ok: bool)
      modifies this`input, this`output
      ensures ok <==> AfterHandshake(old(input), false).Some?
      ensures ok ==> AfterHandshake(old(input), false) == Some(input) && output == old(output) + Render(Pong)
      ensures !ok ==> output == old(output)
    {
      var connected := false;
      while true
        invariant output == old(output)
        invariant AfterHandshake(old(input), false) == AfterHandshake(input, connected)
        decreases |input|
      {
        var line := ReadLine();
        if line.None? {
          return false;
        }
        var t := TrimLineEnd(line.value);
        if "CONNECT" <= t {
          connected := true;
        } else if t == "PING" && connected {
          Write("PONG" + CRLF);
          return true;
        }
      }
      ok := false;
    }

    /** Acts on one line and on the body that follows it. */
    method Serve(line: string) returns (ghost c: Command, ghost sent: seq<Reply>)
      modifies this`input, this`output, this`subscriptions, this`calls
      ensures (c, input) == CommandOf(line, old(input))
      ensures Reaction(handler, |old(calls)|, old(subscriptions), c, sent)
      ensures calls == old(calls) + if AsksReply(c) then [Request(c.subject, c.payload)] else []
      ensures subscriptions == if c.Subscribe? then old(subscriptions)[c.sid := c.subject] else old(subscriptions)
      ensures output == old(output) + RenderAll(sent)
    {
      QuietReactions(handler, |calls|, subscriptions);
      RenderOne(Pong);
      hide Reaction;
      hide RenderAll;
      hide PubOf;
      hide HpubOf;
      hide SplitN;
      hide TrimLineEnd;
      c, sent := Nothing, [];
      var parts := SplitN(TrimLineEnd(line), 5, ' ');
      var cmd := parts[0];
      if cmd == "PING" {
        c, sent := Ping, [Pong];
        Write("PONG" + CRLF);
      } else if cmd == "SUB" {
        if |parts| >= 3 {
          c := Subscribe(parts[1], parts[|parts| - 1]);
          subscriptions := subscriptions[parts[|parts| - 1] := parts[1]];
        }
      } else if cmd == "PUB" {
        c, sent := ServePub(parts);
      } else if cmd == "HPUB" {
        c, sent := ServeHpub(parts);
      }
    }

    /** The main loop, up to the end of the stream. */
    method Loop() returns (ghost replies: seq<Reply>)
      requires subscriptions == map[] && calls == []
      modifies this`input, this`output, this`subscriptions, this`calls
      ensures calls == Requests(Commands(old(input))) && subscriptions == Subscribed(Commands(old(input)))
      ensures Answered(handler, Commands(old(input)), replies)
      ensures output == old(output) + RenderAll(replies)
    {
      hide *;
      replies := [];
      ghost var seen: seq<Command> := [];
      NothingYet(handler, input);
      while true
        invariant Commands(old(input)) == seen + Commands(input)
        invariant calls == Requests(seen) && subscriptions == Subscribed(seen)
        invariant Answered(handler, seen, replies)
        invariant output == old(output) + RenderAll(replies)
        decreases |input|
      {
        ghost var was := input;
        var line := ReadLine();
        if line.None? {
          NothingYet(handler, was);
          assert Commands(old(input)) == seen;
          return;
        }
        ghost var c, sent := Serve(line.value);
        CommandsStep(was);
        Grow(handler, seen, replies, c, sent);
        seen, replies := seen + [c], replies + sent;
      }
    }

    /** The whole session. On every input the handler is called for exactly the publications that carry a reply, and the
        bytes written after the greeting are exactly one answer to each of them and to each PING. */
    method Run(info: string) returns (ghost replies: seq<Reply>)
      requires output == "" && subscriptions == map[] && calls == []
      modifies this
      ensures var body := AfterHandshake(old(input), false);
              if body.None? then output == info + CRLF && calls == [] && replies == []
              else
                && calls == Requests(Commands(body.value))
                && subscriptions == Subscribed(Commands(body.value))
                && Answered(handler, Commands(body.value), replies)
                && output == info + CRLF + Render(Pong) + RenderAll(replies)
    {
      hide *;
      replies := [];
      Write(info + CRLF);
      var ok := Handshake();
      if ok {
        replies := Loop();
      }
    }
  }

  lemma NothingYet(handler: Handler, input: string)
    ensures Requests([]) == [] && Subscribed([]) == map[] && Answered(handler, [], []) && RenderAll([]) == ""
    ensures Ends(input) ==> Commands(input) == []
  {
  }

  lemma CommandsStep(input: string)
    requires !Ends(input)
    ensures var n := LineLength(input);
            var r := CommandOf(input[..n], input[n..]);
            Commands(input) == [r.0] + Commands(r.1)
  {
  }

  lemma Grow(handler: Handler, cs: seq<Command>, rs: seq<Reply>, c: Command, sent: seq<Reply>)
    requires Answered(handler, cs, rs)
    requires Reaction(handler, |Requests(cs)|, Subscribed(cs), c, sent)
    ensures Answered(handler, cs + [c], rs + sent)
    ensures Requests(cs + [c]) == Requests(cs) + if AsksReply(c) then [Request(c.subject, c.payload)] else []
    ensures Subscribed(cs + [c]) == if c.Subscribe? then Subscribed(cs)[c.sid := c.subject] else Subscribed(cs)
    ensures RenderAll(rs + sent) == RenderAll(rs) + RenderAll(sent)
  {
    RequestsGrow(cs, c);
    SubscribedGrow(cs, c);
    AnsweredGrow(handler, cs, rs, c, sent);
    RenderGrow(rs, sent);
  }

  lemma SubscribedGrow(cs: seq<Command>, c: Command)
    ensures Subscribed(cs + [c]) == if c.Subscribe? then Subscribed(cs)[c.sid := c.subject] else Subscribed(cs)
  {
  }

  lemma RenderGrow(rs: seq<Reply>, sent: seq<Reply>)
    requires |sent| <= 1
    ensures RenderAll(rs + sent) == RenderAll(rs) + RenderAll(sent)
  {
    if sent == [] {
      assert rs + sent == rs;
    } else {
      assert Init(rs + sent) == rs && Last(rs + sent) == sent[0];
      assert sent == [sent[0]];
      RenderOne(sent[0]);
    }
  }

  /** What commands that ask for nothing, and a PING, make the server write. */
  lemma QuietReactions(handler: Handler, n: nat, subs: map<string, string>)
    ensures RenderAll([]) == ""
    ensures Reaction(handler, n, subs, Nothing, [])
    ensures Reaction(handler, n, subs, Ping, [Pong])
    ensures forall subject, sid :: Reaction(handler, n, subs, Subscribe(subject, sid), [])
  {
  }

  lemma RenderOne(r: Reply)
    ensures RenderAll([r]) == Render(r)
  {
  }

  lemma RequestsGrow(cs: seq<Command>, c: Command)
    ensures Requests(cs + [c]) == Requests(cs) + if AsksReply(c) then [Request(c.subject, c.payload)] else []
    ensures |Requests(cs)| == |Asking(cs)|
  {
  }
}
