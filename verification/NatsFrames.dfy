/** The frames a NATS client sends, and the promises of the session about them: the reader finds exactly their
    boundaries, the handler gets their subject and payload, and the client reads back exactly what was answered. */
module NatsFrames {
  import opened Text
  import opened NatsSession
  import SubjectMatch
  import Utf8

  datatype Frame =
    | FPing
    | FPong
    | FUnsub(sid: string, max: Option<nat>)
    | FSub(subject: string, queue: Option<string>, sid: string)
    | FPub(subject: string, reply: Option<string>, payload: string)
    | FHpub(subject: string, reply: Option<string>, headers: string, payload: string)

  /** A word of a control line, such as a subject, a queue group or a sid: UTF-8 without a space or a line end. */
  predicate Token(t: string) {
    t != "" && ' ' !in t && '\r' !in t && '\n' !in t && Utf8.Valid(t)
  }

  predicate WellFormed(f: Frame) {
    match f
    case FPing => true
    case FPong => true
    case FUnsub(sid, _) => Token(sid)
    case FSub(subject, queue, sid) => Token(subject) && Token(sid) && (queue.Some? ==> Token(queue.value))
    case FPub(subject, reply, payload) =>
      Token(subject) && (reply.Some? ==> Token(reply.value)) && |payload| < USIZE
    case FHpub(subject, reply, headers, payload) =>
      Token(subject) && (reply.Some? ==> Token(reply.value)) && |headers| + |payload| < USIZE
  }

  /** The words of the control line of a frame. */
  function Words(f: Frame): (ws: seq<string>)
    ensures 1 <= |ws| <= 5
  {
    match f
    case FPing => ["PING"]
    case FPong => ["PONG"]
    case FUnsub(sid, None) => ["UNSUB", sid]
    case FUnsub(sid, Some(max)) => ["UNSUB", sid, Decimal(max)]
    case FSub(subject, None, sid) => ["SUB", subject, sid]
    case FSub(subject, Some(queue), sid) => ["SUB", subject, queue, sid]
    case FPub(subject, None, payload) => ["PUB", subject, Decimal(|payload|)]
    case FPub(subject, Some(reply), payload) => ["PUB", subject, reply, Decimal(|payload|)]
    case FHpub(subject, None, headers, payload) =>
      ["HPUB", subject, Decimal(|headers|), Decimal(|headers| + |payload|)]
    case FHpub(subject, Some(reply), headers, payload) =>
      ["HPUB", subject, reply, Decimal(|headers|), Decimal(|headers| + |payload|)]
  }

  function Body(f: Frame): string {
    match f
    case FPub(_, _, payload) => payload + CRLF
    case FHpub(_, _, headers, payload) => headers + payload + CRLF
    case _ => ""
  }

  /** The bytes of a frame on the wire. */
  function Encode(f: Frame): string {
    Join(Words(f), ' ') + CRLF + Body(f)
  }

  function EncodeAll(fs: seq<Frame>): string {
    if fs == [] then "" else Encode(fs[0]) + EncodeAll(fs[1..])
  }

  /** What a frame asks: its headers are not part of it. */
  function Asks(f: Frame): Command {
    match f
    case FPing => Ping
    case FPong => Nothing
    case FUnsub(_, _) => Nothing
    case FSub(subject, _, sid) => Subscribe(subject, sid)
    case FPub(subject, reply, payload) => Publish(subject, if reply.Some? then reply.value else "", payload)
    case FHpub(subject, reply, _, payload) => Publish(subject, if reply.Some? then reply.value else "", payload)
  }

  function AsksAll(fs: seq<Frame>): (cs: seq<Command>)
    ensures |cs| == |fs|
  {
    seq(|fs|, i requires 0 <= i < |fs| => Asks(fs[i]))
  }

  // ---------------------------------------------------------------- control lines

  ghost predicate AllWords(ws: seq<string>) {
    forall i :: 0 <= i < |ws| ==> Token(ws[i])
  }

  lemma DecimalWord(n: nat)
    ensures Token(Decimal(n))
  {
    Utf8.AsciiValid(Decimal(n));
  }

  lemma CapitalsWord(w: string)
    requires w != "" && forall i :: 0 <= i < |w| ==> 'A' <= w[i] <= 'Z'
    ensures Token(w)
  {
    Utf8.AsciiValid(w);
  }

  lemma FrameWords(f: Frame)
    requires WellFormed(f)
    ensures AllWords(Words(f)) && Free(Words(f), ' ')
  {
    hide Utf8.Valid;
    CapitalsWord(Words(f)[0]);
    if f.FUnsub? && f.max.Some? {
      DecimalWord(f.max.value);
    } else if f.FPub? {
      DecimalWord(|f.payload|);
    } else if f.FHpub? {
      DecimalWord(|f.headers|);
      DecimalWord(|f.headers| + |f.payload|);
    }
  }

  /** A line of words holds no line end, is UTF-8 and does not end in one. */
  lemma {:induction false} WordsLine(ws: seq<string>)
    requires ws != [] && AllWords(ws)
    ensures var line := Join(ws, ' ');
            line != "" && '\n' !in line && '\r' !in line && Utf8.Valid(line)
    decreases |ws|
  {
    if |ws| > 1 {
      WordsLine(ws[1..]);
      Utf8.AsciiValid(" ");
      Utf8.ValidAppend(ws[0], " ");
      Utf8.ValidAppend(ws[0] + [' '], Join(ws[1..], ' '));
    }
  }

  lemma TrimLine(line: string)
    requires line != "" && '\r' !in line && '\n' !in line
    ensures TrimLineEnd(line + CRLF) == line
  {
    var s := line + CRLF;
    assert s[..|s| - 1] == line + "\r";
    assert (line + "\r")[..|line|] == line;
    assert line[|line| - 1] in line;
    assert TrimLineEnd(line) == line;
    assert TrimLineEnd(line + "\r") == line;
  }

  /** The reader takes a control line and leaves what follows it. */
  lemma LineTaken(line: string, rest: string)
    requires line != "" && '\r' !in line && '\n' !in line && Utf8.Valid(line)
    ensures var input := line + CRLF + rest;
            !Ends(input)
            && input[..LineLength(input)] == line + CRLF
            && input[LineLength(input)..] == rest
  {
    var input := line + CRLF + rest;
    var t := line + "\r";
    assert input == t + ['\n'] + rest;
    IndexOfAfter(t, '\n', rest);
    assert input[..|t| + 1] == line + CRLF;
    Utf8.AsciiValid(CRLF);
    Utf8.ValidAppend(line, CRLF);
  }

  lemma LengthParses(n: nat)
    requires n < USIZE
    ensures ParseLength(Decimal(n)) == n
  {
    var s := Decimal(n);
    assert IsDigit(s[0]) && IsDigit(s[|s| - 1]);
    assert TrimLeft(s) == s && TrimRight(s) == s;
    DecimalValue(n);
  }

  lemma PayloadTaken(payload: string, rest: string)
    ensures Exact(payload + CRLF + rest, |payload|) == payload
    ensures After(After(payload + CRLF + rest, |payload|), 2) == rest
  {
  }

  // ---------------------------------------------------------------- frames are read back exactly

  lemma PubTaken(f: Frame, rest: string)
    requires WellFormed(f) && f.FPub?
    ensures PubOf(Words(f), Body(f) + rest) == (Asks(f), rest)
  {
    hide ParseLength;
    hide Exact;
    hide After;
    hide Token;
    LengthParses(|f.payload|);
    PayloadTaken(f.payload, rest);
  }

  lemma HpubTaken(f: Frame, rest: string)
    requires WellFormed(f) && f.FHpub?
    ensures HpubOf(Words(f), Body(f) + rest) == (Asks(f), rest)
  {
    hide Token;
    hide ParseLength;
    hide Exact;
    hide After;
    LengthParses(|f.headers|);
    LengthParses(|f.headers| + |f.payload|);
    HeadersSkipped(f.headers, f.payload + CRLF + rest);
    PayloadTaken(f.payload, rest);
    assert Body(f) + rest == f.headers + (f.payload + CRLF + rest);
  }

  lemma HeadersSkipped(headers: string, tail: string)
    ensures After(headers + tail, |headers|) == tail
  {
  }

  /** The command of a control line given its words. */
  lemma WordsCommand(line: string, ws: seq<string>, rest: string)
    requires |ws| > 0 && TrimLineEnd(line + CRLF) == line && SplitN(line, 5, ' ') == ws
    ensures var r := CommandOf(line + CRLF, rest);
            r == if ws[0] == "PING" then (Ping, rest)
                 else if ws[0] == "SUB" then (if |ws| >= 3 then Subscribe(ws[1], ws[|ws| - 1]) else Nothing, rest)
                 else if ws[0] == "PUB" then PubOf(ws, rest)
                 else if ws[0] == "HPUB" then HpubOf(ws, rest)
                 else (Nothing, rest)
  {
  }

  lemma FrameTaken(f: Frame, rest: string)
    requires WellFormed(f)
    ensures Commands(Encode(f) + rest) == [Asks(f)] + Commands(rest)
  {
    hide Token;
    hide CommandOf;
    hide Join;
    hide SplitN;
    hide TrimLineEnd;
    hide Commands;
    hide PubOf;
    hide HpubOf;
    hide LineLength;
    hide Ends;
    var ws := Words(f);
    var line := Join(ws, ' ');
    var input := Encode(f) + rest;
    FrameWords(f);
    WordsLine(ws);
    assert input == line + CRLF + (Body(f) + rest);
    LineTaken(line, Body(f) + rest);
    CommandsStep(input);
    TrimLine(line);
    SplitNJoin(ws, 5, ' ');
    WordsCommand(line, ws, Body(f) + rest);
    match f {
      case FPub(_, _, _) => PubTaken(f, rest);
      case FHpub(_, _, _, _) => HpubTaken(f, rest);
      case _ => assert Body(f) + rest == rest;
    }
  }

  /** Any sequence of well formed frames, with any bytes in their headers and payloads, is read back as exactly those
      frames. */
  lemma {:induction false} FramesReadBack(fs: seq<Frame>)
    requires forall i :: 0 <= i < |fs| ==> WellFormed(fs[i])
    ensures Commands(EncodeAll(fs)) == AsksAll(fs)
    decreases |fs|
  {
    hide *;
    if fs == [] {
      NothingFramed();
    } else {
      FirstFrame(fs);
      FrameTaken(fs[0], EncodeAll(fs[1..]));
      FramesReadBack(fs[1..]);
    }
  }

  lemma NothingFramed()
    ensures Commands(EncodeAll([])) == [] && AsksAll([]) == []
  {
  }

  lemma FirstFrame(fs: seq<Frame>)
    requires fs != []
    ensures EncodeAll(fs) == Encode(fs[0]) + EncodeAll(fs[1..])
    ensures AsksAll(fs) == [Asks(fs[0])] + AsksAll(fs[1..])
  {
    hide Encode;
    hide Asks;
  }

  // ---------------------------------------------------------------- the handshake

  /** The client's first two lines; the options of CONNECT are any text without a line end. */
  function Hello(options: string): string {
    "CONNECT " + options + CRLF + "PING" + CRLF
  }

  lemma {:induction false} HandshakeTaken(options: string, rest: string)
    requires '\r' !in options && '\n' !in options && Utf8.Valid(options)
    ensures AfterHandshake(Hello(options) + rest, false) == Some(rest)
  {
    hide Utf8.Valid;
    hide TrimLineEnd;
    hide LineLength;
    hide Ends;
    var line := "CONNECT " + options;
    Utf8.AsciiValid("CONNECT ");
    Utf8.ValidAppend("CONNECT ", options);
    var tail := "PING" + CRLF + rest;
    var input := Hello(options) + rest;
    assert input == line + CRLF + tail;
    LineTaken(line, tail);
    TrimLine(line);
    assert "CONNECT" <= line;
    assert AfterHandshake(input, false) == AfterHandshake(tail, true);
    CapitalsWord("PING");
    LineTaken("PING", rest);
    TrimLine("PING");
    assert !("CONNECT" <= "PING");
  }

  // ---------------------------------------------------------------- what the client reads

  /** Exactly one answer per asking publication, in the order asked, with its reply subject and the handler's bytes. */
  function Answers(rs: seq<Reply>): (ms: seq<Reply>)
    ensures forall i :: 0 <= i < |ms| ==> ms[i].Msg?
  {
    if rs == [] then [] else Answers(Init(rs)) + if Last(rs).Msg? then [Last(rs)] else []
  }

  lemma {:induction false} OneAnswerEach(handler: Handler, cs: seq<Command>, rs: seq<Reply>)
    requires Answered(handler, cs, rs)
    ensures var asked := Asking(cs);
            var ms := Answers(rs);
            |ms| == |asked| &&
            forall i :: 0 <= i < |ms| ==>
              && ms[i].subject == asked[i].reply
              && ms[i].payload == handler(i, asked[i].subject, asked[i].payload)
    decreases |cs|
  {
    if cs != [] {
      var k := if Last(cs).Ping? || AsksReply(Last(cs)) then 1 else 0;
      OneAnswerEach(handler, Init(cs), rs[..|rs| - k]);
      if k == 1 {
        assert Init(rs) == rs[..|rs| - 1] && rs[|rs| - 1..] == [Last(rs)];
      } else {
        assert rs[..|rs|] == rs;
      }
    }
  }

  /** The client's side: one PONG or MSG frame from the front of what the server wrote. */
  function ReadReply(input: string): (r: Option<(Reply, string)>)
    ensures r.Some? && input != "" ==> |r.value.1| < |input|
  {
    var n := LineLength(input);
    var parts := Split(TrimLineEnd(input[..n]), ' ');
    var rest := input[n..];
    if parts == ["PONG"] then Some((Pong, rest))
    else if |parts| == 4 && parts[0] == "MSG" then
      var size := ParseLength(parts[3]);
      Some((Msg(parts[1], parts[2], Exact(rest, size)), After(After(rest, size), 2)))
    else None
  }

  function ReadReplies(input: string): seq<Reply>
    decreases |input|
  {
    if input == "" then []
    else
      match ReadReply(input)
      case None => []
      case Some((r, rest)) => [r] + ReadReplies(rest)
  }

  /** A reply a client can read: the words of its MSG line are words. */
  predicate Readable(r: Reply) {
    r.Msg? ==> Token(r.subject) && Token(r.sid) && |r.payload| < USIZE
  }

  lemma PongTaken(rest: string)
    ensures ReadReply(Render(Pong) + rest) == Some((Pong, rest))
  {
    hide Utf8.Valid;
    hide TrimLineEnd;
    hide LineLength;
    hide Ends;
    hide Split;
    CapitalsWord("PONG");
    LineTaken("PONG", rest);
    TrimLine("PONG");
    assert Render(Pong) + rest == "PONG" + CRLF + rest;
    assert Split("PONG", ' ') == ["PONG"] by {
      SplitJoinFree(["PONG"], ' ');
    }
  }

  lemma MsgTaken(r: Reply, rest: string)
    requires r.Msg? && Readable(r)
    ensures ReadReply(Render(r) + rest) == Some((r, rest))
  {
    hide *;
    MsgLine(r);
    MsgBytes(r, rest);
    var line, tail := Join(MsgWords(r), ' '), r.payload + CRLF + rest;
    LineTaken(line, tail);
    TrimLine(line);
    LengthParses(|r.payload|);
    PayloadTaken(r.payload, rest);
    MsgRead(r, line, tail, rest);
  }

  /** The words of a MSG line. */
  function MsgWords(r: Reply): seq<string>
    requires r.Msg?
  {
    ["MSG", r.subject, r.sid, Decimal(|r.payload|)]
  }

  lemma MsgLine(r: Reply)
    requires r.Msg? && Readable(r)
    ensures var line := Join(MsgWords(r), ' ');
            line != "" && '\r' !in line && '\n' !in line && Utf8.Valid(line) && Split(line, ' ') == MsgWords(r)
    ensures |r.payload| < USIZE
  {
    hide Utf8.Valid;
    hide Split;
    hide Join;
    CapitalsWord("MSG");
    DecimalWord(|r.payload|);
    WordsLine(MsgWords(r));
    SplitJoinFree(MsgWords(r), ' ');
  }

  lemma MsgBytes(r: Reply, rest: string)
    requires r.Msg?
    ensures Render(r) + rest == Join(MsgWords(r), ' ') + CRLF + (r.payload + CRLF + rest)
  {
    var ws := MsgWords(r);
    FourWords(ws[0], ws[1], ws[2], ws[3]);
    hide Join;
  }

  /** Reading a frame whose line and body are known. */
  lemma MsgRead(r: Reply, line: string, tail: string, rest: string)
    requires r.Msg? && Split(line, ' ') == MsgWords(r) && TrimLineEnd(line + CRLF) == line
    requires Render(r) + rest == line + CRLF + tail && LineLength(line + CRLF + tail) == |line + CRLF|
    requires ParseLength(Decimal(|r.payload|)) == |r.payload|
    requires Exact(tail, |r.payload|) == r.payload && After(After(tail, |r.payload|), 2) == rest
    ensures ReadReply(Render(r) + rest) == Some((r, rest))
  {
    hide TrimLineEnd;
    hide LineLength;
    hide Split;
    hide ParseLength;
    hide Exact;
    hide After;
    hide Render;
    var input := line + CRLF + tail;
    assert input[..|line + CRLF|] == line + CRLF && input[|line + CRLF|..] == tail;
  }

  lemma FourWords(a: string, b: string, c: string, d: string)
    ensures Join([a, b, c, d], ' ') == a + " " + b + " " + c + " " + d
  {
    assert Join([c, d], ' ') == c + " " + d;
    assert [b, c, d][1..] == [c, d] && [a, b, c, d][1..] == [b, c, d];
    assert Join([b, c, d], ' ') == b + " " + (c + " " + d);
  }

  lemma {:induction false} RenderFront(rs: seq<Reply>)
    requires rs != []
    ensures RenderAll(rs) == Render(rs[0]) + RenderAll(rs[1..])
    decreases |rs|
  {
    hide Render;
    if |rs| == 1 {
      assert rs == [rs[0]];
      RenderOne(rs[0]);
    } else {
      var init, rest := Init(rs), rs[1..];
      assert init[1..] == Init(rest) && Last(rs) == Last(rest) && init[0] == rs[0];
      hide Init;
      RenderFront(init);
    }
  }

  /** A client reads back every readable reply: reply subject, sid and payload, byte for byte. */
  lemma {:induction false} RepliesReadBack(rs: seq<Reply>)
    requires forall i :: 0 <= i < |rs| ==> Readable(rs[i])
    ensures ReadReplies(RenderAll(rs)) == rs
    decreases |rs|
  {
    hide Render;
    hide Token;
    hide ReadReply;
    if rs != [] {
      RenderFront(rs);
      var rest := RenderAll(rs[1..]);
      if rs[0].Pong? {
        PongTaken(rest);
      } else {
        MsgTaken(rs[0], rest);
      }
      RepliesReadBack(rs[1..]);
      RenderNonEmpty(rs[0]);
    }
  }

  lemma RenderNonEmpty(r: Reply)
    ensures |Render(r)| > 0
  {
  }

  lemma {:induction false} SidsAreTokens(fs: seq<Frame>, n: nat)
    requires n <= |fs| && forall i :: 0 <= i < |fs| ==> WellFormed(fs[i])
    ensures forall sid :: sid in Subscribed(AsksAll(fs)[..n]) ==> Token(sid)
  {
    hide Token;
    if n > 0 {
      SidsAreTokens(fs, n - 1);
      assert Init(AsksAll(fs)[..n]) == AsksAll(fs)[..n - 1];
      assert WellFormed(fs[n - 1]) && Last(AsksAll(fs)[..n]) == Asks(fs[n - 1]);
    }
  }

  /** Replies to well formed frames are readable. */
  lemma {:induction false} RepliesReadable(handler: Handler, fs: seq<Frame>, n: nat, rs: seq<Reply>)
    requires n <= |fs| && forall i :: 0 <= i < |fs| ==> WellFormed(fs[i])
    requires Answered(handler, AsksAll(fs)[..n], rs)
    requires forall i :: 0 <= i < |rs| && rs[i].Msg? ==> |rs[i].payload| < USIZE
    ensures forall i :: 0 <= i < |rs| ==> Readable(rs[i])
  {
    hide Token;
    hide Asking;
    hide Subscribed;
    hide Reaction;
    if n > 0 {
      var cs := AsksAll(fs)[..n];
      assert Init(cs) == AsksAll(fs)[..n - 1];
      assert Last(cs) == Asks(fs[n - 1]);
      var k := if Last(cs).Ping? || AsksReply(Last(cs)) then 1 else 0;
      RepliesReadable(handler, fs, n - 1, rs[..|rs| - k]);
      SidsAreTokens(fs, n - 1);
      ReactionReadable(handler, |Asking(Init(cs))|, Subscribed(Init(cs)), fs[n - 1], rs[|rs| - k..]);
    }
  }

  lemma ReactionReadable(handler: Handler, n: nat, subs: map<string, string>, f: Frame, sent: seq<Reply>)
    requires WellFormed(f)
    requires forall sid :: sid in subs ==> Token(sid)
    requires Reaction(handler, n, subs, Asks(f), sent)
    requires forall i :: 0 <= i < |sent| && sent[i].Msg? ==> |sent[i].payload| < USIZE
    ensures forall i :: 0 <= i < |sent| ==> Readable(sent[i])
  {
  }

  /** What a client reads of all that a session writes: the INFO line, and then frames. */
  function ClientReads(output: string): seq<Reply> {
    ReadReplies(output[LineLength(output)..])
  }

  /** The session end to end, for any well formed frames after the handshake and any replies its contract allows: the
      frames are read back exactly, each publication with a reply subject is answered exactly once and in order, and the
      client reads every answer of the whole output back byte for byte. */
  lemma SessionEndToEnd(handler: Handler, info: string, options: string, fs: seq<Frame>, rs: seq<Reply>)
    requires '\n' !in info && '\r' !in options && '\n' !in options && Utf8.Valid(options)
    requires forall i :: 0 <= i < |fs| ==> WellFormed(fs[i])
    requires Answered(handler, AsksAll(fs), rs)
    requires forall i :: 0 <= i < |rs| && rs[i].Msg? ==> |rs[i].payload| < USIZE
    ensures AfterHandshake(Hello(options) + EncodeAll(fs), false) == Some(EncodeAll(fs))
    ensures Commands(EncodeAll(fs)) == AsksAll(fs)
    ensures ClientReads(info + CRLF + Render(Pong) + RenderAll(rs)) == [Pong] + rs
    ensures AnswersMatch(handler, fs, rs)
  {
    hide *;
    HandshakeTaken(options, EncodeAll(fs));
    FramesReadBack(fs);
    assert AsksAll(fs)[..|fs|] == AsksAll(fs);
    RepliesReadable(handler, fs, |fs|, rs);
    OutputReadBack(info, rs);
    AnswersDo(handler, fs, rs);
  }

  lemma OutputReadBack(info: string, rs: seq<Reply>)
    requires '\n' !in info && forall i :: 0 <= i < |rs| ==> Readable(rs[i])
    ensures ClientReads(info + CRLF + Render(Pong) + RenderAll(rs)) == [Pong] + rs
  {
    hide *;
    var all := [Pong] + rs;
    assert all[1..] == rs;
    RenderFront(all);
    PongReadable();
    RepliesReadBack(all);
    InfoSkipped(info, RenderAll(all));
    assert info + CRLF + Render(Pong) + RenderAll(rs) == info + CRLF + RenderAll(all);
  }

  lemma InfoSkipped(info: string, rest: string)
    requires '\n' !in info
    ensures ClientReads(info + CRLF + rest) == ReadReplies(rest)
  {
    hide ReadReplies;
    hide IndexOf;
    var output := info + CRLF + rest;
    assert output == (info + "\r") + ['\n'] + rest;
    IndexOfAfter(info + "\r", '\n', rest);
    assert output[|info| + 2..] == rest;
  }

  lemma PongReadable()
    ensures Readable(Pong)
  {
  }

  /** The answers among these replies are those the handler gave, one per publication that carries a reply, in order. */
  ghost predicate AnswersMatch(handler: Handler, fs: seq<Frame>, rs: seq<Reply>) {
    var asked, got := Asking(AsksAll(fs)), Answers(rs);
    |got| == |asked| &&
    forall i :: 0 <= i < |got| ==>
      && got[i].subject == asked[i].reply
      && got[i].payload == handler(i, asked[i].subject, asked[i].payload)
  }

  lemma AnswersDo(handler: Handler, fs: seq<Frame>, rs: seq<Reply>)
    requires Answered(handler, AsksAll(fs), rs)
    ensures AnswersMatch(handler, fs, rs)
  {
    OneAnswerEach(handler, AsksAll(fs), rs);
  }

  lemma {:induction false} RepliesFit(handler: Handler, cs: seq<Command>, rs: seq<Reply>)
    requires Answered(handler, cs, rs)
    requires forall n: nat, subject, payload :: |handler(n, subject, payload)| < USIZE
    ensures forall i :: 0 <= i < |rs| && rs[i].Msg? ==> |rs[i].payload| < USIZE
    decreases |cs|
  {
    hide Eligible;
    if cs != [] {
      var k := if Last(cs).Ping? || AsksReply(Last(cs)) then 1 else 0;
      RepliesFit(handler, Init(cs), rs[..|rs| - k]);
    }
  }

  // ---------------------------------------------------------------- the subscription of each answer

  /** The subscription made by frame j is the one in force for its sid after these frames. */
  predicate InForce(fs: seq<Frame>, j: nat) {
    j < |fs| && fs[j].FSub? && forall k :: j < k < |fs| && fs[k].FSub? ==> fs[k].sid != fs[j].sid
  }

  /** An answer to this reply subject after these frames carries the sid of a subscription in force whose pattern agrees
      with it, and "1" when there is none. */
  ghost predicate SidFor(fs: seq<Frame>, reply: string, sid: string) {
    if exists j: nat :: InForce(fs, j) && SubjectMatch.Agrees(fs[j].subject, reply)
    then exists j: nat :: InForce(fs, j) && fs[j].sid == sid && SubjectMatch.Agrees(fs[j].subject, reply)
    else sid == "1"
  }

  lemma {:induction false} TableIsInForce(fs: seq<Frame>, sid: string, pattern: string)
    ensures var subs := Subscribed(AsksAll(fs));
            (sid in subs && subs[sid] == pattern) <==>
            exists j: nat :: InForce(fs, j) && fs[j].sid == sid && fs[j].subject == pattern
  {
    if fs == [] {
      assert AsksAll(fs) == [];
    } else {
      var n := |fs| - 1;
      TableIsInForce(fs[..n], sid, pattern);
      assert Init(AsksAll(fs)) == AsksAll(fs[..n]) && Last(AsksAll(fs)) == Asks(fs[n]);
      TableGrow(fs, sid, pattern);
    }
  }

  lemma TableGrow(fs: seq<Frame>, sid: string, pattern: string)
    requires fs != []
    ensures var n := |fs| - 1;
            (exists j: nat :: InForce(fs, j) && fs[j].sid == sid && fs[j].subject == pattern) <==>
            if fs[n].FSub? && fs[n].sid == sid then fs[n].subject == pattern
            else exists j: nat :: InForce(fs[..n], j) && fs[..n][j].sid == sid && fs[..n][j].subject == pattern
  {
    var n := |fs| - 1;
    forall j: nat | j < n
      ensures InForce(fs, j) <==> InForce(fs[..n], j) && !(fs[n].FSub? && fs[n].sid == fs[j].sid) {
      assert forall k :: 0 <= k < n ==> fs[..n][k] == fs[k];
    }
    assert fs[n].FSub? ==> InForce(fs, n);
    assert !fs[n].FSub? ==> !InForce(fs, n);
  }

  /** What the server's table allows is what the frames say. */
  lemma EligibleIsSidFor(fs: seq<Frame>, reply: string, sid: string)
    requires Eligible(Subscribed(AsksAll(fs)), reply, sid)
    ensures SidFor(fs, reply, sid)
  {
    var subs := Subscribed(AsksAll(fs));
    hide Subscribed;
    hide AsksAll;
    hide SubjectMatch.Agrees;
    hide SubjectMatch.Covers;
    if SubjectMatch.Covers(subs, sid, reply) {
      SubjectMatch.CoversExactly(subs, sid, reply);
      TableIsInForce(fs, sid, subs[sid]);
    } else if j: nat :| InForce(fs, j) && SubjectMatch.Agrees(fs[j].subject, reply) {
      TableIsInForce(fs, fs[j].sid, fs[j].subject);
      SubjectMatch.CoversExactly(subs, fs[j].sid, reply);
    }
  }

  /** Each answer is sent on a subscription that the table allowed when its request came. */
  lemma {:induction false} AnswersEligible(handler: Handler, cs: seq<Command>, rs: seq<Reply>, k: nat)
    requires Answered(handler, cs, rs) && k < |cs| && AsksReply(cs[k])
    ensures |Asking(cs[..k])| < |Answers(rs)|
    ensures Eligible(Subscribed(cs[..k]), cs[k].reply, Answers(rs)[|Asking(cs[..k])|].sid)
    decreases |cs|
  {
    hide Eligible;
    hide Subscribed;
    var n := |cs| - 1;
    var m := if Last(cs).Ping? || AsksReply(Last(cs)) then 1 else 0;
    var before := rs[..|rs| - m];
    assert rs == before + rs[|rs| - m..];
    AnswersJoin(before, rs[|rs| - m..]);
    if k < n {
      AnswersEligible(handler, Init(cs), before, k);
      assert Init(cs)[..k] == cs[..k];
    } else {
      OneAnswerEach(handler, Init(cs), before);
      assert cs[..k] == Init(cs);
    }
  }

  lemma {:induction false} AnswersJoin(a: seq<Reply>, b: seq<Reply>)
    requires |b| <= 1
    ensures Answers(a + b) == Answers(a) + if b != [] && b[0].Msg? then b else []
  {
    if b == [] {
      assert a + b == a;
    } else {
      assert Init(a + b) == a && Last(a + b) == b[0] && b == [b[0]];
    }
  }

  predicate IsRequest(f: Frame) {
    (f.FPub? || f.FHpub?) && f.reply.Some?
  }

  /** Every answer carries the sid of a subscription that its client made for the reply subject. */
  ghost predicate SidsMatch(fs: seq<Frame>, rs: seq<Reply>) {
    forall k: nat :: k < |fs| && IsRequest(fs[k]) ==>
      |Asking(AsksAll(fs[..k]))| < |Answers(rs)| &&
      SidFor(fs[..k], fs[k].reply.value, Answers(rs)[|Asking(AsksAll(fs[..k]))|].sid)
  }

  lemma SidsDo(handler: Handler, fs: seq<Frame>, rs: seq<Reply>)
    requires forall i :: 0 <= i < |fs| ==> WellFormed(fs[i])
    requires Answered(handler, AsksAll(fs), rs)
    ensures SidsMatch(fs, rs)
  {
    hide Answered;
    hide Asking;
    hide Answers;
    hide SidFor;
    hide Eligible;
    hide Subscribed;
    hide Utf8.Valid;
    forall k: nat | k < |fs| && IsRequest(fs[k])
      ensures |Asking(AsksAll(fs[..k]))| < |Answers(rs)|
      ensures SidFor(fs[..k], fs[k].reply.value, Answers(rs)[|Asking(AsksAll(fs[..k]))|].sid)
    {
      assert AsksAll(fs)[..k] == AsksAll(fs[..k]);
      assert WellFormed(fs[k]) && AsksAll(fs)[k] == Asks(fs[k]);
      AnswersEligible(handler, AsksAll(fs), rs, k);
      EligibleIsSidFor(fs[..k], fs[k].reply.value, Answers(rs)[|Asking(AsksAll(fs[..k]))|].sid);
    }
  }

  /** A client's whole session with the server: it says hello and sends its frames. The handler is called for exactly its
      requests, and the client reads one PONG and then an answer to each PING and to each request, in order, on a
      subscription of its own where one fits. */
  method Converse(handler: Handler, info: string, options: string, fs: seq<Frame>)
    returns (output: string, calls: seq<Request>)
    requires '\n' !in info && '\r' !in options && '\n' !in options && Utf8.Valid(options)
    requires forall i :: 0 <= i < |fs| ==> WellFormed(fs[i])
    requires forall n: nat, subject, payload :: |handler(n, subject, payload)| < USIZE
    ensures calls == Requests(AsksAll(fs))
    ensures var read := ClientReads(output);
            && read != [] && read[0] == Pong
            && Answered(handler, AsksAll(fs), read[1..])
            && AnswersMatch(handler, fs, read[1..])
            && SidsMatch(fs, read[1..])
  {
    hide *;
    var session := new Session(handler, Hello(options) + EncodeAll(fs));
    HandshakeTaken(options, EncodeAll(fs));
    FramesReadBack(fs);
    ghost var replies := session.Run(info);
    RepliesFit(handler, AsksAll(fs), replies);
    SessionEndToEnd(handler, info, options, fs, replies);
    SidsDo(handler, fs, replies);
    output, calls := session.output, session.calls;
    assert ([Pong] + replies)[1..] == replies;
  }

  // ---------------------------------------------------------------- what is not well formed

  /** Lines that the session passes over, leaving what follows them unread: a SUB or PUB of fewer than three words, an HPUB
      of fewer than four, and any line that begins with another word. */
  lemma OddLinesAskNothing(line: string, rest: string)
    requires var ws := SplitN(TrimLineEnd(line), 5, ' ');
             || (ws[0] == "SUB" && |ws| < 3) || (ws[0] == "PUB" && |ws| < 3) || (ws[0] == "HPUB" && |ws| < 4)
             || ws[0] !in {"PING", "SUB", "PUB", "HPUB"}
    ensures CommandOf(line, rest) == (Nothing, rest)
  {
  }

  /** The payload of a PUB with a length that is no number is empty, and the two bytes after the line are its line end; one
      with five words has its length in the third and no reply. */
  lemma OddPublish(line: string, rest: string)
    ensures var ws := SplitN(TrimLineEnd(line), 5, ' ');
            && (ws[0] == "PUB" && |ws| == 5 ==> CommandOf(line, rest) == PubBody(ws[1], "", ws[2], rest))
            && (ws[0] == "PUB" && |ws| == 3 && '-' in ws[2] ==>
                  CommandOf(line, rest) == (Publish(ws[1], "", ""), if |rest| < 2 then "" else rest[2..]))
  {
    hide SplitN;
    hide TrimLineEnd;
    var ws := SplitN(TrimLineEnd(line), 5, ' ');
    if |ws| == 3 && '-' in ws[2] {
      MinusIsNoLength(ws[2]);
    }
  }

  lemma {:induction false} TrimmedLeft(s: string)
    ensures '-' in s ==> '-' in TrimLeft(s)
  {
    if s != "" && IsSpace(s[0]) {
      TrimmedLeft(s[1..]);
    }
  }

  lemma {:induction false} TrimmedRight(s: string)
    ensures '-' in s ==> '-' in TrimRight(s)
  {
    if s != "" && IsSpace(s[|s| - 1]) {
      TrimmedRight(s[..|s| - 1]);
    }
  }

  lemma MinusIsNoLength(text: string)
    requires '-' in text
    ensures ParseLength(text) == 0
  {
    TrimmedLeft(text);
    TrimmedRight(TrimLeft(text));
    var t := TrimRight(TrimLeft(text));
    var d := if t != "" && t[0] == '+' then t[1..] else t;
    var i :| 0 <= i < |t| && t[i] == '-';
    assert t[0] == '+' ==> t[1..][i - 1] == '-';
    assert '-' in d;
  }

  /** A stream that ends in a payload leaves zero bytes in place of the rest. */
  lemma ShortPayloadIsPadded(subject: string, n: nat, rest: string)
    requires |rest| < n < USIZE
    ensures var (c, left) := PubBody(subject, "", Decimal(n), rest);
            && c.Publish? && |c.payload| == n && left == ""
            && (forall i :: 0 <= i < n ==> c.payload[i] == if i < |rest| then rest[i] else '\0')
  {
    LengthParses(n);
  }

  /** A PING before the CONNECT is not answered. */
  lemma EarlyPingIsPassed(rest: string)
    ensures AfterHandshake("PING" + CRLF + rest, false) == AfterHandshake(rest, false)
  {
    hide Utf8.Valid;
    hide TrimLineEnd;
    hide LineLength;
    hide Ends;
    CapitalsWord("PING");
    LineTaken("PING", rest);
    TrimLine("PING");
    assert !("CONNECT" <= "PING");
  }

  /** A length may have a plus sign and blanks around it, and one that does not fit in 64 bits counts as none. */
  lemma LengthsTaken(n: nat)
    ensures ParseLength("\t+" + Decimal(n) + "\t") == if n < USIZE then n else 0
  {
    hide DigitsValue;
    var text := Decimal(n);
    DecimalValue(n);
    var t := "\t+" + text + "\t";
    assert t[1..] == "+" + text + "\t";
    assert TrimLeft(t) == "+" + text + "\t";
    var u := "+" + text + "\t";
    assert u[..|u| - 1] == "+" + text;
    assert TrimRight(u) == "+" + text;
    assert ("+" + text)[1..] == text;
  }
}
