/** The text the LangChain fetch tool prints for a batch, and the reader that finds in it the id to acknowledge. */
module FetchText {
  import opened Text

  const KEY := "msg_id="

  /** A fetched message: its content is already the decoded or parsed payload as text. */
  datatype Message = Message(msgId: nat, priority: Priority, content: string)

  datatype Priority = Normal | Urgent | Critical

  function PriorityText(p: Priority): string {
    match p
    case Normal => "normal"
    case Urgent => "urgent"
    case Critical => "critical"
  }

  function Line(m: Message): string {
    "  msg_id=" + Decimal(m.msgId) + "  priority=" + PriorityText(m.priority) + "  content=" + m.content
  }

  function Header(address: string, batch: seq<Message>): string
    requires batch != []
  {
    Decimal(|batch|) + " message(s) from '" + address + "' (last msg_id=" + Decimal(batch[|batch| - 1].msgId) + "):"
  }

  function Empty(address: string): string {
    "No messages in '" + address + "'."
  }

  function Lines(address: string, batch: seq<Message>): (ls: seq<string>)
    requires batch != []
    ensures |ls| == |batch| + 1
  {
    [Header(address, batch)] + seq(|batch|, i requires 0 <= i < |batch| => Line(batch[i]))
  }

  /** The tool's answer: a list of lines grown in a loop and joined. */
  method Print(address: string, batch: seq<Message>) returns (text: string)
    ensures text == if batch == [] then Empty(address) else Join(Lines(address, batch), '\n')
  {
    hide Header;
    hide Line;
    hide Empty;
    if batch == [] {
      return Empty(address);
    }
    var lines := [Header(address, batch)];
    for i := 0 to |batch|
      invariant lines == Lines(address, batch)[..i + 1]
    {
      lines := lines + [Line(batch[i])];
    }
    assert lines == Lines(address, batch);
    text := Join(lines, '\n');
  }

  // ---------------------------------------------------------------- the reader

  /** The characters that the reader's \d stands for: the ASCII digits and maybe others, but no space and no line feed. */
  type Digits = char -> bool

  ghost predicate DigitClass(d: Digits) {
    (forall c :: IsDigit(c) ==> d(c)) && !d(' ') && !d('\n')
  }

  /** The length of the longest run of digits at the front. */
  function RunLength(s: string, d: Digits): (n: nat)
    ensures n <= |s|
    ensures forall i :: 0 <= i < n ==> d(s[i])
    ensures n < |s| ==> !d(s[n])
  {
    if s == "" || !d(s[0]) then 0 else 1 + RunLength(s[1..], d)
  }

  /** A match at the very front: the key and at least one digit. */
  predicate MatchAt(s: string, d: Digits) {
    KEY <= s && |s| > |KEY| && d(s[|KEY|])
  }

  /** findall: the digits of every match, scanning from the left and going on after each match. */
  function FindAll(s: string, d: Digits): (found: seq<string>)
    decreases |s|
  {
    if s == "" then []
    else if MatchAt(s, d) then
      var rest := s[|KEY|..];
      var n := RunLength(rest, d);
      [rest[..n]] + FindAll(rest[n..], d)
    else FindAll(s[1..], d)
  }

  /** The text the reader turns into a number: the last match. */
  function LastMatch(s: string, d: Digits): Option<string> {
    var found := FindAll(s, d);
    if found == [] then None else Some(found[|found| - 1])
  }

  /** The key stands nowhere in the text with a digit after it. */
  ghost predicate NoMatch(s: string, d: Digits) {
    forall i :: 0 <= i <= |s| ==> !MatchAt(s[i..], d)
  }

  // ---------------------------------------------------------------- scanning part by part

  /** A character that no match can contain cuts the scan in two. */
  ghost predicate Cuts(c: char, d: Digits) {
    c !in KEY && !d(c)
  }

  lemma {:induction false} RunAcross(s: string, c: char, rest: string, d: Digits)
    requires !d(c)
    ensures RunLength(s + [c] + rest, d) == RunLength(s, d)
    decreases |s|
  {
    var t := s + [c] + rest;
    if s != "" && d(s[0]) {
      RunAcross(s[1..], c, rest, d);
      assert t[1..] == s[1..] + [c] + rest;
    }
  }

  lemma MatchAcross(s: string, c: char, rest: string, d: Digits)
    requires Cuts(c, d) && s != ""
    ensures MatchAt(s + [c] + rest, d) <==> MatchAt(s, d)
  {
    var t := s + [c] + rest;
    assert t[|s|] == c;
    if |s| >= |KEY| {
      assert t[..|KEY|] == s[..|KEY|];
    }
  }

  lemma Unfold(s: string, d: Digits)
    ensures s == "" ==> FindAll(s, d) == []
    ensures s != "" && !MatchAt(s, d) ==> FindAll(s, d) == FindAll(s[1..], d)
    ensures MatchAt(s, d) ==>
              var rest := s[|KEY|..];
              var n := RunLength(rest, d);
              FindAll(s, d) == [rest[..n]] + FindAll(rest[n..], d)
  {
  }

  lemma {:induction false} FindAcross(s: string, c: char, rest: string, d: Digits)
    requires Cuts(c, d)
    ensures FindAll(s + [c] + rest, d) == FindAll(s, d) + FindAll(rest, d)
    decreases |s|
  {
    hide FindAll;
    hide RunLength;
    hide MatchAt;
    var t := s + [c] + rest;
    Unfold(s, d);
    Unfold(t, d);
    if s == "" {
      AloneNoMatch(c, rest, d);
      assert t == [c] + rest && t[1..] == rest;
    } else {
      MatchAcross(s, c, rest, d);
      if MatchAt(s, d) {
        MatchIsLong(s, d);
        var r := s[|KEY|..];
        var n := RunLength(r, d);
        assert t[|KEY|..] == r + [c] + rest;
        RunAcross(r, c, rest, d);
        DropAcross(r, c, rest, n);
        FindAcross(r[n..], c, rest, d);
      } else {
        assert t[1..] == s[1..] + [c] + rest;
        FindAcross(s[1..], c, rest, d);
      }
    }
  }

  lemma MatchIsLong(s: string, d: Digits)
    requires MatchAt(s, d)
    ensures |s| > |KEY|
  {
  }

  lemma AloneNoMatch(c: char, rest: string, d: Digits)
    requires Cuts(c, d)
    ensures !MatchAt([c] + rest, d)
  {
    assert KEY[0] in KEY;
  }

  lemma DropAcross(r: string, c: char, rest: string, n: nat)
    requires n <= |r|
    ensures (r + [c] + rest)[..n] == r[..n] && (r + [c] + rest)[n..] == r[n..] + [c] + rest
  {
  }

  /** Text without an m holds no match and does not start one. */
  lemma {:induction false} NoKeyStart(s: string, rest: string, d: Digits)
    requires 'm' !in s
    ensures FindAll(s + rest, d) == FindAll(rest, d)
    decreases |s|
  {
    if s == "" {
      assert s + rest == rest;
    } else {
      assert (s + rest)[0] != KEY[0];
      assert (s + rest)[1..] == s[1..] + rest;
      NoKeyStart(s[1..], rest, d);
    }
  }

  lemma {:induction false} FindNothing(s: string, d: Digits)
    requires NoMatch(s, d)
    ensures FindAll(s, d) == []
    decreases |s|
  {
    if s != "" {
      assert s[0..] == s;
      assert !MatchAt(s[0..], d);
      forall i | 0 <= i <= |s[1..]| ensures !MatchAt(s[1..][i..], d) {
        assert s[1..][i..] == s[i + 1..];
      }
      FindNothing(s[1..], d);
    }
  }

  lemma {:induction false} FindSomething(s: string, i: nat, d: Digits)
    requires i <= |s| && MatchAt(s[i..], d)
    ensures FindAll(s, d) != []
    decreases |s|
  {
    if i == 0 {
      assert s[0..] == s;
    } else if !MatchAt(s, d) {
      assert s[1..][i - 1..] == s[i..];
      FindSomething(s[1..], i - 1, d);
    }
  }

  /** The reader finds nothing exactly when no key stands before a digit anywhere. */
  lemma FindNothingExactly(s: string, d: Digits)
    ensures FindAll(s, d) == [] <==> NoMatch(s, d)
  {
    if NoMatch(s, d) {
      FindNothing(s, d);
    } else {
      var i: nat :| i <= |s| && MatchAt(s[i..], d);
      FindSomething(s, i, d);
    }
  }

  lemma NoUnderscore(s: string, d: Digits)
    requires '_' !in s
    ensures FindAll(s, d) == []
  {
    assert KEY[3] == '_';
    forall i | 0 <= i <= |s| ensures !MatchAt(s[i..], d) {
      var t := s[i..];
      assert |t| > 3 ==> t[3] in s;
    }
    FindNothing(s, d);
  }

  // ---------------------------------------------------------------- the printed lines

  lemma {:induction false} AllDigitsRun(s: string, d: Digits)
    requires AllDigits(s) && DigitClass(d)
    ensures RunLength(s, d) == |s|
  {
  }

  lemma FindId(id: nat, d: Digits)
    requires DigitClass(d)
    ensures FindAll("  " + KEY + Decimal(id), d) == [Decimal(id)]
  {
    hide Decimal;
    var digits := Decimal(id);
    var s := KEY + digits;
    NoKeyStart("  ", s, d);
    assert "  " + KEY + digits == "  " + s;
    assert s[..|KEY|] == KEY && s[|KEY|..] == digits;
    assert d(s[|KEY|]) by {
      assert s[|KEY|] == digits[0];
    }
    AllDigitsRun(digits, d);
    assert digits[..|digits|] == digits && digits[|digits|..] == "";
  }

  lemma FindPriority(p: Priority, d: Digits)
    ensures FindAll(" priority=" + PriorityText(p), d) == []
  {
    NoUnderscore(" priority=" + PriorityText(p), d);
  }

  /** A printed line yields the id of its message and then whatever its content yields. */
  lemma FindInLine(m: Message, d: Digits)
    requires DigitClass(d)
    ensures FindAll(Line(m), d) == [Decimal(m.msgId)] + FindAll(m.content, d)
  {
    LineParts(m);
    hide *;
    SpaceCuts(d);
    var id := "  " + KEY + Decimal(m.msgId);
    var priority := " priority=" + PriorityText(m.priority);
    var content := " content=" + m.content;
    FindAcross(id, ' ', priority + [' '] + content, d);
    FindAcross(priority, ' ', content, d);
    FindId(m.msgId, d);
    FindPriority(m.priority, d);
    NoKeyStart(" content=", m.content, d);
  }

  lemma SpaceCuts(d: Digits)
    requires DigitClass(d)
    ensures Cuts(' ', d) && Cuts('\n', d)
  {
  }

  lemma LineParts(m: Message)
    ensures Line(m) == ("  " + KEY + Decimal(m.msgId)) + [' ']
                     + ((" priority=" + PriorityText(m.priority)) + [' '] + (" content=" + m.content))
  {
    hide Decimal;
    hide PriorityText;
    Spell();
    var id, priority := Decimal(m.msgId), PriorityText(m.priority);
    assert "  msg_id=" == "  " + KEY;
    assert "  priority=" == [' '] + " priority=";
    assert "  content=" == [' '] + " content=";
  }

  lemma Spell()
    ensures "  msg_id=" == "  " + KEY
  {
  }

  lemma {:induction false} FindInLines(ls: seq<string>, d: Digits) returns (before: seq<string>)
    requires ls != [] && DigitClass(d)
    ensures FindAll(Join(ls, '\n'), d) == before + FindAll(ls[|ls| - 1], d)
    decreases |ls|
  {
    hide FindAll;
    before := [];
    if |ls| > 1 {
      SpaceCuts(d);
      FindAcross(ls[0], '\n', Join(ls[1..], '\n'), d);
      var rest := FindInLines(ls[1..], d);
      before := FindAll(ls[0], d) + rest;
    }
  }

  lemma LastLine(address: string, batch: seq<Message>)
    requires batch != []
    ensures Lines(address, batch)[|batch|] == Line(batch[|batch| - 1])
  {
  }

  /** What the reader makes of a printed batch, whatever the address, the earlier contents and the header hold: the id of
      the last message, unless the last content itself holds a match, and then the last match of that content. */
  lemma LastIdFound(address: string, batch: seq<Message>, d: Digits)
    requires batch != [] && DigitClass(d)
    ensures var text := Join(Lines(address, batch), '\n');
            var m := batch[|batch| - 1];
            && (NoMatch(m.content, d) ==> LastMatch(text, d) == Some(Decimal(m.msgId)))
            && (!NoMatch(m.content, d) ==> LastMatch(text, d) == LastMatch(m.content, d))
            && DigitsValue(Decimal(m.msgId)) == m.msgId
  {
    hide *;
    var m := batch[|batch| - 1];
    LastLine(address, batch);
    var before := FindInLines(Lines(address, batch), d);
    FindInLine(m, d);
    LastOf(Join(Lines(address, batch), '\n'), before, Decimal(m.msgId), m.content, d);
    FindNothingExactly(m.content, d);
    DecimalValue(m.msgId);
  }

  lemma LastOf(text: string, before: seq<string>, id: string, content: string, d: Digits)
    requires FindAll(text, d) == before + ([id] + FindAll(content, d))
    ensures LastMatch(text, d) == if FindAll(content, d) == [] then Some(id) else LastMatch(content, d)
  {
  }

  // ---------------------------------------------------------------- what the printed text says

  /** The words of a printed line: the id, the priority by its name, and the content with all its blanks. */
  lemma LineReadsBack(m: Message)
    ensures SplitN(Line(m), 7, ' ') ==
            ["", "", "msg_id=" + Decimal(m.msgId), "",
             if m.priority.Normal? then "priority=normal" else if m.priority.Urgent? then "priority=urgent"
             else "priority=critical", "", "content=" + m.content]
  {
    var id, priority, content := "msg_id=" + Decimal(m.msgId), "priority=" + PriorityText(m.priority),
                                 "content=" + m.content;
    LineWords(m, id, priority, content);
    NoBlanks(m);
    SevenWords(id, priority, content);
    PriorityWord(m.priority);
  }

  lemma LineWords(m: Message, id: string, priority: string, content: string)
    requires id == "msg_id=" + Decimal(m.msgId) && priority == "priority=" + PriorityText(m.priority)
    requires content == "content=" + m.content
    ensures Line(m) == "" + [' '] + ("" + [' '] + (id + [' '] + ("" + [' '] + (priority + [' '] + ("" + [' '] + content)))))
  {
    hide Decimal;
    hide PriorityText;
  }

  lemma NoBlanks(m: Message)
    ensures ' ' !in "msg_id=" + Decimal(m.msgId) && ' ' !in "priority=" + PriorityText(m.priority)
  {
  }

  lemma PriorityWord(p: Priority)
    ensures "priority=" + PriorityText(p) ==
            if p.Normal? then "priority=normal" else if p.Urgent? then "priority=urgent" else "priority=critical"
  {
  }

  lemma SevenWords(a: string, b: string, rest: string)
    requires ' ' !in a && ' ' !in b
    ensures SplitN("" + [' '] + ("" + [' '] + (a + [' '] + ("" + [' '] + (b + [' '] + ("" + [' '] + rest))))), 7, ' ')
         == ["", "", a, "", b, "", rest]
  {
    hide SplitN;
    var r5 := "" + [' '] + rest;
    var r4 := b + [' '] + r5;
    var r3 := "" + [' '] + r4;
    var r2 := a + [' '] + r3;
    var r1 := "" + [' '] + r2;
    SplitNCons("", ' ', r1, 7);
    SplitNCons("", ' ', r2, 6);
    SplitNCons(a, ' ', r3, 5);
    SplitNCons("", ' ', r4, 4);
    SplitNCons(b, ' ', r5, 3);
    SplitNCons("", ' ', rest, 2);
    OnePart(rest);
  }

  lemma OnePart(s: string)
    ensures SplitN(s, 1, ' ') == [s]
  {
  }

  /** The header begins with the number of messages and ends with the id of the last. */
  lemma HeaderSays(address: string, batch: seq<Message>)
    requires batch != []
    ensures var h := Header(address, batch);
            var end := "(last msg_id=" + Decimal(batch[|batch| - 1].msgId) + "):";
            && SplitN(h, 2, ' ')[0] == Decimal(|batch|)
            && |end| <= |h| && h[|h| - |end|..] == end
  {
    var n, id := Decimal(|batch|), Decimal(batch[|batch| - 1].msgId);
    hide Decimal;
    hide SplitN;
    var tail := "message(s) from '" + address + "' (last msg_id=" + id + "):";
    SplitNCons(n, ' ', tail, 2);
    HeaderParts(n, address, id);
    HeaderEnd(n, address, id);
  }

  lemma HeaderParts(n: string, address: string, id: string)
    ensures n + " message(s) from '" + address + "' (last msg_id=" + id + "):"
         == n + [' '] + ("message(s) from '" + address + "' (last msg_id=" + id + "):")
  {
    assert " message(s) from '" == [' '] + "message(s) from '";
  }

  lemma HeaderEnd(n: string, address: string, id: string)
    ensures var h := n + " message(s) from '" + address + "' (last msg_id=" + id + "):";
            var end := "(last msg_id=" + id + "):";
            |end| <= |h| && h[|h| - |end|..] == end
  {
    var front := n + " message(s) from '" + address + "' ";
    var end := "(last msg_id=" + id + "):";
    assert n + " message(s) from '" + address + "' (last msg_id=" + id + "):" == front + end;
  }

  // ---------------------------------------------------------------- what the example agent acknowledges

  const NONE := "No messages"

  predicate Contains(text: string, needle: string) {
    exists i :: 0 <= i <= |text| && needle <= text[i..]
  }

  /** Python's int() refuses longer texts. */
  const MOST_DIGITS: nat := 4300

  /** The ids of the protocol have 64 bits. */
  const ID_BOUND: nat := 0x8000_0000_0000_0000

  /** The number that digits stand for; `v` is the value of each digit, which is the usual one of an ASCII digit. */
  function Value(digits: string, v: char -> nat): nat {
    if digits == "" then 0 else 10 * Value(digits[..|digits| - 1], v) + v(digits[|digits| - 1])
  }

  ghost predicate DigitValues(v: char -> nat) {
    forall d: nat :: d < 10 ==> v(Digit(d)) == d
  }

  lemma {:induction false} ValueOfDecimal(n: nat, v: char -> nat)
    requires DigitValues(v)
    ensures Value(Decimal(n), v) == n
  {
    if n >= 10 {
      ValueOfDecimal(n / 10, v);
      var s := Decimal(n);
      assert s[..|s| - 1] == Decimal(n / 10);
    } else {
      assert Decimal(n)[..0] == "";
    }
  }

  function PowerOfTen(k: nat): nat {
    if k == 0 then 1 else 10 * PowerOfTen(k - 1)
  }

  lemma {:induction false} DecimalLength(n: nat, k: nat)
    requires k > 0 && n < PowerOfTen(k)
    ensures |Decimal(n)| <= k
  {
    if n >= 10 {
      DecimalLength(n / 10, k - 1);
    }
  }

  /** Every id of the protocol is short enough for int(). */
  lemma IdIsShort(n: nat)
    requires n < ID_BOUND
    ensures |Decimal(n)| <= MOST_DIGITS
  {
    assert PowerOfTen(5) == 100_000 && PowerOfTen(10) == 10_000_000_000;
    assert PowerOfTen(15) == 1_000_000_000_000_000 && PowerOfTen(19) == 10_000_000_000_000_000_000;
    DecimalLength(n, 19);
  }

  /** What the reader ends with: no match, a number too long to convert, or the number of the last match. */
  datatype LastId = NoId | TooLong | Id(id: nat)

  function FindLastId(text: string, d: Digits, v: char -> nat): LastId {
    match LastMatch(text, d)
    case Some(digits) => if |digits| > MOST_DIGITS then TooLong else Id(Value(digits, v))
    case None => NoId
  }

  /** What the agent does with a text: it acknowledges nothing, or an id, or fails. */
  datatype Verdict = NoAck | Acks(id: nat) | Fails

  /** Nothing is acknowledged when the text says that there were no messages, and when the id found is zero, which the
      agent takes for a missing id. */
  function VerdictOn(text: string, d: Digits, v: char -> nat): Verdict {
    if Contains(text, NONE) then NoAck
    else
      match FindLastId(text, d, v)
      case NoId => NoAck
      case TooLong => Fails
      case Id(id) => if id == 0 then NoAck else Acks(id)
  }

  /** What stands last in a printed batch: the last message's id, unless its content has a match. */
  lemma LastIdExactly(address: string, batch: seq<Message>, d: Digits, v: char -> nat)
    requires batch != [] && DigitClass(d) && DigitValues(v) && batch[|batch| - 1].msgId < ID_BOUND
    ensures var m := batch[|batch| - 1];
            var inside := FindLastId(m.content, d, v);
            && FindLastId(Join(Lines(address, batch), '\n'), d, v) == (if inside.NoId? then Id(m.msgId) else inside)
            && (inside.NoId? <==> NoMatch(m.content, d))
            && (inside.TooLong? <==> LastMatch(m.content, d).Some? && |LastMatch(m.content, d).value| > 4300)
  {
    hide Lines;
    hide Join;
    hide NoMatch;
    hide Decimal;
    hide Value;
    hide FindAll;
    LastIdFound(address, batch, d);
    ValueOfDecimal(batch[|batch| - 1].msgId, v);
    IdIsShort(batch[|batch| - 1].msgId);
    FindNothingExactly(batch[|batch| - 1].content, d);
  }

  lemma ContainsExactly(text: string, needle: string)
    ensures Contains(text, needle) <==> exists a, b :: text == a + needle + b
  {
    if i :| 0 <= i <= |text| && needle <= text[i..] {
      assert text == text[..i] + needle + text[i + |needle|..];
    }
    if a, b :| text == a + needle + b {
      assert text[|a|..] == needle + b;
    }
  }

  lemma EmptyIsNone(address: string)
    ensures Contains(Empty(address), NONE)
  {
    assert NONE <= Empty(address)[0..];
  }

  /** An empty fetch is never acknowledged. A batch is acknowledged at its last message exactly when its text nowhere says
      "No messages", that message's id is not 0, and its content does not end in another id. When it ends in another id,
      that one is acknowledged unless it is 0, and the agent fails when it is too long to convert. */
  lemma AckedExactly(address: string, batch: seq<Message>, d: Digits, v: char -> nat)
    requires DigitClass(d) && DigitValues(v)
    ensures VerdictOn(Empty(address), d, v) == NoAck
    ensures batch != [] && batch[|batch| - 1].msgId < ID_BOUND ==>
              var text := Join(Lines(address, batch), '\n');
              var m := batch[|batch| - 1];
              var inside := FindLastId(m.content, d, v);
              && (VerdictOn(text, d, v) == Acks(m.msgId) <==>
                    !Contains(text, "No messages") && m.msgId != 0 && (inside.NoId? || inside == Id(m.msgId)))
              && (VerdictOn(text, d, v) == Fails <==> !Contains(text, "No messages") && inside.TooLong?)
              && (VerdictOn(text, d, v) == NoAck <==>
                    Contains(text, "No messages") || inside == Id(0) || (inside.NoId? && m.msgId == 0))
              && (forall id :: VerdictOn(text, d, v) == Acks(id) ==> id == m.msgId || inside == Id(id))
              && (inside.NoId? <==> NoMatch(m.content, d))
              && (inside.TooLong? <==> LastMatch(m.content, d).Some? && |LastMatch(m.content, d).value| > 4300)
  {
    EmptyIsNone(address);
    hide LastMatch;
    hide Empty;
    hide Lines;
    hide FindLastId;
    hide Join;
    hide NoMatch;
    hide Contains;
    if batch != [] && batch[|batch| - 1].msgId < ID_BOUND {
      LastIdExactly(address, batch, d, v);
    }
  }
}
