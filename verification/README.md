# mq9 clients: a Dafny model

mq9 is a mailbox protocol over NATS request/reply: SEND puts a message into a mailbox, FETCH reads, ACK moves the offset
of a consumer group, QUERY and DELETE look at and remove stored messages. The broker is not in the repository; the SDKs
(Go, Rust, Java, JavaScript, Python), the A2A layer on top of them, the LangChain tools and the fake NATS server of the
Rust tests are. This project models the parts of them that hold state, loop or parse, and proves what they are for. The
broker appears only as the contract that `protocol.md` states.

The project file is `dfyconfig.toml`.

## The modules

- `GroupOffset`: any number of workers consume one mailbox through one group offset. `State` is the mailbox, the offset,
  the acks under way and where every consume loop stands; `Step` is every move of a sender, the broker, the network or a
  worker; a reachable state is one that some list of steps leads to. Sends, deletes, joins, crashes, stale batches, failed
  handlers, acks lost, delivered twice or long after their sender gave up, and lost replies are all steps, in any order.
- `ConsumeLoop`, `CallOrder`, `OffsetLaws`, `Drain`: the consume loops as methods on a consumer object with its counter, against an
  environment whose every answer may depend on all earlier calls. They are proved to produce the trace that `LoopTrace`
  defines; the laws about the order of calls, counts, redelivery and draining are about traces.
- `LoopInMachine`: the consume loop of the trace model as a worker of the machine, with everyone else's steps in between.
- `StopProtocol`: one loop and the calls of `stop`, interleaved, for the four SDKs that stop by a signal. Each look at the
  signal, each request, each handler call and each flag write is a step.
- `NatsSession`, `NatsFrames`, `SubjectMatch`, `Utf8`: the fake NATS server session as an object that reads a byte stream
  and writes one, the printer of a client's frames, the reader of the server's replies, and the subject matcher. Bytes are
  characters of the same code.
- `TaskStore`, `Cancel`: the A2A task store as objects sharing one mailbox that compacts by key, and the cancel request.
- `ReplyStreams`, `PythonReplies`, `JavaReplies`: what an agent sends to a reply mailbox for one request, what of it
  arrives, and what a reader sees that fetches by priority, at any moments, and acks what it reads.
- `FetchText`: the text that the LangChain fetch tool prints, and the example agent that finds in it the id to ack.
- `Subjects`, `SendHeaders`: subjects and headers, and what can be read back from them.
- `Text`: decimal numbers, splitting and joining.

## Results that the code's own words do not say

- At-least-once delivery needs a mailbox of one priority. With two priorities an ack of a served urgent message can pass
  an older normal one that nobody has seen (`GroupOffset.AtLeastOnce`, both directions, with the losing run).
- In Java `isRunning` becomes false when stop is called, while the loop may still begin a fetch, a handler call or an ack,
  and in JavaScript while a loop that acks may still begin one; only the future that stop returns means that it is over
  (`StopProtocol.NotRunningExactly`). The comment at `java/src/main/java/io/mq9/Consumer.java:25` says otherwise.
- The SDKs make different calls when the group is missing or empty: Go acks with any group, JavaScript with none that is
  empty (`OffsetLaws.SameCallsExactly`).
- The example agent does not acknowledge the last message of a batch in three cases: its id is 0, because the id is tested
  for truth; "No messages" occurs anywhere in the printed text; or its content ends in another `msg_id=` with digits, and
  then that other id is acknowledged instead, unless it is 0, or the agent fails if it has more digits than `int()` takes
  (`FetchText.AckedExactly`).
- A tag with a comma is not the tag that the broker reads (`SendHeaders.GoReadsBack`, `SendHeaders.JavaReadsBack`).
- The Python agent's report of a failure does not carry the task id, so a reader that follows the id takes a failed run
  for a completed one (`PythonReplies.FailureIsNotRouted`); so does any reader when only the report is lost
  (`PythonReplies.OutcomeAsRead`).
- Replies are read in the order they are sent only because all of them have one priority: at a higher priority any reply
  but the first can be read before earlier ones (`PythonReplies.RaisedReplyOvertakes`).
- A final event that the Java agent cannot encode keeps it from sending the closing event, and the stream stays open; so
  it does when the handler throws instead of returning a future (`JavaReplies.ClosedExactly`). A Java reader learns of a
  failed handler only when no final event came before and the sentinel does not overtake the report
  (`JavaReplies.FailureAsRead`).
- A list of tasks takes the most recent messages, whatever they are: it is complete exactly when every task message too
  old for the limit has a copy among the newer ones (`TaskStore.ListIsCompleteExactly`), which without other senders means
  that the limit covers the mailbox (`TaskStore.ListOfStoresExactly`). One foreign mail can hide the only task from a list
  of one (`TaskStore.ForeignMailHidesTask`).
- A cancel that is overtaken by a save loses what was saved, unless that differs in the status only, and one overtaken by
  a delete brings the task back (`Cancel.CancelInRun`, with the runs `Cancel.CancelLosesResult` and
  `Cancel.CancelRestoresDeleted`).

## Assumptions

- FETCH does not move the offset; ACK of an id moves it to the greater of itself and id + 1; a group without an offset
  record starts at the earliest message. A batch holds the first pending messages, by priority and then by id.
- QUERY with a key returns the latest message for it, QUERY with a limit the most recent messages in id order; DELETE of
  an id that is not stored changes nothing.
- JSON and protobuf decoders undo their encoders; only a task's text parses as a task.
- Other senders do not write keys that begin with `task.`.
- The NATS handler is a function of the number of earlier calls, the subject and the payload, so it may keep state; lengths
  have 64 bits; a read at the end of the stream leaves the rest of its buffer zero; `trim` meets ASCII blanks only. The
  text of the INFO line is a parameter.
- The reader's `\d` is any class of characters that holds the ASCII digits and neither a blank, a line feed nor a
  character of `msg_id=`; the ASCII digits have their usual values, others any. `int()` refuses
  texts of more than 4300 digits, as Python does since version 3.11, and ids have 64 bits.
- NATS carries header names and values unchanged: no trimming, and no values that cannot be written in a header.
- JavaScript runs on one thread, so `stop` gets its turn only where the loop awaits.
- `dispatch` hands the headers of a request to the handlers; they are inputs here, because `Message` has no such field in
  `python/mq9/client.py:37-42` and Java's parser leaves it null (`java/src/main/java/io/mq9/Mq9Client.java:501`).

## Model

| member | source | states |
|---|---|---|
| GroupOffset.AtLeastOnce | go/client.go:361-406 | In every reachable state every stored message below the group offset was handed to some handler, if and only if the mailbox is first-in first-out, as one of a single priority is |
| GroupOffset.LaterFirstSkips | protocol.md:54-60 | With a message of higher priority behind another one, there is a run that loses the other: the offset passes it and no handler ever saw it |
| GroupOffset.RunKeepsInvariant | go/client.go:361-406 | Every run of any number of workers keeps the invariant that ties batches, acks under way and the offset to what was handed over |
| GroupOffset.StepKeeps | go/client.go:361-406 | Each step of a sender, the broker, the network or a worker keeps that invariant |
| GroupOffset.AckIsSafe | go/client.go:398-404 | When a handler has succeeded, every stored message up to its own was handed over, so acking it skips nothing |
| GroupOffset.ServedBatchCovers | protocol.md:234-240 | A batch served from the offset leaves no unseen stored message before any of its own messages |
| GroupOffset.OffsetNeverGoesBack | protocol.md:289-291 | No step, and so no late or repeated ack, moves the offset back or forgets that a message was handed over |
| GroupOffset.OfferedExactly | protocol.md:234-240 | After every run of any number of workers, with acks late, repeated or lost and any priorities, a stored message can be served, for the first time or again, if and only if no ack of it or of a later message has arrived |
| GroupOffset.AnyTime | protocol.md:54-60 | Sends, deletes, joins, crashes and lost acks may come at any time, and an issued ack may arrive at any time and again |
| StopProtocol.AtMostOneMore | go/client.go:357-407 | In every interleaving with one call of stop, or several where the SDK allows them, after the signal at most one more fetch or handler call begins (none in JavaScript), at most one ack, and the loop takes at most nine more steps |
| StopProtocol.HandlesWhatItFetches | go/client.go:380-388 | While stop is not called, every message fetched has been handed to the handler once or is still to come in the current batch, so n messages mean n handler calls when the loop is back at its top; after the signal never more than have arrived |
| StopProtocol.CountsAndAcksEach | javascript/src/client.ts:396-415 | In every run, stopped or not, each handler call that succeeds is counted once, in a JavaScript loop that acks when its ack succeeds, and with acks exactly one ack begins for it, without acks none |
| StopProtocol.AnswersAreFree | java/src/main/java/io/mq9/Mq9Client.java:230-258 | The loop takes any number of messages, any fetch error, and any end of a handler, goes on until it is signalled, and then leaves at once after a failed fetch in Java and during the wait in Go |
| StopProtocol.StopCalls | java/src/main/java/io/mq9/Consumer.java:35-42 | Stop is called at most once in Go and Rust, at any time and any number of times in Java, and whenever the loop awaits a call or sleeps in JavaScript |
| StopProtocol.NeverStuck | go/types.go:78-81 | A signalled loop that has not exited can always go on, and every caller of stop can return when it has, so stop returns |
| StopProtocol.StoppedForGood | java/src/main/java/io/mq9/Consumer.java:35-42 | Once any call of stop has returned, the consumer reports not running and no fetch, handler call or ack is ever made again, whatever further calls of stop there are |
| StopProtocol.NotRunningExactly | java/src/main/java/io/mq9/Consumer.java:25-28 | "Not running" is a promise that nothing more is called if and only if the stop signal of the SDK is not the flag it reports, or the SDK is JavaScript and the consumer does not ack |
| StopProtocol.FlagDownIsFinal | rust/src/client.rs:387-419 | Once the loop itself has lowered the flag, no call begins any more |
| StopProtocol.SignalledRun | javascript/src/client.ts:374-418 | Between any two moments of a signalled run the steps taken are paid for by a decreasing measure, and the calls begun stay within their bound |
| ConsumeLoop.Consumer.ConsumeCountingFirst | go/client.go:361-406 | The Go, Rust and Java loop makes exactly the calls of the specified trace, and its counter is the number of handlers that succeeded |
| ConsumeLoop.Consumer.ConsumeCountingLast | python/mq9/client.py:256-288 | The Python and JavaScript loop makes exactly the calls of the specified trace, and its counter is the number of messages whose handler and ack both succeeded |
| ConsumeLoop.Consumer.CountingFirstMessage | rust/src/client.rs:394-414 | One message: the handler, then an ack only after success; it counts before the ack |
| ConsumeLoop.Consumer.CountingLastMessage | javascript/src/client.ts:396-415 | One message: the handler, then an ack only after success; it counts only when the ack returned |
| OffsetLaws.Consume | java/src/main/java/io/mq9/Mq9Client.java:228-276 | Every SDK's loop, in every environment: one fetch a turn, all that is fetched handled in order before the next fetch, nothing acked but successes and those at once; with auto-ack and a group that is not empty every success is acked, without auto-ack none; without a group only Go acks, with an empty one all but JavaScript; and every success is counted, in Python and JavaScript unless its ack failed |
| CallOrder.LoopShape | go/client.go:361-406 | The same order of calls for the specified trace of any loop, with every answer the environment's; a failed fetch is followed by the next turn |
| OffsetLaws.CountsOf | python/mq9/client.py:273-281 | The number an SDK reports and, in Python and JavaScript, the failed acks add up to the successes, with and without acks |
| OffsetLaws.LoopBalances | go/client.go:398-404 | Each success of a handler is answered by exactly one ack, confirmed or failed |
| OffsetLaws.SameCallsCountsDiffer | javascript/src/client.ts:396-415 | With auto-ack and a non-empty group all SDKs make the same calls in the same environment, and their counts differ by exactly the acks that failed |
| OffsetLaws.SameCallsExactly | python/mq9/client.py:273-281 | The SDKs agree on all environments if and only if auto-ack is off or the group is given and not empty |
| OffsetLaws.RetryLaw | python/mq9/client.py:273-288 | Whatever handlers and acks of a batch do and whatever is sent meanwhile, the next fetch starts right after the greatest id whose ack took effect, and redelivers exactly the rest of the batch in order before anything newer |
| OffsetLaws.BatchSettles | protocol.md:289-291 | The offset after a batch is determined by the last message of it whose ack took effect, whether or not the client saw the reply |
| Drain.Drained | go/client.go:361-406 | While one consumer drains a mailbox, the handled messages are a prefix of it, each once and in id order; after as many answered fetches as messages nothing is pending, and the non-empty fetches number between n/num_msgs and n |
| Drain.DrainedCounts | python/mq9/client.py:256-281 | While a mailbox is served without failures every SDK reports exactly the number of messages handled, whatever its options |
| Drain.PendingPartIsBatch | protocol.md:234-240 | What the loops of the trace model fetch is a batch that the many-worker model allows, so the two models speak of the same broker |
| LoopInMachine.LoopIsWorker | go/client.go:361-406 | In an environment whose answers come from the machine, with anyone else's steps in between, every run of the consume loop is a run of the machine, which hands over all that the loop's handler was called with |
| LoopInMachine.LoopSkipsNothing | go/client.go:361-406 | So on a first-in first-out mailbox no turn of the loop leaves an unseen stored message below the group offset |
| LoopInMachine.CallFollows | go/client.go:369-404 | Each fetch, handler call and ack that the loop makes in its turn is a move of the machine's worker, stale batches and lost acks included |
| LoopInMachine.LoneIsBacked | protocol.md:234-240 | Any environment whose batches are right is such an environment, whatever its handlers do and whatever acks it loses |
| NatsSession.Session.Run | rust/tests/client_test.rs:31-146 | On every input: the handler is called for exactly the publications of the stream that carry a reply, and the bytes written are the greeting and exactly one answer for each of them and for each PING, in order |
| NatsSession.Session.Loop | rust/tests/client_test.rs:64-146 | The loop acts on exactly the commands of the stream, keeps the subscription table of all SUB commands so far, and writes exactly the answers due |
| NatsSession.Session.Serve | rust/tests/client_test.rs:70-144 | One line and its body: the command it stands for, where the stream goes on, what changes in the table, and what is written |
| NatsSession.Session.Handshake | rust/tests/client_test.rs:47-62 | The session goes on after the first PING that follows a CONNECT line and answers it, and ends when the stream does before |
| NatsSession.Session.ReadHpub | rust/tests/client_test.rs:123-132 | The header section is skipped, the payload is what is left of the total length (none when the lengths do not fit), and the line end after it is consumed |
| NatsSession.Session.Respond | rust/tests/client_test.rs:134-141 | One MSG frame with the reply subject, a sid whose pattern covers it or the default, and the handler's bytes with their length |
| NatsFrames.FramesReadBack | rust/tests/client_test.rs:64-146 | Any sequence of well-formed SUB, PUB, HPUB, PING, PONG and UNSUB frames, UNSUB with or without a maximum, with any bytes in payloads and headers, is read back as exactly those frames at exact boundaries, headers removed |
| NatsFrames.FrameTaken | rust/tests/client_test.rs:66-142 | A frame is taken off the front of any stream and the rest is left as it was |
| NatsFrames.HandshakeTaken | rust/tests/client_test.rs:47-62 | A client's CONNECT and PING are consumed to the byte |
| NatsFrames.OneAnswerEach | rust/tests/client_test.rs:104-111 | There is exactly one MSG per publication that carries a reply, in request order, with its reply subject and the bytes the handler gave for it |
| NatsFrames.RepliesReadBack | rust/tests/client_test.rs:107-110 | A client reads back from the output every reply subject, sid and payload, byte for byte |
| NatsFrames.SessionEndToEnd | rust/tests/client_test.rs:31-146 | For any well-formed frames and any replies the session may give to them, a client reads the whole output, greeting included, back as one PONG and exactly those replies, and among them is exactly one answer per request, in order |
| NatsFrames.Converse | rust/tests/client_test.rs:31-146 | A session run on a client's hello and frames calls the handler for exactly the requests, and the client reads from its output one PONG and then the answer to each PING and each request, in order, byte for byte, on a subscription in force for its reply subject, or on sid 1 when none fits |
| NatsFrames.OddLinesAskNothing | rust/tests/client_test.rs:79-144 | SUB and PUB of fewer than three words, HPUB of fewer than four and lines with any other first word change nothing and consume only themselves |
| NatsFrames.OddPublish | rust/tests/client_test.rs:93-102 | A PUB of five words has no reply and its length in the third word; a length that is no number is none |
| NatsFrames.LengthsTaken | rust/tests/client_test.rs:98 | A length may have a plus sign and blanks around it, and one beyond 64 bits is none |
| NatsFrames.ShortPayloadIsPadded | rust/tests/client_test.rs:99-102 | A stream that ends within a payload leaves zero bytes in place of the rest |
| NatsFrames.EarlyPingIsPassed | rust/tests/client_test.rs:55-61 | A PING before the CONNECT line is not answered |
| Utf8.ValidExactly | rust/tests/client_test.rs:52 | A line is taken exactly when it is the encoding of some code points that are no surrogates |
| SubjectMatch.SubjectMatches | rust/tests/client_test.rs:160-181 | The two-pointer loop decides the recursive meaning of a pattern on every pattern and subject |
| SubjectMatch.DenotesPointwise | rust/tests/client_test.rs:159-181 | A pattern matches exactly the subjects that agree with it token by token up to its first `>`, with one or more tokens left for it, or with none left when there is no `>` |
| SubjectMatch.RestIsStars | rust/tests/client_test.rs:159 | A final `>` matches what some number of `*`, at least one, matches |
| SubjectMatch.FindSidFor | rust/tests/client_test.rs:150-157 | In whatever order the table is walked, a sid is found exactly when the pattern of some subscription agrees with the inbox token by token up to a `>`, and then it is the sid of one |
| SubjectMatch.DenotesExactly | rust/tests/client_test.rs:159-181 | The recursive meaning is that agreement: `*` or the same token at each place, and at a `>` at least one token left, without one none |
| SubjectMatch.InboxIsCovered | rust/tests/client_test.rs:150-157 | A subscription to a prefix and `.*` covers every inbox made of the prefix and one more token |
| TaskStore.ReadsLastSave | python/mq9/a2a/_task_store.py:42-75 | In every run of any number of stores on one mailbox, with failures and with deletes interleaved between their two requests, get returns the task of the last save under the id, unless a delete whose lookup came after that save took effect |
| TaskStore.Undisturbed | python/mq9/a2a/_task_store.py:42-75 | Operations on other tasks, lookups and other senders' mail never change what is read under an id |
| TaskStore.DropEffect | python/mq9/a2a/_task_store.py:71-73 | A delete removes its task exactly when the task was not saved since the delete's lookup, and never another task |
| TaskStore.RunSound | protocol.md:141 | Every run keeps the mailbox in id order, with at most one message per key and each task under its own key |
| TaskStore.PutUpdates | python/mq9/a2a/_task_store.py:42-53 | A save is an update of the map at the task's id |
| TaskStore.DeleteRemoves | python/mq9/a2a/_task_store.py:67-75 | A delete is a removal from the map at its id |
| TaskStore.DeleteIsTwoRequests | python/mq9/a2a/_task_store.py:70-73 | The delete of a store is, when nothing comes between, a lookup followed by the delete of what it found, and nothing when either fails |
| TaskStore.ListsEachOnce | python/mq9/a2a/_task_store.py:77-96 | When the limit covers the mailbox and no other sender's mail parses as a task, list returns every stored task exactly once and nothing else |
| TaskStore.ListIsCompleteExactly | python/mq9/a2a/_task_store.py:85-92 | In a mailbox shared with any other mail, list misses no stored task if and only if every task message of a store that is too old for the limit has a copy among those that are not |
| TaskStore.ListHoldsStored | python/mq9/a2a/_task_store.py:85-92 | When the limit covers the mailbox, list holds every stored task, whatever other senders put there |
| TaskStore.ListOfOwnExactly | python/mq9/a2a/_task_store.py:85-92 | When no other sender's mail parses as a task, list misses no stored task if and only if no message too old for the limit holds a task |
| TaskStore.ListOfStoresExactly | python/mq9/a2a/_task_store.py:85-86 | When only stores write to the mailbox, list misses no stored task if and only if the limit is at least the number of messages |
| TaskStore.ForeignMailHidesTask | python/mq9/a2a/_task_store.py:85-92 | A run with one stored task and one other mail, after which a list of one misses the task |
| TaskStore.Store.Save | python/mq9/a2a/_task_store.py:42-53 | One message with the key `task.` and the id replaces the one with that key, unless the store is not ready or the request is lost; then nothing changes; no other mailbox ever does |
| TaskStore.Store.Get | python/mq9/a2a/_task_store.py:55-65 | The stored task, or none when there is none, the store is not ready or the query fails |
| TaskStore.Store.Delete | python/mq9/a2a/_task_store.py:67-75 | When its requests reach the mailbox the task cannot be read any more; when one is lost or the store is not ready nothing changes |
| TaskStore.Store.List | python/mq9/a2a/_task_store.py:77-96 | The tasks among the most recent messages, as many as the page size when it is positive and 100 otherwise, each of them and in their order, skipping what does not parse |
| TaskStore.ListAfterRun | python/mq9/a2a/_task_store.py:77-96 | A list with a page size after any run: when it is complete, when it returns each stored task exactly once, and what other senders can hide, all in terms of the page size |
| Cancel.Agent.HandleCancelTask | python/mq9/a2a/agent.py:429-452 | All that one cancel call does to all mailboxes, with any of its requests failing |
| Cancel.CancelChangesOneStatus | python/mq9/a2a/agent.py:432-437 | Cancelling a stored task sets its status to CANCELED and changes neither its other fields nor any other task, wherever the notice and the answer go |
| Cancel.CancelOfUnknown | python/mq9/a2a/agent.py:434-449 | Cancelling an unknown id leaves every mailbox but the inbox as it was; the inbox gets one critical notice that is not marked as last |
| Cancel.CancelTells | python/mq9/a2a/agent.py:429-450 | What every mailbox holds afterwards, whichever addresses coincide, are missing or get nothing: the marked task, then the notice in the inbox, then the cancelled task at the reply address, and nothing else |
| Cancel.CancelInRun | python/mq9/a2a/agent.py:434-437 | With other operations between its read and its write, a cancel stores the cancelled form of what it read and touches no other task; that is the cancelled form of the task stored by then if and only if the save standing there differs from what was read in its status only |
| Cancel.CancelLosesResult | python/mq9/a2a/agent.py:434-437 | A run in which a result saved while a cancel was under way is gone after it |
| Cancel.CancelRestoresDeleted | python/mq9/a2a/agent.py:434-437 | A run in which a task deleted while a cancel was under way is back after it |
| PythonReplies.HandleSendMessage | python/mq9/a2a/agent.py:372-407 | All that one request makes the agent send, for every handler ending, with and without a reply address; an event that cannot be encoded makes the handler fail there |
| PythonReplies.SentExactly | python/mq9/a2a/agent.py:394-407 | The replies spelled out: the events unmarked with the task id if one is given, a FAILED status marked as last without it after a failure, and a COMPLETED status marked as last with it |
| PythonReplies.ForwardingEventQueue.FlushLast | python/mq9/a2a/agent.py:500-509 | The closing marker is sent by the first call and by no other |
| PythonReplies.ReaderSeesTheRun | python/mq9/a2a/agent.py:394-407 | When all sends arrive, a reader that stops at the first mark sees the handler's events in order and one terminal event, COMPLETED or FAILED as the handler ended, however its fetches fall between the arrivals; there is one mark, or two after a failure |
| PythonReplies.RepliesKeepOrder | python/mq9/a2a/agent.py:522-547 | In every interleaving of arrivals and fetches, a reader served by priority has read a prefix of what arrived, which is an in-order part of what was sent, and it ends with all that was sent if and only if no send was lost |
| PythonReplies.RaisedReplyOvertakes | python/mq9/a2a/agent.py:522-547 | Were one of the replies sent at a higher priority, every reader would still read in order if and only if it is the first |
| ReplyStreams.ReadInOrderExactly | protocol.md:162 | All interleavings of arrivals and fetches read a mailbox in the order it was sent if and only if no message is more urgent than an earlier one |
| ReplyStreams.SeenByReader | protocol.md:162 | When priorities never rise, a reader that stops at the first mark sees what one would see that reads the messages as sent |
| ReplyStreams.OvertakesExactly | protocol.md:162 | Of two messages the second can be read first if and only if it is critical and the first is not, or urgent and the first normal |
| ReplyStreams.MarksExactly | python/mq9/a2a/agent.py:534-535 | The marks that the results count are the replies whose last-mark is set |
| PythonReplies.OutcomeAsRead | python/mq9/a2a/agent.py:394-407 | For every pattern of losses and fetches, what outcome the reader sees: FAILED exactly when the report arrives, otherwise COMPLETED exactly when the marker does, otherwise none |
| PythonReplies.FailureIsNotRouted | python/mq9/a2a/agent.py:394-399 | A reader that follows the task id sees a failed run as its events and COMPLETED |
| JavaReplies.HandleSendMessage | java/src/main/java/io/mq9/a2a/Mq9A2AAgent.java:298-331 | All that one request makes the agent send, for a handler that completes, fails or throws, and for one that goes on only after a successful send as well as one that recovers |
| JavaReplies.SentExactly | java/src/main/java/io/mq9/a2a/ForwardingEventQueue.java:29-63 | The replies spelled out: each event marked as last if and only if it is a status update that is final, a final FAILED status after a failure, and a final COMPLETED status when no final status was enqueued and the handler has returned |
| JavaReplies.KeptExactly | java/src/main/java/io/mq9/a2a/Mq9A2AAgent.java:335-342 | What is sent of the events is each one that can be encoded, as often as enqueued and in order |
| JavaReplies.HaltedExactly | java/src/main/java/io/mq9/a2a/Mq9A2AAgent.java:347-348 | A handler that chains its sends halts if and only if one of them fails, and has then enqueued the events up to the first such one |
| JavaReplies.RunHandler | java/src/main/java/io/mq9/a2a/ForwardingEventQueue.java:29-36 | A handler that chains its enqueues fails exactly when some send does not succeed, and has then enqueued the events up to that one |
| JavaReplies.ForwardingEventQueue.Enqueue | java/src/main/java/io/mq9/a2a/ForwardingEventQueue.java:29-36 | An event goes out with the task id and is remembered when it is final, even if it is never sent; one that cannot be encoded is dropped as a success, and a failed send is a failure |
| JavaReplies.ForwardingEventQueue.FlushLast | java/src/main/java/io/mq9/a2a/ForwardingEventQueue.java:42-53 | The sentinel goes out only when nothing final was enqueued and no sentinel was sent |
| JavaReplies.MarksArePerFinal | java/src/main/java/io/mq9/a2a/ForwardingEventQueue.java:29-53 | For a handler that completes and sends that all arrive, there is a mark for each final event that can be encoded, or without a final event one for the sentinel: max(1, k) for k final events when all can be encoded; every event carries the task id |
| JavaReplies.SeesAllExactly | java/src/main/java/io/mq9/a2a/ForwardingEventQueue.java:29-53 | For a handler that completes and sends that all arrive, a reader that stops at the first mark misses nothing that was sent if and only if no encodable event follows the first encodable final one, however its fetches fall |
| JavaReplies.OneMarkAtTheEnd | java/src/main/java/io/mq9/a2a/ForwardingEventQueue.java:38-53 | For a handler that completes and sends that all arrive, with at most one encodable final event, and that one last among the encodable events: exactly one mark if one is due, it ends the stream, and the reader sees the whole stream; none is due only when the final events or the sentinel cannot be encoded |
| JavaReplies.ClosedExactly | java/src/main/java/io/mq9/a2a/Mq9A2AAgent.java:322-349 | For given events and a given ending, whatever cannot be encoded and whatever sends are lost, the stream is closed if and only if a final event, the report of a failure or the sentinel gets through |
| JavaReplies.ChainedClosedExactly | java/src/main/java/io/mq9/a2a/Mq9A2AAgent.java:322-349 | For a handler that chains its sends, whatever can be encoded, by where the first send fails: if none does, the stream is closed by an encodable final event or, without final events, by the sentinel; else if and only if a final event went out before, the failed send was one and only its confirmation was lost, or the report or a due sentinel arrives |
| JavaReplies.FailureAsRead | java/src/main/java/io/mq9/a2a/Mq9A2AAgent.java:322-331 | When all sends arrive, whatever can be encoded, the reader of a failed handler sees up to the first final event sent, and without one all events sent and then the first of report and due sentinel |
| FetchText.Print | langchain-mq9/langchain_mq9/tools.py:153-163 | The printed text is the header and one line per message, joined by line feeds |
| FetchText.LastIdFound | langchain-mq9/examples/langgraph_agent.py:70-73 | Whatever address and earlier contents hold, the reader gets the last message's id, unless the last content itself holds a match, and then the last match of that content |
| FetchText.FindNothingExactly | langchain-mq9/examples/langgraph_agent.py:72 | The scan finds nothing if and only if `msg_id=` stands nowhere before a digit |
| FetchText.FindInLine | langchain-mq9/langchain_mq9/tools.py:162 | A printed line gives the id of its message first and then only what its content gives |
| FetchText.LineReadsBack | langchain-mq9/langchain_mq9/tools.py:162 | Cut at its blanks, a printed line gives back id, priority and the whole content |
| FetchText.HeaderSays | langchain-mq9/langchain_mq9/tools.py:156 | The header begins with the number of messages and ends with the id of the last |
| FetchText.AckedExactly | langchain-mq9/examples/langgraph_agent.py:58-73 | An empty fetch is never acknowledged; a batch is acknowledged at its last message if and only if its text nowhere says "No messages", that message's id is not 0 and its content does not end in another id; when instead nothing or that other id is acknowledged, and when the agent fails, is stated exactly |
| FetchText.ContainsExactly | langchain-mq9/examples/langgraph_agent.py:58 | A text contains another exactly when it is that text with something before and after it |
| Subjects.SubjectReadsBack | go/client.go:22-49 | Every subject tells its operation, address and id, for any address, dotted or not, and any id |
| Subjects.SubjectInjective | rust/src/client.rs:19-48 | No two operations share a subject |
| Subjects.SubjectsSpelled | go/client.go:20-49 | The ten subjects, letter for letter |
| Subjects.DeleteReadsBack | go/client.go:42-44 | Cutting a DELETE subject at its last dot recovers address and id, negative ids included |
| Subjects.VerbPatternRoutes | rust/src/client.rs:22-36 | The wildcard pattern of a verb matches exactly the subjects of that operation, among all operations |
| SendHeaders.GoHeaders | go/client.go:213-232 | The five header names and their values, each present exactly when its option differs from its default, and no other header |
| SendHeaders.JavaHeaders | java/src/main/java/io/mq9/Mq9Client.java:450-470 | The five header names and their values, each present exactly when its option is given, the normal priority included, and no other header |
| SendHeaders.GoReadsBack | go/client.go:213-232 | Decoding Go's headers gives what its options mean if and only if no tag holds a comma |
| SendHeaders.JavaReadsBack | java/src/main/java/io/mq9/Mq9Client.java:450-470 | Decoding Java's headers gives what its options mean if and only if no tag holds a comma |
| SendHeaders.WishArrives | go/client.go:213-232 | The same wish arrives unchanged through both clients if its tags have no comma and it asks for nothing that Go takes for missing (exact for each client), and the two header sets then differ only in the normal priority |
| Text.SplitJoin | java/src/main/java/io/mq9/Mq9Client.java:465-467 | Splitting undoes joining exactly when no part holds the separator |
| Text.SignedDecimalParses | go/client.go:43 | Every printed id reads back as itself |

## Left out

- NATS connections, reconnects, timeouts and the time between retries: only how a request turns out is modelled.
- JSON, protobuf and base64 coding: assumed as above.
- Broker storage, ttl, delayed messages, clustering and discovery: not in the repository; no offset theorem speaks of
  mailboxes with keys, delays or ttl.
- Exactly-once delivery between competing workers: the protocol has no lease and does not promise it.
- Python's `Consumer.stop`, which cancels the loop's task at an arbitrary await, and the C# loop.
- A second call of Go's `Stop`, which panics, and a Rust consumer dropped without stop.
- Panics and exceptions of error handlers: an error handler returns before the loop goes on.
- Python's send options and their headers: Go and Java are the two ends of what the SDKs do here.
- NatsSession.Session.Run: memory is unbounded, so a length too large to allocate ends in no failure.
- JavaReplies.HandleSendMessage: the handler makes its enqueues one after the other; sends that it leaves running side by
  side, and so out of order, are not modelled. The report of a failure is not awaited, so either order of the report and
  the sentinel is allowed.
- PythonReplies.HandleSendMessage: the handler enqueues its events one after the other, a send under way is not
  interrupted by a cancellation, and what others write to the same reply mailbox is not part of the stream.
- Cancel.Agent.HandleCancelTask: the object runs a call in one piece; other operations between its requests are covered
  by Cancel.CancelInRun on the task's mailbox only.
- ConsumeLoop.Consumer.ConsumeCountingFirst: the loop is ended after some number of turns; where exactly a stop ends it is
  the matter of StopProtocol.
- Heartbeats, registry calls, GetTask and ListTasks requests, and the demos: plumbing around what is modelled.
