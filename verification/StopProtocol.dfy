/** One consume loop and the calls of `stop`, interleaved step by step, for the four SDKs that stop by a signal. Each
    check of the signal, each request, each handler call and each flag write is a step of its own. */
module StopProtocol {

  datatype Sdk = Go | Java | Rust | Js

  /** Where the loop stands. `left` counts the messages of the batch not yet looked at. */
  datatype Pc =
    | Top
    | WillFetch
    | Fetching
    | Sleeping
    | Between(left: nat)
    | WillHandle(left: nat)
    | Handling(left: nat)
    | ErrorHandling(left: nat)
    | Counting(left: nat)
    | WillAck(left: nat)
    | Acking(left: nat)
    | Leaving
    | FlagDown
    | Exited

  /** `signal` is the closed channel, the one-shot message or the cleared flag; `running` is what the SDK reports;
      `finished` is the released wait group, the ended task or the resolved future. `waiting` calls of stop are under way
      and `returned` calls are over. The other counters count what began. */
  datatype State = State(
    pc: Pc,
    waiting: nat,
    returned: nat,
    signal: bool,
    running: bool,
    finished: bool,
    fetches: nat,
    handlers: nat,
    acks: nat,
    processed: nat)

  const START := State(Top, 0, 0, false, true, false, 0, 0, 0, 0)

  /** Java and JavaScript signal through the flag they report; Go and Rust have a signal of its own. */
  predicate FlagIsSignal(sdk: Sdk) {
    sdk.Java? || sdk.Js?
  }

  /** One step of the loop. What a request or a handler returns is left open; `acks` says whether the loop acks what was
      handled. */
  predicate LoopStep(sdk: Sdk, acks: bool, s: State, t: State) {
    match s.pc
    case Top => t == s.(pc := if s.signal then Leaving else WillFetch)
    case WillFetch => t == s.(pc := Fetching, fetches := s.fetches + 1)
    case Fetching =>
      || (t.pc.Between? && (sdk.Js? ==> t.pc.left > 0) && t == s.(pc := t.pc))
      || (sdk.Js? && t == s.(pc := Sleeping))
      || (sdk.Java? && t == s.(pc := if s.signal then Leaving else Sleeping))
      || (!FlagIsSignal(sdk) && t == s.(pc := Sleeping))
    case Sleeping => t == s.(pc := Top) || (sdk.Go? && s.signal && t == s.(pc := Leaving))
    case Between(left) =>
      if left == 0 then t == s.(pc := Top)
      else if s.signal then t == s.(pc := if FlagIsSignal(sdk) then Top else Leaving)
      else t == s.(pc := WillHandle(left - 1))
    case WillHandle(left) => t == s.(pc := Handling(left), handlers := s.handlers + 1)
    case Handling(left) =>
      || t == s.(pc := ErrorHandling(left))
      || t == s.(pc := if sdk.Js? && acks then WillAck(left) else Counting(left))
    case ErrorHandling(left) => t == s.(pc := Between(left))
    case Counting(left) =>
      t == s.(pc := if !sdk.Js? && acks then WillAck(left) else Between(left), processed := s.processed + 1)
    case WillAck(left) => t == s.(pc := Acking(left), acks := s.acks + 1)
    case Acking(left) =>
      if sdk.Js? then t == s.(pc := Counting(left)) || t == s.(pc := ErrorHandling(left))
      else t == s.(pc := Between(left))
    case Leaving => t == s.(pc := FlagDown, running := false)
    case FlagDown => t == s.(pc := Exited, finished := true)
    case Exited => false
  }

  /** JavaScript runs on one thread: the caller of `stop` gets it only while the loop awaits something. */
  predicate Yields(sdk: Sdk, pc: Pc) {
    sdk.Js? ==> pc.Fetching? || pc.Sleeping? || pc.Handling? || pc.ErrorHandling? || pc.Acking? || pc.Exited?
  }

  /** Java and JavaScript let stop be called again; Go panics on a second call, and Rust's stop takes the consumer. */
  predicate Repeats(sdk: Sdk) {
    sdk.Java? || sdk.Js?
  }

  /** One step of a caller of `stop`: give the signal, or return when the loop is over. */
  predicate StopStep(sdk: Sdk, s: State, t: State) {
    Yields(sdk, s.pc) && (
      || ((!s.signal || Repeats(sdk)) &&
          t == s.(waiting := s.waiting + 1, signal := true, running := s.running && !FlagIsSignal(sdk)))
      || (s.waiting > 0 && s.finished && t == s.(waiting := s.waiting - 1, returned := s.returned + 1)))
  }

  predicate Next(sdk: Sdk, acks: bool, s: State, t: State) {
    LoopStep(sdk, acks, s, t) || StopStep(sdk, s, t)
  }

  predicate NextAt(sdk: Sdk, acks: bool, run: seq<State>, i: nat)
    requires i + 1 < |run|
  {
    Next(sdk, acks, run[i], run[i + 1])
  }

  ghost predicate Run(sdk: Sdk, acks: bool, run: seq<State>) {
    && run != [] && run[0] == START
    && forall i :: 0 <= i && i + 1 < |run| ==> NextAt(sdk, acks, run, i)
  }

  function Begun(s: State): nat {
    s.fetches + s.handlers
  }

  // ---------------------------------------------------------------- what every state keeps

  /** Past the last look at the signal and before the call it guards. */
  predicate Committed(pc: Pc) {
    pc.WillFetch? || pc.WillHandle?
  }

  ghost predicate Invariant(sdk: Sdk, s: State) {
    && (s.signal <==> s.waiting + s.returned > 0)
    && (sdk.Go? || sdk.Rust? ==> s.waiting + s.returned <= 1)
    && (s.finished <==> s.pc.Exited?)
    && (s.returned > 0 ==> s.finished)
    && (s.pc.FlagDown? || s.pc.Exited? ==> !s.running)
    && (s.pc.Leaving? || s.pc.FlagDown? || s.pc.Exited? ==> s.signal)
    && (!s.running <==> s.pc.FlagDown? || s.pc.Exited? || (FlagIsSignal(sdk) && s.signal))
    && (sdk.Js? && s.signal ==> !Committed(s.pc))
  }

  /** An ack may still begin before the signal is looked at again. */
  predicate MayAck(sdk: Sdk, pc: Pc) {
    pc.WillHandle? || pc.Handling? || pc.WillAck? || (pc.Counting? && !sdk.Js?)
  }

  /** The fetch and handler calls begun, with the one that may still begin before the signal is looked at. */
  function CallBound(s: State): nat {
    Begun(s) + if Committed(s.pc) then 1 else 0
  }

  function AckBound(sdk: Sdk, s: State): nat {
    s.acks + if MayAck(sdk, s.pc) then 1 else 0
  }

  /** The steps a signalled loop has left at most. */
  function Measure(sdk: Sdk, pc: Pc): (m: nat)
    ensures m <= 9
    ensures m == 0 <==> pc.Exited?
  {
    match pc
    case Exited => 0
    case FlagDown => 1
    case Leaving => 2
    case Top => 3
    case Between(_) => 4
    case Sleeping => 4
    case ErrorHandling(_) => 5
    case Fetching => 5
    case WillFetch => 6
    case Acking(_) => if sdk.Js? then 6 else 5
    case WillAck(_) => if sdk.Js? then 7 else 6
    case Counting(_) => if sdk.Js? then 5 else 7
    case Handling(_) => 8
    case WillHandle(_) => 9
  }

  /** What a signalled state bounds: the calls still to begin and the steps still to take. */
  lemma SignalledStep(sdk: Sdk, acks: bool, s: State, t: State)
    requires s.signal && LoopStep(sdk, acks, s, t)
    ensures t.signal && Measure(sdk, t.pc) < Measure(sdk, s.pc)
    ensures CallBound(t) <= CallBound(s) && AckBound(sdk, t) <= AckBound(sdk, s)
  {
  }

  lemma StepKeeps(sdk: Sdk, acks: bool, s: State, t: State)
    requires Invariant(sdk, s)
    requires Next(sdk, acks, s, t)
    ensures Invariant(sdk, t)
  {
  }

  lemma {:induction false} RunKeeps(sdk: Sdk, acks: bool, run: seq<State>, i: nat)
    requires Run(sdk, acks, run) && i < |run|
    ensures Invariant(sdk, run[i])
  {
    if i > 0 {
      hide Next;
      hide Invariant;
      RunKeeps(sdk, acks, run, i - 1);
      assert NextAt(sdk, acks, run, i - 1);
      StepKeeps(sdk, acks, run[i - 1], run[i]);
    }
  }

  // ---------------------------------------------------------------- after the signal

  /** Neither step is one of a caller of stop. */
  predicate SameCallers(s: State, t: State) {
    s.waiting == t.waiting && s.returned == t.returned
  }

  /** How many steps of run[i..j] the loop took; the others were the callers'. */
  function LoopSteps(run: seq<State>, i: nat, j: nat): nat
    requires i <= j < |run|
    decreases j
  {
    if i == j then 0 else LoopSteps(run, i, j - 1) + if SameCallers(run[j - 1], run[j]) then 1 else 0
  }

  /** A step of either side of a signalled state. */
  lemma SignalledNext(sdk: Sdk, acks: bool, s: State, t: State)
    requires s.signal && Next(sdk, acks, s, t) && Invariant(sdk, s)
    ensures t.signal
    ensures Measure(sdk, t.pc) + (if SameCallers(s, t) then 1 else 0) <= Measure(sdk, s.pc)
    ensures CallBound(t) <= CallBound(s) && AckBound(sdk, t) <= AckBound(sdk, s)
  {
    if LoopStep(sdk, acks, s, t) {
      SignalledStep(sdk, acks, s, t);
    }
  }

  lemma {:induction false} SignalledRun(sdk: Sdk, acks: bool, run: seq<State>, i: nat, j: nat)
    requires Run(sdk, acks, run) && i <= j < |run| && run[i].signal
    ensures run[j].signal
    ensures LoopSteps(run, i, j) + Measure(sdk, run[j].pc) <= Measure(sdk, run[i].pc)
    ensures CallBound(run[j]) <= CallBound(run[i]) && AckBound(sdk, run[j]) <= AckBound(sdk, run[i])
    decreases j
  {
    hide Next;
    hide Invariant;
    hide Measure;
    hide CallBound;
    hide AckBound;
    if i < j {
      SignalledRun(sdk, acks, run, i, j - 1);
      assert NextAt(sdk, acks, run, j - 1);
      RunKeeps(sdk, acks, run, j - 1);
      SignalledNext(sdk, acks, run[j - 1], run[j]);
    }
  }

  lemma BegunNext(sdk: Sdk, acks: bool, s: State, t: State)
    requires Next(sdk, acks, s, t)
    ensures Begun(s) <= Begun(t)
  {
  }

  lemma {:induction false} BegunGrows(sdk: Sdk, acks: bool, run: seq<State>, i: nat, j: nat)
    requires Run(sdk, acks, run) && i <= j < |run|
    ensures Begun(run[i]) <= Begun(run[j])
    decreases j
  {
    if i < j {
      hide Next;
      BegunGrows(sdk, acks, run, i, j - 1);
      assert NextAt(sdk, acks, run, j - 1);
      BegunNext(sdk, acks, run[j - 1], run[j]);
    }
  }

  /** In every interleaving, once the signal is given at most one more fetch or handler call (in JavaScript none) and at
      most one more ack begins, and the loop takes at most nine more steps. */
  lemma AtMostOneMore(sdk: Sdk, acks: bool, run: seq<State>, i: nat, j: nat)
    requires Run(sdk, acks, run) && i <= j < |run| && run[i].signal
    ensures Begun(run[j]) <= Begun(run[i]) + 1
    ensures sdk.Js? ==> Begun(run[j]) == Begun(run[i])
    ensures run[j].acks <= run[i].acks + 1
    ensures LoopSteps(run, i, j) <= 9
  {
    RunKeeps(sdk, acks, run, i);
    BegunGrows(sdk, acks, run, i, j);
    SignalledRun(sdk, acks, run, i, j);
  }

  /** A signalled loop that has not exited can always take a step, and every caller can return when it has: so after nine
      loop steps all calls of stop can return. */
  lemma NeverStuck(sdk: Sdk, acks: bool, s: State)
    requires Invariant(sdk, s) && s.signal
    ensures !s.pc.Exited? ==> exists t :: LoopStep(sdk, acks, s, t)
    ensures s.pc.Exited? && s.waiting > 0 ==> exists t :: StopStep(sdk, s, t) && t.returned == s.returned + 1
  {
    if s.pc.Exited? {
      if s.waiting > 0 {
        assert StopStep(sdk, s, s.(waiting := s.waiting - 1, returned := s.returned + 1));
      }
    } else {
      var t := OneStep(sdk, acks, s);
    }
  }

  lemma OneStep(sdk: Sdk, acks: bool, s: State) returns (t: State)
    requires s.signal && !s.pc.Exited?
    ensures LoopStep(sdk, acks, s, t)
  {
    match s.pc {
      case Top => t := s.(pc := Leaving);
      case WillFetch => t := s.(pc := Fetching, fetches := s.fetches + 1);
      case Fetching => t := s.(pc := if sdk.Java? then Leaving else Sleeping);
      case Sleeping => t := s.(pc := Top);
      case Between(left) => t := s.(pc := if left == 0 || FlagIsSignal(sdk) then Top else Leaving);
      case WillHandle(left) => t := s.(pc := Handling(left), handlers := s.handlers + 1);
      case Handling(left) => t := s.(pc := ErrorHandling(left));
      case ErrorHandling(left) => t := s.(pc := Between(left));
      case Counting(left) =>
        t := s.(pc := if !sdk.Js? && acks then WillAck(left) else Between(left), processed := s.processed + 1);
      case WillAck(left) => t := s.(pc := Acking(left), acks := s.acks + 1);
      case Acking(left) => t := s.(pc := if sdk.Js? then ErrorHandling(left) else Between(left));
      case Leaving => t := s.(pc := FlagDown, running := false);
      case FlagDown => t := s.(pc := Exited, finished := true);
    }
  }

  /** Once any call of stop has returned, the SDK reports that it is not running, the loop has exited, and whatever further
      calls of stop there are, nothing is ever fetched, handled, acked or counted again. */
  lemma StoppedForGood(sdk: Sdk, acks: bool, run: seq<State>, i: nat, j: nat)
    requires Run(sdk, acks, run) && i <= j < |run| && run[i].returned > 0
    ensures !run[j].running && run[j].pc.Exited?
    ensures Begun(run[j]) == Begun(run[i]) && run[j].acks == run[i].acks && run[j].processed == run[i].processed
  {
    RunKeeps(sdk, acks, run, i);
    StaysExited(sdk, acks, run, i, j);
    RunKeeps(sdk, acks, run, j);
  }

  lemma {:induction false} StaysExited(sdk: Sdk, acks: bool, run: seq<State>, i: nat, j: nat)
    requires Run(sdk, acks, run) && i <= j < |run| && run[i].pc.Exited?
    ensures run[j].pc.Exited?
    ensures Begun(run[j]) == Begun(run[i]) && run[j].acks == run[i].acks && run[j].processed == run[i].processed
    decreases j
  {
    if i < j {
      StaysExited(sdk, acks, run, i, j - 1);
      assert NextAt(sdk, acks, run, j - 1);
    }
  }

  // ---------------------------------------------------------------- what "not running" means

  /** Whenever the SDK reports that it is not running, no fetch, handler call or ack begins any more. */
  ghost predicate NotRunningIsFinal(sdk: Sdk, acks: bool) {
    forall run: seq<State>, i: nat, j: nat :: Run(sdk, acks, run) && 0 <= i <= j < |run| && !run[i].running ==>
      Begun(run[j]) == Begun(run[i]) && run[j].acks == run[i].acks
  }

  lemma {:induction false} FlagDownIsFinal(sdk: Sdk, acks: bool, run: seq<State>, i: nat, j: nat)
    requires Run(sdk, acks, run) && i <= j < |run| && (run[i].pc.FlagDown? || run[i].pc.Exited?)
    ensures run[j].pc.FlagDown? || run[j].pc.Exited?
    ensures Begun(run[j]) == Begun(run[i]) && run[j].acks == run[i].acks
    decreases j
  {
    if i < j {
      hide Next;
      FlagDownIsFinal(sdk, acks, run, i, j - 1);
      assert NextAt(sdk, acks, run, j - 1);
      FlagDownNext(sdk, acks, run[j - 1], run[j]);
    }
  }

  lemma FlagDownNext(sdk: Sdk, acks: bool, s: State, t: State)
    requires Next(sdk, acks, s, t) && (s.pc.FlagDown? || s.pc.Exited?)
    ensures t.pc.FlagDown? || t.pc.Exited?
    ensures Begun(t) == Begun(s) && t.acks == s.acks
  {
  }

  ghost predicate Leads(sdk: Sdk, acks: bool, run: seq<State>, s: State) {
    Run(sdk, acks, run) && run[|run| - 1] == s
  }

  lemma Grow(sdk: Sdk, acks: bool, run: seq<State>, s: State, t: State) returns (longer: seq<State>)
    requires Leads(sdk, acks, run, s) && Next(sdk, acks, s, t)
    ensures longer == run + [t] && Leads(sdk, acks, longer, t)
  {
    hide Next;
    longer := run + [t];
    forall i | 0 <= i && i + 1 < |longer| ensures NextAt(sdk, acks, longer, i) {
      if i + 1 < |run| {
        assert NextAt(sdk, acks, run, i);
      }
    }
  }

  function Fetched(): State {
    START.(pc := Between(1), fetches := 1)
  }

  function InHandler(): State {
    START.(pc := Handling(0), fetches := 1, handlers := 1)
  }

  lemma FirstSteps(sdk: Sdk, acks: bool)
    ensures Next(sdk, acks, START, START.(pc := WillFetch))
    ensures Next(sdk, acks, START.(pc := WillFetch), START.(pc := Fetching, fetches := 1))
    ensures Next(sdk, acks, START.(pc := Fetching, fetches := 1), Fetched())
    ensures Next(sdk, acks, Fetched(), Fetched().(pc := WillHandle(0)))
    ensures Next(sdk, acks, Fetched().(pc := WillHandle(0)), InHandler())
  {
  }

  lemma ReachHandler(sdk: Sdk, acks: bool) returns (run: seq<State>)
    ensures Leads(sdk, acks, run, InHandler())
  {
    run := [START];
    assert Leads(sdk, acks, run, START);
    hide *;
    FirstSteps(sdk, acks);
    run := Grow(sdk, acks, run, START, START.(pc := WillFetch));
    run := Grow(sdk, acks, run, START.(pc := WillFetch), START.(pc := Fetching, fetches := 1));
    run := Grow(sdk, acks, run, START.(pc := Fetching, fetches := 1), Fetched());
    run := Grow(sdk, acks, run, Fetched(), Fetched().(pc := WillHandle(0)));
    run := Grow(sdk, acks, run, Fetched().(pc := WillHandle(0)), InHandler());
  }

  function Down(s: State): State {
    s.(waiting := 1, signal := true, running := false)
  }

  /** What a signalled loop goes through from its handler to its ack. */
  function Handled(sdk: Sdk): State {
    Down(InHandler()).(processed := if sdk.Java? then 1 else 0)
  }

  lemma AckSteps(sdk: Sdk)
    requires FlagIsSignal(sdk)
    ensures Next(sdk, true, InHandler(), Down(InHandler()))
    ensures sdk.Js? ==> Next(sdk, true, Down(InHandler()), Handled(sdk).(pc := WillAck(0)))
    ensures sdk.Java? ==> Next(sdk, true, Down(InHandler()), Down(InHandler()).(pc := Counting(0)))
    ensures sdk.Java? ==> Next(sdk, true, Down(InHandler()).(pc := Counting(0)), Handled(sdk).(pc := WillAck(0)))
    ensures Next(sdk, true, Handled(sdk).(pc := WillAck(0)), Handled(sdk).(pc := Acking(0), acks := 1))
  {
  }

  /** Stop called while a handler runs: the flag is down, and then the ack of its message begins. */
  lemma AckAfterFlag(sdk: Sdk)
    requires FlagIsSignal(sdk)
    ensures !NotRunningIsFinal(sdk, true)
  {
    var run := ReachHandler(sdk, true);
    hide Run;
    hide Next;
    AckSteps(sdk);
    run := Grow(sdk, true, run, InHandler(), Down(InHandler()));
    var down := |run| - 1;
    if sdk.Java? {
      run := Grow(sdk, true, run, Down(InHandler()), Down(InHandler()).(pc := Counting(0)));
      run := Grow(sdk, true, run, Down(InHandler()).(pc := Counting(0)), Handled(sdk).(pc := WillAck(0)));
    } else {
      run := Grow(sdk, true, run, Down(InHandler()), Handled(sdk).(pc := WillAck(0)));
    }
    run := Grow(sdk, true, run, Handled(sdk).(pc := WillAck(0)), Handled(sdk).(pc := Acking(0), acks := 1));
    assert !run[down].running && run[down].acks == 0 && run[|run| - 1].acks == 1;
  }

  lemma FetchSteps(acks: bool)
    ensures Next(Java, acks, START, START.(pc := WillFetch))
    ensures Next(Java, acks, START.(pc := WillFetch), Down(START.(pc := WillFetch)))
    ensures Next(Java, acks, Down(START.(pc := WillFetch)), Down(START.(pc := Fetching, fetches := 1)))
  {
  }

  /** Stop called between Java's look at the flag and its fetch: the flag is down, and then the fetch begins. */
  lemma FetchAfterFlag(acks: bool)
    ensures !NotRunningIsFinal(Java, acks)
  {
    var run := [START];
    assert Leads(Java, acks, run, START);
    hide Run;
    hide Next;
    FetchSteps(acks);
    run := Grow(Java, acks, run, START, START.(pc := WillFetch));
    run := Grow(Java, acks, run, START.(pc := WillFetch), Down(START.(pc := WillFetch)));
    run := Grow(Java, acks, run, Down(START.(pc := WillFetch)), Down(START.(pc := Fetching, fetches := 1)));
    assert !run[2].running && Begun(run[2]) == 0 && Begun(run[3]) == 1;
  }

  /** "Not running" promises that nothing is called any more exactly in the SDKs with a stop signal of its own, and in
      JavaScript for a consumer that does not ack; otherwise only the future that stop returns promises it. */
  lemma NotRunningExactly(sdk: Sdk, acks: bool)
    ensures NotRunningIsFinal(sdk, acks) <==> !FlagIsSignal(sdk) || (sdk.Js? && !acks)
  {
    if sdk.Java? {
      FetchAfterFlag(acks);
    } else if FlagIsSignal(sdk) && acks {
      AckAfterFlag(sdk);
    } else {
      forall run: seq<State>, i: nat, j: nat | Run(sdk, acks, run) && 0 <= i <= j < |run| && !run[i].running
        ensures Begun(run[j]) == Begun(run[i]) && run[j].acks == run[i].acks
      {
        RunKeeps(sdk, acks, run, i);
        if sdk.Js? {
          hide Invariant;
          assert run[i].signal;
          AtMostOneMore(sdk, acks, run, i, j);
          CountsAndAcksEach(sdk, acks, run, i);
          CountsAndAcksEach(sdk, acks, run, j);
        } else {
          FlagDownIsFinal(sdk, acks, run, i, j);
        }
      }
    }
  }

  // ---------------------------------------------------------------- the loop does its work

  /** Messages of the current batch whose handler call has not begun. */
  function ToCome(pc: Pc): nat {
    match pc
    case Between(left) => left
    case WillHandle(left) => left + 1
    case Handling(left) => left
    case ErrorHandling(left) => left
    case Counting(left) => left
    case WillAck(left) => left
    case Acking(left) => left
    case _ => 0
  }

  /** The messages that this step brings. */
  function Brings(s: State, t: State): nat {
    if s.pc.Fetching? && t.pc.Between? then t.pc.left else 0
  }

  /** A handler call that ends without an error. */
  predicate Succeeds(s: State, t: State) {
    s.pc.Handling? && !t.pc.Handling? && !t.pc.ErrorHandling?
  }

  /** An ack that ends without an error that the loop takes for one of the message. */
  predicate Confirms(s: State, t: State) {
    s.pc.Acking? && !t.pc.Acking? && !t.pc.ErrorHandling?
  }

  /** The messages fetched in run[..i + 1]. */
  function Arrived(run: seq<State>, i: nat): nat
    requires i < |run|
  {
    if i == 0 then 0 else Arrived(run, i - 1) + Brings(run[i - 1], run[i])
  }

  function Successes(run: seq<State>, i: nat): nat
    requires i < |run|
  {
    if i == 0 then 0 else Successes(run, i - 1) + if Succeeds(run[i - 1], run[i]) then 1 else 0
  }

  function Confirmed(run: seq<State>, i: nat): nat
    requires i < |run|
  {
    if i == 0 then 0 else Confirmed(run, i - 1) + if Confirms(run[i - 1], run[i]) then 1 else 0
  }

  /** A caller of stop leaves the loop where it is. */
  lemma CallerStep(sdk: Sdk, s: State, t: State)
    requires StopStep(sdk, s, t)
    ensures t.pc == s.pc && t.handlers == s.handlers && t.acks == s.acks && t.processed == s.processed
    ensures s.signal ==> t.signal
    ensures Brings(s, t) == 0 && !Succeeds(s, t) && !Confirms(s, t)
  {
  }

  lemma WorkStep(sdk: Sdk, acks: bool, s: State, t: State)
    requires LoopStep(sdk, acks, s, t)
    ensures t.handlers + ToCome(t.pc) <= s.handlers + ToCome(s.pc) + Brings(s, t)
    ensures !s.signal ==> t.handlers + ToCome(t.pc) == s.handlers + ToCome(s.pc) + Brings(s, t)
    ensures t.signal == s.signal
  {
  }

  /** While no stop is called, every message fetched has been handed to the handler or is still to come in the current
      batch: nothing is dropped and nothing handled twice. So when the loop is back at its top, as many handler calls have
      begun as messages have arrived. After the signal no more are handed over than have arrived. */
  lemma {:induction false} HandlesWhatItFetches(sdk: Sdk, acks: bool, run: seq<State>, i: nat)
    requires Run(sdk, acks, run) && i < |run|
    ensures run[i].handlers + ToCome(run[i].pc) <= Arrived(run, i)
    ensures !run[i].signal ==> run[i].handlers + ToCome(run[i].pc) == Arrived(run, i)
    ensures !run[i].signal && run[i].pc.Top? ==> run[i].handlers == Arrived(run, i)
  {
    if i > 0 {
      hide Next;
      hide ToCome;
      hide Brings;
      HandlesWhatItFetches(sdk, acks, run, i - 1);
      assert NextAt(sdk, acks, run, i - 1);
      hide LoopStep;
      hide StopStep;
      var s, t := run[i - 1], run[i];
      EitherSteps(sdk, acks, s, t);
      if LoopStep(sdk, acks, s, t) {
        WorkStep(sdk, acks, s, t);
      } else {
        CallerStep(sdk, s, t);
      }
      TopHasNone(run[i].pc);
    } else {
      TopHasNone(Top);
    }
  }

  lemma EitherSteps(sdk: Sdk, acks: bool, s: State, t: State)
    requires Next(sdk, acks, s, t)
    ensures LoopStep(sdk, acks, s, t) || StopStep(sdk, s, t)
  {
    hide LoopStep;
    hide StopStep;
  }

  lemma TopHasNone(pc: Pc)
    ensures pc.Top? ==> ToCome(pc) == 0
  {
  }

  /** What of a success is still under way. */
  function UncountedAt(pc: Pc): nat {
    if pc.Counting? then 1 else 0
  }

  function UnackedAt(sdk: Sdk, pc: Pc): nat {
    if pc.WillAck? || (pc.Counting? && !sdk.Js?) then 1 else 0
  }

  /** In JavaScript a count follows the ack, if there is one. */
  predicate CountsAck(sdk: Sdk, acks: bool) {
    sdk.Js? && acks
  }

  predicate AtAck(pc: Pc) {
    pc.WillAck? || pc.Acking?
  }

  lemma CountStep(sdk: Sdk, acks: bool, s: State, t: State)
    requires LoopStep(sdk, acks, s, t) && (acks || !AtAck(s.pc))
    ensures t.processed + UncountedAt(t.pc) == s.processed + UncountedAt(s.pc) +
              if (if CountsAck(sdk, acks) then Confirms(s, t) else Succeeds(s, t)) then 1 else 0
  {
  }

  lemma AckStep(sdk: Sdk, acks: bool, s: State, t: State)
    requires LoopStep(sdk, acks, s, t) && (acks || !AtAck(s.pc))
    ensures acks ==> t.acks + UnackedAt(sdk, t.pc) ==
                     s.acks + UnackedAt(sdk, s.pc) + if Succeeds(s, t) then 1 else 0
    ensures !acks ==> t.acks == s.acks && !AtAck(t.pc)
  {
  }

  /** In every run, stopped or not, each handler call that succeeds is counted exactly once, in a JavaScript loop that acks
      each whose ack succeeds; and with acks exactly one ack begins for each that succeeds, without acks none. Only the
      success the loop is just dealing with may still be to count or to ack. */
  lemma {:induction false} CountsAndAcksEach(sdk: Sdk, acks: bool, run: seq<State>, i: nat)
    requires Run(sdk, acks, run) && i < |run|
    ensures run[i].processed + (if run[i].pc.Counting? then 1 else 0) ==
            if sdk.Js? && acks then Confirmed(run, i) else Successes(run, i)
    ensures acks ==> run[i].acks + (if run[i].pc.WillAck? || (run[i].pc.Counting? && !sdk.Js?) then 1 else 0) ==
                     Successes(run, i)
    ensures !acks ==> run[i].acks == 0 && !AtAck(run[i].pc)
  {
    if i > 0 {
      hide Next;
      hide Succeeds;
      hide Confirms;
      CountsAndAcksEach(sdk, acks, run, i - 1);
      assert NextAt(sdk, acks, run, i - 1);
      hide LoopStep;
      hide StopStep;
      var s, t := run[i - 1], run[i];
      EitherSteps(sdk, acks, s, t);
      if LoopStep(sdk, acks, s, t) {
        CountStep(sdk, acks, s, t);
        AckStep(sdk, acks, s, t);
      } else {
        CallerStep(sdk, s, t);
      }
    }
  }

  /** What a request or a handler brings is not the loop's to choose: a fetch may return any number of messages or fail, a
      handler may succeed or fail, and until it is signalled the loop always goes on. A signal is heeded right after a
      failed fetch in Java, and during the wait that follows one in Go. */
  lemma AnswersAreFree(sdk: Sdk, acks: bool, s: State)
    ensures !s.pc.Exited? ==> exists t :: LoopStep(sdk, acks, s, t)
    ensures s.pc.Fetching? ==> forall n: nat :: n > 0 || !sdk.Js? ==> LoopStep(sdk, acks, s, s.(pc := Between(n)))
    ensures s.pc.Fetching? && !s.signal ==> LoopStep(sdk, acks, s, s.(pc := Sleeping))
    ensures s.pc.Handling? ==> LoopStep(sdk, acks, s, s.(pc := ErrorHandling(s.pc.left)))
    ensures s.pc.Handling? ==> exists t :: LoopStep(sdk, acks, s, t) && Succeeds(s, t)
    ensures s.pc.Fetching? && s.signal && sdk.Java? ==>
              LoopStep(sdk, acks, s, s.(pc := Leaving)) && !LoopStep(sdk, acks, s, s.(pc := Sleeping))
    ensures s.pc.Sleeping? && s.signal && sdk.Go? ==> LoopStep(sdk, acks, s, s.(pc := Leaving))
    ensures s.pc.Top? && !s.signal ==> LoopStep(sdk, acks, s, s.(pc := WillFetch))
    ensures s.pc.WillFetch? ==> LoopStep(sdk, acks, s, s.(pc := Fetching, fetches := s.fetches + 1))
  {
    if !s.pc.Exited? {
      var t := AnyStep(sdk, acks, s);
    }
    if s.pc.Handling? {
      var t := s.(pc := if sdk.Js? && acks then WillAck(s.pc.left) else Counting(s.pc.left));
      assert LoopStep(sdk, acks, s, t) && Succeeds(s, t);
    }
  }

  lemma AnyStep(sdk: Sdk, acks: bool, s: State) returns (t: State)
    requires !s.pc.Exited?
    ensures LoopStep(sdk, acks, s, t)
  {
    if s.signal {
      t := OneStep(sdk, acks, s);
    } else {
      match s.pc {
        case Top => t := s.(pc := WillFetch);
        case Between(left) => t := s.(pc := if left == 0 then Top else WillHandle(left - 1));
        case Fetching => t := s.(pc := Sleeping);
        case Sleeping => t := s.(pc := Top);
        case _ =>
          t := OneStep(sdk, acks, s.(signal := true));
          t := t.(signal := false);
      }
    }
  }

  /** In Go and Rust stop is called at most once; in Java at any time and any number of times, and in JavaScript whenever
      the loop awaits something. */
  lemma StopCalls(sdk: Sdk, acks: bool, run: seq<State>, i: nat)
    requires Run(sdk, acks, run) && i < |run|
    ensures sdk.Go? || sdk.Rust? ==> run[i].waiting + run[i].returned <= 1
    ensures sdk.Java? || (sdk.Js? && (run[i].pc.Fetching? || run[i].pc.Sleeping? || run[i].pc.Handling?)) ==>
              exists t :: StopStep(sdk, run[i], t) && t.waiting == run[i].waiting + 1 && t.signal && !t.running
  {
    RunKeeps(sdk, acks, run, i);
    if Repeats(sdk) && Yields(sdk, run[i].pc) {
      assert StopStep(sdk, run[i], run[i].(waiting := run[i].waiting + 1, signal := true, running := false));
    }
  }
}
