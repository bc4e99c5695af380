/** The telemetry client as a transition system: the sender thread with one
    program point per critical section, and the handlers the network thread runs.
    Every step below is one critical section, one unlocked write, or one handler.
    The fields after `pc` are history: they record what happened and are read by
    no step except to say when an echo is possible. */
module Telemetry {

  // ----- state -----

  /** Where the sender thread stands in its loop. */
  datatype Pc =
    | Head                    // about to evaluate the loop condition
    | Check                   // about to test done / open / pending under the lock
    | Count                   // past the check, about to count the message
    | Send                    // about to stamp the clock and send under the lock
    | Reset(error: bool)      // after the send, about to look at its error code
    | Leave                   // out of the loop
    | Stopped                 // the thread has returned

  /** The call the sender makes after its loop. */
  datatype Call = CloseCall | FailCall

  datatype Attempt = Attempt(at: int, accepted: bool)

  datatype Client = Client(
    total: int,
    open: bool,
    done: bool,
    failed: bool,
    pending: bool,
    count: int,
    start: int,
    samples: seq<real>,
    pc: Pc,
    clock: int,
    attempts: seq<Attempt>,
    echoes: seq<int>,
    passes: nat,
    waits: nat,
    calls: seq<Call>)

  /** `delay` is the clock time that passes before the reading an action takes;
      the clock is in nanoseconds. `accepted` is the outcome of the send, if the
      sender's next step is one. */
  datatype Action =
    | Open
    | Close
    | Fail
    | Echo(delay: nat)
    | Sender(delay: nat, accepted: bool)

  function Initial(total: int): Client {
    Client(total, false, false, false, false, 0, 0, [], Head, 0, [], [], 0, 0, [])
  }

  // ----- measurements -----

  /** A duration cast to whole microseconds, which truncates toward zero. */
  function Micros(nanos: int): int {
    if nanos >= 0 then nanos / 1000 else -((-nanos) / 1000)
  }

  function Millis(nanos: int): real {
    Micros(nanos) as real / 1000.0
  }

  /** The send times of the accepted attempts, in order. */
  function Accepted(attempts: seq<Attempt>): (times: seq<int>)
    ensures |times| <= |attempts|
  {
    if attempts == [] then []
    else
      var last := attempts[|attempts| - 1];
      Accepted(attempts[..|attempts| - 1]) + if last.accepted then [last.at] else []
  }

  lemma AcceptedSnoc(attempts: seq<Attempt>, a: Attempt)
    ensures Accepted(attempts + [a]) == Accepted(attempts) + if a.accepted then [a.at] else []
  {
    assert (attempts + [a])[..|attempts|] == attempts;
  }

  function InFlight(c: Client): int {
    |Accepted(c.attempts)| - |c.echoes|
  }

  // ----- steps -----

  /** The peer echoes each accepted message at most once; the sender can always
      take its next step until it has returned. */
  predicate Enabled(c: Client, a: Action) {
    match a
    case Echo(_) => InFlight(c) > 0
    case Sender(_, _) => c.pc != Stopped
    case _ => true
  }

  function OnMessage(c: Client, delay: nat): Client {
    var now := c.clock + delay;
    c.(pending := false,
       clock := now,
       echoes := c.echoes + [now],
       samples := c.samples + [Millis(now - c.start)])
  }

  function SendMessage(c: Client, delay: nat, accepted: bool): Client {
    var now := c.clock + delay;
    c.(pending := true,
       start := now,
       clock := now,
       attempts := c.attempts + [Attempt(now, accepted)],
       pc := Reset(!accepted))
  }

  function SenderStep(c: Client, delay: nat, accepted: bool): Client
    requires c.pc != Stopped
  {
    match c.pc
    case Head =>
      if c.count < c.total then c.(pc := Check, passes := c.passes + 1) else c.(pc := Leave)
    case Check =>
      if c.done then c.(pc := Leave)
      else if !c.open || c.pending then c.(pc := Head, waits := c.waits + 1)
      else c.(pc := Count)
    case Count =>
      c.(count := c.count + 1, pc := Send)
    case Send =>
      SendMessage(c, delay, accepted)
    case Reset(error) =>
      c.(pending := if error then false else c.pending, pc := Head)
    case Leave =>
      c.(calls := c.calls + [if c.count == c.total then CloseCall else FailCall], pc := Stopped)
  }

  function Step(c: Client, a: Action): Client
    requires Enabled(c, a)
  {
    match a
    case Open => c.(open := true)
    case Close => c.(done := true)
    case Fail => c.(failed := true, done := true)
    case Echo(delay) => OnMessage(c, delay)
    case Sender(delay, accepted) => SenderStep(c, delay, accepted)
  }

  /** A run is any interleaving of enabled steps of the two threads. */
  predicate Run(c: Client, trace: seq<Action>, c': Client)
    decreases |trace|
  {
    if trace == [] then c == c'
    else Enabled(c, trace[0]) && Run(Step(c, trace[0]), trace[1..], c')
  }

  lemma {:induction false} RunSnoc(c: Client, trace: seq<Action>, mid: Client, a: Action)
    requires Run(c, trace, mid) && Enabled(mid, a)
    ensures Run(c, trace + [a], Step(mid, a))
    decreases |trace|
  {
    if trace == [] {
      assert (trace + [a])[1..] == [];
    } else {
      RunSnoc(Step(c, trace[0]), trace[1..], mid, a);
      assert (trace + [a])[1..] == trace[1..] + [a];
    }
  }

  lemma {:induction false} RunConcat(c: Client, t1: seq<Action>, mid: Client, t2: seq<Action>, c': Client)
    requires Run(c, t1, mid) && Run(mid, t2, c')
    ensures Run(c, t1 + t2, c')
    decreases |t1|
  {
    if t1 == [] {
      assert t1 + t2 == t2;
    } else {
      RunConcat(Step(c, t1[0]), t1[1..], mid, t2, c');
      assert (t1 + t2)[1..] == t1[1..] + t2;
    }
  }

  // ----- the invariant -----

  /** Sends made so far lag the counter by one between counting and sending. */
  predicate CountAgrees(c: Client) {
    && c.count == |c.attempts| + (if c.pc == Send then 1 else 0)
    && (c.pc in {Check, Count} ==> c.count < c.total)
    && 0 <= c.count
    && (0 < c.count ==> c.count <= c.total)
  }

  /** At most one message is in flight; while one is, the pending flag is up and
      `start` is still its send time. */
  predicate FlightGuarded(c: Client) {
    && 0 <= InFlight(c) <= 1
    && (InFlight(c) == 1 ==>
          && c.pending
          && c.start == Accepted(c.attempts)[|c.echoes|])
    && (c.pending ==> InFlight(c) == 1 || c.pc == Reset(true))
    && (c.pc in {Count, Send} ==> !c.pending && c.open)
    && (c.pc == Reset(true) ==> InFlight(c) == 0)
    && (c.attempts != [] ==> c.open)
    && c.start <= c.clock
  }

  /** Sample i is the time between accepted send i and echo i, and accepted
      send i+1 comes after echo i. */
  predicate Attributed(times: seq<int>, echoes: seq<int>, samples: seq<real>, clock: int) {
    && |samples| == |echoes| <= |times|
    && (forall i :: 0 <= i < |times| ==> times[i] <= clock)
    && (forall i :: 0 <= i < |echoes| ==>
          && times[i] <= echoes[i] <= clock
          && samples[i] == Millis(echoes[i] - times[i]))
    && (forall i :: 0 <= i < |echoes| && i + 1 < |times| ==> echoes[i] <= times[i + 1])
  }

  predicate SamplesAttributed(c: Client) {
    Attributed(Accepted(c.attempts), c.echoes, c.samples, c.clock)
  }

  predicate Progress(c: Client) {
    && c.passes == |c.attempts| + c.waits
         + (if c.pc in {Check, Count, Send} then 1 else 0)
         + (if c.pc in {Leave, Stopped} && c.count < c.total then 1 else 0)
    && (0 < c.passes ==> 0 < c.total)
    && (c.pc in {Leave, Stopped} ==> c.count >= c.total || c.done)
    && (if c.pc == Stopped
        then c.calls == [if c.count == c.total then CloseCall else FailCall]
        else c.calls == [])
  }

  predicate Inv(c: Client) {
    CountAgrees(c) && FlightGuarded(c) && SamplesAttributed(c) && Progress(c)
  }

  lemma InvInitial(total: int)
    ensures Inv(Initial(total))
  {
  }

  lemma InvEcho(c: Client, delay: nat)
    requires Inv(c) && Enabled(c, Echo(delay))
    ensures Inv(OnMessage(c, delay))
  {
    hide Accepted, Millis;
    assert OnMessage(c, delay).attempts == c.attempts;
  }

  /** A send keeps the attribution: it is stamped no earlier than any reading so
      far, and it only happens when every accepted message has been echoed. */
  lemma SendKeepsAttribution(times: seq<int>, echoes: seq<int>, samples: seq<real>, clock: int, now: int)
    requires Attributed(times, echoes, samples, clock)
    requires |times| == |echoes| && clock <= now
    ensures Attributed(times + [now], echoes, samples, now)
    ensures Attributed(times, echoes, samples, now)
  {
  }

  lemma InvSend(c: Client, delay: nat, accepted: bool)
    requires Inv(c) && c.pc == Send
    ensures Inv(SendMessage(c, delay, accepted))
  {
    hide Accepted, Attributed;
    var c' := SendMessage(c, delay, accepted);
    var now := c.clock + delay;
    SendKeepsAttribution(Accepted(c.attempts), c.echoes, c.samples, c.clock, now);
    AcceptedSnoc(c.attempts, Attempt(now, accepted));
    if accepted {
      assert Accepted(c'.attempts) == Accepted(c.attempts) + [now];
    } else {
      assert Accepted(c'.attempts) == Accepted(c.attempts);
    }
  }

  lemma InvLocal(c: Client, delay: nat, accepted: bool)
    requires Inv(c) && c.pc != Send && c.pc != Stopped
    ensures Inv(SenderStep(c, delay, accepted))
  {
    hide Accepted, Attributed, SendMessage;
    var c' := SenderStep(c, delay, accepted);
    assert c'.attempts == c.attempts && c'.echoes == c.echoes;
    assert c'.samples == c.samples && c'.clock == c.clock;
    assert CountAgrees(c') && Progress(c');
  }

  lemma InvFlags(c: Client, open: bool, done: bool, failed: bool)
    requires Inv(c) && (c.open ==> open) && (c.done ==> done)
    ensures Inv(c.(open := open, done := done, failed := failed))
  {
    hide Accepted, Attributed;
  }

  lemma InvStep(c: Client, a: Action)
    requires Inv(c) && Enabled(c, a)
    ensures Inv(Step(c, a))
  {
    hide Inv, OnMessage, SendMessage;
    match a
    case Open => InvFlags(c, true, c.done, c.failed);
    case Close => InvFlags(c, c.open, true, c.failed);
    case Fail => InvFlags(c, c.open, true, true);
    case Echo(delay) => InvEcho(c, delay);
    case Sender(delay, accepted) =>
      if c.pc == Send { InvSend(c, delay, accepted); } else { InvLocal(c, delay, accepted); }
  }

  lemma {:induction false} InvRun(c: Client, trace: seq<Action>, c': Client)
    requires Inv(c) && Run(c, trace, c')
    ensures Inv(c')
    decreases |trace|
  {
    if trace != [] {
      InvStep(c, trace[0]);
      InvRun(Step(c, trace[0]), trace[1..], c');
    }
  }

  lemma RunInv(total: int, trace: seq<Action>, c: Client)
    requires Run(Initial(total), trace, c)
    ensures Inv(c)
  {
    InvInitial(total);
    InvRun(Initial(total), trace, c);
  }

  // ----- what holds in every run -----

  /** Latency attribution: in every interleaving at most one message is in flight,
      and the i-th recorded sample is the echo time minus the send time of the
      i-th accepted message, in whole microseconds expressed as milliseconds. */
  lemma LatencyAttribution(total: int, trace: seq<Action>, c: Client)
    requires Run(Initial(total), trace, c)
    ensures 0 <= InFlight(c) <= 1
    ensures |c.samples| == |c.echoes| <= |Accepted(c.attempts)|
    ensures forall i :: 0 <= i < |c.samples| ==>
              && Accepted(c.attempts)[i] <= c.echoes[i]
              && c.samples[i] == Millis(c.echoes[i] - Accepted(c.attempts)[i])
    ensures forall i :: 0 <= i < |c.echoes| && i + 1 < |Accepted(c.attempts)| ==>
              c.echoes[i] <= Accepted(c.attempts)[i + 1]
    ensures InFlight(c) == 1 ==> c.pending && c.start == Accepted(c.attempts)[|c.samples|]
  {
    RunInv(total, trace, c);
    assert Attributed(Accepted(c.attempts), c.echoes, c.samples, c.clock);
  }

  function Rejected(attempts: seq<Attempt>): nat {
    |attempts| - |Accepted(attempts)|
  }

  /** Send conservation at every loop head, for all interleavings, including the
      ones where the unlocked reset has just run. The right-hand side of the first
      clause counts the attempts by what became of them, so that clause says that the
      counter has missed none; the bound on the messages in flight and what the pending
      flag means are the rest of it. */
  lemma SendConservation(total: int, trace: seq<Action>, c: Client)
    requires Run(Initial(total), trace, c) && c.pc == Head
    ensures c.count == |c.echoes| + InFlight(c) + Rejected(c.attempts)
    ensures 0 <= InFlight(c) <= 1
    ensures c.pending <==> InFlight(c) == 1
  {
    RunInv(total, trace, c);
  }

  /** The sends a client may still start once it is done. */
  function Committed(c: Client): nat {
    if c.pc in {Count, Send} then 1 else 0
  }

  lemma OvershootStep(c: Client, a: Action)
    requires c.done && Enabled(c, a)
    ensures Step(c, a).done
    ensures |Step(c, a).attempts| + Committed(Step(c, a)) <= |c.attempts| + Committed(c)
  {
  }

  /** Bounded overshoot: from a state where done is set, every continuation attempts
      at most the one send whose check had already passed, and no send at all is
      attempted before the connection has opened. */
  lemma {:induction false} BoundedOvershoot(c: Client, trace: seq<Action>, c': Client)
    requires c.done && Run(c, trace, c')
    ensures c'.done
    ensures |c'.attempts| + Committed(c') <= |c.attempts| + Committed(c)
    decreases |trace|
  {
    if trace != [] {
      OvershootStep(c, trace[0]);
      BoundedOvershoot(Step(c, trace[0]), trace[1..], c');
    }
  }

  /** Some continuation attempts a send. */
  ghost predicate MaySend(c: Client) {
    exists trace, c' :: Run(c, trace, c') && |c'.attempts| > |c.attempts|
  }

  /** The overshoot happens exactly in the window: of a client that is done, some
      continuation attempts a send if and only if its sender is past the check. */
  lemma OvershootExactlyInWindow(c: Client)
    requires c.done
    ensures MaySend(c) <==> c.pc in {Count, Send}
  {
    if MaySend(c) {
      var trace, c' :| Run(c, trace, c') && |c'.attempts| > |c.attempts|;
      BoundedOvershoot(c, trace, c');
    }
    if c.pc in {Count, Send} {
      var trace, c' := LateSend(c);
      assert MaySend(c);
    }
  }

  lemma LateSend(c: Client) returns (trace: seq<Action>, c': Client)
    requires c.pc in {Count, Send}
    ensures Run(c, trace, c') && |c'.attempts| == |c.attempts| + 1
  {
    var go := Sender(0, true);
    if c.pc == Count {
      c' := Step(Step(c, go), go);
      RunOne(c, go);
      RunOne(Step(c, go), go);
      trace := [go] + [go];
      RunConcat(c, [go], Step(c, go), [go], c');
    } else {
      trace, c' := [go], Step(c, go);
      RunOne(c, go);
    }
  }

  lemma RunOne(c: Client, a: Action)
    requires Enabled(c, a)
    ensures Run(c, [a], Step(c, a))
  {
    assert [a][1..] == [];
  }

  /** The window is reached: a connection can close between the check and the send. */
  lemma WindowIsReached(total: int) returns (c: Client)
    requires total > 0
    ensures Reachable(total, c) && c.done && c.pc == Send
  {
    hide Run, Reachable;
    var c0 := Initial(total);
    ReachedFirst(total);
    StepReached(total, c0, Open);
    var c1 := Step(c0, Open);
    SenderReached(total, c1, 0, true);
    var c2 := SenderStep(c1, 0, true);
    SenderReached(total, c2, 0, true);
    var c3 := SenderStep(c2, 0, true);
    SenderReached(total, c3, 0, true);
    var c4 := SenderStep(c3, 0, true);
    StepReached(total, c4, Close);
    c := Step(c4, Close);
  }

  lemma NoSendBeforeOpen(total: int, trace: seq<Action>, c: Client)
    requires Run(Initial(total), trace, c)
    ensures c.attempts != [] ==> Open in trace
    ensures c.open <==> Open in trace
    ensures c.failed <==> Fail in trace
    ensures c.done <==> Fail in trace || Close in trace
  {
    RunInv(total, trace, c);
    FlagsRecordHandlers(Initial(total), trace, c);
  }

  lemma FlagsStep(c: Client, a: Action)
    requires Enabled(c, a)
    ensures Step(c, a).open <==> c.open || a == Open
    ensures Step(c, a).failed <==> c.failed || a == Fail
    ensures Step(c, a).done <==> c.done || a == Fail || a == Close
    ensures Step(c, a).total == c.total
  {
  }

  /** The flags only ever record that their handler has run. */
  lemma {:induction false} FlagsRecordHandlers(c: Client, trace: seq<Action>, c': Client)
    requires Run(c, trace, c')
    ensures c'.open <==> c.open || Open in trace
    ensures c'.failed <==> c.failed || Fail in trace
    ensures c'.done <==> c.done || Fail in trace || Close in trace
    ensures c'.total == c.total
    decreases |trace|
  {
    if trace != [] {
      FlagsStep(c, trace[0]);
      FlagsRecordHandlers(Step(c, trace[0]), trace[1..], c');
      assert forall a :: a in trace <==> a == trace[0] || a in trace[1..];
    }
  }

  // ----- the state of a client whose threads have ended -----

  ghost predicate Reachable(total: int, c: Client) {
    exists trace :: Run(Initial(total), trace, c)
  }

  /** The states in which statistics are read: the sender thread has been joined. */
  ghost predicate Final(total: int, c: Client) {
    Reachable(total, c) && c.pc == Stopped
  }

  lemma FinalInv(total: int, c: Client)
    requires Reachable(total, c)
    ensures Inv(c) && c.total == total
  {
    var trace :| Run(Initial(total), trace, c);
    RunInv(total, trace, c);
    FlagsRecordHandlers(Initial(total), trace, c);
  }

  /** Loop outcome: exactly one of close and fail is called. Close is called exactly
      when all messages were attempted; otherwise the loop broke on `done`, or the
      configured total was negative. The number of passes is fixed by the sends,
      the waiting passes and the pass that breaks. */
  lemma LoopOutcome(total: int, c: Client)
    requires Final(total, c)
    ensures c.calls == [CloseCall] || c.calls == [FailCall]
    ensures c.calls == [CloseCall] <==> |c.attempts| == total
    ensures total >= 0 ==>
              (c.calls == [FailCall] <==> |c.attempts| < total) && (c.calls == [FailCall] ==> c.done)
    ensures total < 0 ==> c.calls == [FailCall] && c.passes == 0
    ensures total >= 0 ==>
              c.passes == |c.attempts| + c.waits + (if c.calls == [FailCall] then 1 else 0)
    ensures total >= 0 ==> c.passes <= total + c.waits
    ensures |c.attempts| <= if total < 0 then 0 else total
  {
    FinalInv(total, c);
  }

  /** The client never failed, and every one of its messages was accepted by the
      send and then echoed. */
  predicate Perfect(c: Client) {
    && !c.failed
    && |c.attempts| == c.total
    && (forall a :: a in c.attempts ==> a.accepted)
    && |c.echoes| == |c.attempts|
  }

  lemma {:induction false} AllAccepted(attempts: seq<Attempt>)
    ensures |Accepted(attempts)| == |attempts| <==> forall a :: a in attempts ==> a.accepted
  {
    if attempts != [] {
      var init, last := attempts[..|attempts| - 1], attempts[|attempts| - 1];
      AllAccepted(init);
      assert attempts == init + [last];
    }
  }

  /** The reporting rule of the controller, no failure and as many samples as
      messages, holds of a finished client exactly when it was perfect. */
  lemma SampleCountDecides(total: int, c: Client)
    requires Final(total, c)
    ensures |c.samples| <= if total < 0 then 0 else total
    ensures !c.failed && |c.samples| == total <==> Perfect(c)
  {
    FinalInv(total, c);
    AllAccepted(c.attempts);
  }

  // ----- termination -----

  function AtLeastZero(n: int): nat { if n < 0 then 0 else n }

  /** In every run, finished or not, every pass of the loop sends, waits, or is the one
      under way or broken out of: there are at most as many as messages and waits. */
  lemma PassBound(total: int, trace: seq<Action>, c: Client)
    requires Run(Initial(total), trace, c)
    ensures c.passes <= AtLeastZero(total) + c.waits
  {
    RunInv(total, trace, c);
    FlagsRecordHandlers(Initial(total), trace, c);
  }

  /** The steps a sender has taken, in a trace. */
  function SenderSteps(trace: seq<Action>): nat {
    if trace == [] then 0 else (if trace[0].Sender? then 1 else 0) + SenderSteps(trace[1..])
  }

  /** What a sender's steps so far are at most: five for a message, two for a wait. */
  function Spent(c: Client): int {
    5 * c.count + 2 * c.waits +
    match c.pc
    case Head => 0
    case Check => 1
    case Count => 2
    case Send => -2
    case Reset(_) => -1
    case Leave => 2
    case Stopped => 3
  }

  lemma {:induction false} StepsSpend(c: Client, trace: seq<Action>, c': Client)
    requires Run(c, trace, c')
    ensures SenderSteps(trace) <= Spent(c') - Spent(c)
    decreases |trace|
  {
    if trace != [] {
      SpendOne(c, trace[0]);
      StepsSpend(Step(c, trace[0]), trace[1..], c');
    }
  }

  lemma SpendOne(c: Client, a: Action)
    requires Enabled(c, a)
    ensures (if a.Sender? then 1 else 0) <= Spent(Step(c, a)) - Spent(c)
  {
  }

  /** Termination under bounded waiting: a sender that has waited at most w times has
      taken at most 5 * total + 2 * w + 3 steps, and once it has taken as many it has
      returned. Its next step is always possible before that. */
  lemma BoundedWaitingEnds(total: int, trace: seq<Action>, c: Client, w: nat)
    requires Run(Initial(total), trace, c) && c.waits <= w
    ensures SenderSteps(trace) <= 5 * AtLeastZero(total) + 2 * w + 3
    ensures SenderSteps(trace) == 5 * AtLeastZero(total) + 2 * w + 3 ==> c.pc == Stopped
    ensures c.pc != Stopped ==> Enabled(c, Sender(0, true))
  {
    RunInv(total, trace, c);
    FlagsRecordHandlers(Initial(total), trace, c);
    StepsSpend(Initial(total), trace, c);
  }

  /** The steps a sender needs, once done, to return. */
  function StepsLeft(pc: Pc): nat {
    match pc
    case Count => 6
    case Send => 5
    case Reset(_) => 4
    case Head => 3
    case Check => 2
    case Leave => 1
    case Stopped => 0
  }

  lemma DoneStep(c: Client, a: Action)
    requires c.done && Enabled(c, a)
    ensures var c' := Step(c, a);
            && c'.done && c'.waits == c.waits
            && (if a.Sender? then 1 else 0) <= StepsLeft(c.pc) - StepsLeft(c'.pc)
  {
  }

  lemma {:induction false} DoneSteps(c: Client, trace: seq<Action>, c': Client)
    requires c.done && Run(c, trace, c')
    ensures c'.done && c'.waits == c.waits
    ensures SenderSteps(trace) <= StepsLeft(c.pc) - StepsLeft(c'.pc)
    decreases |trace|
  {
    hide Step, Enabled, StepsLeft;
    if trace != [] {
      DoneStep(c, trace[0]);
      DoneSteps(Step(c, trace[0]), trace[1..], c');
    }
  }

  /** A client that is done stops waiting, whether or not it ever opened: from then on no
      run makes a waiting pass, and after six steps of its own the sender has returned. */
  lemma DoneStopsWaiting(c: Client, trace: seq<Action>, c': Client)
    requires c.done && Run(c, trace, c')
    ensures c'.waits == c.waits
    ensures SenderSteps(trace) <= 6
    ensures SenderSteps(trace) >= 6 ==> c'.pc == Stopped
    ensures c'.pc != Stopped ==> Enabled(c', Sender(0, true))
  {
    DoneSteps(c, trace, c');
  }

  /** Open, not done, nothing pending, and on its way to a send. */
  predicate ReadyToSend(c: Client) {
    && c.open && !c.done && !c.pending
    && (c.pc in {Check, Count, Send} || (c.pc == Head && c.count < c.total))
  }

  function StepsToSend(pc: Pc): int {
    match pc
    case Head => 4
    case Check => 3
    case Count => 2
    case Send => 1
    case _ => 0
  }

  lemma ReadyStep(c: Client, a: Action)
    requires ReadyToSend(c) && Enabled(c, a) && a != Close && a != Fail
    ensures var c' := Step(c, a);
            || |c'.attempts| > |c.attempts|
            || (ReadyToSend(c') && c'.attempts == c.attempts && c'.waits == c.waits
                && StepsToSend(c'.pc) == StepsToSend(c.pc) - if a.Sender? then 1 else 0)
  {
  }

  lemma {:induction false} AttemptsGrow(c: Client, trace: seq<Action>, c': Client)
    requires Run(c, trace, c')
    ensures |c.attempts| <= |c'.attempts|
    decreases |trace|
  {
    if trace != [] {
      AttemptsGrow(Step(c, trace[0]), trace[1..], c');
    }
  }

  /** A client that is ready sends: whatever came before, rejected sends included, unless
      the connection closes or fails, at most four steps of the sender make an attempt. */
  lemma {:induction false} ReadySends(c: Client, trace: seq<Action>, c': Client)
    requires ReadyToSend(c) && Run(c, trace, c') && Close !in trace && Fail !in trace
    requires SenderSteps(trace) >= StepsToSend(c.pc)
    ensures |c'.attempts| > |c.attempts|
    decreases |trace|
  {
    hide Step, Enabled, ReadyToSend;
    ReadyHasSteps(c);
    var next := Step(c, trace[0]);
    ReadyStep(c, trace[0]);
    if |next.attempts| > |c.attempts| {
      AttemptsGrow(next, trace[1..], c');
    } else {
      ReadySends(next, trace[1..], c');
    }
  }

  lemma ReadyHasSteps(c: Client)
    requires ReadyToSend(c)
    ensures StepsToSend(c.pc) >= 1
  {
  }

  // ----- what a client can experience -----

  lemma ReachedFirst(total: int)
    ensures Reachable(total, Initial(total))
  {
    assert Run(Initial(total), [], Initial(total));
  }

  lemma StepReached(total: int, c: Client, a: Action)
    requires Reachable(total, c) && Enabled(c, a)
    ensures Reachable(total, Step(c, a))
  {
    hide Run, Step, Enabled;
    var trace :| Run(Initial(total), trace, c);
    RunSnoc(Initial(total), trace, c, a);
  }

  lemma SenderReached(total: int, c: Client, delay: nat, accepted: bool)
    requires Reachable(total, c) && c.pc != Stopped
    ensures Reachable(total, SenderStep(c, delay, accepted))
  {
    hide Run, Reachable, SenderStep;
    StepReached(total, c, Sender(delay, accepted));
  }

  /** The samples of echoes that take these many nanoseconds. */
  function Timed(delays: seq<nat>): (xs: seq<real>)
    ensures |xs| == |delays| && forall i :: 0 <= i < |xs| ==> xs[i] == Millis(delays[i])
  {
    if delays == [] then [] else Timed(delays[..|delays| - 1]) + [Millis(delays[|delays| - 1])]
  }

  /** At a loop head with all messages so far echoed. */
  predicate AllEchoed(c: Client) {
    && c.pc == Head && c.open && !c.pending && !c.done && !c.failed
    && c.count == |c.samples| && |Accepted(c.attempts)| == |c.echoes|
  }

  /** One more message, echoed after the given time. */
  lemma SendAndEcho(total: int, c: Client, delay: nat) returns (c': Client)
    requires Reachable(total, c) && AllEchoed(c) && c.count < c.total
    ensures Reachable(total, c') && AllEchoed(c') && c'.total == c.total
    ensures c'.samples == c.samples + [Millis(delay)]
  {
    hide Reachable;
    SenderReached(total, c, 0, true);
    var c1 := SenderStep(c, 0, true);
    SenderReached(total, c1, 0, true);
    var c2 := SenderStep(c1, 0, true);
    SenderReached(total, c2, 0, true);
    var c3 := SenderStep(c2, 0, true);
    SenderReached(total, c3, 0, true);
    var c4 := SenderStep(c3, 0, true);
    AcceptedSnoc(c3.attempts, Attempt(c3.clock, true));
    StepReached(total, c4, Echo(delay));
    var c5 := Step(c4, Echo(delay));
    SenderReached(total, c5, 0, true);
    c' := SenderStep(c5, 0, true);
  }

  /** Every sequence of echo times can be experienced: for at most `total` of them
      there is a finished client that never failed and has exactly these samples. When
      they are as many as messages, it is perfect. */
  lemma AnyLatencies(total: int, delays: seq<nat>) returns (c: Client)
    requires |delays| <= AtLeastZero(total)
    ensures Final(total, c) && c.samples == Timed(delays) && !c.failed
    ensures |delays| == total ==> Perfect(c)
  {
    hide Reachable;
    ReachedFirst(total);
    StepReached(total, Initial(total), Open);
    c := Step(Initial(total), Open);
    for i := 0 to |delays|
      invariant Reachable(total, c) && AllEchoed(c) && c.total == total
      invariant c.samples == Timed(delays[..i])
    {
      assert delays[..i + 1][..i] == delays[..i];
      c := SendAndEcho(total, c, delays[i]);
    }
    assert delays[..|delays|] == delays;
    c := StopNow(total, c);
    if |delays| == total {
      SampleCountDecides(total, c);
    }
  }

  /** The connection closes and the sender comes to its end. */
  lemma StopNow(total: int, c: Client) returns (c': Client)
    requires Reachable(total, c) && c.pc == Head
    ensures Final(total, c') && c'.samples == c.samples && c'.failed == c.failed
  {
    hide Reachable;
    StepReached(total, c, Close);
    c' := Step(c, Close);
    SenderReached(total, c', 0, true);
    c' := SenderStep(c', 0, true);
    if c'.pc == Check {
      SenderReached(total, c', 0, true);
      c' := SenderStep(c', 0, true);
    }
    SenderReached(total, c', 0, true);
    c' := SenderStep(c', 0, true);
  }

  /** A latency is never negative. */
  lemma SamplesNonNegative(total: int, c: Client)
    requires Reachable(total, c)
    ensures forall i :: 0 <= i < |c.samples| ==> c.samples[i] >= 0.0
  {
    var trace :| Run(Initial(total), trace, c);
    LatencyAttribution(total, trace, c);
  }

  // ----- the unit of a sample -----

  lemma WholeMicros(nanos: int)
    ensures nanos >= 0 ==> 1000 * Micros(nanos) <= nanos < 1000 * Micros(nanos) + 1000
    ensures nanos < 0 ==> 1000 * Micros(nanos) - 1000 < nanos <= 1000 * Micros(nanos)
    ensures Millis(nanos) * 1000.0 == Micros(nanos) as real
  {
  }

  /** What a sample is: in every run, a thousand times the i-th one is the number of whole
      microseconds in the nanoseconds from the i-th accepted send to the i-th echo. */
  lemma SamplesAreWholeMicroseconds(total: int, trace: seq<Action>, c: Client, i: nat) returns (micros: nat)
    requires Run(Initial(total), trace, c) && i < |c.samples|
    ensures i < |c.echoes| && i < |Accepted(c.attempts)|
    ensures c.samples[i] * 1000.0 == micros as real
    ensures var nanos := c.echoes[i] - Accepted(c.attempts)[i];
            1000 * micros <= nanos < 1000 * micros + 1000
  {
    LatencyAttribution(total, trace, c);
    var nanos := c.echoes[i] - Accepted(c.attempts)[i];
    WholeMicros(nanos);
    micros := Micros(nanos);
  }
}
