/** The telemetry client in the form its source has: an object whose handlers and
    sender loop update its fields. Each method is tied to steps of the transition
    system in Telemetry, so what holds in all runs there holds of this object. */
module BaseClient {
  import opened Text
  import opened Report
  import opened Telemetry

  /** What the network thread and the peer do during one pass of the sender's loop:
      the handlers that run before each of its steps, and the outcome of its send. */
  datatype Pass = Pass(
    beforeCheck: seq<Action>,
    beforeCount: seq<Action>,
    beforeSend: seq<Action>,
    beforeReset: seq<Action>,
    beforeHead: seq<Action>,
    delay: nat,
    accepted: bool)

  /** A whole life of a connection: the passes of its sender, the handlers that run
      between the loop and the closing call, and those after the sender has returned. */
  datatype Script = Script(passes: seq<Pass>, beforeCall: seq<Action>, afterwards: seq<Action>)

  /** The effect of handlers run one after another; an echo when nothing is in flight
      cannot occur, and is skipped. */
  function Handled(c: Client, handlers: seq<Action>): (r: Client)
    ensures r.pc == c.pc && r.count == c.count && r.total == c.total
    ensures r.passes == c.passes && r.waits == c.waits
  {
    if handlers == [] then c
    else
      var mid, a := Handled(c, handlers[..|handlers| - 1]), handlers[|handlers| - 1];
      if a.Sender? || !Enabled(mid, a) then mid else Step(mid, a)
  }

  /** One step of the sender that needs no reading of the clock, then handlers. */
  function Stepped(c: Client, handlers: seq<Action>): Client
    requires c.pc != Stopped
  {
    Handled(SenderStep(c, 0, true), handlers)
  }

  /** The state after a send, the look at its error code, and the handlers between. */
  function AfterSend(c: Client, pass: Pass): (r: Client)
    ensures r.pc == Head && r.total == c.total
    ensures r.passes == c.passes && r.count == c.count && r.waits == c.waits
  {
    Stepped(Handled(SendMessage(c, pass.delay, pass.accepted), pass.beforeReset), pass.beforeHead)
  }

  /** The state after one pass; it ends at Leave when the pass breaks out. A pass that
      does not is a message or a wait. */
  function AfterPass(c: Client, pass: Pass): (r: Client)
    requires c.pc == Head && c.count < c.total
    ensures r.pc == Leave || r.pc == Head
    ensures r.passes == c.passes + 1 && r.total == c.total
    ensures r.pc == Head ==> r.count + r.waits == c.count + c.waits + 1
  {
    var checking := Stepped(c, pass.beforeCheck);
    var checked := SenderStep(checking, 0, true);
    if checked.pc == Leave then checked
    else if checked.pc == Head then Handled(checked, pass.beforeHead)
    else AfterSend(Stepped(Handled(checked, pass.beforeCount), pass.beforeSend), pass)
  }

  /** The state after the closing call, from just outside the loop. */
  function AfterCall(c: Client, beforeCall: seq<Action>): (r: Client)
    requires c.pc == Leave
    ensures r.pc == Stopped
  {
    SenderStep(Handled(c, beforeCall), 0, true)
  }

  /** The state in which the sender returns after these passes, or the loop head at
      which there are no more of them. */
  function AfterLoop(c: Client, passes: seq<Pass>, beforeCall: seq<Action>): (r: Client)
    requires c.pc == Head
    ensures r.pc == Stopped || r.pc == Head
    decreases |passes|
  {
    if c.count >= c.total then AfterCall(SenderStep(c, 0, true), beforeCall)
    else if passes == [] then c
    else
      var next := AfterPass(c, passes[0]);
      if next.pc == Leave then AfterCall(next, beforeCall) else AfterLoop(next, passes[1..], beforeCall)
  }

  /** The state of a new client after a whole script. */
  function AfterScript(total: int, script: Script): Client {
    var c := AfterLoop(Initial(total), script.passes, script.beforeCall);
    if c.pc == Stopped then Handled(c, script.afterwards) else c
  }

  class TelemetryClient {
    const finiteMessages := true
    const totalMessages: int
    var open: bool
    var done: bool
    var failed: bool
    var messagePending: bool
    var count: int
    var start: int
    var samples: seq<real>
    // the clock, and what the peer has been sent and has echoed
    var clock: int
    var attempts: seq<Attempt>
    var echoes: seq<int>
    // the sender's program point and its history
    ghost var pc: Pc
    ghost var passes: nat
    ghost var waits: nat
    ghost var calls: seq<Call>

    ghost function State(): Client
      reads this
    {
      Client(totalMessages, open, done, failed, messagePending, count, start, samples,
                    pc, clock, attempts, echoes, passes, waits, calls)
    }

    constructor (total: int)
      ensures totalMessages == total && State() == Initial(total)
    {
      totalMessages := total;
      open, done, failed, messagePending := false, false, false, false;
      count, start, clock := 0, 0, 0;
      samples, attempts, echoes := [], [], [];
      pc, passes, waits, calls := Head, 0, 0, [];
    }

    // ----- handlers, each run under the lock -----

    method OnOpen()
      modifies this`open
      ensures State() == Step(old(State()), Open)
    {
      open := true;
    }

    method OnClose()
      modifies this`done
      ensures State() == Step(old(State()), Close)
    {
      done := true;
    }

    method OnFail()
      modifies this`failed, this`done
      ensures State() == Step(old(State()), Fail)
    {
      failed := true;
      done := true;
    }

    method OnEcho(delay: nat)
      modifies this`messagePending, this`clock, this`samples, this`echoes
      ensures State() == OnMessage(old(State()), delay)
    {
      messagePending := false;
      clock := clock + delay;
      var elapsed := Micros(clock - start);
      samples := samples + [elapsed as real / 1000.0];
      echoes := echoes + [clock];
    }

    method Dispatch(a: Action) returns (ghost trace: seq<Action>)
      modifies this`open, this`done, this`failed, this`messagePending, this`clock, this`samples, this`echoes
      ensures Run(old(State()), trace, State())
      ensures State() == if a.Sender? || !Enabled(old(State()), a) then old(State()) else Step(old(State()), a)
    {
      trace := if a.Sender? || !Enabled(State(), a) then [] else [a];
      match a {
        case Open => OnOpen();
        case Close => OnClose();
        case Fail => OnFail();
        case Echo(delay) =>
          if |Accepted(attempts)| > |echoes| {
            OnEcho(delay);
          }
        case Sender(_, _) =>
      }
      assert trace != [] ==> trace[1..] == [];
    }

    /** The handlers that run between two steps of the sender. */
    method Interfere(handlers: seq<Action>, ghost from: Client, ghost before: seq<Action>)
      returns (ghost trace: seq<Action>)
      requires Run(from, before, State())
      modifies this`open, this`done, this`failed, this`messagePending, this`clock, this`samples, this`echoes
      ensures Run(from, trace, State())
      ensures State() == Handled(old(State()), handlers)
    {
      hide Run, State, Step, Enabled;
      ghost var start := State();
      trace := before;
      assert handlers[..0] == [];
      for i := 0 to |handlers|
        invariant Run(from, trace, State())
        invariant State() == Handled(start, handlers[..i])
      {
        ghost var mid := State();
        ghost var one := Dispatch(handlers[i]);
        RunConcat(from, trace, mid, one, State());
        trace := trace + one;
        assert handlers[..i + 1][..i] == handlers[..i];
      }
      assert handlers[..|handlers|] == handlers;
    }

    // ----- the sender -----

    /** Records a step the sender has just taken from the state `was`. */
    ghost method Record(from: Client, before: seq<Action>, was: Client, delay: nat, accepted: bool)
      returns (trace: seq<Action>)
      requires Run(from, before, was) && was.pc != Stopped
      requires State() == SenderStep(was, delay, accepted)
      ensures Run(from, trace, State())
    {
      RunSnoc(from, before, was, Sender(delay, accepted));
      trace := before + [Sender(delay, accepted)];
    }

    /** The loop condition holds: a pass begins. */
    ghost method EnterPass(from: Client, before: seq<Action>) returns (trace: seq<Action>)
      requires pc == Head && count < totalMessages && Run(from, before, State())
      modifies this`pc, this`passes
      ensures Run(from, trace, State())
      ensures State() == SenderStep(old(State()), 0, true) && pc == Check && passes == old(passes) + 1
    {
      ghost var was := State();
      pc, passes := Check, passes + 1;
      trace := Record(from, before, was, 0, true);
    }

    method CountMessage(ghost from: Client, ghost before: seq<Action>) returns (ghost trace: seq<Action>)
      requires pc == Count && Run(from, before, State())
      modifies this`pc, this`count
      ensures Run(from, trace, State())
      ensures State() == SenderStep(old(State()), 0, true) && pc == Send
    {
      ghost var was := State();
      count := count + 1;
      pc := Send;
      trace := Record(from, before, was, 0, true);
    }

    /** The loop condition is false. */
    ghost method LeaveLoop(from: Client, before: seq<Action>) returns (trace: seq<Action>)
      requires pc == Head && count >= totalMessages && Run(from, before, State())
      modifies this`pc
      ensures Run(from, trace, State())
      ensures State() == SenderStep(old(State()), 0, true) && pc == Leave
    {
      ghost var was := State();
      pc := Leave;
      trace := Record(from, before, was, 0, true);
    }

    /** After the loop, left by its condition or by the break: close or fail. */
    method Finish(beforeCall: seq<Action>, ghost from: Client, ghost before: seq<Action>)
      returns (ghost trace: seq<Action>)
      requires pc == Leave && Run(from, before, State())
      modifies this`pc, this`calls, this`open, this`done, this`failed, this`messagePending,
               this`clock, this`samples, this`echoes
      ensures Run(from, trace, State())
      ensures pc == Stopped && State() == AfterCall(old(State()), beforeCall)
      ensures calls == old(calls) + [if count == totalMessages then CloseCall else FailCall]
    {
      hide Run, Handled;
      trace := Interfere(beforeCall, from, before);
      trace := CloseOrFail(from, trace);
    }

    method CloseOrFail(ghost from: Client, ghost before: seq<Action>) returns (ghost trace: seq<Action>)
      requires pc == Leave && Run(from, before, State())
      modifies this`pc, this`calls
      ensures Run(from, trace, State())
      ensures State() == SenderStep(old(State()), 0, true)
      ensures calls == old(calls) + [if count == totalMessages then CloseCall else FailCall]
    {
      hide Run;
      ghost var was := State();
      if count == totalMessages {
        calls := calls + [CloseCall];
      } else {
        calls := calls + [FailCall];
      }
      pc := Stopped;
      trace := Record(from, before, was, 0, true);
    }

    /** The first critical section of a pass. */
    method CheckReady(ghost from: Client, ghost before: seq<Action>)
      returns (verdict: Verdict, ghost trace: seq<Action>)
      requires pc == Check && Run(from, before, State())
      modifies this`pc, this`waits
      ensures Run(from, trace, State())
      ensures State() == SenderStep(old(State()), 0, true)
      ensures pc == match verdict case Finished => Leave case NotReady => Head case Ready => Count
    {
      ghost var was := State();
      if done {
        verdict, pc := Finished, Leave;
      } else if !open || messagePending {
        verdict, pc := NotReady, Head;
        waits := waits + 1;
      } else {
        verdict, pc := Ready, Count;
      }
      trace := Record(from, before, was, 0, true);
    }

    /** The second critical section of a pass. */
    method SendUnderLock(delay: nat, accepted: bool, ghost from: Client, ghost before: seq<Action>)
      returns (error: bool, ghost trace: seq<Action>)
      requires pc == Send && Run(from, before, State())
      modifies this`pc, this`messagePending, this`clock, this`start, this`attempts
      ensures Run(from, trace, State())
      ensures State() == SendMessage(old(State()), delay, accepted)
      ensures error == !accepted && pc == Reset(error)
    {
      hide Run;
      ghost var was := State();
      messagePending := true;
      clock := clock + delay;
      start := clock;
      attempts := attempts + [Attempt(clock, accepted)];
      error := !accepted;
      pc := Reset(error);
      trace := Record(from, before, was, delay, accepted);
    }

    /** The flag is cleared without the lock when the send reported an error. */
    method ResetAfter(error: bool, ghost from: Client, ghost before: seq<Action>)
      returns (ghost trace: seq<Action>)
      requires pc == Reset(error) && Run(from, before, State())
      modifies this`pc, this`messagePending
      ensures Run(from, trace, State())
      ensures State() == SenderStep(old(State()), 0, true) && pc == Head
    {
      ghost var was := State();
      if error {
        messagePending := false;
      }
      pc := Head;
      trace := Record(from, before, was, 0, true);
    }

    /** A pass up to the verdict of its first critical section. */
    method BeginPass(pass: Pass, ghost from: Client, ghost before: seq<Action>)
      returns (verdict: Verdict, ghost trace: seq<Action>)
      requires pc == Head && count < totalMessages && Run(from, before, State())
      modifies this
      ensures Run(from, trace, State())
      ensures State() == SenderStep(Stepped(old(State()), pass.beforeCheck), 0, true)
      ensures pc == match verdict case Finished => Leave case NotReady => Head case Ready => Count
      ensures passes == old(passes) + 1
    {
      hide Run, Handled;
      trace := EnterPass(from, before);
      trace := Interfere(pass.beforeCheck, from, trace);
      verdict, trace := CheckReady(from, trace);
    }

    /** The body of the sender's loop: it leaves the loop when `broke`. */
    method LoopBody(pass: Pass, ghost from: Client, ghost before: seq<Action>)
      returns (broke: bool, ghost trace: seq<Action>)
      requires pc == Head && count < totalMessages && Run(from, before, State())
      modifies this
      ensures Run(from, trace, State())
      ensures pc == (if broke then Leave else Head) && passes == old(passes) + 1
      ensures State() == AfterPass(old(State()), pass)
    {
      hide Run, SenderStep, SendMessage, Handled, AfterSend, Stepped;
      var verdict;
      verdict, trace := BeginPass(pass, from, before);
      if verdict == Finished {
        return true, trace;
      }
      if verdict == NotReady {
        trace := Interfere(pass.beforeHead, from, trace);
        return false, trace;
      }
      trace := Interfere(pass.beforeCount, from, trace);
      trace := CountAndSend(pass, from, trace);
      broke := false;
    }

    method CountAndSend(pass: Pass, ghost from: Client, ghost before: seq<Action>)
      returns (ghost trace: seq<Action>)
      requires pc == Count && Run(from, before, State())
      modifies this`pc, this`count, this`open, this`done, this`failed, this`messagePending,
               this`clock, this`start, this`samples, this`attempts, this`echoes
      ensures Run(from, trace, State())
      ensures pc == Head
      ensures State() == AfterSend(Stepped(old(State()), pass.beforeSend), pass)
    {
      hide Run, SenderStep, SendMessage, Handled, AfterSend;
      trace := CountMessage(from, before);
      trace := Interfere(pass.beforeSend, from, trace);
      trace := SendAndReset(pass, from, trace);
    }

    method SendAndReset(pass: Pass, ghost from: Client, ghost before: seq<Action>)
      returns (ghost trace: seq<Action>)
      requires pc == Send && Run(from, before, State())
      modifies this`pc, this`open, this`done, this`failed, this`messagePending,
               this`clock, this`start, this`samples, this`attempts, this`echoes
      ensures Run(from, trace, State())
      ensures pc == Head
      ensures State() == AfterSend(old(State()), pass)
    {
      hide Run, SenderStep, SendMessage, Handled;
      var ec;
      ec, trace := SendUnderLock(pass.delay, pass.accepted, from, before);
      trace := Interfere(pass.beforeReset, from, trace);
      trace := ResetAfter(ec, from, trace);
      trace := Interfere(pass.beforeHead, from, trace);
    }

    /** The sender's loop and the call after it, interleaved with the handlers that are
        named for each pass and for the time before the call. It stops early, at a loop
        head, when there are no more passes; as many passes as messages and waits are
        enough for it to return. */
    method TelemetryLoop(passes: seq<Pass>, beforeCall: seq<Action>)
      returns (finished: bool, ghost trace: seq<Action>)
      requires pc == Head
      modifies this
      ensures Run(old(State()), trace, State())
      ensures State() == AfterLoop(old(State()), passes, beforeCall)
      ensures if finished then pc == Stopped
              else pc == Head && count < totalMessages && this.passes == old(this.passes) + |passes|
      ensures |passes| >= totalMessages - old(count) + waits - old(waits) ==> finished
    {
      hide AfterCall;
      ghost var from := State();
      trace := [];
      var i := 0;
      while !finiteMessages || count < totalMessages
        invariant 0 <= i <= |passes|
        invariant pc == Head && this.passes == old(this.passes) + i
        invariant count + waits == old(count) + old(waits) + i
        invariant Run(from, trace, State())
        invariant AfterLoop(from, passes, beforeCall) == AfterLoop(State(), passes[i..], beforeCall)
        decreases |passes| - i
      {
        if i == |passes| {
          return false, trace;
        }
        var broke;
        broke, trace := LoopBody(passes[i], from, trace);
        i := i + 1;
        if broke {
          break;
        }
      }
      if pc == Head {
        trace := LeaveLoop(from, trace);
      }
      trace := Finish(beforeCall, from, trace);
      finished := true;
    }

    // ----- reporting, after both threads have been joined -----

    method GetStats(codec: Codec, setup: Double) returns (line: string)
      ensures line == StatsLine(codec, State(), setup)
    {
      line := if !failed then "success" else "fail" + (if open then "-opened" else "");
      line := line + " ";
      line := line + PrintInt(|samples|) + " ";
      line := line + codec.show(MinField(samples)) + " ";
      line := line + codec.show(MaxField(samples)) + " ";
      line := line + codec.show(MeanField(samples)) + " ";
      line := line + codec.show(VarianceField(samples)) + " ";
      line := line + codec.show(setup);
      SpacedSix(Kind(State()), Fields(codec, samples, setup));
    }
  }

  datatype Verdict = Finished | NotReady | Ready
}
