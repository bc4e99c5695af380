/** The scripts that drive a client's methods reach exactly the states its two threads
    can end in: taking handlers only between the steps of the sender, a pass at a time,
    leaves out no interleaving. */
module Scripts {
  import opened Telemetry
  import opened BaseClient

  // ----- every script is a run -----

  lemma {:induction false} HandledReached(total: int, c: Client, handlers: seq<Action>)
    requires Reachable(total, c)
    ensures Reachable(total, Handled(c, handlers))
  {
    hide Reachable, Enabled, Step;
    if handlers != [] {
      var k := |handlers| - 1;
      HandledReached(total, c, handlers[..k]);
      var mid := Handled(c, handlers[..k]);
      if Enabled(mid, handlers[k]) {
        StepReached(total, mid, handlers[k]);
      }
    }
  }

  lemma SteppedReached(total: int, c: Client, handlers: seq<Action>)
    requires Reachable(total, c) && c.pc != Stopped
    ensures Reachable(total, Stepped(c, handlers))
  {
    hide Reachable, SenderStep, Handled;
    SenderReached(total, c, 0, true);
    HandledReached(total, SenderStep(c, 0, true), handlers);
  }

  lemma SendReached(total: int, c: Client, pass: Pass)
    requires Reachable(total, c) && c.pc == Send
    ensures Reachable(total, AfterSend(c, pass))
  {
    hide Reachable, Handled, Stepped;
    SenderReached(total, c, pass.delay, pass.accepted);
    var sent := SendMessage(c, pass.delay, pass.accepted);
    HandledReached(total, sent, pass.beforeReset);
    SteppedReached(total, Handled(sent, pass.beforeReset), pass.beforeHead);
  }

  lemma PassReached(total: int, c: Client, pass: Pass)
    requires Reachable(total, c) && c.pc == Head && c.count < c.total
    ensures Reachable(total, AfterPass(c, pass))
  {
    hide Reachable, Handled, AfterSend;
    SteppedReached(total, c, pass.beforeCheck);
    var checking := Stepped(c, pass.beforeCheck);
    SenderReached(total, checking, 0, true);
    var checked := SenderStep(checking, 0, true);
    if checked.pc == Head {
      HandledReached(total, checked, pass.beforeHead);
    } else if checked.pc == Count {
      HandledReached(total, checked, pass.beforeCount);
      SteppedReached(total, Handled(checked, pass.beforeCount), pass.beforeSend);
      SendReached(total, Stepped(Handled(checked, pass.beforeCount), pass.beforeSend), pass);
    }
  }

  lemma CallReached(total: int, c: Client, beforeCall: seq<Action>)
    requires Reachable(total, c) && c.pc == Leave
    ensures Reachable(total, AfterCall(c, beforeCall))
  {
    hide Reachable, Handled;
    HandledReached(total, c, beforeCall);
    SenderReached(total, Handled(c, beforeCall), 0, true);
  }

  lemma {:induction false} LoopReached(total: int, c: Client, passes: seq<Pass>, beforeCall: seq<Action>)
    requires Reachable(total, c) && c.pc == Head
    ensures Reachable(total, AfterLoop(c, passes, beforeCall))
    decreases |passes|
  {
    hide Reachable, AfterPass, AfterCall;
    if c.count >= c.total {
      SenderReached(total, c, 0, true);
      CallReached(total, SenderStep(c, 0, true), beforeCall);
    } else if passes != [] {
      PassReached(total, c, passes[0]);
      var next := AfterPass(c, passes[0]);
      if next.pc == Leave {
        CallReached(total, next, beforeCall);
      } else {
        LoopReached(total, next, passes[1..], beforeCall);
      }
    }
  }

  lemma ScriptReached(total: int, script: Script)
    ensures Reachable(total, AfterScript(total, script))
  {
    hide Reachable, AfterLoop, Handled;
    ReachedFirst(total);
    LoopReached(total, Initial(total), script.passes, script.beforeCall);
    HandledReached(total, AfterLoop(Initial(total), script.passes, script.beforeCall), script.afterwards);
  }

  // ----- every run that ends is a script -----

  lemma {:induction false} HandledConcat(c: Client, a: seq<Action>, b: seq<Action>)
    ensures Handled(c, a + b) == Handled(Handled(c, a), b)
    decreases |b|
  {
    hide Step, Enabled;
    if b == [] {
      assert a + b == a;
    } else {
      var k := |b| - 1;
      HandledConcat(c, a, b[..k]);
      assert (a + b)[..|a + b| - 1] == a + b[..k];
    }
  }

  lemma HandledFirst(c: Client, a: Action, rest: seq<Action>)
    requires !a.Sender? && Enabled(c, a)
    ensures Handled(c, [a] + rest) == Handled(Step(c, a), rest)
  {
    hide Step, Enabled;
    HandledConcat(c, [a], rest);
    assert [a][..0] == [];
  }

  /** The handlers that run before the sender's next step, and what comes after it. */
  lemma {:induction false} NextSenderStep(c: Client, trace: seq<Action>, end: Client)
    returns (handlers: seq<Action>, delay: nat, accepted: bool, rest: seq<Action>)
    requires Run(c, trace, end) && c.pc != Stopped && end.pc == Stopped
    ensures |rest| < |trace|
    ensures Run(SenderStep(Handled(c, handlers), delay, accepted), rest, end)
    decreases |trace|
  {
    hide SenderStep;
    var a := trace[0];
    if a.Sender? {
      handlers, delay, accepted, rest := [], a.delay, a.accepted, trace[1..];
    } else {
      HandlerKeepsPc(c, a);
      handlers, delay, accepted, rest := NextSenderStep(Step(c, a), trace[1..], end);
      HandledFirst(c, a, handlers);
      handlers := [a] + handlers;
    }
  }

  lemma HandlerKeepsPc(c: Client, a: Action)
    requires Enabled(c, a) && !a.Sender?
    ensures Step(c, a).pc == c.pc
  {
  }

  lemma {:induction false} OnlyHandlers(c: Client, trace: seq<Action>, end: Client)
    requires Run(c, trace, end) && c.pc == Stopped
    ensures end == Handled(c, trace)
    decreases |trace|
  {
    if trace != [] {
      HandlerKeepsPc(c, trace[0]);
      OnlyHandlers(Step(c, trace[0]), trace[1..], end);
      HandledFirst(c, trace[0], trace[1..]);
      assert [trace[0]] + trace[1..] == trace;
    }
  }

  /** Only a send looks at the clock and at its outcome. */
  lemma SilentStep(c: Client, delay: nat, accepted: bool)
    requires c.pc != Send && c.pc != Stopped
    ensures SenderStep(c, delay, accepted) == SenderStep(c, 0, true)
  {
  }

  /** The loop condition looks at nothing a handler writes. */
  lemma {:induction false} HeadCommutes(c: Client, handlers: seq<Action>)
    requires c.pc == Head
    ensures SenderStep(Handled(c, handlers), 0, true) == Handled(SenderStep(c, 0, true), handlers)
  {
    hide SenderStep, Step, Enabled;
    if handlers != [] {
      var k := |handlers| - 1;
      HeadCommutes(c, handlers[..k]);
      if !handlers[k].Sender? {
        HeadCommutesOne(Handled(c, handlers[..k]), handlers[k]);
      }
    }
  }

  lemma HeadCommutesOne(c: Client, a: Action)
    requires c.pc == Head && !a.Sender?
    ensures Enabled(SenderStep(c, 0, true), a) <==> Enabled(c, a)
    ensures Enabled(c, a) ==> SenderStep(Step(c, a), 0, true) == Step(SenderStep(c, 0, true), a)
  {
    hide Accepted, Millis;
  }

  /** From the way out of the loop to the end of both threads. */
  lemma ScriptFromLeave(c: Client, trace: seq<Action>, end: Client)
    returns (beforeCall: seq<Action>, afterwards: seq<Action>)
    requires Run(c, trace, end) && c.pc == Leave && end.pc == Stopped
    ensures end == Handled(AfterCall(c, beforeCall), afterwards)
  {
    hide Handled, Run;
    var delay, accepted;
    beforeCall, delay, accepted, afterwards := NextSenderStep(c, trace, end);
    SilentStep(Handled(c, beforeCall), delay, accepted);
    OnlyHandlers(AfterCall(c, beforeCall), afterwards, end);
  }

  /** One pass, from a loop head at which the condition holds. */
  lemma PassFromHead(c: Client, trace: seq<Action>, end: Client) returns (pass: Pass, rest: seq<Action>)
    requires Run(c, trace, end) && c.pc == Head && c.count < c.total && end.pc == Stopped
    ensures |rest| < |trace| && Run(AfterPass(c, pass), rest, end)
  {
    hide Handled, Run, SendMessage;
    pass := Pass([], [], [], [], [], 0, true);
    var h, delay, accepted;
    h, delay, accepted, rest := NextSenderStep(c, trace, end);
    SilentStep(Handled(c, h), delay, accepted);
    HeadCommutes(c, h);
    var entered := SenderStep(c, 0, true);
    var h2;
    h2, delay, accepted, rest := NextSenderStep(Handled(entered, h), rest, end);
    HandledConcat(entered, h, h2);
    pass := pass.(beforeCheck := h + h2);
    var checking := Handled(entered, h + h2);
    SilentStep(checking, delay, accepted);
    var checked := SenderStep(checking, 0, true);
    if checked.pc == Head {
      HandledNone(checked);
    } else if checked.pc == Count {
      pass, rest := SendFromCount(checked, rest, end, pass);
    }
  }

  lemma HandledNone(c: Client)
    ensures Handled(c, []) == c
  {
  }

  lemma SendFromCount(c: Client, trace: seq<Action>, end: Client, begun: Pass) returns (pass: Pass, rest: seq<Action>)
    requires Run(c, trace, end) && c.pc == Count && end.pc == Stopped
    ensures pass.beforeCheck == begun.beforeCheck
    ensures |rest| < |trace|
    ensures Run(AfterSend(Stepped(Handled(c, pass.beforeCount), pass.beforeSend), pass), rest, end)
  {
    hide Handled, Run;
    var delay, accepted, beforeCount, beforeSend, beforeReset;
    beforeCount, delay, accepted, rest := NextSenderStep(c, trace, end);
    SilentStep(Handled(c, beforeCount), delay, accepted);
    var counted := SenderStep(Handled(c, beforeCount), 0, true);
    beforeSend, delay, accepted, rest := NextSenderStep(counted, rest, end);
    var sent := SendMessage(Handled(counted, beforeSend), delay, accepted);
    pass := Pass(begun.beforeCheck, beforeCount, beforeSend, [], [], delay, accepted);
    beforeReset, delay, accepted, rest := NextSenderStep(sent, rest, end);
    SilentStep(Handled(sent, beforeReset), delay, accepted);
    pass := pass.(beforeReset := beforeReset);
    HandledNone(SenderStep(Handled(sent, beforeReset), 0, true));
  }

  lemma {:induction false} ScriptFromHead(c: Client, trace: seq<Action>, end: Client) returns (script: Script)
    requires Run(c, trace, end) && c.pc == Head && end.pc == Stopped
    ensures AfterLoop(c, script.passes, script.beforeCall).pc == Stopped
    ensures end == Handled(AfterLoop(c, script.passes, script.beforeCall), script.afterwards)
    decreases |trace|
  {
    hide Handled, Run, AfterPass;
    if c.count >= c.total {
      var h, delay, accepted, rest := NextSenderStep(c, trace, end);
      SilentStep(Handled(c, h), delay, accepted);
      HeadCommutes(c, h);
      var left := SenderStep(c, 0, true);
      var beforeCall, afterwards := ScriptFromLeave(Handled(left, h), rest, end);
      HandledConcat(left, h, beforeCall);
      script := Script([], h + beforeCall, afterwards);
    } else {
      var pass, rest := PassFromHead(c, trace, end);
      var next := AfterPass(c, pass);
      if next.pc == Leave {
        var beforeCall, afterwards := ScriptFromLeave(next, rest, end);
        script := Script([pass], beforeCall, afterwards);
      } else {
        var more := ScriptFromHead(next, rest, end);
        script := Script([pass] + more.passes, more.beforeCall, more.afterwards);
        assert script.passes[1..] == more.passes;
      }
    }
  }

  /** A finished client is exactly what some script ends in: no interleaving of the two
      threads is beyond the scripts. */
  lemma FinalExactlyScripted(total: int, c: Client)
    ensures Final(total, c) <==> exists script :: AfterScript(total, script) == c && c.pc == Stopped
  {
    hide Run, AfterScript;
    if Final(total, c) {
      var script := ScriptOf(total, c);
    }
    if script :| AfterScript(total, script) == c && c.pc == Stopped {
      ScriptReached(total, script);
    }
  }

  lemma ScriptOf(total: int, c: Client) returns (script: Script)
    requires Final(total, c)
    ensures AfterScript(total, script) == c
  {
    hide Run, Handled, AfterLoop;
    var trace :| Run(Initial(total), trace, c);
    script := ScriptFromHead(Initial(total), trace, c);
  }

  // ----- several connections at once -----

  /** Any interleaving of the steps of several clients, each with its own two threads. */
  predicate RunTogether(cs: seq<Client>, trace: seq<(nat, Action)>, ended: seq<Client>)
    decreases |trace|
  {
    if trace == [] then cs == ended
    else
      var (i, a) := trace[0];
      && i < |cs| && Enabled(cs[i], a)
      && RunTogether(cs[i := Step(cs[i], a)], trace[1..], ended)
  }

  /** Clients share nothing: in any interleaving each is in a state of a run of its own. */
  lemma {:induction false} RunApart(total: int, cs: seq<Client>, trace: seq<(nat, Action)>, ended: seq<Client>)
    requires RunTogether(cs, trace, ended)
    requires forall i :: 0 <= i < |cs| ==> Reachable(total, cs[i])
    ensures |ended| == |cs|
    ensures forall i :: 0 <= i < |ended| ==> Reachable(total, ended[i])
    decreases |trace|
  {
    hide Reachable, Step, Enabled;
    if trace != [] {
      var (i, a) := trace[0];
      StepReached(total, cs[i], a);
      RunApart(total, cs[i := Step(cs[i], a)], trace[1..], ended);
    }
  }
}
