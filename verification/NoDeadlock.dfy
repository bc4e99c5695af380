/** When the protocol gets stuck: with enough listeners, and unless a child has gone before
    it heard HELLO, some action always brings the run closer to its end; following such
    actions the controller finishes, whatever has crashed. */
module NoDeadlock {
  import opened Sums
  import opened Protocol
  import opened Invariant
  import opened Steps
  import opened Barriers
  import opened Conservation
  import opened Ordering
  import opened Completion
  import opened Records
  import T = Telemetry
  import Report

  // ----- finding who is behind -----

  lemma {:induction false} SomeBelow<X>(s: seq<X>, f: X -> int, g: X -> int, k: int) returns (i: nat)
    requires Sum(s, f) < k * Sum(s, g)
    ensures i < |s| && f(s[i]) < k * g(s[i])
    decreases |s|
  {
    var n := |s| - 1;
    if s == [] {
      assert false;
    } else if f(s[n]) < k * g(s[n]) {
      i := n;
    } else {
      assert k * Sum(s, g) == k * Sum(s[..n], g) + k * g(s[n]);
      i := SomeBelow(s[..n], f, g, k);
    }
  }

  /** An action to take: allowed, productive, and within the environment assumptions. */
  ghost predicate Good(cfg: Config, s: System, a: Action) {
    Enabled(cfg, s, a) && Productive(s, a) && Orderly(cfg, s, a)
  }

  /** Such an action that delivers no result, and ends connections as picked. */
  ghost predicate Quiet(cfg: Config, s: System, a: Action, pick: Assignment) {
    Good(cfg, s, a) && !a.DeliverResult? && Ends(s, a, pick)
  }

  // ----- the listener barrier fills -----

  lemma ListenerToSync(cfg: Config, s: System, l: nat, pick: Assignment) returns (a: Action)
    requires Inv(cfg, s) && l < |s.listeners|
    requires s.phase == SyncListeners && s.subscribers < cfg.machines
    requires !Answered(s.listeners[l].stage)
    ensures Quiet(cfg, s, a, pick)
  {
    hide Sum, ChildInv, ListenerWork, Barrier, SinkInv;
    var x := s.listeners[l];
    assert ListenerInv(cfg, 0, x);
    if x.stage == Requested {
      a := AnswerListener(l);
    } else if x.active < 3 {
      a := ListenerMoves(l, ListenerSubscribe);
    } else if x.inbox != [] {
      a := ListenerMoves(l, ListenerReceive);
    } else {
      a := GreetListeners;
      assert WantsHello(s.listeners[l]);
    }
  }

  lemma SomeListenerUnanswered(ls: seq<Listener>) returns (l: nat)
    requires Sum(ls, IsAnswered) < |ls|
    ensures l < |ls| && !Answered(ls[l].stage)
  {
    SumOne(ls);
    l := SomeBelow(ls, IsAnswered, One, 1);
  }

  // ----- the child barrier fills -----

  lemma ChildToSync(cfg: Config, s: System, l: nat, c: nat, pick: Assignment) returns (a: Action)
    requires Inv(cfg, s) && NoneVanished(s) && IsChild(s, l, c)
    requires s.phase == SyncChildren && s.processes < Quota(cfg)
    requires !Answered(s.listeners[l].children[c].stage)
    ensures Quiet(cfg, s, a, pick)
  {
    hide Sum, ListenerInv, Barrier, SinkInv, Quota, T.Final;
    var x := s.listeners[l].children[c];
    ChildOf(cfg, s, l, c);
    ChildPresent(s, l, c);
    if x.stage == Requested {
      a := AnswerChild(l, c);
    } else if x.active < 2 {
      a := ChildMoves(l, c, Subscribe);
    } else if x.inbox != [] {
      a := ChildMoves(l, c, Receive);
    } else {
      a := GreetChildren;
      assert IsChild(s, l, c) && ChildWantsHello(s.listeners[l].children[c]);
    }
  }

  /** While the child barrier is not full, some answered listener is short of
      answered children. */
  lemma ListenerBehind(cfg: Config, s: System) returns (l: nat)
    requires Listeners(cfg, s) && Barrier(cfg, s)
    requires Rank(s.phase) >= 1 && s.processes < Quota(cfg)
    ensures l < |s.listeners| && Answered(s.listeners[l].stage)
    ensures AnsweredChildren(s.listeners[l]) < cfg.processes
  {
    hide ListenerInv, Quota;
    QuotaIs(cfg, Sum(s.listeners, IsAnswered));
    l := SomeBelow(s.listeners, AnsweredChildren, IsAnswered, cfg.processes);
    AnsweredAtMostLaunched(s.listeners[l].children);
  }

  lemma SomeChildUnanswered(cs: seq<Child>) returns (c: nat)
    requires Sum(cs, IsAnsweredChild) < |cs|
    ensures c < |cs| && !Answered(cs[c].stage)
  {
    SumOne(cs);
    c := SomeBelow(cs, IsAnsweredChild, One, 1);
  }

  /** A listener that was answered and has not started has StartProcesses to read. */
  lemma StartToRead(cfg: Config, rank: nat, l: Listener)
    requires ListenerHeard(cfg, rank, l) && rank >= 1 && Answered(l.stage) && !l.started
    ensures l.inbox != []
  {
  }

  lemma AnsweredListenerMoves(cfg: Config, s: System, l: nat, pick: Assignment) returns (a: Action)
    requires Inv(cfg, s) && NoneVanished(s) && l < |s.listeners|
    requires s.phase == SyncChildren && s.processes < Quota(cfg)
    requires Answered(s.listeners[l].stage) && AnsweredChildren(s.listeners[l]) < cfg.processes
    ensures Quiet(cfg, s, a, pick)
  {
    hide Sum, ChildInv, Barrier, SinkInv, Quota, NoneVanished, Reported;
    var x := s.listeners[l];
    assert ListenerInv(cfg, 1, x);
    if x.stage == Replied {
      a := ListenerMoves(l, ListenerTakeReply);
    } else if !x.started {
      StartToRead(cfg, 1, x);
      a := ListenerMoves(l, ListenerReceive);
    } else if x.task.Launching? {
      a := ListenerMoves(l, Launch);
    } else {
      var c := SomeChildUnanswered(x.children);
      a := ChildToSync(cfg, s, l, c, pick);
    }
  }

  // ----- the sink drains -----

  /** Whatever the configured total, some run of a client ends, and all can end alike. */
  lemma SomeAssignment(total: int) returns (pick: Assignment)
    ensures AnyFinal(total, pick)
  {
    hide T.Final;
    var client := T.AnyLatencies(total, []);
    pick := Always(Ending(client, Report.NotANumber));
  }

  lemma WorkToRead(cfg: Config, rank: nat, c: Child)
    requires ChildInv(cfg, rank, c) && rank >= 2 && c.work.None?
    ensures c.inbox != []
  {
  }

  lemma ChildToExit(cfg: Config, s: System, l: nat, c: nat, pick: Assignment) returns (a: Action)
    requires AnyFinal(cfg.work.messages, pick)
    requires Inv(cfg, s) && IsChild(s, l, c)
    requires s.phase == Drain && s.listeners[l].children[c].exit.None?
    ensures Quiet(cfg, s, a, pick)
  {
    hide Sum, ListenerInv, Barrier, SinkInv, T.Final;
    var x := s.listeners[l].children[c];
    ChildOf(cfg, s, l, c);
    if x.stage == Replied {
      a := ChildMoves(l, c, TakeReply);
    } else if x.work.None? {
      WorkToRead(cfg, 2, x);
      a := ChildMoves(l, c, Receive);
    } else if |x.log| < x.work.value.instances {
      a := ChildMoves(l, c, Emit(pick(l, c, |x.log|)));
    } else {
      a := ChildMoves(l, c, Exit);
    }
  }

  lemma SomeChildUnreaped(cs: seq<Child>) returns (c: nat)
    requires Sum(cs, IsReaped) < |cs|
    ensures c < |cs| && !cs[c].reaped
  {
    SumOne(cs);
    c := SomeBelow(cs, IsReaped, One, 1);
  }

  lemma ReapingListenerMoves(cfg: Config, s: System, l: nat, pick: Assignment) returns (a: Action)
    requires AnyFinal(cfg.work.messages, pick)
    requires Inv(cfg, s) && l < |s.listeners| && s.phase == Drain
    requires Answered(s.listeners[l].stage) && |s.listeners[l].reports| < cfg.processes
    ensures Quiet(cfg, s, a, pick)
  {
    hide Sum, ChildInv, Barrier, SinkInv, Quota, Reported;
    var x := s.listeners[l];
    assert ListenerInv(cfg, 2, x);
    if x.task.Launching? {
      a := ListenerMoves(l, Launch);
    } else {
      assert x.started && x.unfinished > 0 && x.task == Reaping;
      var c := SomeChildUnreaped(x.children);
      if x.children[c].exit.Some? {
        a := ListenerMoves(l, Reap(c));
      } else {
        a := ChildToExit(cfg, s, l, c, pick);
      }
    }
  }

  lemma NoReportPending(ls: seq<Listener>)
    requires forall l :: 0 <= l < |ls| ==> ls[l].outbox == []
    ensures Sum(ls, ReportsPending) == 0
  {
    AllZero(ls, ReportsPending);
  }

  /** When everything underway was delivered and consumed and exits are still missing,
      some answered listener has children to report. */
  lemma ListenerToReport(cfg: Config, s: System) returns (l: nat)
    requires Inv(cfg, s) && s.phase == Drain
    requires s.taken == |s.arrived| && Exits(Consumed(s)) < Quota(cfg)
    requires forall l :: 0 <= l < |s.listeners| ==> s.listeners[l].outbox == []
    ensures l < |s.listeners| && Answered(s.listeners[l].stage) && |s.listeners[l].reports| < cfg.processes
  {
    hide ListenerInv, Sum, Quota;
    assert s.arrived[..s.taken] == s.arrived;
    NoReportPending(s.listeners);
    QuotaIs(cfg, Sum(s.listeners, IsAnswered));
    l := SomeBelow(s.listeners, ReportsMade, IsAnswered, cfg.processes);
  }

  /** Everything that was delivered is consumed first. */
  lemma ConsumeOrElse(cfg: Config, s: System) returns (a: Action)
    requires Inv(cfg, s) && s.phase == Drain
    requires Exits(Consumed(s)) >= Quota(cfg) || s.taken < |s.arrived|
    ensures (a == Finish || a == Consume) && Good(cfg, s, a)
  {
    hide ListenerInv, Quota, Exits, Barrier;
    a := if Exits(Consumed(s)) >= Quota(cfg) then Finish else Consume;
  }

  /** Draining, with results delivered before any report. */
  lemma DrainMoves(cfg: Config, s: System, pick: Assignment) returns (a: Action)
    requires Inv(cfg, s) && s.phase == Drain && AnyFinal(cfg.work.messages, pick)
    ensures Good(cfg, s, a) && Ends(s, a, pick)
  {
    hide ListenerInv, ChildInv, Sum, Quota, Exits, Barrier, AnyFinal;
    if Exits(Consumed(s)) >= Quota(cfg) || s.taken < |s.arrived| {
      a := ConsumeOrElse(cfg, s);
    } else if exists l: nat, c: nat :: IsChild(s, l, c) && s.listeners[l].children[c].outbox != [] {
      var l: nat, c: nat :| IsChild(s, l, c) && s.listeners[l].children[c].outbox != [];
      a := DeliverResult(l, c);
    } else if exists l: nat :: l < |s.listeners| && s.listeners[l].outbox != [] {
      var l: nat :| l < |s.listeners| && s.listeners[l].outbox != [];
      a := DeliverReport(l);
      assert forall c: nat :: c < |s.listeners[l].children| ==> IsChild(s, l, c);
    } else {
      var l := ListenerToReport(cfg, s);
      a := ReapingListenerMoves(cfg, s, l, pick);
    }
  }

  /** Draining, with no result ever delivered. */
  lemma DrainReportsOnly(cfg: Config, s: System, pick: Assignment) returns (a: Action)
    requires Inv(cfg, s) && s.phase == Drain && AnyFinal(cfg.work.messages, pick)
    ensures Enabled(cfg, s, a) && Productive(s, a) && !a.DeliverResult? && Ends(s, a, pick)
  {
    hide ListenerInv, ChildInv, Sum, Quota, Exits, Barrier, AnyFinal;
    if Exits(Consumed(s)) >= Quota(cfg) || s.taken < |s.arrived| {
      a := ConsumeOrElse(cfg, s);
    } else if l: nat :| l < |s.listeners| && s.listeners[l].outbox != [] {
      a := DeliverReport(l);
    } else {
      var l := ListenerToReport(cfg, s);
      a := ReapingListenerMoves(cfg, s, l, pick);
    }
  }

  // ----- no deadlock, and completion -----

  /** The barriers fill, without a result being delivered. */
  lemma BarriersFill(cfg: Config, s: System, pick: Assignment) returns (a: Action)
    requires Inv(cfg, s) && NoneVanished(s)
    requires |s.listeners| >= cfg.machines && s.phase in {SyncListeners, SyncChildren}
    ensures Quiet(cfg, s, a, pick)
  {
    hide ListenerInv, Sum, Quota, Everywhere, SinkInv, AnsweredChildren;
    if s.phase == SyncListeners {
      if s.subscribers >= cfg.machines {
        a := StartListeners;
      } else {
        var l := SomeListenerUnanswered(s.listeners);
        a := ListenerToSync(cfg, s, l, pick);
      }
    } else {
      if s.processes >= Quota(cfg) {
        a := StartChildren;
      } else {
        var l := ListenerBehind(cfg, s);
        a := AnsweredListenerMoves(cfg, s, l, pick);
      }
    }
  }

  /** No deadlock: in every state that the invariant allows, with enough listeners, and
      unless a child has gone before it heard HELLO, a run that is not over can be brought
      closer to its end, whatever else has crashed. How connections end can be picked. */
  lemma NeverStuck(cfg: Config, s: System, pick: Assignment) returns (a: Action)
    requires Inv(cfg, s) && NoneVanished(s) && AnyFinal(cfg.work.messages, pick)
    requires |s.listeners| >= cfg.machines && s.phase != Over
    ensures Good(cfg, s, a) && Ends(s, a, pick)
  {
    hide Inv, Everywhere, AnyFinal, Enabled, Productive, Orderly;
    if s.phase == Drain {
      a := DrainMoves(cfg, s, pick);
    } else {
      a := BarriersFill(cfg, s, pick);
    }
  }

  /** Nor does it need a single result to be delivered. */
  lemma NeverStuckWithoutResults(cfg: Config, s: System, pick: Assignment) returns (a: Action)
    requires Inv(cfg, s) && NoneVanished(s) && AnyFinal(cfg.work.messages, pick)
    requires |s.listeners| >= cfg.machines && s.phase != Over
    ensures Enabled(cfg, s, a) && Productive(s, a) && !a.DeliverResult? && Ends(s, a, pick)
  {
    hide Inv, Everywhere, AnyFinal, Enabled, Productive, Orderly;
    if s.phase == Drain {
      a := DrainReportsOnly(cfg, s, pick);
    } else {
      a := BarriersFill(cfg, s, pick);
    }
  }

  /** Any run can be completed, within the environment assumptions, with every connection
      that is still to end ending as picked. */
  lemma {:induction false} CompleteAs(cfg: Config, s: System, pick: Assignment) returns (trace: seq<Action>, s': System)
    requires Inv(cfg, s) && NoneVanished(s) && |s.listeners| >= cfg.machines
    requires AnyFinal(cfg.work.messages, pick)
    ensures OrderlyRun(cfg, s, trace, s') && s'.phase == Over
    ensures NoneLeftEarly(cfg, s) ==> NoneLeftEarly(cfg, s')
    ensures Follows(pick, s) ==> Follows(pick, s')
    decreases Distance(cfg, s), Unread(s)
  {
    hide Inv, Everywhere, Distance, Unread, Enabled, Step, Orderly, Productive, AnyFinal, Ends;
    if s.phase == Over {
      trace, s' := [], s;
    } else {
      var a := NeverStuck(cfg, s, pick);
      var next := Step(cfg, s, a);
      NextToEnd(cfg, s, a, pick);
      var rest;
      rest, s' := CompleteAs(cfg, next, pick);
      trace := [a] + rest;
      assert trace[1..] == rest;
    }
  }

  /** What a productive action that ends connections as picked leaves as it was. */
  lemma NextToEnd(cfg: Config, s: System, a: Action, pick: Assignment)
    requires Inv(cfg, s) && NoneVanished(s) && Enabled(cfg, s, a) && Productive(s, a) && Ends(s, a, pick)
    ensures var next := Step(cfg, s, a);
            && Inv(cfg, next) && NoneVanished(next) && |next.listeners| == |s.listeners|
            && (NoneLeftEarly(cfg, s) ==> NoneLeftEarly(cfg, next))
            && (Follows(pick, s) ==> Follows(pick, next))
            && 0 <= Distance(cfg, s) && 0 <= Unread(s)
            && 0 <= Distance(cfg, next) && 0 <= Unread(next)
            && Closer(Distance(cfg, s), Unread(s), Distance(cfg, next), Unread(next))
  {
    hide Inv, Everywhere, Distance, Unread, Enabled, Step, Productive, Ends;
    InvStep(cfg, s, a);
    DistanceNonNegative(cfg, s);
    DistanceNonNegative(cfg, Step(cfg, s, a));
    ProductiveCloser(cfg, s, a);
    StepKeepsListeners(cfg, s, a);
    ProductivePresent(cfg, s, a);
    if NoneLeftEarly(cfg, s) {
      ProductiveInOrder(cfg, s, a);
    }
    if Follows(pick, s) {
      EndsAsPicked(cfg, s, a, pick);
    }
  }

  lemma CanComplete(cfg: Config, s: System) returns (trace: seq<Action>, s': System)
    requires Inv(cfg, s) && NoneVanished(s) && |s.listeners| >= cfg.machines
    ensures OrderlyRun(cfg, s, trace, s') && s'.phase == Over
  {
    hide Inv, Everywhere, AnyFinal, OrderlyRun;
    var pick := SomeAssignment(cfg.work.messages);
    trace, s' := CompleteAs(cfg, s, pick);
  }

  lemma {:induction false} OrderlyConcat(cfg: Config, s: System, t1: seq<Action>, mid: System, t2: seq<Action>, s': System)
    requires OrderlyRun(cfg, s, t1, mid) && OrderlyRun(cfg, mid, t2, s')
    ensures OrderlyRun(cfg, s, t1 + t2, s')
    decreases |t1|
  {
    hide Step, Enabled, Orderly;
    if t1 == [] {
      assert t1 + t2 == t2;
    } else {
      OrderlyConcat(cfg, Step(cfg, s, t1[0]), t1[1..], mid, t2, s');
      assert (t1 + t2)[1..] == t1[1..] + t2;
    }
  }

  /** Completion: every orderly run, however far it has got and whatever its
      interleaving, can be continued to the end of the iteration, unless a child has gone
      before it heard HELLO; and the controller has then received every result, exactly
      machines * processes * instances of them. */
  lemma EveryRunCanFinish(cfg: Config, n: nat, trace: seq<Action>, s: System) returns (rest: seq<Action>, s': System)
    requires OrderlyRun(cfg, Initial(n), trace, s) && NoneVanished(s) && |s.listeners| >= cfg.machines
    ensures OrderlyRun(cfg, Initial(n), trace + rest, s') && s'.phase == Over
    ensures s'.taken <= |s'.arrived| && Results(Consumed(s')) == Expected(cfg)
  {
    hide Inv, Everywhere, OrderlyRun, Run, Results, Expected;
    OrderlyIsRun(cfg, Initial(n), trace, s);
    InvInitial(cfg, n);
    InvRun(cfg, Initial(n), trace, s);
    rest, s' := CanComplete(cfg, s);
    OrderlyConcat(cfg, Initial(n), trace, s, rest, s');
    OrderlyConservation(cfg, n, trace + rest, s');
  }

  // ----- how many listeners it takes -----

  lemma {:induction false} ListenersStay(cfg: Config, s: System, trace: seq<Action>, s': System)
    requires Run(cfg, s, trace, s')
    ensures |s'.listeners| == |s.listeners|
    decreases |trace|
  {
    hide Enabled, ListenerDo, ListenerCan, ChildDo, ChildCan, Publish;
    if trace != [] {
      StepKeepsListeners(cfg, s, trace[0]);
      ListenersStay(cfg, Step(cfg, s, trace[0]), trace[1..], s');
    }
  }

  lemma AnsweredAtMostAll(ls: seq<Listener>)
    ensures Sum(ls, IsAnswered) <= |ls|
  {
    SumOne(ls);
    SumCapped(ls, IsAnswered, One, 1);
  }

  /** Some continuation of the run comes to its end. */
  ghost predicate CanEnd(cfg: Config, s: System) {
    exists trace, s' :: Run(cfg, s, trace, s') && s'.phase == Over
  }

  lemma EndNeedsListeners(cfg: Config, s: System, trace: seq<Action>, s': System)
    requires Reachable(cfg, s) && Run(cfg, s, trace, s') && s'.phase != SyncListeners
    ensures |s.listeners| >= cfg.machines
  {
    hide Run, Inv, ListenerInv, Sum;
    ListenersStay(cfg, s, trace, s');
    ReachableInv(cfg, s);
    InvRun(cfg, s, trace, s');
    AnsweredAtLeast(cfg, s');
    AnsweredAtMostAll(s'.listeners);
  }

  lemma AnsweredAtLeast(cfg: Config, s: System)
    requires Inv(cfg, s) && s.phase != SyncListeners
    ensures Sum(s.listeners, IsAnswered) == cfg.machines
  {
    hide ListenerInv, Sum, SinkInv;
  }

  /** A child that has gone before it heard HELLO stays so, and the child barrier never
      fills. */
  lemma EndNeedsChildren(cfg: Config, s: System, trace: seq<Action>, s': System)
    requires Reachable(cfg, s) && Run(cfg, s, trace, s') && s'.phase == Over
    ensures NoneVanished(s)
  {
    hide Run, Inv, ListenerInv, Sum, Quota, Everywhere;
    ReachableInv(cfg, s);
    InvRun(cfg, s, trace, s');
    AllAnsweredAtEnd(cfg, s');
    forall l: nat, c: nat | IsChild(s, l, c) ensures Heard(s.listeners[l].children[c]) {
      var x := s.listeners[l].children[c];
      if x.exit.Some? {
        ExitedRun(cfg, s, trace, s', l, c, x);
        assert IsChild(s', l, c);
      }
    }
    AllHeard(s);
  }

  lemma AllHeard(s: System)
    requires forall l: nat, c: nat :: IsChild(s, l, c) ==> Heard(s.listeners[l].children[c])
    ensures NoneVanished(s)
  {
    forall l | 0 <= l < |s.listeners| ensures AllChildren(l, s.listeners[l], Present()) {
      assert forall c: nat :: c < |s.listeners[l].children| ==> IsChild(s, l, c);
    }
  }

  lemma AllAnsweredAtEnd(cfg: Config, s: System)
    requires Inv(cfg, s) && s.phase == Over
    ensures forall l: nat, c: nat :: IsChild(s, l, c) ==> Answered(s.listeners[l].children[c].stage)
  {
    hide ListenerInv, SinkInv, Sum, Quota;
    BarrierFull(cfg, s);
  }

  /** The exact condition for a run to be able to come to its end, in every reachable
      state: at least `machines` listeners were started, and no child has gone before it
      heard HELLO. Every other crash, and every work cut short, is survived. */
  lemma CanEndExactlyWhen(cfg: Config, s: System)
    requires Reachable(cfg, s)
    ensures CanEnd(cfg, s) <==> |s.listeners| >= cfg.machines && NoneVanished(s)
  {
    hide Run, Inv, Everywhere, Reachable, OrderlyRun;
    if CanEnd(cfg, s) {
      var trace, s' :| Run(cfg, s, trace, s') && s'.phase == Over;
      EndNeedsListeners(cfg, s, trace, s');
      EndNeedsChildren(cfg, s, trace, s');
    }
    if |s.listeners| >= cfg.machines && NoneVanished(s) {
      ReachableInv(cfg, s);
      var trace, s' := CanComplete(cfg, s);
      OrderlyIsRun(cfg, s, trace, s');
    }
  }

  /** The iteration can come to its end exactly when at least `machines` listeners
      were started: with fewer, no run ever leaves the first barrier. */
  lemma EndsExactlyWithEnoughListeners(cfg: Config, n: nat)
    ensures (exists trace, s :: Run(cfg, Initial(n), trace, s) && s.phase != SyncListeners) ==> n >= cfg.machines
    ensures n >= cfg.machines ==> exists trace, s :: Run(cfg, Initial(n), trace, s) && s.phase == Over
  {
    hide Run, Inv, OrderlyRun, Everywhere;
    InitiallyReachable(cfg, n);
    if trace, s :| Run(cfg, Initial(n), trace, s) && s.phase != SyncListeners {
      EndNeedsListeners(cfg, Initial(n), trace, s);
    }
    if n >= cfg.machines {
      InvInitial(cfg, n);
      InitialRecords(cfg, n, Always(NO_ENDING));
      var trace, s := CanComplete(cfg, Initial(n));
      OrderlyIsRun(cfg, Initial(n), trace, s);
    }
  }

  lemma InitiallyReachable(cfg: Config, n: nat)
    ensures Reachable(cfg, Initial(n))
  {
    assert Run(cfg, Initial(n), [], Initial(n));
  }
}
