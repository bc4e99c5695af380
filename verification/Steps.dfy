/** Every action of the coordination protocol keeps the invariant. */
module Steps {
  import opened Sums
  import opened Wire
  import opened Protocol
  import opened Invariant
  import Telemetry

  // ----- counting the barrier full -----

  lemma AnsweredAtMostLaunched(cs: seq<Child>)
    ensures 0 <= Sum(cs, IsAnsweredChild) <= |cs|
    ensures Sum(cs, IsAnsweredChild) == |cs| ==> forall c :: 0 <= c < |cs| ==> Answered(cs[c].stage)
  {
    SumOne(cs);
    SumCapped(cs, IsAnsweredChild, One, 1);
    SumNonNegative(cs, IsAnsweredChild);
    if Sum(cs, IsAnsweredChild) == |cs| {
      forall c | 0 <= c < |cs| ensures Answered(cs[c].stage) {
        assert IsAnsweredChild(cs[c]) == 1 * One(cs[c]);
      }
    }
  }

  /** A listener has at most `processes` children, and none unless it was answered. */
  lemma LaunchedCap(cfg: Config, rank: nat, l: Listener)
    requires ListenerInv(cfg, rank, l)
    ensures |l.children| <= cfg.processes * IsAnswered(l)
    ensures |l.reports| <= cfg.processes * IsAnswered(l)
  {
    assert l.started ==> Answered(l.stage);
    SumNonNegative(l.inbox, IsStart);
  }

  /** Pigeonhole: when the controller has counted its quota of children, every
      answered listener has launched all of its children, and all children have been
      answered. */
  lemma BarrierFull(cfg: Config, s: System)
    requires Listeners(cfg, s) && Barrier(cfg, s)
    requires Rank(s.phase) >= 1 && s.processes >= Quota(cfg)
    ensures forall l :: 0 <= l < |s.listeners| ==>
              && (Answered(s.listeners[l].stage) ==> |s.listeners[l].children| == cfg.processes)
              && forall c :: 0 <= c < |s.listeners[l].children| ==> Answered(s.listeners[l].children[c].stage)
  {
    hide ListenerInv;
    var ls := s.listeners;
    forall l | 0 <= l < |ls|
      ensures AnsweredChildren(ls[l]) <= |ls[l].children| <= cfg.processes * IsAnswered(ls[l])
    {
      LaunchedCap(cfg, Rank(s.phase), ls[l]);
      AnsweredAtMostLaunched(ls[l].children);
    }
    SumCapped(ls, AnsweredChildren, IsAnswered, cfg.processes);
    QuotaIs(cfg, Sum(ls, IsAnswered));
    forall l | 0 <= l < |ls|
      ensures Answered(ls[l].stage) ==> |ls[l].children| == cfg.processes
      ensures forall c :: 0 <= c < |ls[l].children| ==> Answered(ls[l].children[c].stage)
    {
      assert AnsweredChildren(ls[l]) == cfg.processes * IsAnswered(ls[l]) == |ls[l].children|;
      AnsweredAtMostLaunched(ls[l].children);
    }
  }

  lemma QuotaIs(cfg: Config, n: int)
    requires n == cfg.machines
    ensures cfg.processes * n == Quota(cfg)
  {
  }

  // ----- publications -----

  lemma PublishKeeps(cfg: Config, s: System, p: Publication)
    requires Barrier(cfg, s) && SinkInv(cfg, s)
    ensures Barrier(cfg, s.(listeners := Publish(s.listeners, p)))
    ensures SinkInv(cfg, s.(listeners := Publish(s.listeners, p)))
  {
    hide Publish;
    CountsPublish(s.listeners, p);
  }

  lemma GreetInv(cfg: Config, s: System, p: Publication)
    requires Inv(cfg, s) && (p == HelloListener || p == HelloSocket)
    ensures Inv(cfg, s.(listeners := Publish(s.listeners, p)))
  {
    hide Barrier, SinkInv, ListenerInv;
    PublishKeeps(cfg, s, p);
    forall l | 0 <= l < |s.listeners|
      ensures ListenerInv(cfg, Rank(s.phase), Publish(s.listeners, p)[l])
    {
      HearGreetingInv(cfg, Rank(s.phase), s.listeners[l], p);
    }
  }

  lemma StartListenersInv(cfg: Config, s: System)
    requires Inv(cfg, s) && Enabled(cfg, s, StartListeners)
    ensures Inv(cfg, Step(cfg, s, StartListeners))
  {
    hide ListenerInv, Publish, Sum;
    var p := StartProcesses(cfg.processes);
    PublishKeeps(cfg, s, p);
    forall l | 0 <= l < |s.listeners| ensures ListenerInv(cfg, 1, Publish(s.listeners, p)[l]) {
      HearStartInv(cfg, s.listeners[l]);
    }
  }

  lemma StartChildrenInv(cfg: Config, s: System)
    requires Inv(cfg, s) && Enabled(cfg, s, StartChildren)
    ensures Inv(cfg, Step(cfg, s, StartChildren))
  {
    hide ListenerInv, Publish, Sum;
    var p := StartWebsockets(cfg.work);
    BarrierFull(cfg, s);
    PublishKeeps(cfg, s, p);
    forall l | 0 <= l < |s.listeners| ensures ListenerInv(cfg, 2, Publish(s.listeners, p)[l]) {
      HearWorkInv(cfg, s.listeners[l]);
    }
  }

  lemma FinishInv(cfg: Config, s: System)
    requires Inv(cfg, s) && Enabled(cfg, s, Finish)
    ensures Inv(cfg, Step(cfg, s, Finish))
  {
    hide ListenerInv, Publish, Sum;
    PublishKeeps(cfg, s, End);
    forall l | 0 <= l < |s.listeners| ensures ListenerInv(cfg, 3, Publish(s.listeners, End)[l]) {
      HearEndInv(cfg, s.listeners[l]);
    }
  }

  // ----- one listener or one child changes -----

  lemma SetListenerKeeps(cfg: Config, s: System, l: nat, x: Listener)
    requires Listeners(cfg, s) && l < |s.listeners| && ListenerInv(cfg, Rank(s.phase), x)
    ensures Listeners(cfg, SetListener(s, l, x))
  {
  }

  lemma AnswerListenerInv(cfg: Config, s: System, l: nat)
    requires Inv(cfg, s) && Enabled(cfg, s, AnswerListener(l))
    ensures Inv(cfg, Step(cfg, s, AnswerListener(l)))
  {
    hide ListenerInv, Sum, Quota, Exits, AnsweredChildren, ResultsMade, ResultsPending;
    var x := s.listeners[l].(stage := Replied);
    ListenerAnswerInv(cfg, s.listeners[l]);
    SetListenerKeeps(cfg, s, l, x);
    CountsAfter(s.listeners, l, x);
    SameChildren(s.listeners[l], x);
  }

  lemma SameChildren(l: Listener, x: Listener)
    requires x.children == l.children
    ensures AnsweredChildren(x) == AnsweredChildren(l)
    ensures ResultsMade(x) == ResultsMade(l) && ResultsPending(x) == ResultsPending(l)
  {
  }

  lemma SetChildKeeps(cfg: Config, s: System, l: nat, c: nat, y: Child)
    requires Listeners(cfg, s) && IsChild(s, l, c)
    requires ChildInv(cfg, Rank(s.phase), y) && y.reaped == s.listeners[l].children[c].reaped
    ensures Listeners(cfg, SetChild(s, l, c, y))
  {
    hide ListenerInv, ChildInv;
    WithChildInv(cfg, Rank(s.phase), s.listeners[l], c, y);
    SetListenerKeeps(cfg, s, l, WithChild(s.listeners[l], c, y));
  }

  /** Replacing one child changes each count by the change in that child. */
  lemma SystemCountsAfter(s: System, l: nat, c: nat, y: Child)
    requires IsChild(s, l, c)
    ensures var was, ls, ls' := s.listeners[l].children[c], s.listeners, SetChild(s, l, c, y).listeners;
            && Sum(ls', IsAnswered) == Sum(ls, IsAnswered)
            && Sum(ls', ReportsMade) == Sum(ls, ReportsMade)
            && Sum(ls', ReportsPending) == Sum(ls, ReportsPending)
            && Sum(ls', AnsweredChildren) == Sum(ls, AnsweredChildren) - IsAnsweredChild(was) + IsAnsweredChild(y)
            && Sum(ls', ResultsMade) == Sum(ls, ResultsMade) - |was.log| + |y.log|
            && Sum(ls', ResultsPending) == Sum(ls, ResultsPending) - |was.outbox| + |y.outbox|
  {
    hide Sum, AnsweredChildren, ResultsMade, ResultsPending;
    CountsAfter(s.listeners, l, WithChild(s.listeners[l], c, y));
    ChildCountsAfter(s.listeners[l], c, y);
  }

  /** The invariant of a child, taken out of the system's. */
  lemma ChildOf(cfg: Config, s: System, l: nat, c: nat)
    requires Listeners(cfg, s) && IsChild(s, l, c)
    ensures ChildInv(cfg, Rank(s.phase), s.listeners[l].children[c])
  {
    assert ListenerInv(cfg, Rank(s.phase), s.listeners[l]);
  }

  lemma AnswerChildKeeps(cfg: Config, s: System, l: nat, c: nat, y: Child)
    requires Barrier(cfg, s) && SinkInv(cfg, s) && IsChild(s, l, c)
    requires s.phase == SyncChildren && s.processes < Quota(cfg)
    requires s.listeners[l].children[c].stage == Requested
    requires y == s.listeners[l].children[c].(stage := Replied)
    ensures var s' := SetChild(s, l, c, y).(processes := s.processes + 1);
            Barrier(cfg, s') && SinkInv(cfg, s')
  {
    hide Sum, Quota, Exits, AnsweredChildren, ResultsMade, ResultsPending;
    SystemCountsAfter(s, l, c, y);
  }

  lemma AnswerChildInv(cfg: Config, s: System, l: nat, c: nat)
    requires Inv(cfg, s) && Enabled(cfg, s, AnswerChild(l, c))
    ensures Inv(cfg, Step(cfg, s, AnswerChild(l, c)))
  {
    hide ListenerInv, ChildInv, Sum, Quota, Exits, Barrier, SinkInv;
    var was := s.listeners[l].children[c];
    var y := was.(stage := Replied);
    ChildOf(cfg, s, l, c);
    ChildAnswerInv(cfg, Rank(s.phase), was);
    SetChildKeeps(cfg, s, l, c, y);
    AnswerChildKeeps(cfg, s, l, c, y);
  }

  lemma ChildDoCounts(c: Child, m: ChildMove)
    requires ChildCan(c, m)
    ensures m.Receive? ==> c.inbox != []
    ensures IsAnsweredChild(ChildDo(c, m)) == IsAnsweredChild(c)
    ensures |ChildDo(c, m).log| - |ChildDo(c, m).outbox| == |c.log| - |c.outbox|
    ensures ChildDo(c, m).reaped == c.reaped
  {
  }

  lemma ChildMovesKeeps(cfg: Config, s: System, l: nat, c: nat, y: Child)
    requires Barrier(cfg, s) && SinkInv(cfg, s) && IsChild(s, l, c)
    requires var was := s.listeners[l].children[c];
             IsAnsweredChild(y) == IsAnsweredChild(was) && |y.log| - |y.outbox| == |was.log| - |was.outbox|
    ensures Barrier(cfg, SetChild(s, l, c, y)) && SinkInv(cfg, SetChild(s, l, c, y))
  {
    hide Sum, Quota, Exits, AnsweredChildren, ResultsMade, ResultsPending, IsAnsweredChild;
    SystemCountsAfter(s, l, c, y);
  }

  lemma ChildMovesInv(cfg: Config, s: System, l: nat, c: nat, m: ChildMove)
    requires Inv(cfg, s) && Enabled(cfg, s, ChildMoves(l, c, m))
    ensures Inv(cfg, Step(cfg, s, ChildMoves(l, c, m)))
  {
    hide ListenerInv, ChildInv, Sum, Quota, Exits, Barrier, SinkInv, ChildDo, ChildCan, IsAnsweredChild, Telemetry.Final;
    var was := s.listeners[l].children[c];
    ChildOf(cfg, s, l, c);
    ChildDoInv(cfg, Rank(s.phase), was, m);
    ChildDoCounts(was, m);
    SetChildKeeps(cfg, s, l, c, ChildDo(was, m));
    ChildMovesKeeps(cfg, s, l, c, ChildDo(was, m));
  }

  /** A listener's own move changes no count of answers, and makes a result neither
      appear nor arrive; a report it makes is pending. */
  lemma ListenerMoveCounts(l: Listener, m: ListenerMove)
    requires ListenerCan(l, m)
    ensures IsAnswered(ListenerDo(l, m)) == IsAnswered(l)
    ensures AnsweredChildren(ListenerDo(l, m)) == AnsweredChildren(l)
    ensures ResultsMade(ListenerDo(l, m)) == ResultsMade(l)
    ensures ResultsPending(ListenerDo(l, m)) == ResultsPending(l)
    ensures ReportsMade(ListenerDo(l, m)) - ReportsPending(ListenerDo(l, m)) == ReportsMade(l) - ReportsPending(l)
  {
    match m
    case Launch =>
      SumSnoc(l.children, NEW_CHILD, IsAnsweredChild);
      SumSnoc(l.children, NEW_CHILD, ChildLog);
      SumSnoc(l.children, NEW_CHILD, ChildPending);
    case Reap(c) =>
      ChildCountsAfter(l, c, l.children[c].(reaped := true));
    case _ =>
  }

  lemma ListenerMovesInv(cfg: Config, s: System, l: nat, m: ListenerMove)
    requires Inv(cfg, s) && Enabled(cfg, s, ListenerMoves(l, m))
    ensures Inv(cfg, Step(cfg, s, ListenerMoves(l, m)))
  {
    hide ListenerInv, Sum, Quota, Exits, AnsweredChildren, ResultsMade, ResultsPending;
    hide ListenerDo, ListenerCan, ReportsMade, ReportsPending;
    var x := ListenerDo(s.listeners[l], m);
    ListenerDoInv(cfg, Rank(s.phase), s.listeners[l], m);
    SetListenerKeeps(cfg, s, l, x);
    CountsAfter(s.listeners, l, x);
    ListenerMoveCounts(s.listeners[l], m);
  }

  // ----- the sink -----

  /** A delivery extends what has arrived and leaves what was consumed alone. */
  lemma ArrivedSnoc(s: System, a: Arrival)
    requires s.taken <= |s.arrived|
    ensures Exits(s.arrived + [a]) == Exits(s.arrived) + IsExit(a)
    ensures (s.arrived + [a])[..s.taken] == s.arrived[..s.taken]
    ensures s.taken > 0 ==> (s.arrived + [a])[..s.taken - 1] == s.arrived[..s.taken - 1]
  {
    SumSnoc(s.arrived, a, IsExit);
  }

  lemma DeliverReportInv(cfg: Config, s: System, l: nat)
    requires Inv(cfg, s) && Enabled(cfg, s, DeliverReport(l))
    ensures Inv(cfg, Step(cfg, s, DeliverReport(l)))
  {
    hide ListenerInv, Sum, Quota, Exits, AnsweredChildren, ResultsMade, ResultsPending;
    var was := s.listeners[l];
    var x := was.(outbox := was.outbox[1..]);
    ListenerDeliverInv(cfg, Rank(s.phase), was);
    SetListenerKeeps(cfg, s, l, x);
    CountsAfter(s.listeners, l, x);
    SameChildren(was, x);
    ArrivedSnoc(s, FinishedBy(l, was.outbox[0]));
  }

  lemma DeliverResultInv(cfg: Config, s: System, l: nat, c: nat)
    requires Inv(cfg, s) && Enabled(cfg, s, DeliverResult(l, c))
    ensures Inv(cfg, Step(cfg, s, DeliverResult(l, c)))
  {
    hide ListenerInv, ChildInv, Sum, Quota, Exits, AnsweredChildren, ResultsMade, ResultsPending;
    hide Telemetry.Final;
    var was := s.listeners[l].children[c];
    var y := was.(outbox := was.outbox[1..]);
    ChildOf(cfg, s, l, c);
    NextResultFinal(cfg, Rank(s.phase), was);
    ChildDeliverInv(cfg, Rank(s.phase), was);
    SetChildKeeps(cfg, s, l, c, y);
    SystemCountsAfter(s, l, c, y);
    ArrivedSnoc(s, ResultOf(l, c, was.outbox[0]));
  }

  lemma NextResultFinal(cfg: Config, rank: nat, c: Child)
    requires ChildInv(cfg, rank, c) && c.outbox != []
    ensures Telemetry.Final(cfg.work.messages, c.outbox[0].client)
  {
    assert c.outbox[0] == c.log[|c.log| - |c.outbox|];
  }

  lemma ConsumeInv(cfg: Config, s: System)
    requires Inv(cfg, s) && Enabled(cfg, s, Consume)
    ensures Inv(cfg, Step(cfg, s, Consume))
  {
    hide ListenerInv;
    assert s.arrived[..s.taken + 1][..s.taken] == s.arrived[..s.taken];
  }

  // ----- every run -----

  lemma InvStep(cfg: Config, s: System, a: Action)
    requires Inv(cfg, s) && Enabled(cfg, s, a)
    ensures Inv(cfg, Step(cfg, s, a))
  {
    hide Inv;
    match a
    case GreetListeners => GreetInv(cfg, s, HelloListener);
    case AnswerListener(l) => AnswerListenerInv(cfg, s, l);
    case StartListeners => StartListenersInv(cfg, s);
    case GreetChildren => GreetInv(cfg, s, HelloSocket);
    case AnswerChild(l, c) => AnswerChildInv(cfg, s, l, c);
    case StartChildren => StartChildrenInv(cfg, s);
    case Consume => ConsumeInv(cfg, s);
    case Finish => FinishInv(cfg, s);
    case ListenerMoves(l, m) => ListenerMovesInv(cfg, s, l, m);
    case ChildMoves(l, c, m) => ChildMovesInv(cfg, s, l, c, m);
    case DeliverReport(l) => DeliverReportInv(cfg, s, l);
    case DeliverResult(l, c) => DeliverResultInv(cfg, s, l, c);
  }

  lemma {:induction false} InvRun(cfg: Config, s: System, trace: seq<Action>, s': System)
    requires Inv(cfg, s) && Run(cfg, s, trace, s')
    ensures Inv(cfg, s')
    decreases |trace|
  {
    hide Inv, Enabled, Step;
    if trace != [] {
      InvStep(cfg, s, trace[0]);
      InvRun(cfg, Step(cfg, s, trace[0]), trace[1..], s');
    }
  }

  lemma ReachableInv(cfg: Config, s: System)
    requires Reachable(cfg, s)
    ensures Inv(cfg, s)
  {
    var n, trace :| Run(cfg, Initial(n), trace, s);
    InvInitial(cfg, n);
    InvRun(cfg, Initial(n), trace, s);
  }
}
