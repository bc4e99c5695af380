/** With which status children are reported: what the controller counts as finished and as
    died is how children left, action by action of the run. */
module ExitStatus {
  import opened Sums
  import opened Protocol
  import opened Invariant
  import opened Steps
  import opened Barriers
  import opened Report
  import opened Text
  import opened Wire
  import E = EndToEnd
  import T = Telemetry
  import Sink

  // ----- how children leave -----

  function IsNormalExit(a: Action): int {
    if a.ChildMoves? && (a.cm == Exit || a.cm == Abandon) then 1 else 0
  }

  function IsCrash(a: Action): int {
    if a.ChildMoves? && a.cm.Crash? then 1 else 0
  }

  /** A property of statuses. */
  type Test = int -> bool

  /** Whether the action is a child leaving with such a status. */
  function Leaves(p: Test): Action -> int {
    (a: Action) =>
      if a.ChildMoves? && (((a.cm == Exit || a.cm == Abandon) && p(0)) || (a.cm.Crash? && p(a.cm.status))) then 1 else 0
  }

  // ----- counting by status -----

  function HasLeft(p: Test): Child -> int {
    (c: Child) => if c.exit.Some? && p(c.exit.value) then 1 else 0
  }

  function WasReaped(p: Test): Child -> int {
    (c: Child) => if c.reaped && c.exit.Some? && p(c.exit.value) then 1 else 0
  }

  function Reports(p: Test): ExitReport -> int {
    (r: ExitReport) => if p(r.status) then 1 else 0
  }

  function Arrives(p: Test): Arrival -> int {
    (a: Arrival) => if a.FinishedBy? && p(a.report.status) then 1 else 0
  }

  function LeftOf(p: Test): Listener -> int { (l: Listener) => Sum(l.children, HasLeft(p)) }
  function ReportsOf(p: Test): Listener -> int { (l: Listener) => Sum(l.reports, Reports(p)) }
  function UnderwayOf(p: Test): Listener -> int { (l: Listener) => Sum(l.outbox, Reports(p)) }

  /** A listener's reports have the statuses of the children it reaped. */
  predicate ReportsFit(p: Test, l: Listener) {
    Sum(l.children, WasReaped(p)) == Sum(l.reports, Reports(p))
  }

  /** After k children have left with such a status. */
  ghost predicate Counted(p: Test, k: int, s: System) {
    && (forall l :: 0 <= l < |s.listeners| ==> ReportsFit(p, s.listeners[l]))
    && Sum(s.listeners, LeftOf(p)) == k
    && Sum(s.arrived, Arrives(p)) + Sum(s.listeners, UnderwayOf(p)) == Sum(s.listeners, ReportsOf(p))
  }

  // ----- one listener changes -----

  lemma SetCounts(ls: seq<Listener>, l: nat, x: Listener, p: Test)
    requires l < |ls|
    ensures Sum(ls[l := x], LeftOf(p)) == Sum(ls, LeftOf(p)) - LeftOf(p)(ls[l]) + LeftOf(p)(x)
    ensures Sum(ls[l := x], ReportsOf(p)) == Sum(ls, ReportsOf(p)) - ReportsOf(p)(ls[l]) + ReportsOf(p)(x)
    ensures Sum(ls[l := x], UnderwayOf(p)) == Sum(ls, UnderwayOf(p)) - UnderwayOf(p)(ls[l]) + UnderwayOf(p)(x)
  {
    SumUpdate(ls, l, x, LeftOf(p));
    SumUpdate(ls, l, x, ReportsOf(p));
    SumUpdate(ls, l, x, UnderwayOf(p));
  }

  /** x is l as far as the counts go. */
  predicate SameCounts(p: Test, l: Listener, x: Listener) {
    && LeftOf(p)(x) == LeftOf(p)(l)
    && ReportsOf(p)(x) - UnderwayOf(p)(x) == ReportsOf(p)(l) - UnderwayOf(p)(l)
    && (ReportsFit(p, l) ==> ReportsFit(p, x))
  }

  lemma SetSame(p: Test, k: int, s: System, l: nat, x: Listener, s': System)
    requires Counted(p, k, s) && l < |s.listeners| && SameCounts(p, s.listeners[l], x)
    requires s'.listeners == s.listeners[l := x] && s'.arrived == s.arrived
    ensures Counted(p, k, s')
  {
    hide LeftOf, ReportsOf, UnderwayOf, ReportsFit, Sum;
    SetCounts(s.listeners, l, x, p);
  }

  lemma LaunchSame(p: Test, l: Listener)
    requires ListenerCan(l, Launch)
    ensures SameCounts(p, l, ListenerDo(l, Launch))
  {
    hide Sum;
    SumSnoc(l.children, NEW_CHILD, HasLeft(p));
    SumSnoc(l.children, NEW_CHILD, WasReaped(p));
  }

  lemma ReapSame(p: Test, l: Listener, c: nat)
    requires ListenerCan(l, Reap(c))
    ensures SameCounts(p, l, ReapChild(l, c))
  {
    hide Sum;
    var x := l.children[c].(reaped := true);
    var r := ExitReport(c, x.exit.value);
    SumUpdate(l.children, c, x, HasLeft(p));
    SumUpdate(l.children, c, x, WasReaped(p));
    SumSnoc(l.reports, r, Reports(p));
    SumSnoc(l.outbox, r, Reports(p));
  }

  lemma MoveSame(cfg: Config, rank: nat, p: Test, l: Listener, m: ListenerMove)
    requires ListenerInv(cfg, rank, l) && ListenerCan(l, m)
    ensures SameCounts(p, l, ListenerDo(l, m))
  {
    hide ListenerInv, ReapChild, Sum;
    match m
    case Launch => LaunchSame(p, l);
    case Reap(c) => ReapSame(p, l, c);
    case ReapNone(status) => NothingToReapIsImpossible(cfg, rank, l, status);
    case _ =>
  }

  lemma HearSame(p: Test, l: Listener, q: Publication)
    ensures SameCounts(p, l, ListenerHear(l, q))
  {
    hide Sum;
    SumEqual(ListenerHear(l, q).children, HasLeft(p), l.children, HasLeft(p));
    SumEqual(ListenerHear(l, q).children, WasReaped(p), l.children, WasReaped(p));
  }

  /** Replacing a child by one that has left and was reaped as before. */
  lemma WithChildSame(p: Test, l: Listener, c: nat, y: Child)
    requires c < |l.children| && y.exit == l.children[c].exit && y.reaped == l.children[c].reaped
    ensures SameCounts(p, l, WithChild(l, c, y))
  {
    hide Sum;
    SumUpdate(l.children, c, y, HasLeft(p));
    SumUpdate(l.children, c, y, WasReaped(p));
  }

  lemma PublishSame(p: Test, k: int, s: System, q: Publication, ph: Phase)
    requires Counted(p, k, s)
    ensures Counted(p, k, s.(phase := ph, listeners := Publish(s.listeners, q)))
  {
    hide Sum, LeftOf, ReportsOf, UnderwayOf, ReportsFit, ListenerHear;
    var ls, ps := s.listeners, Publish(s.listeners, q);
    forall l | 0 <= l < |ls|
      ensures LeftOf(p)(ps[l]) == LeftOf(p)(ls[l])
      ensures ReportsOf(p)(ps[l]) == ReportsOf(p)(ls[l]) && UnderwayOf(p)(ps[l]) == UnderwayOf(p)(ls[l])
      ensures ReportsFit(p, ps[l])
    {
      HearSame(p, ls[l], q);
      HearReports(p, ls[l], q);
    }
    SumEqual(ps, LeftOf(p), ls, LeftOf(p));
    SumEqual(ps, ReportsOf(p), ls, ReportsOf(p));
    SumEqual(ps, UnderwayOf(p), ls, UnderwayOf(p));
  }

  lemma HearReports(p: Test, l: Listener, q: Publication)
    ensures ReportsOf(p)(ListenerHear(l, q)) == ReportsOf(p)(l)
    ensures UnderwayOf(p)(ListenerHear(l, q)) == UnderwayOf(p)(l)
  {
  }

  // ----- a child leaves -----

  lemma ReapedHaveExited(cfg: Config, rank: nat, x: Child)
    requires ChildInv(cfg, rank, x)
    ensures x.reaped ==> x.exit.Some?
  {
    hide T.Final, Sum;
  }

  lemma ChildDoLeaves(p: Test, l: nat, c: nat, x: Child, m: ChildMove)
    requires (x.reaped ==> x.exit.Some?) && ChildCan(x, m)
    ensures m.Receive? ==> x.inbox != []
    ensures HasLeft(p)(ChildDo(x, m)) == HasLeft(p)(x) + Leaves(p)(ChildMoves(l, c, m))
    ensures WasReaped(p)(ChildDo(x, m)) == WasReaped(p)(x)
  {
    hide T.Final, Sum;
  }

  lemma LeaveCounts(p: Test, k: int, s: System, l: nat, c: nat, y: Child, left: int)
    requires Counted(p, k, s) && IsChild(s, l, c)
    requires HasLeft(p)(y) == HasLeft(p)(s.listeners[l].children[c]) + left
    requires WasReaped(p)(y) == WasReaped(p)(s.listeners[l].children[c])
    ensures Counted(p, k + left, SetChild(s, l, c, y))
  {
    hide Sum;
    var x := WithChild(s.listeners[l], c, y);
    SumUpdate(s.listeners[l].children, c, y, HasLeft(p));
    SumUpdate(s.listeners[l].children, c, y, WasReaped(p));
    SetCounts(s.listeners, l, x, p);
    assert ReportsFit(p, s.listeners[l]);
  }

  lemma ChildMovesCounts(cfg: Config, p: Test, k: int, s: System, l: nat, c: nat, m: ChildMove)
    requires Inv(cfg, s) && Counted(p, k, s) && Enabled(cfg, s, ChildMoves(l, c, m))
    ensures Counted(p, k + Leaves(p)(ChildMoves(l, c, m)), Step(cfg, s, ChildMoves(l, c, m)))
  {
    hide ListenerInv, ChildInv, ChildDo, ChildCan, Counted, HasLeft, WasReaped, Leaves, Barrier, SinkInv;
    ChildOf(cfg, s, l, c);
    var x := s.listeners[l].children[c];
    ReapedHaveExited(cfg, Rank(s.phase), x);
    ChildDoLeaves(p, l, c, x, m);
    LeaveCounts(p, k, s, l, c, ChildDo(x, m), Leaves(p)(ChildMoves(l, c, m)));
  }

  // ----- the sink -----

  lemma DeliverReportCounts(cfg: Config, p: Test, k: int, s: System, l: nat)
    requires Counted(p, k, s) && Enabled(cfg, s, DeliverReport(l))
    ensures Counted(p, k, Step(cfg, s, DeliverReport(l)))
  {
    hide Sum;
    var was := s.listeners[l];
    var x := was.(outbox := was.outbox[1..]);
    SumFirst(was.outbox, Reports(p));
    SetCounts(s.listeners, l, x, p);
    SumSnoc(s.arrived, FinishedBy(l, was.outbox[0]), Arrives(p));
    assert ReportsFit(p, was);
  }

  lemma DeliverResultCounts(cfg: Config, p: Test, k: int, s: System, l: nat, c: nat)
    requires Counted(p, k, s) && Enabled(cfg, s, DeliverResult(l, c))
    ensures Counted(p, k, Step(cfg, s, DeliverResult(l, c)))
  {
    hide Sum, Counted, SameCounts;
    var was := s.listeners[l].children[c];
    var y := was.(outbox := was.outbox[1..]);
    var mid := SetChild(s, l, c, y);
    WithChildSame(p, s.listeners[l], c, y);
    SetSame(p, k, s, l, WithChild(s.listeners[l], c, y), mid);
    ArriveResult(p, k, mid, ResultOf(l, c, was.outbox[0]));
  }

  lemma ArriveResult(p: Test, k: int, s: System, a: Arrival)
    requires Counted(p, k, s) && a.ResultOf?
    ensures Counted(p, k, s.(arrived := s.arrived + [a]))
  {
    hide Sum;
    SumSnoc(s.arrived, a, Arrives(p));
  }

  lemma SameSystem(p: Test, k: int, s: System, s': System)
    requires Counted(p, k, s) && s'.listeners == s.listeners && s'.arrived == s.arrived
    ensures Counted(p, k, s')
  {
  }

  lemma CountedStep(cfg: Config, p: Test, k: int, s: System, a: Action)
    requires Inv(cfg, s) && Counted(p, k, s) && Enabled(cfg, s, a)
    ensures Counted(p, k + Leaves(p)(a), Step(cfg, s, a))
  {
    hide Counted, SameCounts, ListenerInv, ListenerDo, ListenerCan, ChildDo, ChildCan, Publish, Quota, Exits, Barrier, SinkInv;
    var s' := Step(cfg, s, a);
    match a
    case GreetListeners => PublishSame(p, k, s, HelloListener, s.phase);
    case StartListeners => PublishSame(p, k, s, StartProcesses(cfg.processes), SyncChildren);
    case GreetChildren => PublishSame(p, k, s, HelloSocket, s.phase);
    case StartChildren => PublishSame(p, k, s, StartWebsockets(cfg.work), Drain);
    case Finish => PublishSame(p, k, s, End, Over);
    case Consume => SameSystem(p, k, s, s');
    case AnswerListener(l) =>
      AnswerSame(p, s.listeners[l]);
      SetSame(p, k, s, l, s'.listeners[l], s');
    case AnswerChild(l, c) =>
      WithChildSame(p, s.listeners[l], c, s'.listeners[l].children[c]);
      SetSame(p, k, s, l, s'.listeners[l], s');
    case ListenerMoves(l, m) =>
      MoveSame(cfg, Rank(s.phase), p, s.listeners[l], m);
      SetSame(p, k, s, l, s'.listeners[l], s');
    case ChildMoves(l, c, m) => ChildMovesCounts(cfg, p, k, s, l, c, m);
    case DeliverReport(l) => DeliverReportCounts(cfg, p, k, s, l);
    case DeliverResult(l, c) => DeliverResultCounts(cfg, p, k, s, l, c);
  }

  lemma AnswerSame(p: Test, l: Listener)
    ensures SameCounts(p, l, l.(stage := Replied))
  {
  }

  lemma {:induction false} CountedRun(cfg: Config, p: Test, k: int, s: System, trace: seq<Action>, s': System)
    requires Inv(cfg, s) && Counted(p, k, s) && Run(cfg, s, trace, s')
    ensures Counted(p, k + Sum(trace, Leaves(p)), s')
    decreases |trace|
  {
    hide Inv, Counted, Step, Enabled, Leaves, Sum;
    if trace == [] {
      NoActions(p);
    } else {
      SumFirst(trace, Leaves(p));
      CountedStep(cfg, p, k, s, trace[0]);
      InvStep(cfg, s, trace[0]);
      CountedRun(cfg, p, k + Leaves(p)(trace[0]), Step(cfg, s, trace[0]), trace[1..], s');
    }
  }

  lemma NoActions(p: Test)
    ensures Sum([], Leaves(p)) == 0
  {
  }

  lemma InitialCounted(p: Test, n: nat)
    ensures Counted(p, 0, Initial(n))
  {
    AllZero(Initial(n).listeners, LeftOf(p));
    AllZero(Initial(n).listeners, ReportsOf(p));
    AllZero(Initial(n).listeners, UnderwayOf(p));
  }

  // ----- at the end of a run -----

  /** Of a listener that is done, or never started: everything that left was reported, and
      nothing is underway. */
  lemma AllReported(cfg: Config, p: Test, l: Listener)
    requires ReportsFit(p, l)
    requires Done(cfg, l) || (l.children == [] && l.outbox == [])
    ensures ReportsOf(p)(l) == LeftOf(p)(l) && UnderwayOf(p)(l) == 0
  {
    SumEqual(l.children, WasReaped(p), l.children, HasLeft(p));
  }

  lemma QuietListener(cfg: Config, rank: nat, l: Listener)
    requires ListenerInv(cfg, rank, l) && Idles(l) && !Answered(l.stage)
    ensures l.children == [] && l.outbox == []
  {
    hide ChildInv, Reported, Sum, ListenerHeard;
  }

  lemma NoReportsIn(arrivals: seq<Arrival>, p: Test)
    requires forall i :: 0 <= i < |arrivals| ==> arrivals[i].ResultOf?
    ensures Sum(arrivals, Arrives(p)) == 0
  {
    AllZero(arrivals, Arrives(p));
  }

  lemma ArrivedAll(cfg: Config, p: Test, k: int, s: System)
    requires Reachable(cfg, s) && (Enabled(cfg, s, Finish) || s.phase == Over) && Counted(p, k, s)
    ensures Sum(s.arrived, Arrives(p)) == k
  {
    hide Reachable, Enabled, ListenerInv, Barrier, SinkInv, Sum, Exits, Quota, Done, LeftOf, ReportsOf, UnderwayOf, ReportsFit;
    ReachableInv(cfg, s);
    CompletionBarrier(cfg, s);
    ListenerBarrier(cfg, s);
    var ls := s.listeners;
    forall l | 0 <= l < |ls| ensures ReportsOf(p)(ls[l]) == LeftOf(p)(ls[l]) && UnderwayOf(p)(ls[l]) == 0 {
      if !Answered(ls[l].stage) {
        QuietListener(cfg, Rank(s.phase), ls[l]);
      }
      AllReported(cfg, p, ls[l]);
    }
    SumEqual(ls, ReportsOf(p), ls, LeftOf(p));
    AllZero(ls, UnderwayOf(p));
  }

  /** Statuses, exactly: at the end of every run, as many exit reports with statuses of any
      kind have been consumed as children have left with such a status, 0 for those that
      finished or had their work cut short, their own for those that crashed. */
  lemma ReportedAsLeft(cfg: Config, n: nat, trace: seq<Action>, s: System, p: Test)
    requires Run(cfg, Initial(n), trace, s) && (Enabled(cfg, s, Finish) || s.phase == Over)
    ensures s.taken <= |s.arrived| && Sum(Consumed(s), Arrives(p)) == Sum(trace, Leaves(p))
  {
    hide Run, Enabled, Sum, Inv, Counted, Arrives, Leaves, Done, Exits, Quota;
    assert Reachable(cfg, s);
    InvInitial(cfg, n);
    InitialCounted(p, n);
    CountedRun(cfg, p, 0, Initial(n), trace, s);
    CompletionBarrier(cfg, s);
    ArrivedAll(cfg, p, Sum(trace, Leaves(p)), s);
    var rest := s.arrived[s.taken..];
    assert s.arrived == Consumed(s) + rest;
    SumConcat(Consumed(s), rest, Arrives(p));
    NoReportsIn(rest, p);
  }

  function Zero(): Test { (status: int) => status == 0 }
  function NonZero(): Test { (status: int) => status != 0 }

  lemma {:induction false} LeavesAre(cfg: Config, s: System, trace: seq<Action>, s': System)
    requires Run(cfg, s, trace, s')
    ensures Sum(trace, Leaves(Zero())) == Sum(trace, IsNormalExit)
    ensures Sum(trace, Leaves(NonZero())) == Sum(trace, IsCrash)
    decreases |trace|
  {
    hide Sum, Enabled, Step;
    if trace == [] {
      NothingLeaves();
    } else {
      SumFirst(trace, Leaves(Zero()));
      SumFirst(trace, IsNormalExit);
      SumFirst(trace, Leaves(NonZero()));
      SumFirst(trace, IsCrash);
      CrashStatus(cfg, s, trace[0]);
      LeavesAre(cfg, Step(cfg, s, trace[0]), trace[1..], s');
    }
  }

  lemma NothingLeaves()
    ensures Sum([], Leaves(Zero())) == Sum([], IsNormalExit) == Sum([], Leaves(NonZero())) == Sum([], IsCrash) == 0
  {
  }

  lemma CrashStatus(cfg: Config, s: System, a: Action)
    requires Enabled(cfg, s, a)
    ensures a.ChildMoves? && a.cm.Crash? ==> a.cm.status != 0
  {
    hide T.Final, ListenerCan, Exits, Quota;
  }

  lemma ByStatus(arrivals: seq<Arrival>)
    ensures Sum(arrivals, Arrives(Zero())) == Sum(arrivals, E.IsCleanExit)
    ensures Sum(arrivals, Arrives(NonZero())) == Exits(arrivals) - Sum(arrivals, E.IsCleanExit)
  {
    SumEqual(arrivals, Arrives(Zero()), arrivals, E.IsCleanExit);
    SplitByStatus(arrivals);
  }

  lemma {:induction false} SplitByStatus(arrivals: seq<Arrival>)
    ensures Exits(arrivals) == Sum(arrivals, Arrives(Zero())) + Sum(arrivals, Arrives(NonZero()))
  {
    if arrivals != [] {
      SplitByStatus(arrivals[..|arrivals| - 1]);
    }
  }

  /** Who finished and who died, told by the run: at its end the controller has counted as
      finished exactly the children that exited by themselves, their work done or cut short
      by an exception, and as died exactly those that crashed; together they are all. */
  lemma FinishedAndDied(cfg: Config, codec: Codec, n: nat, trace: seq<Action>, s: System)
    requires Run(cfg, Initial(n), trace, s) && (Enabled(cfg, s, Finish) || s.phase == Over)
    requires PrintsWords(codec) && cfg.work.messages <= INT_MAX
    ensures s.taken <= |s.arrived|
    ensures var t := E.Totals(cfg, codec, s);
            && t.clientsFinished == Sum(trace, IsNormalExit)
            && t.clientsDied == Sum(trace, IsCrash)
            && t.clientsFinished + t.clientsDied == Quota(cfg)
    ensures (forall a :: a in trace ==> !(a.ChildMoves? && a.cm.Crash?)) ==>
              E.Totals(cfg, codec, s).clientsFinished == Quota(cfg)
  {
    hide Run, Enabled, Sum, PrintsWords, Sink.TallyOf, E.Groups, E.AllSamples, E.RenderAll, E.AllFinal, Quota, Done;
    assert Reachable(cfg, s);
    CompletionBarrier(cfg, s);
    E.FinishedRun(cfg, s);
    E.CountersEndToEnd(codec, cfg.work.messages, Consumed(s));
    ReportedAsLeft(cfg, n, trace, s, Zero());
    ReportedAsLeft(cfg, n, trace, s, NonZero());
    LeavesAre(cfg, Initial(n), trace, s);
    ByStatus(Consumed(s));
    if forall a :: a in trace ==> !(a.ChildMoves? && a.cm.Crash?) {
      AllZero(trace, IsCrash);
    }
  }
}
