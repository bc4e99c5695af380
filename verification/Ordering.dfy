/** When every result is received: if the sink takes in each child's results before
    the report of its exit, and no child's work is cut short. Without the first
    assumption results are lost in a run where everything else goes well. */
module Ordering {
  import opened Sums
  import opened Wire
  import opened Protocol
  import opened Invariant
  import opened Steps
  import opened Barriers
  import opened Conservation
  import Telemetry

  /** The environment assumptions, action by action: a child leaves only after sending
      all of its results, and an exit report is delivered only after them. */
  ghost predicate Orderly(cfg: Config, s: System, a: Action)
    requires Enabled(cfg, s, a)
  {
    match a
    case ChildMoves(l, c, m) =>
      m.Abandon? || m.Crash? ==> |s.listeners[l].children[c].log| >= Instances(cfg)
    case DeliverReport(l) =>
      var r := s.listeners[l].outbox[0];
      0 <= r.child < |s.listeners[l].children| ==> s.listeners[l].children[r.child].outbox == []
    case _ => true
  }

  ghost predicate OrderlyRun(cfg: Config, s: System, trace: seq<Action>, s': System)
    decreases |trace|
  {
    if trace == [] then s == s'
    else
      && Enabled(cfg, s, trace[0]) && Orderly(cfg, s, trace[0])
      && OrderlyRun(cfg, Step(cfg, s, trace[0]), trace[1..], s')
  }

  lemma {:induction false} OrderlyIsRun(cfg: Config, s: System, trace: seq<Action>, s': System)
    requires OrderlyRun(cfg, s, trace, s')
    ensures Run(cfg, s, trace, s')
    decreases |trace|
  {
    hide Step, Enabled, Orderly;
    if trace != [] {
      OrderlyIsRun(cfg, Step(cfg, s, trace[0]), trace[1..], s');
    }
  }

  // ----- the invariant of orderly runs -----

  /** Exited children have sent everything; reports are of exited children. */
  predicate ExitsComplete(cfg: Config, l: Listener) {
    && (forall c :: 0 <= c < |l.children| && l.children[c].exit.Some? ==> |l.children[c].log| == Instances(cfg))
    && (forall i :: 0 <= i < |l.reports| ==> ReportOfExited(l, l.reports[i]))
    && (forall i :: 0 <= i < |l.outbox| ==> ReportOfExited(l, l.outbox[i]))
  }

  predicate ReportOfExited(l: Listener, r: ExitReport) {
    0 <= r.child < |l.children| && l.children[r.child].exit.Some?
  }

  /** A report at the sink is of a child with nothing left to deliver. */
  predicate Settled(ls: seq<Listener>, a: Arrival) {
    match a
    case FinishedBy(l, r) =>
      && l < |ls| && ReportOfExited(ls[l], r)
      && ls[l].children[r.child].outbox == []
    case ResultOf(l, c, _) => l < |ls| && c < |ls[l].children|
  }

  /** No result of a child comes after the report of its exit. */
  predicate ResultsFirst(arrived: seq<Arrival>) {
    forall i, j :: 0 <= i < j < |arrived| && arrived[i].FinishedBy? && arrived[j].ResultOf? ==>
      !(arrived[j].listener == arrived[i].listener && arrived[j].child == arrived[i].report.child)
  }

  predicate ReportsTracked(ls: seq<Listener>, arrived: seq<Arrival>) {
    forall l :: 0 <= l < |ls| ==>
      forall r :: r in ls[l].reports ==> r in ls[l].outbox || FinishedBy(l, r) in arrived
  }

  predicate OrderInv(cfg: Config, s: System) {
    && (forall l :: 0 <= l < |s.listeners| ==> ExitsComplete(cfg, s.listeners[l]))
    && (forall i :: 0 <= i < |s.arrived| ==> Settled(s.listeners, s.arrived[i]))
    && ResultsFirst(s.arrived)
    && ReportsTracked(s.listeners, s.arrived)
  }

  /** x is l as far as exits, results and reports go, but may have new children. */
  predicate SameExits(l: Listener, x: Listener) {
    && x.reports == l.reports && x.outbox == l.outbox
    && |x.children| >= |l.children|
    && (forall c :: 0 <= c < |l.children| ==>
          && x.children[c].exit == l.children[c].exit
          && x.children[c].log == l.children[c].log
          && x.children[c].outbox == l.children[c].outbox)
    && (forall c :: |l.children| <= c < |x.children| ==> x.children[c] == NEW_CHILD)
  }

  lemma SameExitsKeeps(cfg: Config, s: System, s': System)
    requires OrderInv(cfg, s) && s'.arrived == s.arrived && |s'.listeners| == |s.listeners|
    requires forall l :: 0 <= l < |s.listeners| ==> SameExits(s.listeners[l], s'.listeners[l])
    ensures OrderInv(cfg, s')
  {
    forall l | 0 <= l < |s.listeners| ensures ExitsComplete(cfg, s'.listeners[l]) {
      assert SameExits(s.listeners[l], s'.listeners[l]) && ExitsComplete(cfg, s.listeners[l]);
      assert forall r :: ReportOfExited(s.listeners[l], r) ==> ReportOfExited(s'.listeners[l], r);
    }
    forall i | 0 <= i < |s.arrived| ensures Settled(s'.listeners, s.arrived[i]) {
      assert Settled(s.listeners, s.arrived[i]);
      assert SameExits(s.listeners[s.arrived[i].listener], s'.listeners[s.arrived[i].listener]);
    }
    forall l | 0 <= l < |s.listeners|
      ensures forall r :: r in s'.listeners[l].reports ==> r in s'.listeners[l].outbox || FinishedBy(l, r) in s.arrived
    {
      assert SameExits(s.listeners[l], s'.listeners[l]);
    }
  }

  lemma HearSameExits(l: Listener, p: Publication)
    ensures SameExits(l, ListenerHear(l, p))
  {
  }

  lemma PublishOrder(cfg: Config, s: System, p: Publication, ph: Phase)
    requires OrderInv(cfg, s)
    ensures OrderInv(cfg, s.(phase := ph, listeners := Publish(s.listeners, p)))
  {
    hide OrderInv, Publish, SameExits, ListenerHear;
    var s' := s.(phase := ph, listeners := Publish(s.listeners, p));
    forall l | 0 <= l < |s.listeners| ensures SameExits(s.listeners[l], s'.listeners[l]) {
      HearSameExits(s.listeners[l], p);
    }
    SameExitsKeeps(cfg, s, s');
  }

  lemma OneChangesOrder(cfg: Config, s: System, l: nat, x: Listener, s': System)
    requires OrderInv(cfg, s) && l < |s.listeners| && SameExits(s.listeners[l], x)
    requires s'.arrived == s.arrived && s'.listeners == s.listeners[l := x]
    ensures OrderInv(cfg, s')
  {
    hide OrderInv;
    SameExitsKeeps(cfg, s, s');
  }

  /** A child may exit once it has sent everything. */
  lemma ExitOrder(cfg: Config, s: System, l: nat, c: nat, status: int)
    requires OrderInv(cfg, s) && IsChild(s, l, c)
    requires |s.listeners[l].children[c].log| == Instances(cfg)
    ensures OrderInv(cfg, SetChild(s, l, c, s.listeners[l].children[c].(exit := Some(status))))
  {
    var y := s.listeners[l].children[c].(exit := Some(status));
    var x := WithChild(s.listeners[l], c, y);
    var s' := SetChild(s, l, c, y);
    assert forall r :: ReportOfExited(s.listeners[l], r) ==> ReportOfExited(x, r);
    assert ExitsComplete(cfg, s.listeners[l]);
    assert ExitsComplete(cfg, x);
    assert forall i :: 0 <= i < |s.arrived| ==> Settled(s.listeners, s.arrived[i]) && Settled(s'.listeners, s.arrived[i]);
    assert ReportsTracked(s'.listeners, s'.arrived);
  }

  /** A child that has not exited is in no report at the sink, so it may still send. */
  lemma EmitOrder(cfg: Config, s: System, l: nat, c: nat, e: Ending)
    requires OrderInv(cfg, s) && IsChild(s, l, c) && s.listeners[l].children[c].exit.None?
    ensures OrderInv(cfg, SetChild(s, l, c, ChildDo(s.listeners[l].children[c], Emit(e))))
  {
    var y := ChildDo(s.listeners[l].children[c], Emit(e));
    var x := WithChild(s.listeners[l], c, y);
    var s' := SetChild(s, l, c, y);
    assert forall r :: ReportOfExited(s.listeners[l], r) ==> ReportOfExited(x, r) && r.child != c;
    assert ExitsComplete(cfg, s.listeners[l]);
    assert ExitsComplete(cfg, x);
    assert forall i :: 0 <= i < |s.arrived| ==> Settled(s.listeners, s.arrived[i]) && Settled(s'.listeners, s.arrived[i]);
    assert ReportsTracked(s'.listeners, s'.arrived);
  }

  lemma ReapOrder(cfg: Config, s: System, l: nat, c: nat)
    requires OrderInv(cfg, s) && l < |s.listeners| && ListenerCan(s.listeners[l], Reap(c))
    ensures OrderInv(cfg, SetListener(s, l, ReapChild(s.listeners[l], c)))
  {
    var was, x := s.listeners[l], ReapChild(s.listeners[l], c);
    var s' := SetListener(s, l, x);
    var r0 := ExitReport(c, was.children[c].exit.value);
    assert forall r :: ReportOfExited(was, r) ==> ReportOfExited(x, r);
    assert ReportOfExited(x, r0);
    assert ExitsComplete(cfg, was);
    assert ExitsComplete(cfg, x);
    assert forall i :: 0 <= i < |s.arrived| ==> Settled(s.listeners, s.arrived[i]) && Settled(s'.listeners, s.arrived[i]);
    forall k | 0 <= k < |s'.listeners|
      ensures forall r :: r in s'.listeners[k].reports ==> r in s'.listeners[k].outbox || FinishedBy(k, r) in s.arrived
    {
      assert forall r :: r in s.listeners[k].reports ==> r in s.listeners[k].outbox || FinishedBy(k, r) in s.arrived;
    }
  }

  lemma ArrivedOrder(s: System, a: Arrival)
    requires ResultsFirst(s.arrived)
    requires a.ResultOf? ==> forall i :: 0 <= i < |s.arrived| && s.arrived[i].FinishedBy? ==>
               !(a.listener == s.arrived[i].listener && a.child == s.arrived[i].report.child)
    ensures ResultsFirst(s.arrived + [a])
  {
  }

  lemma DeliverReportOrder(cfg: Config, s: System, l: nat)
    requires OrderInv(cfg, s) && Enabled(cfg, s, DeliverReport(l)) && Orderly(cfg, s, DeliverReport(l))
    ensures OrderInv(cfg, Step(cfg, s, DeliverReport(l)))
  {
    var was := s.listeners[l];
    var r0 := was.outbox[0];
    var x := was.(outbox := was.outbox[1..]);
    var s' := Step(cfg, s, DeliverReport(l));
    assert ExitsComplete(cfg, was) && ReportOfExited(was, r0);
    assert forall r :: ReportOfExited(was, r) ==> ReportOfExited(x, r);
    assert ExitsComplete(cfg, x);
    ArrivedOrder(s, FinishedBy(l, r0));
    forall i | 0 <= i < |s'.arrived| ensures Settled(s'.listeners, s'.arrived[i]) {
      assert i < |s.arrived| ==> Settled(s.listeners, s.arrived[i]);
    }
    forall k | 0 <= k < |s'.listeners|
      ensures forall r :: r in s'.listeners[k].reports ==> r in s'.listeners[k].outbox || FinishedBy(k, r) in s'.arrived
    {
      assert forall r :: r in s.listeners[k].reports ==> r in s.listeners[k].outbox || FinishedBy(k, r) in s.arrived;
      assert was.outbox == [r0] + x.outbox;
    }
  }

  lemma DeliverResultOrder(cfg: Config, s: System, l: nat, c: nat)
    requires OrderInv(cfg, s) && Enabled(cfg, s, DeliverResult(l, c))
    ensures OrderInv(cfg, Step(cfg, s, DeliverResult(l, c)))
  {
    var was := s.listeners[l];
    var y := was.children[c].(outbox := was.children[c].outbox[1..]);
    var x := WithChild(was, c, y);
    var s' := Step(cfg, s, DeliverResult(l, c));
    assert ExitsComplete(cfg, was);
    assert forall r :: ReportOfExited(was, r) ==> ReportOfExited(x, r);
    assert ExitsComplete(cfg, x);
    assert forall i :: 0 <= i < |s.arrived| ==> Settled(s.listeners, s.arrived[i]);
    ArrivedOrder(s, ResultOf(l, c, was.children[c].outbox[0]));
    forall i | 0 <= i < |s'.arrived| ensures Settled(s'.listeners, s'.arrived[i]) {
    }
    forall k | 0 <= k < |s'.listeners|
      ensures forall r :: r in s'.listeners[k].reports ==> r in s'.listeners[k].outbox || FinishedBy(k, r) in s'.arrived
    {
      assert forall r :: r in s.listeners[k].reports ==> r in s.listeners[k].outbox || FinishedBy(k, r) in s.arrived;
    }
  }

  lemma ChildMovesOrder(cfg: Config, s: System, l: nat, c: nat, m: ChildMove)
    requires OrderInv(cfg, s) && Inv(cfg, s)
    requires Enabled(cfg, s, ChildMoves(l, c, m)) && Orderly(cfg, s, ChildMoves(l, c, m))
    ensures OrderInv(cfg, Step(cfg, s, ChildMoves(l, c, m)))
  {
    hide OrderInv, Inv, ListenerInv, Telemetry.Final;
    var was := s.listeners[l].children[c];
    LogAtMost(cfg, s, l, c);
    match m
    case Emit(e) => EmitOrder(cfg, s, l, c, e);
    case Exit => ExitOrder(cfg, s, l, c, 0);
    case Abandon => ExitOrder(cfg, s, l, c, 0);
    case Crash(status) => ExitOrder(cfg, s, l, c, status);
    case _ =>
      OneChangesOrder(cfg, s, l, WithChild(s.listeners[l], c, ChildDo(was, m)), Step(cfg, s, ChildMoves(l, c, m)));
  }

  lemma LogAtMost(cfg: Config, s: System, l: nat, c: nat)
    requires Inv(cfg, s) && IsChild(s, l, c)
    ensures |s.listeners[l].children[c].log| <= Instances(cfg)
    ensures s.listeners[l].children[c].work.Some? ==> s.listeners[l].children[c].work.value == cfg.work
  {
    hide ListenerInv;
    ChildOf(cfg, s, l, c);
  }

  lemma ListenerMovesOrder(cfg: Config, s: System, l: nat, m: ListenerMove)
    requires OrderInv(cfg, s) && Inv(cfg, s) && Enabled(cfg, s, ListenerMoves(l, m))
    ensures OrderInv(cfg, Step(cfg, s, ListenerMoves(l, m)))
  {
    hide OrderInv, ListenerInv;
    match m
    case Reap(c) => ReapOrder(cfg, s, l, c);
    case ReapNone(status) => NothingToReapIsImpossible(cfg, Rank(s.phase), s.listeners[l], status);
    case _ => OneChangesOrder(cfg, s, l, ListenerDo(s.listeners[l], m), Step(cfg, s, ListenerMoves(l, m)));
  }

  lemma OrderStep(cfg: Config, s: System, a: Action)
    requires OrderInv(cfg, s) && Inv(cfg, s) && Enabled(cfg, s, a) && Orderly(cfg, s, a)
    ensures OrderInv(cfg, Step(cfg, s, a))
  {
    hide OrderInv, Inv, Publish, ListenerDo, ListenerCan, ChildDo, ChildCan;
    var s' := Step(cfg, s, a);
    match a
    case GreetListeners => PublishOrder(cfg, s, HelloListener, s.phase);
    case StartListeners => PublishOrder(cfg, s, StartProcesses(cfg.processes), SyncChildren);
    case GreetChildren => PublishOrder(cfg, s, HelloSocket, s.phase);
    case StartChildren => PublishOrder(cfg, s, StartWebsockets(cfg.work), Drain);
    case Finish => PublishOrder(cfg, s, End, Over);
    case Consume => SameOrder(cfg, s, s');
    case AnswerListener(l) => OneChangesOrder(cfg, s, l, s'.listeners[l], s');
    case AnswerChild(l, c) => OneChangesOrder(cfg, s, l, s'.listeners[l], s');
    case ListenerMoves(l, m) => ListenerMovesOrder(cfg, s, l, m);
    case ChildMoves(l, c, m) => ChildMovesOrder(cfg, s, l, c, m);
    case DeliverReport(l) => DeliverReportOrder(cfg, s, l);
    case DeliverResult(l, c) => DeliverResultOrder(cfg, s, l, c);
  }

  lemma SameOrder(cfg: Config, s: System, s': System)
    requires OrderInv(cfg, s) && s'.listeners == s.listeners && s'.arrived == s.arrived
    ensures OrderInv(cfg, s')
  {
  }

  lemma {:induction false} OrderRun(cfg: Config, s: System, trace: seq<Action>, s': System)
    requires OrderInv(cfg, s) && Inv(cfg, s) && OrderlyRun(cfg, s, trace, s')
    ensures OrderInv(cfg, s') && Inv(cfg, s')
    decreases |trace|
  {
    hide OrderInv, Inv, Step, Enabled, Orderly;
    if trace != [] {
      OrderStep(cfg, s, trace[0]);
      InvStep(cfg, s, trace[0]);
      OrderRun(cfg, Step(cfg, s, trace[0]), trace[1..], s');
    }
  }

  // ----- conservation in orderly runs -----

  /** In a finished orderly run, every child's exit report was consumed after all of
      its results. */
  lemma EverythingSettled(cfg: Config, s: System)
    requires OrderInv(cfg, s) && s.taken <= |s.arrived|
    requires forall l :: 0 <= l < |s.listeners| && s.listeners[l].children != [] ==> Done(cfg, s.listeners[l])
    requires forall l :: 0 <= l < |s.listeners| ==>
               forall c :: 0 <= c < |s.listeners[l].children| && s.listeners[l].children[c].reaped ==>
                 Reported(s.listeners[l].reports, c)
    requires forall i :: s.taken <= i < |s.arrived| ==> s.arrived[i].ResultOf?
    ensures AllEmitted(cfg, s) && NonePending(s) && NoneUnread(s)
  {
    forall l: nat, c: nat | IsChild(s, l, c)
      ensures |s.listeners[l].children[c].log| == Instances(cfg)
      ensures s.listeners[l].children[c].outbox == []
      ensures forall j :: s.taken <= j < |s.arrived| ==> s.arrived[j].listener != l || s.arrived[j].child != c
    {
      var i := ReportConsumed(cfg, s, l, c);
      assert Settled(s.listeners, s.arrived[i]) && ExitsComplete(cfg, s.listeners[l]);
    }
    if !NoneUnread(s) {
      var j :| s.taken <= j < |s.arrived| && s.arrived[j].ResultOf?;
      assert Settled(s.listeners, s.arrived[j]);
      assert IsChild(s, s.arrived[j].listener, s.arrived[j].child);
      assert false;
    }
  }

  lemma ReportConsumed(cfg: Config, s: System, l: nat, c: nat) returns (i: nat)
    requires ReportsTracked(s.listeners, s.arrived) && s.taken <= |s.arrived| && IsChild(s, l, c)
    requires Done(cfg, s.listeners[l]) && Reported(s.listeners[l].reports, c)
    requires forall k :: s.taken <= k < |s.arrived| ==> s.arrived[k].ResultOf?
    ensures i < s.taken && s.arrived[i].FinishedBy?
    ensures s.arrived[i].listener == l && s.arrived[i].report.child == c
  {
    var k :| 0 <= k < |s.listeners[l].reports| && s.listeners[l].reports[k].child == c;
    var r := s.listeners[l].reports[k];
    assert r in s.listeners[l].reports && r !in s.listeners[l].outbox;
    assert FinishedBy(l, r) in s.arrived;
    i :| 0 <= i < |s.arrived| && s.arrived[i] == FinishedBy(l, r);
  }

  lemma ReapedAreReported(cfg: Config, rank: nat, l: Listener)
    requires ListenerInv(cfg, rank, l)
    ensures forall c :: 0 <= c < |l.children| && l.children[c].reaped ==> Reported(l.reports, c)
  {
  }

  /** Result conservation under the assumptions: in every orderly run, when the sink
      loop ends, the controller has received exactly
      machines * processes * instances results. */
  lemma OrderlyConservation(cfg: Config, n: nat, trace: seq<Action>, s: System)
    requires OrderlyRun(cfg, Initial(n), trace, s)
    requires Enabled(cfg, s, Finish) || s.phase == Over
    ensures s.taken <= |s.arrived| && Results(Consumed(s)) == Expected(cfg)
  {
    hide OrderInv, Inv, ListenerInv, Step, Results, Sum, Quota, AllEmitted, NonePending, OrderlyRun, Run, Done, Reported;
    InvInitial(cfg, n);
    InitialOrder(cfg, n);
    OrderRun(cfg, Initial(n), trace, s);
    OrderlyIsRun(cfg, Initial(n), trace, s);
    assert Reachable(cfg, s);
    CompletionBarrier(cfg, s);
    ListenerBarrier(cfg, s);
    ReportedEverywhere(cfg, s);
    EverythingSettled(cfg, s);
    ResultConservation(cfg, s);
  }

  lemma ReportedEverywhere(cfg: Config, s: System)
    requires Inv(cfg, s)
    ensures forall l :: 0 <= l < |s.listeners| ==>
              forall c :: 0 <= c < |s.listeners[l].children| && s.listeners[l].children[c].reaped ==>
                Reported(s.listeners[l].reports, c)
  {
    hide ListenerInv, Reported;
    forall l | 0 <= l < |s.listeners|
      ensures forall c :: 0 <= c < |s.listeners[l].children| && s.listeners[l].children[c].reaped ==>
                Reported(s.listeners[l].reports, c)
    {
      ReapedAreReported(cfg, Rank(s.phase), s.listeners[l]);
    }
  }

  lemma InitialOrder(cfg: Config, n: nat)
    ensures OrderInv(cfg, Initial(n))
  {
  }
}
