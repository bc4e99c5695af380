/** When every result is received, decided where the last exit report is delivered: what
    the controller consumes is what the sink has received by then, and no more. */
module Delivery {
  import opened Sums
  import opened Protocol
  import opened Invariant
  import opened Steps
  import opened Barriers
  import opened Conservation
  import opened Records

  // ----- what arrives along a run -----

  /** The exit reports delivered in a trace. */
  function Reports(trace: seq<Action>): nat {
    if trace == [] then 0 else (if trace[0].DeliverReport? then 1 else 0) + Reports(trace[1..])
  }

  lemma ArrivedStep(cfg: Config, s: System, a: Action)
    requires Enabled(cfg, s, a)
    ensures s.arrived <= Step(cfg, s, a).arrived
    ensures Exits(Step(cfg, s, a).arrived) == Exits(s.arrived) + if a.DeliverReport? then 1 else 0
  {
    hide ListenerDo, ListenerCan, ChildDo, ChildCan, Publish, Quota, Sum;
    if a.DeliverReport? {
      SumSnoc(s.arrived, FinishedBy(a.l, s.listeners[a.l].outbox[0]), IsExit);
    } else if a.DeliverResult? {
      SumSnoc(s.arrived, ResultOf(a.l, a.c, s.listeners[a.l].children[a.c].outbox[0]), IsExit);
    } else if a.ChildMoves? {
      ChildDoCounts(s.listeners[a.l].children[a.c], a.cm);
    }
  }

  lemma {:induction false} ArrivedRun(cfg: Config, s: System, trace: seq<Action>, s': System)
    requires Run(cfg, s, trace, s')
    ensures s.arrived <= s'.arrived && Exits(s'.arrived) == Exits(s.arrived) + Reports(trace)
    decreases |trace|
  {
    hide Enabled, Step, Exits;
    if trace != [] {
      ArrivedStep(cfg, s, trace[0]);
      ArrivedRun(cfg, Step(cfg, s, trace[0]), trace[1..], s');
    }
  }

  /** A run that delivers an exit report has a last such delivery. */
  lemma {:induction false} LastReport(cfg: Config, s: System, trace: seq<Action>, s': System)
    returns (before: seq<Action>, mid: System, l: nat, after: seq<Action>)
    requires Run(cfg, s, trace, s') && Reports(trace) > 0
    ensures trace == before + [DeliverReport(l)] + after && Reports(after) == 0
    ensures Run(cfg, s, before, mid) && Enabled(cfg, mid, DeliverReport(l))
    ensures Run(cfg, Step(cfg, mid, DeliverReport(l)), after, s')
    decreases |trace|
  {
    hide Enabled, Step;
    if Reports(trace[1..]) == 0 {
      before, mid, l, after := [], s, trace[0].l, trace[1..];
    } else {
      before, mid, l, after := LastReport(cfg, Step(cfg, s, trace[0]), trace[1..], s');
      before := [trace[0]] + before;
      assert before[1..] == trace[1..][..|before| - 1];
    }
  }

  // ----- the last exit report -----

  /** In a run from Initial(n) to the finished state s, the last exit report is delivered
      in state mid, by listener l. */
  ghost predicate LastReportIn(cfg: Config, n: nat, before: seq<Action>, mid: System, l: nat, after: seq<Action>, s: System) {
    && Run(cfg, Initial(n), before, mid) && Enabled(cfg, mid, DeliverReport(l))
    && Run(cfg, Step(cfg, mid, DeliverReport(l)), after, s) && Reports(after) == 0
    && (Enabled(cfg, s, Finish) || s.phase == Over)
  }

  lemma BothReachable(cfg: Config, n: nat, before: seq<Action>, mid: System, l: nat, after: seq<Action>, s: System)
    requires LastReportIn(cfg, n, before, mid, l, after, s)
    ensures Reachable(cfg, mid) && Reachable(cfg, s)
  {
    hide Enabled, Step;
    var rest := [DeliverReport(l)] + after;
    assert rest[1..] == after;
    assert Run(cfg, mid, rest, s);
    RunConcat(cfg, Initial(n), before, mid, rest, s);
  }

  /** The sink loop ends with the last exit report: the results consumed are those the
      sink had received when that report was delivered. */
  lemma ConsumedByLastReport(cfg: Config, n: nat, before: seq<Action>, mid: System, l: nat, after: seq<Action>, s: System)
    requires LastReportIn(cfg, n, before, mid, l, after, s)
    ensures s.taken <= |s.arrived| && Results(Consumed(s)) == Results(mid.arrived)
    ensures Exits(mid.arrived) + 1 == Quota(cfg)
  {
    hide Run, Reachable, Enabled, Listeners, Barrier, Sum, Quota, Exits, Done;
    BothReachable(cfg, n, before, mid, l, after, s);
    ReachableInv(cfg, s);
    CompletionBarrier(cfg, s);
    var delivered := Step(cfg, mid, DeliverReport(l));
    ArrivedStep(cfg, mid, DeliverReport(l));
    ArrivedRun(cfg, delivered, after, s);
    OneMoreArrived(cfg, mid, l);
    assert s.arrived[..|delivered.arrived|] == delivered.arrived;
    assert s.arrived[..|mid.arrived|] == mid.arrived;
    StopsAt(cfg, s, |mid.arrived|);
    assert Consumed(s) == delivered.arrived;
  }

  lemma OneMoreArrived(cfg: Config, mid: System, l: nat)
    requires Enabled(cfg, mid, DeliverReport(l))
    ensures |Step(cfg, mid, DeliverReport(l)).arrived| == |mid.arrived| + 1
  {
  }

  /** The controller stops right after the exit report that completes its quota. */
  lemma StopsAt(cfg: Config, s: System, k: nat)
    requires SinkInv(cfg, s) && Exits(Consumed(s)) == Quota(cfg)
    requires k < |s.arrived| && Exits(s.arrived[..k]) < Quota(cfg) && Exits(s.arrived[..k + 1]) >= Quota(cfg)
    ensures s.taken == k + 1
  {
    hide Quota, Exits;
    if s.taken <= k {
      ExitsPrefix(s.arrived, s.taken, k);
      assert false;
    }
    if s.taken > k + 1 {
      ExitsPrefix(s.arrived, k + 1, s.taken - 1);
      assert false;
    }
  }

  lemma ExitsPrefix(arrived: seq<Arrival>, i: nat, j: nat)
    requires i <= j <= |arrived|
    ensures Exits(arrived[..i]) <= Exits(arrived[..j])
  {
    assert arrived[..j][..i] == arrived[..i];
    SumPrefix(arrived[..j], i, IsExit);
  }

  /** When the last report is about to be delivered, all reports have been made, so all
      children have been launched, and have exited. */
  lemma AllReportedBy(cfg: Config, mid: System, l: nat)
    requires Inv(cfg, mid) && Enabled(cfg, mid, DeliverReport(l)) && Exits(mid.arrived) + 1 == Quota(cfg)
    ensures TotalLaunched(mid) == Quota(cfg)
    ensures forall l: nat, c: nat :: IsChild(mid, l, c) ==> mid.listeners[l].children[c].exit.Some?
  {
    hide ListenerInv, Quota, Sum, Exits;
    var ls := mid.listeners;
    SumNonNegative(ls, ReportsPending);
    LaunchedAtMost(cfg, mid);
    AnsweredNonNegative(ls);
    AnsweredAtMostQuota(cfg, Sum(ls, IsAnswered));
    assert ReportsPending(ls[l]) >= 1;
    forall k | 0 <= k < |ls|
      ensures ReportsMade(ls[k]) <= 1 * Launched(ls[k])
      ensures forall c :: 0 <= c < |ls[k].children| ==> ls[k].children[c].exit.Some?
    {
      FullyReported(cfg, Rank(mid.phase), ls[k]);
    }
    SumCapped(ls, ReportsMade, Launched, 1);
  }

  lemma FullyReported(cfg: Config, rank: nat, l: Listener)
    requires ListenerInv(cfg, rank, l) && ReportsMade(l) == cfg.processes * IsAnswered(l)
    ensures |l.children| == |l.reports|
    ensures forall c :: 0 <= c < |l.children| ==> l.children[c].exit.Some?
  {
    LaunchedCap(cfg, rank, l);
    SumOne(l.children);
    SumCapped(l.children, IsReaped, One, 1);
    AllReapedIn(l.children);
  }

  /** Delivery order, exactly: in any finished run the controller has received every
      result if and only if, when the last exit report is delivered, every child has sent
      all of its results and none of them is still underway. */
  lemma AllReceivedExactlyWhen(cfg: Config, n: nat, before: seq<Action>, mid: System, l: nat, after: seq<Action>, s: System)
    requires LastReportIn(cfg, n, before, mid, l, after, s)
    ensures s.taken <= |s.arrived|
    ensures Results(Consumed(s)) == Expected(cfg) <==> AllEmitted(cfg, mid) && NonePending(mid)
  {
    hide Run, Reachable, Listeners, Barrier, Sum, Quota, Exits, Results, AllEmitted, NonePending, Instances, Reports;
    BothReachable(cfg, n, before, mid, l, after, s);
    ReachableInv(cfg, mid);
    ConsumedByLastReport(cfg, n, before, mid, l, after, s);
    AllReportedBy(cfg, mid, l);
    MadeAndPending(cfg, mid);
  }

  // ----- children that leave in order -----

  lemma EmittedByLastReport(cfg: Config, n: nat, before: seq<Action>, mid: System, l: nat, after: seq<Action>, s: System)
    requires LastReportIn(cfg, n, before, mid, l, after, s) && NoneLeftEarly(cfg, s)
    ensures AllEmitted(cfg, mid)
  {
    hide Inv, Enabled, Reachable, Run, Everywhere, Sum, Quota, Exits, Step, Results;
    BothReachable(cfg, n, before, mid, l, after, s);
    ReachableInv(cfg, mid);
    ConsumedByLastReport(cfg, n, before, mid, l, after, s);
    AllReportedBy(cfg, mid, l);
    forall i: nat, c: nat | IsChild(mid, i, c) ensures |mid.listeners[i].children[c].log| == Instances(cfg) {
      var x := mid.listeners[i].children[c];
      ExitedStep(cfg, mid, DeliverReport(l), i, c, x);
      ExitedRun(cfg, Step(cfg, mid, DeliverReport(l)), after, s, i, c, x);
      ChildInOrder(cfg, s, i, c);
    }
  }

  /** When no child left early: every result is received if and only if every child's
      outbox is empty when the last exit report is delivered. Results may trail the
      reports of their own children, as long as one report is still to come. */
  lemma DeliveryOrderDecides(cfg: Config, n: nat, before: seq<Action>, mid: System, l: nat, after: seq<Action>, s: System)
    requires LastReportIn(cfg, n, before, mid, l, after, s) && NoneLeftEarly(cfg, s)
    ensures s.taken <= |s.arrived|
    ensures Results(Consumed(s)) == Expected(cfg) <==> NonePending(mid)
  {
    hide LastReportIn, NoneLeftEarly, AllEmitted, NonePending, Results, Expected;
    EmittedByLastReport(cfg, n, before, mid, l, after, s);
    AllReceivedExactlyWhen(cfg, n, before, mid, l, after, s);
  }

  /** Every finished run that had children has such a last report. */
  lemma FinishedRunReports(cfg: Config, n: nat, trace: seq<Action>, s: System)
    returns (before: seq<Action>, mid: System, l: nat, after: seq<Action>)
    requires Run(cfg, Initial(n), trace, s) && (Enabled(cfg, s, Finish) || s.phase == Over)
    requires Quota(cfg) > 0
    ensures trace == before + [DeliverReport(l)] + after
    ensures LastReportIn(cfg, n, before, mid, l, after, s)
  {
    hide Run, Quota, Step, Done, Sum;
    assert Reachable(cfg, s);
    CompletionBarrier(cfg, s);
    ArrivedRun(cfg, Initial(n), trace, s);
    NoExitsYet(n);
    before, mid, l, after := LastReport(cfg, Initial(n), trace, s);
  }

  lemma NoExitsYet(n: nat)
    ensures Exits(Initial(n).arrived) == 0
  {
  }
}
