/** What holds in every run of the coordination protocol: the listener barrier, the
    start barrier and the completion barrier. */
module Barriers {
  import opened Sums
  import opened Wire
  import opened Protocol
  import opened Invariant
  import opened Steps

  // ----- the listener barrier -----

  /** The number of child processes in the system. */
  function TotalLaunched(s: System): int { Sum(s.listeners, Launched) }

  lemma LaunchedAtMost(cfg: Config, s: System)
    requires Listeners(cfg, s)
    ensures TotalLaunched(s) <= cfg.processes * Sum(s.listeners, IsAnswered)
    ensures Sum(s.listeners, ReportsMade) <= cfg.processes * Sum(s.listeners, IsAnswered)
    ensures Sum(s.listeners, ReportsMade) == cfg.processes * Sum(s.listeners, IsAnswered) ==>
              forall l :: 0 <= l < |s.listeners| ==> ReportsMade(s.listeners[l]) == cfg.processes * IsAnswered(s.listeners[l])
  {
    hide ListenerInv, IsAnswered;
    forall l | 0 <= l < |s.listeners|
      ensures Launched(s.listeners[l]) <= cfg.processes * IsAnswered(s.listeners[l])
      ensures ReportsMade(s.listeners[l]) <= cfg.processes * IsAnswered(s.listeners[l])
    {
      LaunchedCap(cfg, Rank(s.phase), s.listeners[l]);
    }
    SumCapped(s.listeners, Launched, IsAnswered, cfg.processes);
    SumCapped(s.listeners, ReportsMade, IsAnswered, cfg.processes);
  }

  lemma AnsweredAtMostQuota(cfg: Config, n: int)
    requires 0 <= n <= cfg.machines
    ensures cfg.processes * n <= Quota(cfg)
  {
  }

  /** Listener barrier: once StartProcesses is published exactly `machines` listeners
      have been answered, and never more; a listener that was not answered is still
      waiting for HELLO or for its reply, has launched nothing and started nothing;
      so at most machines * processes children ever exist. */
  lemma ListenerBarrier(cfg: Config, s: System)
    requires Reachable(cfg, s)
    ensures Sum(s.listeners, IsAnswered) <= cfg.machines
    ensures s.phase != SyncListeners ==> Sum(s.listeners, IsAnswered) == cfg.machines
    ensures forall l :: 0 <= l < |s.listeners| ==> Idles(s.listeners[l])
    ensures forall l :: 0 <= l < |s.listeners| && s.listeners[l].started ==>
              s.listeners[l].active == 3 && s.phase != SyncListeners
    ensures TotalLaunched(s) <= Quota(cfg)
  {
    hide ListenerInv, Sum, Quota, IsAnswered;
    ReachableInv(cfg, s);
    LaunchedAtMost(cfg, s);
    AnsweredNonNegative(s.listeners);
    AnsweredAtMostQuota(cfg, Sum(s.listeners, IsAnswered));
    forall l | 0 <= l < |s.listeners|
      ensures Idles(s.listeners[l]) && (s.listeners[l].started ==> s.listeners[l].active == 3 && Rank(s.phase) >= 1)
    {
      UnansweredIdles(cfg, Rank(s.phase), s.listeners[l]);
    }
  }

  lemma AnsweredNonNegative(ls: seq<Listener>)
    ensures 0 <= Sum(ls, IsAnswered)
  {
    SumNonNegative(ls, IsAnswered);
  }

  /** Unless it was answered, a listener has started, launched and reported nothing. */
  predicate Idles(l: Listener) {
    !Answered(l.stage) ==>
      l.children == [] && l.reports == [] && !l.started && l.task in {Idle, Ended}
  }

  lemma UnansweredIdles(cfg: Config, rank: nat, l: Listener)
    requires ListenerInv(cfg, rank, l)
    ensures Idles(l)
    ensures l.started ==> l.active == 3 && rank >= 1
  {
    SumNonNegative(l.inbox, IsStart);
  }

  // ----- the start barrier -----

  /** Every child has been answered, with both of its subscriptions active. */
  ghost predicate AllChildrenReady(s: System) {
    forall l: nat, c: nat :: IsChild(s, l, c) ==>
      Answered(s.listeners[l].children[c].stage) && s.listeners[l].children[c].active == 2
  }

  /** Start barrier: when StartWebsockets is published, all machines * processes
      children exist, every one of them has been answered, and its subscription is
      active, so the message enters its inbox: none misses it. */
  lemma StartBarrier(cfg: Config, s: System)
    requires Reachable(cfg, s) && Enabled(cfg, s, StartChildren)
    ensures TotalLaunched(s) == Quota(cfg) == s.processes
    ensures AllChildrenReady(s)
    ensures var s' := Step(cfg, s, StartChildren);
            forall l: nat, c: nat :: IsChild(s, l, c) ==>
              && IsChild(s', l, c)
              && s'.listeners[l].children[c].inbox ==
                 s.listeners[l].children[c].inbox + [StartWebsockets(cfg.work)]
              && s.listeners[l].children[c].work.None?
              && StartWebsockets(cfg.work) !in s.listeners[l].children[c].inbox
  {
    hide ListenerInv, ChildInv, Sum, Quota, Publish, HearAll;
    ReachableInv(cfg, s);
    BarrierFull(cfg, s);
    AllLaunched(cfg, s);
    forall l: nat, c: nat | IsChild(s, l, c)
      ensures ChildHear(s.listeners[l].children[c], StartWebsockets(cfg.work)).inbox ==
              s.listeners[l].children[c].inbox + [StartWebsockets(cfg.work)]
      ensures s.listeners[l].children[c].active == 2 && s.listeners[l].children[c].work.None?
      ensures StartWebsockets(cfg.work) !in s.listeners[l].children[c].inbox
    {
      ChildOf(cfg, s, l, c);
      ReadyForWork(cfg, s.listeners[l].children[c]);
    }
  }

  lemma ReadyForWork(cfg: Config, c: Child)
    requires ChildInv(cfg, 1, c) && Answered(c.stage)
    ensures c.active == 2 && c.work.None?
    ensures StartWebsockets(cfg.work) !in c.inbox
  {
    SumNonNegative(c.inbox, IsWork);
    NoneCounted(c.inbox);
  }

  lemma NoneCounted(inbox: seq<Publication>)
    requires Sum(inbox, IsWork) <= 0
    ensures forall p :: p in inbox ==> !p.StartWebsockets?
  {
    SumNonNegative(inbox, IsWork);
    forall i | 0 <= i < |inbox| ensures !inbox[i].StartWebsockets? {
      assert IsWork(inbox[i]) <= 0;
    }
  }

  lemma AllLaunched(cfg: Config, s: System)
    requires Listeners(cfg, s) && Barrier(cfg, s)
    requires Rank(s.phase) >= 1 && s.processes >= Quota(cfg)
    ensures TotalLaunched(s) == Quota(cfg)
  {
    hide ListenerInv, Quota;
    LaunchedAtMost(cfg, s);
    QuotaIs(cfg, Sum(s.listeners, IsAnswered));
    forall l | 0 <= l < |s.listeners|
      ensures AnsweredChildren(s.listeners[l]) <= 1 * Launched(s.listeners[l])
    {
      AnsweredAtMostLaunched(s.listeners[l].children);
    }
    SumCapped(s.listeners, AnsweredChildren, Launched, 1);
  }

  /** From then on, in every reachable state, each of the children has the work
      exactly once: still unread in its inbox, or taken. */
  lemma NoneMissesTheWork(cfg: Config, s: System)
    requires Reachable(cfg, s) && Rank(s.phase) >= 2
    ensures TotalLaunched(s) == Quota(cfg) && AllChildrenReady(s)
    ensures forall l: nat, c: nat :: IsChild(s, l, c) ==>
              var x := s.listeners[l].children[c];
              && (x.work == Some(cfg.work) || (x.work.None? && StartWebsockets(cfg.work) in x.inbox))
              && (x.work.Some? ==> StartWebsockets(cfg.work) !in x.inbox)
  {
    hide ListenerInv, ChildInv, Sum, Quota;
    ReachableInv(cfg, s);
    AllLaunched(cfg, s);
    forall l: nat, c: nat | IsChild(s, l, c)
      ensures Answered(s.listeners[l].children[c].stage) && s.listeners[l].children[c].active == 2
      ensures var x := s.listeners[l].children[c];
              && (x.work == Some(cfg.work) || (x.work.None? && StartWebsockets(cfg.work) in x.inbox))
              && (x.work.Some? ==> StartWebsockets(cfg.work) !in x.inbox)
    {
      ChildOf(cfg, s, l, c);
      HasWorkOnce(cfg, Rank(s.phase), s.listeners[l].children[c]);
    }
  }

  lemma HasWorkOnce(cfg: Config, rank: nat, c: Child)
    requires ChildInv(cfg, rank, c) && rank >= 2
    ensures Answered(c.stage) && c.active == 2
    ensures c.work == Some(cfg.work) || (c.work.None? && StartWebsockets(cfg.work) in c.inbox)
    ensures c.work.Some? ==> StartWebsockets(cfg.work) !in c.inbox
  {
    if c.work.Some? {
      NoneCounted(c.inbox);
    } else if StartWebsockets(cfg.work) !in c.inbox {
      assert forall i :: 0 <= i < |c.inbox| ==> c.inbox[i] in c.inbox;
      AllZero(c.inbox, IsWork);
    }
  }

  /** The reply a child has had, as 0 or 1. */
  function Replies(ls: seq<Listener>, l: nat, c: nat): int {
    if l < |ls| && c < |ls[l].children| then IsAnsweredChild(ls[l].children[c]) else 0
  }

  function RepliesIn(trace: seq<Action>, l: nat, c: nat): int {
    if trace == [] then 0
    else (if trace[0] == AnswerChild(l, c) then 1 else 0) + RepliesIn(trace[1..], l, c)
  }

  lemma MoveKeepsStages(l: Listener, m: ListenerMove)
    requires ListenerCan(l, m)
    ensures var l' := ListenerDo(l, m);
            && |l'.children| >= |l.children|
            && (forall j :: 0 <= j < |l.children| ==> l'.children[j].stage == l.children[j].stage)
            && (forall j :: |l.children| <= j < |l'.children| ==> l'.children[j] == NEW_CHILD)
  {
  }

  lemma PublishKeepsReplies(ls: seq<Listener>, p: Publication, l: nat, c: nat)
    ensures Replies(Publish(ls, p), l, c) == Replies(ls, l, c)
  {
  }

  lemma SetReplies(ls: seq<Listener>, i: nat, x: Listener, l: nat, c: nat)
    requires i < |ls| && |x.children| >= |ls[i].children|
    requires i == l && c < |ls[i].children| ==> Answered(x.children[c].stage) == Answered(ls[i].children[c].stage)
    requires forall j :: |ls[i].children| <= j < |x.children| ==> x.children[j] == NEW_CHILD
    ensures Replies(ls[i := x], l, c) == Replies(ls, l, c)
  {
  }

  lemma AnswerReplies(s: System, i: nat, j: nat, l: nat, c: nat)
    requires IsChild(s, i, j) && s.listeners[i].children[j].stage == Requested
    ensures Replies(SetChild(s, i, j, s.listeners[i].children[j].(stage := Replied)).listeners, l, c) ==
            Replies(s.listeners, l, c) + if i == l && j == c then 1 else 0
  {
  }

  lemma RepliesStep(cfg: Config, s: System, a: Action, l: nat, c: nat)
    requires Enabled(cfg, s, a)
    ensures Replies(Step(cfg, s, a).listeners, l, c) ==
            Replies(s.listeners, l, c) + if a == AnswerChild(l, c) then 1 else 0
  {
    hide ListenerDo, ListenerCan, ChildDo, ChildCan, Exits, Quota, Publish, Replies;
    var ls := s.listeners;
    match a
    case GreetListeners => PublishKeepsReplies(ls, HelloListener, l, c);
    case StartListeners => PublishKeepsReplies(ls, StartProcesses(cfg.processes), l, c);
    case GreetChildren => PublishKeepsReplies(ls, HelloSocket, l, c);
    case StartChildren => PublishKeepsReplies(ls, StartWebsockets(cfg.work), l, c);
    case Finish => PublishKeepsReplies(ls, End, l, c);
    case Consume =>
    case AnswerChild(i, j) => AnswerReplies(s, i, j, l, c);
    case ListenerMoves(i, m) =>
      MoveKeepsStages(ls[i], m);
      SetReplies(ls, i, ListenerDo(ls[i], m), l, c);
    case ChildMoves(i, j, m) =>
      ChildDoCounts(ls[i].children[j], m);
      SetReplies(ls, i, Step(cfg, s, a).listeners[i], l, c);
    case AnswerListener(i) => SetReplies(ls, i, ls[i].(stage := Replied), l, c);
    case DeliverReport(i) => SetReplies(ls, i, ls[i].(outbox := ls[i].outbox[1..]), l, c);
    case DeliverResult(i, j) => SetReplies(ls, i, Step(cfg, s, a).listeners[i], l, c);
  }

  /** Over any run, the controller answers a given child at most once, and exactly
      once if the child ends up answered. */
  lemma {:induction false} AnsweredOnce(cfg: Config, s: System, trace: seq<Action>, s': System, l: nat, c: nat)
    requires Run(cfg, s, trace, s')
    ensures Replies(s'.listeners, l, c) == Replies(s.listeners, l, c) + RepliesIn(trace, l, c)
    ensures Replies(s.listeners, l, c) == 0 ==> 0 <= RepliesIn(trace, l, c) <= 1
    decreases |trace|
  {
    hide Step, Enabled;
    if trace != [] {
      RepliesStep(cfg, s, trace[0], l, c);
      AnsweredOnce(cfg, Step(cfg, s, trace[0]), trace[1..], s', l, c);
    }
  }

  // ----- the completion barrier -----

  /** The reap loop's failing wait can never be taken. */
  lemma WaitNeverFails(cfg: Config, s: System, l: nat, status: int)
    requires Reachable(cfg, s)
    ensures !Enabled(cfg, s, ListenerMoves(l, ReapNone(status)))
  {
    ReachableInv(cfg, s);
    if l < |s.listeners| {
      NothingToReapIsImpossible(cfg, Rank(s.phase), s.listeners[l], status);
    }
  }

  /** A listener that reaped all it launched, and has nothing left to send. */
  predicate Done(cfg: Config, l: Listener) {
    && |l.children| == |l.reports| == cfg.processes
    && l.unfinished == 0
    && l.outbox == []
    && forall c :: 0 <= c < |l.children| ==> l.children[c].reaped && l.children[c].exit.Some?
  }

  lemma ExitsAccounted(cfg: Config, s: System)
    requires Inv(cfg, s) && Rank(s.phase) >= 2 && Exits(Consumed(s)) >= Quota(cfg)
    ensures Exits(Consumed(s)) == Exits(s.arrived) == Sum(s.listeners, ReportsMade) == Quota(cfg)
    ensures Sum(s.listeners, ReportsPending) == 0
    ensures Sum(s.listeners, ReportsMade) == cfg.processes * Sum(s.listeners, IsAnswered)
  {
    hide Quota, Listeners;
    SumPrefix(s.arrived, s.taken, IsExit);
    SumNonNegative(s.listeners, ReportsPending);
    LaunchedAtMost(cfg, s);
    QuotaIs(cfg, Sum(s.listeners, IsAnswered));
  }

  lemma AllReapedIn(cs: seq<Child>)
    requires Sum(cs, IsReaped) == |cs|
    ensures forall c :: 0 <= c < |cs| ==> cs[c].reaped
  {
    SumOne(cs);
    SumCapped(cs, IsReaped, One, 1);
    forall c | 0 <= c < |cs| ensures cs[c].reaped {
      assert IsReaped(cs[c]) == 1 * One(cs[c]);
    }
  }

  lemma FullReportsMeanDone(cfg: Config, rank: nat, l: Listener)
    requires ListenerInv(cfg, rank, l) && rank >= 2 && Answered(l.stage)
    requires |l.reports| == cfg.processes && l.outbox == []
    ensures Done(cfg, l)
  {
    AllReapedIn(l.children);
  }

  /** Completion barrier: when the sink loop's condition becomes false, and ever
      after, every answered listener (there are exactly `machines`) has reaped all of
      its `processes` children and all of its reports have been consumed. END is
      published only from such states. */
  lemma CompletionBarrier(cfg: Config, s: System)
    requires Reachable(cfg, s)
    requires Enabled(cfg, s, Finish) || s.phase == Over
    ensures s.taken <= |s.arrived|
    ensures Sum(s.listeners, IsAnswered) == cfg.machines
    ensures forall l :: 0 <= l < |s.listeners| && Answered(s.listeners[l].stage) ==> Done(cfg, s.listeners[l])
    ensures Exits(Consumed(s)) == Exits(s.arrived) == Quota(cfg)
    ensures forall i :: s.taken <= i < |s.arrived| ==> s.arrived[i].ResultOf?
  {
    hide ListenerInv, Sum, Quota;
    ReachableInv(cfg, s);
    ExitsAccounted(cfg, s);
    LaunchedAtMost(cfg, s);
    SumNonNegative(s.listeners, ReportsPending);
    forall l | 0 <= l < |s.listeners| && Answered(s.listeners[l].stage) ensures Done(cfg, s.listeners[l]) {
      assert ReportsMade(s.listeners[l]) == cfg.processes * IsAnswered(s.listeners[l]);
      assert ReportsPending(s.listeners[l]) <= 0;
      FullReportsMeanDone(cfg, Rank(s.phase), s.listeners[l]);
    }
    NoExitsAfter(s.arrived, s.taken);
  }

  lemma NoExitsAfter(arrived: seq<Arrival>, k: nat)
    requires k <= |arrived| && Exits(arrived[..k]) == Exits(arrived)
    ensures forall i :: k <= i < |arrived| ==> arrived[i].ResultOf?
  {
    assert arrived == arrived[..k] + arrived[k..];
    SumConcat(arrived[..k], arrived[k..], IsExit);
    SumNonNegative(arrived[k..], IsExit);
    forall i | k <= i < |arrived| ensures arrived[i].ResultOf? {
      assert IsExit(arrived[k..][i - k]) <= 0;
    }
  }
}
