/** Where results go: none is duplicated or invented, and when none is lost. */
module Conservation {
  import opened Sums
  import opened Wire
  import opened Protocol
  import opened Invariant
  import opened Steps
  import opened Barriers

  // ----- results of one listener -----

  lemma LogsOfChildren(cs: seq<Child>, k: nat)
    requires forall c :: 0 <= c < |cs| ==> |cs[c].log| <= k
    ensures 0 <= Sum(cs, ChildLog) <= k * |cs|
    ensures Sum(cs, ChildLog) == k * |cs| <==> forall c :: 0 <= c < |cs| ==> |cs[c].log| == k
  {
    hide Sum;
    SumOne(cs);
    assert forall c :: 0 <= c < |cs| ==> ChildLog(cs[c]) <= k * One(cs[c]);
    SumCapped(cs, ChildLog, One, k);
    SumNonNegative(cs, ChildLog);
    if forall c :: 0 <= c < |cs| ==> |cs[c].log| == k {
      SumScaled(cs, ChildLog, k);
    }
    if Sum(cs, ChildLog) == k * |cs| {
      forall c | 0 <= c < |cs| ensures |cs[c].log| == k {
        assert ChildLog(cs[c]) == k * One(cs[c]);
      }
    }
  }

  lemma OutboxesOfChildren(cs: seq<Child>)
    ensures 0 <= Sum(cs, ChildPending)
    ensures Sum(cs, ChildPending) == 0 <==> forall c :: 0 <= c < |cs| ==> cs[c].outbox == []
  {
    hide Sum;
    SumNonNegative(cs, ChildPending);
    if forall c :: 0 <= c < |cs| ==> cs[c].outbox == [] {
      AllZero(cs, ChildPending);
    }
    if Sum(cs, ChildPending) == 0 {
      forall c | 0 <= c < |cs| ensures cs[c].outbox == [] {
        assert ChildPending(cs[c]) <= 0;
      }
    }
  }

  lemma LogsCapped(cfg: Config, rank: nat, l: Listener)
    requires ListenerInv(cfg, rank, l)
    ensures forall c :: 0 <= c < |l.children| ==> |l.children[c].log| <= Instances(cfg)
  {
    hide ListenerHeard, ListenerWork;
  }

  lemma ResultsOfListener(cfg: Config, rank: nat, l: Listener)
    requires ListenerInv(cfg, rank, l)
    ensures 0 <= ResultsMade(l) <= Instances(cfg) * Launched(l)
    ensures 0 <= ResultsPending(l)
    ensures ResultsMade(l) == Instances(cfg) * Launched(l) <==>
              forall c :: 0 <= c < |l.children| ==> |l.children[c].log| == Instances(cfg)
    ensures ResultsPending(l) == 0 <==> forall c :: 0 <= c < |l.children| ==> l.children[c].outbox == []
  {
    hide ListenerInv, Sum, Instances;
    LogsCapped(cfg, rank, l);
    LogsOfChildren(l.children, Instances(cfg));
    OutboxesOfChildren(l.children);
  }

  // ----- the bound, and exactly when it is met -----

  /** The number of results the configuration calls for. */
  function Expected(cfg: Config): int { Instances(cfg) * Quota(cfg) }

  ghost predicate AllEmitted(cfg: Config, s: System) {
    forall l: nat, c: nat :: IsChild(s, l, c) ==> |s.listeners[l].children[c].log| == Instances(cfg)
  }

  ghost predicate NonePending(s: System) {
    forall l: nat, c: nat :: IsChild(s, l, c) ==> s.listeners[l].children[c].outbox == []
  }

  predicate NoneUnread(s: System)
    requires s.taken <= |s.arrived|
  {
    forall i :: s.taken <= i < |s.arrived| ==> !s.arrived[i].ResultOf?
  }

  function IsResult(a: Arrival): int { if a.ResultOf? then 1 else 0 }

  lemma {:induction false} ResultsAsSum(arrived: seq<Arrival>)
    ensures Results(arrived) == Sum(arrived, IsResult)
  {
    if arrived != [] {
      ResultsAsSum(arrived[..|arrived| - 1]);
    }
  }

  /** The unread results are those after the consumed prefix. */
  lemma ConsumedResults(arrived: seq<Arrival>, k: nat)
    requires k <= |arrived|
    ensures 0 <= Results(arrived[..k]) <= Results(arrived)
    ensures Results(arrived[..k]) == Results(arrived) <==> forall i :: k <= i < |arrived| ==> !arrived[i].ResultOf?
  {
    var rest := arrived[k..];
    assert arrived == arrived[..k] + rest;
    SumConcat(arrived[..k], rest, IsResult);
    ResultsAsSum(arrived);
    ResultsAsSum(arrived[..k]);
    SumNonNegative(arrived[..k], IsResult);
    SumNonNegative(rest, IsResult);
    if Sum(rest, IsResult) == 0 {
      forall i | k <= i < |arrived| ensures !arrived[i].ResultOf? {
        assert IsResult(rest[i - k]) <= 0;
      }
    }
    if forall i :: k <= i < |arrived| ==> !arrived[i].ResultOf? {
      AllZero(rest, IsResult);
    }
  }

  lemma MadeAndPending(cfg: Config, s: System)
    requires Listeners(cfg, s)
    ensures 0 <= Sum(s.listeners, ResultsPending)
    ensures Sum(s.listeners, ResultsMade) <= Instances(cfg) * TotalLaunched(s)
    ensures Sum(s.listeners, ResultsMade) == Instances(cfg) * TotalLaunched(s) <==> AllEmitted(cfg, s)
    ensures Sum(s.listeners, ResultsPending) == 0 <==> NonePending(s)
  {
    hide ListenerInv, ResultsMade, ResultsPending, Launched;
    var ls := s.listeners;
    forall l | 0 <= l < |ls|
      ensures 0 <= ResultsMade(ls[l]) <= Instances(cfg) * Launched(ls[l]) && 0 <= ResultsPending(ls[l])
      ensures ResultsMade(ls[l]) == Instances(cfg) * Launched(ls[l]) <==>
                forall c :: 0 <= c < |ls[l].children| ==> |ls[l].children[c].log| == Instances(cfg)
      ensures ResultsPending(ls[l]) == 0 <==> forall c :: 0 <= c < |ls[l].children| ==> ls[l].children[c].outbox == []
    {
      ResultsOfListener(cfg, Rank(s.phase), ls[l]);
    }
    SumCapped(ls, ResultsMade, Launched, Instances(cfg));
    SumNonNegative(ls, ResultsPending);
    if AllEmitted(cfg, s) {
      forall l | 0 <= l < |ls| ensures ResultsMade(ls[l]) == Instances(cfg) * Launched(ls[l]) {
        assert forall c :: 0 <= c < |ls[l].children| ==> IsChild(s, l, c);
      }
      ScaledSum(ls, ResultsMade, Launched, Instances(cfg));
    }
    if NonePending(s) {
      forall l | 0 <= l < |ls| ensures ResultsPending(ls[l]) == 0 {
        assert forall c :: 0 <= c < |ls[l].children| ==> IsChild(s, l, c);
      }
      AllZero(ls, ResultsPending);
    }
    if Sum(ls, ResultsPending) == 0 {
      forall l | 0 <= l < |ls| ensures ResultsPending(ls[l]) == 0 {
      }
    }
  }

  lemma {:induction false} ScaledSum<T>(s: seq<T>, f: T -> int, g: T -> int, k: int)
    requires forall i :: 0 <= i < |s| ==> f(s[i]) == k * g(s[i])
    ensures Sum(s, f) == k * Sum(s, g)
  {
    if s != [] {
      var n := |s| - 1;
      ScaledSum(s[..n], f, g, k);
      assert k * (Sum(s[..n], g) + g(s[n])) == k * Sum(s[..n], g) + k * g(s[n]);
    }
  }

  lemma ScaleMonotone(k: nat, a: int, b: int)
    requires a <= b
    ensures k * a <= k * b
  {
  }

  /** In every reachable state the controller has received at most
      machines * processes * instances results. */
  lemma ResultsAtMost(cfg: Config, s: System)
    requires Reachable(cfg, s)
    ensures s.taken <= |s.arrived|
    ensures 0 <= Results(Consumed(s)) <= Expected(cfg)
  {
    hide ListenerInv, Sum, Quota, Listeners, Results;
    ReachableInv(cfg, s);
    ListenerBarrier(cfg, s);
    MadeAndPending(cfg, s);
    ConsumedResults(s.arrived, s.taken);
    ScaleMonotone(Instances(cfg), TotalLaunched(s), Quota(cfg));
  }

  /** Result conservation, exactly: once the work is published, the controller has
      received every result if and only if every child has sent all of its results,
      none is on its way, and none is unread at the sink. */
  lemma ResultConservation(cfg: Config, s: System)
    requires Reachable(cfg, s) && Rank(s.phase) >= 2
    ensures s.taken <= |s.arrived|
    ensures Results(Consumed(s)) == Expected(cfg) <==>
              AllEmitted(cfg, s) && NonePending(s) && NoneUnread(s)
  {
    hide ListenerInv, Sum, Quota, Results, AllEmitted, NonePending;
    ReachableInv(cfg, s);
    AllLaunched(cfg, s);
    MadeAndPending(cfg, s);
    ConsumedResults(s.arrived, s.taken);
  }

  // ----- exactly once, per sender -----

  /** The results from one child, in the order the sink received them. */
  function ResultsFrom(arrived: seq<Arrival>, l: nat, c: nat): seq<Ending> {
    if arrived == [] then []
    else
      var a := arrived[|arrived| - 1];
      ResultsFrom(arrived[..|arrived| - 1], l, c) +
      (if a.ResultOf? && a.listener == l && a.child == c then [a.ending] else [])
  }

  lemma ResultsFromSnoc(arrived: seq<Arrival>, a: Arrival, l: nat, c: nat)
    ensures ResultsFrom(arrived + [a], l, c) ==
            ResultsFrom(arrived, l, c) + if a.ResultOf? && a.listener == l && a.child == c then [a.ending] else []
  {
    assert (arrived + [a])[..|arrived|] == arrived;
  }

  /** Sent by child (l, c) so far, and still on its way; nothing if there is none. */
  function Sent(ls: seq<Listener>, l: nat, c: nat): seq<Ending> {
    if l < |ls| && c < |ls[l].children| then ls[l].children[c].log else []
  }

  function Underway(ls: seq<Listener>, l: nat, c: nat): seq<Ending> {
    if l < |ls| && c < |ls[l].children| then ls[l].children[c].outbox else []
  }

  ghost predicate Fifo(s: System, l: nat, c: nat) {
    ResultsFrom(s.arrived, l, c) + Underway(s.listeners, l, c) == Sent(s.listeners, l, c)
  }

  /** Both logs of every child are the same in two states. */
  ghost predicate SameLogs(ls: seq<Listener>, ls': seq<Listener>, l: nat, c: nat) {
    Sent(ls', l, c) == Sent(ls, l, c) && Underway(ls', l, c) == Underway(ls, l, c)
  }

  lemma PublishKeepsLogs(ls: seq<Listener>, p: Publication, l: nat, c: nat)
    ensures SameLogs(ls, Publish(ls, p), l, c)
  {
  }

  lemma SetKeepsLogs(ls: seq<Listener>, i: nat, x: Listener, l: nat, c: nat)
    requires i < |ls|
    requires |x.children| >= |ls[i].children|
    requires i == l && c < |ls[i].children| ==>
               && x.children[c].log == ls[i].children[c].log
               && x.children[c].outbox == ls[i].children[c].outbox
    requires forall j :: |ls[i].children| <= j < |x.children| ==> x.children[j] == NEW_CHILD
    ensures SameLogs(ls, ls[i := x], l, c)
  {
  }

  lemma MoveKeepsLogs(l: Listener, m: ListenerMove)
    requires ListenerCan(l, m)
    ensures var l' := ListenerDo(l, m);
            && |l'.children| >= |l.children|
            && (forall j :: 0 <= j < |l.children| ==>
                  l'.children[j].log == l.children[j].log && l'.children[j].outbox == l.children[j].outbox)
            && (forall j :: |l.children| <= j < |l'.children| ==> l'.children[j] == NEW_CHILD)
  {
  }

  lemma ChildDoLogs(c: Child, m: ChildMove)
    requires ChildCan(c, m)
    ensures m.Receive? ==> c.inbox != []
    ensures var more := if m.Emit? then [m.ending] else [];
            ChildDo(c, m).log == c.log + more && ChildDo(c, m).outbox == c.outbox + more
  {
  }

  /** An action other than an emission or a delivery by this child leaves both its
      logs alone. */
  lemma LogsKept(cfg: Config, s: System, a: Action, l: nat, c: nat)
    requires Enabled(cfg, s, a)
    requires a != DeliverResult(l, c) && !(a.ChildMoves? && a.l == l && a.c == c)
    ensures SameLogs(s.listeners, Step(cfg, s, a).listeners, l, c)
  {
    hide ListenerDo, ListenerCan, ChildDo, ChildCan, Exits, Quota, Publish, SameLogs;
    var ls := s.listeners;
    match a
    case GreetListeners => PublishKeepsLogs(ls, HelloListener, l, c);
    case StartListeners => PublishKeepsLogs(ls, StartProcesses(cfg.processes), l, c);
    case GreetChildren => PublishKeepsLogs(ls, HelloSocket, l, c);
    case StartChildren => PublishKeepsLogs(ls, StartWebsockets(cfg.work), l, c);
    case Finish => PublishKeepsLogs(ls, End, l, c);
    case Consume => NothingKeepsLogs(ls, l, c);
    case ListenerMoves(i, m) =>
      MoveKeepsLogs(ls[i], m);
      SetKeepsLogs(ls, i, ListenerDo(ls[i], m), l, c);
    case AnswerListener(i) => SetKeepsLogs(ls, i, ls[i].(stage := Replied), l, c);
    case DeliverReport(i) => SetKeepsLogs(ls, i, ls[i].(outbox := ls[i].outbox[1..]), l, c);
    case AnswerChild(i, j) => SetKeepsLogs(ls, i, Step(cfg, s, a).listeners[i], l, c);
    case ChildMoves(i, j, m) => SetKeepsLogs(ls, i, Step(cfg, s, a).listeners[i], l, c);
    case DeliverResult(i, j) => SetKeepsLogs(ls, i, Step(cfg, s, a).listeners[i], l, c);
  }

  lemma NothingKeepsLogs(ls: seq<Listener>, l: nat, c: nat)
    ensures SameLogs(ls, ls, l, c)
  {
  }

  lemma FifoDeliver(s: System, l: nat, c: nat)
    requires IsChild(s, l, c) && s.listeners[l].children[c].outbox != [] && Fifo(s, l, c)
    ensures var x := s.listeners[l].children[c];
            Fifo(SetChild(s, l, c, x.(outbox := x.outbox[1..])).(arrived := s.arrived + [ResultOf(l, c, x.outbox[0])]), l, c)
  {
    hide ResultsFrom;
    var x := s.listeners[l].children[c];
    ResultsFromSnoc(s.arrived, ResultOf(l, c, x.outbox[0]), l, c);
    assert x.outbox == [x.outbox[0]] + x.outbox[1..];
  }

  lemma FifoMove(s: System, l: nat, c: nat, m: ChildMove)
    requires IsChild(s, l, c) && ChildCan(s.listeners[l].children[c], m) && Fifo(s, l, c)
    ensures Fifo(SetChild(s, l, c, ChildDo(s.listeners[l].children[c], m)), l, c)
  {
    hide ChildDo, ChildCan, ResultsFrom;
    ChildDoLogs(s.listeners[l].children[c], m);
  }

  lemma FifoStep(cfg: Config, s: System, a: Action, l: nat, c: nat)
    requires Enabled(cfg, s, a) && Fifo(s, l, c)
    ensures Fifo(Step(cfg, s, a), l, c)
  {
    hide ChildDo, ChildCan, ListenerDo, ListenerCan, Publish, HearAll, Exits, Quota, ResultsFrom, Sent, Underway;
    if a == DeliverResult(l, c) {
      FifoDeliver(s, l, c);
    } else if a.ChildMoves? && a.l == l && a.c == c {
      FifoMove(s, l, c, a.cm);
    } else {
      LogsKept(cfg, s, a, l, c);
      if a.DeliverReport? {
        ResultsFromSnoc(s.arrived, FinishedBy(a.l, s.listeners[a.l].outbox[0]), l, c);
      } else if a.DeliverResult? {
        ResultsFromSnoc(s.arrived, ResultOf(a.l, a.c, s.listeners[a.l].children[a.c].outbox[0]), l, c);
      }
    }
  }

  lemma {:induction false} FifoRun(cfg: Config, s: System, trace: seq<Action>, s': System, l: nat, c: nat)
    requires Run(cfg, s, trace, s') && Fifo(s, l, c)
    ensures Fifo(s', l, c)
    decreases |trace|
  {
    hide Fifo, Step, Enabled;
    if trace != [] {
      FifoStep(cfg, s, trace[0], l, c);
      FifoRun(cfg, Step(cfg, s, trace[0]), trace[1..], s', l, c);
    }
  }

  lemma FifoInitial(n: nat, l: nat, c: nat)
    ensures Fifo(Initial(n), l, c)
  {
  }

  /** Exactly once: in every run and for every child, the results the sink has
      received from it followed by those still underway are the results it sent, in
      order. None is lost in between, duplicated, or taken for another child's. */
  lemma ExactlyOnce(cfg: Config, s: System, l: nat, c: nat)
    requires Reachable(cfg, s)
    ensures Fifo(s, l, c)
  {
    hide Run, Fifo;
    var n, trace :| Run(cfg, Initial(n), trace, s);
    FifoInitial(n, l, c);
    FifoRun(cfg, Initial(n), trace, s, l, c);
  }
}
