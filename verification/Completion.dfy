/** How far a run of the protocol is from its end: a measure that no action increases,
    and that every action decreases except HELLO publications and receives. It bounds
    the work of every run. */
module Completion {
  import opened Sums
  import opened Wire
  import opened Protocol
  import opened Invariant
  import opened Steps
  import T = Telemetry

  // ----- the distance to the end -----

  function StageWeight(st: Stage, greeted: bool): int {
    match st
    case AwaitHello => if greeted then 3 else 4
    case Requested => 2
    case Replied => 1
    case Synced => 0
  }

  function ChildWeight(cfg: Config, c: Child): int {
    (2 - c.active) + StageWeight(c.stage, HelloSocket in c.inbox)
    + (if c.work.Some? then 0 else 1)
    + 3 * (Instances(cfg) - |c.log|) + 2 * |c.outbox|
    + (if c.exit.Some? then 0 else 1) + (if c.reaped then 0 else 1)
  }

  function ChildWeights(cfg: Config): Child -> int { (c: Child) => ChildWeight(cfg, c) }

  function TaskWeight(t: Task): int {
    match t
    case Launching(_) => 3
    case Reaping => 2
    case Idle => 1
    case Ended => 0
  }

  /** What is still to come from children not yet launched. */
  function Unlaunched(cfg: Config, l: Listener): int {
    (cfg.processes - |l.children|) * (3 * Instances(cfg) + 10)
  }

  function OwnWeight(cfg: Config, l: Listener): int {
    (3 - l.active) + StageWeight(l.stage, HelloListener in l.inbox)
    + (if l.started then 0 else 3) + TaskWeight(l.task)
    + 3 * (cfg.processes - |l.reports|) + 2 * |l.outbox|
  }

  function ListenerWeight(cfg: Config, l: Listener): int {
    OwnWeight(cfg, l) + Unlaunched(cfg, l) + Sum(l.children, ChildWeights(cfg))
  }

  function ListenerWeights(cfg: Config): Listener -> int { (l: Listener) => ListenerWeight(cfg, l) }

  function Distance(cfg: Config, s: System): int {
    Sum(s.listeners, ListenerWeights(cfg)) + (|s.arrived| - s.taken) + (3 - Rank(s.phase))
  }

  function ChildInbox(c: Child): int { |c.inbox| }
  function ListenerInbox(l: Listener): int { |l.inbox| + Sum(l.children, ChildInbox) }

  /** Publications received and not yet read. */
  function Unread(s: System): int { Sum(s.listeners, ListenerInbox) }

  /** Closer to the end, or as close with fewer publications to read. */
  predicate Closer(m: int, n: int, m': int, n': int) {
    m' < m || (m' == m && n' < n)
  }

  // ----- productive actions -----

  /** A HELLO would reach this peer, and it has none to read. */
  predicate WantsHello(l: Listener) {
    l.stage == AwaitHello && l.active == 3 && HelloListener !in l.inbox
  }

  predicate ChildWantsHello(c: Child) {
    c.stage == AwaitHello && c.active == 2 && HelloSocket !in c.inbox
  }

  /** Everything but crashes, aborted work, failing waits, and HELLOs nobody needs. */
  ghost predicate Productive(s: System, a: Action) {
    match a
    case GreetListeners => exists l :: 0 <= l < |s.listeners| && WantsHello(s.listeners[l])
    case GreetChildren =>
      exists l: nat, c: nat :: IsChild(s, l, c) && ChildWantsHello(s.listeners[l].children[c])
    case ListenerMoves(_, m) => !m.ReapNone?
    case ChildMoves(_, _, m) => !m.Abandon? && !m.Crash?
    case _ => true
  }

  // ----- one child gets closer -----

  lemma ChildDoCloser(cfg: Config, rank: nat, c: Child, m: ChildMove)
    requires ChildInv(cfg, rank, c) && ChildCan(c, m)
    ensures Closer(ChildWeight(cfg, c), |c.inbox|, ChildWeight(cfg, ChildDo(c, m)), |ChildDo(c, m).inbox|)
    ensures m != Receive ==> ChildWeight(cfg, ChildDo(c, m)) < ChildWeight(cfg, c)
  {
    hide T.Final, Sum, Instances;
    if m.Receive? {
      assert c.inbox == [c.inbox[0]] + c.inbox[1..];
      assert HelloSocket in c.inbox <==> HelloSocket == c.inbox[0] || HelloSocket in c.inbox[1..];
    }
  }

  lemma ChildHearCloser(cfg: Config, c: Child, p: Publication)
    ensures ChildWeight(cfg, ChildHear(c, p)) <= ChildWeight(cfg, c)
    ensures p == HelloSocket && ChildWantsHello(c) ==> ChildWeight(cfg, ChildHear(c, p)) < ChildWeight(cfg, c)
  {
    hide Instances;
    assert HelloSocket in c.inbox ==> HelloSocket in c.inbox + [p];
    assert p in c.inbox + [p];
  }

  lemma ChildWeightNonNegative(cfg: Config, rank: nat, c: Child)
    requires ChildInv(cfg, rank, c)
    ensures ChildWeight(cfg, c) >= 0
  {
    hide T.Final, Sum, Instances;
  }

  // ----- one listener gets closer -----

  /** Replacing one child by a closer one. */
  lemma WithChildCloser(cfg: Config, l: Listener, c: nat, y: Child)
    requires c < |l.children|
    requires Closer(ChildWeight(cfg, l.children[c]), |l.children[c].inbox|, ChildWeight(cfg, y), |y.inbox|)
    ensures var l' := WithChild(l, c, y);
            && Closer(ListenerWeight(cfg, l), ListenerInbox(l), ListenerWeight(cfg, l'), ListenerInbox(l'))
            && (ChildWeight(cfg, y) < ChildWeight(cfg, l.children[c]) ==> ListenerWeight(cfg, l') < ListenerWeight(cfg, l))
  {
    hide Sum, ChildWeight, Instances;
    SumUpdate(l.children, c, y, ChildWeights(cfg));
    SumUpdate(l.children, c, y, ChildInbox);
  }

  lemma LaunchCloser(cfg: Config, l: Listener)
    requires l.task.Launching? && l.task.target == cfg.processes
    ensures ListenerWeight(cfg, ListenerDo(l, Launch)) < ListenerWeight(cfg, l)
  {
    hide Sum, Instances;
    if |l.children| < l.task.target {
      SumSnoc(l.children, NEW_CHILD, ChildWeights(cfg));
      assert ChildWeight(cfg, NEW_CHILD) == 3 * Instances(cfg) + 9;
      var l' := ListenerDo(l, Launch);
      OneFewer(cfg.processes - |l.children|, 3 * Instances(cfg) + 10);
      assert OwnWeight(cfg, l') == OwnWeight(cfg, l);
    }
  }

  lemma OneFewer(n: int, w: int)
    ensures (n - 1) * w == n * w - w
  {
  }

  lemma ReapCloser(cfg: Config, l: Listener, c: nat)
    requires ListenerCan(l, Reap(c))
    ensures ListenerWeight(cfg, ReapChild(l, c)) < ListenerWeight(cfg, l)
  {
    hide Sum, Instances;
    SumUpdate(l.children, c, l.children[c].(reaped := true), ChildWeights(cfg));
  }

  lemma SimpleMoveCloser(cfg: Config, l: Listener, m: ListenerMove)
    requires ListenerCan(l, m) && m in {ListenerSubscribe, ListenerReceive, ListenerTakeReply, StopReaping}
    requires l.stage == AwaitHello || l.stage == Replied || l.stage == Synced || m == ListenerSubscribe
    requires m == ListenerReceive && l.stage == Synced && l.inbox[0].StartProcesses? ==> !l.started
    ensures var l' := ListenerDo(l, m);
            && Closer(ListenerWeight(cfg, l), ListenerInbox(l), ListenerWeight(cfg, l'), ListenerInbox(l'))
            && (m != ListenerReceive ==> ListenerWeight(cfg, l') < ListenerWeight(cfg, l))
  {
    hide Sum, Instances, Unlaunched;
    if m == ListenerReceive {
      assert l.inbox == [l.inbox[0]] + l.inbox[1..];
      assert HelloListener in l.inbox <==> HelloListener == l.inbox[0] || HelloListener in l.inbox[1..];
    }
    assert ListenerDo(l, m).children == l.children;
    assert Unlaunched(cfg, ListenerDo(l, m)) == Unlaunched(cfg, l) by {
      UnlaunchedSame(cfg, l, ListenerDo(l, m));
    }
  }

  lemma UnlaunchedSame(cfg: Config, l: Listener, x: Listener)
    requires |x.children| == |l.children|
    ensures Unlaunched(cfg, x) == Unlaunched(cfg, l)
  {
  }

  /** StartProcesses is heard once, so a listener that reads it has not started. */
  lemma StartsOnce(cfg: Config, rank: nat, l: Listener)
    requires ListenerHeard(cfg, rank, l) && l.inbox != [] && l.inbox[0].StartProcesses? && Answered(l.stage)
    ensures !l.started
  {
    SumFirst(l.inbox, IsStart);
    SumNonNegative(l.inbox[1..], IsStart);
  }

  lemma ListenerDoCloser(cfg: Config, rank: nat, l: Listener, m: ListenerMove)
    requires ListenerInv(cfg, rank, l) && ListenerCan(l, m) && !m.ReapNone?
    ensures var l' := ListenerDo(l, m);
            && Closer(ListenerWeight(cfg, l), ListenerInbox(l), ListenerWeight(cfg, l'), ListenerInbox(l'))
            && (m != ListenerReceive ==> ListenerWeight(cfg, l') < ListenerWeight(cfg, l))
  {
    hide Sum, ListenerWeight, ListenerInbox, ReapChild, ReceiveAsListener, ChildInv, Reported;
    match m
    case Launch => LaunchCloser(cfg, l);
    case Reap(c) => ReapCloser(cfg, l, c);
    case ListenerReceive =>
      if l.stage == Synced && l.inbox[0].StartProcesses? {
        StartsOnce(cfg, rank, l);
      }
      SimpleMoveCloser(cfg, l, m);
    case ListenerSubscribe => SimpleMoveCloser(cfg, l, m);
    case ListenerTakeReply => SimpleMoveCloser(cfg, l, m);
    case StopReaping => SimpleMoveCloser(cfg, l, m);
  }

  lemma {:induction false} SumMonotone<A, B>(s: seq<A>, f: A -> int, t: seq<B>, g: B -> int)
    requires |s| == |t|
    requires forall i :: 0 <= i < |s| ==> f(s[i]) <= g(t[i])
    ensures Sum(s, f) <= Sum(t, g)
    ensures (exists i :: 0 <= i < |s| && f(s[i]) < g(t[i])) ==> Sum(s, f) < Sum(t, g)
    decreases |s|
  {
    if s != [] {
      var n := |s| - 1;
      SumMonotone(s[..n], f, t[..n], g);
      if i :| 0 <= i < |s| && f(s[i]) < g(t[i]) {
        if i < n {
          assert f(s[..n][i]) < g(t[..n][i]);
        }
      }
    }
  }

  /** A publication never takes a listener further away; a HELLO brings those that
      want it closer. */
  lemma HearCloser(cfg: Config, l: Listener, p: Publication)
    ensures ListenerWeight(cfg, ListenerHear(l, p)) <= ListenerWeight(cfg, l)
    ensures p == HelloListener && WantsHello(l) ==> ListenerWeight(cfg, ListenerHear(l, p)) < ListenerWeight(cfg, l)
    ensures p == HelloSocket && (exists c :: 0 <= c < |l.children| && ChildWantsHello(l.children[c])) ==>
              ListenerWeight(cfg, ListenerHear(l, p)) < ListenerWeight(cfg, l)
  {
    hide Sum, ChildWeight, ChildHear, HearAll, Unlaunched;
    var l' := ListenerHear(l, p);
    forall c | 0 <= c < |l.children|
      ensures ChildWeight(cfg, l'.children[c]) <= ChildWeight(cfg, l.children[c])
      ensures p == HelloSocket && ChildWantsHello(l.children[c]) ==>
                ChildWeight(cfg, l'.children[c]) < ChildWeight(cfg, l.children[c])
    {
      ChildHearCloser(cfg, l.children[c], p);
    }
    SumMonotone(l'.children, ChildWeights(cfg), l.children, ChildWeights(cfg));
    UnlaunchedSame(cfg, l, l');
    assert HelloListener in l.inbox ==> HelloListener in l.inbox + [p];
    assert p in l.inbox + [p];
  }

  lemma ListenerWeightNonNegative(cfg: Config, rank: nat, l: Listener)
    requires ListenerInv(cfg, rank, l)
    ensures ListenerWeight(cfg, l) >= 0
  {
    hide Sum, ChildWeight, ChildInv, Reported;
    LaunchedCap(cfg, rank, l);
    ChildrenWeightNonNegative(cfg, rank, l);
    CapHolds(cfg.processes, IsAnswered(l));
    NonNegativeProduct(cfg.processes - |l.children|, 3 * Instances(cfg) + 10);
  }

  lemma CapHolds(p: nat, b: int)
    requires 0 <= b <= 1
    ensures p * b <= p
  {
  }

  lemma NonNegativeProduct(a: int, b: int)
    requires a >= 0 && b >= 0
    ensures a * b >= 0
  {
  }

  lemma ChildrenWeightNonNegative(cfg: Config, rank: nat, l: Listener)
    requires ListenerInv(cfg, rank, l)
    ensures Sum(l.children, ChildWeights(cfg)) >= 0
  {
    hide ChildInv, ChildWeight, ListenerHeard, ListenerWork;
    forall c | 0 <= c < |l.children| ensures ChildWeight(cfg, l.children[c]) >= 0 {
      ChildWeightNonNegative(cfg, rank, l.children[c]);
    }
    SumNonNegative(l.children, ChildWeights(cfg));
  }

  // ----- the system gets closer -----

  lemma DistanceNonNegative(cfg: Config, s: System)
    requires Inv(cfg, s)
    ensures Distance(cfg, s) >= 0 && Unread(s) >= 0
  {
    hide ListenerInv, ListenerWeight, ListenerInbox, Sum;
    forall l | 0 <= l < |s.listeners| ensures ListenerWeight(cfg, s.listeners[l]) >= 0 && ListenerInbox(s.listeners[l]) >= 0 {
      ListenerWeightNonNegative(cfg, Rank(s.phase), s.listeners[l]);
      InboxNonNegative(s.listeners[l]);
    }
    SumNonNegative(s.listeners, ListenerWeights(cfg));
    SumNonNegative(s.listeners, ListenerInbox);
  }

  lemma InboxNonNegative(l: Listener)
    ensures ListenerInbox(l) >= 0
  {
    SumNonNegative(l.children, ChildInbox);
  }

  lemma SetCloser(cfg: Config, s: System, l: nat, x: Listener)
    requires l < |s.listeners|
    requires Closer(ListenerWeight(cfg, s.listeners[l]), ListenerInbox(s.listeners[l]), ListenerWeight(cfg, x), ListenerInbox(x))
    ensures var s' := SetListener(s, l, x);
            && Closer(Distance(cfg, s), Unread(s), Distance(cfg, s'), Unread(s'))
            && (ListenerWeight(cfg, x) < ListenerWeight(cfg, s.listeners[l]) ==> Distance(cfg, s') < Distance(cfg, s))
  {
    hide Sum, ListenerWeight, ListenerInbox;
    SumUpdate(s.listeners, l, x, ListenerWeights(cfg));
    SumUpdate(s.listeners, l, x, ListenerInbox);
  }

  lemma SetChildCloser(cfg: Config, s: System, l: nat, c: nat, y: Child)
    requires IsChild(s, l, c)
    requires var was := s.listeners[l].children[c];
             Closer(ChildWeight(cfg, was), |was.inbox|, ChildWeight(cfg, y), |y.inbox|)
    ensures var s' := SetChild(s, l, c, y);
            && Closer(Distance(cfg, s), Unread(s), Distance(cfg, s'), Unread(s'))
            && (ChildWeight(cfg, y) < ChildWeight(cfg, s.listeners[l].children[c]) ==> Distance(cfg, s') < Distance(cfg, s))
  {
    hide ListenerWeight, ListenerInbox, ChildWeight, Distance, Unread;
    WithChildCloser(cfg, s.listeners[l], c, y);
    SetCloser(cfg, s, l, WithChild(s.listeners[l], c, y));
  }

  /** Publishing never takes the system further from its end. */
  lemma PublishCloser(cfg: Config, ls: seq<Listener>, p: Publication)
    ensures Sum(Publish(ls, p), ListenerWeights(cfg)) <= Sum(ls, ListenerWeights(cfg))
    ensures p == HelloListener && (exists l :: 0 <= l < |ls| && WantsHello(ls[l])) ==>
              Sum(Publish(ls, p), ListenerWeights(cfg)) < Sum(ls, ListenerWeights(cfg))
    ensures p == HelloSocket && (exists l, c :: 0 <= l < |ls| && 0 <= c < |ls[l].children| && ChildWantsHello(ls[l].children[c])) ==>
              Sum(Publish(ls, p), ListenerWeights(cfg)) < Sum(ls, ListenerWeights(cfg))
  {
    hide ListenerWeight, ListenerHear, Publish, Sum;
    var ps := Publish(ls, p);
    forall l | 0 <= l < |ls|
      ensures ListenerWeight(cfg, ps[l]) <= ListenerWeight(cfg, ls[l])
      ensures p == HelloListener && WantsHello(ls[l]) ==> ListenerWeight(cfg, ps[l]) < ListenerWeight(cfg, ls[l])
      ensures p == HelloSocket && (exists c :: 0 <= c < |ls[l].children| && ChildWantsHello(ls[l].children[c])) ==>
                ListenerWeight(cfg, ps[l]) < ListenerWeight(cfg, ls[l])
    {
      HearCloser(cfg, ls[l], p);
    }
    SumMonotone(ps, ListenerWeights(cfg), ls, ListenerWeights(cfg));
  }

  lemma DeliverResultCloser(cfg: Config, s: System, l: nat, c: nat)
    requires Enabled(cfg, s, DeliverResult(l, c))
    ensures Distance(cfg, Step(cfg, s, DeliverResult(l, c))) < Distance(cfg, s)
  {
    hide Sum, Unlaunched, Instances;
    var was := s.listeners[l].children[c];
    var y := was.(outbox := was.outbox[1..]);
    var x := WithChild(s.listeners[l], c, y);
    SumUpdate(s.listeners[l].children, c, y, ChildWeights(cfg));
    SumUpdate(s.listeners, l, x, ListenerWeights(cfg));
    UnlaunchedSame(cfg, s.listeners[l], x);
    assert ChildWeight(cfg, y) == ChildWeight(cfg, was) - 2;
  }

  lemma DeliverReportCloser(cfg: Config, s: System, l: nat)
    requires Enabled(cfg, s, DeliverReport(l))
    ensures Distance(cfg, Step(cfg, s, DeliverReport(l))) < Distance(cfg, s)
  {
    hide Sum, Unlaunched;
    var x := s.listeners[l].(outbox := s.listeners[l].outbox[1..]);
    SumUpdate(s.listeners, l, x, ListenerWeights(cfg));
    UnlaunchedSame(cfg, s.listeners[l], x);
  }

  lemma AnswerListenerCloser(cfg: Config, s: System, l: nat)
    requires Enabled(cfg, s, AnswerListener(l))
    ensures Distance(cfg, Step(cfg, s, AnswerListener(l))) < Distance(cfg, s)
  {
    hide Sum, Unlaunched;
    var x := s.listeners[l].(stage := Replied);
    SumUpdate(s.listeners, l, x, ListenerWeights(cfg));
    UnlaunchedSame(cfg, s.listeners[l], x);
  }

  lemma AnswerChildCloser(cfg: Config, s: System, l: nat, c: nat)
    requires Enabled(cfg, s, AnswerChild(l, c))
    ensures var s' := Step(cfg, s, AnswerChild(l, c));
            && Closer(Distance(cfg, s), Unread(s), Distance(cfg, s'), Unread(s'))
            && Distance(cfg, s') < Distance(cfg, s)
  {
    hide Sum, ListenerWeight, ListenerInbox, Instances, Quota;
    SetChildCloser(cfg, s, l, c, s.listeners[l].children[c].(stage := Replied));
  }

  /** The actions of which every run takes a bounded number. */
  predicate Works(a: Action) {
    match a
    case GreetListeners => false
    case GreetChildren => false
    case ListenerMoves(_, m) => m != ListenerReceive
    case ChildMoves(_, _, m) => m != Receive
    case _ => true
  }

  /** No action, crashes included, takes the system further from its end, and every
      productive one brings it closer: so no run of productive actions is infinite. */
  lemma StepCloser(cfg: Config, s: System, a: Action)
    requires Inv(cfg, s) && Enabled(cfg, s, a)
    ensures var s' := Step(cfg, s, a);
            && Distance(cfg, s') <= Distance(cfg, s)
            && (Works(a) ==> Distance(cfg, s') < Distance(cfg, s))
            && (Productive(s, a) ==> Closer(Distance(cfg, s), Unread(s), Distance(cfg, s'), Unread(s')))
  {
    hide Sum, ListenerInv, ListenerWeight, ListenerInbox, ChildWeight, ChildInv, Quota, Publish, Exits,
         ListenerDo, ListenerCan, ChildDo, ChildCan, Unread;
    match a
    case GreetListeners => PublishCloser(cfg, s.listeners, HelloListener);
    case StartListeners => PublishCloser(cfg, s.listeners, StartProcesses(cfg.processes));
    case GreetChildren => PublishCloser(cfg, s.listeners, HelloSocket);
    case StartChildren => PublishCloser(cfg, s.listeners, StartWebsockets(cfg.work));
    case Finish => PublishCloser(cfg, s.listeners, End);
    case Consume =>
    case AnswerListener(l) => AnswerListenerCloser(cfg, s, l);
    case AnswerChild(l, c) => AnswerChildCloser(cfg, s, l, c);
    case ListenerMoves(l, m) =>
      WaitSucceeds(cfg, s, l, m);
      ListenerDoCloser(cfg, Rank(s.phase), s.listeners[l], m);
      SetCloser(cfg, s, l, ListenerDo(s.listeners[l], m));
    case ChildMoves(l, c, m) =>
      ChildOf(cfg, s, l, c);
      ChildDoCounts(s.listeners[l].children[c], m);
      ChildDoCloser(cfg, Rank(s.phase), s.listeners[l].children[c], m);
      SetChildCloser(cfg, s, l, c, ChildDo(s.listeners[l].children[c], m));
    case DeliverReport(l) => DeliverReportCloser(cfg, s, l);
    case DeliverResult(l, c) => DeliverResultCloser(cfg, s, l, c);
  }

  lemma WaitSucceeds(cfg: Config, s: System, l: nat, m: ListenerMove)
    requires Inv(cfg, s) && Enabled(cfg, s, ListenerMoves(l, m))
    ensures !m.ReapNone?
  {
    hide ListenerInv, Barrier, SinkInv;
    if m.ReapNone? {
      NothingToReapIsImpossible(cfg, Rank(s.phase), s.listeners[l], m.status);
    }
  }

  lemma ProductiveCloser(cfg: Config, s: System, a: Action)
    requires Inv(cfg, s) && Enabled(cfg, s, a) && Productive(s, a)
    ensures var s' := Step(cfg, s, a);
            Closer(Distance(cfg, s), Unread(s), Distance(cfg, s'), Unread(s'))
  {
    hide Inv, Step, Enabled, Productive, Distance, Unread;
    StepCloser(cfg, s, a);
  }

  function Work(trace: seq<Action>): nat {
    if trace == [] then 0 else (if Works(trace[0]) then 1 else 0) + Work(trace[1..])
  }

  lemma {:induction false} WorkBounded(cfg: Config, s: System, trace: seq<Action>, s': System)
    requires Inv(cfg, s) && Run(cfg, s, trace, s')
    ensures Work(trace) <= Distance(cfg, s) - Distance(cfg, s')
    decreases |trace|
  {
    hide Inv, Step, Enabled, Distance, Works;
    if trace != [] {
      StepCloser(cfg, s, trace[0]);
      InvStep(cfg, s, trace[0]);
      WorkBounded(cfg, Step(cfg, s, trace[0]), trace[1..], s');
    }
  }

  lemma InitialDistance(cfg: Config, n: nat)
    ensures Distance(cfg, Initial(n)) == n * (11 + cfg.processes * (3 * Instances(cfg) + 13)) + 3
  {
    hide Instances;
    var w := 11 + cfg.processes * (3 * Instances(cfg) + 13);
    assert ListenerWeight(cfg, NEW_LISTENER) == w by {
      assert cfg.processes * (3 * Instances(cfg) + 13) ==
             cfg.processes * (3 * Instances(cfg) + 10) + 3 * cfg.processes;
    }
    SumScaled(Initial(n).listeners, ListenerWeights(cfg), w);
  }

  /** The work of a run: with n listeners, every run whatsoever takes at most this many
      actions other than publishing HELLO and receiving. */
  lemma WorkOfAnyRun(cfg: Config, n: nat, trace: seq<Action>, s: System)
    requires Run(cfg, Initial(n), trace, s)
    ensures Work(trace) <= n * (11 + cfg.processes * (3 * Instances(cfg) + 13)) + 3
  {
    hide Inv, Run, Distance, Unread, Instances, Work;
    InvInitial(cfg, n);
    InvRun(cfg, Initial(n), trace, s);
    WorkBounded(cfg, Initial(n), trace, s);
    DistanceNonNegative(cfg, s);
    InitialDistance(cfg, n);
  }
}
