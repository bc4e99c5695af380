/** One iteration of the coordination protocol: a controller, any number of
    listeners, and the child processes they launch, as one transition system. */
module Protocol {
  import opened Sums
  import opened Wire
  import Telemetry
  import Report

  datatype Config = Config(machines: nat, processes: nat, work: Work)

  function Instances(cfg: Config): nat {
    if cfg.work.instances < 0 then 0 else cfg.work.instances
  }

  function Quota(cfg: Config): nat { cfg.machines * cfg.processes }

  // ----- state -----

  /** How far a peer is in its HELLO loop and its one request on the sync socket. */
  datatype Stage =
    | AwaitHello   // receiving, waiting for HELLO
    | Requested    // request sent, blocked on the reply
    | Replied      // the reply is on its way, still blocked
    | Synced       // past the reply

  /** What one connection ended as, and its setup time. */
  datatype Ending = Ending(client: Telemetry.Client, setup: Report.Double)

  /** `active` subscriptions have arrived at the publisher, in the order they were
      made; `inbox` holds the publications that reached this peer and are unread.
      `log` is every result sent so far, `outbox` those still on their way. */
  datatype Child = Child(
    stage: Stage,
    active: nat,
    inbox: seq<Publication>,
    work: Option<Work>,
    log: seq<Ending>,
    outbox: seq<Ending>,
    exit: Option<int>,
    reaped: bool)

  const NEW_CHILD := Child(AwaitHello, 0, [], None, [], [], None, false)

  /** The exit report for one wait: which child, and its wait status. */
  datatype ExitReport = ExitReport(child: int, status: int)

  datatype Task = Idle | Launching(target: int) | Reaping | Ended

  datatype Listener = Listener(
    stage: Stage,
    task: Task,
    active: nat,
    inbox: seq<Publication>,
    started: bool,
    children: seq<Child>,
    unfinished: int,
    reports: seq<ExitReport>,
    outbox: seq<ExitReport>)

  const NEW_LISTENER := Listener(AwaitHello, Idle, 0, [], false, [], 0, [], [])

  /** A message at the sink, with the sender it came from. */
  datatype Arrival =
    | ResultOf(listener: nat, child: nat, ending: Ending)
    | FinishedBy(listener: nat, report: ExitReport)

  datatype Phase = SyncListeners | SyncChildren | Drain | Over

  function Rank(ph: Phase): nat {
    match ph
    case SyncListeners => 0
    case SyncChildren => 1
    case Drain => 2
    case Over => 3
  }

  /** `arrived` is every message the sink has received, in order of arrival; the
      controller has consumed the first `taken`. */
  datatype System = System(
    phase: Phase,
    subscribers: nat,
    processes: nat,
    listeners: seq<Listener>,
    arrived: seq<Arrival>,
    taken: nat)

  function Initial(n: nat): System {
    System(SyncListeners, 0, 0, seq(n, i => NEW_LISTENER), [], 0)
  }

  // ----- children -----

  datatype ChildMove =
    | Subscribe
    | Receive
    | TakeReply
    | Emit(ending: Ending)
    | Exit
    | Abandon           // an exception cuts the work short; the process still exits 0
    | Crash(status: int)

  predicate Answered(st: Stage) { st == Replied || st == Synced }

  ghost predicate ChildCan(c: Child, m: ChildMove) {
    && c.exit.None?
    && match m
       case Subscribe => c.active < 2
       case Receive => c.inbox != [] && (c.stage == AwaitHello || (c.stage == Synced && c.work.None?))
       case TakeReply => c.stage == Replied
       case Emit(e) =>
         && c.work.Some? && |c.log| < c.work.value.instances
         && Telemetry.Final(c.work.value.messages, e.client)
       case Exit => c.work.Some? && |c.log| >= c.work.value.instances
       case Abandon => c.work.Some? && |c.log| < c.work.value.instances
       case Crash(status) => status != 0
  }

  function ChildReceive(c: Child): Child
    requires c.inbox != []
  {
    var p, c' := c.inbox[0], c.(inbox := c.inbox[1..]);
    if c.stage == AwaitHello then
      if p.HelloSocket? then c'.(stage := Requested) else c'
    else
      if p.StartWebsockets? then c'.(work := Some(p.work)) else c'
  }

  function ChildDo(c: Child, m: ChildMove): Child
    requires m.Receive? ==> c.inbox != []
  {
    match m
    case Subscribe => c.(active := c.active + 1)
    case Receive => ChildReceive(c)
    case TakeReply => c.(stage := Synced)
    case Emit(e) => c.(log := c.log + [e], outbox := c.outbox + [e])
    case Exit => c.(exit := Some(0))
    case Abandon => c.(exit := Some(0))
    case Crash(status) => c.(exit := Some(status))
  }

  function ChildHear(c: Child, p: Publication): Child {
    if ChildHears(c.active, p) then c.(inbox := c.inbox + [p]) else c
  }

  // ----- listeners -----

  datatype ListenerMove =
    | ListenerSubscribe
    | ListenerReceive
    | ListenerTakeReply
    | Launch
    | Reap(child: nat)
    | ReapNone(status: int)   // the wait fails: there is no child left to wait for
    | StopReaping

  predicate ListenerCan(l: Listener, m: ListenerMove) {
    match m
    case ListenerSubscribe => l.active < 3
    case ListenerReceive => l.inbox != [] && (l.stage == AwaitHello || (l.stage == Synced && l.task == Idle))
    case ListenerTakeReply => l.stage == Replied
    case Launch => l.task.Launching?
    case Reap(c) =>
      && l.task == Reaping && l.unfinished > 0
      && c < |l.children| && l.children[c].exit.Some? && !l.children[c].reaped
    case ReapNone(_) =>
      && l.task == Reaping && l.unfinished > 0
      && forall c :: 0 <= c < |l.children| ==> l.children[c].reaped
    case StopReaping => l.task == Reaping && l.unfinished <= 0
  }

  function ReceiveAsListener(l: Listener): Listener
    requires l.inbox != []
  {
    var p, l' := l.inbox[0], l.(inbox := l.inbox[1..]);
    if l.stage == AwaitHello then
      if p.HelloListener? then l'.(stage := Requested) else l'
    else match p
      case End => l'.(task := Ended)
      case StartProcesses(n) => l'.(task := Launching(n), started := true)
      case _ => l'
  }

  function SendReport(l: Listener, r: ExitReport): Listener {
    l.(unfinished := l.unfinished - 1, reports := l.reports + [r], outbox := l.outbox + [r])
  }

  function ReapChild(l: Listener, c: nat): Listener
    requires c < |l.children| && l.children[c].exit.Some?
  {
    SendReport(l.(children := l.children[c := l.children[c].(reaped := true)]),
               ExitReport(c, l.children[c].exit.value))
  }

  function ListenerDo(l: Listener, m: ListenerMove): Listener
    requires ListenerCan(l, m)
  {
    match m
    case ListenerSubscribe => l.(active := l.active + 1)
    case ListenerReceive => ReceiveAsListener(l)
    case ListenerTakeReply => l.(stage := Synced)
    case Launch =>
      if |l.children| < l.task.target then l.(children := l.children + [NEW_CHILD])
      else l.(task := Reaping, unfinished := l.task.target)
    case Reap(c) => ReapChild(l, c)
    case ReapNone(status) => SendReport(l, ExitReport(-1, status))
    case StopReaping => l.(task := Idle)
  }

  function HearAll(cs: seq<Child>, p: Publication): (r: seq<Child>)
    ensures |r| == |cs| && forall i :: 0 <= i < |cs| ==> r[i] == ChildHear(cs[i], p)
  {
    if cs == [] then [] else HearAll(cs[..|cs| - 1], p) + [ChildHear(cs[|cs| - 1], p)]
  }

  function ListenerHear(l: Listener, p: Publication): Listener {
    l.(inbox := if ListenerHears(l.active, p) then l.inbox + [p] else l.inbox,
       children := HearAll(l.children, p))
  }

  function Publish(ls: seq<Listener>, p: Publication): (r: seq<Listener>)
    ensures |r| == |ls| && forall i :: 0 <= i < |ls| ==> r[i] == ListenerHear(ls[i], p)
  {
    if ls == [] then [] else Publish(ls[..|ls| - 1], p) + [ListenerHear(ls[|ls| - 1], p)]
  }

  // ----- the whole system -----

  datatype Action =
    | GreetListeners
    | AnswerListener(l: nat)
    | StartListeners
    | GreetChildren
    | AnswerChild(l: nat, c: nat)
    | StartChildren
    | Consume
    | Finish
    | ListenerMoves(l: nat, lm: ListenerMove)
    | ChildMoves(l: nat, c: nat, cm: ChildMove)
    | DeliverReport(l: nat)
    | DeliverResult(l: nat, c: nat)

  function IsExit(a: Arrival): int { if a.FinishedBy? then 1 else 0 }
  function Exits(arrivals: seq<Arrival>): int { Sum(arrivals, IsExit) }

  /** What the controller has consumed from the sink. */
  function Consumed(s: System): seq<Arrival>
    requires s.taken <= |s.arrived|
  {
    s.arrived[..s.taken]
  }

  predicate IsChild(s: System, l: nat, c: nat) {
    l < |s.listeners| && c < |s.listeners[l].children|
  }

  ghost predicate Enabled(cfg: Config, s: System, a: Action) {
    match a
    case GreetListeners => s.phase == SyncListeners && s.subscribers < cfg.machines
    case AnswerListener(l) =>
      && s.phase == SyncListeners && s.subscribers < cfg.machines
      && l < |s.listeners| && s.listeners[l].stage == Requested
    case StartListeners => s.phase == SyncListeners && s.subscribers >= cfg.machines
    case GreetChildren => s.phase == SyncChildren && s.processes < Quota(cfg)
    case AnswerChild(l, c) =>
      && s.phase == SyncChildren && s.processes < Quota(cfg)
      && IsChild(s, l, c) && s.listeners[l].children[c].stage == Requested
    case StartChildren => s.phase == SyncChildren && s.processes >= Quota(cfg)
    case Consume =>
      && s.phase == Drain && s.taken < |s.arrived| && Exits(Consumed(s)) < Quota(cfg)
    case Finish =>
      && s.phase == Drain && s.taken <= |s.arrived| && Exits(Consumed(s)) >= Quota(cfg)
    case ListenerMoves(l, m) => l < |s.listeners| && s.listeners[l].task != Ended && ListenerCan(s.listeners[l], m)
    case ChildMoves(l, c, m) => IsChild(s, l, c) && ChildCan(s.listeners[l].children[c], m)
    case DeliverReport(l) => l < |s.listeners| && s.listeners[l].outbox != []
    case DeliverResult(l, c) => IsChild(s, l, c) && s.listeners[l].children[c].outbox != []
  }

  function SetListener(s: System, l: nat, x: Listener): System
    requires l < |s.listeners|
  {
    s.(listeners := s.listeners[l := x])
  }

  function WithChild(l: Listener, c: nat, x: Child): Listener
    requires c < |l.children|
  {
    l.(children := l.children[c := x])
  }

  function SetChild(s: System, l: nat, c: nat, x: Child): System
    requires IsChild(s, l, c)
  {
    SetListener(s, l, WithChild(s.listeners[l], c, x))
  }

  ghost function Step(cfg: Config, s: System, a: Action): System
    requires Enabled(cfg, s, a)
  {
    match a
    case GreetListeners => s.(listeners := Publish(s.listeners, HelloListener))
    case AnswerListener(l) =>
      SetListener(s, l, s.listeners[l].(stage := Replied)).(subscribers := s.subscribers + 1)
    case StartListeners =>
      s.(phase := SyncChildren, listeners := Publish(s.listeners, StartProcesses(cfg.processes)))
    case GreetChildren => s.(listeners := Publish(s.listeners, HelloSocket))
    case AnswerChild(l, c) =>
      SetChild(s, l, c, s.listeners[l].children[c].(stage := Replied)).(processes := s.processes + 1)
    case StartChildren =>
      s.(phase := Drain, listeners := Publish(s.listeners, StartWebsockets(cfg.work)))
    case Consume => s.(taken := s.taken + 1)
    case Finish => s.(phase := Over, listeners := Publish(s.listeners, End))
    case ListenerMoves(l, m) => SetListener(s, l, ListenerDo(s.listeners[l], m))
    case ChildMoves(l, c, m) => SetChild(s, l, c, ChildDo(s.listeners[l].children[c], m))
    case DeliverReport(l) =>
      var x := s.listeners[l];
      SetListener(s, l, x.(outbox := x.outbox[1..])).(arrived := s.arrived + [FinishedBy(l, x.outbox[0])])
    case DeliverResult(l, c) =>
      var x := s.listeners[l].children[c];
      SetChild(s, l, c, x.(outbox := x.outbox[1..])).(arrived := s.arrived + [ResultOf(l, c, x.outbox[0])])
  }

  /** A run: any interleaving of enabled actions of all processes and channels. */
  ghost predicate Run(cfg: Config, s: System, trace: seq<Action>, s': System)
    decreases |trace|
  {
    if trace == [] then s == s'
    else Enabled(cfg, s, trace[0]) && Run(cfg, Step(cfg, s, trace[0]), trace[1..], s')
  }

  lemma {:induction false} RunConcat(cfg: Config, s: System, t1: seq<Action>, mid: System, t2: seq<Action>, s': System)
    requires Run(cfg, s, t1, mid) && Run(cfg, mid, t2, s')
    ensures Run(cfg, s, t1 + t2, s')
    decreases |t1|
  {
    hide Step, Enabled;
    if t1 == [] {
      assert t1 + t2 == t2;
    } else {
      RunConcat(cfg, Step(cfg, s, t1[0]), t1[1..], mid, t2, s');
      assert (t1 + t2)[1..] == t1[1..] + t2;
    }
  }

  lemma RunOne(cfg: Config, s: System, a: Action)
    requires Enabled(cfg, s, a)
    ensures Run(cfg, s, [a], Step(cfg, s, a))
  {
    assert [a][1..] == [];
  }

  ghost predicate Reachable(cfg: Config, s: System) {
    exists n, trace :: Run(cfg, Initial(n), trace, s)
  }

  lemma StepReachable(cfg: Config, s: System, a: Action)
    requires Reachable(cfg, s) && Enabled(cfg, s, a)
    ensures Reachable(cfg, Step(cfg, s, a))
  {
    hide Run, Enabled, Step;
    var n, trace :| Run(cfg, Initial(n), trace, s);
    RunOne(cfg, s, a);
    RunConcat(cfg, Initial(n), trace, s, [a], Step(cfg, s, a));
  }
}
