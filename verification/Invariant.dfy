/** The inductive invariant of the coordination protocol. */
module Invariant {
  import opened Sums
  import opened Wire
  import opened Protocol
  import Telemetry

  // ----- one child -----

  function IsWork(p: Publication): int { if p.StartWebsockets? then 1 else 0 }

  /** Exactly one StartWebsockets has come this child's way once the controller has
      published it, and none before: it is in the inbox or has been taken out. */
  function WorkSeen(c: Child): int {
    Sum(c.inbox, IsWork) + if c.work.Some? then 1 else 0
  }

  /** The last elements of the whole. */
  predicate IsSuffix<T(==)>(part: seq<T>, whole: seq<T>) {
    && |part| <= |whole|
    && forall i :: 0 <= i < |part| ==> part[i] == whole[|whole| - |part| + i]
  }

  /** What the child has heard, and when. */
  predicate ChildHeard(cfg: Config, rank: nat, c: Child) {
    && c.active <= 2
    && (c.stage != AwaitHello || HelloSocket in c.inbox ==> c.active == 2)
    && (forall p :: p in c.inbox ==> p == HelloSocket || p == StartWebsockets(cfg.work))
    && WorkSeen(c) == (if rank >= 2 then 1 else 0)
    && (rank >= 2 ==> Answered(c.stage))
    && (c.work.Some? ==> c.work.value == cfg.work && c.stage == Synced)
  }

  /** What it has done. */
  ghost predicate ChildDone(cfg: Config, c: Child) {
    && (c.log != [] ==> c.work.Some?)
    && |c.log| <= Instances(cfg)
    && IsSuffix(c.outbox, c.log)
    && (forall e :: e in c.log ==> Telemetry.Final(cfg.work.messages, e.client))
    && (c.reaped ==> c.exit.Some?)
  }

  ghost predicate ChildInv(cfg: Config, rank: nat, c: Child) {
    ChildHeard(cfg, rank, c) && ChildDone(cfg, c)
  }

  lemma DoneKept(cfg: Config, c: Child, x: Child)
    requires ChildDone(cfg, c) && (c.work.Some? ==> x.work.Some?)
    requires x.log == c.log && x.outbox == c.outbox && x.exit == c.exit && x.reaped == c.reaped
    ensures ChildDone(cfg, x)
  {
    hide Telemetry.Final;
  }

  lemma NewChildInv(cfg: Config, rank: nat)
    requires rank < 2
    ensures ChildInv(cfg, rank, NEW_CHILD)
  {
  }

  lemma {:induction false} SumFirst<T>(s: seq<T>, f: T -> int)
    requires s != []
    ensures Sum(s, f) == f(s[0]) + Sum(s[1..], f)
  {
    assert s == [s[0]] + s[1..];
    SumConcat([s[0]], s[1..], f);
    assert [s[0]][..0] == [];
  }

  lemma ChildReceiveInv(cfg: Config, rank: nat, c: Child)
    requires ChildInv(cfg, rank, c) && ChildCan(c, Receive)
    ensures ChildInv(cfg, rank, ChildReceive(c))
  {
    hide ChildDone, Sum;
    DoneKept(cfg, c, ChildReceive(c));
    SumFirst(c.inbox, IsWork);
    SumNonNegative(c.inbox[1..], IsWork);
    assert c.inbox[0] in c.inbox;
    assert forall p :: p in c.inbox[1..] ==> p in c.inbox;
  }

  lemma SuffixSnoc<T>(whole: seq<T>, part: seq<T>, x: T)
    requires IsSuffix(part, whole)
    ensures IsSuffix(part + [x], whole + [x])
  {
  }

  lemma ChildEmitInv(cfg: Config, rank: nat, c: Child, e: Ending)
    requires ChildInv(cfg, rank, c) && ChildCan(c, Emit(e))
    ensures ChildInv(cfg, rank, ChildDo(c, Emit(e)))
  {
    hide Telemetry.Final, Sum;
    SuffixSnoc(c.log, c.outbox, e);
  }

  lemma ChildDoInv(cfg: Config, rank: nat, c: Child, m: ChildMove)
    requires ChildInv(cfg, rank, c) && ChildCan(c, m)
    ensures ChildInv(cfg, rank, ChildDo(c, m))
  {
    hide Telemetry.Final, Sum;
    match m
    case Receive => ChildReceiveInv(cfg, rank, c);
    case Emit(e) => ChildEmitInv(cfg, rank, c, e);
    case _ =>
  }

  lemma ChildDeliverInv(cfg: Config, rank: nat, c: Child)
    requires ChildInv(cfg, rank, c) && c.outbox != []
    ensures ChildInv(cfg, rank, c.(outbox := c.outbox[1..]))
  {
    hide Telemetry.Final, Sum;
  }

  lemma ChildAnswerInv(cfg: Config, rank: nat, c: Child)
    requires ChildInv(cfg, rank, c) && c.stage == Requested
    ensures ChildInv(cfg, rank, c.(stage := Replied))
  {
    hide ChildDone, Sum;
    DoneKept(cfg, c, c.(stage := Replied));
  }

  /** Hearing a publication that is not the work. */
  lemma ChildHearInv(cfg: Config, rank: nat, c: Child, p: Publication)
    requires ChildInv(cfg, rank, c) && !p.StartWebsockets?
    ensures ChildInv(cfg, rank, ChildHear(c, p))
  {
    hide ChildDone, Sum;
    DoneKept(cfg, c, ChildHear(c, p));
    SumSnoc(c.inbox, p, IsWork);
    assert forall q :: q in c.inbox + [p] ==> q in c.inbox || q == p;
  }

  /** Hearing the work: every answered child has both subscriptions active, so none
      of them misses it. */
  lemma ChildHearWork(cfg: Config, c: Child)
    requires ChildInv(cfg, 1, c) && Answered(c.stage)
    ensures ChildInv(cfg, 2, ChildHear(c, StartWebsockets(cfg.work)))
  {
    hide Sum, Telemetry.Final;
    var p := StartWebsockets(cfg.work);
    SumSnoc(c.inbox, p, IsWork);
    assert forall q :: q in c.inbox + [p] ==> q in c.inbox || q == p;
    assert c.work.None? by {
      SumNonNegative(c.inbox, IsWork);
    }
  }

  lemma ChildRankInv(cfg: Config, c: Child, rank: nat, rank': nat)
    requires ChildInv(cfg, rank, c)
    requires (rank >= 2) == (rank' >= 2)
    ensures ChildInv(cfg, rank', c)
  {
    hide Telemetry.Final, Sum;
  }

  // ----- one listener -----

  function IsStart(p: Publication): int { if p.StartProcesses? then 1 else 0 }

  function StartsSeen(l: Listener): int {
    Sum(l.inbox, IsStart) + if l.started then 1 else 0
  }

  function IsReaped(c: Child): int { if c.reaped then 1 else 0 }

  predicate Reported(reports: seq<ExitReport>, c: int) {
    exists i :: 0 <= i < |reports| && reports[i].child == c
  }

  /** No request comes after END. */
  predicate EndIsLast(inbox: seq<Publication>) {
    inbox == [] ||
    (EndIsLast(inbox[..|inbox| - 1]) && (inbox[|inbox| - 1].StartProcesses? ==> End !in inbox))
  }

  lemma EndStaysLast(inbox: seq<Publication>, p: Publication)
    requires EndIsLast(inbox) && (p.StartProcesses? ==> End !in inbox)
    ensures EndIsLast(inbox + [p])
  {
    assert (inbox + [p])[..|inbox|] == inbox;
  }

  lemma {:induction false} EndLastInRest(inbox: seq<Publication>)
    requires inbox != [] && EndIsLast(inbox)
    ensures EndIsLast(inbox[1..])
    decreases |inbox|
  {
    if |inbox| > 1 {
      var k := |inbox| - 1;
      EndLastInRest(inbox[..k]);
      assert inbox[1..][..k - 1] == inbox[..k][1..];
      assert forall p :: p in inbox[1..] ==> p in inbox;
    }
  }

  lemma {:induction false} NothingAfterEnd(inbox: seq<Publication>)
    requires inbox != [] && inbox[0] == End && EndIsLast(inbox)
    ensures forall p :: p in inbox ==> !p.StartProcesses?
    decreases |inbox|
  {
    if |inbox| > 1 {
      var k := |inbox| - 1;
      NothingAfterEnd(inbox[..k]);
      assert inbox[0] in inbox && inbox == inbox[..k] + [inbox[k]];
    }
  }

  /** The channels and the barrier: what this listener has heard, and when. */
  predicate ListenerHeard(cfg: Config, rank: nat, l: Listener) {
    && l.active <= 3
    && (l.stage != AwaitHello || HelloListener in l.inbox ==> l.active == 3)
    && (forall p :: p in l.inbox ==> p == HelloListener || p == StartProcesses(cfg.processes) || p == End)
    && (End in l.inbox || l.task == Ended ==> rank == 3)
    && EndIsLast(l.inbox)
    && (l.task == Ended ==> l.stage == Synced)
    && (rank == 3 && Answered(l.stage) ==> End in l.inbox || l.task == Ended)
    && (rank == 0 ==> StartsSeen(l) == 0)
    && (rank >= 1 && Answered(l.stage) ==> StartsSeen(l) == 1)
    && (l.started ==> l.stage == Synced)
  }

  /** What this listener has launched and reaped. */
  predicate ListenerWork(cfg: Config, rank: nat, l: Listener) {
    && (!l.started ==> l.children == [] && l.reports == [] && l.task in {Idle, Ended} && l.unfinished == 0)
    && (l.task.Launching? ==>
          && l.task.target == cfg.processes && |l.children| <= cfg.processes
          && l.reports == [] && l.unfinished == 0)
    && (l.started && !l.task.Launching? ==>
          && |l.children| == cfg.processes && l.unfinished >= 0
          && |l.reports| + l.unfinished == cfg.processes)
    && (l.task in {Idle, Ended} ==> l.unfinished == 0)
    && IsSuffix(l.outbox, l.reports)
    && Sum(l.children, IsReaped) == |l.reports|
    && (forall c :: 0 <= c < |l.children| && l.children[c].reaped ==> Reported(l.reports, c))
    && (rank >= 2 && Answered(l.stage) ==> |l.children| == cfg.processes)
  }

  ghost predicate ListenerInv(cfg: Config, rank: nat, l: Listener) {
    && ListenerHeard(cfg, rank, l)
    && ListenerWork(cfg, rank, l)
    && forall c :: 0 <= c < |l.children| ==> ChildInv(cfg, rank, l.children[c])
  }

  lemma NewListenerInv(cfg: Config)
    ensures ListenerInv(cfg, 0, NEW_LISTENER)
  {
  }

  lemma ListenerReceiveInv(cfg: Config, rank: nat, l: Listener)
    requires ListenerInv(cfg, rank, l) && ListenerCan(l, ListenerReceive) && l.task != Ended
    ensures ListenerInv(cfg, rank, ReceiveAsListener(l))
  {
    hide ChildInv, Sum, Reported, EndIsLast;
    EndLastInRest(l.inbox);
    var p, l' := l.inbox[0], ReceiveAsListener(l);
    SumFirst(l.inbox, IsStart);
    SumNonNegative(l.inbox[1..], IsStart);
    assert p in l.inbox;
    assert forall q :: q in l.inbox[1..] ==> q in l.inbox;
    assert l'.children == l.children && l'.reports == l.reports;
    assert ListenerHeard(cfg, rank, l');
  }

  lemma LaunchOneInv(cfg: Config, rank: nat, l: Listener)
    requires ListenerWork(cfg, rank, l) && l.started && Answered(l.stage)
    requires l.task.Launching? && |l.children| < cfg.processes
    ensures rank < 2 && ListenerWork(cfg, rank, l.(children := l.children + [NEW_CHILD]))
  {
    hide Sum, Reported;
    SumSnoc(l.children, NEW_CHILD, IsReaped);
  }

  lemma LaunchDoneInv(cfg: Config, rank: nat, l: Listener)
    requires ListenerWork(cfg, rank, l) && l.started
    requires l.task.Launching? && |l.children| >= cfg.processes
    ensures ListenerWork(cfg, rank, l.(task := Reaping, unfinished := l.task.target))
  {
    hide Sum, Reported;
  }

  lemma LaunchFacts(cfg: Config, rank: nat, l: Listener)
    requires ListenerHeard(cfg, rank, l) && ListenerWork(cfg, rank, l) && l.task.Launching?
    ensures l.started && Answered(l.stage) && l.task.target == cfg.processes
    ensures ListenerHeard(cfg, rank, ListenerDo(l, Launch))
  {
    hide Sum, Reported, EndIsLast;
  }

  lemma LaunchInv(cfg: Config, rank: nat, l: Listener)
    requires ListenerInv(cfg, rank, l) && l.task.Launching?
    ensures ListenerInv(cfg, rank, ListenerDo(l, Launch))
  {
    hide ChildInv, ListenerHeard, ListenerWork;
    LaunchFacts(cfg, rank, l);
    if |l.children| < l.task.target {
      LaunchOneInv(cfg, rank, l);
      NewChildInv(cfg, rank);
    } else {
      LaunchDoneInv(cfg, rank, l);
    }
  }

  lemma ReportKeeps(reports: seq<ExitReport>, r: ExitReport)
    ensures forall c :: Reported(reports, c) ==> Reported(reports + [r], c)
    ensures Reported(reports + [r], r.child)
  {
    var more := reports + [r];
    assert more[|reports|] == r;
    forall c | Reported(reports, c) ensures Reported(more, c) {
      var i :| 0 <= i < |reports| && reports[i].child == c;
      assert more[i] == reports[i];
    }
  }

  /** Reaping child c keeps one report per reaped child. */
  lemma ReapCounts(l: Listener, c: nat, x: Child, r: ExitReport)
    requires c < |l.children| && x == l.children[c].(reaped := true) && !l.children[c].reaped
    requires r.child == c
    requires Sum(l.children, IsReaped) == |l.reports|
    requires forall i :: 0 <= i < |l.children| && l.children[i].reaped ==> Reported(l.reports, i)
    ensures var cs, rs := l.children[c := x], l.reports + [r];
            && Sum(cs, IsReaped) == |rs|
            && forall i :: 0 <= i < |cs| && cs[i].reaped ==> Reported(rs, i)
  {
    hide Reported;
    ReportKeeps(l.reports, r);
    SumUpdate(l.children, c, x, IsReaped);
  }

  lemma ReapInv(cfg: Config, rank: nat, l: Listener, c: nat)
    requires ListenerInv(cfg, rank, l) && ListenerCan(l, Reap(c))
    ensures ListenerInv(cfg, rank, ReapChild(l, c))
  {
    hide EndIsLast;
    var x := l.children[c].(reaped := true);
    var l' := ReapChild(l, c);
    var r := ExitReport(c, x.exit.value);
    assert ChildInv(cfg, rank, x);
    ReapCounts(l, c, x, r);
    SuffixSnoc(l.reports, l.outbox, r);
    hide ChildInv, Reported, Sum;
    assert l'.children == l.children[c := x];
    assert ListenerWork(cfg, rank, l');
  }

  /** The wait never fails: while the listener counts unfinished children, there is
      one it has not reaped. */
  lemma NothingToReapIsImpossible(cfg: Config, rank: nat, l: Listener, status: int)
    requires ListenerInv(cfg, rank, l)
    ensures !ListenerCan(l, ReapNone(status))
  {
    hide ListenerHeard, ChildInv, Reported;
    if l.task == Reaping && l.unfinished > 0 && forall c :: 0 <= c < |l.children| ==> l.children[c].reaped {
      AllReaped(l.children);
    }
  }

  lemma {:induction false} AllReaped(cs: seq<Child>)
    requires forall c :: 0 <= c < |cs| ==> cs[c].reaped
    ensures Sum(cs, IsReaped) == |cs|
  {
    if cs != [] {
      AllReaped(cs[..|cs| - 1]);
    }
  }

  lemma ListenerDoInv(cfg: Config, rank: nat, l: Listener, m: ListenerMove)
    requires ListenerInv(cfg, rank, l) && l.task != Ended && ListenerCan(l, m)
    ensures ListenerInv(cfg, rank, ListenerDo(l, m))
  {
    hide ListenerInv, ReceiveAsListener, ReapChild;
    match m
    case ListenerReceive => ListenerReceiveInv(cfg, rank, l);
    case Launch => LaunchInv(cfg, rank, l);
    case Reap(c) => ReapInv(cfg, rank, l, c);
    case ReapNone(status) => NothingToReapIsImpossible(cfg, rank, l, status);
    case _ => ListenerLocalInv(cfg, rank, l, m);
  }

  lemma ListenerLocalInv(cfg: Config, rank: nat, l: Listener, m: ListenerMove)
    requires ListenerInv(cfg, rank, l) && l.task != Ended && ListenerCan(l, m)
    requires m in {ListenerSubscribe, ListenerTakeReply, StopReaping}
    ensures ListenerInv(cfg, rank, ListenerDo(l, m))
  {
    hide EndIsLast, Sum, ChildInv, Reported;
    var l' := ListenerDo(l, m);
    StartsNonNegative(l);
    assert l'.children == l.children && l'.reports == l.reports && l'.inbox == l.inbox;
  }

  lemma StartsNonNegative(l: Listener)
    ensures Sum(l.inbox, IsStart) >= 0
  {
    SumNonNegative(l.inbox, IsStart);
  }

  /** What a listener has heard does not depend on its children and reports. */
  lemma HeardKept(cfg: Config, rank: nat, l: Listener, x: Listener)
    requires ListenerHeard(cfg, rank, l)
    requires x.stage == l.stage && x.task == l.task && x.active == l.active && x.inbox == l.inbox && x.started == l.started
    ensures ListenerHeard(cfg, rank, x)
  {
    hide EndIsLast, Sum;
  }

  /** Replacing a child by one in the same reaping state. */
  lemma WithChildInv(cfg: Config, rank: nat, l: Listener, c: nat, x: Child)
    requires ListenerInv(cfg, rank, l) && c < |l.children|
    requires ChildInv(cfg, rank, x) && x.reaped == l.children[c].reaped
    ensures ListenerInv(cfg, rank, WithChild(l, c, x))
  {
    hide ListenerHeard, Sum, ChildInv, Reported;
    HeardKept(cfg, rank, l, WithChild(l, c, x));
    SumUpdate(l.children, c, x, IsReaped);
  }

  lemma ListenerDeliverInv(cfg: Config, rank: nat, l: Listener)
    requires ListenerInv(cfg, rank, l) && l.outbox != []
    ensures ListenerInv(cfg, rank, l.(outbox := l.outbox[1..]))
  {
    hide ListenerHeard, Sum, ChildInv, Reported;
    HeardKept(cfg, rank, l, l.(outbox := l.outbox[1..]));
  }

  lemma ListenerAnswerInv(cfg: Config, l: Listener)
    requires ListenerInv(cfg, 0, l) && l.stage == Requested
    ensures ListenerInv(cfg, 0, l.(stage := Replied))
  {
    hide EndIsLast, Sum, ChildInv, Reported;
    var l' := l.(stage := Replied);
    assert ListenerHeard(cfg, 0, l');
    assert ListenerWork(cfg, 0, l');
  }

  // ----- a listener hears a publication -----

  lemma HearAllReaped(cs: seq<Child>, p: Publication)
    ensures Sum(HearAll(cs, p), IsReaped) == Sum(cs, IsReaped)
    ensures forall i :: 0 <= i < |cs| ==> HearAll(cs, p)[i].reaped == cs[i].reaped
  {
    hide HearAll;
    SumEqual(HearAll(cs, p), IsReaped, cs, IsReaped);
  }

  lemma HearWorkKept(cfg: Config, rank: nat, rank': nat, l: Listener, p: Publication)
    requires ListenerWork(cfg, rank, l)
    requires rank' >= 2 && Answered(l.stage) ==> |l.children| == cfg.processes
    ensures ListenerWork(cfg, rank', ListenerHear(l, p))
  {
    hide HearAll, ChildHear, ListenerHears, Sum, Reported;
    HearAllReaped(l.children, p);
    assert ListenerHear(l, p).reports == l.reports;
  }

  lemma InboxSnoc(inbox: seq<Publication>, p: Publication)
    ensures forall q :: q in inbox + [p] <==> q in inbox || q == p
    ensures Sum(inbox + [p], IsStart) == Sum(inbox, IsStart) + IsStart(p)
    ensures Sum(inbox, IsStart) >= 0
  {
    SumSnoc(inbox, p, IsStart);
    SumNonNegative(inbox, IsStart);
  }

  lemma HearGreetingInv(cfg: Config, rank: nat, l: Listener, p: Publication)
    requires ListenerInv(cfg, rank, l) && (p == HelloListener || p == HelloSocket)
    ensures ListenerInv(cfg, rank, ListenerHear(l, p))
  {
    hide HearAll, ChildHear, Sum, ChildInv, EndIsLast;
    EndStaysLast(l.inbox, p);
    InboxSnoc(l.inbox, p);
    HearWorkKept(cfg, rank, rank, l, p);
    assert ListenerHeard(cfg, rank, ListenerHear(l, p));
    hide ListenerWork, ListenerHeard;
    forall c | 0 <= c < |l.children| ensures ChildInv(cfg, rank, ListenerHear(l, p).children[c]) {
      ChildHearInv(cfg, rank, l.children[c], p);
    }
  }

  /** StartProcesses reaches every answered listener, and is the only one to. */
  lemma HearStartInv(cfg: Config, l: Listener)
    requires ListenerInv(cfg, 0, l)
    ensures ListenerInv(cfg, 1, ListenerHear(l, StartProcesses(cfg.processes)))
  {
    hide EndIsLast;
    var p := StartProcesses(cfg.processes);
    EndStaysLast(l.inbox, p);
    InboxSnoc(l.inbox, p);
    assert l.children == [];
    HearWorkKept(cfg, 0, 1, l, p);
  }

  /** StartWebsockets reaches every child, given that all have been answered. */
  lemma HearWorkInv(cfg: Config, l: Listener)
    requires ListenerInv(cfg, 1, l)
    requires Answered(l.stage) ==> |l.children| == cfg.processes
    requires forall c :: 0 <= c < |l.children| ==> Answered(l.children[c].stage)
    ensures ListenerInv(cfg, 2, ListenerHear(l, StartWebsockets(cfg.work)))
  {
    hide HearAll, ChildHear, Sum, ChildInv, EndIsLast;
    var p := StartWebsockets(cfg.work);
    EndStaysLast(l.inbox, p);
    HearWorkKept(cfg, 1, 2, l, p);
    assert ListenerHeard(cfg, 2, ListenerHear(l, p));
    hide ListenerWork, ListenerHeard;
    forall c | 0 <= c < |l.children| ensures ChildInv(cfg, 2, ListenerHear(l, p).children[c]) {
      ChildHearWork(cfg, l.children[c]);
    }
  }

  lemma HearEndInv(cfg: Config, l: Listener)
    requires ListenerInv(cfg, 2, l)
    ensures ListenerInv(cfg, 3, ListenerHear(l, End))
  {
    hide HearAll, ChildHear, Sum, ChildInv, EndIsLast;
    EndStaysLast(l.inbox, End);
    InboxSnoc(l.inbox, End);
    HearWorkKept(cfg, 2, 3, l, End);
    assert ListenerHeard(cfg, 3, ListenerHear(l, End));
    hide ListenerWork, ListenerHeard;
    forall c | 0 <= c < |l.children| ensures ChildInv(cfg, 3, ListenerHear(l, End).children[c]) {
      ChildHearInv(cfg, 2, l.children[c], End);
      ChildRankInv(cfg, ChildHear(l.children[c], End), 2, 3);
    }
  }

  // ----- counting over the whole system -----

  function IsAnswered(l: Listener): int { if Answered(l.stage) then 1 else 0 }
  function IsAnsweredChild(c: Child): int { if Answered(c.stage) then 1 else 0 }
  function ChildLog(c: Child): int { |c.log| }
  function ChildPending(c: Child): int { |c.outbox| }

  function Launched(l: Listener): int { |l.children| }
  function AnsweredChildren(l: Listener): int { Sum(l.children, IsAnsweredChild) }
  function ReportsMade(l: Listener): int { |l.reports| }
  function ReportsPending(l: Listener): int { |l.outbox| }
  function ResultsMade(l: Listener): int { Sum(l.children, ChildLog) }
  function ResultsPending(l: Listener): int { Sum(l.children, ChildPending) }

  function Results(arrived: seq<Arrival>): int { |arrived| - Exits(arrived) }

  /** The two counters are the numbers of answered listeners and children. */
  predicate Barrier(cfg: Config, s: System) {
    && s.subscribers == Sum(s.listeners, IsAnswered) <= cfg.machines
    && s.processes == Sum(s.listeners, AnsweredChildren) <= Quota(cfg)
    && (Rank(s.phase) >= 1 ==> s.subscribers == cfg.machines)
    && (Rank(s.phase) >= 2 ==> s.processes == Quota(cfg))
  }

  /** Every report and every result is at the sink or on its way there; the
      controller stops consuming at the exit report that completes its quota. */
  predicate SinkInv(cfg: Config, s: System) {
    && s.taken <= |s.arrived|
    && (Rank(s.phase) < 2 ==> s.taken == 0)
    && Exits(Consumed(s)) <= Quota(cfg)
    && (s.taken > 0 ==> Exits(s.arrived[..s.taken - 1]) < Quota(cfg))
    && (Rank(s.phase) == 3 ==> Exits(Consumed(s)) == Quota(cfg))
    && Exits(s.arrived) + Sum(s.listeners, ReportsPending) == Sum(s.listeners, ReportsMade)
    && Results(s.arrived) + Sum(s.listeners, ResultsPending) == Sum(s.listeners, ResultsMade)
  }

  /** Every result at the sink is that of a connection whose threads have ended. */
  ghost predicate ResultsFinal(cfg: Config, s: System) {
    forall i :: 0 <= i < |s.arrived| && s.arrived[i].ResultOf? ==>
      Telemetry.Final(cfg.work.messages, s.arrived[i].ending.client)
  }

  ghost predicate Listeners(cfg: Config, s: System) {
    forall l :: 0 <= l < |s.listeners| ==> ListenerInv(cfg, Rank(s.phase), s.listeners[l])
  }

  ghost predicate Inv(cfg: Config, s: System) {
    Listeners(cfg, s) && Barrier(cfg, s) && SinkInv(cfg, s) && ResultsFinal(cfg, s)
  }

  lemma InvInitial(cfg: Config, n: nat)
    ensures Inv(cfg, Initial(n))
  {
    NewListenerInv(cfg);
    var ls := Initial(n).listeners;
    AllZero(ls, IsAnswered);
    AllZero(ls, AnsweredChildren);
    AllZero(ls, ReportsMade);
    AllZero(ls, ReportsPending);
    AllZero(ls, ResultsMade);
    AllZero(ls, ResultsPending);
  }

  lemma {:induction false} AllZero<T>(s: seq<T>, f: T -> int)
    requires forall i :: 0 <= i < |s| ==> f(s[i]) == 0
    ensures Sum(s, f) == 0
  {
    if s != [] {
      AllZero(s[..|s| - 1], f);
    }
  }

  /** Replacing listener l changes each count by the change in l. */
  lemma CountsAfter(ls: seq<Listener>, l: nat, x: Listener)
    requires l < |ls|
    ensures Sum(ls[l := x], IsAnswered) == Sum(ls, IsAnswered) - IsAnswered(ls[l]) + IsAnswered(x)
    ensures Sum(ls[l := x], AnsweredChildren) == Sum(ls, AnsweredChildren) - AnsweredChildren(ls[l]) + AnsweredChildren(x)
    ensures Sum(ls[l := x], ReportsMade) == Sum(ls, ReportsMade) - ReportsMade(ls[l]) + ReportsMade(x)
    ensures Sum(ls[l := x], ReportsPending) == Sum(ls, ReportsPending) - ReportsPending(ls[l]) + ReportsPending(x)
    ensures Sum(ls[l := x], ResultsMade) == Sum(ls, ResultsMade) - ResultsMade(ls[l]) + ResultsMade(x)
    ensures Sum(ls[l := x], ResultsPending) == Sum(ls, ResultsPending) - ResultsPending(ls[l]) + ResultsPending(x)
  {
    SumUpdate(ls, l, x, IsAnswered);
    SumUpdate(ls, l, x, AnsweredChildren);
    SumUpdate(ls, l, x, ReportsMade);
    SumUpdate(ls, l, x, ReportsPending);
    SumUpdate(ls, l, x, ResultsMade);
    SumUpdate(ls, l, x, ResultsPending);
  }

  lemma ChildCountsAfter(l: Listener, c: nat, x: Child)
    requires c < |l.children|
    ensures AnsweredChildren(WithChild(l, c, x)) == AnsweredChildren(l) - IsAnsweredChild(l.children[c]) + IsAnsweredChild(x)
    ensures ResultsMade(WithChild(l, c, x)) == ResultsMade(l) - ChildLog(l.children[c]) + ChildLog(x)
    ensures ResultsPending(WithChild(l, c, x)) == ResultsPending(l) - ChildPending(l.children[c]) + ChildPending(x)
  {
    SumUpdate(l.children, c, x, IsAnsweredChild);
    SumUpdate(l.children, c, x, ChildLog);
    SumUpdate(l.children, c, x, ChildPending);
  }

  lemma ChildCountsHear(l: Listener, p: Publication)
    ensures AnsweredChildren(ListenerHear(l, p)) == AnsweredChildren(l)
    ensures ResultsMade(ListenerHear(l, p)) == ResultsMade(l)
    ensures ResultsPending(ListenerHear(l, p)) == ResultsPending(l)
  {
    var cs := HearAll(l.children, p);
    SumEqual(cs, IsAnsweredChild, l.children, IsAnsweredChild);
    SumEqual(cs, ChildLog, l.children, ChildLog);
    SumEqual(cs, ChildPending, l.children, ChildPending);
  }

  /** Publishing changes no count. */
  lemma CountsPublish(ls: seq<Listener>, p: Publication)
    ensures Sum(Publish(ls, p), IsAnswered) == Sum(ls, IsAnswered)
    ensures Sum(Publish(ls, p), AnsweredChildren) == Sum(ls, AnsweredChildren)
    ensures Sum(Publish(ls, p), ReportsMade) == Sum(ls, ReportsMade)
    ensures Sum(Publish(ls, p), ReportsPending) == Sum(ls, ReportsPending)
    ensures Sum(Publish(ls, p), ResultsMade) == Sum(ls, ResultsMade)
    ensures Sum(Publish(ls, p), ResultsPending) == Sum(ls, ResultsPending)
  {
    var ps := Publish(ls, p);
    forall i | 0 <= i < |ls|
      ensures AnsweredChildren(ps[i]) == AnsweredChildren(ls[i])
      ensures ResultsMade(ps[i]) == ResultsMade(ls[i])
      ensures ResultsPending(ps[i]) == ResultsPending(ls[i])
    {
      ChildCountsHear(ls[i], p);
    }
    SumEqual(ps, IsAnswered, ls, IsAnswered);
    SumEqual(ps, AnsweredChildren, ls, AnsweredChildren);
    SumEqual(ps, ReportsMade, ls, ReportsMade);
    SumEqual(ps, ReportsPending, ls, ReportsPending);
    SumEqual(ps, ResultsMade, ls, ResultsMade);
    SumEqual(ps, ResultsPending, ls, ResultsPending);
  }
}
