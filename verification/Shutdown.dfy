/** The end of the iteration: whom END reaches, and which listeners terminate. */
module Shutdown {
  import opened Sums
  import opened Wire
  import opened Protocol
  import opened Invariant
  import opened Steps
  import opened Barriers
  import opened Completion
  import opened Records
  import opened NoDeadlock
  import opened Ordering

  lemma EndOf(cfg: Config, rank: nat, l: Listener)
    requires ListenerInv(cfg, rank, l)
    ensures l.task == Ended ==> Answered(l.stage) && rank == 3
    ensures rank == 3 && Answered(l.stage) ==> End in l.inbox || l.task == Ended
  {
    hide ChildInv, Reported, Sum;
  }

  /** END reaches every listener that was answered: once it is published, each of them
      has terminated or has END still to read. No other listener ever terminates, and
      none does earlier. */
  lemma EndReachesTheAnswered(cfg: Config, s: System)
    requires Reachable(cfg, s)
    ensures forall l :: 0 <= l < |s.listeners| && s.listeners[l].task == Ended ==>
              Answered(s.listeners[l].stage) && s.phase == Over
    ensures s.phase == Over ==>
              forall l :: 0 <= l < |s.listeners| && Answered(s.listeners[l].stage) ==>
                s.listeners[l].task == Ended || End in s.listeners[l].inbox
  {
    hide ListenerInv, Reachable, Barrier, SinkInv;
    ReachableInv(cfg, s);
    forall l | 0 <= l < |s.listeners|
      ensures s.listeners[l].task == Ended ==> Answered(s.listeners[l].stage) && s.phase == Over
      ensures s.phase == Over && Answered(s.listeners[l].stage) ==>
                s.listeners[l].task == Ended || End in s.listeners[l].inbox
    {
      EndOf(cfg, Rank(s.phase), s.listeners[l]);
    }
  }

  // ----- listeners terminate -----

  /** An answered listener that has not terminated has a move that brings it closer. */
  lemma ListenerWindsUp(cfg: Config, l: Listener) returns (m: ListenerMove)
    requires ListenerInv(cfg, 3, l) && Answered(l.stage) && l.task != Ended && Done(cfg, l)
    ensures ListenerCan(l, m) && !m.ReapNone?
  {
    hide ChildInv, Reported, Sum;
    m := if l.stage == Replied then ListenerTakeReply
         else if l.task.Launching? then Launch
         else if l.task == Reaping then StopReaping
         else ListenerReceive;
  }

  /** All listeners that were answered have terminated. */
  predicate AllAnsweredEnded(s: System) {
    forall l :: 0 <= l < |s.listeners| && Answered(s.listeners[l].stage) ==> s.listeners[l].task == Ended
  }

  lemma OneWindsUp(cfg: Config, s: System, l: nat) returns (a: Action)
    requires Reachable(cfg, s) && s.phase == Over
    requires l < |s.listeners| && Answered(s.listeners[l].stage) && s.listeners[l].task != Ended
    ensures Enabled(cfg, s, a) && Productive(s, a) && a.ListenerMoves? && Step(cfg, s, a).phase == Over
  {
    hide ListenerInv, Reachable, Barrier, SinkInv, Done, Sum, Exits, Quota, ListenerDo, ListenerCan;
    ReachableInv(cfg, s);
    CompletionBarrier(cfg, s);
    assert ListenerInv(cfg, 3, s.listeners[l]);
    var m := ListenerWindsUp(cfg, s.listeners[l]);
    a := ListenerMoves(l, m);
  }

  /** Once the iteration is over the run can go on until exactly the answered listeners
      have terminated. */
  lemma {:induction false} CanShutDown(cfg: Config, s: System) returns (trace: seq<Action>, s': System)
    requires Reachable(cfg, s) && s.phase == Over
    ensures Run(cfg, s, trace, s') && s'.phase == Over && AllAnsweredEnded(s')
    decreases Distance(cfg, s), Unread(s)
  {
    hide Inv, Reachable, Distance, Unread, Enabled, Step, Productive;
    if AllAnsweredEnded(s) {
      trace, s' := [], s;
    } else {
      var l :| 0 <= l < |s.listeners| && Answered(s.listeners[l].stage) && s.listeners[l].task != Ended;
      var a := OneWindsUp(cfg, s, l);
      var next := Step(cfg, s, a);
      ReachableInv(cfg, s);
      StepReachable(cfg, s, a);
      ReachableInv(cfg, next);
      DistanceNonNegative(cfg, s);
      DistanceNonNegative(cfg, next);
      ProductiveCloser(cfg, s, a);
      var rest;
      rest, s' := CanShutDown(cfg, next);
      trace := [a] + rest;
      assert trace[1..] == rest;
    }
  }

  /** The iteration is over, and every listener that was started has terminated. */
  predicate AllEnded(s: System) {
    s.phase == Over && forall l :: 0 <= l < |s.listeners| ==> s.listeners[l].task == Ended
  }

  lemma AllAnswered(ls: seq<Listener>)
    ensures Sum(ls, IsAnswered) == |ls| <==> forall l :: 0 <= l < |ls| ==> Answered(ls[l].stage)
  {
    hide Sum;
    SumOne(ls);
    SumCapped(ls, IsAnswered, One, 1);
    if Sum(ls, IsAnswered) == |ls| {
      forall l | 0 <= l < |ls| ensures Answered(ls[l].stage) {
        assert IsAnswered(ls[l]) == 1 * One(ls[l]);
      }
    }
    if forall l :: 0 <= l < |ls| ==> Answered(ls[l].stage) {
      SumEqual(ls, IsAnswered, ls, One);
    }
  }

  /** Some run ends with all of its listeners terminated if and only if exactly
      `machines` were started: with fewer none ends, and of more the surplus waits for
      ever. */
  lemma AllEndExactlyWhen(cfg: Config, n: nat)
    ensures (exists trace, s :: Run(cfg, Initial(n), trace, s) && AllEnded(s)) <==> n == cfg.machines
  {
    hide Run, Reachable, Sum, Inv, OrderlyRun, Everywhere;
    InitiallyReachable(cfg, n);
    if trace, s :| Run(cfg, Initial(n), trace, s) && AllEnded(s) {
      ReachedBy(cfg, Initial(n), trace, s);
      EndReachesTheAnswered(cfg, s);
      ListenerBarrier(cfg, s);
      AllAnswered(s.listeners);
      ListenersStay(cfg, Initial(n), trace, s);
    }
    if n == cfg.machines {
      InvInitial(cfg, n);
      InitialRecords(cfg, n, Always(NO_ENDING));
      var t1, over := CanComplete(cfg, Initial(n));
      OrderlyIsRun(cfg, Initial(n), t1, over);
      ReachedBy(cfg, Initial(n), t1, over);
      var t2, s := CanShutDown(cfg, over);
      RunConcat(cfg, Initial(n), t1, over, t2, s);
      ReachedBy(cfg, Initial(n), t1 + t2, s);
      ListenerBarrier(cfg, s);
      ListenersStay(cfg, Initial(n), t1 + t2, s);
      AllAnswered(s.listeners);
      assert AllEnded(s);
    }
  }

  lemma ReachedBy(cfg: Config, s: System, trace: seq<Action>, s': System)
    requires Reachable(cfg, s) && Run(cfg, s, trace, s')
    ensures Reachable(cfg, s')
  {
    hide Run;
    var n, before :| Run(cfg, Initial(n), before, s);
    RunConcat(cfg, Initial(n), before, s, trace, s');
  }
}
