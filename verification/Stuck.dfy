/** A run can get stuck, with any configuration that has children. */
module Stuck {
  import opened Sums
  import opened Wire
  import opened Protocol
  import opened Invariant
  import opened Steps
  import opened Barriers
  import opened Ordering
  import opened Records
  import opened NoDeadlock

  predicate NoChildren(s: System) {
    forall l :: 0 <= l < |s.listeners| ==> s.listeners[l].children == []
  }

  /** The first child to be launched is new. */
  lemma FirstIsNew(cfg: Config, s: System, a: Action)
    requires NoChildren(s) && Enabled(cfg, s, a)
    ensures forall l :: 0 <= l < |Step(cfg, s, a).listeners| ==>
              Step(cfg, s, a).listeners[l].children in {[], [NEW_CHILD]}
  {
    hide Quota, Exits, HearAll, Publish, ListenerDo, ListenerCan;
    var s' := Step(cfg, s, a);
    forall l | 0 <= l < |s'.listeners| ensures s'.listeners[l].children in {[], [NEW_CHILD]} {
      assert s.listeners[l].children == [];
      if a.ListenerMoves? && a.l == l {
        FirstOf(s.listeners[l], a.lm);
      } else {
        assert |s'.listeners[l].children| == 0;
      }
    }
  }

  lemma FirstOf(l: Listener, m: ListenerMove)
    requires l.children == [] && ListenerCan(l, m)
    ensures ListenerDo(l, m).children in {[], [NEW_CHILD]}
  {
    assert l.children + [NEW_CHILD] == [NEW_CHILD];
  }

  lemma {:induction false} FirstLaunch(cfg: Config, s: System, trace: seq<Action>, s': System)
    returns (before: seq<Action>, mid: System, l: nat)
    requires Run(cfg, s, trace, s') && NoChildren(s) && !NoChildren(s')
    ensures Run(cfg, s, before, mid) && l < |mid.listeners| && mid.listeners[l].children == [NEW_CHILD]
    decreases |trace|
  {
    hide Enabled, Step;
    var next := Step(cfg, s, trace[0]);
    FirstIsNew(cfg, s, trace[0]);
    if NoChildren(next) {
      before, mid, l := FirstLaunch(cfg, next, trace[1..], s');
      before := [trace[0]] + before;
    } else {
      l :| 0 <= l < |next.listeners| && next.listeners[l].children != [];
      before, mid := [trace[0]], next;
      assert before[1..] == [];
    }
  }

  lemma ChildrenAtEnd(cfg: Config, s: System)
    requires Reachable(cfg, s) && s.phase == Over
    ensures NoChildren(s) ==> Quota(cfg) == 0
  {
    hide Reachable, Sum, Quota;
    NoneMissesTheWork(cfg, s);
    if NoChildren(s) {
      AllZero(s.listeners, Launched);
    }
  }

  lemma NoneLaunched(cfg: Config, s: System)
    requires Reachable(cfg, s) && Quota(cfg) == 0
    ensures NoneVanished(s)
  {
    hide Reachable, Sum, Quota;
    ListenerBarrier(cfg, s);
    SumNonNegative(s.listeners, Launched);
    forall l | 0 <= l < |s.listeners| ensures s.listeners[l].children == [] {
      assert Launched(s.listeners[l]) <= 0;
    }
  }

  /** A new child can crash at once; then the run cannot end. */
  lemma CrashStrands(cfg: Config, s: System, l: nat, status: int)
    requires Reachable(cfg, s) && l < |s.listeners| && s.listeners[l].children == [NEW_CHILD] && status != 0
    ensures var a := ChildMoves(l, 0, Crash(status));
            Enabled(cfg, s, a) && !CanEnd(cfg, Step(cfg, s, a))
  {
    hide Reachable, CanEnd, NoneVanished;
    var a := ChildMoves(l, 0, Crash(status));
    var s' := Step(cfg, s, a);
    StepReachable(cfg, s, a);
    CanEndExactlyWhen(cfg, s');
    if NoneVanished(s') {
      ChildPresent(s', l, 0);
    }
  }

  /** Every run, whatever happens in it, can come to its end. */
  ghost predicate AlwaysCanEnd(cfg: Config, n: nat) {
    forall trace, s :: Run(cfg, Initial(n), trace, s) ==> CanEnd(cfg, s)
  }

  /** With enough listeners every run can come to its end if and only if there are no
      children to launch: as soon as there are, some run is stuck. */
  lemma AlwaysCanEndExactlyWhen(cfg: Config, n: nat)
    requires n >= cfg.machines
    ensures AlwaysCanEnd(cfg, n) <==> Quota(cfg) == 0
  {
    hide Run, CanEnd, Inv, Quota, OrderlyRun, Everywhere, Enabled, Step;
    if Quota(cfg) == 0 {
      forall trace, s | Run(cfg, Initial(n), trace, s) ensures CanEnd(cfg, s) {
        assert Reachable(cfg, s);
        ListenersStay(cfg, Initial(n), trace, s);
        NoneLaunched(cfg, s);
        CanEndExactlyWhen(cfg, s);
      }
    } else {
      InvInitial(cfg, n);
      InitialRecords(cfg, n, Always(NO_ENDING));
      var trace, over := CanComplete(cfg, Initial(n));
      OrderlyIsRun(cfg, Initial(n), trace, over);
      assert Reachable(cfg, over);
      ChildrenAtEnd(cfg, over);
      var before, mid, l := FirstLaunch(cfg, Initial(n), trace, over);
      assert Reachable(cfg, mid);
      CrashStrands(cfg, mid, l, 1);
      var a := ChildMoves(l, 0, Crash(1));
      RunOne(cfg, mid, a);
      RunConcat(cfg, Initial(n), before, mid, [a], Step(cfg, mid, a));
      assert !AlwaysCanEnd(cfg, n);
    }
  }
}
