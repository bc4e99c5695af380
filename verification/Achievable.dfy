/** Whatever the connections experience, some orderly run consists of just that: every
    assignment of endings to connections is what the controller receives in some run. */
module Achievable {
  import opened Sums
  import opened Telemetry
  import opened Wire
  import P = Protocol
  import I = Invariant
  import B = Barriers
  import C = Conservation
  import O = Ordering
  import R = Records
  import N = NoDeadlock
  import L = LostResult
  import Out = Outcomes

  /** With enough listeners: for every assignment of endings, each one that a client can
      have, there is an orderly run in which every child leaves in order, connection k of
      each child ends as assigned, and the controller receives all of them. */
  lemma EveryOutcome(cfg: P.Config, n: nat, pick: R.Assignment) returns (trace: seq<P.Action>, s: P.System)
    requires n >= cfg.machines && R.AnyFinal(cfg.work.messages, pick)
    ensures O.OrderlyRun(cfg, P.Initial(n), trace, s) && P.Reachable(cfg, s) && s.phase == P.Over
    ensures R.NoneLeftEarly(cfg, s) && R.Follows(pick, s) && C.AllEmitted(cfg, s)
    ensures s.taken <= |s.arrived| && I.Results(P.Consumed(s)) == C.Expected(cfg)
  {
    hide I.Inv, R.Everywhere, R.AnyFinal, P.Run, O.OrderlyRun, I.Results, C.Expected, C.AllEmitted;
    I.InvInitial(cfg, n);
    R.InitialRecords(cfg, n, pick);
    trace, s := N.CompleteAs(cfg, P.Initial(n), pick);
    O.OrderlyIsRun(cfg, P.Initial(n), trace, s);
    assert P.Reachable(cfg, s);
    L.AllEmittedAtEnd(cfg, s);
    O.OrderlyConservation(cfg, n, trace, s);
  }

  /** All of them are consumed, and nothing else is. */
  lemma ConsumedAsPicked(cfg: P.Config, pick: R.Assignment, s: P.System, a: P.Arrival)
    requires P.Reachable(cfg, s) && P.Rank(s.phase) >= 2 && R.Follows(pick, s)
    requires s.taken <= |s.arrived| && I.Results(P.Consumed(s)) == C.Expected(cfg)
    requires a in P.Consumed(s) && a.ResultOf?
    ensures P.IsChild(s, a.listener, a.child)
    ensures exists k: nat :: a.ending == pick(a.listener, a.child, k)
  {
    hide P.Reachable, R.Everywhere, I.Results, C.Expected, C.NonePending, C.NoneUnread, C.AllEmitted;
    C.ResultConservation(cfg, s);
    Out.ConsumedAreLogged(cfg, s, a.listener, a.child, a.ending);
    R.ChildHas(s, a.listener, a.child, R.Picked(pick));
    var log := s.listeners[a.listener].children[a.child].log;
    var k :| 0 <= k < |log| && log[k] == a.ending;
    assert a.ending == pick(a.listener, a.child, k);
  }

  // ----- one child -----

  /** The endings in a list, and one more for beyond it. */
  function Listed(es: seq<P.Ending>, beyond: P.Ending): R.Assignment {
    (l: nat, c: nat, k: nat) => if k < |es| then es[k] else beyond
  }

  lemma LogListed(es: seq<P.Ending>, beyond: P.Ending, s: P.System)
    requires R.Follows(Listed(es, beyond), s) && P.IsChild(s, 0, 0) && |s.listeners[0].children[0].log| == |es|
    ensures s.listeners[0].children[0].log == es
  {
    R.ChildHas(s, 0, 0, R.Picked(Listed(es, beyond)));
  }

  /** One machine with one process, whose connections end like this, in this order. */
  lemma OneChildOutcome(work: Work, es: seq<P.Ending>) returns (trace: seq<P.Action>, s: P.System)
    requires |es| == work.instances && es != []
    requires forall k :: 0 <= k < |es| ==> Final(work.messages, es[k].client)
    ensures var cfg := P.Config(1, 1, work);
            && O.OrderlyRun(cfg, P.Initial(1), trace, s) && P.Reachable(cfg, s) && s.phase == P.Over
            && s.taken <= |s.arrived| && C.ResultsFrom(P.Consumed(s), 0, 0) == es
            && forall a :: a in P.Consumed(s) && a.ResultOf? ==> a.listener == 0 && a.child == 0
  {
    hide P.Run, P.Reachable, O.OrderlyRun, Final, R.Everywhere, I.Results, C.ResultsFrom, Sum, C.AllEmitted, C.NonePending,
         C.NoneUnread;
    var cfg := P.Config(1, 1, work);
    var pick := Listed(es, es[0]);
    trace, s := EveryOutcome(cfg, 1, pick);
    OnlyChild(cfg, trace, s);
    C.ResultConservation(cfg, s);
    OneLog(cfg, s);
    LogListed(es, es[0], s);
    AllConsumed(cfg, s);
    forall a | a in P.Consumed(s) && a.ResultOf? ensures a.listener == 0 && a.child == 0 {
      ConsumedAsPicked(cfg, pick, s, a);
    }
  }

  lemma OneLog(cfg: P.Config, s: P.System)
    requires C.AllEmitted(cfg, s) && P.IsChild(s, 0, 0)
    ensures |s.listeners[0].children[0].log| == P.Instances(cfg)
  {
  }

  lemma OnlyChild(cfg: P.Config, trace: seq<P.Action>, s: P.System)
    requires cfg.machines == cfg.processes == 1 && s.phase == P.Over
    requires O.OrderlyRun(cfg, P.Initial(1), trace, s)
    ensures forall l: nat, c: nat :: P.IsChild(s, l, c) <==> l == 0 && c == 0
  {
    hide P.Run, O.OrderlyRun, P.Exits;
    O.OrderlyIsRun(cfg, P.Initial(1), trace, s);
    assert P.Reachable(cfg, s);
    N.ListenersStay(cfg, P.Initial(1), trace, s);
    B.NoneMissesTheWork(cfg, s);
    OneLaunched(s);
  }

  lemma OneLaunched(s: P.System)
    requires |s.listeners| == 1 && B.TotalLaunched(s) == 1
    ensures |s.listeners[0].children| == 1
  {
    assert Sum(s.listeners, I.Launched) == Sum(s.listeners[..0], I.Launched) + I.Launched(s.listeners[0]);
  }

  lemma AllConsumed(cfg: P.Config, s: P.System)
    requires P.Reachable(cfg, s) && s.taken <= |s.arrived| && C.NonePending(s) && C.NoneUnread(s) && P.IsChild(s, 0, 0)
    ensures C.ResultsFrom(P.Consumed(s), 0, 0) == s.listeners[0].children[0].log
  {
    hide P.Reachable, C.ResultsFrom;
    C.ExactlyOnce(cfg, s, 0, 0);
    Trailing(s.arrived, s.taken, 0, 0);
    assert s.listeners[0].children[0].outbox == [];
  }

  /** Exit reports after the first k arrivals add no results. */
  lemma {:induction false} Trailing(arrived: seq<P.Arrival>, k: nat, l: nat, c: nat)
    requires k <= |arrived| && forall i :: k <= i < |arrived| ==> !arrived[i].ResultOf?
    ensures C.ResultsFrom(arrived, l, c) == C.ResultsFrom(arrived[..k], l, c)
    decreases |arrived|
  {
    if k == |arrived| {
      assert arrived[..k] == arrived;
    } else {
      var m := |arrived| - 1;
      Trailing(arrived[..m], k, l, c);
      assert arrived[..m][..k] == arrived[..k];
    }
  }
}
