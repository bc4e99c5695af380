/** Results can be lost, with any configuration that calls for some: when every exit
    report overtakes the results of its child, the controller ends with none of them. */
module LostResult {
  import opened Sums
  import opened Protocol
  import opened Invariant
  import opened Steps
  import opened Barriers
  import opened Conservation
  import opened Completion
  import opened Records
  import opened NoDeadlock
  import T = Telemetry
  import Report

  lemma NoResultArrives(cfg: Config, s: System, a: Action)
    requires Enabled(cfg, s, a) && !a.DeliverResult?
    ensures Results(Step(cfg, s, a).arrived) == Results(s.arrived)
  {
    hide ListenerDo, ListenerCan, ChildDo, ChildCan, Publish, Quota, Sum;
    if a.DeliverReport? {
      SumSnoc(s.arrived, FinishedBy(a.l, s.listeners[a.l].outbox[0]), IsExit);
    } else if a.ChildMoves? {
      ChildDoCounts(s.listeners[a.l].children[a.c], a.cm);
    }
  }

  /** From any state, the run can end without another result reaching the sink, and with
      all connections still to end ending as picked. */
  lemma {:induction false} EndWithoutResults(cfg: Config, s: System, pick: Assignment)
    returns (trace: seq<Action>, s': System)
    requires Inv(cfg, s) && NoneVanished(s) && |s.listeners| >= cfg.machines
    requires AnyFinal(cfg.work.messages, pick)
    ensures Run(cfg, s, trace, s') && s'.phase == Over && Results(s'.arrived) == Results(s.arrived)
    ensures NoneLeftEarly(cfg, s) ==> NoneLeftEarly(cfg, s')
    ensures Follows(pick, s) ==> Follows(pick, s')
    decreases Distance(cfg, s), Unread(s)
  {
    hide Inv, Everywhere, Distance, Unread, Enabled, Step, Productive, AnyFinal, Results, Ends;
    if s.phase == Over {
      trace, s' := [], s;
    } else {
      var a := NeverStuckWithoutResults(cfg, s, pick);
      var next := Step(cfg, s, a);
      NextToEnd(cfg, s, a, pick);
      NoResultArrives(cfg, s, a);
      var rest;
      rest, s' := EndWithoutResults(cfg, next, pick);
      trace := [a] + rest;
      assert trace[1..] == rest;
    }
  }

  /** At the end, children that left in order have sent everything. */
  lemma AllEmittedAtEnd(cfg: Config, s: System)
    requires Reachable(cfg, s) && s.phase == Over && NoneLeftEarly(cfg, s)
    ensures AllEmitted(cfg, s)
  {
    hide Reachable, Everywhere, Sum, Quota, Exits;
    CompletionBarrier(cfg, s);
    ListenerBarrier(cfg, s);
    forall l: nat, c: nat | IsChild(s, l, c) ensures |s.listeners[l].children[c].log| == Instances(cfg) {
      assert Idles(s.listeners[l]);
      assert Done(cfg, s.listeners[l]);
      ChildInOrder(cfg, s, l, c);
    }
  }

  lemma NoneConsumed(s: System)
    requires s.taken <= |s.arrived| && Results(s.arrived) == 0
    ensures Results(Consumed(s)) == 0
  {
    ConsumedResults(s.arrived, s.taken);
  }

  /** For every configuration and enough listeners, and however the connections end,
      there is a run in which no child leaves early, every child sends all of its
      results, and the controller ends with none of them. */
  lemma ResultsCanBeLost(cfg: Config, n: nat, pick: Assignment) returns (trace: seq<Action>, s: System)
    requires n >= cfg.machines && AnyFinal(cfg.work.messages, pick)
    ensures Run(cfg, Initial(n), trace, s) && s.phase == Over
    ensures NoneLeftEarly(cfg, s) && AllEmitted(cfg, s) && Follows(pick, s)
    ensures s.taken <= |s.arrived| && Results(Consumed(s)) == 0
  {
    hide Inv, Everywhere, AnyFinal, Run, Results;
    InvInitial(cfg, n);
    InitialRecords(cfg, n, pick);
    trace, s := EndWithoutResults(cfg, Initial(n), pick);
    NoResultsYet(n);
    assert Reachable(cfg, s);
    AllEmittedAtEnd(cfg, s);
    ResultsAtMost(cfg, s);
    NoneConsumed(s);
  }

  lemma NoResultsYet(n: nat)
    ensures Results(Initial(n).arrived) == 0
  {
  }

  /** Even when every connection was perfect, with a sample for every message. */
  lemma PerfectResultsCanBeLost(cfg: Config, n: nat) returns (trace: seq<Action>, s: System, e: Ending)
    requires n >= cfg.machines && cfg.work.messages >= 0
    ensures Run(cfg, Initial(n), trace, s) && s.phase == Over
    ensures NoneLeftEarly(cfg, s) && AllEmitted(cfg, s) && Follows(Always(e), s)
    ensures T.Perfect(e.client) && |e.client.samples| == cfg.work.messages
    ensures s.taken <= |s.arrived| && Results(Consumed(s)) == 0
  {
    hide T.Final, T.Perfect, Run, Results, AllEmitted, Everywhere;
    var delays := seq(cfg.work.messages, i => 0);
    var client := T.AnyLatencies(cfg.work.messages, delays);
    e := Ending(client, Report.NotANumber);
    trace, s := ResultsCanBeLost(cfg, n, Always(e));
  }

  /** With n listeners started, every finished run in which no child left early has
      received every result. */
  ghost predicate NothingEverLost(cfg: Config, n: nat) {
    forall trace, s :: Run(cfg, Initial(n), trace, s) && s.phase == Over && NoneLeftEarly(cfg, s) ==>
      s.taken <= |s.arrived| && Results(Consumed(s)) == Expected(cfg)
  }

  /** The exact condition, known before the run starts: results are safe in all runs only
      when none are called for, or when there are too few listeners for a run to end. */
  lemma NothingEverLostExactlyWhen(cfg: Config, n: nat)
    ensures NothingEverLost(cfg, n) <==> n < cfg.machines || Expected(cfg) == 0
  {
    hide Run, Results, Expected, Everywhere, AnyFinal, AllEmitted;
    if n >= cfg.machines && Expected(cfg) != 0 {
      var pick := SomeAssignment(cfg.work.messages);
      var trace, s := ResultsCanBeLost(cfg, n, pick);
      assert !NothingEverLost(cfg, n);
    } else {
      forall trace, s | Run(cfg, Initial(n), trace, s) && s.phase == Over && NoneLeftEarly(cfg, s)
        ensures s.taken <= |s.arrived| && Results(Consumed(s)) == Expected(cfg)
      {
        EndsExactlyWithEnoughListeners(cfg, n);
        assert Reachable(cfg, s);
        ResultsAtMost(cfg, s);
      }
    }
  }
}
