/** What the controller's report says about the whole iteration when every result was
    received: how many connections it calls a success. */
module Outcomes {
  import opened Sums
  import opened Text
  import opened Report
  import opened Telemetry
  import opened EndToEnd
  import Sink
  import P = Protocol
  import C = Conservation
  import O = Ordering
  import I = Invariant
  import St = Steps

  // ----- everything received -----

  /** Every connection that ended, reported or not, was perfect. */
  ghost predicate AllPerfect(s: P.System) {
    forall l: nat, c: nat :: P.IsChild(s, l, c) ==> LogPerfect(s.listeners[l].children[c].log)
  }

  predicate LogPerfect(log: seq<P.Ending>) {
    forall e :: e in log ==> Perfect(e.client)
  }

  predicate ResultsPerfect(arrivals: seq<P.Arrival>) {
    forall i :: 0 <= i < |arrivals| && arrivals[i].ResultOf? ==> Perfect(arrivals[i].ending.client)
  }

  lemma PerfectCount(arrivals: seq<P.Arrival>)
    ensures Sum(arrivals, IsPerfect) == Sum(arrivals, C.IsResult) <==> ResultsPerfect(arrivals)
  {
    hide Perfect, Sum;
    SumCapped(arrivals, IsPerfect, C.IsResult, 1);
    if ResultsPerfect(arrivals) {
      SumEqual(arrivals, IsPerfect, arrivals, C.IsResult);
    }
    if Sum(arrivals, IsPerfect) == Sum(arrivals, C.IsResult) {
      forall i | 0 <= i < |arrivals| && arrivals[i].ResultOf? ensures Perfect(arrivals[i].ending.client) {
        assert IsPerfect(arrivals[i]) == 1 * C.IsResult(arrivals[i]);
      }
    }
  }

  lemma {:induction false} ResultsFromMembers(arrived: seq<P.Arrival>, l: nat, c: nat, e: P.Ending)
    ensures e in C.ResultsFrom(arrived, l, c) <==> P.ResultOf(l, c, e) in arrived
  {
    if arrived != [] {
      var k := |arrived| - 1;
      ResultsFromMembers(arrived[..k], l, c, e);
      assert arrived == arrived[..k] + [arrived[k]];
    }
  }

  /** When every result was consumed, the consumed results are those of the logs. */
  lemma ConsumedAreLogged(cfg: P.Config, s: P.System, l: nat, c: nat, e: P.Ending)
    requires P.Reachable(cfg, s) && s.taken <= |s.arrived| && C.NonePending(s) && C.NoneUnread(s)
    ensures P.ResultOf(l, c, e) in P.Consumed(s) <==> P.IsChild(s, l, c) && e in s.listeners[l].children[c].log
  {
    hide P.Reachable, C.ResultsFrom;
    C.ExactlyOnce(cfg, s, l, c);
    ResultsFromMembers(s.arrived, l, c, e);
    assert P.ResultOf(l, c, e) in s.arrived <==> P.ResultOf(l, c, e) in P.Consumed(s) by {
      assert forall i :: s.taken <= i < |s.arrived| ==> s.arrived[i] != P.ResultOf(l, c, e);
      assert s.arrived == P.Consumed(s) + s.arrived[s.taken..];
    }
    assert C.Underway(s.listeners, l, c) == [];
  }

  lemma ConsumedPerfect(cfg: P.Config, s: P.System)
    requires P.Reachable(cfg, s) && s.taken <= |s.arrived| && C.NonePending(s) && C.NoneUnread(s)
    ensures ResultsPerfect(P.Consumed(s)) <==> AllPerfect(s)
  {
    hide P.Reachable, Perfect, C.NonePending, C.NoneUnread;
    var arrivals := P.Consumed(s);
    if ResultsPerfect(arrivals) {
      forall l: nat, c: nat | P.IsChild(s, l, c) ensures LogPerfect(s.listeners[l].children[c].log) {
        forall e | e in s.listeners[l].children[c].log ensures Perfect(e.client) {
          ConsumedAreLogged(cfg, s, l, c, e);
          assert P.ResultOf(l, c, e) in arrivals;
        }
      }
    }
    if AllPerfect(s) {
      forall i | 0 <= i < |arrivals| && arrivals[i].ResultOf? ensures Perfect(arrivals[i].ending.client) {
        var a := arrivals[i];
        ConsumedAreLogged(cfg, s, a.listener, a.child, a.ending);
        assert a in arrivals;
        assert LogPerfect(s.listeners[a.listener].children[a.child].log);
      }
    }
  }

  /** When every result was received, the controller reports as many successes as there
      are connections exactly when every single connection was perfect. */
  lemma AllReceivedReport(cfg: P.Config, codec: Codec, s: P.System)
    requires P.Reachable(cfg, s) && P.Rank(s.phase) >= 2
    requires PrintsWords(codec) && cfg.work.messages <= INT_MAX
    requires s.taken <= |s.arrived| && I.Results(P.Consumed(s)) == C.Expected(cfg)
    ensures var t := Totals(cfg, codec, s);
            && t.resultsReceived == C.Expected(cfg)
            && t.connectionsSucceeded + t.connectionsDied == C.Expected(cfg)
            && (t.connectionsSucceeded == C.Expected(cfg) <==> AllPerfect(s))
  {
    hide P.Reachable, PrintsWords, Final, Sink.TallyOf, C.Expected, AllPerfect, I.Barrier, I.Listeners, I.SinkInv, C.AllEmitted,
         C.NonePending, Sum;
    St.ReachableInv(cfg, s);
    ConsumedAllFinal(cfg, s);
    CountersEndToEnd(codec, cfg.work.messages, P.Consumed(s));
    C.ResultsAsSum(P.Consumed(s));
    C.ResultConservation(cfg, s);
    PerfectCount(P.Consumed(s));
    ConsumedPerfect(cfg, s);
  }

  /** The report of an orderly run: it covers machines * processes * instances
      connections, and calls all of them successes exactly when all were perfect. */
  lemma OrderlyReport(cfg: P.Config, codec: Codec, n: nat, trace: seq<P.Action>, s: P.System)
    requires O.OrderlyRun(cfg, P.Initial(n), trace, s)
    requires P.Enabled(cfg, s, P.Finish) || s.phase == P.Over
    requires PrintsWords(codec) && cfg.work.messages <= INT_MAX
    ensures s.taken <= |s.arrived|
    ensures var t := Totals(cfg, codec, s);
            && t.resultsReceived == C.Expected(cfg)
            && t.connectionsSucceeded + t.connectionsDied == C.Expected(cfg)
            && (t.connectionsSucceeded == C.Expected(cfg) <==> AllPerfect(s))
  {
    hide O.OrderlyRun, P.Run, PrintsWords, Totals, C.Expected, I.Results, AllPerfect, P.Exits, P.Quota;
    O.OrderlyIsRun(cfg, P.Initial(n), trace, s);
    assert P.Reachable(cfg, s);
    O.OrderlyConservation(cfg, n, trace, s);
    AllReceivedReport(cfg, codec, s);
  }
}
