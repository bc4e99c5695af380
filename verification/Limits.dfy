/** How large the controller's counters get, in any run, and that they fit a 32-bit
    int with the configurations the controller ships. */
module Limits {
  import opened Sums
  import opened Text
  import opened Wire
  import opened Report
  import opened Telemetry
  import opened EndToEnd
  import Statistics
  import Sink
  import A = Achievable
  import R = Records
  import P = Protocol
  import I = Invariant
  import C = Conservation
  import St = Steps

  /** No connection has more samples than it has messages to send. */
  lemma {:induction false} SamplesAtMost(messages: int, arrivals: seq<P.Arrival>)
    requires AllFinal(messages, arrivals)
    ensures |Groups(arrivals)| <= Sum(arrivals, C.IsResult)
    ensures |AllSamples(arrivals)| <= AtLeastZero(messages) * Sum(arrivals, C.IsResult)
  {
    hide Final, Groups, AllSamples, Statistics.Concat, Statistics.Total, Statistics.Pooled, Statistics.PooledTerm, Sum;
    if arrivals == [] {
      NoSamples();
    } else {
      var k := |arrivals| - 1;
      var init, a := arrivals[..k], arrivals[k];
      assert arrivals == init + [a];
      SamplesAtMost(messages, init);
      GroupsNext(arrivals, init, a);
      SumSnoc(init, a, C.IsResult);
      if a.ResultOf? {
        SampleCountDecides(messages, a.ending.client);
        OneMore(AtLeastZero(messages), Sum(init, C.IsResult));
      } else {
        SamplesOf(arrivals, init);
      }
      if a.ResultOf? && a.ending.client.samples == [] {
        SamplesOf(arrivals, init);
      }
    }
  }

  lemma NoSamples()
    ensures Groups([]) == [] && AllSamples([]) == [] && Sum([], C.IsResult) == 0
  {
  }

  lemma OneMore(m: nat, n: int)
    ensures m * (n + 1) == m * n + m
  {
  }

  /** At every point of every run: deaths and successes add up to the results
      received, which never exceed machines * processes * instances; exits never
      exceed machines * processes; and the samples counted never exceed
      machines * processes * instances * messages. */
  lemma CounterBounds(cfg: P.Config, codec: Codec, s: P.System)
    requires P.Reachable(cfg, s) && PrintsWords(codec) && cfg.work.messages <= INT_MAX
    ensures s.taken <= |s.arrived|
    ensures var t := Totals(cfg, codec, s);
            && t.connectionsSucceeded + t.connectionsDied == t.resultsReceived
            && 0 <= t.connectionsSucceeded && 0 <= t.connectionsDied
            && t.resultsReceived <= C.Expected(cfg)
            && 0 <= t.clientsFinished && 0 <= t.clientsDied
            && t.clientsFinished + t.clientsDied <= P.Quota(cfg)
            && 0 <= t.samples <= t.totalcount
            && t.samples <= C.Expected(cfg)
            && t.totalcount <= AtLeastZero(cfg.work.messages) * C.Expected(cfg)
  {
    hide I.ListenerInv, P.Reachable, Final, PrintsWords, Sink.TallyOf, Groups, AllSamples, P.Quota, I.Listeners, I.Barrier;
    St.ReachableInv(cfg, s);
    C.ResultsAtMost(cfg, s);
    C.ResultsAsSum(P.Consumed(s));
    ConsumedAllFinal(cfg, s);
    CountersEndToEnd(codec, cfg.work.messages, P.Consumed(s));
    Sink.Counters(codec, cfg.work.messages, RenderAll(codec, P.Consumed(s)));
    SamplesAtMost(cfg.work.messages, P.Consumed(s));
    C.ScaleMonotone(AtLeastZero(cfg.work.messages), Sum(P.Consumed(s), C.IsResult), C.Expected(cfg));
  }

  predicate AllInt32(t: Sink.Tally) {
    && IsInt32(t.clientsFinished) && IsInt32(t.clientsDied)
    && IsInt32(t.clientsFinished + t.clientsDied)
    && IsInt32(t.resultsReceived)
    && IsInt32(t.connectionsDied) && IsInt32(t.connectionsSucceeded)
    && IsInt32(t.totalcount) && IsInt32(t.samples) && IsInt32(t.totalcount - t.samples)
  }

  /** The configuration the controller builds for an iteration. */
  function DefaultConfig(iteration: nat): P.Config {
    P.Config(iteration + 1, 100, Work("wss://54.84.134.93:9002", 75, true, true, 60, 12, 240))
  }

  // ----- the bounds are met -----

  /** When every consumed connection has m samples, that many times the results. */
  lemma {:induction false} SamplesExactly(m: nat, arrivals: seq<P.Arrival>)
    requires forall i :: 0 <= i < |arrivals| && arrivals[i].ResultOf? ==> |arrivals[i].ending.client.samples| == m
    ensures |AllSamples(arrivals)| == m * Sum(arrivals, C.IsResult)
  {
    hide Groups, AllSamples, Statistics.Concat, Statistics.Total, Statistics.Pooled, Statistics.PooledTerm, Sum;
    if arrivals == [] {
      NoSamples();
    } else {
      var k := |arrivals| - 1;
      var init, a := arrivals[..k], arrivals[k];
      assert arrivals == init + [a];
      SamplesExactly(m, init);
      GroupsNext(arrivals, init, a);
      SumSnoc(init, a, C.IsResult);
      OneMore(m, Sum(init, C.IsResult));
      if !a.ResultOf? || a.ending.client.samples == [] {
        SamplesOf(arrivals, init);
      }
    }
  }

  /** The bounds on exits, results and samples are all met, in one orderly run: with as
      many listeners as machines, and every connection receiving all of its echoes. */
  lemma BoundsAreMet(cfg: P.Config, codec: Codec) returns (s: P.System)
    requires PrintsWords(codec) && cfg.work.messages <= INT_MAX
    ensures P.Reachable(cfg, s) && s.taken <= |s.arrived|
    ensures var t := Totals(cfg, codec, s);
            && t.clientsFinished + t.clientsDied == P.Quota(cfg)
            && t.resultsReceived == C.Expected(cfg)
            && t.totalcount == AtLeastZero(cfg.work.messages) * C.Expected(cfg)
  {
    hide P.Reachable, Final, PrintsWords, Sink.TallyOf, Groups, AllSamples, P.Quota, C.Expected, R.Everywhere, C.AllEmitted, Sum;
    var m := AtLeastZero(cfg.work.messages);
    var client := AnyLatencies(cfg.work.messages, seq(m, i => 0));
    var pick := R.Always(P.Ending(client, NotANumber));
    var trace;
    trace, s := A.EveryOutcome(cfg, cfg.machines, pick);
    forall i | 0 <= i < s.taken && P.Consumed(s)[i].ResultOf?
      ensures |P.Consumed(s)[i].ending.client.samples| == m
    {
      A.ConsumedAsPicked(cfg, pick, s, P.Consumed(s)[i]);
    }
    FinishedRun(cfg, s);
    CountersEndToEnd(codec, cfg.work.messages, P.Consumed(s));
    C.ResultsAsSum(P.Consumed(s));
    SamplesExactly(m, P.Consumed(s));
  }

  /** With the shipped configuration of any of the 30 iterations, no counter, product
      or difference the controller computes leaves the range of an int. */
  lemma DefaultsFit(iteration: nat, codec: Codec, s: P.System)
    requires iteration < 30
    requires P.Reachable(DefaultConfig(iteration), s) && PrintsWords(codec)
    ensures s.taken <= |s.arrived|
    ensures AllInt32(Totals(DefaultConfig(iteration), codec, s))
    ensures IsInt32(P.Quota(DefaultConfig(iteration))) && IsInt32(C.Expected(DefaultConfig(iteration)))
    ensures Sendable(DefaultConfig(iteration).work)
  {
    hide P.Reachable, PrintsWords, Totals;
    var cfg := DefaultConfig(iteration);
    CounterBounds(cfg, codec, s);
    assert P.Quota(cfg) == (iteration + 1) * 100 <= 3000;
    assert C.Expected(cfg) == 75 * P.Quota(cfg) <= 225000;
  }

  /** The exact condition for every configuration: no counter leaves the range of an int in
      any run if and only if the three products are in that range. */
  lemma CountersFitExactlyWhen(cfg: P.Config, codec: Codec)
    requires PrintsWords(codec) && cfg.work.messages <= INT_MAX
    ensures CountersFit(cfg, codec) <==>
              && IsInt32(P.Quota(cfg)) && IsInt32(C.Expected(cfg))
              && IsInt32(AtLeastZero(cfg.work.messages) * C.Expected(cfg))
  {
    hide P.Reachable, PrintsWords, Totals, P.Quota, C.Expected;
    if CountersFit(cfg, codec) {
      var s := BoundsAreMet(cfg, codec);
    }
    forall s | P.Reachable(cfg, s)
      ensures s.taken <= |s.arrived| &&
              (IsInt32(P.Quota(cfg)) && IsInt32(C.Expected(cfg)) && IsInt32(AtLeastZero(cfg.work.messages) * C.Expected(cfg)) ==>
                 AllInt32(Totals(cfg, codec, s)))
    {
      CounterBounds(cfg, codec, s);
    }
  }

  /** In every state of every run, all counters are in the range of an int. */
  ghost predicate CountersFit(cfg: P.Config, codec: Codec) {
    forall s :: P.Reachable(cfg, s) ==> s.taken <= |s.arrived| && AllInt32(Totals(cfg, codec, s))
  }

  /** The one iteration that the controller performs: 17 machines with 100 processes of 75
      connections; what it publishes; and the most samples it can count. */
  lemma ShippedIteration()
    ensures var cfg := DefaultConfig(16);
            && cfg.machines == 17 && P.Quota(cfg) == 1700 && C.Expected(cfg) == 127500
            && AtLeastZero(cfg.work.messages) * C.Expected(cfg) == 1530000
            && Frames(StartProcesses(cfg.processes)) == ["StartProcesses", "100", ""]
            && Frames(StartWebsockets(cfg.work)) ==
               ["StartWebsockets", "wss://54.84.134.93:9002", "75", "1", "1", "60", "12", "240", ""]
  {
    assert PrintNat(10) == "10" && PrintNat(7) == "7" && PrintNat(6) == "6" && PrintNat(1) == "1" && PrintNat(24) == "24";
    assert PrintInt(100) == "100" && PrintInt(75) == "75" && PrintInt(60) == "60" && PrintInt(12) == "12" && PrintInt(240) == "240";
    assert PrintBool(true) == "1";
  }
}
