/** What the controller reports is what the clients experienced: the protocol, the
    printed lines, the sink loop and the clients' histories put together. */
module EndToEnd {
  import opened Sums
  import opened Text
  import opened Statistics
  import opened Report
  import opened Telemetry
  import Sink
  import P = Protocol
  import I = Invariant
  import B = Barriers
  import C = Conservation
  import St = Steps

  // ----- from arrivals to messages -----

  function Render(codec: Codec, a: P.Arrival): Sink.SinkMessage {
    match a
    case ResultOf(_, _, e) => Sink.Result(StatsLine(codec, e.client, e.setup))
    case FinishedBy(_, r) => Sink.Finished(r.status)
  }

  function RenderAll(codec: Codec, arrivals: seq<P.Arrival>): (ms: seq<Sink.SinkMessage>)
    ensures |ms| == |arrivals|
    ensures forall i :: 0 <= i < |ms| ==> ms[i] == Render(codec, arrivals[i])
  {
    if arrivals == [] then []
    else RenderAll(codec, arrivals[..|arrivals| - 1]) + [Render(codec, arrivals[|arrivals| - 1])]
  }

  lemma RenderPrefix(codec: Codec, arrivals: seq<P.Arrival>, k: nat)
    requires k <= |arrivals|
    ensures RenderAll(codec, arrivals)[..k] == RenderAll(codec, arrivals[..k])
    ensures Sink.Finishes(RenderAll(codec, arrivals)[..k]) == P.Exits(arrivals[..k])
  {
    var ms := RenderAll(codec, arrivals[..k]);
    SumEqual(ms, Sink.IsFinished, arrivals[..k], P.IsExit);
  }

  // ----- what the clients experienced -----

  /** The samples of each consumed connection that recorded any. */
  function Groups(arrivals: seq<P.Arrival>): (gs: seq<seq<real>>)
    ensures NonEmpty(gs)
  {
    if arrivals == [] then []
    else
      var a := arrivals[|arrivals| - 1];
      Groups(arrivals[..|arrivals| - 1]) +
      (if a.ResultOf? && a.ending.client.samples != [] then [a.ending.client.samples] else [])
  }

  /** All samples of all consumed connections. */
  function AllSamples(arrivals: seq<P.Arrival>): seq<real> { Concat(Groups(arrivals)) }

  function IsPerfect(a: P.Arrival): int { if a.ResultOf? && Perfect(a.ending.client) then 1 else 0 }
  function IsCleanExit(a: P.Arrival): int { if a.FinishedBy? && a.report.status == 0 then 1 else 0 }

  ghost predicate AllFinal(messages: int, arrivals: seq<P.Arrival>) {
    forall i :: 0 <= i < |arrivals| && arrivals[i].ResultOf? ==> Final(messages, arrivals[i].ending.client)
  }

  /** Every contributing line prints its statistics to within delta. */
  predicate AllLegible(codec: Codec, delta: real, arrivals: seq<P.Arrival>) {
    forall i :: 0 <= i < |arrivals| && arrivals[i].ResultOf? && arrivals[i].ending.client.samples != [] ==>
      Legible(codec, delta, arrivals[i].ending.client.samples)
  }

  // ----- the counters -----

  lemma ConcatSnoc(groups: seq<seq<real>>, g: seq<real>)
    requires NonEmpty(groups) && g != []
    ensures Concat(groups + [g]) == Concat(groups) + g
    ensures NonEmpty(groups + [g]) && Pooled(groups + [g]) == Pooled(groups) + PooledTerm(g)
  {
    hide PooledTerm;
    assert (groups + [g])[..|groups|] == groups;
  }

  /** What one more message from a finished client adds to the counters. */
  lemma CountersOfOne(codec: Codec, messages: int, t: Sink.Tally, a: P.Arrival)
    requires PrintsWords(codec) && messages <= INT_MAX
    requires a.ResultOf? ==> Final(messages, a.ending.client)
    ensures var t' := Sink.AddMessage(codec, messages, t, Render(codec, a));
            && t'.connectionsSucceeded == t.connectionsSucceeded + IsPerfect(a)
            && t'.clientsFinished == t.clientsFinished + IsCleanExit(a)
            && t'.clientsDied == t.clientsDied + P.IsExit(a) - IsCleanExit(a)
            && t'.resultsReceived == t.resultsReceived + C.IsResult(a)
            && t'.totalcount == t.totalcount + (if a.ResultOf? then |a.ending.client.samples| else 0)
            && t'.samples == t.samples + (if a.ResultOf? && a.ending.client.samples != [] then 1 else 0)
  {
    hide Decode, StatsLine, Perfect, Times, PrintInt, Final;
    match a
    case ResultOf(_, _, e) =>
      SampleCountDecides(messages, e.client);
      DecodeStats(codec, e.client, e.setup, 0.0);
    case FinishedBy(_, r) => ExitStatusText(r.status);
  }

  lemma ExitStatusText(status: int)
    ensures PrintInt(status) == "0" <==> status == 0
  {
    assert PrintInt(0) == "0";
    if PrintInt(status) == "0" {
      PrintIntInjective(status, 0);
    }
  }

  /** End-to-end counters, for any consumed messages of finished clients and whatever
      the precision of the printed numbers: `connectionsSucceeded` counts exactly the
      connections that never failed, had all of their sends accepted and each one
      echoed; the sample count is the number of samples there are. */
  lemma {:induction false} CountersEndToEnd(codec: Codec, messages: int, arrivals: seq<P.Arrival>)
    requires PrintsWords(codec) && messages <= INT_MAX && AllFinal(messages, arrivals)
    ensures var t := Sink.TallyOf(codec, messages, RenderAll(codec, arrivals));
            && t.connectionsSucceeded == Sum(arrivals, IsPerfect)
            && t.connectionsDied == Sum(arrivals, C.IsResult) - Sum(arrivals, IsPerfect)
            && t.clientsFinished == Sum(arrivals, IsCleanExit)
            && t.clientsDied == P.Exits(arrivals) - Sum(arrivals, IsCleanExit)
            && t.resultsReceived == Sum(arrivals, C.IsResult)
            && t.totalcount == |AllSamples(arrivals)|
            && t.samples == |Groups(arrivals)|
  {
    hide Sink.AddMessage, Render, IsPerfect, IsCleanExit, Final, NonEmpty;
    if arrivals != [] {
      var k := |arrivals| - 1;
      var init, a := arrivals[..k], arrivals[k];
      CountersEndToEnd(codec, messages, init);
      var ms := RenderAll(codec, arrivals);
      assert ms[..|ms| - 1] == RenderAll(codec, init);
      CountersOfOne(codec, messages, Sink.TallyOf(codec, messages, RenderAll(codec, init)), a);
      if a.ResultOf? && a.ending.client.samples != [] {
        ConcatSnoc(Groups(init), a.ending.client.samples);
      } else {
        assert Groups(arrivals) == Groups(init);
      }
    }
    Sink.Counters(codec, messages, RenderAll(codec, arrivals));
  }

  // ----- the mean and the variance -----

  lemma SumsOfOne(codec: Codec, messages: int, delta: real, t: Sink.Tally, a: P.Arrival)
    requires PrintsWords(codec) && messages <= INT_MAX && delta >= 0.0
    requires a.ResultOf? ==> Final(messages, a.ending.client)
    requires a.ResultOf? && a.ending.client.samples != [] ==> Legible(codec, delta, a.ending.client.samples)
    ensures var t' := Sink.AddMessage(codec, messages, t, Render(codec, a));
            if a.ResultOf? && a.ending.client.samples != [] then
              var xs := a.ending.client.samples;
              && Abs(t'.meansum - t.meansum - Total(xs)) <= Times(delta, Size(xs))
              && Abs(t'.variancesum - t.variancesum - PooledTerm(xs)) <= Times(delta, Size(xs) - 1.0)
            else
              t'.meansum == t.meansum && t'.variancesum == t.variancesum
  {
    hide Decode, StatsLine, Times, Legible, Final, Mean, Variance, Total, PrintInt;
    match a
    case ResultOf(_, _, e) =>
      var xs := e.client.samples;
      SampleCountDecides(messages, e.client);
      DecodeStats(codec, e.client, e.setup, delta);
      if xs != [] {
        var d := Decode(codec, StatsLine(codec, e.client, e.setup));
        MeanTimesSize(xs);
        ErrorScales(Size(xs), d.mean, Mean(xs), delta);
        ErrorScales(Size(xs) - 1.0, d.variance, Variance(xs), delta);
        assert (d.count - 1) as real == Size(xs) - 1.0;
      }
    case FinishedBy(_, r) =>
  }

  lemma ErrorScales(w: real, x: real, y: real, delta: real)
    requires w >= 0.0 && Abs(x - y) <= delta
    ensures Abs(Times(w, x) - Times(w, y)) <= Times(delta, w)
  {
    TimesMonotone(w, x - y, delta);
    TimesMonotone(w, y - x, delta);
    assert Times(w, x - y) == Times(w, x) - Times(w, y);
    assert Times(w, y - x) == Times(w, y) - Times(w, x);
  }

  lemma TimesMonotone(w: real, a: real, b: real)
    requires w >= 0.0 && a <= b
    ensures Times(w, a) <= Times(b, w)
  {
    assert w * (b - a) >= 0.0;
  }

  /** What one more arrival adds to the samples. */
  lemma GroupsNext(arrivals: seq<P.Arrival>, init: seq<P.Arrival>, a: P.Arrival)
    requires arrivals == init + [a]
    ensures var more := a.ResultOf? && a.ending.client.samples != [];
            if more then
              var xs := a.ending.client.samples;
              && |Groups(arrivals)| == |Groups(init)| + 1
              && |AllSamples(arrivals)| == |AllSamples(init)| + |xs|
              && Total(AllSamples(arrivals)) == Total(AllSamples(init)) + Total(xs)
              && Pooled(Groups(arrivals)) == Pooled(Groups(init)) + PooledTerm(xs)
            else Groups(arrivals) == Groups(init)
  {
    hide PooledTerm, NonEmpty;
    assert arrivals[..|arrivals| - 1] == init;
    if a.ResultOf? && a.ending.client.samples != [] {
      var xs := a.ending.client.samples;
      ConcatSnoc(Groups(init), xs);
      TotalAppend(AllSamples(init), xs);
    }
  }

  /** The two sums of a tally are within printing error of the exact ones. */
  predicate Close(delta: real, t: Sink.Tally, arrivals: seq<P.Arrival>) {
    && Abs(t.meansum - Total(AllSamples(arrivals))) <= Times(delta, |AllSamples(arrivals)| as real)
    && Abs(t.variancesum - Pooled(Groups(arrivals))) <=
       Times(delta, |AllSamples(arrivals)| as real - |Groups(arrivals)| as real)
  }

  lemma ErrorsAdd(x: real, y: real, e: real, x': real, d: real, f: real)
    requires Abs(x - y) <= e && Abs(x' - x - d) <= f
    ensures Abs(x' - (y + d)) <= e + f
  {
  }

  lemma CloseNext(codec: Codec, messages: int, delta: real, t: Sink.Tally, arrivals: seq<P.Arrival>,
                  init: seq<P.Arrival>, a: P.Arrival)
    requires PrintsWords(codec) && messages <= INT_MAX && delta >= 0.0
    requires a.ResultOf? ==> Final(messages, a.ending.client)
    requires a.ResultOf? && a.ending.client.samples != [] ==> Legible(codec, delta, a.ending.client.samples)
    requires arrivals == init + [a] && Close(delta, t, init)
    ensures Close(delta, Sink.AddMessage(codec, messages, t, Render(codec, a)), arrivals)
  {
    hide Sink.AddMessage, Render, Final, Legible, Times, PooledTerm, Groups, AllSamples, Total, Pooled, NonEmpty, Abs;
    GroupsNext(arrivals, init, a);
    SumsOfOne(codec, messages, delta, t, a);
    if a.ResultOf? && a.ending.client.samples != [] {
      var t' := Sink.AddMessage(codec, messages, t, Render(codec, a));
      var xs := a.ending.client.samples;
      var n, k := |AllSamples(init)| as real, |Groups(init)| as real;
      TimesSum(delta, n, Size(xs));
      TimesSum(delta, n - k, Size(xs) - 1.0);
      ErrorsAdd(t.meansum, Total(AllSamples(init)), Times(delta, n),
                t'.meansum, Total(xs), Times(delta, Size(xs)));
      ErrorsAdd(t.variancesum, Pooled(Groups(init)), Times(delta, n - k),
                t'.variancesum, PooledTerm(xs), Times(delta, Size(xs) - 1.0));
      assert |AllSamples(arrivals)| as real == n + Size(xs);
      assert |AllSamples(arrivals)| as real - |Groups(arrivals)| as real == (n - k) + (Size(xs) - 1.0);
    } else {
      SamplesOf(arrivals, init);
    }
  }

  lemma SamplesOf(a: seq<P.Arrival>, b: seq<P.Arrival>)
    requires Groups(a) == Groups(b)
    ensures AllSamples(a) == AllSamples(b)
  {
  }

  /** The sums the controller accumulates: the total of all samples, and the pooled
      variance sum of the connections, to within the printed precision. */
  lemma {:induction false} SumsEndToEnd(codec: Codec, messages: int, delta: real, arrivals: seq<P.Arrival>)
    requires PrintsWords(codec) && messages <= INT_MAX && delta >= 0.0
    requires AllFinal(messages, arrivals) && AllLegible(codec, delta, arrivals)
    ensures Close(delta, Sink.TallyOf(codec, messages, RenderAll(codec, arrivals)), arrivals)
  {
    hide Sink.AddMessage, Render, Final, Legible, Close;
    if arrivals == [] {
      CloseEmpty(delta);
    } else {
      var k := |arrivals| - 1;
      var init, a := arrivals[..k], arrivals[k];
      SumsEndToEnd(codec, messages, delta, init);
      var ms := RenderAll(codec, arrivals);
      assert ms[..|ms| - 1] == RenderAll(codec, init);
      CloseNext(codec, messages, delta, Sink.TallyOf(codec, messages, RenderAll(codec, init)), arrivals, init, a);
    }
  }

  lemma CloseEmpty(delta: real)
    ensures Close(delta, Sink.EMPTY, [])
  {
    TimesZero(delta);
  }

  lemma ErrorDivides(a: real, b: real, w: real, delta: real)
    requires w > 0.0 && Abs(a - b) <= Times(delta, w)
    ensures Abs(a / w - b / w) <= delta
  {
    var q := (a - b) / w;
    assert a / w - b / w == q;
    assert w * q == a - b;
    if q > delta {
      assert w * q > w * delta;
    }
    if q < -delta {
      assert w * q < w * -delta;
    }
  }

  /** End-to-end mean: the reported mean latency is the arithmetic mean of all samples
      of all consumed connections together, to within the printed precision. */
  lemma MeanEndToEnd(codec: Codec, messages: int, delta: real, arrivals: seq<P.Arrival>)
    requires PrintsWords(codec) && messages <= INT_MAX && delta >= 0.0
    requires AllFinal(messages, arrivals) && AllLegible(codec, delta, arrivals)
    requires AllSamples(arrivals) != []
    ensures var t := Sink.TallyOf(codec, messages, RenderAll(codec, arrivals));
            && t.totalcount > 0
            && Abs(t.meansum / t.totalcount as real - Mean(AllSamples(arrivals))) <= delta
  {
    hide Sink.TallyOf, Final, Legible, Times, Total, Groups, RenderAll, AllFinal, AllLegible;
    CountersEndToEnd(codec, messages, arrivals);
    SumsEndToEnd(codec, messages, delta, arrivals);
    var t := Sink.TallyOf(codec, messages, RenderAll(codec, arrivals));
    ErrorDivides(t.meansum, Total(AllSamples(arrivals)), t.totalcount as real, delta);
  }

  /** End-to-end variance, for any sample counts: the reported variance is the pooled
      variance of the connections, to within the printed precision. */
  lemma VarianceEndToEnd(codec: Codec, messages: int, delta: real, arrivals: seq<P.Arrival>)
    requires PrintsWords(codec) && messages <= INT_MAX && delta >= 0.0
    requires AllFinal(messages, arrivals) && AllLegible(codec, delta, arrivals)
    requires |AllSamples(arrivals)| > |Groups(arrivals)|
    ensures var t := Sink.TallyOf(codec, messages, RenderAll(codec, arrivals));
            && t.totalcount > t.samples
            && Abs(t.variancesum / (t.totalcount - t.samples) as real - PooledVariance(Groups(arrivals))) <= delta
  {
    hide Sink.TallyOf, Final, Legible, Times, Pooled, Groups, RenderAll, AllFinal, AllLegible;
    CountersEndToEnd(codec, messages, arrivals);
    SumsEndToEnd(codec, messages, delta, arrivals);
    var t := Sink.TallyOf(codec, messages, RenderAll(codec, arrivals));
    ErrorDivides(t.variancesum, Pooled(Groups(arrivals)), (t.totalcount - t.samples) as real, delta);
  }

  /** When every contributing connection has the same count n >= 2, the reported
      variance is the variance of all samples minus the variance of the connection
      means, to within the printed precision. */
  lemma EqualCountsVariance(codec: Codec, messages: int, delta: real, arrivals: seq<P.Arrival>, n: nat)
    requires PrintsWords(codec) && messages <= INT_MAX && delta >= 0.0
    requires AllFinal(messages, arrivals) && AllLegible(codec, delta, arrivals)
    requires n >= 2 && Groups(arrivals) != [] && SameSize(Groups(arrivals), n)
    ensures var t := Sink.TallyOf(codec, messages, RenderAll(codec, arrivals));
            && AllSamples(arrivals) != [] && t.totalcount > t.samples
            && var reported := t.variancesum / (t.totalcount - t.samples) as real;
               && Abs(reported - (Variance(AllSamples(arrivals)) - Variance(Means(Groups(arrivals))))) <= delta
               && reported <= Variance(AllSamples(arrivals)) + delta
  {
    hide Sink.TallyOf, Final, Legible, Times, PooledVariance, Variance, RenderAll, AllFinal, AllLegible, Groups, Concat;
    var groups := Groups(arrivals);
    SameSizeLength(groups, n);
    MoreSamplesThanGroups(|groups|, n);
    PooledIsTotalMinusBetween(groups, n);
    VarianceEndToEnd(codec, messages, delta, arrivals);
  }

  lemma MoreSamplesThanGroups(k: nat, n: nat)
    requires k > 0 && n >= 2
    ensures k * n > k
  {
  }

  // ----- the controller at the end of a run -----

  /** What the controller has accumulated in a state of the system. */
  function Totals(cfg: P.Config, codec: Codec, s: P.System): Sink.Tally
    requires s.taken <= |s.arrived|
  {
    Sink.TallyOf(codec, cfg.work.messages, RenderAll(codec, P.Consumed(s)))
  }

  /** The controller had not met its quota before the last message it consumed. */
  lemma TakenIsMinimal(cfg: P.Config, s: P.System, k: nat)
    requires I.SinkInv(cfg, s) && k < s.taken
    ensures P.Exits(s.arrived[..k]) < P.Quota(cfg)
  {
    hide P.Quota;
    var before := s.arrived[..s.taken - 1];
    SumPrefix(before, k, P.IsExit);
    assert before[..k] == s.arrived[..k];
  }

  /** Consumption in the protocol stops where the frame-level loop stops. */
  lemma SameStop(cfg: P.Config, codec: Codec, s: P.System, k: nat)
    requires I.SinkInv(cfg, s) && s.taken <= |s.arrived| && P.Exits(P.Consumed(s)) >= P.Quota(cfg)
    requires k <= |s.arrived|
    requires Sink.Finishes(RenderAll(codec, s.arrived)[..k]) >= P.Quota(cfg)
    requires forall j :: 0 <= j < k ==> Sink.Finishes(RenderAll(codec, s.arrived)[..j]) < P.Quota(cfg)
    ensures k == s.taken
  {
    hide P.Quota, P.Exits, Sink.Finishes, I.SinkInv, RenderAll;
    RenderPrefix(codec, s.arrived, k);
    RenderPrefix(codec, s.arrived, s.taken);
    if k < s.taken {
      TakenIsMinimal(cfg, s, k);
    }
  }

  lemma ConsumedAllFinal(cfg: P.Config, s: P.System)
    requires I.ResultsFinal(cfg, s) && s.taken <= |s.arrived|
    ensures AllFinal(cfg.work.messages, P.Consumed(s))
  {
  }

  lemma FinishedRun(cfg: P.Config, s: P.System)
    requires P.Reachable(cfg, s) && (P.Enabled(cfg, s, P.Finish) || s.phase == P.Over)
    ensures I.SinkInv(cfg, s) && P.Exits(P.Consumed(s)) == P.Quota(cfg)
    ensures AllFinal(cfg.work.messages, P.Consumed(s))
  {
    hide I.ListenerInv, P.Reachable, Final;
    St.ReachableInv(cfg, s);
    B.CompletionBarrier(cfg, s);
    ConsumedAllFinal(cfg, s);
  }

  /** The controller's sink loop and report, at the end of any run of the whole
      system, reading the frames the sink has received. It accounts for every child;
      counts as succeeded exactly the consumed connections that were perfect; its mean
      is the mean of all their samples; and one empty frame and the messages that
      arrived too late are all it leaves unread. */
  method ControllerReport(cfg: P.Config, codec: Codec, frames: seq<string>, ghost s: P.System, ghost delta: real)
    returns (t: Sink.Tally, unread: seq<string>)
    requires P.Reachable(cfg, s) && (P.Enabled(cfg, s, P.Finish) || s.phase == P.Over)
    requires frames == Sink.SinkFrames(RenderAll(codec, s.arrived))
    requires PrintsWords(codec) && IsInt32(cfg.work.messages)
    requires delta >= 0.0 && s.taken <= |s.arrived| && AllLegible(codec, delta, P.Consumed(s))
    ensures t == Totals(cfg, codec, s)
    ensures t.clientsFinished + t.clientsDied == P.Quota(cfg)
    ensures t.clientsFinished == Sum(P.Consumed(s), IsCleanExit)
    ensures t.connectionsSucceeded == Sum(P.Consumed(s), IsPerfect)
    ensures t.connectionsSucceeded + t.connectionsDied == t.resultsReceived == Sum(P.Consumed(s), C.IsResult)
    ensures t.totalcount == |AllSamples(P.Consumed(s))|
    ensures t.totalcount > 0 ==>
              Abs(t.meansum / t.totalcount as real - Mean(AllSamples(P.Consumed(s)))) <= delta
    ensures t.totalcount > t.samples ==>
              && |AllSamples(P.Consumed(s))| > |Groups(P.Consumed(s))|
              && Abs(t.variancesum / (t.totalcount - t.samples) as real - PooledVariance(Groups(P.Consumed(s)))) <= delta
    ensures unread == Sink.Unread(RenderAll(codec, s.arrived), s.taken)
  {
    hide Sum, Final, Legible, AllFinal, AllLegible, PrintsWords, P.Reachable, P.Enabled, P.Exits, P.Quota, I.SinkInv;
    hide Sink.TallyOf, Sink.Unread, Sink.SinkFrames, Sink.Finishes, Groups, AllSamples, Mean, PooledVariance, Abs, RenderAll;
    ghost var consumed := P.Consumed(s);
    ghost var k;
    var pos, blocked;
    FinishedRun(cfg, s);
    RenderPrefix(codec, s.arrived, s.taken);
    RenderPrefix(codec, s.arrived, |s.arrived|);
    ExitsGrow(s);
    t, pos, blocked, k := Sink.DrainSink(codec, cfg.work.messages, cfg.machines * cfg.processes, frames,
                                         RenderAll(codec, s.arrived));
    QuotaProduct(cfg);
    SameStop(cfg, codec, s, k);
    unread := frames[pos..];
    CountersEndToEnd(codec, cfg.work.messages, consumed);
    if t.totalcount > 0 {
      MeanEndToEnd(codec, cfg.work.messages, delta, consumed);
    }
    if t.totalcount > t.samples {
      VarianceEndToEnd(codec, cfg.work.messages, delta, consumed);
    }
  }

  lemma QuotaProduct(cfg: P.Config)
    ensures P.Quota(cfg) == cfg.machines * cfg.processes
  {
  }

  lemma ExitsGrow(s: P.System)
    requires s.taken <= |s.arrived|
    ensures P.Exits(P.Consumed(s)) <= P.Exits(s.arrived)
    ensures s.arrived[..|s.arrived|] == s.arrived
  {
    SumPrefix(s.arrived, s.taken, P.IsExit);
  }
}
