/** When the variance the controller reports at the end of a run exceeds the variance of
    all samples it received. */
module ReportedVariance {
  import opened Text
  import opened Statistics
  import opened UnequalCounts
  import opened Report
  import opened Telemetry
  import opened Wire
  import opened EndToEnd
  import Sink
  import P = Protocol
  import C = Conservation
  import O = Ordering
  import A = Achievable

  // ----- latencies of given counts -----

  const MILLISECOND := 1_000_000

  /** Echo times in nanoseconds: n of one millisecond, or one of none, one of two. */
  function FlatDelays(n: nat): (ds: seq<nat>)
    ensures |ds| == n && Timed(ds) == Flat(n)
  {
    if n == 0 then []
    else
      var ds := FlatDelays(n - 1) + [MILLISECOND];
      assert ds[..n - 1] == FlatDelays(n - 1);
      ds
  }

  function PeakDelays(n: nat): (ds: seq<nat>)
    requires n >= 2
    ensures |ds| == n && Timed(ds) == Peak(n)
  {
    var ds := FlatDelays(n - 2) + [0, 2 * MILLISECOND];
    assert forall i :: 0 <= i < n - 2 ==> Timed(ds)[i] == Timed(FlatDelays(n - 2))[i];
    ds
  }

  /** Connections with these very latencies, each of which has ended without failing. */
  lemma {:induction false} Experienced(messages: int, counts: seq<nat>, m: nat) returns (es: seq<P.Ending>)
    requires m < |counts| ==> counts[m] >= 2
    requires forall i :: 0 <= i < |counts| ==> 1 <= counts[i] <= messages
    ensures |es| == |counts|
    ensures forall i :: 0 <= i < |es| ==> Final(messages, es[i].client) && es[i].client.samples == Witness(counts, m)[i]
    decreases |counts|
  {
    hide Final, Flat, Peak, FlatDelays, PeakDelays;
    if counts == [] {
      es := [];
    } else {
      var k := |counts| - 1;
      var init := Experienced(messages, counts[..k], m);
      var c := AnyLatencies(messages, if k == m then PeakDelays(counts[k]) else FlatDelays(counts[k]));
      es := init + [P.Ending(c, NotANumber)];
    }
  }

  /** The samples of the connections that have any. */
  function GroupsOf(es: seq<P.Ending>): seq<seq<real>> {
    if es == [] then []
    else
      var xs := es[|es| - 1].client.samples;
      GroupsOf(es[..|es| - 1]) + if xs != [] then [xs] else []
  }

  lemma {:induction false} GroupsOfAll(es: seq<P.Ending>, groups: seq<seq<real>>)
    requires |es| == |groups| && NonEmpty(groups)
    requires forall i :: 0 <= i < |es| ==> es[i].client.samples == groups[i]
    ensures GroupsOf(es) == groups
  {
    if es != [] {
      var k := |es| - 1;
      GroupsOfAll(es[..k], groups[..k]);
    }
  }

  lemma {:induction false} GroupsOfOneChild(arrivals: seq<P.Arrival>)
    requires forall a :: a in arrivals && a.ResultOf? ==> a.listener == 0 && a.child == 0
    ensures Groups(arrivals) == GroupsOf(C.ResultsFrom(arrivals, 0, 0))
  {
    if arrivals != [] {
      var k := |arrivals| - 1;
      var a := arrivals[k];
      assert a in arrivals;
      GroupsOfOneChild(arrivals[..k]);
      if a.ResultOf? {
        var es := C.ResultsFrom(arrivals, 0, 0);
        assert es == C.ResultsFrom(arrivals[..k], 0, 0) + [a.ending];
        assert es[..|es| - 1] == C.ResultsFrom(arrivals[..k], 0, 0) && es[|es| - 1] == a.ending;
        assert GroupsOf(es) == GroupsOf(es[..|es| - 1]) + if a.ending.client.samples != [] then [a.ending.client.samples] else [];
      } else {
        assert C.ResultsFrom(arrivals, 0, 0) == C.ResultsFrom(arrivals[..k], 0, 0);
        assert Groups(arrivals) == Groups(arrivals[..k]);
      }
    }
  }

  // ----- the report -----

  /** The run in which the one child of one machine has connections with the latencies of
      the witness: what the controller consumes is the witness. */
  lemma WitnessIsConsumed(work: Work, counts: seq<nat>, m: nat) returns (trace: seq<P.Action>, s: P.System)
    requires |counts| == work.instances && m < |counts| && counts[m] >= 2
    requires forall i :: 0 <= i < |counts| ==> 1 <= counts[i] <= work.messages
    ensures var cfg := P.Config(1, 1, work);
            && O.OrderlyRun(cfg, P.Initial(1), trace, s) && P.Reachable(cfg, s) && s.phase == P.Over
    ensures s.taken <= |s.arrived| && Groups(P.Consumed(s)) == Witness(counts, m)
  {
    hide O.OrderlyRun, P.Reachable, Final, Witness, C.ResultsFrom;
    var es := Experienced(work.messages, counts, m);
    trace, s := A.OneChildOutcome(work, es);
    GroupsOfOneChild(P.Consumed(s));
    GroupsOfAll(es, Witness(counts, m));
  }

  /** Whatever counts differ, with enough messages for each, there is an orderly run of one
      machine with one process and these connections, in which the controller receives
      every result, and at the end of which the reported variance is above the variance of
      all samples, by as much as the printed precision leaves of the gap. */
  lemma ReportedCanExceedTotal(work: Work, counts: seq<nat>) returns (trace: seq<P.Action>, s: P.System, gap: real)
    requires Contributing(counts) && !AllEqual(counts) && work.messages <= INT_MAX && |counts| == work.instances
    requires forall i :: 0 <= i < |counts| ==> counts[i] <= work.messages
    ensures var cfg := P.Config(1, 1, work);
            && O.OrderlyRun(cfg, P.Initial(1), trace, s) && P.Reachable(cfg, s) && s.phase == P.Over
    ensures s.taken <= |s.arrived| && HasCounts(Groups(P.Consumed(s)), counts)
    ensures !AtMostTotal(Groups(P.Consumed(s)))
    ensures gap > 0.0
    ensures forall codec, delta ::
              PrintsWords(codec) && delta >= 0.0 && AllLegible(codec, delta, P.Consumed(s)) ==>
                ReportedAbove(codec, work.messages, P.Consumed(s), gap - delta)
  {
    hide Contributing, AllEqual, PooledVariance, Variance, Concat, Witness, AllFinal, AllLegible, PrintsWords, AtMostTotal, Groups,
         ReportedAbove, O.OrderlyRun, P.Reachable, P.Enabled;
    var m := PooledCanExceedTotal(counts);
    AtLeastOne(counts);
    trace, s := WitnessIsConsumed(work, counts, m);
    var arrivals := P.Consumed(s);
    FinishedRun(P.Config(1, 1, work), s);
    var groups := Groups(arrivals);
    gap := PooledVariance(groups) - Variance(Concat(groups));
    MoreThanGroups(groups, counts);
    forall codec, delta | PrintsWords(codec) && delta >= 0.0 && AllLegible(codec, delta, arrivals)
      ensures ReportedAbove(codec, work.messages, arrivals, gap - delta)
    {
      Reported(codec, work.messages, delta, arrivals, gap);
    }
  }

  lemma AtLeastOne(counts: seq<nat>)
    requires Contributing(counts)
    ensures forall i :: 0 <= i < |counts| ==> counts[i] >= 1
  {
  }

  lemma MoreThanGroups(groups: seq<seq<real>>, counts: seq<nat>)
    requires HasCounts(groups, counts) && Contributing(counts)
    ensures |Concat(groups)| > |groups|
  {
    ConcatLength(groups, counts);
  }

  /** The reported variance is above that of all samples by more than `excess`, or just
      as much. */
  predicate ReportedAbove(codec: Codec, messages: int, arrivals: seq<P.Arrival>, excess: real) {
    var t := Sink.TallyOf(codec, messages, RenderAll(codec, arrivals));
    && AllSamples(arrivals) != [] && t.totalcount > t.samples
    && t.variancesum / (t.totalcount - t.samples) as real >= Variance(AllSamples(arrivals)) + excess
  }

  lemma Reported(codec: Codec, messages: int, delta: real, arrivals: seq<P.Arrival>, gap: real)
    requires PrintsWords(codec) && messages <= INT_MAX && delta >= 0.0
    requires AllFinal(messages, arrivals) && AllLegible(codec, delta, arrivals)
    requires AllSamples(arrivals) != [] && |AllSamples(arrivals)| > |Groups(arrivals)|
    requires gap == PooledVariance(Groups(arrivals)) - Variance(AllSamples(arrivals))
    ensures ReportedAbove(codec, messages, arrivals, gap - delta)
  {
    hide PrintsWords, AllFinal, AllLegible, Sink.TallyOf, Groups, Concat, Variance, PooledVariance, RenderAll;
    VarianceEndToEnd(codec, messages, delta, arrivals);
  }

  /** The connections consumed that have samples have this many. */
  predicate ConsumedCounts(s: P.System, counts: seq<nat>) {
    s.taken <= |s.arrived| && HasCounts(Groups(P.Consumed(s)), counts)
  }

  /** At the end of any run with these counts of consumed samples, the pooled variance
      is at most the variance of all samples. */
  ghost predicate NeverAboveTotal(cfg: P.Config, counts: seq<nat>) {
    forall s :: P.Reachable(cfg, s) && s.phase == P.Over && ConsumedCounts(s, counts) ==>
      AtMostTotal(Groups(P.Consumed(s)))
  }

  /** Equal counts suffice, in runs of any configuration. */
  lemma EqualCountsNeverAbove(cfg: P.Config, counts: seq<nat>)
    requires Contributing(counts) && AllEqual(counts)
    ensures NeverAboveTotal(cfg, counts)
  {
    hide P.Reachable, Contributing, AllEqual, HasCounts, AtMostTotal, Groups;
    forall s | P.Reachable(cfg, s) && s.phase == P.Over && ConsumedCounts(s, counts)
      ensures AtMostTotal(Groups(P.Consumed(s)))
    {
      EqualAtMostTotal(Groups(P.Consumed(s)), counts);
    }
  }

  /** The exact condition, over all runs of one machine with one process: the pooled
      variance of consumed connections with these counts is always at most that of all of
      their samples, if and only if the counts are equal. */
  lemma NeverAboveTotalExactly(work: Work, counts: seq<nat>)
    requires Contributing(counts) && work.messages <= INT_MAX && |counts| == work.instances
    requires forall i :: 0 <= i < |counts| ==> counts[i] <= work.messages
    ensures NeverAboveTotal(P.Config(1, 1, work), counts) <==> AllEqual(counts)
  {
    hide P.Reachable, O.OrderlyRun, Contributing, AllEqual, AtMostTotal, Groups, HasCounts;
    if AllEqual(counts) {
      EqualCountsNeverAbove(P.Config(1, 1, work), counts);
    } else {
      var trace, s, gap := ReportedCanExceedTotal(work, counts);
    }
  }

  /** The same for finished connections as such, however many children they belong to. */
  lemma AtMostTotalExactly(messages: int, counts: seq<nat>)
    requires Contributing(counts) && messages <= INT_MAX
    requires forall i :: 0 <= i < |counts| ==> counts[i] <= messages
    ensures (forall arrivals :: AllFinal(messages, arrivals) && HasCounts(Groups(arrivals), counts) ==>
               AtMostTotal(Groups(arrivals))) <==> AllEqual(counts)
  {
    hide P.Reachable, O.OrderlyRun, P.Enabled, Contributing, AllEqual, AtMostTotal, AllFinal, Groups, HasCounts;
    if AllEqual(counts) {
      forall arrivals | AllFinal(messages, arrivals) && HasCounts(Groups(arrivals), counts)
        ensures AtMostTotal(Groups(arrivals))
      {
        EqualAtMostTotal(Groups(arrivals), counts);
      }
    } else {
      var work := Work("", |counts|, true, true, 0, messages, 0);
      var trace, s, gap := ReportedCanExceedTotal(work, counts);
      FinishedRun(P.Config(1, 1, work), s);
      assert AllFinal(messages, P.Consumed(s));
    }
  }
}
