/** The controller's sink: the messages fanned in from all listeners and children,
    the loop that reads them frame by frame, and the totals it accumulates. */
module Sink {
  import opened Sums
  import opened Text
  import opened Report
  import opened Statistics

  datatype SinkMessage = Result(line: string) | Finished(status: int)

  function MessageFrames(m: SinkMessage): seq<string> {
    match m
    case Result(line) => ["Result", line, ""]
    case Finished(status) => ["Finished", "", PrintInt(status), ""]
  }

  function SinkFrames(ms: seq<SinkMessage>): seq<string> {
    if ms == [] then [] else MessageFrames(ms[0]) + SinkFrames(ms[1..])
  }

  // ----- the totals -----

  datatype Tally = Tally(
    clientsFinished: int,
    clientsDied: int,
    resultsReceived: int,
    connectionsDied: int,
    connectionsSucceeded: int,
    meansum: real,
    variancesum: real,
    totalcount: int,
    samples: int)

  const EMPTY := Tally(0, 0, 0, 0, 0, 0.0, 0.0, 0, 0)

  function AddExit(t: Tally, exitStatus: string): Tally {
    if exitStatus == "0" then t.(clientsFinished := t.clientsFinished + 1)
    else t.(clientsDied := t.clientsDied + 1)
  }

  function AddResult(messages: int, t: Tally, d: Decoded): Tally {
    var success := d.kind == "success" && d.count == messages;
    var t' := t.(resultsReceived := t.resultsReceived + 1,
                 connectionsSucceeded := t.connectionsSucceeded + (if success then 1 else 0),
                 connectionsDied := t.connectionsDied + (if success then 0 else 1));
    if d.count <= 0 then t'
    else t'.(meansum := t.meansum + Times(d.count as real, d.mean),
             totalcount := t.totalcount + d.count,
             samples := t.samples + 1,
             variancesum := t.variancesum + Times((d.count - 1) as real, d.variance))
  }

  function AddMessage(codec: Codec, messages: int, t: Tally, m: SinkMessage): Tally {
    match m
    case Finished(status) => AddExit(t, PrintInt(status))
    case Result(line) => AddResult(messages, t, Decode(codec, line))
  }

  function TallyOf(codec: Codec, messages: int, ms: seq<SinkMessage>): Tally {
    if ms == [] then EMPTY
    else AddMessage(codec, messages, TallyOf(codec, messages, ms[..|ms| - 1]), ms[|ms| - 1])
  }

  function IsFinished(m: SinkMessage): int { if m.Finished? then 1 else 0 }

  function Finishes(ms: seq<SinkMessage>): int { Sum(ms, IsFinished) }

  /** Consuming message k. */
  lemma TallyNext(codec: Codec, messages: int, ms: seq<SinkMessage>, k: nat)
    requires k < |ms|
    ensures TallyOf(codec, messages, ms[..k + 1]) ==
            AddMessage(codec, messages, TallyOf(codec, messages, ms[..k]), ms[k])
    ensures Finishes(ms[..k + 1]) == Finishes(ms[..k]) + IsFinished(ms[k])
  {
    assert ms[..k + 1][..k] == ms[..k];
  }

  function Exits(t: Tally): int { t.clientsFinished + t.clientsDied }

  lemma {:induction false} ExitsAreFinishes(codec: Codec, messages: int, ms: seq<SinkMessage>)
    ensures Exits(TallyOf(codec, messages, ms)) == Finishes(ms)
  {
    if ms != [] {
      var k := |ms| - 1;
      ExitsAreFinishes(codec, messages, ms[..k]);
      TallyNext(codec, messages, ms, k);
      assert ms[..k + 1] == ms;
    }
  }

  // ----- the receive loop -----

  /** The frames the loop has not read when it has consumed k messages: it leaves the
      last frame of a Finished message for the next iteration. */
  function Unread(ms: seq<SinkMessage>, k: nat): seq<string>
    requires k <= |ms|
  {
    (if k > 0 && ms[k - 1].Finished? then [""] else []) + SinkFrames(ms[k..])
  }

  lemma SinkFramesNext(ms: seq<SinkMessage>, k: nat)
    requires k < |ms|
    ensures SinkFrames(ms[k..]) == MessageFrames(ms[k]) + SinkFrames(ms[k + 1..])
  {
    assert ms[k..][1..] == ms[k + 1..];
  }

  /** At a loop head: message k is next, possibly behind one trailing frame. */
  ghost predicate AtHead(ms: seq<SinkMessage>, k: nat, frames: seq<string>, pos: nat) {
    && k <= |ms| && pos <= |frames|
    && (frames[pos..] == Unread(ms, k) || frames[pos..] == SinkFrames(ms[k..]))
  }

  /** The loop's accumulated state: k messages consumed, none of them too many. */
  ghost predicate Accumulated(codec: Codec, messages: int, target: int, ms: seq<SinkMessage>, k: nat, t: Tally) {
    && k <= |ms|
    && t == TallyOf(codec, messages, ms[..k])
    && Exits(t) == Finishes(ms[..k])
    && forall j :: 0 <= j < k ==> Finishes(ms[..j]) < target
  }

  /** One iteration of the sink loop, with at least one frame to read. */
  method ReadOne(codec: Codec, messages: int, target: int, frames: seq<string>, ghost ms: seq<SinkMessage>,
                 t: Tally, pos: nat, ghost k: nat)
    returns (t': Tally, pos': nat, ghost k': nat)
    requires AtHead(ms, k, frames, pos) && pos < |frames|
    requires Accumulated(codec, messages, target, ms, k, t) && Exits(t) < target
    ensures k' <= |ms| && pos < pos' <= |frames|
    ensures AtHead(ms, k', frames, pos')
    ensures Accumulated(codec, messages, target, ms, k', t')
    ensures Exits(t') < target || frames[pos'..] == Unread(ms, k')
  {
    hide TallyOf, Decode, AddExit, AddResult, PrintInt, Unread, SinkFrames, Sum;
    t', k' := t, k;
    var status := frames[pos];
    pos' := pos + 1;
    if status == "Finished" {
      NextMessage(ms, k, frames, pos);
      var name, exitStatus := frames[pos'], frames[pos' + 1];
      pos' := pos' + 2;
      t' := AddExit(t, exitStatus);
      k' := k + 1;
      TallyNext(codec, messages, ms, k);
      ExitsAreFinishes(codec, messages, ms[..k']);
    } else if status == "Result" {
      NextMessage(ms, k, frames, pos);
      var stats := frames[pos'];
      pos' := pos' + 2;
      t' := AddResult(messages, t, Decode(codec, stats));
      k' := k + 1;
      TallyNext(codec, messages, ms, k);
      ExitsAreFinishes(codec, messages, ms[..k']);
    } else {
      SkipTrailing(ms, k, frames, pos);
    }
  }

  /** The sink loop, over the frames that have arrived: whole messages, from any
      number of senders, in any order. `blocked` means that the loop is waiting for
      a frame after reading all of them. Consuming k messages, it reaches exactly
      their totals, stops at the first message that completes the target number of
      exits, and leaves unread what Unread says. */
  method DrainSink(codec: Codec, messages: int, target: int, frames: seq<string>, ghost ms: seq<SinkMessage>)
    returns (t: Tally, pos: nat, blocked: bool, ghost k: nat)
    requires frames == SinkFrames(ms)
    ensures k <= |ms| && pos <= |frames|
    ensures t == TallyOf(codec, messages, ms[..k])
    ensures blocked ==> k == |ms| && pos == |frames| && Finishes(ms) < target
    ensures !blocked ==> Finishes(ms[..k]) >= target && frames[pos..] == Unread(ms, k)
    ensures forall j :: 0 <= j < k ==> Finishes(ms[..j]) < target
  {
    hide *;
    t, pos, k := EMPTY, 0, 0;
    StartOfSink(codec, messages, target, frames, ms);
    while Exits(t) < target
      invariant k <= |ms| && pos <= |frames|
      invariant AtHead(ms, k, frames, pos)
      invariant Accumulated(codec, messages, target, ms, k, t)
      invariant Exits(t) < target || frames[pos..] == Unread(ms, k)
      decreases |frames| - pos
    {
      if pos == |frames| {
        AllRead(ms, k, frames, pos);
        Outcome(codec, messages, target, ms, k, t, frames, pos);
        return t, pos, true, k;
      }
      t, pos, k := ReadOne(codec, messages, target, frames, ms, t, pos, k);
    }
    Outcome(codec, messages, target, ms, k, t, frames, pos);
    blocked := false;
  }

  lemma Outcome(codec: Codec, messages: int, target: int, ms: seq<SinkMessage>, k: nat, t: Tally,
                frames: seq<string>, pos: nat)
    requires AtHead(ms, k, frames, pos) && Accumulated(codec, messages, target, ms, k, t)
    ensures k <= |ms| && pos <= |frames|
    ensures t == TallyOf(codec, messages, ms[..k]) && Exits(t) == Finishes(ms[..k])
    ensures forall j :: 0 <= j < k ==> Finishes(ms[..j]) < target
  {
  }

  lemma StartOfSink(codec: Codec, messages: int, target: int, frames: seq<string>, ms: seq<SinkMessage>)
    requires frames == SinkFrames(ms)
    ensures frames[0..] == Unread(ms, 0)
    ensures AtHead(ms, 0, frames, 0)
    ensures Accumulated(codec, messages, target, ms, 0, EMPTY)
  {
    assert ms[0..] == ms && frames[0..] == frames && ms[..0] == [];
  }

  /** Nothing left to read: every message has been consumed. */
  lemma AllRead(ms: seq<SinkMessage>, k: nat, frames: seq<string>, pos: nat)
    requires AtHead(ms, k, frames, pos) && pos == |frames|
    ensures k == |ms| && ms[..k] == ms
  {
    if k < |ms| {
      SinkFramesNext(ms, k);
    }
  }

  /** A status frame that is a keyword starts message k. */
  lemma NextMessage(ms: seq<SinkMessage>, k: nat, frames: seq<string>, pos: nat)
    requires AtHead(ms, k, frames, pos) && pos < |frames|
    requires frames[pos] == "Finished" || frames[pos] == "Result"
    ensures k < |ms|
    ensures ms[k].Finished? <==> frames[pos] == "Finished"
    ensures ms[k].Finished? ==>
              && pos + 3 <= |frames| && frames[pos + 2] == PrintInt(ms[k].status)
              && frames[pos + 3..] == Unread(ms, k + 1)
    ensures ms[k].Result? ==>
              && pos + 3 <= |frames| && frames[pos + 1] == ms[k].line
              && frames[pos + 3..] == Unread(ms, k + 1)
  {
    var rest := frames[pos..];
    assert rest[0] == frames[pos];
    assert |"Finished"| == 8 && |"Result"| == 6 && |""| == 0;
    assert rest == SinkFrames(ms[k..]);
    if k == |ms| {
      assert false;
    }
    SinkFramesNext(ms, k);
    var m, tail := ms[k], SinkFrames(ms[k + 1..]);
    assert rest[0] == MessageFrames(m)[0];
    assert rest[3..] == MessageFrames(m)[3..] + tail;
    assert frames[pos + 3..] == rest[3..];
    assert rest[1] == frames[pos + 1] && rest[2] == frames[pos + 2];
  }

  /** Any other status frame is the trailing empty frame of a Finished message. */
  lemma SkipTrailing(ms: seq<SinkMessage>, k: nat, frames: seq<string>, pos: nat)
    requires AtHead(ms, k, frames, pos) && pos < |frames|
    requires frames[pos] != "Finished" && frames[pos] != "Result"
    ensures frames[pos + 1..] == SinkFrames(ms[k..])
  {
    var rest := frames[pos..];
    assert rest[0] == frames[pos];
    if rest == SinkFrames(ms[k..]) {
      SinkFramesNext(ms, k);
      assert false;
    }
    assert rest == [""] + SinkFrames(ms[k..]);
    assert frames[pos + 1..] == rest[1..];
  }

  // ----- order independence -----

  lemma ResultsCommute(messages: int, t: Tally, a: Decoded, b: Decoded)
    ensures AddResult(messages, AddResult(messages, t, a), b) == AddResult(messages, AddResult(messages, t, b), a)
  {
    hide Times;
  }

  lemma MessagesCommute(codec: Codec, messages: int, t: Tally, a: SinkMessage, b: SinkMessage)
    ensures AddMessage(codec, messages, AddMessage(codec, messages, t, a), b) ==
            AddMessage(codec, messages, AddMessage(codec, messages, t, b), a)
  {
    hide Times, Decode, PrintInt;
    match (a, b)
    case (Result(la), Result(lb)) => ResultsCommute(messages, t, Decode(codec, la), Decode(codec, lb));
    case _ =>
  }

  /** A message may be consumed last instead of at position i. */
  lemma {:induction false} MoveToEnd(codec: Codec, messages: int, ms: seq<SinkMessage>, i: nat)
    requires i < |ms|
    ensures TallyOf(codec, messages, ms) ==
            AddMessage(codec, messages, TallyOf(codec, messages, ms[..i] + ms[i + 1..]), ms[i])
    decreases |ms|
  {
    hide AddMessage;
    var n := |ms| - 1;
    var rest := ms[..i] + ms[i + 1..];
    if i == n {
      assert rest == ms[..n];
    } else {
      MoveToEnd(codec, messages, ms[..n], i);
      var shorter := ms[..n][..i] + ms[..n][i + 1..];
      assert rest[..|rest| - 1] == shorter && rest[|rest| - 1] == ms[n];
      MessagesCommute(codec, messages, TallyOf(codec, messages, shorter), ms[i], ms[n]);
    }
  }

  /** The totals depend only on which messages were consumed, not on the order in
      which the fan-in interleaved their senders. */
  lemma {:induction false} OrderIndependence(codec: Codec, messages: int, a: seq<SinkMessage>, b: seq<SinkMessage>)
    requires multiset(a) == multiset(b)
    ensures TallyOf(codec, messages, a) == TallyOf(codec, messages, b)
    decreases |a|
  {
    assert |a| == |multiset(a)| == |multiset(b)| == |b|;
    if a != [] {
      var n := |a| - 1;
      var x := a[n];
      assert a == a[..n] + [x];
      assert x in multiset(b);
      var i :| 0 <= i < |b| && b[i] == x;
      var rest := b[..i] + b[i + 1..];
      assert b == b[..i] + [x] + b[i + 1..];
      assert multiset(rest) == multiset(b) - multiset{x} == multiset(a[..n]);
      OrderIndependence(codec, messages, a[..n], rest);
      MoveToEnd(codec, messages, b, i);
    }
  }

  // ----- what the counters mean -----

  function Results(ms: seq<SinkMessage>): int { |ms| - Finishes(ms) }

  /** The result is one with at least two samples, which gives its variance weight. */
  predicate Weighty(codec: Codec, m: SinkMessage) {
    m.Result? && Decode(codec, m.line).count >= 2
  }

  /** Every result received is counted once, as a success or a death; the samples
      counted number at least the results that contributed, with a positive
      difference exactly when some result has two samples or more. */
  lemma {:induction false} Counters(codec: Codec, messages: int, ms: seq<SinkMessage>)
    ensures var t := TallyOf(codec, messages, ms);
            && t.resultsReceived == Results(ms) >= 0
            && t.connectionsSucceeded + t.connectionsDied == t.resultsReceived
            && 0 <= t.connectionsSucceeded && 0 <= t.connectionsDied
            && 0 <= t.clientsFinished && 0 <= t.clientsDied
            && 0 <= t.samples <= t.resultsReceived && t.samples <= t.totalcount
            && (t.samples < t.totalcount <==> exists i :: 0 <= i < |ms| && Weighty(codec, ms[i]))
  {
    hide Decode, Times, PrintInt;
    if ms != [] {
      var k := |ms| - 1;
      Counters(codec, messages, ms[..k]);
      TallyNext(codec, messages, ms, k);
      assert ms[..k + 1] == ms;
      assert forall i :: 0 <= i < k ==> ms[..k][i] == ms[i];
      assert (exists i :: 0 <= i < |ms| && Weighty(codec, ms[i])) <==>
             (exists i :: 0 <= i < k && Weighty(codec, ms[..k][i])) || Weighty(codec, ms[k]);
    }
  }

  lemma {:induction false} VarianceSumBounds(codec: Codec, messages: int, ms: seq<SinkMessage>, lo: real, hi: real)
    requires forall i :: 0 <= i < |ms| && Weighty(codec, ms[i]) ==> lo <= Decode(codec, ms[i].line).variance <= hi
    ensures var t := TallyOf(codec, messages, ms);
            var weight := (t.totalcount - t.samples) as real;
            Times(lo, weight) <= t.variancesum <= Times(hi, weight)
  {
    hide Decode, Times, PrintInt;
    if ms == [] {
      TimesZero(lo);
      TimesZero(hi);
    } else {
      var k := |ms| - 1;
      VarianceSumBounds(codec, messages, ms[..k], lo, hi);
      TallyNext(codec, messages, ms, k);
      assert ms[..k + 1] == ms;
      var t := TallyOf(codec, messages, ms[..k]);
      if ms[k].Result? {
        var d := Decode(codec, ms[k].line);
        if d.count >= 1 {
          assert d.count >= 2 ==> Weighty(codec, ms[k]);
          var w := (d.count - 1) as real;
          TimesBounds(w, lo, d.variance, hi);
          TimesSum(lo, (t.totalcount - t.samples) as real, w);
          TimesSum(hi, (t.totalcount - t.samples) as real, w);
        }
      }
    }
  }

  lemma TimesBounds(w: real, lo: real, x: real, hi: real)
    requires w == 0.0 || (w > 0.0 && lo <= x <= hi)
    ensures Times(lo, w) <= Times(w, x) <= Times(hi, w)
  {
  }

  lemma QuotientBounds(a: real, w: real, lo: real, hi: real)
    requires w > 0.0 && Times(lo, w) <= a <= Times(hi, w)
    ensures lo <= a / w <= hi
  {
  }

  /** The overall variance the controller prints, when it is defined: it lies between
      any two bounds on the variances of the results with at least two samples. */
  lemma OverallVarianceBounds(codec: Codec, messages: int, ms: seq<SinkMessage>, lo: real, hi: real)
    requires exists i :: 0 <= i < |ms| && Weighty(codec, ms[i])
    requires forall i :: 0 <= i < |ms| && Weighty(codec, ms[i]) ==> lo <= Decode(codec, ms[i].line).variance <= hi
    ensures var t := TallyOf(codec, messages, ms);
            && t.totalcount - t.samples > 0
            && lo <= t.variancesum / (t.totalcount - t.samples) as real <= hi
  {
    hide Decode, Times;
    var t := TallyOf(codec, messages, ms);
    Counters(codec, messages, ms);
    VarianceSumBounds(codec, messages, ms, lo, hi);
    QuotientBounds(t.variancesum, (t.totalcount - t.samples) as real, lo, hi);
  }
}
