/** The programs around the protocol, in the form of their loops: the controller's
    two synchronisation loops, the listener's receive, launch and reap loops, and the
    child's receive loops and work. */
module Programs {
  import opened Sums
  import opened Text
  import opened Wire
  import opened Telemetry
  import opened BaseClient
  import P = Protocol
  import Report
  import Scripts
  import Sink

  // ----- the controller: synchronisation loops -----

  /** The outcome of a receive on the sync socket: it times out, or takes a request. */
  datatype Poll = Timeout | Request

  /** What the loop does about it: publish HELLO, or reply. */
  datatype Response = Greet | Reply

  function IsRequest(p: Poll): int { if p == Request then 1 else 0 }

  function Requests(polls: seq<Poll>): int { Sum(polls, IsRequest) }

  /** The loop from a count on: the count it reaches, and its responses. */
  function SyncFrom(target: int, count: int, polls: seq<Poll>): (int, seq<Response>)
    decreases |polls|
  {
    if count >= target || polls == [] then (count, [])
    else
      var reply := polls[0] == Request;
      var (reached, rest) := SyncFrom(target, if reply then count + 1 else count, polls[1..]);
      (reached, [if reply then Reply else Greet] + rest)
  }

  /** One more poll, below the target. */
  lemma PollNext(target: int, count: int, polls: seq<Poll>, i: nat)
    requires i < |polls| && count < target
    ensures Requests(polls[..i + 1]) == Requests(polls[..i]) + IsRequest(polls[i])
    ensures var reply := polls[i] == Request;
            SyncFrom(target, count, polls[i..]) ==
            (var (reached, rest) := SyncFrom(target, if reply then count + 1 else count, polls[i + 1..]);
             (reached, [if reply then Reply else Greet] + rest))
  {
    assert polls[..i + 1][..i] == polls[..i] && polls[i..][1..] == polls[i + 1..];
  }

  lemma PollsDone(target: int, count: int, polls: seq<Poll>)
    requires count >= target || polls == []
    ensures SyncFrom(target, count, polls) == (count, [])
  {
  }

  lemma NoneRequested(polls: seq<Poll>)
    ensures Requests(polls[..0]) == 0
  {
  }

  /** Counts peers up to the target, greeting on every time-out and answering every
      request once, in turn. `blocked` means that it is still polling. When it ends it
      has answered exactly the target number of peers. */
  method Synchronise(target: int, polls: seq<Poll>)
    returns (count: int, responses: seq<Response>, blocked: bool)
    ensures (count, responses) == SyncFrom(target, 0, polls)
    ensures |responses| <= |polls| && count == Requests(polls[..|responses|])
    ensures forall i :: 0 <= i < |responses| ==> responses[i] == if polls[i] == Request then Reply else Greet
    ensures blocked ==> |responses| == |polls| && Requests(polls) < target
    ensures !blocked ==> count == (if target > 0 then target else 0)
    ensures forall i :: 0 <= i < |responses| ==> Requests(polls[..i]) < target
  {
    hide SyncFrom, Requests;
    count, responses := 0, [];
    assert polls[0..] == polls;
    NoneRequested(polls);
    while count < target
      invariant |responses| <= |polls| && count == Requests(polls[..|responses|])
      invariant 0 <= count && (count <= target || count == 0)
      invariant SyncFrom(target, 0, polls).0 == SyncFrom(target, count, polls[|responses|..]).0
      invariant SyncFrom(target, 0, polls).1 == responses + SyncFrom(target, count, polls[|responses|..]).1
      invariant forall i :: 0 <= i < |responses| ==> responses[i] == if polls[i] == Request then Reply else Greet
      invariant forall i :: 0 <= i < |responses| ==> Requests(polls[..i]) < target
      decreases |polls| - |responses|
    {
      var i := |responses|;
      if i == |polls| {
        assert polls[..i] == polls;
        PollsDone(target, count, polls[i..]);
        assert responses + [] == responses;
        return count, responses, true;
      }
      PollNext(target, count, polls, i);
      if polls[i] == Timeout {
        responses := responses + [Greet];
        continue;
      }
      responses := responses + [Reply];
      count := count + 1;
    }
    PollsDone(target, count, polls[|responses|..]);
    assert responses + [] == responses;
    blocked := false;
  }

  // ----- the listener: receive loops -----

  /** What a listener can hear. */
  predicate ForListener(p: Publication) {
    p.HelloListener? || p.End? || (p.StartProcesses? && IsInt32(p.processes))
  }

  /** What it makes of it: waiting (for HELLO, or for a request), ending, or launching
      a number of processes. */
  datatype Verdict = Waiting(synced: bool) | Ending | Launching(processes: int)

  /** The listener publication by publication: nothing counts before HELLO. Also, how
      many publications it has read. */
  function Listen(synced: bool, ps: seq<Publication>): (Verdict, nat)
    decreases |ps|
  {
    if ps == [] then (Waiting(synced), 0)
    else if synced && ps[0].End? then (Ending, 1)
    else if synced && ps[0].StartProcesses? then (Launching(ps[0].processes), 1)
    else
      var (v, n) := Listen(synced || ps[0].HelloListener?, ps[1..]);
      (v, n + 1)
  }

  lemma AllFramesNext(ps: seq<Publication>, k: nat)
    requires k < |ps|
    ensures AllFrames(ps[k..]) == Frames(ps[k]) + AllFrames(ps[k + 1..])
  {
    assert ps[k..][1..] == ps[k + 1..];
  }

  /** One frame of the HELLO loop: either the next publication begins, or a frame left
      over from the one before is skipped. */
  lemma HelloFrame(ps: seq<Publication>, k: nat, frames: seq<string>, pos: nat, left: nat)
    returns (k': nat, left': nat)
    requires forall i :: 0 <= i < |ps| ==> ForListener(ps[i])
    requires k <= |ps| && pos < |frames| && left <= 2 && LeftOver(ps, k, frames, pos, left)
    ensures k' <= |ps| && left' <= 2 && LeftOver(ps, k', frames, pos + 1, left')
    ensures frames[pos] == "HELLO_LISTENER" <==> left == 0 && k < |ps| && ps[k].HelloListener?
    ensures k' == (if left == 0 then k + 1 else k)
    ensures left == 0 && k < |ps| && !ps[k].StartProcesses? ==> left' == 0
  {
    var rest := frames[pos..];
    assert rest[0] == frames[pos] && frames[pos + 1..] == rest[1..];
    assert |"HELLO_LISTENER"| == 14 && |""| == 0;
    if left > 0 {
      k', left' := k, left - 1;
      NumberIsNotHello(ps[k - 1].processes);
      assert rest[0] == Frames(ps[k - 1])[3 - left];
      assert rest[1..] == Frames(ps[k - 1])[3 - left'..] + AllFrames(ps[k..]);
    } else {
      if k == |ps| {
        assert false;
      }
      AllFramesNext(ps, k);
      TopicsDiffer(ps[k]);
      k', left' := k + 1, |Frames(ps[k])| - 1;
      assert rest[0] == Frames(ps[k])[0];
      assert rest[1..] == Frames(ps[k])[1..] + AllFrames(ps[k + 1..]);
    }
  }

  /** The last `left` frames of publication k - 1 are still unread, then all later ones. */
  ghost predicate LeftOver(ps: seq<Publication>, k: nat, frames: seq<string>, pos: nat, left: nat)
    requires k <= |ps|
  {
    && pos <= |frames|
    && (left > 0 ==> k > 0 && ps[k - 1].StartProcesses? && left <= 2)
    && frames[pos..] ==
       (if left > 0 then Frames(ps[k - 1])[3 - left..] else []) + AllFrames(ps[k..])
  }

  lemma NumberIsNotHello(n: int)
    ensures PrintInt(n) != "HELLO_LISTENER"
  {
    assert IsDigit(PrintNat(if n < 0 then -n else n)[0]);
    assert PrintInt(n)[0] != 'H';
  }

  lemma TopicsDiffer(p: Publication)
    requires ForListener(p)
    ensures Topic(p) == "HELLO_LISTENER" <==> p.HelloListener?
    ensures Topic(p) == "END" <==> p.End?
    ensures Topic(p) == "StartProcesses" <==> p.StartProcesses?
  {
    FirstLetters();
  }

  lemma ListenSkips(synced: bool, ps: seq<Publication>, k: nat)
    requires k < |ps| && !(synced && (ps[k].End? || ps[k].StartProcesses?))
    ensures Listen(synced, ps[k..]).0 == Listen(synced || ps[k].HelloListener?, ps[k + 1..]).0
    ensures Listen(synced, ps[k..]).1 == Listen(synced || ps[k].HelloListener?, ps[k + 1..]).1 + 1
  {
    assert ps[k..][1..] == ps[k + 1..];
  }

  /** A listener that has read k publications, and whether it has seen HELLO, will
      come to the verdict it comes to from the start. */
  ghost predicate OnTrack(ps: seq<Publication>, k: nat, synced: bool) {
    && k <= |ps|
    && Listen(false, ps).0 == Listen(synced, ps[k..]).0
    && Listen(false, ps).1 == k + Listen(synced, ps[k..]).1
  }

  lemma StayOnTrack(ps: seq<Publication>, k: nat, synced: bool)
    requires k < |ps| && OnTrack(ps, k, synced)
    requires !(synced && (ps[k].End? || ps[k].StartProcesses?))
    ensures OnTrack(ps, k + 1, synced || ps[k].HelloListener?)
  {
    ListenSkips(synced, ps, k);
  }

  /** The outer loop: frames are skipped one by one until HELLO. */
  method AwaitHello(frames: seq<string>, ghost ps: seq<Publication>)
    returns (synced: bool, pos: nat, ghost k: nat)
    requires frames == AllFrames(ps) && forall i :: 0 <= i < |ps| ==> ForListener(ps[i])
    ensures k <= |ps| && pos <= |frames| && OnTrack(ps, k, synced)
    ensures frames[pos..] == AllFrames(ps[k..])
    ensures !synced ==> k == |ps|
  {
    hide Listen, AllFrames, PrintInt, OnTrack;
    ghost var left := 0;
    pos, k := 0, 0;
    StartOnTrack(ps, frames);
    while true
      invariant k <= |ps| && left <= 2 && LeftOver(ps, k, frames, pos, left)
      invariant OnTrack(ps, k, false)
      decreases |frames| - pos
    {
      if pos == |frames| {
        NothingLeft(ps, k, frames, pos, left);
        return false, pos, k;
      }
      var msg := frames[pos];
      ghost var k0, left0 := k, left;
      k, left := HelloFrame(ps, k, frames, pos, left);
      pos := pos + 1;
      if left0 == 0 {
        StayOnTrack(ps, k0, false);
      }
      if msg == "HELLO_LISTENER" {
        return true, pos, k;
      }
    }
  }

  lemma StartOnTrack(ps: seq<Publication>, frames: seq<string>)
    requires frames == AllFrames(ps)
    ensures OnTrack(ps, 0, false) && LeftOver(ps, 0, frames, 0, 0)
  {
    assert ps[0..] == ps && frames[0..] == frames;
  }

  lemma NothingLeft(ps: seq<Publication>, k: nat, frames: seq<string>, pos: nat, left: nat)
    requires k <= |ps| && LeftOver(ps, k, frames, pos, left) && pos == |frames|
    ensures k == |ps| && frames[pos..] == AllFrames(ps[k..])
  {
    if k < |ps| {
      AllFramesNext(ps, k);
    }
  }

  /** The inner loop, after the reply to the synchronisation request. */
  method AwaitRequest(frames: seq<string>, from: nat, ghost ps: seq<Publication>, ghost k0: nat)
    returns (v: Verdict, pos: nat, ghost k: nat)
    requires k0 <= |ps| && OnTrack(ps, k0, true) && from <= |frames| && frames[from..] == AllFrames(ps[k0..])
    requires forall i :: 0 <= i < |ps| ==> ForListener(ps[i])
    ensures k <= |ps| && pos <= |frames| && frames[pos..] == AllFrames(ps[k..])
    ensures (v, k) == Listen(false, ps)
  {
    hide Listen, AllFrames, PrintInt, OnTrack;
    pos, k := from, k0;
    while true
      invariant k <= |ps| && pos <= |frames| && frames[pos..] == AllFrames(ps[k..])
      invariant OnTrack(ps, k, true)
      decreases |frames| - pos
    {
      if pos == |frames| {
        NothingLeft(ps, k, frames, pos, 0);
        VerdictAtEnd(ps, k);
        return Waiting(true), pos, k;
      }
      RequestFrames(ps, k, frames, pos);
      VerdictNow(ps, k);
      var request := frames[pos];
      pos := pos + 1;
      k := k + 1;
      if request == "END" {
        return Ending, pos, k;
      } else if request == "StartProcesses" {
        var n := ReadInt(Stream(frames[pos], true)).0.GetOr(0);
        pos := pos + 2;
        return Launching(n), pos, k;
      }
    }
  }

  lemma RequestFrames(ps: seq<Publication>, k: nat, frames: seq<string>, pos: nat)
    requires k <= |ps| && pos < |frames| && frames[pos..] == AllFrames(ps[k..])
    requires forall i :: 0 <= i < |ps| ==> ForListener(ps[i])
    ensures k < |ps|
    ensures frames[pos] == "END" <==> ps[k].End?
    ensures frames[pos] == "StartProcesses" <==> ps[k].StartProcesses?
    ensures !ps[k].StartProcesses? ==> frames[pos + 1..] == AllFrames(ps[k + 1..])
    ensures ps[k].StartProcesses? ==>
              && pos + 3 <= |frames| && frames[pos + 3..] == AllFrames(ps[k + 1..])
              && ReadInt(Stream(frames[pos + 1], true)).0 == Some(ps[k].processes)
  {
    var rest := frames[pos..];
    assert rest != [];
    if k == |ps| {
      assert false;
    }
    AllFramesNext(ps, k);
    TopicsDiffer(ps[k]);
    assert rest[0] == frames[pos] == Topic(ps[k]);
    var n := |Frames(ps[k])|;
    assert frames[pos + n..] == rest[n..] == AllFrames(ps[k + 1..]);
    if ps[k].StartProcesses? {
      assert rest[1] == frames[pos + 1] == PrintInt(ps[k].processes);
      ReadIntExact(ps[k].processes);
    }
  }

  lemma VerdictAtEnd(ps: seq<Publication>, k: nat)
    requires OnTrack(ps, k, true) && k == |ps|
    ensures Listen(false, ps) == (Waiting(true), k)
  {
  }

  lemma VerdictNow(ps: seq<Publication>, k: nat)
    requires OnTrack(ps, k, true) && k < |ps|
    ensures ps[k].End? ==> Listen(false, ps) == (Ending, k + 1)
    ensures ps[k].StartProcesses? ==> Listen(false, ps) == (Launching(ps[k].processes), k + 1)
    ensures !ps[k].End? && !ps[k].StartProcesses? ==> OnTrack(ps, k + 1, true)
  {
    if !ps[k].End? && !ps[k].StartProcesses? {
      StayOnTrack(ps, k, true);
    }
  }

  /** The listener's receive loops, frame by frame, come to the verdict of the
      publications themselves, and stop on a message boundary. */
  method ListenerReceives(frames: seq<string>, ghost ps: seq<Publication>)
    returns (v: Verdict, pos: nat, ghost k: nat)
    requires frames == AllFrames(ps) && forall i :: 0 <= i < |ps| ==> ForListener(ps[i])
    ensures k <= |ps| && pos <= |frames| && frames[pos..] == AllFrames(ps[k..])
    ensures (v, k) == Listen(false, ps)
  {
    hide Listen, AllFrames, PrintInt;
    var synced;
    synced, pos, k := AwaitHello(frames, ps);
    if !synced {
      UnsyncedAtEnd(ps, k);
      return Waiting(false), pos, k;
    }
    v, pos, k := AwaitRequest(frames, pos, ps, k);
  }

  lemma UnsyncedAtEnd(ps: seq<Publication>, k: nat)
    requires OnTrack(ps, k, false) && k == |ps|
    ensures Listen(false, ps) == (Waiting(false), k)
  {
  }

  /** A listener launches only on a request that follows a HELLO, and then exactly
      the number the request says. */
  lemma {:induction false} LaunchesAfterHello(synced: bool, ps: seq<Publication>)
    ensures Listen(synced, ps).1 <= |ps|
    ensures Listen(synced, ps).0.Launching? ==>
              var k := Listen(synced, ps).1;
              && k > 0 && ps[k - 1] == StartProcesses(Listen(synced, ps).0.processes)
              && (synced || HelloListener in ps[..k - 1])
    decreases |ps|
  {
    if ps != [] && !(synced && (ps[0].End? || ps[0].StartProcesses?)) {
      LaunchesAfterHello(synced || ps[0].HelloListener?, ps[1..]);
      var k := Listen(synced, ps).1;
      if Listen(synced, ps).0.Launching? {
        assert ps[..k - 1] == [ps[0]] + ps[1..][..k - 2];
      }
    }
  }

  // ----- the listener: launching and reaping -----

  /** What one wait for a child returns. */
  datatype Wait = StillRunning | Failed(status: int) | Exited(status: int)

  function IsReturn(w: Wait): int { if w.StillRunning? then 0 else 1 }

  function Returns(waits: seq<Wait>): int { Sum(waits, IsReturn) }

  /** The exit reports that a sequence of waits gives rise to. */
  function ReportsOf(waits: seq<Wait>): (ms: seq<Sink.SinkMessage>)
    ensures |ms| == Returns(waits)
  {
    if waits == [] then []
    else
      var w := waits[|waits| - 1];
      ReportsOf(waits[..|waits| - 1]) + if w.StillRunning? then [] else [Sink.Finished(w.status)]
  }

  lemma {:induction false} SinkFramesSnoc(ms: seq<Sink.SinkMessage>, m: Sink.SinkMessage)
    ensures Sink.SinkFrames(ms + [m]) == Sink.SinkFrames(ms) + Sink.MessageFrames(m)
  {
    if ms == [] {
      assert [m][1..] == [];
      assert ms + [m] == [m];
    } else {
      SinkFramesSnoc(ms[1..], m);
      assert (ms + [m])[1..] == ms[1..] + [m];
    }
  }

  lemma NamesDiffer(name: string, i: nat, j: nat)
    requires i != j
    ensures name + "-" + PrintInt(i) != name + "-" + PrintInt(j)
  {
    hide PrintInt;
    var prefix := name + "-";
    if prefix + PrintInt(i) == prefix + PrintInt(j) {
      assert (prefix + PrintInt(i))[|prefix|..] == PrintInt(i);
      assert (prefix + PrintInt(j))[|prefix|..] == PrintInt(j);
      PrintIntInjective(i, j);
    }
  }

  /** Starts the children, each under its own name. */
  method LaunchChildren(name: string, processes: int) returns (children: seq<string>)
    ensures forall i, j :: 0 <= i < j < |children| ==> children[i] != children[j]
    ensures |children| == if processes > 0 then processes else 0
    ensures forall i :: 0 <= i < |children| ==> children[i] == name + "-" + PrintInt(i)
  {
    children := [];
    var i := 0;
    while i < processes
      invariant 0 <= i && (i <= processes || i == 0) && |children| == i
      invariant forall j :: 0 <= j < |children| ==> children[j] == name + "-" + PrintInt(j)
    {
      children := children + [name + "-" + PrintInt(i)];
      i := i + 1;
    }
    forall j, k | 0 <= j < k < |children| ensures children[j] != children[k] {
      NamesDiffer(name, j, k);
    }
  }

  /** One more wait. */
  lemma ReportsNext(waits: seq<Wait>, k: nat)
    requires k < |waits|
    ensures Returns(waits[..k + 1]) == Returns(waits[..k]) + IsReturn(waits[k])
    ensures Sink.SinkFrames(ReportsOf(waits[..k + 1])) ==
            if waits[k].StillRunning? then Sink.SinkFrames(ReportsOf(waits[..k]))
            else Sink.SinkFrames(ReportsOf(waits[..k])) + ["Finished", "", PrintInt(waits[k].status), ""]
  {
    hide PrintInt;
    assert waits[..k + 1][..k] == waits[..k];
    if waits[k].StillRunning? {
      assert ReportsOf(waits[..k + 1]) == ReportsOf(waits[..k]);
    } else {
      SinkFramesSnoc(ReportsOf(waits[..k]), Sink.Finished(waits[k].status));
    }
  }

  /** Reaps the children: each wait that returns a child, or fails, sends one Finished
      message, so that reports sent and children unfinished always add up to the
      number launched. `blocked` means that it is still waiting. */
  method ReapChildren(processes: int, waits: seq<Wait>)
    returns (unfinished: int, sent: seq<string>, used: nat, blocked: bool)
    ensures used <= |waits| && sent == Sink.SinkFrames(ReportsOf(waits[..used]))
    ensures Returns(waits[..used]) + unfinished == processes
    ensures blocked ==> used == |waits| && unfinished > 0
    ensures !blocked ==> unfinished == if processes > 0 then 0 else processes
  {
    hide PrintInt, Sink.SinkFrames, ReportsOf, Sum;
    unfinished, sent, used := processes, [], 0;
    NoWaits(waits);
    while unfinished > 0
      invariant used <= |waits| && sent == Sink.SinkFrames(ReportsOf(waits[..used]))
      invariant Returns(waits[..used]) + unfinished == processes
      invariant unfinished >= 0 || unfinished == processes
      invariant unfinished <= processes
      decreases |waits| - used
    {
      if used == |waits| {
        return unfinished, sent, used, true;
      }
      ReportsNext(waits, used);
      match waits[used] {
        case StillRunning =>
        case Failed(status) =>
          unfinished := unfinished - 1;
          sent := sent + ["Finished", "", PrintInt(status), ""];
        case Exited(status) =>
          unfinished := unfinished - 1;
          sent := sent + ["Finished", "", PrintInt(status), ""];
      }
      used := used + 1;
    }
    blocked := false;
  }

  lemma NoWaits(waits: seq<Wait>)
    ensures Sink.SinkFrames(ReportsOf(waits[..0])) == [] && Returns(waits[..0]) == 0
  {
  }

  // ----- the child: receive loops -----

  /** n further HELLO frames. */
  function Hellos(n: nat): seq<string> {
    if n == 0 then [] else [Topic(HelloSocket)] + Hellos(n - 1)
  }

  /** The child's receive loops. A child that hears HELLO, any number of further HELLO
      frames and then the work decodes exactly the values that were published, and is
      left on a message boundary. */
  method ChildReceives(frames: seq<string>, ghost more: nat, ghost w: Work, ghost rest: seq<string>)
    returns (r: Received, pos: nat)
    requires Sendable(w)
    requires frames == Hellos(1 + more) + Frames(StartWebsockets(w)) + rest
    ensures r == Complete(w)
    ensures pos <= |frames| && frames[pos..] == rest
  {
    hide PrintInt, PrintBool, Complete, FirstFields, Frames, WorkFrames, Sendable, Hellos;
    pos := 0;
    ghost var work := Frames(StartWebsockets(w)) + rest;
    WorkBegins(w, rest);
    var synced := false;
    ghost var left: nat := 1 + more;
    assert frames[0..] == frames;
    while true
      invariant pos <= |frames| && frames[pos..] == Hellos(left) + work
      invariant synced || left > 0
      decreases |frames| - pos
    {
      NextFrame(frames, pos, left, work);
      var msg := frames[pos];
      pos := pos + 1;
      if !synced {
        if msg == "HELLO_SOCKET" {
          synced := true;
        }
      } else if msg == "StartWebsockets" {
        WorkLaidOut(w, rest, frames, pos - 1);
        r, pos := ReceiveWork(frames, pos);
        pos := pos + 1;
        return;
      }
      left := left - 1;
    }
  }

  lemma NextFrame(frames: seq<string>, pos: nat, left: nat, work: seq<string>)
    requires pos <= |frames| && frames[pos..] == Hellos(left) + work && work != []
    ensures pos < |frames|
    ensures left > 0 ==> frames[pos] == "HELLO_SOCKET" && frames[pos + 1..] == Hellos(left - 1) + work
    ensures left == 0 ==> frames[pos] == work[0] && frames[pos..] == work
  {
    assert frames[pos..] != [];
    assert frames[pos] == frames[pos..][0];
    if left > 0 {
      assert frames[pos + 1..] == frames[pos..][1..] == Hellos(left - 1) + work;
    }
  }

  lemma WorkBegins(w: Work, rest: seq<string>)
    ensures Frames(StartWebsockets(w)) + rest != []
    ensures (Frames(StartWebsockets(w)) + rest)[0] == "StartWebsockets" && "StartWebsockets" != "HELLO_SOCKET"
  {
    FirstLetters();
  }

  lemma WorkLaidOut(w: Work, rest: seq<string>, frames: seq<string>, pos: nat)
    requires pos <= |frames| && frames[pos..] == Frames(StartWebsockets(w)) + rest
    ensures pos + 9 <= |frames| && frames[pos + 1..pos + 8] == WorkFrames(w)
    ensures frames[pos + 9..] == rest
  {
    var tail := frames[pos..];
    assert tail[1..8] == WorkFrames(w) && tail[9..] == rest;
    assert frames[pos + 1..pos + 8] == tail[1..8];
  }

  // ----- the child: the work -----

  /** The results of finished connections, as messages. */
  function ResultMessages(codec: Report.Codec, cs: seq<Client>, setups: seq<Report.Double>): (ms: seq<Sink.SinkMessage>)
    requires |cs| <= |setups|
  {
    if cs == [] then []
    else
      var k := |cs| - 1;
      ResultMessages(codec, cs[..k], setups) + [Sink.Result(Report.StatsLine(codec, cs[k], setups[k]))]
  }

  method CreateClients(messages: int, instances: int) returns (clients: seq<TelemetryClient>)
    ensures |clients| == if instances > 0 then instances else 0
    ensures forall j :: 0 <= j < |clients| ==> fresh(clients[j]) && clients[j].State() == Initial(messages)
    ensures forall j, k :: 0 <= j < k < |clients| ==> clients[j] != clients[k]
  {
    clients := [];
    var i := 0;
    while i < instances
      invariant |clients| == i && (i <= instances || i == 0)
      invariant forall j :: 0 <= j < |clients| ==> fresh(clients[j]) && clients[j].State() == Initial(messages)
      invariant forall j, k :: 0 <= j < k < |clients| ==> clients[j] != clients[k]
    {
      var client := new TelemetryClient(messages);
      clients := clients + [client];
      i := i + 1;
    }
  }

  lemma NoResults(codec: Report.Codec, setups: seq<Report.Double>)
    ensures Sink.SinkFrames(ResultMessages(codec, [], setups)) == []
  {
  }

  /** One more connection, one more Result. */
  lemma ResultsNext(codec: Report.Codec, cs: seq<Client>, c: Client, setups: seq<Report.Double>)
    requires |cs| < |setups|
    ensures Sink.SinkFrames(ResultMessages(codec, cs + [c], setups)) ==
            Sink.SinkFrames(ResultMessages(codec, cs, setups)) + ["Result", Report.StatsLine(codec, c, setups[|cs|]), ""]
  {
    hide Report.StatsLine, Sink.SinkFrames;
    assert (cs + [c])[..|cs|] == cs;
    SinkFramesSnoc(ResultMessages(codec, cs, setups), Sink.Result(Report.StatsLine(codec, c, setups[|cs|])));
  }

  /** The states the clients are in. */
  ghost function States(clients: seq<TelemetryClient>): (cs: seq<Client>)
    reads clients
    ensures |cs| == |clients| && forall i :: 0 <= i < |cs| ==> cs[i] == clients[i].State()
  {
    if clients == [] then []
    else States(clients[..|clients| - 1]) + [clients[|clients| - 1].State()]
  }

  /** Sends one Result for each connection, in order. */
  method SendResults(codec: Report.Codec, clients: seq<TelemetryClient>, setups: seq<Report.Double>)
    returns (sent: seq<string>)
    requires |clients| <= |setups|
    ensures sent == Sink.SinkFrames(ResultMessages(codec, States(clients), setups))
  {
    hide Report.StatsLine, Sink.SinkFrames, ResultMessages, States;
    NoResults(codec, setups);
    sent := [];
    var i := 0;
    assert States(clients[..0]) == [];
    while i < |clients|
      invariant 0 <= i <= |clients|
      invariant sent == Sink.SinkFrames(ResultMessages(codec, States(clients[..i]), setups))
    {
      var stats := clients[i].GetStats(codec, setups[i]);
      ResultsNext(codec, States(clients[..i]), clients[i].State(), setups);
      assert States(clients[..i + 1]) == States(clients[..i]) + [clients[i].State()];
      sent := sent + ["Result", stats, ""];
      i := i + 1;
    }
    assert clients[..i] == clients;
  }

  /** Creates the connections, runs each against its own peer, waits for all of them
      and sends one Result each, in order. `finished` is false when a connection is
      still running at the end of its script, and the wait for it goes on. Every
      connection reported on has ended: its statistics are those of a run of the
      client. */
  method DoTheWork(codec: Report.Codec, messages: int, instances: int,
                   scripts: seq<Script>, setups: seq<Report.Double>)
    returns (sent: seq<string>, finished: bool, ghost ended: seq<Client>)
    requires instances <= |scripts| && instances <= |setups|
    ensures finished <==> forall i :: 0 <= i < instances ==> AfterScript(messages, scripts[i]).pc == Stopped
    ensures finished ==> |ended| == if instances > 0 then instances else 0
    ensures finished ==> forall i :: 0 <= i < |ended| ==>
              Final(messages, ended[i]) && ended[i] == AfterScript(messages, scripts[i])
    ensures finished ==> |ended| <= |setups| && sent == Sink.SinkFrames(ResultMessages(codec, ended, setups))
    ensures !finished ==> sent == []
  {
    hide Final, ResultMessages, Sink.SinkFrames, AfterScript;
    var clients := CreateClients(messages, instances);
    var i := 0;
    while i < instances
      invariant 0 <= i <= |clients|
      invariant forall j :: 0 <= j < |clients| ==> fresh(clients[j])
      invariant forall j :: i <= j < |clients| ==> clients[j].State() == Initial(messages)
      invariant forall j :: 0 <= j < i ==>
                  && Final(messages, clients[j].State()) && clients[j].State() == AfterScript(messages, scripts[j])
                  && clients[j].State().pc == Stopped
    {
      finished := RunClient(clients[i], messages, scripts[i]);
      if !finished {
        assert AfterScript(messages, scripts[i]).pc != Stopped;
        return [], false, [];
      }
      i := i + 1;
    }
    sent := SendResults(codec, clients, setups);
    ended := States(clients);
    finished := true;
  }

  /** Runs one fresh connection and waits for both of its threads, if its script lasts.
      A script of as many passes as messages and waits does. */
  method RunClient(client: TelemetryClient, messages: int, script: Script) returns (finished: bool)
    requires client.State() == Initial(messages)
    modifies client
    ensures client.State() == AfterScript(messages, script)
    ensures finished <==> client.State().pc == Stopped
    ensures finished ==> Final(messages, client.State())
    ensures |script.passes| >= messages + client.waits ==> finished
  {
    hide Handled, AfterLoop;
    ghost var trace;
    finished, trace := client.TelemetryLoop(script.passes, script.beforeCall);
    if finished {
      trace := client.Interfere(script.afterwards, Initial(messages), trace);
    }
    assert Run(Initial(messages), trace, client.State());
  }

  /** Whatever states connections can end in, some scripts lead to them. */
  lemma AnyEndings(messages: int, ended: seq<Client>) returns (scripts: seq<Script>)
    requires forall i :: 0 <= i < |ended| ==> Final(messages, ended[i])
    ensures |scripts| == |ended|
    ensures forall i :: 0 <= i < |ended| ==> AfterScript(messages, scripts[i]) == ended[i]
  {
    hide Final, AfterScript;
    scripts := [];
    while |scripts| < |ended|
      invariant |scripts| <= |ended|
      invariant forall i :: 0 <= i < |scripts| ==> AfterScript(messages, scripts[i]) == ended[i]
    {
      var script := Scripts.ScriptOf(messages, ended[|scripts|]);
      scripts := scripts + [script];
    }
  }

  function NewClients(messages: int, instances: int): (cs: seq<Client>)
    ensures |cs| == if instances > 0 then instances else 0
    ensures forall i :: 0 <= i < |cs| ==> cs[i] == Initial(messages)
  {
    if instances <= 0 then [] else seq(instances, i => Initial(messages))
  }

  /** Running the connections at once: wherever any interleaving of all of their threads
      ends, there are scripts with which running them one after another ends too. */
  lemma ConcurrentEndings(messages: int, instances: int, trace: seq<(nat, Action)>, ended: seq<Client>)
    returns (scripts: seq<Script>)
    requires Scripts.RunTogether(NewClients(messages, instances), trace, ended)
    requires forall i :: 0 <= i < |ended| ==> ended[i].pc == Stopped
    ensures |scripts| == |ended| == if instances > 0 then instances else 0
    ensures forall i :: 0 <= i < |ended| ==> AfterScript(messages, scripts[i]) == ended[i]
  {
    hide Reachable, AfterScript, Scripts.RunTogether;
    ReachedFirst(messages);
    Scripts.RunApart(messages, NewClients(messages, instances), trace, ended);
    scripts := AnyEndings(messages, ended);
  }

  // ----- the frames and the protocol -----

  /** A listener of the protocol reads on as long as it can; the reply to its request
      is taken as soon as it is due. */
  function Drive(l: P.Listener): P.Listener
    decreases |l.inbox|
  {
    if l.inbox == [] || l.task != P.Idle || l.stage !in {P.AwaitHello, P.Synced} then l
    else
      var next := P.ReceiveAsListener(l);
      Drive(if next.stage == P.Requested then next.(stage := P.Synced) else next)
  }

  /** The verdict of the receive loops is what the protocol's listener does, reading one
      publication after another, and it has read as many. */
  lemma {:induction false} ListenIsTheProtocol(l: P.Listener)
    requires l.task == P.Idle && l.stage in {P.AwaitHello, P.Synced}
    ensures var (v, k) := Listen(l.stage == P.Synced, l.inbox);
            var end := Drive(l);
            && k <= |l.inbox| && end.inbox == l.inbox[k..] && end.children == l.children
            && match v
               case Waiting(synced) => end.task == P.Idle && (end.stage == P.Synced <==> synced)
               case Ending => end.task == P.Ended && end.stage == P.Synced
               case Launching(n) => end.task == P.Launching(n) && end.started && end.stage == P.Synced
    decreases |l.inbox|
  {
    if l.inbox != [] {
      var next := P.ReceiveAsListener(l);
      var after := if next.stage == P.Requested then next.(stage := P.Synced) else next;
      if after.task == P.Idle {
        ListenIsTheProtocol(after);
      }
    }
  }
}
