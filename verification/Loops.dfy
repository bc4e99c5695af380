/** The counting, launching, reaping and sending loops, and the moves of the protocol they
    stand for: taking the moves one after another gives what the loops compute. */
module Loops {
  import opened Sums
  import opened Protocol
  import opened Programs
  import T = Telemetry
  import E = EndToEnd
  import Report
  import Sink

  // ----- the controller's synchronisation loops -----

  /** What the first loop polls, in a run, and what it does. */
  function ListenerPolls(trace: seq<Action>): seq<Poll> {
    if trace == [] then []
    else (match trace[0]
          case GreetListeners => [Timeout]
          case AnswerListener(_) => [Request]
          case _ => []) + ListenerPolls(trace[1..])
  }

  function ListenerResponses(trace: seq<Action>): seq<Response> {
    if trace == [] then []
    else (match trace[0]
          case GreetListeners => [Greet]
          case AnswerListener(_) => [Reply]
          case _ => []) + ListenerResponses(trace[1..])
  }

  function ChildPolls(trace: seq<Action>): seq<Poll> {
    if trace == [] then []
    else (match trace[0]
          case GreetChildren => [Timeout]
          case AnswerChild(_, _) => [Request]
          case _ => []) + ChildPolls(trace[1..])
  }

  function ChildResponses(trace: seq<Action>): seq<Response> {
    if trace == [] then []
    else (match trace[0]
          case GreetChildren => [Greet]
          case AnswerChild(_, _) => [Reply]
          case _ => []) + ChildResponses(trace[1..])
  }

  lemma CountersStep(cfg: Config, s: System, a: Action)
    requires Enabled(cfg, s, a)
    ensures var s' := Step(cfg, s, a);
            && s'.subscribers == s.subscribers + (if a.AnswerListener? then 1 else 0)
            && s'.processes == s.processes + (if a.AnswerChild? then 1 else 0)
            && (a.AnswerListener? || a.GreetListeners? ==> s.subscribers < cfg.machines)
            && (a.AnswerChild? || a.GreetChildren? ==> s.processes < Quota(cfg))
            && (s.phase == SyncListeners != s'.phase ==> s.subscribers >= cfg.machines)
            && (s.phase == SyncChildren != s'.phase ==> s.processes >= Quota(cfg))
            && (s.phase != SyncListeners ==> s'.phase != SyncListeners)
  {
    hide ListenerDo, ListenerCan, ChildDo, ChildCan, Publish, Quota, Exits;
    if a.ChildMoves? {
      assert a.cm.Receive? ==> s.listeners[a.l].children[a.c].inbox != [] by {
        ReceivesSomething(s.listeners[a.l].children[a.c], a.cm);
      }
    }
  }

  lemma ReceivesSomething(c: Child, m: ChildMove)
    requires ChildCan(c, m)
    ensures m.Receive? ==> c.inbox != []
  {
  }

  lemma FirstPoll(target: int, count: int, p: Poll, rest: seq<Poll>)
    requires count < target
    ensures var (reached, responses) := SyncFrom(target, if p == Request then count + 1 else count, rest);
            SyncFrom(target, count, [p] + rest) == (reached, [if p == Request then Reply else Greet] + responses)
  {
    assert ([p] + rest)[1..] == rest;
  }

  /** In every run, the controller's counters and its greetings and replies are what the
      two loops compute from the polls of that run. */
  lemma {:induction false} SynchroniseIsTheProtocol(cfg: Config, s: System, trace: seq<Action>, s': System)
    requires Run(cfg, s, trace, s')
    ensures SyncFrom(cfg.machines, s.subscribers, ListenerPolls(trace)) == (s'.subscribers, ListenerResponses(trace))
    ensures SyncFrom(Quota(cfg), s.processes, ChildPolls(trace)) == (s'.processes, ChildResponses(trace))
    decreases |trace|
  {
    hide Enabled, Step, Quota, SyncFrom;
    if trace == [] {
      NoPolls(cfg.machines, s.subscribers);
      NoPolls(Quota(cfg), s.processes);
    } else {
      var a, next := trace[0], Step(cfg, s, trace[0]);
      CountersStep(cfg, s, a);
      SynchroniseIsTheProtocol(cfg, next, trace[1..], s');
      if a.AnswerListener? || a.GreetListeners? {
        FirstPoll(cfg.machines, s.subscribers, if a.AnswerListener? then Request else Timeout, ListenerPolls(trace[1..]));
      } else {
        assert ListenerPolls(trace) == ListenerPolls(trace[1..]);
        assert ListenerResponses(trace) == ListenerResponses(trace[1..]);
      }
      if a.AnswerChild? || a.GreetChildren? {
        FirstPoll(Quota(cfg), s.processes, if a.AnswerChild? then Request else Timeout, ChildPolls(trace[1..]));
      } else {
        assert ChildPolls(trace) == ChildPolls(trace[1..]);
        assert ChildResponses(trace) == ChildResponses(trace[1..]);
      }
    }
  }

  lemma NoPolls(target: int, count: int)
    ensures SyncFrom(target, count, []) == (count, [])
  {
  }

  // ----- the listener's launch loop -----

  /** Launch moves until there is none left. */
  function LaunchAll(l: Listener): Listener
    requires l.task.Launching?
    decreases l.task.target - |l.children|
  {
    var next := ListenerDo(l, Launch);
    if |l.children| < l.task.target then LaunchAll(next) else next
  }

  /** From a request on, they leave as many new children as the launch loop has names for,
      and the reap loop's counter at the number requested. */
  lemma {:induction false} LaunchIsTheProtocol(l: Listener)
    requires l.task.Launching?
    ensures var end := LaunchAll(l);
            && end.task == Reaping && end.unfinished == l.task.target && end.reports == l.reports
            && l.children <= end.children
            && |end.children| == (if l.task.target > |l.children| then l.task.target else |l.children|)
            && forall c :: |l.children| <= c < |end.children| ==> end.children[c] == NEW_CHILD
    decreases l.task.target - |l.children|
  {
    if |l.children| < l.task.target {
      LaunchIsTheProtocol(ListenerDo(l, Launch));
    }
  }

  // ----- the listener's reap loop -----

  predicate IsWait(m: ListenerMove) { m.Reap? || m.ReapNone? }

  /** A wait that finds nothing is None; a move that is not possible is none either. */
  function Waited(l: Listener, step: Option<ListenerMove>): Listener {
    if step.Some? && IsWait(step.value) && ListenerCan(l, step.value) then ListenerDo(l, step.value) else l
  }

  function AfterWaits(l: Listener, steps: seq<Option<ListenerMove>>): Listener {
    if steps == [] then l else Waited(AfterWaits(l, steps[..|steps| - 1]), steps[|steps| - 1])
  }

  function WaitSeen(l: Listener, step: Option<ListenerMove>): Wait {
    if step.Some? && IsWait(step.value) && ListenerCan(l, step.value) then
      match step.value
      case Reap(c) => Exited(l.children[c].exit.value)
      case ReapNone(status) => Failed(status)
      case _ => StillRunning
    else StillRunning
  }

  /** What the waits of the loop return. */
  function WaitsOf(l: Listener, steps: seq<Option<ListenerMove>>): (ws: seq<Wait>)
    ensures |ws| == |steps|
  {
    if steps == [] then []
    else
      var init := steps[..|steps| - 1];
      WaitsOf(l, init) + [WaitSeen(AfterWaits(l, init), steps[|steps| - 1])]
  }

  function RenderReports(reports: seq<ExitReport>): (ms: seq<Sink.SinkMessage>)
    ensures |ms| == |reports| && forall i :: 0 <= i < |ms| ==> ms[i] == Sink.Finished(reports[i].status)
  {
    if reports == [] then []
    else RenderReports(reports[..|reports| - 1]) + [Sink.Finished(reports[|reports| - 1].status)]
  }

  lemma WaitOnce(l: Listener, step: Option<ListenerMove>)
    ensures var l', w := Waited(l, step), WaitSeen(l, step);
            && l'.unfinished == l.unfinished - IsReturn(w)
            && l'.task == l.task
            && (w.StillRunning? ==> l' == l)
            && (!w.StillRunning? ==>
                  && |l'.reports| == |l.reports| + 1 && l'.reports[..|l.reports|] == l.reports
                  && l'.reports[|l.reports|].status == w.status)
  {
  }

  /** In every sequence of waits, what the protocol's listener reports is what the reap
      loop sends, its count of unfinished children is the loop's, and it can stop reaping
      exactly when the loop's condition is false. */
  lemma {:induction false} ReapIsTheProtocol(l: Listener, steps: seq<Option<ListenerMove>>)
    requires l.reports == []
    ensures var end, waits := AfterWaits(l, steps), WaitsOf(l, steps);
            && end.unfinished == l.unfinished - Returns(waits)
            && RenderReports(end.reports) == ReportsOf(waits)
            && end.task == l.task
            && (l.task == Reaping ==> (ListenerCan(end, StopReaping) <==> end.unfinished <= 0))
  {
    hide Waited, WaitSeen;
    if steps != [] {
      var k := |steps| - 1;
      ReapIsTheProtocol(l, steps[..k]);
      var mid := AfterWaits(l, steps[..k]);
      var waits := WaitsOf(l, steps);
      assert waits[..k] == WaitsOf(l, steps[..k]);
      WaitOnce(mid, steps[k]);
      var end := AfterWaits(l, steps);
      if !waits[k].StillRunning? {
        assert end.reports[..|end.reports| - 1] == mid.reports;
      } else {
        assert end.reports == mid.reports;
      }
    }
  }

  // ----- the child's work -----

  /** The results in a child's log, as messages. */
  function RenderLog(codec: Report.Codec, log: seq<Ending>): (ms: seq<Sink.SinkMessage>)
    ensures |ms| == |log|
    ensures forall l, c, i :: 0 <= i < |ms| ==> ms[i] == E.Render(codec, ResultOf(l, c, log[i]))
  {
    if log == [] then []
    else
      var e := log[|log| - 1];
      RenderLog(codec, log[..|log| - 1]) + [Sink.Result(Report.StatsLine(codec, e.client, e.setup))]
  }

  function Endings(ended: seq<T.Client>, setups: seq<Report.Double>): (es: seq<Ending>)
    requires |ended| <= |setups|
    ensures |es| == |ended| && forall i :: 0 <= i < |es| ==> es[i] == Ending.Ending(ended[i], setups[i])
  {
    seq(|ended|, i requires 0 <= i < |ended| => Ending.Ending(ended[i], setups[i]))
  }

  /** What the child sends is the rendering of its log. */
  lemma {:induction false} ResultsAreTheLog(codec: Report.Codec, ended: seq<T.Client>, setups: seq<Report.Double>)
    requires |ended| <= |setups|
    ensures ResultMessages(codec, ended, setups) == RenderLog(codec, Endings(ended, setups))
  {
    hide Report.StatsLine, E.Render;
    if ended != [] {
      var k := |ended| - 1;
      ResultsAreTheLog(codec, ended[..k], setups);
      assert Endings(ended, setups)[..k] == Endings(ended[..k], setups);
    }
  }

  function EmitAll(c: Child, es: seq<Ending>): Child {
    if es == [] then c else ChildDo(EmitAll(c, es[..|es| - 1]), Emit(es[|es| - 1]))
  }

  lemma {:induction false} EmitAllIs(c: Child, es: seq<Ending>)
    ensures EmitAll(c, es) == c.(log := c.log + es, outbox := c.outbox + es)
  {
    if es == [] {
      assert c.log + [] == c.log && c.outbox + [] == c.outbox;
    } else {
      var k := |es| - 1;
      EmitAllIs(c, es[..k]);
      assert es == es[..k] + [es[k]];
      assert c.log + es == (c.log + es[..k]) + [es[k]] && c.outbox + es == (c.outbox + es[..k]) + [es[k]];
    }
  }

  lemma CanEmit(c: Child, sent: seq<Ending>, e: Ending)
    requires c.work.Some? && c.exit.None? && c.log == []
    ensures var x := c.(log := c.log + sent, outbox := c.outbox + sent);
            && (ChildCan(x, Emit(e)) <==>
                  |sent| < c.work.value.instances && T.Final(c.work.value.messages, e.client))
            && (ChildCan(x, Exit) <==> |sent| >= c.work.value.instances)
  {
    hide T.Final;
  }

  /** A child of the protocol with its work before it can send the results of these ended
      connections, one after another, and exactly then exit: as many as the work has
      instances. Its log is then what the messages it has sent render. */
  lemma WorkIsTheProtocol(c: Child, ended: seq<T.Client>, setups: seq<Report.Double>)
    requires c.work.Some? && c.exit.None? && c.log == [] && |ended| <= |setups|
    requires |ended| == if c.work.value.instances > 0 then c.work.value.instances else 0
    requires forall i :: 0 <= i < |ended| ==> T.Final(c.work.value.messages, ended[i])
    ensures var es := Endings(ended, setups);
            && (forall k :: 0 <= k < |es| ==>
                  ChildCan(EmitAll(c, es[..k]), Emit(es[k])) && !ChildCan(EmitAll(c, es[..k]), Exit))
            && EmitAll(c, es).log == es && ChildCan(EmitAll(c, es), Exit)
  {
    hide T.Final, EmitAll, ChildCan;
    var es := Endings(ended, setups);
    forall k | 0 <= k < |es|
      ensures ChildCan(EmitAll(c, es[..k]), Emit(es[k])) && !ChildCan(EmitAll(c, es[..k]), Exit)
    {
      EmitAllIs(c, es[..k]);
      CanEmit(c, es[..k], es[k]);
    }
    EmitAllIs(c, es);
    assert [] + es == es;
    CanEmit(c, es, Ending.Ending(T.Initial(0), Report.NotANumber));
  }
}
