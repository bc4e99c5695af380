/** What children have done so far, their work, results and exits, changes by their own
    moves only; and what follows for runs in which they make only certain moves. */
module Records {
  import opened Sums
  import opened Wire
  import opened Protocol
  import opened Invariant
  import opened Steps
  import opened Completion
  import T = Telemetry
  import Report

  // ----- properties of what children have done -----

  /** Of child c of listener l. */
  type Property = (nat, nat, Child) -> bool

  /** The same work, results and exit, and the same as to having heard HELLO. */
  predicate SameRecord(c: Child, x: Child) {
    x.exit == c.exit && x.work == c.work && x.log == c.log && (x.stage == AwaitHello <==> c.stage == AwaitHello)
  }

  /** A property of children's records: a new child has it, and only a move of the child
      itself can end it. */
  ghost predicate OfRecord(ok: Property) {
    && (forall l, c :: ok(l, c, NEW_CHILD))
    && forall l, c, x, y :: SameRecord(x, y) && ok(l, c, x) ==> ok(l, c, y)
  }

  ghost predicate AllChildren(l: nat, x: Listener, ok: Property) {
    forall c :: 0 <= c < |x.children| ==> ok(l, c, x.children[c])
  }

  ghost predicate Everywhere(s: System, ok: Property) {
    forall l :: 0 <= l < |s.listeners| ==> AllChildren(l, s.listeners[l], ok)
  }

  predicate LeftInOrder(cfg: Config, c: Child) {
    c.exit.Some? ==> c.work.Some? && |c.log| == Instances(cfg)
  }

  function InOrder(cfg: Config): Property { (l: nat, c: nat, x: Child) => LeftInOrder(cfg, x) }

  /** No child has left before it sent all of its results. */
  ghost predicate NoneLeftEarly(cfg: Config, s: System) { Everywhere(s, InOrder(cfg)) }

  predicate Heard(c: Child) {
    c.exit.Some? ==> c.stage != AwaitHello
  }

  function Present(): Property { (l: nat, c: nat, x: Child) => Heard(x) }

  /** No child has gone, by a crash or otherwise, before it heard HELLO. */
  ghost predicate NoneVanished(s: System) { Everywhere(s, Present()) }

  /** How connection k of child c of listener l ends. */
  type Assignment = (nat, nat, nat) -> Ending

  function Always(e: Ending): Assignment { (l: nat, c: nat, k: nat) => e }

  /** All of these endings are those of clients that can have them. */
  ghost predicate AnyFinal(messages: int, pick: Assignment) {
    forall l, c, k :: T.Final(messages, pick(l, c, k).client)
  }

  predicate LogFollows(pick: Assignment, l: nat, c: nat, x: Child) {
    forall k :: 0 <= k < |x.log| ==> x.log[k] == pick(l, c, k)
  }

  function Picked(pick: Assignment): Property { (l: nat, c: nat, x: Child) => LogFollows(pick, l, c, x) }

  /** Every connection that has ended so far ended as picked. */
  ghost predicate Follows(pick: Assignment, s: System) { Everywhere(s, Picked(pick)) }

  lemma RecordProperties(cfg: Config, pick: Assignment)
    ensures OfRecord(InOrder(cfg)) && OfRecord(Present()) && OfRecord(Picked(pick))
  {
  }

  lemma ListenerHearKeeps(i: nat, l: Listener, p: Publication, ok: Property)
    requires OfRecord(ok) && AllChildren(i, l, ok)
    ensures AllChildren(i, ListenerHear(l, p), ok)
  {
    var l' := ListenerHear(l, p);
    forall c | 0 <= c < |l'.children| ensures ok(i, c, l'.children[c]) {
      assert SameRecord(l.children[c], l'.children[c]);
    }
  }

  lemma ListenerDoKeeps(i: nat, l: Listener, m: ListenerMove, ok: Property)
    requires OfRecord(ok) && AllChildren(i, l, ok) && ListenerCan(l, m)
    ensures AllChildren(i, ListenerDo(l, m), ok)
  {
    var l' := ListenerDo(l, m);
    forall c | 0 <= c < |l'.children| ensures ok(i, c, l'.children[c]) {
      if c < |l.children| {
        assert SameRecord(l.children[c], l'.children[c]);
      }
    }
  }

  lemma PublishKeepsRecords(s: System, p: Publication, ph: Phase, ok: Property)
    requires OfRecord(ok) && Everywhere(s, ok)
    ensures Everywhere(s.(phase := ph, listeners := Publish(s.listeners, p)), ok)
  {
    hide AllChildren, OfRecord, ListenerHear;
    forall l | 0 <= l < |s.listeners| ensures AllChildren(l, Publish(s.listeners, p)[l], ok) {
      ListenerHearKeeps(l, s.listeners[l], p, ok);
    }
  }

  lemma SetKeepsRecords(s: System, l: nat, x: Listener, s': System, ok: Property)
    requires Everywhere(s, ok) && l < |s.listeners| && AllChildren(l, x, ok)
    requires s'.listeners == s.listeners[l := x]
    ensures Everywhere(s', ok)
  {
    hide AllChildren;
  }

  lemma SetChildKeepsRecords(s: System, l: nat, c: nat, y: Child, s': System, ok: Property)
    requires Everywhere(s, ok) && IsChild(s, l, c) && ok(l, c, y)
    requires s'.listeners == SetChild(s, l, c, y).listeners
    ensures Everywhere(s', ok)
  {
    assert AllChildren(l, s.listeners[l], ok);
    SetKeepsRecords(s, l, WithChild(s.listeners[l], c, y), s', ok);
  }

  lemma SameRecordKeeps(s: System, l: nat, c: nat, y: Child, s': System, ok: Property)
    requires OfRecord(ok) && Everywhere(s, ok) && IsChild(s, l, c) && SameRecord(s.listeners[l].children[c], y)
    requires s'.listeners == SetChild(s, l, c, y).listeners
    ensures Everywhere(s', ok)
  {
    assert AllChildren(l, s.listeners[l], ok);
    SetChildKeepsRecords(s, l, c, y, s', ok);
  }

  lemma SameChildrenKeep(s: System, l: nat, x: Listener, s': System, ok: Property)
    requires Everywhere(s, ok) && l < |s.listeners| && x.children == s.listeners[l].children
    requires s'.listeners == s.listeners[l := x]
    ensures Everywhere(s', ok)
  {
    assert AllChildren(l, s.listeners[l], ok);
    SetKeepsRecords(s, l, x, s', ok);
  }

  /** No action ends a property of all records, except a child's own move that ends it
      for that child. */
  lemma StepKeepsRecords(cfg: Config, s: System, a: Action, ok: Property)
    requires OfRecord(ok) && Everywhere(s, ok) && Enabled(cfg, s, a)
    requires a.ChildMoves? ==> ChildDoKeeps(a.l, a.c, s.listeners[a.l].children[a.c], a.cm, ok)
    ensures Everywhere(Step(cfg, s, a), ok)
  {
    hide OfRecord, Everywhere, Publish, ListenerDo, ListenerCan, ChildDo, ChildCan, Quota, Exits;
    var s' := Step(cfg, s, a);
    match a
    case GreetListeners => PublishKeepsRecords(s, HelloListener, s.phase, ok);
    case StartListeners => PublishKeepsRecords(s, StartProcesses(cfg.processes), SyncChildren, ok);
    case GreetChildren => PublishKeepsRecords(s, HelloSocket, s.phase, ok);
    case StartChildren => PublishKeepsRecords(s, StartWebsockets(cfg.work), Drain, ok);
    case Finish => PublishKeepsRecords(s, End, Over, ok);
    case Consume => SameListenersKeep(s, s', ok);
    case AnswerListener(l) => SameChildrenKeep(s, l, s'.listeners[l], s', ok);
    case AnswerChild(l, c) => SameRecordKeeps(s, l, c, s'.listeners[l].children[c], s', ok);
    case ListenerMoves(l, m) => MoveKeepsRecords(s, l, m, s', ok);
    case ChildMoves(l, c, m) =>
      ChildDoCounts(s.listeners[l].children[c], m);
      SetChildKeepsRecords(s, l, c, ChildDo(s.listeners[l].children[c], m), s', ok);
    case DeliverReport(l) => SameChildrenKeep(s, l, s'.listeners[l], s', ok);
    case DeliverResult(l, c) => SameRecordKeeps(s, l, c, s'.listeners[l].children[c], s', ok);
  }

  ghost predicate ChildDoKeeps(l: nat, c: nat, x: Child, m: ChildMove, ok: Property) {
    (m.Receive? ==> x.inbox != []) && ok(l, c, ChildDo(x, m))
  }

  lemma MoveKeepsRecords(s: System, l: nat, m: ListenerMove, s': System, ok: Property)
    requires OfRecord(ok) && Everywhere(s, ok) && l < |s.listeners| && ListenerCan(s.listeners[l], m)
    requires s'.listeners == s.listeners[l := ListenerDo(s.listeners[l], m)]
    ensures Everywhere(s', ok)
  {
    hide OfRecord, AllChildren, ListenerDo, ListenerCan;
    assert AllChildren(l, s.listeners[l], ok);
    ListenerDoKeeps(l, s.listeners[l], m, ok);
    SetKeepsRecords(s, l, ListenerDo(s.listeners[l], m), s', ok);
  }

  lemma SameListenersKeep(s: System, s': System, ok: Property)
    requires Everywhere(s, ok) && s'.listeners == s.listeners
    ensures Everywhere(s', ok)
  {
  }

  // ----- children that leave only when their work is done -----

  lemma ChildDoInOrder(cfg: Config, rank: nat, l: nat, c: nat, x: Child, m: ChildMove)
    requires ChildInv(cfg, rank, x) && ChildCan(x, m) && !m.Abandon? && !m.Crash?
    ensures ChildDoKeeps(l, c, x, m, InOrder(cfg)) && ChildDoKeeps(l, c, x, m, Present())
  {
    hide T.Final, Sum;
  }

  lemma ChildDoAsPicked(pick: Assignment, l: nat, c: nat, x: Child, m: ChildMove)
    requires LogFollows(pick, l, c, x) && ChildCan(x, m) && (m.Emit? ==> m.ending == pick(l, c, |x.log|))
    ensures ChildDoKeeps(l, c, x, m, Picked(pick))
  {
    hide T.Final;
  }

  lemma ChildHas(s: System, l: nat, c: nat, ok: Property)
    requires Everywhere(s, ok) && IsChild(s, l, c)
    ensures ok(l, c, s.listeners[l].children[c])
  {
    assert AllChildren(l, s.listeners[l], ok);
  }

  lemma ChildInOrder(cfg: Config, s: System, l: nat, c: nat)
    requires NoneLeftEarly(cfg, s) && IsChild(s, l, c)
    ensures LeftInOrder(cfg, s.listeners[l].children[c])
  {
    ChildHas(s, l, c, InOrder(cfg));
  }

  lemma ChildPresent(s: System, l: nat, c: nat)
    requires NoneVanished(s) && IsChild(s, l, c)
    ensures Heard(s.listeners[l].children[c])
  {
    ChildHas(s, l, c, Present());
  }

  lemma StepKeepsListeners(cfg: Config, s: System, a: Action)
    requires Enabled(cfg, s, a)
    ensures |Step(cfg, s, a).listeners| == |s.listeners|
  {
    hide ListenerDo, ListenerCan, ChildDo, Publish, Quota, Exits;
    if a.ChildMoves? {
      ChildDoCounts(s.listeners[a.l].children[a.c], a.cm);
    }
  }

  lemma ProductiveInOrder(cfg: Config, s: System, a: Action)
    requires Inv(cfg, s) && NoneLeftEarly(cfg, s) && Enabled(cfg, s, a) && Productive(s, a)
    ensures NoneLeftEarly(cfg, Step(cfg, s, a))
  {
    hide Inv, OfRecord, Everywhere, ChildInv, ListenerInv, ChildDo, ChildCan, ChildDoKeeps, ListenerDo, ListenerCan, Publish;
    RecordProperties(cfg, Always(NO_ENDING));
    MoverInOrder(cfg, s, a);
    StepKeepsRecords(cfg, s, a, InOrder(cfg));
  }

  /** Any ending at all, where none matters. */
  const NO_ENDING := Ending(T.Initial(0), Report.NotANumber)

  lemma ProductivePresent(cfg: Config, s: System, a: Action)
    requires Inv(cfg, s) && NoneVanished(s) && Enabled(cfg, s, a) && Productive(s, a)
    ensures NoneVanished(Step(cfg, s, a))
  {
    hide Inv, OfRecord, Everywhere, ChildInv, ListenerInv, ChildDo, ChildCan, ChildDoKeeps, ListenerDo, ListenerCan, Publish;
    RecordProperties(cfg, Always(NO_ENDING));
    MoverInOrder(cfg, s, a);
    StepKeepsRecords(cfg, s, a, Present());
  }

  lemma MoverInOrder(cfg: Config, s: System, a: Action)
    requires Inv(cfg, s) && Enabled(cfg, s, a) && Productive(s, a)
    ensures a.ChildMoves? ==>
              && ChildDoKeeps(a.l, a.c, s.listeners[a.l].children[a.c], a.cm, InOrder(cfg))
              && ChildDoKeeps(a.l, a.c, s.listeners[a.l].children[a.c], a.cm, Present())
  {
    hide Inv, ChildInv, ListenerInv, ChildDo, ChildCan, ChildDoKeeps;
    if a.ChildMoves? {
      MoverInv(cfg, s, a.l, a.c);
      ChildDoInOrder(cfg, Rank(s.phase), a.l, a.c, s.listeners[a.l].children[a.c], a.cm);
    }
  }

  lemma MoverInv(cfg: Config, s: System, l: nat, c: nat)
    requires Inv(cfg, s) && IsChild(s, l, c)
    ensures ChildInv(cfg, Rank(s.phase), s.listeners[l].children[c])
  {
    hide ListenerInv;
    ChildOf(cfg, s, l, c);
  }

  /** The action makes no connection end but as picked. */
  predicate Ends(s: System, a: Action, pick: Assignment) {
    a.ChildMoves? && a.cm.Emit? && IsChild(s, a.l, a.c) ==>
      a.cm.ending == pick(a.l, a.c, |s.listeners[a.l].children[a.c].log|)
  }

  lemma EndsAsPicked(cfg: Config, s: System, a: Action, pick: Assignment)
    requires Follows(pick, s) && Enabled(cfg, s, a) && Ends(s, a, pick)
    ensures Follows(pick, Step(cfg, s, a))
  {
    hide OfRecord, Everywhere, ChildDo, ChildCan, ChildDoKeeps, ListenerDo, ListenerCan, Publish;
    RecordProperties(cfg, pick);
    if a.ChildMoves? {
      ChildHas(s, a.l, a.c, Picked(pick));
      ChildDoAsPicked(pick, a.l, a.c, s.listeners[a.l].children[a.c], a.cm);
    }
    StepKeepsRecords(cfg, s, a, Picked(pick));
  }

  lemma InitialRecords(cfg: Config, n: nat, pick: Assignment)
    ensures NoneLeftEarly(cfg, Initial(n)) && NoneVanished(Initial(n)) && Follows(pick, Initial(n))
  {
  }

  // ----- children that have exited -----

  /** What an exited child did stays as it is. */
  predicate StillExited(ls: seq<Listener>, l: nat, c: nat, x: Child) {
    l < |ls| && c < |ls[l].children| && SameRecord(x, ls[l].children[c])
  }

  lemma PublishStillExited(ls: seq<Listener>, p: Publication, l: nat, c: nat, x: Child)
    requires StillExited(ls, l, c, x)
    ensures StillExited(Publish(ls, p), l, c, x)
  {
  }

  lemma MoveStillExited(l: Listener, m: ListenerMove, c: nat)
    requires ListenerCan(l, m) && c < |l.children|
    ensures c < |ListenerDo(l, m).children| && SameRecord(l.children[c], ListenerDo(l, m).children[c])
  {
  }

  lemma ExitedStep(cfg: Config, s: System, a: Action, l: nat, c: nat, x: Child)
    requires Enabled(cfg, s, a) && StillExited(s.listeners, l, c, x) && x.exit.Some?
    ensures StillExited(Step(cfg, s, a).listeners, l, c, x)
  {
    hide Publish, ListenerDo, ListenerCan, ChildDo, Quota, Exits;
    match a
    case GreetListeners => PublishStillExited(s.listeners, HelloListener, l, c, x);
    case StartListeners => PublishStillExited(s.listeners, StartProcesses(cfg.processes), l, c, x);
    case GreetChildren => PublishStillExited(s.listeners, HelloSocket, l, c, x);
    case StartChildren => PublishStillExited(s.listeners, StartWebsockets(cfg.work), l, c, x);
    case Finish => PublishStillExited(s.listeners, End, l, c, x);
    case ListenerMoves(i, m) =>
      if i == l {
        MoveStillExited(s.listeners[l], m, c);
      }
    case ChildMoves(i, j, m) => ChildDoCounts(s.listeners[i].children[j], m);
    case _ =>
  }

  lemma {:induction false} ExitedRun(cfg: Config, s: System, trace: seq<Action>, s': System, l: nat, c: nat, x: Child)
    requires Run(cfg, s, trace, s') && StillExited(s.listeners, l, c, x) && x.exit.Some?
    ensures StillExited(s'.listeners, l, c, x)
    decreases |trace|
  {
    hide Enabled, Step, StillExited;
    if trace != [] {
      ExitedStep(cfg, s, trace[0], l, c, x);
      ExitedRun(cfg, Step(cfg, s, trace[0]), trace[1..], s', l, c, x);
    }
  }
}
