/** What the programs have before them in a run of the protocol is what their receive
    loops decode: every listener reads the process count, every child the work. */
module Decoding {
  import opened Text
  import opened Wire
  import Programs
  import P = Protocol
  import I = Invariant
  import B = Barriers
  import St = Steps

  // ----- children -----

  lemma {:induction false} InboxFrames(inbox: seq<Publication>, w: Work) returns (k: nat, rest: seq<string>)
    requires forall p :: p in inbox ==> p == HelloSocket || p == StartWebsockets(w)
    requires StartWebsockets(w) in inbox
    ensures AllFrames(inbox) == Programs.Hellos(k) + Frames(StartWebsockets(w)) + rest
  {
    hide Frames, Programs.Hellos;
    var first, work := Frames(inbox[0]), Frames(StartWebsockets(w));
    if inbox[0] == StartWebsockets(w) {
      k, rest := 0, AllFrames(inbox[1..]);
      NoHellos();
      assert [] + work + rest == work + rest;
    } else {
      assert inbox[0] in inbox;
      assert forall p :: p in inbox[1..] ==> p in inbox;
      k, rest := InboxFrames(inbox[1..], w);
      OneMoreHello(k);
      assert first + (Programs.Hellos(k) + work + rest) == (first + Programs.Hellos(k)) + work + rest;
      k := k + 1;
    }
  }

  lemma NoHellos()
    ensures Programs.Hellos(0) == []
  {
  }

  lemma OneMoreHello(k: nat)
    ensures Programs.Hellos(k + 1) == Frames(HelloSocket) + Programs.Hellos(k)
  {
  }

  lemma UnreadInbox(cfg: P.Config, rank: nat, c: P.Child)
    requires I.ChildInv(cfg, rank, c)
    ensures forall p :: p in c.inbox ==> p == HelloSocket || p == StartWebsockets(cfg.work)
  {
  }

  /** Once the work is published, what a child that has heard HELLO and not yet taken
      the work has before it is the frame sequence the child's receive loops decode to
      exactly the published values. */
  lemma EveryChildDecodesTheWork(cfg: P.Config, s: P.System, l: nat, c: nat) returns (k: nat, rest: seq<string>)
    requires P.Reachable(cfg, s) && P.Rank(s.phase) >= 2
    requires P.IsChild(s, l, c) && s.listeners[l].children[c].work.None?
    ensures s.listeners[l].children[c].stage != P.AwaitHello
    ensures Frames(HelloSocket) + AllFrames(s.listeners[l].children[c].inbox) ==
            Programs.Hellos(1 + k) + Frames(StartWebsockets(cfg.work)) + rest
  {
    hide I.Inv, I.ListenerInv, I.ChildInv, P.Reachable, Frames;
    var x := s.listeners[l].children[c];
    St.ReachableInv(cfg, s);
    B.NoneMissesTheWork(cfg, s);
    ChildIn(cfg, s, l, c);
    UnreadInbox(cfg, P.Rank(s.phase), x);
    k, rest := InboxFrames(x.inbox, cfg.work);
    HelloInFront(k);
  }

  lemma ChildIn(cfg: P.Config, s: P.System, l: nat, c: nat)
    requires I.Inv(cfg, s) && P.IsChild(s, l, c)
    ensures I.ChildInv(cfg, P.Rank(s.phase), s.listeners[l].children[c])
  {
    St.ChildOf(cfg, s, l, c);
  }

  lemma HelloInFront(k: nat)
    ensures Frames(HelloSocket) + Programs.Hellos(k) == Programs.Hellos(1 + k)
  {
  }

  /** Together with the child's loops: whatever the interleaving, a child that has heard
      HELLO takes out of its frames exactly the published work. */
  method ChildTakesTheWork(cfg: P.Config, frames: seq<string>, ghost s: P.System, ghost l: nat, ghost c: nat)
    returns (r: Received, pos: nat)
    requires P.Reachable(cfg, s) && P.Rank(s.phase) >= 2 && Sendable(cfg.work)
    requires P.IsChild(s, l, c) && s.listeners[l].children[c].work.None?
    requires frames == Frames(HelloSocket) + AllFrames(s.listeners[l].children[c].inbox)
    ensures r == Complete(cfg.work)
    ensures pos <= |frames|
  {
    hide P.Reachable, Frames, Complete, Sendable;
    ghost var more, rest := EveryChildDecodesTheWork(cfg, s, l, c);
    r, pos := Programs.ChildReceives(frames, more, cfg.work, rest);
  }

  // ----- listeners -----

  lemma UnstartedInbox(cfg: P.Config, rank: nat, l: P.Listener)
    requires I.ListenerInv(cfg, rank, l) && rank >= 1 && P.Answered(l.stage) && !l.started
    ensures StartProcesses(cfg.processes) in l.inbox && I.EndIsLast(l.inbox)
    ensures forall p :: p in l.inbox ==> p == HelloListener || p == StartProcesses(cfg.processes) || p == End
  {
    if StartProcesses(cfg.processes) !in l.inbox {
      assert forall i :: 0 <= i < |l.inbox| ==> l.inbox[i] in l.inbox;
      I.AllZero(l.inbox, I.IsStart);
    }
  }

  lemma {:induction false} ReadsTheCount(inbox: seq<Publication>, processes: int)
    requires StartProcesses(processes) in inbox && I.EndIsLast(inbox)
    requires forall p :: p in inbox ==> p == HelloListener || p == StartProcesses(processes) || p == End
    ensures Programs.Listen(true, inbox).0 == Programs.Launching(processes)
  {
    if inbox[0] != StartProcesses(processes) {
      var j :| 0 <= j < |inbox| && inbox[j] == StartProcesses(processes);
      assert inbox[0] in inbox;
      if inbox[0] == End {
        I.NothingAfterEnd(inbox);
        assert false;
      }
      I.EndLastInRest(inbox);
      var rest := inbox[1..];
      assert rest[j - 1] == StartProcesses(processes);
      assert forall p :: p in rest ==> p in inbox;
      ReadsTheCount(rest, processes);
    }
  }

  /** Once StartProcesses is published, and to the very end, an answered listener that
      has not started yet has before it what its loops read as the published number. */
  lemma EveryListenerReadsTheCount(cfg: P.Config, s: P.System, l: nat)
    requires P.Reachable(cfg, s) && P.Rank(s.phase) >= 1 && l < |s.listeners|
    requires P.Answered(s.listeners[l].stage) && !s.listeners[l].started
    ensures Programs.Listen(true, s.listeners[l].inbox).0 == Programs.Launching(cfg.processes)
    ensures forall p :: p in s.listeners[l].inbox ==>
              p == HelloListener || p == StartProcesses(cfg.processes) || p == End
  {
    hide I.ListenerInv, P.Reachable, I.Barrier, I.SinkInv;
    St.ReachableInv(cfg, s);
    assert I.ListenerInv(cfg, P.Rank(s.phase), s.listeners[l]);
    UnstartedInbox(cfg, P.Rank(s.phase), s.listeners[l]);
    ReadsTheCount(s.listeners[l].inbox, cfg.processes);
  }

  lemma HelloFirst(inbox: seq<Publication>)
    ensures Programs.Listen(false, [HelloListener] + inbox).0 == Programs.Listen(true, inbox).0
    ensures AllFrames([HelloListener] + inbox) == Frames(HelloListener) + AllFrames(inbox)
  {
    assert ([HelloListener] + inbox)[1..] == inbox;
  }

  /** Together with the listener's loops, frame by frame. */
  method ListenerTakesTheCount(cfg: P.Config, frames: seq<string>, ghost s: P.System, ghost l: nat)
    returns (v: Programs.Verdict, pos: nat)
    requires P.Reachable(cfg, s) && P.Rank(s.phase) >= 1 && l < |s.listeners| && IsInt32(cfg.processes)
    requires P.Answered(s.listeners[l].stage) && !s.listeners[l].started
    requires frames == Frames(HelloListener) + AllFrames(s.listeners[l].inbox)
    ensures v == Programs.Launching(cfg.processes)
    ensures pos <= |frames|
  {
    hide P.Reachable, Frames, AllFrames, Programs.Listen;
    ghost var heard := [HelloListener] + s.listeners[l].inbox;
    ghost var k;
    EveryListenerReadsTheCount(cfg, s, l);
    HelloFirst(s.listeners[l].inbox);
    forall i | 0 <= i < |heard| ensures Programs.ForListener(heard[i]) {
      assert i > 0 ==> heard[i] in s.listeners[l].inbox;
    }
    v, pos, k := Programs.ListenerReceives(frames, heard);
  }
}
