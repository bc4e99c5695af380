/** The messages on the wire: what the controller publishes, what the sink receives,
    the frames of each, and the programs that take them apart. */
module Wire {
  import opened Sums
  import opened Text

  /** The parameters of one measurement, as published to the child processes. */
  datatype Work = Work(
    uri: string,
    instances: int,
    sendMessages: bool,
    randomizedInterval: bool,
    interval: int,
    messages: int,
    messageLength: int)

  datatype Publication =
    | HelloListener
    | StartProcesses(processes: int)
    | HelloSocket
    | StartWebsockets(work: Work)
    | End

  // ----- publications and subscriptions -----

  function Topic(p: Publication): string {
    match p
    case HelloListener => "HELLO_LISTENER"
    case StartProcesses(_) => "StartProcesses"
    case HelloSocket => "HELLO_SOCKET"
    case StartWebsockets(_) => "StartWebsockets"
    case End => "END"
  }

  function WorkFrames(w: Work): seq<string> {
    [w.uri, PrintInt(w.instances), PrintBool(w.sendMessages), PrintBool(w.randomizedInterval),
     PrintInt(w.interval), PrintInt(w.messages), PrintInt(w.messageLength)]
  }

  function Frames(p: Publication): seq<string> {
    match p
    case StartProcesses(n) => [Topic(p), PrintInt(n), ""]
    case StartWebsockets(w) => [Topic(p)] + WorkFrames(w) + [""]
    case _ => [Topic(p)]
  }

  function AllFrames(ps: seq<Publication>): seq<string> {
    if ps == [] then [] else Frames(ps[0]) + AllFrames(ps[1..])
  }

  /** Subscriptions in the order each program makes them. */
  const LISTENER_SUBSCRIPTIONS: seq<string> := ["StartProcesses", "END", "HELLO_LISTENER"]
  const CHILD_SUBSCRIPTIONS: seq<string> := ["StartWebsockets", "HELLO_SOCKET"]

  /** A publication reaches a peer when one of the first `active` subscriptions, the
      ones that have arrived at the publisher, is a prefix of its first frame. */
  predicate Matches(subscriptions: seq<string>, active: nat, p: Publication)
    requires active <= |subscriptions|
  {
    exists i :: 0 <= i < active && subscriptions[i] <= Frames(p)[0]
  }

  predicate ListenerHears(active: nat, p: Publication) {
    match p
    case StartProcesses(_) => active >= 1
    case End => active >= 2
    case HelloListener => active >= 3
    case _ => false
  }

  predicate ChildHears(active: nat, p: Publication) {
    match p
    case StartWebsockets(_) => active >= 1
    case HelloSocket => active >= 2
    case _ => false
  }

  lemma FirstLetters()
    ensures "HELLO_LISTENER"[0] == "HELLO_SOCKET"[0] == 'H'
    ensures "HELLO_LISTENER"[6] == 'L' && "HELLO_SOCKET"[6] == 'S'
    ensures "StartProcesses"[5] == 'P' && "StartWebsockets"[5] == 'W'
    ensures "StartProcesses"[0] == "StartWebsockets"[0] == 'S' && "END"[0] == 'E'
  {
  }

  /** A string differing at some position is not a prefix. */
  lemma NotPrefix(a: string, b: string, i: nat)
    requires i < |a| && i < |b| && a[i] != b[i]
    ensures !(a <= b)
  {
  }

  /** Prefix matching against the listeners' subscriptions is exactly ListenerHears:
      in particular HELLO is heard only when every other subscription is active. */
  lemma ListenerHearsIsMatching(active: nat, p: Publication)
    requires active <= 3
    ensures Matches(LISTENER_SUBSCRIPTIONS, active, p) <==> ListenerHears(active, p)
  {
    var subs, t := LISTENER_SUBSCRIPTIONS, Topic(p);
    FirstLetters();
    assert Frames(p)[0] == t;
    assert subs[0] <= t <==> p.StartProcesses? by {
      if !p.StartProcesses? { NotPrefix(subs[0], t, if p.StartWebsockets? then 5 else 0); }
    }
    assert subs[1] <= t <==> p.End? by {
      if !p.End? { NotPrefix(subs[1], t, 0); }
    }
    assert subs[2] <= t <==> p.HelloListener? by {
      if !p.HelloListener? { NotPrefix(subs[2], t, if p.HelloSocket? then 6 else 0); }
    }
  }

  lemma ChildHearsIsMatching(active: nat, p: Publication)
    requires active <= 2
    ensures Matches(CHILD_SUBSCRIPTIONS, active, p) <==> ChildHears(active, p)
  {
    var subs, t := CHILD_SUBSCRIPTIONS, Topic(p);
    FirstLetters();
    assert Frames(p)[0] == t;
    assert subs[0] <= t <==> p.StartWebsockets? by {
      if !p.StartWebsockets? { NotPrefix(subs[0], t, if p.StartProcesses? then 5 else 0); }
    }
    assert subs[1] <= t <==> p.HelloSocket? by {
      if !p.HelloSocket? { NotPrefix(subs[1], t, if p.HelloListener? then 6 else 0); }
    }
  }

  // ----- the child's receive loops -----

  /** Values that survive the trip: a URI that is one word, and machine integers. */
  predicate Sendable(w: Work) {
    && IsWord(w.uri)
    && IsInt32(w.instances) && IsInt32(w.interval)
    && IsInt32(w.messages) && IsInt32(w.messageLength)
  }

  /** What the child has extracted so far; a parameter it could not extract is None. */
  datatype Received = Received(
    uri: Option<string>,
    instances: Option<int>,
    sendMessages: Option<bool>,
    randomizedInterval: Option<bool>,
    interval: Option<int>,
    messages: Option<int>,
    messageLength: Option<int>)

  const NOTHING := Received(None, None, None, None, None, None, None)

  function Complete(w: Work): Received {
    Received(Some(w.uri), Some(w.instances), Some(w.sendMessages), Some(w.randomizedInterval),
             Some(w.interval), Some(w.messages), Some(w.messageLength))
  }

  /** The seven-parameter receive loop: the i-th frame goes to the i-th parameter. */
  method ReceiveWork(frames: seq<string>, from: nat) returns (r: Received, next: nat)
    requires from + 7 <= |frames|
    ensures next == from + 7
    ensures forall w :: Sendable(w) && frames[from..from + 7] == WorkFrames(w) ==> r == Complete(w)
  {
    r := NOTHING;
    next := from;
    for i := 0 to 7
      invariant next == from + i
      invariant forall w :: Sendable(w) && frames[from..from + 7] == WorkFrames(w) ==> r == FirstFields(w, i)
    {
      var ss := Stream(frames[next], true);
      assert frames[next] == frames[from..from + 7][i];
      next := next + 1;
      ghost var was := r;
      match i {
        case 0 => var v := ReadWord(ss).0; r := r.(uri := v);
        case 1 => var v := ReadInt(ss).0; r := r.(instances := v);
        case 2 => var v := ReadBool(ss).0; r := r.(sendMessages := v);
        case 3 => var v := ReadBool(ss).0; r := r.(randomizedInterval := v);
        case 4 => var v := ReadInt(ss).0; r := r.(interval := v);
        case 5 => var v := ReadInt(ss).0; r := r.(messages := v);
        case _ => var v := ReadInt(ss).0; r := r.(messageLength := v);
      }
      forall w | Sendable(w) && frames[from..from + 7] == WorkFrames(w)
        ensures r == FirstFields(w, i + 1)
      {
        assert frames[from + i] == WorkFrames(w)[i];
        ReadField(w, i);
      }
    }
  }

  /** The first i parameters of w, and nothing else. */
  function FirstFields(w: Work, i: nat): Received {
    Received(
      if i > 0 then Some(w.uri) else None,
      if i > 1 then Some(w.instances) else None,
      if i > 2 then Some(w.sendMessages) else None,
      if i > 3 then Some(w.randomizedInterval) else None,
      if i > 4 then Some(w.interval) else None,
      if i > 5 then Some(w.messages) else None,
      if i > 6 then Some(w.messageLength) else None)
  }

  lemma ReadField(w: Work, i: nat)
    requires Sendable(w) && i < 7
    ensures i == 0 ==> ReadWord(Stream(w.uri, true)).0 == Some(w.uri)
    ensures i == 1 ==> ReadInt(Stream(PrintInt(w.instances), true)).0 == Some(w.instances)
    ensures i == 2 ==> ReadBool(Stream(PrintBool(w.sendMessages), true)).0 == Some(w.sendMessages)
    ensures i == 3 ==> ReadBool(Stream(PrintBool(w.randomizedInterval), true)).0 == Some(w.randomizedInterval)
    ensures i == 4 ==> ReadInt(Stream(PrintInt(w.interval), true)).0 == Some(w.interval)
    ensures i == 5 ==> ReadInt(Stream(PrintInt(w.messages), true)).0 == Some(w.messages)
    ensures i == 6 ==> ReadInt(Stream(PrintInt(w.messageLength), true)).0 == Some(w.messageLength)
  {
    ReadWordExact(w.uri);
    ReadIntExact(w.instances);
    ReadBoolPrint(w.sendMessages);
    ReadBoolPrint(w.randomizedInterval);
    ReadIntExact(w.interval);
    ReadIntExact(w.messages);
    ReadIntExact(w.messageLength);
  }

  // ----- what is published -----

  /** The frames of each publication: the topic, then the parameters in this order, each
      as text from which its value is read, then an empty frame. */
  lemma PublishedFrames(w: Work, processes: int)
    requires Sendable(w) && IsInt32(processes)
    ensures Frames(HelloListener) == ["HELLO_LISTENER"] && Frames(HelloSocket) == ["HELLO_SOCKET"] && Frames(End) == ["END"]
    ensures var fs := Frames(StartProcesses(processes));
            && |fs| == 3 && fs[0] == "StartProcesses" && fs[2] == ""
            && ReadInt(Stream(fs[1], true)).0 == Some(processes)
    ensures var fs := Frames(StartWebsockets(w));
            && |fs| == 9 && fs[0] == "StartWebsockets" && fs[1] == w.uri && fs[8] == ""
            && ReadInt(Stream(fs[2], true)).0 == Some(w.instances)
            && ReadBool(Stream(fs[3], true)).0 == Some(w.sendMessages)
            && ReadBool(Stream(fs[4], true)).0 == Some(w.randomizedInterval)
            && ReadInt(Stream(fs[5], true)).0 == Some(w.interval)
            && ReadInt(Stream(fs[6], true)).0 == Some(w.messages)
            && ReadInt(Stream(fs[7], true)).0 == Some(w.messageLength)
  {
    hide ReadInt, ReadBool, PrintInt, PrintBool;
    ReadIntExact(processes);
    ReadIntExact(w.instances);
    ReadBoolPrint(w.sendMessages);
    ReadBoolPrint(w.randomizedInterval);
    ReadIntExact(w.interval);
    ReadIntExact(w.messages);
    ReadIntExact(w.messageLength);
  }
}
