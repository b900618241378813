/**
 The two halves of the response handler together: messages that arrive in pieces act on authentication and on
 scripts exactly as if they had arrived whole.
 */
module ControlChannel {
  import opened Common
  import R = Reassembly
  import A = ChannelAuth

  datatype Event =
    | Opened(peer: seq<byte>, sendOk: bool, nonce: seq<byte>)
    | Piece(peer: seq<byte>, data: seq<byte>, last: bool)
    | Whole(peer: seq<byte>, cmd: seq<byte>)
    | Closed(late: seq<nat>)
    | Subscribed(id: nat)
    | HeapReplaced

  datatype Node = Node(view: R.View, auth: A.State)

  // ----- The handler -----

  predicate Sensible(e: Event) { e.Whole? ==> |e.cmd| >= 2 }

  predicate AllSensible(events: seq<Event>) { forall i :: 0 <= i < |events| ==> Sensible(events[i]) }

  function StepAuth(k: A.Setup, n: Node, view: R.View, e: A.Event): (Node, seq<A.Effect>)
    requires A.Sensible(e)
  {
    var (auth, fx) := A.Step(k, n.auth, e);
    (Node(view, auth), fx)
  }

  function Step(k: A.Setup, n: Node, e: Event): (Node, seq<A.Effect>)
    requires Sensible(e)
  {
    match e
    case Opened(peer, sendOk, nonce) => StepAuth(k, n, R.EMPTY, A.Opened(peer, sendOk, nonce))
    case Piece(peer, data, last) =>
      var (view, message) := R.Step(n.view, R.Piece(data, last, true));
      if message.Some? then StepAuth(k, n, view, A.Received(peer, message.value)) else (n.(view := view), [])
    case Whole(peer, cmd) => StepAuth(k, n, n.view, A.Received(peer, cmd))
    case Closed(late) => StepAuth(k, n, R.EMPTY, A.Closed(late))
    case Subscribed(id) => StepAuth(k, n, n.view, A.Subscribed(id))
    case HeapReplaced => StepAuth(k, n, n.view, A.HeapReplaced)
  }

  /** The final state of a run, and all its effects in order. */
  function Run(k: A.Setup, n: Node, events: seq<Event>): (Node, seq<A.Effect>)
    requires AllSensible(events)
    decreases |events|
  {
    if events == [] then (n, [])
    else
      var (m, fx) := Step(k, n, events[0]);
      var (last, more) := Run(k, m, events[1..]);
      (last, fx + more)
  }

  // ----- The same run with whole messages only -----

  function RunWhole(k: A.Setup, s: A.State, events: seq<A.Event>): (A.State, seq<A.Effect>)
    requires A.AllSensible(events)
    decreases |events|
  {
    if events == [] then (s, [])
    else
      var (t, fx) := A.Step(k, s, events[0]);
      var (last, more) := RunWhole(k, t, events[1..]);
      (last, fx + more)
  }

  /** What one event amounts to, when the pieces before it make up `collected`. */
  function WholeEvent(collected: seq<byte>, e: Event): seq<A.Event> {
    match e
    case Opened(peer, sendOk, nonce) => [A.Opened(peer, sendOk, nonce)]
    case Piece(peer, data, last) =>
      if last && R.Allowed(collected + data) then [A.Received(peer, collected + data)] else []
    case Whole(peer, cmd) => [A.Received(peer, cmd)]
    case Closed(late) => [A.Closed(late)]
    case Subscribed(id) => [A.Subscribed(id)]
    case HeapReplaced => [A.HeapReplaced]
  }

  function Collected(collected: seq<byte>, e: Event): seq<byte> {
    match e
    case Piece(_, data, last) => if last then [] else collected + data
    case Opened(_, _, _) => []
    case Closed(_) => []
    case _ => collected
  }

  /** The events with every message put together, and those of no allowed size left out. */
  function WholeEvents(collected: seq<byte>, events: seq<Event>): (r: seq<A.Event>)
    requires AllSensible(events)
    ensures A.AllSensible(r)
    decreases |events|
  {
    if events == [] then []
    else WholeEvent(collected, events[0]) + WholeEvents(Collected(collected, events[0]), events[1..])
  }

  lemma OneEvent(k: A.Setup, n: Node, collected: seq<byte>, e: Event)
    requires Sensible(e) && R.Represents(n.view, collected)
    ensures A.AllSensible(WholeEvent(collected, e))
    ensures var (m, fx) := Step(k, n, e);
      R.Represents(m.view, Collected(collected, e)) && RunWhole(k, n.auth, WholeEvent(collected, e)) == (m.auth, fx)
  {
    var whole := WholeEvent(collected, e);
    if whole != [] {
      var (t, fx) := A.Step(k, n.auth, whole[0]);
      assert whole[1..] == [] && RunWhole(k, t, whole[1..]) == (t, []) && fx + [] == fx;
    }
  }

  lemma {:induction false} RunWholeSplits(k: A.Setup, s: A.State, a: seq<A.Event>, b: seq<A.Event>)
    requires A.AllSensible(a) && A.AllSensible(b)
    ensures A.AllSensible(a + b)
    ensures var (t, fx) := RunWhole(k, s, a);
      RunWhole(k, s, a + b) == (RunWhole(k, t, b).0, fx + RunWhole(k, t, b).1)
    decreases |a|
  {
    if a == [] {
      assert a + b == b && [] + RunWhole(k, s, b).1 == RunWhole(k, s, b).1;
    } else {
      assert (a + b)[1..] == a[1..] + b;
      var (t, fx) := A.Step(k, s, a[0]);
      RunWholeSplits(k, t, a[1..], b);
      var (u, more) := RunWhole(k, t, a[1..]);
      assert fx + (more + RunWhole(k, u, b).1) == fx + more + RunWhole(k, u, b).1;
    }
  }

  /**
   In every run, whatever the fragmentation, the authentication state reached and everything done on the way are
   those of the run in which each message of an allowed size arrived whole, and the others not at all.
   */
  lemma {:induction false} PiecesActAsWhole(k: A.Setup, n: Node, collected: seq<byte>, events: seq<Event>)
    requires AllSensible(events) && R.Represents(n.view, collected)
    ensures var (m, fx) := Run(k, n, events);
      RunWhole(k, n.auth, WholeEvents(collected, events)) == (m.auth, fx)
    decreases |events|
  {
    if events != [] {
      var e := events[0];
      var m := Step(k, n, e).0;
      OneEvent(k, n, collected, e);
      PiecesActAsWhole(k, m, Collected(collected, e), events[1..]);
      RunWholeSplits(k, n.auth, WholeEvent(collected, e), WholeEvents(Collected(collected, e), events[1..]));
    }
  }

  lemma {:induction false} RunWholeReaches(k: A.Setup, s: A.State, events: seq<A.Event>)
    requires A.AllSensible(events)
    ensures RunWhole(k, s, events).0 == A.Run(k, s, events)
    decreases |events|
  {
    if events != [] {
      var n := |events| - 1;
      var before, last := events[..n], [events[n]];
      assert events == before + last && last[1..] == [];
      RunWholeSplits(k, s, before, last);
      RunWholeReaches(k, s, before);
    }
  }

  /** The pieces of an unfinished message that a run leaves behind, joined. */
  function CollectedAfter(collected: seq<byte>, events: seq<Event>): seq<byte>
    decreases |events|
  {
    if events == [] then collected else CollectedAfter(Collected(collected, events[0]), events[1..])
  }

  lemma {:induction false} RunRepresents(k: A.Setup, n: Node, collected: seq<byte>, events: seq<Event>)
    requires AllSensible(events) && R.Represents(n.view, collected)
    ensures R.Represents(Run(k, n, events).0.view, CollectedAfter(collected, events))
    decreases |events|
  {
    if events != [] {
      OneEvent(k, n, collected, events[0]);
      RunRepresents(k, Step(k, n, events[0]).0, Collected(collected, events[0]), events[1..]);
    }
  }

  /** One of these effects passes a command to a script or a built-in handler. */
  predicate LetsCommandThrough(fx: seq<A.Effect>) { exists i :: 0 <= i < |fx| && A.ServerCommand(fx[i]) }

  /** The open connection accepted the server and was confirmed by it, and the command is one for a handler. */
  ghost predicate MayAct(k: A.Setup, s: A.State, history: seq<A.Event>, cmd: seq<byte>)
    requires A.AllSensible(history) && |cmd| >= 2
  {
    A.ServerAccepted(k, s, history) && A.AgentAccepted(history)
    && BE16(cmd, 0) >= 10 && (BE16(cmd, 0) >= 1000 || |cmd| >= 4)
  }

  lemma ReceivedCommandsNeedBoth(k: A.Setup, s: A.State, events: seq<Event>, peer: seq<byte>, cmd: seq<byte>)
    requires AllSensible(events) && !s.serverOk && !s.agentOk && |cmd| >= 2
    ensures var auth := Run(k, Node(R.EMPTY, s), events).0.auth;
      LetsCommandThrough(A.Step(k, auth, A.Received(peer, cmd)).1) <==> MayAct(k, s, WholeEvents([], events), cmd)
  {
    var history := WholeEvents([], events);
    PiecesActAsWhole(k, Node(R.EMPTY, s), [], events);
    RunWholeReaches(k, s, history);
    A.CommandsNeedBoth(k, s, history, A.Received(peer, cmd));
  }

  /** So after any run, a command that arrives whole gets through exactly when it may act. */
  lemma WholeCommandsNeedBoth(k: A.Setup, s: A.State, events: seq<Event>, peer: seq<byte>, cmd: seq<byte>)
    requires AllSensible(events) && !s.serverOk && !s.agentOk && |cmd| >= 2
    ensures LetsCommandThrough(Step(k, Run(k, Node(R.EMPTY, s), events).0, Whole(peer, cmd)).1) <==>
            MayAct(k, s, WholeEvents([], events), cmd)
  {
    ReceivedCommandsNeedBoth(k, s, events, peer, cmd);
  }

  /**
   And a last piece lets a command through exactly when it completes a message of an allowed size and that, put
   together from its pieces, may act.
   */
  lemma ReassembledCommandsNeedBoth(k: A.Setup, s: A.State, events: seq<Event>, peer: seq<byte>, data: seq<byte>)
    requires AllSensible(events) && !s.serverOk && !s.agentOk
    ensures var cmd := CollectedAfter([], events) + data;
      LetsCommandThrough(Step(k, Run(k, Node(R.EMPTY, s), events).0, Piece(peer, data, true)).1) <==>
      R.Allowed(cmd) && MayAct(k, s, WholeEvents([], events), cmd)
  {
    var n, collected := Run(k, Node(R.EMPTY, s), events).0, CollectedAfter([], events);
    var cmd := collected + data;
    RunRepresents(k, Node(R.EMPTY, s), [], events);
    OneEvent(k, n, collected, Piece(peer, data, true));
    if R.Allowed(cmd) {
      ReceivedCommandsNeedBoth(k, s, events, peer, cmd);
      assert R.Step(n.view, R.Piece(data, true, true)).1 == Some(cmd);
    } else {
      assert R.Step(n.view, R.Piece(data, true, true)).1 == None;
    }
  }
}
