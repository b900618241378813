/**
 The core module: the copy in the database, the script heap it runs in, the timer that waits for the server's
 approval, and the confirmations sent to the server.
 */
module CoreLifecycle {
  import opened Common

  const PREFIX: nat := 4         // octets of a stored module before its source text
  const HEADER: nat := 4 + 48    // command, request number and SHA-384 hash

  /** The hash and the decompressor; nothing is assumed about them. */
  datatype Codec = Codec(hash: seq<byte> -> seq<byte>, inflate: seq<byte> -> Option<seq<byte>>)

  datatype State = State(
    store: Option<seq<byte>>,   // database entry CoreModule
    heap: nat,                  // the current script heap
    launched: seq<seq<byte>>,   // the sources launched in it
    timerPending: bool,         // its launch timer is armed
    coreTimeout: Option<nat>,   // the timer the agent remembers, by the heap that owns it
    ran: bool,                  // some core has been launched since startup
    localScript: bool,
    staleUse: bool)             // the remembered timer was used when its heap no longer existed

  datatype Event =
    | Module(compressed: bool, cmd: seq<byte>)
    | HashRequested
    | Approved          // CoreOk
    | TimerFired
    | RestartRequested  // restartCore(), called by a core that runs or ran

  /** What a CoreModuleHash answer says: no module, or this hash. */
  datatype Answer = NoModule | Hash(value: seq<byte>)

  // ----- Specification -----

  function Source(m: seq<byte>): seq<byte> { if |m| <= PREFIX then [] else m[PREFIX..] }

  predicate Runnable(store: Option<seq<byte>>) { store.Some? && |store.value| > PREFIX }

  function Launch(s: State, m: seq<byte>): State { s.(launched := s.launched + [Source(m)], ran := true) }

  function LaunchStored(s: State): State { if Runnable(s.store) then Launch(s, s.store.value) else s }

  function Stop(s: State): State { s.(heap := s.heap + 1, launched := [], timerPending := false) }

  function Describe(c: Codec, s: State): Answer {
    if s.store.Some? then Hash(c.hash(s.store.value)) else NoModule
  }

  function Decoded(c: Codec, compressed: bool, payload: seq<byte>): Option<seq<byte>> {
    if compressed then c.inflate(payload) else Some(payload)
  }

  function Install(c: Codec, s: State, m: seq<byte>, announced: seq<byte>): (State, Option<Answer>) {
    if c.hash(m) != announced then (Stop(s.(store := None)), Some(NoModule))
    else (Launch(Stop(s.(store := Some(m))), m), Some(Hash(c.hash(m))))
  }

  function StepModule(c: Codec, s: State, compressed: bool, cmd: seq<byte>): (State, Option<Answer>) {
    if s.localScript then (s, None)
    else if |cmd| > HEADER then
      var announced := cmd[4..HEADER];
      if s.store.Some? && c.hash(s.store.value) == announced then (s, Some(Hash(announced)))
      else
        var m := Decoded(c, compressed, cmd[HEADER..]);
        var t := s.(coreTimeout := None);
        if m.None? then (t, None) else Install(c, t, m.value, announced)
    else if |cmd| == 4 then (Stop(s.(store := None)), Some(NoModule))
    else (s, None)
  }

  /** The remembered timer belongs to a heap that has been destroyed. */
  predicate HandleIsDead(s: State) { s.coreTimeout.Some? && s.coreTimeout != Some(s.heap) }

  function Step(c: Codec, s: State, e: Event): (State, Option<Answer>) {
    match e
    case Module(compressed, cmd) => StepModule(c, s, compressed, cmd)
    case HashRequested => (s, Some(if s.localScript then Hash(Zeros(48)) else Describe(c, s)))
    case Approved =>
      if s.coreTimeout.None? then (s, None)
      else
        var armed := s.timerPending && s.coreTimeout != Some(s.heap);
        var t := s.(coreTimeout := None, timerPending := armed, staleUse := s.staleUse || HandleIsDead(s));
        (LaunchStored(t), None)
    case TimerFired => (LaunchStored(s.(coreTimeout := None, timerPending := false)), None)
    case RestartRequested => (LaunchStored(Stop(s.(localScript := false))), None)
  }

  /** The state in which the agent enters its main loop. `noUpdate` makes the stored core a local script. */
  function Started(store: Option<seq<byte>>, noUpdate: bool): State {
    if !Runnable(store) then State(store, 0, [], false, None, false, false, false)
    else if noUpdate then State(store, 0, [Source(store.value)], false, None, true, true, false)
    else State(store, 0, [], true, Some(0), false, false, false)
  }

  predicate Enabled(s: State, e: Event) {
    match e
    case TimerFired => s.timerPending
    case RestartRequested => s.ran
    case _ => true
  }

  // ----- What every run keeps -----

  /**
   At most one core per heap, and it is the stored one; while the agent remembers a timer, or one is armed,
   none has been launched in the heap.
   */
  predicate Inv(s: State) {
    && |s.launched| <= 1
    && (s.launched != [] ==> s.store.Some? && s.launched[0] == Source(s.store.value))
    && (s.coreTimeout.Some? ==> !s.ran && s.launched == [])
    && (s.timerPending ==> s.launched == [] && s.coreTimeout in {None, Some(s.heap)})
    && (s.launched != [] ==> s.ran)
  }

  function Run(c: Codec, s: State, events: seq<Event>): State
    decreases |events|
  {
    if events == [] then s else Run(c, Step(c, s, events[0]).0, events[1..])
  }

  predicate AllEnabled(c: Codec, s: State, events: seq<Event>)
    decreases |events|
  {
    events != [] ==> Enabled(s, events[0]) && AllEnabled(c, Step(c, s, events[0]).0, events[1..])
  }

  lemma StepKeepsInv(c: Codec, s: State, e: Event)
    requires Inv(s) && Enabled(s, e)
    ensures Inv(Step(c, s, e).0)
  {
  }

  lemma {:induction false} RunKeepsInv(c: Codec, s: State, events: seq<Event>)
    requires Inv(s) && AllEnabled(c, s, events)
    ensures Inv(Run(c, s, events))
    decreases |events|
  {
    if events != [] {
      StepKeepsInv(c, s, events[0]);
      RunKeepsInv(c, Step(c, s, events[0]).0, events[1..]);
    }
  }

  /** From startup on, a heap never sees a second core, and never one that differs from the database. */
  lemma OneCorePerHeap(c: Codec, store: Option<seq<byte>>, noUpdate: bool, events: seq<Event>)
    requires AllEnabled(c, Started(store, noUpdate), events)
    ensures var s := Run(c, Started(store, noUpdate), events);
      && |s.launched| <= 1
      && (s.launched != [] ==> s.store.Some? && s.launched == [Source(s.store.value)])
      && (s.coreTimeout.Some? ==> s.launched == [])
  {
    RunKeepsInv(c, Started(store, noUpdate), events);
  }

  /** Every answer about the core describes the database as the event leaves it. */
  lemma AnswersDescribeTheStore(c: Codec, s: State, e: Event)
    ensures var (t, answer) := Step(c, s, e);
      answer.Some? ==> answer.value == (if s.localScript then Hash(Zeros(48)) else Describe(c, t))
  {
  }

  /** Which events change the stored module, and to what. */
  lemma StoreChangesOnlyBy(c: Codec, s: State, e: Event)
    ensures var t := Step(c, s, e).0;
      t.store != s.store ==>
        && e.Module? && !s.localScript
        && (t.store.Some? ==>
              && |e.cmd| > HEADER
              && t.store == Decoded(c, e.compressed, e.cmd[HEADER..])
              && c.hash(t.store.value) == e.cmd[4..HEADER]
              && t.launched == [Source(t.store.value)])
        && (t.store.None? ==> t.launched == [])
  {
  }

  // ----- The remembered timer and the armed one -----

  predicate HandleIsLive(s: State) {
    && (s.coreTimeout.Some? ==> s.coreTimeout.value == s.heap)
    && (s.coreTimeout.Some? <==> s.timerPending)
  }

  /** A delete command, or a module that cannot be decoded, while the agent waits for the server's approval. */
  predicate LosesTimer(c: Codec, s: State, e: Event) {
    && s.coreTimeout.Some? && !s.localScript && e.Module?
    && (|e.cmd| == 4
        || (|e.cmd| > HEADER
            && !(s.store.Some? && c.hash(s.store.value) == e.cmd[4..HEADER])
            && Decoded(c, e.compressed, e.cmd[HEADER..]).None?))
  }

  /**
   The remembered timer and the armed timer stay the same one exactly as long as neither happens: deleting
   the core leaves a handle to a timer of a destroyed heap, and an undecodable core forgets an armed timer.
   */
  lemma HandleStaysLiveIff(c: Codec, s: State, e: Event)
    requires Inv(s) && HandleIsLive(s) && Enabled(s, e)
    ensures HandleIsLive(Step(c, s, e).0) <==> !LosesTimer(c, s, e)
  {
  }

  /** Even so, an undecodable core only postpones the launch: the armed timer still launches the stored one. */
  lemma ForgottenTimerStillLaunches(c: Codec, s: State, e: Event)
    requires Inv(s) && HandleIsLive(s) && LosesTimer(c, s, e) && |e.cmd| > HEADER && Runnable(s.store)
    ensures var t := Run(c, s, [e, Approved, TimerFired]);
      t.launched == [Source(s.store.value)] && t.store == s.store && t.heap == s.heap
  {
    var events := [e, Approved, TimerFired];
    var t := Step(c, s, e).0;
    assert t == s.(coreTimeout := None) && s.timerPending;
    assert events[1..] == [Approved, TimerFired];
    assert events[1..][1..] == [TimerFired];
    assert events[1..][1..][1..] == [];
    assert Step(c, t, Approved).0 == t;
    assert Run(c, t, [Approved, TimerFired]) == Run(c, t, [TimerFired]);
    assert Run(c, t, [TimerFired]) == Run(c, Step(c, t, TimerFired).0, []);
  }

  /** A delete command that the agent obeys. */
  predicate Deletes(s: State, e: Event) { e.Module? && !s.localScript && |e.cmd| == 4 }

  /** The handle comes to point into a destroyed heap exactly by a delete while approval is awaited. */
  lemma HandleDiesIff(c: Codec, s: State, e: Event)
    requires Inv(s) && Enabled(s, e) && !HandleIsDead(s)
    ensures HandleIsDead(Step(c, s, e).0) <==> s.coreTimeout.Some? && Deletes(s, e)
  {
  }

  /** It is used then exactly when the server's approval arrives before anything else clears it. */
  lemma StaleUseIff(c: Codec, s: State, e: Event)
    ensures Step(c, s, e).0.staleUse <==> s.staleUse || (e.Approved? && HandleIsDead(s))
  {
  }

  predicate UsesDeadAt(c: Codec, s: State, events: seq<Event>, j: nat)
    requires j < |events|
  {
    events[j].Approved? && HandleIsDead(Run(c, s, events[..j]))
  }

  /** So a run uses one exactly when some approval in it comes while the handle points into a destroyed heap. */
  lemma {:induction false} StaleUseOfRunIff(c: Codec, s: State, events: seq<Event>)
    ensures Run(c, s, events).staleUse <==> s.staleUse || exists j :: 0 <= j < |events| && UsesDeadAt(c, s, events, j)
    decreases |events|
  {
    if events != [] {
      var t, rest := Step(c, s, events[0]).0, events[1..];
      StaleUseIff(c, s, events[0]);
      StaleUseOfRunIff(c, t, rest);
      assert events[..0] == [] && UsesDeadAt(c, s, events, 0) == (events[0].Approved? && HandleIsDead(s));
      forall j | 0 <= j < |rest| ensures UsesDeadAt(c, t, rest, j) == UsesDeadAt(c, s, events, j + 1) {
        assert events[..j + 1][1..] == rest[..j];
      }
      if j :| 0 <= j < |events| && UsesDeadAt(c, s, events, j) {
        if j > 0 { assert UsesDeadAt(c, t, rest, j - 1); }
      }
    }
  }

  /** So the delete and then the approval make the agent use a timer of a heap that is gone. */
  lemma DeleteThenApprovalUsesDeadHandle(c: Codec, s: State, compressed: bool, cmd: seq<byte>)
    requires Inv(s) && HandleIsLive(s) && s.coreTimeout.Some? && !s.localScript && |cmd| == 4
    ensures var t := Run(c, s, [Module(compressed, cmd)]);
      && t.coreTimeout == Some(s.heap) && t.heap == s.heap + 1 && !t.timerPending
      && Run(c, s, [Module(compressed, cmd), Approved]).staleUse
  {
    var e := Module(compressed, cmd);
    var t := Step(c, s, e).0;
    var u := Step(c, t, Approved).0;
    assert [e][1..] == [] && [e, Approved][1..] == [Approved] && [Approved][1..] == [];
    assert Run(c, t, [Approved]) == Run(c, u, []) == u;
  }

  /** And without a delete no run does. */
  lemma {:induction false} WithoutDeleteNoStaleUse(c: Codec, s: State, events: seq<Event>)
    requires Inv(s) && AllEnabled(c, s, events) && !HandleIsDead(s) && !s.staleUse
    requires forall i :: 0 <= i < |events| ==> events[i].Module? ==> |events[i].cmd| != 4
    ensures !Run(c, s, events).staleUse
    decreases |events|
  {
    if events != [] {
      HandleDiesIff(c, s, events[0]);
      StaleUseIff(c, s, events[0]);
      StepKeepsInv(c, s, events[0]);
      WithoutDeleteNoStaleUse(c, Step(c, s, events[0]).0, events[1..]);
    }
  }

  /** restartCore() keeps the promise exactly when no approval is awaited or there is nothing to launch. */
  lemma RestartIsSafeIff(c: Codec, s: State)
    requires Inv(s)
    ensures Inv(Step(c, s, RestartRequested).0) <==> s.coreTimeout.None? || !Runnable(s.store)
  {
  }

  /** Called too early, by something other than a core, it makes one heap run the core twice. */
  lemma EarlyRestartLaunchesTwice(c: Codec, s: State)
    requires Inv(s) && s.coreTimeout.Some? && Runnable(s.store)
    ensures Run(c, s, [RestartRequested, Approved]).launched == [Source(s.store.value), Source(s.store.value)]
  {
    var t := Step(c, s, RestartRequested).0;
    var u := Step(c, t, Approved).0;
    assert [RestartRequested, Approved][1..] == [Approved];
    assert Run(c, t, [Approved]) == Run(c, u, [Approved][1..]) == u;
  }

  // ----- What runs -----

  /**
   A core command: four octets, the hash it announces, and the core, compressed or not. What it does is decided by
   the stored core, by the decompressor, and by the hash of what that gives.
   */
  lemma CommandDecides(c: Codec, s: State, compressed: bool, head: seq<byte>, announced: seq<byte>, payload: seq<byte>)
    requires |head| == 4 && |announced| == 48 && payload != [] && !s.localScript
    ensures var (t, answer) := Step(c, s, Module(compressed, head + announced + payload));
      var core := if compressed then c.inflate(payload) else Some(payload);
      if s.store.Some? && c.hash(s.store.value) == announced then t == s && answer == Some(Hash(announced))
      else if core.None? then t == s.(coreTimeout := None) && answer.None?
      else t.heap == s.heap + 1 && t.coreTimeout.None? && !t.timerPending
           && (if c.hash(core.value) == announced
               then t.store == core && |t.launched| == 1 && answer == Some(Hash(announced))
               else t.store.None? && t.launched == [] && answer == Some(NoModule))
  {
    var cmd := head + announced + payload;
    assert cmd[4..HEADER] == announced && cmd[HEADER..] == payload;
  }

  /** A core is its prefix of four octets and its text. */
  predicate IsCore(m: seq<byte>, prefix: seq<byte>, text: seq<byte>) {
    m == prefix + text && |prefix| == 4 && text != []
  }

  /** An accepted core is stored as it is, and its text runs, alone in a new heap. */
  lemma AcceptedCoreRuns(c: Codec, s: State, compressed: bool, head: seq<byte>, payload: seq<byte>,
                         m: seq<byte>, prefix: seq<byte>, text: seq<byte>)
    requires IsCore(m, prefix, text) && |head| == 4 && |c.hash(m)| == 48 && payload != [] && !s.localScript
    requires if compressed then c.inflate(payload) == Some(m) else payload == m
    requires s.store.None? || c.hash(s.store.value) != c.hash(m)
    ensures var (t, answer) := Step(c, s, Module(compressed, head + c.hash(m) + payload));
      && t.store == Some(m) && t.launched == [text] && t.heap == s.heap + 1 && t.ran
      && answer == Some(Hash(c.hash(m)))
  {
    CommandDecides(c, s, compressed, head, c.hash(m), payload);
    var cmd := head + c.hash(m) + payload;
    assert cmd[4..HEADER] == c.hash(m) && cmd[HEADER..] == payload;
    assert m[PREFIX..] == text;
  }

  /** The timer, the server's approval while a timer is remembered, and a restart run the text of the stored core. */
  lemma StoredCoreRuns(c: Codec, s: State, e: Event, m: seq<byte>, prefix: seq<byte>, text: seq<byte>)
    requires Inv(s) && Enabled(s, e) && IsCore(m, prefix, text) && s.store == Some(m)
    requires e.TimerFired? || (e.Approved? && s.coreTimeout.Some?) || e.RestartRequested?
    ensures var t := Step(c, s, e).0;
      && t.launched == [text] && t.store == s.store && t.ran
      && t.heap == if e.RestartRequested? then s.heap + 1 else s.heap
  {
    assert m[PREFIX..] == text;
  }

  /** At startup it runs at once as a local script, and else when the timer fires or the server approves. */
  lemma StartedCoreRuns(c: Codec, m: seq<byte>, prefix: seq<byte>, text: seq<byte>)
    requires IsCore(m, prefix, text)
    ensures Started(Some(m), true).launched == [text] && Started(Some(m), true).localScript
    ensures var s := Started(Some(m), false);
      && s.launched == [] && !s.localScript && s.timerPending
      && Step(c, s, TimerFired).0.launched == [text] && Step(c, s, Approved).0.launched == [text]
      && !Step(c, s, Approved).0.timerPending
  {
    assert m[PREFIX..] == text;
  }

  // ----- The agent's fields -----

  class CoreHost {
    const codec: Codec
    var store: Option<seq<byte>>
    var heap: nat
    var launched: seq<seq<byte>>
    var timerPending: bool
    var coreTimeout: Option<nat>
    var localScript: bool
    ghost var ran: bool
    ghost var staleUse: bool

    ghost function Abs(): State
      reads this
    {
      State(store, heap, launched, timerPending, coreTimeout, ran, localScript, staleUse)
    }

    constructor (codec: Codec, store: Option<seq<byte>>, noUpdate: bool)
      ensures this.codec == codec && Abs() == Started(store, noUpdate)
    {
      this.codec := codec;
      this.store, heap, launched, timerPending, coreTimeout, localScript, ran, staleUse :=
        store, 0, [], false, None, false, false, false;
      new;
      if store.Some? && |store.value| > PREFIX {
        if noUpdate {
          localScript := true;
          Execute(store.value);
        } else {
          coreTimeout := Some(heap);
          timerPending := true;
        }
      }
    }

    method Execute(m: seq<byte>)
      modifies this`launched, this`ran
      ensures Abs() == Launch(old(Abs()), m)
      ensures launched == old(launched) + [if |m| > 4 then m[4..] else []]
    {
      var source: seq<byte> := [];
      if |m| > PREFIX { source := m[PREFIX..]; }
      launched := launched + [source];
      ran := true;
    }

    method StopEngine()
      modifies this`heap, this`launched, this`timerPending
      ensures Abs() == Stop(old(Abs()))
    {
      heap := heap + 1;
      launched := [];
      timerPending := false;
    }

    method RestartEngine(m: seq<byte>)
      modifies this`heap, this`launched, this`timerPending, this`ran
      ensures Abs() == Launch(Stop(old(Abs())), m)
    {
      StopEngine();
      Execute(m);
    }

    method OnModule(compressed: bool, cmd: seq<byte>) returns (answer: Option<Answer>)
      modifies this
      ensures Abs() == Step(codec, old(Abs()), Module(compressed, cmd)).0
      ensures answer == Step(codec, old(Abs()), Module(compressed, cmd)).1
    {
      answer := None;
      if localScript { return; }
      if |cmd| > HEADER {
        var announced := cmd[4..HEADER];
        var text := cmd[HEADER..];
        if store.None? || codec.hash(store.value) != announced {
          coreTimeout := None;
          if compressed {
            var inflated := codec.inflate(text);
            if inflated.None? { return; }
            text := inflated.value;
          }
          store := Some(text);
          if codec.hash(text) != announced {
            store := None;
            StopEngine();
            return Some(NoModule);
          }
          RestartEngine(text);
        }
        answer := Some(Hash(codec.hash(store.value)));
      } else if |cmd| == 4 {
        store := None;
        StopEngine();
        answer := Some(NoModule);
      }
    }

    method OnHashRequested() returns (answer: Answer)
      ensures Step(codec, Abs(), HashRequested) == (Abs(), Some(answer))
    {
      answer := if localScript then Hash(Zeros(48)) else NoModule;
      if !localScript && store.Some? { answer := Hash(codec.hash(store.value)); }
    }

    method OnApproved()
      modifies this
      ensures Abs() == Step(codec, old(Abs()), Approved).0
    {
      if coreTimeout.Some? {
        if coreTimeout.value == heap {
          timerPending := false;
        } else {
          staleUse := true;
        }
        coreTimeout := None;
        if store.Some? && |store.value| > PREFIX { Execute(store.value); }
      }
    }

    method OnTimer()
      requires timerPending
      modifies this
      ensures Abs() == Step(codec, old(Abs()), TimerFired).0
    {
      timerPending := false;
      coreTimeout := None;
      if store.Some? && |store.value| > PREFIX { Execute(store.value); }
    }

    method OnRestartRequested()
      modifies this
      ensures Abs() == Step(codec, old(Abs()), RestartRequested).0
    {
      localScript := false;
      StopEngine();
      if store.Some? && |store.value| > PREFIX { Execute(store.value); }
    }
  }
}
