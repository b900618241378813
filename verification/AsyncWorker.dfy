/**
 A native function called on a worker thread: the hand-off between the script thread, whose arguments live on its
 stack, and the worker, which copies them, calls the function and sends the result back to the event loop. The two
 threads are a state machine; a run is any interleaving of their steps.
 */
module AsyncWorker {
  import opened Common

  const MAX_PARAMETERS: nat := 20

  /** A script value that can be passed to native code, as a machine word, or one that cannot. */
  datatype Param = Usable(word: int) | Unusable

  datatype Call = Call(target: int, args: seq<int>)

  /** The words on the caller's stack: how many there are, and those written so far. */
  datatype Frame = Frame(size: nat, words: seq<int>)

  /** What the shared pointer `vars` is: the caller's frame, or the returned value. */
  datatype Vars = Null | ToFrame | Returned(value: int)

  datatype ScriptPc = Idle | Filling(params: seq<Param>) | WaitStarted | Aborting | Joining

  datatype WorkerPc = LoopTop | WaitWork | CheckAbort | Copying(i: nat) | PostStarted | Invoke | Publish | Exited

  datatype State = State(
    script: ScriptPc,
    worker: WorkerPc,
    abort: bool,                  // set once; the script can then no longer reach the shared data
    workAvailable: nat,           // semaphore
    workStarted: nat,             // semaphore
    vars: Vars,
    frame: Option<Frame>,         // None when the caller has returned
    copied: seq<int>,             // the worker's own copy of the arguments
    fptr: int,
    redirection: Option<int>,
    promise: Option<nat>,         // the promise of call number n, counted from 0
    queue: nat,                   // results on their way through the event loop
    calls: seq<Call>,             // the calls handed to the worker
    resolved: seq<(nat, int)>,    // promises resolved, with their values
    rejected: Option<nat>,
    wildRead: bool,               // the worker has read a word that was not there
    lateUse: bool)                // the script has used the shared data after it was freed

  datatype Step =
    // script thread
    | BeginCall(params: seq<Param>, redirection: Option<int>)
    | FillOne
    | Post
    | Wake
    | Dispatch
    | Abort
    | PostAbort
    | JoinDone
    // worker thread
    | Top
    | TakeWork
    | Check
    | CopyOne
    | SignalStarted
    | CallNative
    | Announce

  type Native = (int, seq<int>) -> int

  // ----- The steps -----

  function Initial(fptr: int): State {
    State(Idle, LoopTop, false, 0, 0, Null, None, [], fptr, None, None, 0, [], [], None, false, false)
  }

  predicate Enabled(s: State, step: Step) {
    match step
    case BeginCall(params, redirection) => s.script.Idle? && !s.abort && (redirection.Some? ==> params != [])
    case FillOne => s.script.Filling? && s.frame.Some? && |s.frame.value.words| < |s.script.params|
    case Post => s.script.Filling? && s.frame.Some? && |s.frame.value.words| >= |s.script.params|
    case Wake => s.script.WaitStarted? && s.workStarted > 0
    case Dispatch => s.script.Idle? && s.queue > 0
    case Abort => s.script.Idle? && !s.abort
    case PostAbort => s.script.Aborting?
    case JoinDone => s.script.Joining? && s.worker.Exited?
    case Top => s.worker.LoopTop?
    case TakeWork => s.worker.WaitWork? && s.workAvailable > 0
    case Check => s.worker.CheckAbort?
    case CopyOne => s.worker.Copying?
    case SignalStarted => s.worker.PostStarted?
    case CallNative => s.worker.Invoke?
    case Announce => s.worker.Publish?
  }

  /** With a redirection the first parameter only names the worker to use. */
  function Target(s: State): int { if s.redirection.Some? then s.redirection.value else s.fptr }

  function Skip(s: State): nat { if s.redirection.Some? then 1 else 0 }

  function NextBegin(s: State, params: seq<Param>, redirection: Option<int>): State {
    if |params| > MAX_PARAMETERS || s.promise.Some? then s
    else s.(script := Filling(params), promise := Some(|s.calls|), vars := ToFrame,
            frame := Some(Frame(|params|, [])), redirection := redirection)
  }

  function NextFill(s: State): State
    requires Enabled(s, FillOne)
  {
    match s.script.params[|s.frame.value.words|]
    case Unusable => s.(script := Idle, frame := None)
    case Usable(word) => s.(frame := Some(s.frame.value.(words := s.frame.value.words + [word])))
  }

  function NextPost(s: State): State
    requires Enabled(s, Post)
  {
    var words := s.frame.value.words;
    var args := if Skip(s) <= |words| then words[Skip(s)..] else [];
    s.(script := WaitStarted, workAvailable := s.workAvailable + 1, calls := s.calls + [Call(Target(s), args)])
  }

  /** The event loop resolves the promise, unless the worker has freed everything. */
  function NextDispatch(s: State): State
    requires Enabled(s, Dispatch)
  {
    var t := s.(queue := s.queue - 1);
    if s.worker.Exited? then t
    else if s.promise.Some? && s.vars.Returned? then
      t.(promise := None, resolved := s.resolved + [(s.promise.value, s.vars.value)])
    else t.(wildRead := true)
  }

  /** With a promise outstanding, it is rejected and nothing is posted. */
  function NextAbort(s: State): State {
    if s.promise.Some? then s.(abort := true, rejected := s.promise) else s.(abort := true, script := Aborting)
  }

  function NextCopy(s: State): State
    requires Enabled(s, CopyOne)
  {
    var i := s.worker.i;
    if !s.vars.ToFrame? || s.frame.None? then s.(wildRead := true)
    else if i >= s.frame.value.size then s.(worker := PostStarted)
    else if i >= |s.frame.value.words| then s.(wildRead := true)
    else s.(worker := Copying(i + 1), copied := s.copied + [s.frame.value.words[i]])
  }

  function Next(native: Native, s: State, step: Step): State
    requires Enabled(s, step)
  {
    match step
    case BeginCall(params, redirection) => NextBegin(s, params, redirection)
    case FillOne => NextFill(s)
    case Post => NextPost(s)
    case Wake => s.(script := Idle, workStarted := s.workStarted - 1, frame := None)
    case Dispatch => NextDispatch(s)
    case Abort => NextAbort(s)
    case PostAbort =>
      if s.worker.Exited? then s.(script := Joining, lateUse := true)
      else s.(script := Joining, workAvailable := s.workAvailable + 1)
    case JoinDone => s.(script := Idle)
    case Top => s.(worker := if s.abort then Exited else WaitWork)
    case TakeWork => s.(worker := CheckAbort, workAvailable := s.workAvailable - 1)
    case Check => if s.abort then s.(worker := Exited) else s.(worker := Copying(Skip(s)), copied := [])
    case CopyOne => NextCopy(s)
    case SignalStarted => s.(worker := Invoke, workStarted := s.workStarted + 1)
    case CallNative => s.(worker := Publish, vars := Returned(native(Target(s), s.copied)), redirection := None)
    case Announce => s.(worker := LoopTop, queue := s.queue + 1)
  }

  // ----- What every reachable state satisfies -----

  function Outcome(native: Native, c: Call): int { native(c.target, c.args) }

  /** Promises are resolved in the order of the calls, each with the result of its own call. */
  predicate ResolvedInOrder(native: Native, calls: seq<Call>, resolved: seq<(nat, int)>) {
    && |resolved| <= |calls| <= |resolved| + 1
    && forall i :: 0 <= i < |resolved| ==> resolved[i] == (i, Outcome(native, calls[i]))
  }

  predicate InFlight(s: State) { |s.calls| == |s.resolved| + 1 }

  function Current(s: State): Call
    requires s.calls != []
  {
    s.calls[|s.calls| - 1]
  }

  predicate Parked(w: WorkerPc) { w.LoopTop? || w.WaitWork? }

  /** The caller's frame holds all the words of the current call. */
  predicate FrameReady(s: State)
    requires s.calls != []
  {
    && s.vars.ToFrame? && s.frame.Some?
    && var f := s.frame.value;
      |f.words| == f.size <= MAX_PARAMETERS && Skip(s) <= f.size && Current(s) == Call(Target(s), f.words[Skip(s)..])
  }

  /** The worker has not signalled that it has the arguments. */
  predicate BeforeSignal(s: State)
    requires s.calls != []
  {
    && s.workStarted == 0 && s.queue == 0 && FrameReady(s)
    && match s.worker
      case LoopTop => s.workAvailable == 1
      case WaitWork => s.workAvailable == 1
      case CheckAbort => s.workAvailable == 0
      case Copying(i) =>
        && s.workAvailable == 0 && Skip(s) <= i <= s.frame.value.size
        && s.copied == s.frame.value.words[Skip(s)..i]
      case PostStarted => s.workAvailable == 0 && s.copied == Current(s).args
      case _ => false
  }

  /** The worker has the arguments, and no longer needs the caller. */
  predicate AfterSignal(native: Native, s: State)
    requires s.calls != []
  {
    && s.workAvailable == 0
    && match s.worker
      case Invoke => s.queue == 0 && Current(s) == Call(Target(s), s.copied)
      case Publish => s.queue == 0 && s.vars == Returned(Outcome(native, Current(s)))
      case LoopTop => s.queue == 1 && s.vars == Returned(Outcome(native, Current(s)))
      case WaitWork => s.queue == 1 && s.vars == Returned(Outcome(native, Current(s)))
      case Exited => s.queue <= 1
      case _ => false
  }

  predicate NoCall(s: State) { |s.calls| == |s.resolved| && s.workStarted == 0 && s.queue == 0 }

  /** A call that failed half way left its promise behind, and no work. */
  predicate Orphaned(s: State) { s.script.Idle? && s.promise == Some(|s.calls|) }

  predicate InvFilling(s: State)
    requires s.script.Filling?
  {
    && !s.abort && NoCall(s) && s.workAvailable == 0 && Parked(s.worker)
    && s.promise == Some(|s.calls|) && s.vars.ToFrame? && s.frame.Some?
    && var f, params := s.frame.value, s.script.params;
      && f.size == |params| <= MAX_PARAMETERS && Skip(s) <= |params| && |f.words| <= |params|
      && forall k :: 0 <= k < |f.words| ==> params[k] == Usable(f.words[k])
  }

  predicate InvIdle(native: Native, s: State)
    requires s.script.Idle?
  {
    if InFlight(s) then
      && s.promise == Some(|s.calls| - 1) && s.workStarted == 0 && AfterSignal(native, s)
    else
      && NoCall(s) && s.workAvailable <= 1
      && (s.abort || s.workAvailable == 0)
      && (s.promise.None? || s.promise == Some(|s.calls|))
      && (Parked(s.worker) || (s.abort && s.worker.Exited?))
      && (s.worker.WaitWork? ==> s.workAvailable == 0)
  }

  predicate Inv(native: Native, s: State) {
    && ResolvedInOrder(native, s.calls, s.resolved)
    && !s.wildRead
    && (s.worker.Exited? || s.lateUse ==> s.abort)
    && match s.script
      case Idle => InvIdle(native, s)
      case Filling(_) => InvFilling(s)
      case WaitStarted =>
        && !s.abort && InFlight(s) && s.promise == Some(|s.calls| - 1)
        && (BeforeSignal(s) || (s.workStarted == 1 && AfterSignal(native, s)))
      case Aborting =>
        && s.abort && NoCall(s) && s.promise.None? && s.workAvailable == 0 && (Parked(s.worker) || s.worker.Exited?)
      case Joining =>
        && s.abort && NoCall(s) && s.promise.None? && s.workAvailable <= 1
        && match s.worker
          case LoopTop => true
          case WaitWork => s.workAvailable == 1
          case CheckAbort => true
          case Exited => true
          case _ => false
  }

  lemma ResolvedGrows(native: Native, calls: seq<Call>, resolved: seq<(nat, int)>, c: Call)
    requires ResolvedInOrder(native, calls, resolved) && |calls| == |resolved|
    ensures ResolvedInOrder(native, calls + [c], resolved)
    ensures ResolvedInOrder(native, calls + [c], resolved + [(|calls|, Outcome(native, c))])
  {
  }

  lemma BeginKeepsInv(native: Native, s: State, params: seq<Param>, redirection: Option<int>)
    requires Inv(native, s) && Enabled(s, BeginCall(params, redirection))
    ensures Inv(native, Next(native, s, BeginCall(params, redirection)))
  {
  }

  lemma FillKeepsInv(native: Native, s: State)
    requires Inv(native, s) && Enabled(s, FillOne)
    ensures Inv(native, Next(native, s, FillOne))
  {
  }

  lemma PostKeepsInv(native: Native, s: State)
    requires Inv(native, s) && Enabled(s, Post)
    ensures Inv(native, Next(native, s, Post))
  {
    var t := Next(native, s, Post);
    ResolvedGrows(native, s.calls, s.resolved, Current(t));
    assert FrameReady(t);
  }

  lemma WakeKeepsInv(native: Native, s: State)
    requires Inv(native, s) && Enabled(s, Wake)
    ensures Inv(native, Next(native, s, Wake))
  {
  }

  lemma DispatchKeepsInv(native: Native, s: State)
    requires Inv(native, s) && Enabled(s, Dispatch)
    ensures Inv(native, Next(native, s, Dispatch))
  {
  }

  lemma AbortKeepsInv(native: Native, s: State, step: Step)
    requires Inv(native, s) && Enabled(s, step) && (step.Abort? || step.PostAbort? || step.JoinDone?)
    ensures Inv(native, Next(native, s, step))
  {
  }

  lemma WaitingKeepsInv(native: Native, s: State, step: Step)
    requires Inv(native, s) && Enabled(s, step) && (step.Top? || step.TakeWork? || step.Check?)
    ensures Inv(native, Next(native, s, step))
  {
  }

  lemma CopyKeepsInv(native: Native, s: State)
    requires Inv(native, s) && Enabled(s, CopyOne)
    ensures Inv(native, Next(native, s, CopyOne))
  {
    CopyingIsBeforeSignal(native, s);
    SliceGrows(s.frame.value.words, Skip(s), s.worker.i);
  }

  lemma CopyingIsBeforeSignal(native: Native, s: State)
    requires Inv(native, s) && s.worker.Copying?
    ensures s.script.WaitStarted? && !s.abort && InFlight(s) && s.promise == Some(|s.calls| - 1)
    ensures BeforeSignal(s) && Skip(s) <= s.worker.i <= |s.frame.value.words|
  {
  }

  lemma SliceGrows(words: seq<int>, skip: nat, i: nat)
    requires skip <= i <= |words|
    ensures if i < |words| then words[skip..i + 1] == words[skip..i] + [words[i]] else words[skip..i] == words[skip..]
  {
  }

  lemma RunningKeepsInv(native: Native, s: State, step: Step)
    requires Inv(native, s) && Enabled(s, step) && (step.SignalStarted? || step.CallNative? || step.Announce?)
    ensures Inv(native, Next(native, s, step))
  {
  }

  lemma StepKeepsInv(native: Native, s: State, step: Step)
    requires Inv(native, s) && Enabled(s, step)
    ensures Inv(native, Next(native, s, step))
  {
    match step
    case BeginCall(params, redirection) => BeginKeepsInv(native, s, params, redirection);
    case FillOne => FillKeepsInv(native, s);
    case Post => PostKeepsInv(native, s);
    case Wake => WakeKeepsInv(native, s);
    case Dispatch => DispatchKeepsInv(native, s);
    case Abort => AbortKeepsInv(native, s, step);
    case PostAbort => AbortKeepsInv(native, s, step);
    case JoinDone => AbortKeepsInv(native, s, step);
    case Top => WaitingKeepsInv(native, s, step);
    case TakeWork => WaitingKeepsInv(native, s, step);
    case Check => WaitingKeepsInv(native, s, step);
    case CopyOne => CopyKeepsInv(native, s);
    case SignalStarted => RunningKeepsInv(native, s, step);
    case CallNative => RunningKeepsInv(native, s, step);
    case Announce => RunningKeepsInv(native, s, step);
  }

  // ----- Runs -----

  predicate Feasible(native: Native, s: State, steps: seq<Step>)
    decreases |steps|
  {
    steps == [] || (Enabled(s, steps[0]) && Feasible(native, Next(native, s, steps[0]), steps[1..]))
  }

  function After(native: Native, s: State, steps: seq<Step>): State
    requires Feasible(native, s, steps)
    decreases |steps|
  {
    if steps == [] then s else After(native, Next(native, s, steps[0]), steps[1..])
  }

  lemma {:induction false} RunKeepsInv(native: Native, s: State, steps: seq<Step>)
    requires Inv(native, s) && Feasible(native, s, steps)
    ensures Inv(native, After(native, s, steps))
    decreases |steps|
  {
    if steps != [] {
      StepKeepsInv(native, s, steps[0]);
      RunKeepsInv(native, Next(native, s, steps[0]), steps[1..]);
    }
  }

  /** In every interleaving, when the worker is about to read an argument, the caller waits and the word is there. */
  lemma ReadsOnlyWhileCallerWaits(native: Native, fptr: int, steps: seq<Step>)
    requires Feasible(native, Initial(fptr), steps)
    ensures var s := After(native, Initial(fptr), steps);
      && !s.wildRead && s.workAvailable <= 1 && s.workStarted <= 1
      && (Enabled(s, CopyOne) ==> s.script.WaitStarted? && s.workStarted == 0 && s.calls != [] && FrameReady(s))
  {
    RunKeepsInv(native, Initial(fptr), steps);
  }

  // ----- Every run ends unless the script acts -----

  predicate OfEnvironment(step: Step) { step.BeginCall? || step.Abort? }

  function ScriptRank(s: State): nat {
    match s.script
    case Idle => 0
    case Filling(params) =>
      45 + (if s.frame.Some? && |s.frame.value.words| <= |params| then |params| - |s.frame.value.words| else 0)
    case WaitStarted => 1
    case Aborting => 43
    case Joining => 1
  }

  function WorkerRank(s: State): nat {
    match s.worker
    case LoopTop => 1
    case WaitWork => 0
    case CheckAbort => 30
    case Copying(i) => 6 + (if s.frame.Some? && i <= s.frame.value.size then s.frame.value.size - i else 0)
    case PostStarted => 5
    case Invoke => 4
    case Publish => 3
    case Exited => 0
  }

  function Rank(s: State): nat { ScriptRank(s) + WorkerRank(s) + 40 * s.workAvailable + s.queue }

  lemma RankDecreases(native: Native, s: State, step: Step)
    requires Inv(native, s) && Enabled(s, step) && !OfEnvironment(step)
    ensures Rank(Next(native, s, step)) < Rank(s)
  {
  }

  /** Left to themselves the two threads take at most `Rank` steps. */
  lemma {:induction false} RunsAreShort(native: Native, s: State, steps: seq<Step>)
    requires Inv(native, s) && Feasible(native, s, steps)
    requires forall i :: 0 <= i < |steps| ==> !OfEnvironment(steps[i])
    ensures |steps| + Rank(After(native, s, steps)) <= Rank(s)
    decreases |steps|
  {
    if steps != [] {
      StepKeepsInv(native, s, steps[0]);
      RankDecreases(native, s, steps[0]);
      RunsAreShort(native, Next(native, s, steps[0]), steps[1..]);
    }
  }

  /** Neither thread can take a step by itself. */
  predicate Quiescent(s: State) {
    && !Enabled(s, FillOne) && !Enabled(s, Post) && !Enabled(s, Wake) && !Enabled(s, Dispatch)
    && !Enabled(s, PostAbort) && !Enabled(s, JoinDone)
    && !Enabled(s, Top) && !Enabled(s, TakeWork) && !Enabled(s, Check) && !Enabled(s, CopyOne)
    && !Enabled(s, SignalStarted) && !Enabled(s, CallNative) && !Enabled(s, Announce)
  }

  /** The worker waits for work that will never come. */
  predicate Stranded(s: State) { s.script.Idle? && s.abort && s.worker.WaitWork? && s.workAvailable == 0 }

  /** There is no deadlock: when nothing moves, every call is resolved, or the worker has gone, or is stranded. */
  lemma QuiescentMeansDone(native: Native, s: State)
    requires Inv(native, s) && Quiescent(s)
    ensures s.script.Idle? && s.queue == 0 && s.workStarted == 0
    ensures !s.abort ==> s.worker.WaitWork? && |s.resolved| == |s.calls| && (s.promise.None? || Orphaned(s))
    ensures s.abort ==> s.worker.Exited? != Stranded(s)
  {
  }

  // ----- What is resolved is what was asked for -----

  predicate AllUsable(params: seq<Param>) { forall k :: 0 <= k < |params| ==> params[k].Usable? }

  function WordsOf(params: seq<Param>): (w: seq<int>)
    requires AllUsable(params)
    ensures |w| == |params|
  {
    seq(|params|, k requires 0 <= k < |params| => params[k].word)
  }

  function CallOf(params: seq<Param>, redirection: Option<int>, fptr: int): Call
    requires AllUsable(params) && (redirection.Some? ==> params != [])
  {
    if redirection.Some? then Call(redirection.value, WordsOf(params)[1..]) else Call(fptr, WordsOf(params))
  }

  /** The call that a step asks for, if it is accepted. */
  function AskedBy(s: State, step: Step): seq<Call>
    requires Enabled(s, step)
  {
    if step.BeginCall? && s.promise.None? && |step.params| <= MAX_PARAMETERS && AllUsable(step.params)
    then [CallOf(step.params, step.redirection, s.fptr)] else []
  }

  function Asked(native: Native, s: State, steps: seq<Step>): seq<Call>
    requires Feasible(native, s, steps)
    decreases |steps|
  {
    if steps == [] then [] else AskedBy(s, steps[0]) + Asked(native, Next(native, s, steps[0]), steps[1..])
  }

  /** The call being prepared, if all its parameters are usable. */
  function Prepared(s: State): seq<Call> {
    if s.script.Filling? && AllUsable(s.script.params) && (s.redirection.Some? ==> s.script.params != [])
    then [CallOf(s.script.params, s.redirection, s.fptr)] else []
  }

  /** The calls handed over, and the one about to be. */
  function Accepted(s: State): seq<Call> { s.calls + Prepared(s) }

  lemma BeginConservesCalls(native: Native, s: State, step: Step)
    requires Inv(native, s) && Enabled(s, step) && step.BeginCall?
    ensures Next(native, s, step).calls == s.calls && Prepared(s) == []
    ensures Prepared(Next(native, s, step)) == AskedBy(s, step)
  {
  }

  lemma FillConservesCalls(native: Native, s: State)
    requires Inv(native, s) && Enabled(s, FillOne)
    ensures Next(native, s, FillOne).calls == s.calls && Prepared(Next(native, s, FillOne)) == Prepared(s)
  {
  }

  lemma PostConservesCalls(native: Native, s: State)
    requires Inv(native, s) && Enabled(s, Post)
    ensures Next(native, s, Post).calls == s.calls + Prepared(s) && Prepared(Next(native, s, Post)) == []
  {
    var words, params := s.frame.value.words, s.script.params;
    assert words == WordsOf(params);
  }

  lemma OthersConserveCalls(native: Native, s: State, step: Step)
    requires Inv(native, s) && Enabled(s, step) && !step.BeginCall? && !step.FillOne? && !step.Post?
    ensures Next(native, s, step).calls == s.calls && Prepared(Next(native, s, step)) == Prepared(s)
  {
    if s.script.Filling? {
      var t := Next(native, s, step);
      assert t.script == s.script && t.redirection == s.redirection && t.fptr == s.fptr;
    } else {
      assert !Next(native, s, step).script.Filling?;
    }
  }

  lemma StepConservesCalls(native: Native, s: State, step: Step)
    requires Inv(native, s) && Enabled(s, step)
    ensures Accepted(Next(native, s, step)) == Accepted(s) + AskedBy(s, step)
  {
    match step {
      case BeginCall(_, _) => BeginConservesCalls(native, s, step);
      case FillOne => FillConservesCalls(native, s);
      case Post => PostConservesCalls(native, s);
      case _ => OthersConserveCalls(native, s, step);
    }
  }

  lemma {:induction false} RunConservesCalls(native: Native, s: State, steps: seq<Step>)
    requires Inv(native, s) && Feasible(native, s, steps)
    ensures Accepted(After(native, s, steps)) == Accepted(s) + Asked(native, s, steps)
    decreases |steps|
  {
    if steps != [] {
      var t := Next(native, s, steps[0]);
      StepKeepsInv(native, s, steps[0]);
      StepConservesCalls(native, s, steps[0]);
      RunConservesCalls(native, t, steps[1..]);
      AppendIsAssociative(Accepted(s), AskedBy(s, steps[0]), Asked(native, t, steps[1..]));
    }
  }

  lemma AppendIsAssociative(a: seq<Call>, b: seq<Call>, c: seq<Call>)
    ensures a + b + c == a + (b + c)
  {
  }

  lemma {:induction false} AbortsOnlyByAbort(native: Native, s: State, steps: seq<Step>)
    requires !s.abort && Feasible(native, s, steps) && Abort !in steps
    ensures !After(native, s, steps).abort
    decreases |steps|
  {
    if steps != [] { AbortsOnlyByAbort(native, Next(native, s, steps[0]), steps[1..]); }
  }

  lemma InitialInv(native: Native, fptr: int)
    ensures Inv(native, Initial(fptr)) && Accepted(Initial(fptr)) == []
  {
  }

  lemma RestMeansResolved(native: Native, s: State)
    requires Inv(native, s) && Quiescent(s) && !s.abort
    ensures Accepted(s) == s.calls && |s.resolved| == |s.calls|
    ensures forall i :: 0 <= i < |s.calls| ==> s.resolved[i] == (i, Outcome(native, s.calls[i]))
  {
    QuiescentMeansDone(native, s);
    assert Prepared(s) == [];
  }

  /**
   In every run without an abort, once both threads rest, the calls asked for have been resolved, each exactly
   once, in order, and with the result of its own function on its own arguments.
   */
  lemma EveryCallIsResolvedOnce(native: Native, fptr: int, steps: seq<Step>)
    requires Feasible(native, Initial(fptr), steps) && Abort !in steps
    requires Quiescent(After(native, Initial(fptr), steps))
    ensures var asked := Asked(native, Initial(fptr), steps);
      var resolved := After(native, Initial(fptr), steps).resolved;
      && |resolved| == |asked|
      && forall i :: 0 <= i < |asked| ==> resolved[i] == (i, Outcome(native, asked[i]))
  {
    var s0 := Initial(fptr);
    InitialInv(native, fptr);
    RunKeepsInv(native, s0, steps);
    AbortsOnlyByAbort(native, s0, steps);
    RunConservesCalls(native, s0, steps);
    RestMeansResolved(native, After(native, s0, steps));
    assert [] + Asked(native, s0, steps) == Asked(native, s0, steps);
  }

  // ----- The two loops that move the arguments -----

  /** The script thread writes the parameters to its frame, and gives up at the first unusable one. */
  method WriteParameters(params: seq<Param>, vars: array<int>) returns (ok: bool)
    requires vars.Length == |params|
    modifies vars
    ensures ok <==> AllUsable(params)
    ensures ok ==> vars[..] == WordsOf(params)
  {
    for i := 0 to |params|
      invariant forall k :: 0 <= k < i ==> params[k].Usable? && vars[k] == params[k].word
    {
      if params[i].Unusable? { return false; }
      vars[i] := params[i].word;
    }
    ok := true;
  }

  /** The worker copies them, all but the first when the call is redirected. */
  method CopyParameters(vars: array<int>, redirected: bool) returns (local: array<int>, count: nat)
    requires vars.Length <= MAX_PARAMETERS && (redirected ==> vars.Length > 0)
    ensures fresh(local) && count <= local.Length == MAX_PARAMETERS
    ensures local[..count] == vars[if redirected then 1 else 0..]
  {
    local := new int[MAX_PARAMETERS](_ => 0);
    var skip := if redirected then 1 else 0;
    for i := skip to vars.Length
      invariant forall k :: skip <= k < i ==> local[k - skip] == vars[k]
    {
      local[i - skip] := vars[i];
    }
    count := vars.Length - skip;
  }

  // ----- Aborting -----

  lemma StrandedForGood(native: Native, s: State, step: Step)
    requires Inv(native, s) && s.abort && Enabled(s, step)
    ensures Next(native, s, step).abort
    ensures Stranded(Next(native, s, step)) <==> Stranded(s)
  {
  }

  lemma {:induction false} StrandedThroughout(native: Native, s: State, steps: seq<Step>)
    requires Inv(native, s) && s.abort && Feasible(native, s, steps)
    ensures After(native, s, steps).abort
    ensures Stranded(After(native, s, steps)) <==> Stranded(s)
    decreases |steps|
  {
    if steps != [] {
      StepKeepsInv(native, s, steps[0]);
      StrandedForGood(native, s, steps[0]);
      StrandedThroughout(native, Next(native, s, steps[0]), steps[1..]);
    }
  }

  /**
   In every run, after an abort the worker exits, unless a promise was outstanding while the worker waited for
   work: either a parameter of the last call was unusable, or its result was still on its way to the script.
   */
  lemma AbortEndsTheWorkerIff(native: Native, fptr: int, before: seq<Step>, after: seq<Step>)
    requires Feasible(native, Initial(fptr), before) && Enabled(After(native, Initial(fptr), before), Abort)
    requires Feasible(native, Next(native, After(native, Initial(fptr), before), Abort), after)
    requires Quiescent(After(native, Next(native, After(native, Initial(fptr), before), Abort), after))
    ensures var s := After(native, Initial(fptr), before);
      After(native, Next(native, s, Abort), after).worker.Exited? <==> s.promise.None? || !s.worker.WaitWork?
  {
    RunKeepsInv(native, Initial(fptr), before);
    var s := After(native, Initial(fptr), before);
    var t := Next(native, s, Abort);
    StepKeepsInv(native, s, Abort);
    RunKeepsInv(native, t, after);
    StrandedThroughout(native, t, after);
    QuiescentMeansDone(native, After(native, t, after));
  }

  /** One bad parameter is enough: the worker has gone to wait when the abort comes, and nothing moves any more. */
  lemma AbortCanStrand(native: Native, fptr: int)
    ensures var steps := [BeginCall([Unusable], None), FillOne, Top];
      && Feasible(native, Initial(fptr), steps)
      && var s := After(native, Initial(fptr), steps);
        s.promise.Some? && s.worker.WaitWork? && Enabled(s, Abort)
        && Stranded(Next(native, s, Abort)) && Quiescent(Next(native, s, Abort))
  {
    var begin, fill, top := BeginCall([Unusable], None), [FillOne, Top], [Top];
    var s0 := Initial(fptr);
    var s1 := Next(native, s0, begin);
    assert s1.frame == Some(Frame(1, [])) && s1.script == Filling([Unusable]);
    var s2 := Next(native, s1, FillOne);
    var s3 := Next(native, s2, Top);
    assert top[1..] == [] && fill[1..] == top && [begin, FillOne, Top][1..] == fill;
    assert Feasible(native, s2, top) && After(native, s2, top) == s3;
    assert Feasible(native, s1, fill) && After(native, s1, fill) == s3;
  }

  /** An unusable parameter leaves a promise that nothing but an abort can settle. */
  lemma OrphansAreForGood(native: Native, s: State, step: Step)
    requires Inv(native, s) && Orphaned(s) && Enabled(s, step)
    ensures Orphaned(Next(native, s, step)) && Next(native, s, step).resolved == s.resolved
  {
  }

  lemma {:induction false} RejectionStays(native: Native, s: State, steps: seq<Step>)
    requires s.abort && Feasible(native, s, steps)
    ensures After(native, s, steps).rejected == s.rejected
    decreases |steps|
  {
    if steps != [] { RejectionStays(native, Next(native, s, steps[0]), steps[1..]); }
  }

  lemma {:induction false} OnlyAnAbortRejects(native: Native, s: State, steps: seq<Step>)
    requires (s.rejected.Some? ==> s.abort) && Feasible(native, s, steps)
    ensures After(native, s, steps).rejected.Some? ==> After(native, s, steps).abort
    decreases |steps|
  {
    if steps != [] { OnlyAnAbortRejects(native, Next(native, s, steps[0]), steps[1..]); }
  }

  /** In every run, what an abort rejects, for good, is the promise outstanding at that time, if there is one. */
  lemma AbortRejectsTheOutstanding(native: Native, fptr: int, before: seq<Step>, after: seq<Step>)
    requires Feasible(native, Initial(fptr), before) && Enabled(After(native, Initial(fptr), before), Abort)
    requires Feasible(native, Next(native, After(native, Initial(fptr), before), Abort), after)
    ensures var s := After(native, Initial(fptr), before);
      s.rejected.None? && After(native, Next(native, s, Abort), after).rejected == s.promise
  {
    var s := After(native, Initial(fptr), before);
    OnlyAnAbortRejects(native, Initial(fptr), before);
    RejectionStays(native, Next(native, s, Abort), after);
  }

  predicate Resolved(s: State, promise: nat) { exists i :: 0 <= i < |s.resolved| && s.resolved[i].0 == promise }

  ghost predicate CanResolve(native: Native, s: State, promise: nat) {
    exists steps :: Feasible(native, s, steps) && Resolved(After(native, s, steps), promise)
  }

  lemma {:induction false} OrphanNeverResolves(native: Native, s: State, steps: seq<Step>)
    requires Inv(native, s) && Orphaned(s) && Feasible(native, s, steps)
    ensures !Resolved(After(native, s, steps), |s.calls|)
    decreases |steps|
  {
    if steps != [] {
      StepKeepsInv(native, s, steps[0]);
      OrphansAreForGood(native, s, steps[0]);
      OrphanNeverResolves(native, Next(native, s, steps[0]), steps[1..]);
    }
  }

  lemma {:induction false} InFlightResolves(native: Native, s: State) returns (steps: seq<Step>)
    requires Inv(native, s) && s.script.Idle? && InFlight(s) && !s.worker.Exited?
    ensures Feasible(native, s, steps) && Resolved(After(native, s, steps), |s.calls| - 1)
    decreases WorkerRank(s), s.queue
  {
    var step := if s.queue > 0 then Dispatch else if s.worker.Invoke? then CallNative else Announce;
    var t := Next(native, s, step);
    StepKeepsInv(native, s, step);
    steps := [step];
    if s.queue > 0 {
      assert t.resolved[|s.resolved|].0 == |s.calls| - 1;
      assert steps[1..] == [] && After(native, s, steps) == t;
    } else {
      var rest := InFlightResolves(native, t);
      steps := [step] + rest;
      assert steps[1..] == rest && After(native, s, steps) == After(native, t, rest);
    }
  }

  /**
   A rejected promise can be resolved as well, by the result that is on its way, exactly when its call was handed to
   the worker: the abort keeps the promise. That of a call that failed for an unusable parameter never is.
   */
  lemma RejectedCanResolveIff(native: Native, fptr: int, before: seq<Step>)
    requires Feasible(native, Initial(fptr), before) && Enabled(After(native, Initial(fptr), before), Abort)
    requires After(native, Initial(fptr), before).promise.Some?
    ensures var s := After(native, Initial(fptr), before);
      CanResolve(native, Next(native, s, Abort), s.promise.value) <==> |s.calls| == |s.resolved| + 1
  {
    InitialInv(native, fptr);
    RunKeepsInv(native, Initial(fptr), before);
    var s := After(native, Initial(fptr), before);
    var t := Next(native, s, Abort);
    StepKeepsInv(native, s, Abort);
    if InFlight(s) {
      var steps := InFlightResolves(native, t);
    } else {
      forall steps | Feasible(native, t, steps) ensures !Resolved(After(native, t, steps), s.promise.value) {
        OrphanNeverResolves(native, t, steps);
      }
    }
  }

  ghost predicate CanBeLate(native: Native, s: State) {
    exists steps :: Feasible(native, s, steps) && After(native, s, steps).lateUse
  }

  predicate Punctual(s: State) {
    && !s.lateUse && s.abort
    && (s.script.Aborting? ==> s.worker.WaitWork? && s.workAvailable == 0)
  }

  lemma {:induction false} StaysPunctual(native: Native, s: State, steps: seq<Step>)
    requires Punctual(s) && Feasible(native, s, steps)
    ensures !After(native, s, steps).lateUse
    decreases |steps|
  {
    if steps != [] { StaysPunctual(native, Next(native, s, steps[0]), steps[1..]); }
  }

  /**
   In every run, an abort without a promise outstanding can post on the semaphore after the worker has freed it
   exactly when the worker has not yet got back to waiting on it.
   */
  lemma AbortCanBeLateIff(native: Native, fptr: int, before: seq<Step>)
    requires Feasible(native, Initial(fptr), before) && Enabled(After(native, Initial(fptr), before), Abort)
    requires After(native, Initial(fptr), before).promise.None?
    ensures var s := After(native, Initial(fptr), before);
      CanBeLate(native, Next(native, s, Abort)) <==> !s.worker.WaitWork?
  {
    RunKeepsInv(native, Initial(fptr), before);
    var s := After(native, Initial(fptr), before);
    var t := Next(native, s, Abort);
    if s.worker.WaitWork? {
      forall steps | Feasible(native, t, steps) ensures !After(native, t, steps).lateUse {
        StaysPunctual(native, t, steps);
      }
    } else {
      assert s.worker.LoopTop? && t.script.Aborting? && t.abort;
      var u := Next(native, t, Top);
      assert u.worker.Exited? && u.script.Aborting?;
      var v := Next(native, u, PostAbort);
      var last := [PostAbort];
      var steps := [Top] + last;
      assert last[1..] == [] && steps[1..] == last;
      assert Feasible(native, u, last) && After(native, u, last) == v;
      assert Feasible(native, t, steps) && After(native, t, steps) == v;
    }
  }
}
