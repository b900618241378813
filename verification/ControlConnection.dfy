/**
 The life of the connection to the server: the mutually recursive connect functions, the retry delay, the
 connection state and the 20 second watchdog of an outstanding request.
 */
module ControlConnection {
  import opened Common
  import opened ServerRotation

  const IDLE: nat := 0
  const CONNECTING: nat := 1
  const CONNECTED: nat := 2

  const RETRY_CAP: int := 240000
  const IP_CHANGE_DELAY: int := 3000

  /** Everything the agent does not decide: its settings and network at each attempt, and the random numbers. */
  datatype World = World(servers: seq<Entry>, env: nat -> Env, random: nat -> nat)

  datatype State = State(
    connection: nat,          // serverConnectionState
    rotor: Rotor,
    retryTime: int,
    retryTimer: Option<int>,  // the pending retry, keyed by the agent: a new one replaces it
    request: Option<nat>,     // controlChannelRequest: the watchdog record of the outstanding request
    watchdogs: set<nat>,      // records whose 20 s timer is pending
    freed: seq<nat>,          // records released, in order
    created: nat,             // records allocated so far; a record is named by its number
    outstanding: set<nat>,    // requests that have not been completed
    tick: nat,                // how much of the world's choices has been used
    attempts: seq<Env>,       // the surroundings of each attempt that chose a server
    settings: seq<Setting>)   // every value retryTime has been given, and why

  /** Off stands for 0. A First delay is not waited for; the others arm the retry timer. */
  datatype Setting = Off | First(delay: int) | Retry(delay: int) | AfterIpChange(delay: int)

  datatype Reply = Established | Data | Complete

  datatype Event =
    | Start
    | Response(request: nat, reply: Reply, header: bool, alive: bool)
    | WatchdogFired(record: nat, alive: bool)
    | RetryFired
    | IpChanged
    | ServerDiscovered
    | InfoSent  // the agent's information went to an accepted server

  const INITIAL: State := State(IDLE, FRESH, 0, None, None, {}, [], 0, {}, 0, [], [Off])

  // ----- Specification -----

  function FirstDelay(random: nat): int { random % 1500 + 500 }

  function NextDelay(retryTime: int, random: nat): int
    requires retryTime > 0
  {
    if retryTime >= RETRY_CAP then RETRY_CAP + random % 120000 else retryTime + random % retryTime
  }

  function Draw(w: World, s: State): nat { w.random(s.tick) % 0x1_0000_0000 }

  function Opened(s: State): State {
    s.(request := Some(s.created), watchdogs := s.watchdogs + {s.created}, outstanding := s.outstanding + {s.created},
       created := s.created + 1, connection := CONNECTING)
  }

  function Began(s: State, delay: int): State { s.(retryTime := delay, settings := s.settings + [First(delay)]) }

  function AfterConnect(w: World, s: State): State
    requires w.servers != [] && s.retryTime >= 0
    decreases if s.retryTime == 0 then 2 else 0
  {
    if s.connection != IDLE then s
    else
      var t := s.(tick := s.tick + 1);
      if s.retryTime == 0 then AfterConnectEx(w, Began(t, FirstDelay(Draw(w, s))))
      else
        var delay := NextDelay(s.retryTime, Draw(w, s));
        t.(retryTimer := Some(delay), retryTime := delay, settings := t.settings + [Retry(delay)])
  }

  function AfterConnectEx(w: World, s: State): State
    requires w.servers != [] && s.retryTime >= 0
    decreases if s.retryTime == 0 then 3 else 1
  {
    var e := w.env(s.tick);
    if s.connection != IDLE then s
    else if !e.alive || !e.configured then s.(tick := s.tick + 1)
    else
      var (rotor, via) := Route(w.servers, s.rotor, e);
      Follow(w, s.(tick := s.tick + 1, rotor := rotor, attempts := s.attempts + [e]), via, e)
  }

  /** What an attempt does once its server and route are chosen. */
  function Follow(w: World, s: State, via: Via, e: Env): State
    requires w.servers != [] && s.retryTime >= 0
    decreases if s.retryTime == 0 then 3 else 1, 0
  {
    if via.Skipped? then AfterConnect(w, s)
    else if !e.idsOk then s
    else if via.ThroughProxy? || e.resolved then Opened(s.(rotor := Settle(s.rotor, via, e)))
    else AfterConnect(w, s)
  }

  function CancelTimer(s: State): State {
    if s.request.None? then s
    else if s.request.value in s.watchdogs then
      s.(request := None, watchdogs := s.watchdogs - {s.request.value}, freed := s.freed + [s.request.value])
    else s.(request := None)
  }

  function Replied(t: State, request: nat, reply: Reply): State {
    match reply
    case Established => t.(connection := CONNECTED)
    case Data => t
    case Complete => t.(connection := IDLE, outstanding := t.outstanding - {request})
  }

  function AfterResponse(w: World, s: State, request: nat, reply: Reply, header: bool, alive: bool): State
    requires w.servers != [] && s.retryTime >= 0
  {
    var t := CancelTimer(s);
    var u := Replied(t, request, reply);
    if header || !alive then u else AfterConnect(w, u)
  }

  /** The transport reports only requests it still holds, and data only with a response header. */
  predicate Enabled(s: State, e: Event) {
    match e
    case Response(request, reply, header, _) => request in s.outstanding && (!reply.Complete? ==> header)
    case WatchdogFired(record, _) => record in s.watchdogs
    case RetryFired => s.retryTimer.Some?
    case InfoSent => s.connection == CONNECTED
    case _ => true
  }

  function Step(w: World, s: State, e: Event): State
    requires w.servers != [] && s.retryTime >= 0
  {
    match e
    case Start => AfterConnect(w, s)
    case Response(request, reply, header, alive) => AfterResponse(w, s, request, reply, header, alive)
    case WatchdogFired(record, alive) =>
      var t := s.(watchdogs := s.watchdogs - {record}, freed := s.freed + [record], request := None,
                  connection := IDLE);
      AfterResponse(w, t, record, Complete, false, alive)
    case RetryFired => AfterConnectEx(w, s.(retryTimer := None))
    case IpChanged =>
      if s.connection == IDLE then
        s.(retryTime := IP_CHANGE_DELAY, retryTimer := Some(IP_CHANGE_DELAY),
           settings := s.settings + [AfterIpChange(IP_CHANGE_DELAY)])
      else s
    case ServerDiscovered => if s.connection == IDLE then AfterConnectEx(w, s) else s
    case InfoSent => s.(retryTime := 0, settings := s.settings + [Off])
  }

  // ----- The watchdog and the outstanding request -----

  /** Every record ever made is pending or was freed, never both, and never freed twice. */
  ghost predicate RecordsConserved(freed: seq<nat>, watchdogs: set<nat>, created: nat) {
    && (forall i :: 0 <= i < |freed| ==> freed[i] < created && freed[i] !in watchdogs)
    && (forall i, j :: 0 <= i < j < |freed| ==> freed[i] != freed[j])
    && (forall r: nat :: r in watchdogs ==> r < created)
    && (forall r: nat :: r < created ==> r in watchdogs || r in freed)
  }

  ghost predicate Single(x: set<nat>) { exists r: nat :: x == {r} }

  ghost predicate RequestsAgree(connection: nat, request: Option<nat>, watchdogs: set<nat>, outstanding: set<nat>,
                                created: nat)
  {
    && watchdogs == (if request.Some? then {request.value} else {})
    && (request.Some? ==> connection == CONNECTING && outstanding == {request.value})
    && (if connection == IDLE then outstanding == {} else Single(outstanding))
    && (forall r: nat :: r in outstanding ==> r < created)
    && connection in {IDLE, CONNECTING, CONNECTED}
  }

  ghost predicate Inv(s: State) {
    && RecordsConserved(s.freed, s.watchdogs, s.created)
    && RequestsAgree(s.connection, s.request, s.watchdogs, s.outstanding, s.created)
  }

  /** The retry delay is off, or within its bounds: in particular it never overflows a 32-bit int. */
  predicate DelayInRange(s: State) {
    && (s.retryTime == 0 || 500 <= s.retryTime < 2 * RETRY_CAP)
    && (s.retryTimer.Some? ==> 500 <= s.retryTimer.value < 2 * RETRY_CAP)
  }

  lemma OpenKeepsInv(s: State)
    requires Inv(s) && s.connection == IDLE
    ensures Inv(Opened(s))
  {
    var t := Opened(s);
    assert t.outstanding == {s.created};
    assert t.watchdogs == {s.created};
  }

  lemma {:induction false} ConnectKeepsInv(w: World, s: State)
    requires w.servers != [] && Inv(s) && DelayInRange(s)
    ensures Inv(AfterConnect(w, s)) && DelayInRange(AfterConnect(w, s))
    decreases if s.retryTime == 0 then 2 else 0
  {
    if s.connection == IDLE && s.retryTime == 0 {
      ConnectExKeepsInv(w, Began(s.(tick := s.tick + 1), FirstDelay(Draw(w, s))));
    }
  }

  lemma {:induction false} ConnectExKeepsInv(w: World, s: State)
    requires w.servers != [] && Inv(s) && DelayInRange(s)
    ensures Inv(AfterConnectEx(w, s)) && DelayInRange(AfterConnectEx(w, s))
    decreases if s.retryTime == 0 then 3 else 1
  {
    var e := w.env(s.tick);
    if s.connection == IDLE && e.alive && e.configured {
      var (rotor, via) := Route(w.servers, s.rotor, e);
      var t := s.(tick := s.tick + 1, rotor := rotor, attempts := s.attempts + [e]);
      OpenKeepsInv(t.(rotor := Settle(rotor, via, e)));
      ConnectKeepsInv(w, t);
    }
  }

  lemma FreeKeepsRecords(s: State, record: nat)
    requires RecordsConserved(s.freed, s.watchdogs, s.created) && record in s.watchdogs
    ensures RecordsConserved(s.freed + [record], s.watchdogs - {record}, s.created)
  {
    var t := s.(watchdogs := s.watchdogs - {record}, freed := s.freed + [record]);
    assert record in t.freed by { assert t.freed[|s.freed|] == record; }
    forall r: nat | r < s.created ensures r in t.watchdogs || r in t.freed {
      if r in s.freed { assert r in s.freed + [record]; }
    }
  }

  lemma CancelKeepsInv(s: State)
    requires Inv(s)
    ensures var t := CancelTimer(s);
      && RecordsConserved(t.freed, t.watchdogs, t.created) && t.request.None? && t.watchdogs == {}
      && t == s.(request := None, watchdogs := t.watchdogs, freed := t.freed)
  {
    if s.request.Some? { FreeKeepsRecords(s, s.request.value); }
  }

  lemma ReplyKeepsInv(s: State, request: nat, reply: Reply)
    requires Inv(s) && DelayInRange(s) && request in s.outstanding
    ensures Inv(Replied(CancelTimer(s), request, reply)) && DelayInRange(Replied(CancelTimer(s), request, reply))
  {
    CancelKeepsInv(s);
    var r: nat :| s.outstanding == {r};
    assert s.outstanding - {request} == {};
  }

  lemma ResponseKeepsInv(w: World, s: State, e: Event)
    requires w.servers != [] && Inv(s) && DelayInRange(s) && Enabled(s, e) && e.Response?
    ensures Inv(Step(w, s, e)) && DelayInRange(Step(w, s, e))
  {
    ReplyKeepsInv(s, e.request, e.reply);
    var u := Replied(CancelTimer(s), e.request, e.reply);
    ConnectKeepsInv(w, u);
  }

  lemma WatchdogKeepsInv(w: World, s: State, e: Event)
    requires w.servers != [] && Inv(s) && DelayInRange(s) && Enabled(s, e) && e.WatchdogFired?
    ensures Inv(Step(w, s, e)) && DelayInRange(Step(w, s, e))
  {
    FreeKeepsRecords(s, e.record);
    var t := s.(watchdogs := s.watchdogs - {e.record}, freed := s.freed + [e.record], request := None,
                connection := IDLE);
    var u := t.(outstanding := t.outstanding - {e.record});
    assert u.outstanding == {} && u.watchdogs == {};
    ConnectKeepsInv(w, u);
  }

  lemma StepKeepsInv(w: World, s: State, e: Event)
    requires w.servers != [] && Inv(s) && DelayInRange(s) && Enabled(s, e)
    ensures Inv(Step(w, s, e)) && DelayInRange(Step(w, s, e))
  {
    match e {
      case Start => ConnectKeepsInv(w, s);
      case Response(_, _, _, _) => ResponseKeepsInv(w, s, e);
      case WatchdogFired(_, _) => WatchdogKeepsInv(w, s, e);
      case RetryFired => ConnectExKeepsInv(w, s.(retryTimer := None));
      case IpChanged =>
      case ServerDiscovered => ConnectExKeepsInv(w, s);
      case InfoSent =>
    }
  }

  // ----- Runs -----

  predicate DelayKnown(s: State) { s.retryTime >= 0 }

  /** `events` can happen one after another from `s`, and lead to `t`. */
  ghost predicate Leads(w: World, s: State, events: seq<Event>, t: State)
    requires w.servers != []
    decreases |events|
  {
    if events == [] then s == t
    else DelayKnown(s) && Enabled(s, events[0]) && Leads(w, Step(w, s, events[0]), events[1..], t)
  }

  /**
   In every run: one request at most is outstanding; a request is remembered exactly while its watchdog is
   pending, and then the agent is connecting; every watchdog record is freed at most once, and all but a
   pending one have been freed; the delay is in range.
   */
  lemma {:induction false} RunKeepsInv(w: World, s: State, events: seq<Event>, t: State)
    requires w.servers != [] && Inv(s) && DelayInRange(s) && Leads(w, s, events, t)
    ensures Inv(t) && DelayInRange(t)
    ensures |t.outstanding| <= 1
    ensures |t.freed| + |t.watchdogs| == t.created
    decreases |events|
  {
    if events == [] {
      RecordsAreCounted(t.freed, t.watchdogs, t.created);
      if t.connection != IDLE {
        var r: nat :| t.outstanding == {r};
      }
    } else {
      StepKeepsInv(w, s, events[0]);
      RunKeepsInv(w, Step(w, s, events[0]), events[1..], t);
    }
  }

  lemma {:induction false} RecordsAreCounted(freed: seq<nat>, pending: set<nat>, created: nat)
    requires RecordsConserved(freed, pending, created)
    ensures |freed| + |pending| == created
    decreases |freed|
  {
    if freed == [] {
      UpToHas(created);
      assert pending == UpTo(created);
    } else {
      var n := |freed| - 1;
      var rest, more := freed[..n], pending + {freed[n]};
      forall r: nat | r < created ensures r in more || r in rest {
        if r in freed && r != freed[n] {
          var i :| 0 <= i < |freed| && freed[i] == r;
          assert rest[i] == r;
        }
      }
      RecordsAreCounted(rest, more, created);
    }
  }

  function UpTo(n: nat): set<nat> {
    if n == 0 then {} else UpTo(n - 1) + {n - 1}
  }

  lemma {:induction false} UpToHas(n: nat)
    ensures |UpTo(n)| == n && forall r: nat :: r in UpTo(n) <==> r < n
  {
    if n > 0 { UpToHas(n - 1); }
  }

  // ----- The retry delay grows by less than a factor of two up to the cap -----

  function Value(x: Setting): int { if x.Off? then 0 else x.delay }

  /** A retry is delayed by as much as was set before, and less than twice that; at the cap, by 4 to 6 minutes. */
  predicate Grows(before: int, delay: int) {
    if before < RETRY_CAP then before <= delay < 2 * before else RETRY_CAP <= delay < RETRY_CAP + 120000
  }

  /** What can be set after what. */
  predicate Follows(x: Setting, y: Setting) {
    match y
    case Off => true
    case First(delay) => x.Off? && 500 <= delay < 2000
    case Retry(delay) => !x.Off? && Grows(Value(x), delay)
    case AfterIpChange(delay) => delay == IP_CHANGE_DELAY
  }

  predicate Chain(settings: seq<Setting>) {
    forall i :: 0 < i < |settings| ==> Follows(settings[i - 1], settings[i])
  }

  /** The delay is the one last set, and a pending timer was armed by a setting. */
  predicate Logged(s: State) {
    && s.settings != [] && Chain(s.settings) && Value(s.settings[|s.settings| - 1]) == s.retryTime
    && s.retryTime >= 0 && (s.retryTime == 0 <==> s.settings[|s.settings| - 1].Off?)
  }

  lemma SetOne(s: State, t: State, x: Setting)
    requires Logged(s) && t.settings == s.settings + [x] && t.retryTime == Value(x) >= 0 && (x.Off? <==> Value(x) == 0)
    requires Follows(s.settings[|s.settings| - 1], x)
    ensures Logged(t)
  {
  }

  lemma NextDelayGrows(retryTime: int, random: nat)
    requires retryTime > 0
    ensures Grows(retryTime, NextDelay(retryTime, random))
  {
  }

  /** Between two states of a run: the settings made, each of which but Off and First arms the timer. */
  predicate Made(s: State, t: State) {
    && s.settings <= t.settings
    && (t.settings == s.settings ==> t.retryTimer == s.retryTimer && t.retryTime == s.retryTime)
    && (t.settings != s.settings ==>
          var x := t.settings[|t.settings| - 1];
          if x.Off? || x.First? then t.retryTimer == s.retryTimer else t.retryTimer == Some(x.delay))
  }

  lemma {:induction false} ConnectLogs(w: World, s: State)
    requires w.servers != [] && Logged(s)
    ensures Logged(AfterConnect(w, s)) && Made(s, AfterConnect(w, s))
    decreases if s.retryTime == 0 then 2 else 0
  {
    if s.connection == IDLE {
      if s.retryTime == 0 {
        var t := Began(s.(tick := s.tick + 1), FirstDelay(Draw(w, s)));
        SetOne(s, t, First(FirstDelay(Draw(w, s))));
        ConnectExLogs(w, t);
      } else {
        var delay := NextDelay(s.retryTime, Draw(w, s));
        NextDelayGrows(s.retryTime, Draw(w, s));
        SetOne(s, AfterConnect(w, s), Retry(delay));
      }
    }
  }

  lemma {:induction false} ConnectExLogs(w: World, s: State)
    requires w.servers != [] && Logged(s)
    ensures Logged(AfterConnectEx(w, s)) && Made(s, AfterConnectEx(w, s))
    decreases if s.retryTime == 0 then 3 else 1
  {
    var e := w.env(s.tick);
    if s.connection == IDLE && e.alive && e.configured {
      var (rotor, via) := Route(w.servers, s.rotor, e);
      var t := s.(tick := s.tick + 1, rotor := rotor, attempts := s.attempts + [e]);
      if via.Skipped? || (e.idsOk && !via.ThroughProxy? && !e.resolved) { ConnectLogs(w, t); }
    }
  }

  lemma ResponseLogs(w: World, s: State, request: nat, reply: Reply, header: bool, alive: bool)
    requires w.servers != [] && Logged(s)
    ensures Logged(AfterResponse(w, s, request, reply, header, alive))
    ensures Made(s, AfterResponse(w, s, request, reply, header, alive))
  {
    ConnectLogs(w, Replied(CancelTimer(s), request, reply));
  }

  /** Every event sets the delay as it may, and arms the timer exactly when it sets a delay to wait for. */
  lemma StepLogs(w: World, s: State, e: Event)
    requires w.servers != [] && Logged(s)
    ensures Logged(Step(w, s, e))
    ensures Made(if e.RetryFired? then s.(retryTimer := None) else s, Step(w, s, e))
  {
    match e {
      case Start => ConnectLogs(w, s);
      case Response(request, reply, header, alive) => ResponseLogs(w, s, request, reply, header, alive);
      case WatchdogFired(record, alive) =>
        var t := s.(watchdogs := s.watchdogs - {record}, freed := s.freed + [record], request := None,
                    connection := IDLE);
        ResponseLogs(w, t, record, Complete, false, alive);
      case RetryFired => ConnectExLogs(w, s.(retryTimer := None));
      case IpChanged => if s.connection == IDLE { SetOne(s, Step(w, s, e), AfterIpChange(IP_CHANGE_DELAY)); }
      case ServerDiscovered => ConnectExLogs(w, s);
      case InfoSent => SetOne(s, Step(w, s, e), Off);
    }
  }

  /**
   In every run from the start, the delays set follow one another as they may: between two resets, every retry
   waits as long as the delay before it and less than twice that, up to 4 minutes, and then 4 to 6 minutes.
   */
  lemma {:induction false} RunDelays(w: World, s: State, events: seq<Event>, t: State)
    requires w.servers != [] && Logged(s) && Leads(w, s, events, t)
    ensures Logged(t) && s.settings <= t.settings
    decreases |events|
  {
    if events != [] {
      StepLogs(w, s, events[0]);
      RunDelays(w, Step(w, s, events[0]), events[1..], t);
    }
  }

  /** So in every run, a delay after a reset never goes down again until the next one, except from above the cap. */
  lemma {:induction false} DelaysGrowToTheCap(w: World, events: seq<Event>, t: State, i: nat, j: nat)
    requires w.servers != [] && Leads(w, INITIAL, events, t)
    requires i <= j < |t.settings| && !t.settings[i].Off?
    requires forall k :: i < k <= j ==> t.settings[k].Retry?
    ensures Value(t.settings[j]) >= if Value(t.settings[i]) < RETRY_CAP then Value(t.settings[i]) else RETRY_CAP
    ensures i < j ==> Grows(Value(t.settings[j - 1]), Value(t.settings[j])) && Value(t.settings[j]) < 2 * RETRY_CAP
    decreases j
  {
    assert Logged(INITIAL);
    RunDelays(w, INITIAL, events, t);
    if i < j {
      assert Follows(t.settings[j - 1], t.settings[j]);
      DelaysGrowToTheCap(w, events, t, i, j - 1);
    }
  }

  // ----- The rotation of a run is the rotation of its attempts -----

  predicate Rotates(w: World, s: State)
    requires w.servers != []
  {
    s.rotor == After(w.servers, FRESH, s.attempts)
  }

  lemma {:induction false} AfterAppends(servers: seq<Entry>, r: Rotor, es: seq<Env>, e: Env)
    requires servers != []
    ensures After(servers, r, es + [e]) == Attempt(servers, After(servers, r, es), e)
    decreases |es|
  {
    if es == [] {
      assert [] + [e] == [e];
      assert After(servers, r, [e]) == After(servers, Attempt(servers, r, e), []);
    } else {
      assert (es + [e])[1..] == es[1..] + [e];
      AfterAppends(servers, Attempt(servers, r, es[0]), es[1..], e);
    }
  }

  lemma {:induction false} ConnectRotates(w: World, s: State)
    requires w.servers != [] && s.retryTime >= 0 && Rotates(w, s)
    ensures Rotates(w, AfterConnect(w, s)) && AfterConnect(w, s).retryTime >= 0
    decreases if s.retryTime == 0 then 2 else 0
  {
    if s.connection == IDLE && s.retryTime == 0 {
      ConnectExRotates(w, Began(s.(tick := s.tick + 1), FirstDelay(Draw(w, s))));
    }
  }

  lemma {:induction false} ConnectExRotates(w: World, s: State)
    requires w.servers != [] && s.retryTime >= 0 && Rotates(w, s)
    ensures Rotates(w, AfterConnectEx(w, s)) && AfterConnectEx(w, s).retryTime >= 0
    decreases if s.retryTime == 0 then 3 else 1
  {
    var e := w.env(s.tick);
    if s.connection == IDLE && e.alive && e.configured {
      AfterAppends(w.servers, FRESH, s.attempts, e);
      var (rotor, via) := Route(w.servers, s.rotor, e);
      var t := s.(tick := s.tick + 1, rotor := rotor, attempts := s.attempts + [e]);
      if via.Skipped? || (e.idsOk && !via.ThroughProxy?) { ConnectRotates(w, t); }
    }
  }

  /** So what is proved of sequences of attempts holds of the attempts of every run. */
  lemma {:induction false} RunRotates(w: World, s: State, events: seq<Event>, t: State)
    requires w.servers != [] && s.retryTime >= 0 && Rotates(w, s) && Leads(w, s, events, t)
    ensures Rotates(w, t)
    decreases |events|
  {
    if events != [] {
      match events[0] {
      case Start => ConnectRotates(w, s);
      case Response(request, reply, header, alive) =>
        var u := CancelTimer(s);
        ConnectRotates(w, u.(connection := IDLE, outstanding := u.outstanding - {request}));
        ConnectRotates(w, u.(connection := CONNECTED));
        ConnectRotates(w, u);
      case WatchdogFired(record, alive) =>
        var u := s.(watchdogs := s.watchdogs - {record}, freed := s.freed + [record], request := None,
                    connection := IDLE);
        ConnectRotates(w, u.(outstanding := u.outstanding - {record}));
      case RetryFired => ConnectExRotates(w, s.(retryTimer := None));
      case IpChanged =>
      case ServerDiscovered => ConnectExRotates(w, s);
      case InfoSent =>
      }
      RunRotates(w, Step(w, s, events[0]), events[1..], t);
    }
  }

  // ----- The agent always has a next step -----

  /** Connected, connecting, or with a retry to come. */
  predicate Awake(s: State) { s.connection != IDLE || s.retryTimer.Some? }

  /** The settings are complete and the agent is not being shut down. */
  ghost predicate Settled(w: World) {
    forall i: nat :: w.env(i).alive && w.env(i).configured && w.env(i).idsOk
  }

  lemma {:induction false} ConnectWakes(w: World, s: State)
    requires w.servers != [] && s.retryTime >= 0 && Settled(w)
    ensures Awake(AfterConnect(w, s))
    decreases if s.retryTime == 0 then 2 else 0
  {
    if s.connection == IDLE && s.retryTime == 0 {
      ConnectExWakes(w, Began(s.(tick := s.tick + 1), FirstDelay(Draw(w, s))));
    }
  }

  lemma {:induction false} ConnectExWakes(w: World, s: State)
    requires w.servers != [] && s.retryTime >= 0 && Settled(w)
    ensures Awake(AfterConnectEx(w, s))
    decreases if s.retryTime == 0 then 3 else 1
  {
    var e := w.env(s.tick);
    assert e.alive && e.configured && e.idsOk;
    if s.connection == IDLE {
      var (rotor, via) := Route(w.servers, s.rotor, e);
      ConnectWakes(w, s.(tick := s.tick + 1, rotor := rotor, attempts := s.attempts + [e]));
    }
  }

  /**
   With complete settings, an event leaves the agent with a next step exactly when it is not a final reply
   that ends the last request with a header, or during shutdown, while no retry is pending.
   */
  lemma AwakeUnlessEndedByReply(w: World, s: State, e: Event)
    requires w.servers != [] && s.retryTime >= 0 && Settled(w) && Inv(s) && Enabled(s, e)
    requires Awake(s) || e.Start?
    ensures Awake(Step(w, s, e)) <==>
      match e
      case Response(_, reply, header, alive) => reply.Complete? && (header || !alive) ==> s.retryTimer.Some?
      case WatchdogFired(_, alive) => !alive ==> s.retryTimer.Some?
      case _ => true
  {
    match e
    case Start => ConnectWakes(w, s);
    case Response(request, reply, header, alive) =>
      var u := CancelTimer(s);
      ConnectWakes(w, u.(connection := IDLE, outstanding := u.outstanding - {request}));
    case WatchdogFired(record, alive) =>
      var u := s.(watchdogs := s.watchdogs - {record}, freed := s.freed + [record], request := None,
                  connection := IDLE);
      ConnectWakes(w, u.(outstanding := u.outstanding - {record}));
    case RetryFired => ConnectExWakes(w, s.(retryTimer := None));
    case IpChanged =>
    case ServerDiscovered => ConnectExWakes(w, s);
    case InfoSent =>
  }

  // ----- When a request goes out -----

  /** In the surroundings of this moment the next server can be contacted by the route that is its turn. */
  predicate Contactable(w: World, s: State, tick: nat)
    requires w.servers != []
  {
    var e := w.env(tick);
    var via := Try(w.servers, s.rotor, e).1;
    e.alive && e.configured && e.idsOk && !via.Skipped? && (via.ThroughProxy? || e.resolved)
  }

  /** The settings allow an attempt, but its server is undiscovered or its address unknown. */
  predicate Unreachable(w: World, s: State, tick: nat)
    requires w.servers != []
  {
    var e := w.env(tick);
    var via := Try(w.servers, s.rotor, e).1;
    e.alive && e.configured && (via.Skipped? || (e.idsOk && via.Direct? && !e.resolved))
  }

  /** From `s` to `t` one request went out: it is remembered, its watchdog is pending, and the agent is connecting. */
  predicate RequestSent(s: State, t: State) {
    && t.request == Some(s.created) && t.created == s.created + 1 && t.connection == CONNECTING
    && t.outstanding == s.outstanding + {s.created} && t.watchdogs == s.watchdogs + {s.created}
  }

  predicate NothingSent(s: State, t: State) {
    && t.request == s.request && t.created == s.created && t.connection == s.connection
    && t.outstanding == s.outstanding && t.watchdogs == s.watchdogs
  }

  /** A retry is to come, with the next delay. */
  predicate Postponed(s: State, t: State) { t.retryTimer == Some(t.retryTime) && Grows(s.retryTime, t.retryTime) }

  lemma ConnectPostpones(w: World, s: State)
    requires w.servers != [] && s.connection == IDLE && s.retryTime > 0
    ensures NothingSent(s, AfterConnect(w, s)) && Postponed(s, AfterConnect(w, s))
  {
    NextDelayGrows(s.retryTime, Draw(w, s));
  }

  lemma FollowSendsIff(w: World, s: State, via: Via, e: Env)
    requires w.servers != [] && s.connection == IDLE && s.retryTime > 0 && s.request.None?
    ensures var t := Follow(w, s, via, e);
      var contact := !via.Skipped? && e.idsOk && (via.ThroughProxy? || e.resolved);
      var postpone := via.Skipped? || (e.idsOk && via.Direct? && !e.resolved);
      && (if contact then RequestSent(s, t) else NothingSent(s, t))
      && (if postpone then Postponed(s, t) else t.retryTimer == s.retryTimer && t.retryTime == s.retryTime)
  {
    ConnectPostpones(w, s);
  }

  lemma AttemptSendsIff(w: World, s: State)
    requires w.servers != [] && s.connection == IDLE && s.retryTime > 0 && s.request.None?
    ensures var t := AfterConnectEx(w, s);
      && (if Contactable(w, s, s.tick) then RequestSent(s, t) else NothingSent(s, t))
      && (if Unreachable(w, s, s.tick) then Postponed(s, t)
          else t.retryTimer == s.retryTimer && t.retryTime == s.retryTime)
  {
    var e := w.env(s.tick);
    if e.alive && e.configured {
      var (rotor, via) := Route(w.servers, s.rotor, e);
      FollowSendsIff(w, s.(tick := s.tick + 1, rotor := rotor, attempts := s.attempts + [e]), via, e);
    }
  }

  /**
   A retry, or the discovery of a server, sends a request exactly when its server can be contacted then. Otherwise
   nothing goes out, and the agent tries again later exactly when the server is what is missing.
   */
  lemma RetrySendsIff(w: World, s: State, e: Event)
    requires w.servers != [] && s.connection == IDLE && s.retryTime > 0 && s.request.None?
    requires e.RetryFired? || e.ServerDiscovered?
    ensures var t := Step(w, s, e);
      && (if Contactable(w, s, s.tick) then RequestSent(s, t) else NothingSent(s, t))
      && (if Unreachable(w, s, s.tick) then Postponed(s, t)
          else t.retryTimer == (if e.RetryFired? then None else s.retryTimer) && t.retryTime == s.retryTime)
  {
    AttemptSendsIff(w, if e.RetryFired? then s.(retryTimer := None) else s);
  }

  /** With no delay set, the agent does not wait: the first attempt comes at once, with a first delay for the next. */
  lemma ConnectSendsIff(w: World, s: State)
    requires w.servers != [] && s.connection == IDLE && s.retryTime == 0 && s.request.None?
    ensures var t := AfterConnect(w, s);
      && (if Contactable(w, s, s.tick + 1) then RequestSent(s, t) else NothingSent(s, t))
      && (!Unreachable(w, s, s.tick + 1) ==> t.retryTimer == s.retryTimer && 500 <= t.retryTime < 2000)
      && (Unreachable(w, s, s.tick + 1) ==> t.retryTimer == Some(t.retryTime) && 500 <= t.retryTime < 4000)
  {
    AttemptSendsIff(w, Began(s.(tick := s.tick + 1), FirstDelay(Draw(w, s))));
  }

  /** So from the start. */
  lemma FirstRequestIff(w: World)
    requires w.servers != []
    ensures var t := Step(w, INITIAL, Start);
      if Contactable(w, INITIAL, 1)
      then t.connection == CONNECTING && t.request == Some(0) && t.outstanding == t.watchdogs == {0} && t.created == 1
      else t.connection == IDLE && t.request.None? && t.outstanding == t.watchdogs == {} && t.created == 0
  {
    ConnectSendsIff(w, INITIAL);
    assert {} + {0} == {0};
  }

  /** A response that does not end the request: the watchdog is gone, and the first one makes the connection. */
  lemma GoingOnOutcome(w: World, s: State, e: Event)
    requires w.servers != [] && s.retryTime >= 0 && Inv(s) && Enabled(s, e) && e.Response? && !e.reply.Complete?
    ensures var t := Step(w, s, e);
      && t.connection == (if e.reply.Established? then CONNECTED else s.connection)
      && t.request.None? && t.watchdogs == {} && t.outstanding == s.outstanding == {e.request}
      && t.freed == s.freed + (if s.request.Some? then [e.request] else [])
      && t.created == s.created && t.retryTimer == s.retryTimer && t.retryTime == s.retryTime
  {
    CancelKeepsInv(s);
    var r: nat :| s.outstanding == {r};
    assert r == e.request && s.outstanding == {e.request};
    assert s.freed + [] == s.freed;
    assert Step(w, s, e) == Replied(CancelTimer(s), e.request, e.reply);
  }

  /** The request is over, by its last response or by its watchdog. */
  predicate Ends(e: Event) { (e.Response? && e.reply.Complete?) || e.WatchdogFired? }

  /** The agent connects again unless a header came, or it is shutting down. */
  predicate Reconnects(e: Event)
    requires Ends(e)
  {
    e.alive && (e.Response? ==> !e.header)
  }

  /** What is left of a request when it has ended: nothing, and its watchdog's record has been freed. */
  function Over(s: State): State {
    s.(connection := IDLE, request := None, watchdogs := {}, outstanding := {},
       freed := s.freed + if s.request.Some? then [s.request.value] else [])
  }

  lemma EndLeavesNothing(w: World, s: State, e: Event)
    requires w.servers != [] && s.retryTime >= 0 && Inv(s) && Enabled(s, e) && Ends(e)
    ensures Step(w, s, e) == if Reconnects(e) then AfterConnect(w, Over(s)) else Over(s)
  {
    assert s.freed + [] == s.freed;
    if s.connection != IDLE {
      var r: nat :| s.outstanding == {r};
      assert {r} - {r} == {};
    }
  }

  /**
   When the request is over, the agent is idle with nothing outstanding, and connects again as it may: at once
   when there is no delay, which is after the server was reached, and else with the next delay.
   */
  lemma EndOutcome(w: World, s: State, e: Event)
    requires w.servers != [] && s.retryTime >= 0 && Inv(s) && Enabled(s, e) && Ends(e)
    ensures var t := Step(w, s, e);
      && (if Reconnects(e) && s.retryTime == 0 && Contactable(w, s, s.tick + 1)
          then t.connection == CONNECTING && t.request == Some(s.created) && t.created == s.created + 1
               && t.outstanding == t.watchdogs == {s.created}
          else t.connection == IDLE && t.request.None? && t.created == s.created
               && t.outstanding == t.watchdogs == {})
      && (Reconnects(e) && s.retryTime > 0 ==> Postponed(s, t))
      && (!Reconnects(e) ==> t.retryTimer == s.retryTimer && t.retryTime == s.retryTime)
  {
    EndLeavesNothing(w, s, e);
    var u := Over(s);
    if Reconnects(e) {
      if s.retryTime == 0 {
        ConnectSendsIff(w, u);
        assert {} + {s.created} == {s.created};
      } else {
        ConnectPostpones(w, u);
      }
    }
  }

  /** The other events: what they set, and that nothing goes out. */
  lemma QuietOutcome(w: World, s: State, e: Event)
    requires w.servers != [] && s.retryTime >= 0
    requires e.InfoSent? || e.IpChanged? || (s.connection != IDLE && (e.Start? || e.RetryFired? || e.ServerDiscovered?))
    ensures var t := Step(w, s, e);
      && NothingSent(s, t) && t.freed == s.freed && t.attempts == s.attempts
      && t.retryTime == (if e.InfoSent? then 0 else if e.IpChanged? && s.connection == IDLE then 3000 else s.retryTime)
      && t.retryTimer == (if e.IpChanged? && s.connection == IDLE then Some(3000)
                          else if e.RetryFired? then None else s.retryTimer)
  {
  }

  /** Every delay that may follow another does so for some random number of 32 bits, and no other. */
  lemma DelaysAreAllPossible(retryTime: int, delay: int)
    requires 0 < retryTime < 2 * RETRY_CAP
    ensures Grows(retryTime, delay) <==> exists r: nat :: r < 0x1_0000_0000 && NextDelay(retryTime, r) == delay
  {
    forall r: nat ensures Grows(retryTime, NextDelay(retryTime, r)) { NextDelayGrows(retryTime, r); }
    if Grows(retryTime, delay) {
      var r := delay - if retryTime < RETRY_CAP then retryTime else RETRY_CAP;
      SmallRemainder(r, if retryTime < RETRY_CAP then retryTime else 120000);
      assert r < 0x1_0000_0000 && NextDelay(retryTime, r) == delay;
    }
  }

  lemma FirstDelaysAreAllPossible(delay: int)
    ensures 500 <= delay < 2000 <==> exists r: nat :: r < 0x1_0000_0000 && FirstDelay(r) == delay
  {
    if 500 <= delay < 2000 { assert FirstDelay(delay - 500) == delay; }
  }

  lemma SmallRemainder(r: int, n: int)
    requires 0 <= r < n
    ensures r % n == r
  {
  }

  // ----- The agent's fields -----

  class Agent {
    const world: World
    var serverConnectionState: nat
    var serverIndex: int
    var triedNoProxyIndex: int
    var proxyServer: bool  // whether there is one
    var proxyFailed: bool
    var retryTime: int
    var retryTimer: Option<int>
    var controlChannelRequest: Option<nat>
    var watchdogs: set<nat>
    var outstanding: set<nat>
    var created: nat
    var tick: nat
    ghost var freed: seq<nat>
    ghost var attempts: seq<Env>
    ghost var settings: seq<Setting>

    ghost function Abs(): State
      reads this
    {
      State(serverConnectionState, Rotation(), retryTime,
            retryTimer, controlChannelRequest, watchdogs, freed, created, outstanding, tick, attempts, settings)
    }

    constructor (world: World)
      ensures this.world == world && Abs() == INITIAL
    {
      this.world := world;
      serverConnectionState, serverIndex, triedNoProxyIndex := IDLE, 0, 0;
      proxyServer, proxyFailed := false, false;
      retryTime, retryTimer, controlChannelRequest := 0, None, None;
      watchdogs, outstanding, created, tick := {}, {}, 0, 0;
      freed, attempts, settings := [], [], [Off];
    }

    method Connect()
      requires world.servers != [] && retryTime >= 0
      modifies this
      ensures Abs() == AfterConnect(world, old(Abs()))
      decreases if retryTime == 0 then 2 else 0
    {
      if serverConnectionState != IDLE { return; }
      var timeout := world.random(tick) % 0x1_0000_0000;
      tick := tick + 1;
      if retryTime == 0 {
        retryTime := timeout % 1500 + 500;
        settings := settings + [First(retryTime)];
        ConnectEx();
      } else {
        var delay;
        if retryTime >= RETRY_CAP {
          delay := RETRY_CAP + timeout % 120000;
        } else {
          delay := retryTime + timeout % retryTime;
        }
        retryTimer := Some(delay);
        retryTime := delay;
        settings := settings + [Retry(delay)];
      }
    }

    method ConnectEx()
      requires world.servers != [] && retryTime >= 0
      modifies this
      ensures Abs() == AfterConnectEx(world, old(Abs()))
      decreases if retryTime == 0 then 3 else 1
    {
      if serverConnectionState != IDLE { return; }
      var e := world.env(tick);
      tick := tick + 1;
      if !e.alive || !e.configured { return; }
      attempts := attempts + [e];

      var via := PickRoute(e);
      ghost var s := old(Abs());
      assert Abs() == s.(tick := s.tick + 1, rotor := Route(world.servers, s.rotor, e).0, attempts := s.attempts + [e]);
      FollowRoute(via, e);
    }

    method FollowRoute(via: Via, e: Env)
      requires world.servers != [] && retryTime >= 0
      modifies this
      ensures Abs() == Follow(world, old(Abs()), via, e)
      decreases if retryTime == 0 then 3 else 1, 0
    {
      if via.Skipped? {
        Connect();
        return;
      }
      if !e.idsOk { return; }
      if via.ThroughProxy? || e.resolved {
        OpenRequest();
        if via.ThroughProxy? && e.parses {
          proxyFailed := false;
          proxyServer := e.accepted;
          if !proxyServer { proxyFailed := true; }
        }
        serverConnectionState := CONNECTING;
      } else {
        Connect();
      }
    }

    function Rotation(): Rotor
      reads this
    {
      Rotor(serverIndex, triedNoProxyIndex, proxyServer, proxyFailed)
    }

    method PickRoute(e: Env) returns (via: Via)
      requires world.servers != []
      modifies this`serverIndex, this`triedNoProxyIndex, this`proxyServer, this`proxyFailed
      ensures Rotation() == Route(world.servers, old(Rotation()), e).0
      ensures via == Route(world.servers, old(Rotation()), e).1
    {
      var n := |world.servers|;
      if serverIndex == 0 {
        serverIndex := CRemainder(e.draw, n) + 1;
      } else if triedNoProxyIndex == serverIndex {
        serverIndex := CRemainder(serverIndex, n) + 1;
        triedNoProxyIndex := serverIndex - 1;
      }
      if 1 <= serverIndex <= n && world.servers[serverIndex - 1].Local? && !e.multicast { return Skipped; }

      via := Direct;
      if e.proxy {
        if triedNoProxyIndex < serverIndex && (proxyServer || proxyFailed) {
          proxyFailed := false;
          triedNoProxyIndex := triedNoProxyIndex + 1;
          proxyServer := false;
        } else {
          via := ThroughProxy;
        }
      } else {
        triedNoProxyIndex := serverIndex;
      }
    }

    method OpenRequest()
      modifies this`controlChannelRequest, this`outstanding, this`watchdogs, this`created
      ensures controlChannelRequest == Some(old(created)) && created == old(created) + 1
      ensures outstanding == old(outstanding) + {old(created)} && watchdogs == old(watchdogs) + {old(created)}
    {
      controlChannelRequest := Some(created);
      outstanding := outstanding + {created};
      watchdogs := watchdogs + {created};
      created := created + 1;
    }

    method OnResponse(request: nat, reply: Reply, header: bool, alive: bool)
      requires world.servers != [] && retryTime >= 0
      modifies this
      ensures Abs() == AfterResponse(world, old(Abs()), request, reply, header, alive)
    {
      if controlChannelRequest.Some? {
        RemoveTimer(controlChannelRequest.value);
        controlChannelRequest := None;
      }
      assert Abs() == CancelTimer(old(Abs())) by {
        if old(controlChannelRequest).Some? && old(controlChannelRequest).value !in old(watchdogs) {
          assert watchdogs == old(watchdogs);
        }
      }
      match reply {
        case Established => serverConnectionState := CONNECTED;
        case Data =>
        case Complete =>
          serverConnectionState := IDLE;
          outstanding := outstanding - {request};
      }
      if !header {
        if !alive { return; }
        Connect();
      }
    }

    /** Removing a pending watchdog timer releases its record. */
    method RemoveTimer(record: nat)
      modifies this`watchdogs, this`freed
      ensures watchdogs == old(watchdogs) - {record}
      ensures freed == if record in old(watchdogs) then old(freed) + [record] else old(freed)
    {
      if record in watchdogs {
        watchdogs := watchdogs - {record};
        freed := freed + [record];
      }
    }

    method OnWatchdog(record: nat, alive: bool)
      requires world.servers != [] && retryTime >= 0 && record in watchdogs
      modifies this
      ensures Abs() == Step(world, old(Abs()), WatchdogFired(record, alive))
    {
      watchdogs := watchdogs - {record};  // the timer has fired
      freed := freed + [record];
      controlChannelRequest := None;
      serverConnectionState := IDLE;
      OnResponse(record, Complete, false, alive);
    }

    method OnRetry()
      requires world.servers != [] && retryTime >= 0
      modifies this
      ensures Abs() == Step(world, old(Abs()), RetryFired)
    {
      retryTimer := None;
      ConnectEx();
    }

    /** The agent's information has gone to an accepted server: the next retry starts over. */
    method OnInfoSent()
      requires world.servers != [] && retryTime >= 0
      modifies this
      ensures Abs() == Step(world, old(Abs()), InfoSent)
    {
      retryTime := 0;
      settings := settings + [Off];
    }

    method OnServerDiscovered()
      requires world.servers != [] && retryTime >= 0
      modifies this
      ensures Abs() == Step(world, old(Abs()), ServerDiscovered)
    {
      if serverConnectionState == IDLE { ConnectEx(); }
    }

    method OnIpChanged()
      requires world.servers != [] && retryTime >= 0
      modifies this
      ensures Abs() == Step(world, old(Abs()), IpChanged)
    {
      if serverConnectionState == IDLE {
        retryTimer := None;
        retryTime := IP_CHANGE_DELAY;
        retryTimer := Some(retryTime);
        settings := settings + [AfterIpChange(retryTime)];
      }
    }
  }
}
