/**
 Which server the agent contacts next, and whether by proxy: the server index, the alternation between proxy
 and direct connections, and when every configured server keeps getting its turn.
 */
module ServerRotation {
  import opened Common

  /** A configured server: a URL, or the word "local" for a server that multicast discovery must find. */
  datatype Entry = Url | Local

  /** What one attempt finds in its surroundings. */
  datatype Env = Env(
    alive: bool,       // the event loop is not being shut down
    configured: bool,  // there is a server list
    draw: int,         // the random number for the first server
    multicast: bool,   // discovery has found a local server
    proxy: bool,       // a proxy is configured
    idsOk: bool,       // the ServerID and MeshID entries are usable
    parses: bool,      // the proxy URI can be parsed
    accepted: bool,    // the parsed proxy has an address
    resolved: bool)    // the server's own address is known

  datatype Rotor = Rotor(index: int, tried: int, proxyServer: bool, proxyFailed: bool) {
    predicate ProxyUsed() { proxyServer || proxyFailed }
  }

  datatype Via = Skipped | Direct | ThroughProxy

  const FRESH: Rotor := Rotor(0, 0, false, false)

  /** The remainder of C's `%`, which takes the sign of the dividend. */
  function CRemainder(a: int, b: int): int
    requires b > 0
  {
    if a >= 0 then a % b else -((-a) % b)
  }

  function Select(n: int, r: Rotor, draw: int): Rotor
    requires n > 0
  {
    if r.index == 0 then r.(index := CRemainder(draw, n) + 1)
    else if r.tried == r.index then
      var next := CRemainder(r.index, n) + 1;
      r.(index := next, tried := next - 1)
    else r
  }

  function ChooseProxy(r: Rotor, e: Env): (Rotor, Via) {
    if e.proxy then
      if r.tried < r.index && r.ProxyUsed() then (Rotor(r.index, r.tried + 1, false, false), Direct)
      else (r, ThroughProxy)
    else (r.(tried := r.index), Direct)
  }

  function Settle(r: Rotor, via: Via, e: Env): Rotor {
    if via.ThroughProxy? && e.idsOk && e.parses then r.(proxyServer := e.accepted, proxyFailed := !e.accepted)
    else r
  }

  predicate Undiscovered(servers: seq<Entry>, r: Rotor, e: Env) {
    1 <= r.index <= |servers| && servers[r.index - 1].Local? && !e.multicast
  }

  function Route(servers: seq<Entry>, r: Rotor, e: Env): (Rotor, Via)
    requires servers != []
  {
    var s := Select(|servers|, r, e.draw);
    if Undiscovered(servers, s, e) then (s, Skipped) else ChooseProxy(s, e)
  }

  function Try(servers: seq<Entry>, r: Rotor, e: Env): (Rotor, Via)
    requires servers != []
  {
    var (t, via) := Route(servers, r, e);
    (Settle(t, via, e), via)
  }

  function Attempt(servers: seq<Entry>, r: Rotor, e: Env): Rotor
    requires servers != []
  {
    Try(servers, r, e).0
  }

  // ----- The indices stay in range -----

  predicate InRange(n: int, r: Rotor) {
    0 <= r.tried <= r.index <= n
  }

  /** If the first server is still to be drawn, the random number gives one. */
  predicate GoodDraw(n: int, r: Rotor, e: Env)
    requires n > 0
  {
    r.index == 0 ==> e.draw >= 0 || e.draw % n == 0
  }

  lemma AttemptInRange(servers: seq<Entry>, r: Rotor, e: Env)
    requires servers != [] && InRange(|servers|, r) && GoodDraw(|servers|, r, e)
    ensures InRange(|servers|, Attempt(servers, r, e)) && Attempt(servers, r, e).index >= 1
    ensures Attempt(servers, r, e).index == Select(|servers|, r, e.draw).index
  {
    FirstServerExistsIff(|servers|, e.draw);
  }

  /** The random number is signed: the first server exists exactly when it is not negative or divides evenly. */
  lemma FirstServerExistsIff(n: int, draw: int)
    requires n > 0
    ensures 1 <= Select(n, FRESH, draw).index <= n <==> draw >= 0 || draw % n == 0
  {
    if draw < 0 {
      var q := (-draw) / n;
      if draw % n == 0 {
        var p := draw / n;
        assert -draw == (-p) * n;
        MultipleHasNoRemainder(-p, n);
      } else if (-draw) % n == 0 {
        assert draw == (-q) * n;
        MultipleHasNoRemainder(-q, n);
      }
    }
  }

  lemma MultipleHasNoRemainder(q: int, n: int)
    requires n > 0
    ensures (q * n) % n == 0
  {
    var m := q * n;
    var d := m / n;
    assert m == d * n + m % n;
    assert (q - d) * n == m % n;
    MultipleIsFar(q - d, n);
  }

  lemma MultipleIsFar(a: int, n: int)
    requires n > 0
    ensures a >= 1 ==> a * n >= n
    ensures a <= -1 ==> a * n <= -n
  {
  }

  /** The first server is the one that the draw numbers, counted from 0 and over and over; so each is first for some. */
  lemma FirstServerIsDrawn(n: int, q: nat, k: int)
    requires 1 <= k <= n
    ensures Select(n, FRESH, q * n + k - 1) == Rotor(k, 0, false, false)
  {
    var draw := q * n + k - 1;
    var d := draw / n;
    assert draw == d * n + draw % n;
    assert (q - d) * n == draw % n - (k - 1);
    MultipleIsFar(q - d, n);
  }

  // ----- Sequences of attempts -----

  function After(servers: seq<Entry>, r: Rotor, es: seq<Env>): Rotor
    requires servers != []
    decreases |es|
  {
    if es == [] then r else After(servers, Attempt(servers, r, es[0]), es[1..])
  }

  /** The server of each attempt, and how it was contacted. */
  function Log(servers: seq<Entry>, r: Rotor, es: seq<Env>): seq<(int, Via)>
    requires servers != []
    decreases |es|
  {
    if es == [] then []
    else [(Select(|servers|, r, es[0].draw).index, Try(servers, r, es[0]).1)]
         + Log(servers, Attempt(servers, r, es[0]), es[1..])
  }

  predicate Visits(log: seq<(int, Via)>, k: int) { exists i :: 0 <= i < |log| && log[i].0 == k }

  /** An attempt that leaves the rotation where it is: nothing to contact, or no proxy could be set up. */
  predicate Stalls(servers: seq<Entry>, r: Rotor, e: Env)
    requires servers != []
  {
    var s := Select(|servers|, r, e.draw);
    Undiscovered(servers, s, e) || (e.proxy && !s.ProxyUsed() && !(e.idsOk && e.parses))
  }

  predicate NoStall(servers: seq<Entry>, r: Rotor, es: seq<Env>)
    requires servers != []
    decreases |es|
  {
    es != [] ==> !Stalls(servers, r, es[0]) && NoStall(servers, Attempt(servers, r, es[0]), es[1..])
  }

  /** An upper bound on the attempts left on the current server. */
  function Left(r: Rotor): int {
    2 * (r.index - r.tried) - (if r.ProxyUsed() then 1 else 0)
  }

  /** How many rotations lead from server `index` to server `k`. */
  function Distance(n: int, index: int, k: int): int {
    if k > index then k - index else k - index + n
  }

  lemma VisitsTail(head: (int, Via), rest: seq<(int, Via)>, k: int)
    ensures Visits([head] + rest, k) <==> head.0 == k || Visits(rest, k)
  {
    var log := [head] + rest;
    if head.0 == k { assert log[0].0 == k; }
    if Visits(rest, k) {
      var i :| 0 <= i < |rest| && rest[i].0 == k;
      assert log[i + 1].0 == k;
    }
    if Visits(log, k) && head.0 != k {
      var i :| 0 <= i < |log| && log[i].0 == k;
      assert rest[i - 1].0 == k;
    }
  }

  lemma ProgressOfOne(servers: seq<Entry>, r: Rotor, e: Env)
    requires servers != [] && InRange(|servers|, r) && r.index >= 1 && !Stalls(servers, r, e)
    ensures var n, t := |servers|, Attempt(servers, r, e);
      if r.tried == r.index then Left(t) <= 1 && t.index == (if r.index == n then 1 else r.index + 1)
      else t.index == r.index && Left(t) <= Left(r) - 1
  {
    ProgressOnServer(Select(|servers|, r, e.draw), e);
  }

  /** An attempt with a server chosen uses up one of those left on it. */
  lemma ProgressOnServer(s: Rotor, e: Env)
    requires s.tried < s.index && (e.proxy && !s.ProxyUsed() ==> e.idsOk && e.parses)
    ensures var (t, via) := ChooseProxy(s, e);
      Settle(t, via, e).index == s.index && Left(Settle(t, via, e)) <= Left(s) - 1
  {
  }

  lemma {:induction false} Reaches(servers: seq<Entry>, r: Rotor, es: seq<Env>, k: int)
    requires servers != [] && InRange(|servers|, r) && r.index >= 1 && 1 <= k <= |servers|
    requires NoStall(servers, r, es)
    requires |es| >= (if Left(r) > 0 then Left(r) else 0) + 2 * Distance(|servers|, r.index, k)
    ensures Visits(Log(servers, r, es), k)
    decreases |es|
  {
    var t := Attempt(servers, r, es[0]);
    AttemptInRange(servers, r, es[0]);
    ProgressOfOne(servers, r, es[0]);
    VisitsTail(Log(servers, r, es)[0], Log(servers, t, es[1..]), k);
    if t.index != k || r.tried != r.index {
      Reaches(servers, t, es[1..], k);
    }
  }

  /** From any state of a run, 4N attempts that do not stall contact every one of the N servers. */
  lemma EveryServerWithin4N(servers: seq<Entry>, r: Rotor, es: seq<Env>, k: int)
    requires servers != [] && InRange(|servers|, r) && 1 <= k <= |servers|
    requires r.index == 0 ==> !r.ProxyUsed()
    requires |es| >= 4 * |servers| && GoodDraw(|servers|, r, es[0]) && NoStall(servers, r, es)
    ensures Visits(Log(servers, r, es), k)
  {
    if r.index >= 1 {
      Reaches(servers, r, es, k);
    } else {
      var t := Attempt(servers, r, es[0]);
      AttemptInRange(servers, r, es[0]);
      VisitsTail(Log(servers, r, es)[0], Log(servers, t, es[1..]), k);
      if t.index != k { Reaches(servers, t, es[1..], k); }
    }
  }

  // ----- The exact schedule -----

  function Successor(n: int, index: int): int {
    if index == n then 1 else index + 1
  }

  function ProxyThenDirect(n: int, index: int, m: nat): seq<(int, Via)>
    decreases m
  {
    if m == 0 then []
    else [(Successor(n, index), ThroughProxy), (Successor(n, index), Direct)]
         + ProxyThenDirect(n, Successor(n, index), m - 1)
  }

  predicate AllProxied(es: seq<Env>) { forall i :: 0 <= i < |es| ==> es[i].proxy }

  predicate NoneProxied(es: seq<Env>) { forall i :: 0 <= i < |es| ==> !es[i].proxy }

  /** The rotor when a server has been tried directly for the last time in a round. */
  function Passed(index: int): Rotor { Rotor(index, index, false, false) }

  /** Two attempts with a proxy that do not stall: the server by proxy and then directly. */
  lemma ProxyAndDirect(servers: seq<Entry>, r: Rotor, e: Env, f: Env)
    requires servers != [] && InRange(|servers|, r) && r.index >= 1 && !r.ProxyUsed() && e.proxy && f.proxy
    requires !Stalls(servers, r, e) && !Stalls(servers, Attempt(servers, r, e), f)
    ensures var s := Select(|servers|, r, e.draw);
      var t := Attempt(servers, r, e);
      && Try(servers, r, e).1 == ThroughProxy && t == s.(proxyServer := e.accepted, proxyFailed := !e.accepted)
      && Select(|servers|, t, f.draw).index == s.index && Try(servers, t, f).1 == Direct
      && Attempt(servers, t, f) == Rotor(s.index, s.tried + 1, false, false)
  {
    var s := Select(|servers|, r, e.draw);
    assert Attempt(servers, r, e) == s.(proxyServer := e.accepted, proxyFailed := !e.accepted);
  }

  lemma TwoAttempts(servers: seq<Entry>, r: Rotor, es: seq<Env>)
    requires servers != [] && |es| >= 2 && NoStall(servers, r, es)
    ensures var t := Attempt(servers, r, es[0]);
      var u := Attempt(servers, t, es[1]);
      && !Stalls(servers, r, es[0]) && !Stalls(servers, t, es[1]) && NoStall(servers, u, es[2..])
      && After(servers, r, es) == After(servers, u, es[2..])
      && Log(servers, r, es) == [(Select(|servers|, r, es[0].draw).index, Try(servers, r, es[0]).1),
                                 (Select(|servers|, t, es[1].draw).index, Try(servers, t, es[1]).1)]
                                + Log(servers, u, es[2..])
  {
    assert es[1..][0] == es[1] && es[1..][1..] == es[2..];
  }

  lemma WrapsRound(n: int, index: int)
    requires 1 <= index <= n
    ensures CRemainder(index, n) + 1 == Successor(n, index)
  {
    var d := index / n;
    assert index == d * n + index % n;
    if index == n {
      MultipleHasNoRemainder(1, n);
    } else {
      MultipleIsFar(d, n);
      assert d == 0;
    }
  }

  lemma NextTurn(n: int, index: int, draw: int)
    requires 1 <= index <= n
    ensures var next := Successor(n, index); Select(n, Passed(index), draw) == Rotor(next, next - 1, false, false)
  {
    WrapsRound(n, index);
  }

  lemma LogOfTwo(servers: seq<Entry>, r: Rotor, es: seq<Env>)
    requires servers != [] && InRange(|servers|, r) && r.index >= 1 && !r.ProxyUsed()
    requires |es| >= 2 && es[0].proxy && es[1].proxy && NoStall(servers, r, es)
    ensures var s := Select(|servers|, r, es[0].draw);
      var u := Rotor(s.index, s.tried + 1, false, false);
      && NoStall(servers, u, es[2..]) && After(servers, r, es) == After(servers, u, es[2..])
      && Log(servers, r, es) == [(s.index, ThroughProxy), (s.index, Direct)] + Log(servers, u, es[2..])
  {
    TwoAttempts(servers, r, es);
    ProxyAndDirect(servers, r, es[0], es[1]);
  }

  /**
   With a proxy at every attempt, whatever else changes, a server whose turn is over is followed by the next
   one, by proxy and then directly, and so on.
   */
  lemma {:induction false} ProxySchedule(servers: seq<Entry>, index: int, es: seq<Env>, m: nat)
    requires servers != [] && 1 <= index <= |servers| && |es| == 2 * m && AllProxied(es)
    requires NoStall(servers, Passed(index), es)
    ensures Log(servers, Passed(index), es) == ProxyThenDirect(|servers|, index, m)
    decreases m
  {
    if m > 0 {
      var next := Successor(|servers|, index);
      LogOfTwo(servers, Passed(index), es);
      NextTurn(|servers|, index, es[0].draw);
      assert Rotor(next, next, false, false) == Passed(next);
      ProxySchedule(servers, next, es[2..], m - 1);
    }
  }

  /** The same server by proxy and directly, `m` times. */
  function Alternating(index: int, m: nat): (log: seq<(int, Via)>)
    ensures |log| == 2 * m
  {
    if m == 0 then [] else [(index, ThroughProxy), (index, Direct)] + Alternating(index, m - 1)
  }

  /** Before that, the first server is tried by proxy and directly, as often as its place in the list. */
  lemma {:induction false} FirstServer(servers: seq<Entry>, r: Rotor, es: seq<Env>)
    requires servers != [] && InRange(|servers|, r) && 1 <= r.index && !r.ProxyUsed() && r.tried < r.index
    requires |es| == 2 * (r.index - r.tried) && AllProxied(es) && NoStall(servers, r, es)
    ensures After(servers, r, es) == Passed(r.index)
    ensures Log(servers, r, es) == Alternating(r.index, r.index - r.tried)
    decreases r.index - r.tried
  {
    var u, rest := Rotor(r.index, r.tried + 1, false, false), es[2..];
    LogOfTwo(servers, r, es);
    if u.tried < u.index {
      FirstServer(servers, u, rest);
    } else {
      assert rest == [] && Log(servers, u, rest) == Alternating(r.index, 0);
    }
  }

  lemma FreshIsFirst(servers: seq<Entry>, e: Env)
    requires servers != [] && GoodDraw(|servers|, FRESH, e)
    ensures var k := Select(|servers|, FRESH, e.draw).index;
      && 1 <= k <= |servers|
      && Try(servers, FRESH, e) == Try(servers, Rotor(k, 0, false, false), e)
      && Stalls(servers, FRESH, e) == Stalls(servers, Rotor(k, 0, false, false), e)
  {
    FirstServerExistsIff(|servers|, e.draw);
  }

  lemma {:induction false} RunSplits(servers: seq<Entry>, r: Rotor, a: seq<Env>, b: seq<Env>)
    requires servers != []
    ensures After(servers, r, a + b) == After(servers, After(servers, r, a), b)
    ensures Log(servers, r, a + b) == Log(servers, r, a) + Log(servers, After(servers, r, a), b)
    ensures NoStall(servers, r, a + b) <==> NoStall(servers, r, a) && NoStall(servers, After(servers, r, a), b)
    ensures |Log(servers, r, a)| == |a|
    decreases |a|
  {
    if a == [] {
      assert a + b == b;
    } else {
      assert (a + b)[1..] == a[1..] + b;
      RunSplits(servers, Attempt(servers, r, a[0]), a[1..], b);
    }
  }

  /**
   From the start, with a proxy at every attempt: the first server drawn is tried `k` times by proxy and directly,
   where `k` is its place, and then every server by proxy and then directly, in order, for ever.
   */
  lemma ProxyScheduleFromStart(servers: seq<Entry>, es: seq<Env>, m: nat)
    requires servers != [] && es != [] && GoodDraw(|servers|, FRESH, es[0])
    requires AllProxied(es) && NoStall(servers, FRESH, es)
    requires |es| == 2 * Select(|servers|, FRESH, es[0].draw).index + 2 * m
    ensures var k := Select(|servers|, FRESH, es[0].draw).index;
      && 1 <= k <= |servers| && |Log(servers, FRESH, es)| == |es|
      && After(servers, FRESH, es[..2 * k]) == Passed(k)
      && Log(servers, FRESH, es)[..2 * k] == Alternating(k, k)
      && Log(servers, FRESH, es)[2 * k..] == ProxyThenDirect(|servers|, k, m)
  {
    var k := Select(|servers|, FRESH, es[0].draw).index;
    FreshIsFirst(servers, es[0]);
    var first, rest := es[..2 * k], es[2 * k..];
    assert es == first + rest && first[0] == es[0];
    RunSplits(servers, FRESH, first, rest);
    assert NoStall(servers, Rotor(k, 0, false, false), first);
    FirstServer(servers, Rotor(k, 0, false, false), first);
    assert After(servers, FRESH, first) == After(servers, Rotor(k, 0, false, false), first);
    assert Log(servers, FRESH, first) == Log(servers, Rotor(k, 0, false, false), first);
    ProxySchedule(servers, k, rest, m);
    RunSplits(servers, FRESH, es, []);
  }

  /** One round by proxy: N servers, each once through the proxy and once directly. */
  lemma {:induction false} EachServerTwicePerRound(n: int, index: int, m: nat, k: int, via: Via)
    requires 1 <= index <= n && 1 <= k <= n && m <= n && !via.Skipped?
    ensures multiset(ProxyThenDirect(n, index, m))[(k, via)] == if Distance(n, index, k) <= m then 1 else 0
    decreases m
  {
    if m > 0 {
      var next := Successor(n, index);
      EachServerTwicePerRound(n, next, m - 1, k, via);
      var head := [(next, ThroughProxy), (next, Direct)];
      assert multiset(head) == multiset{(next, ThroughProxy), (next, Direct)};
      assert multiset(ProxyThenDirect(n, index, m)) == multiset(head) + multiset(ProxyThenDirect(n, next, m - 1));
    }
  }

  function EachDirect(n: int, index: int, m: nat): seq<(int, Via)>
    decreases m
  {
    if m == 0 then [] else [(Successor(n, index), Direct)] + EachDirect(n, Successor(n, index), m - 1)
  }

  /** With no proxy at any attempt, whatever else changes, the servers are tried one after another. */
  lemma {:induction false} DirectSchedule(servers: seq<Entry>, used: Rotor, es: seq<Env>)
    requires servers != [] && 1 <= used.index == used.tried <= |servers|
    requires NoneProxied(es) && NoStall(servers, used, es)
    ensures Log(servers, used, es) == EachDirect(|servers|, used.index, |es|)
    decreases |es|
  {
    if es != [] {
      DirectOne(servers, used, es[0]);
      DirectSchedule(servers, Attempt(servers, used, es[0]), es[1..]);
    }
  }

  lemma DirectOne(servers: seq<Entry>, used: Rotor, e: Env)
    requires servers != [] && 1 <= used.index == used.tried <= |servers| && !e.proxy && !Stalls(servers, used, e)
    ensures var next := Successor(|servers|, used.index);
      var t := Attempt(servers, used, e);
      && t.index == t.tried == next <= |servers| && next >= 1
      && Select(|servers|, used, e.draw).index == next && Try(servers, used, e).1 == Direct
  {
  }

  /** And so from the start, where the first one is drawn. */
  lemma DirectScheduleFromStart(servers: seq<Entry>, es: seq<Env>)
    requires servers != [] && es != [] && GoodDraw(|servers|, FRESH, es[0])
    requires NoneProxied(es) && NoStall(servers, FRESH, es)
    ensures var k := Select(|servers|, FRESH, es[0].draw).index;
      1 <= k <= |servers| && Log(servers, FRESH, es) == [(k, Direct)] + EachDirect(|servers|, k, |es| - 1)
  {
    FreshIsFirst(servers, es[0]);
    DirectSchedule(servers, Attempt(servers, FRESH, es[0]), es[1..]);
  }

  /** One round without a proxy: N servers, each once. */
  lemma {:induction false} EachServerOncePerRound(n: int, index: int, m: nat, k: int)
    requires 1 <= index <= n && 1 <= k <= n && m <= n
    ensures multiset(EachDirect(n, index, m))[(k, Direct)] == if Distance(n, index, k) <= m then 1 else 0
    decreases m
  {
    if m > 0 {
      var next := Successor(n, index);
      EachServerOncePerRound(n, next, m - 1, k);
      assert multiset([(next, Direct)]) == multiset{(next, Direct)};
      assert multiset(EachDirect(n, index, m)) == multiset([(next, Direct)]) + multiset(EachDirect(n, next, m - 1));
    }
  }

  // ----- Constant surroundings: exactly when the rotation is fair for ever -----

  /** Some attempt made in these surroundings can stall. */
  predicate MayStall(servers: seq<Entry>, e: Env) {
    || (e.proxy && !(e.idsOk && e.parses))
    || (!e.multicast && exists i :: 0 <= i < |servers| && servers[i].Local?)
  }

  /** Every server gets a turn in every 4N consecutive attempts, for ever. */
  ghost predicate Fair(servers: seq<Entry>, e: Env)
    requires servers != []
  {
    forall m: nat, k: int :: 1 <= k <= |servers| ==> GetsTurn(servers, e, m, k)
  }

  predicate GetsTurn(servers: seq<Entry>, e: Env, m: nat, k: int)
    requires servers != []
  {
    Visits(Log(servers, After(servers, FRESH, Repeat(m, e)), Repeat(4 * |servers|, e)), k)
  }

  lemma {:induction false} AfterInRange(servers: seq<Entry>, r: Rotor, es: seq<Env>)
    requires servers != [] && InRange(|servers|, r) && (es != [] ==> GoodDraw(|servers|, r, es[0]))
    requires r.index == 0 ==> !r.ProxyUsed()
    ensures var t := After(servers, r, es);
      InRange(|servers|, t) && (t.index == 0 ==> !t.ProxyUsed())
    decreases |es|
  {
    if es != [] {
      AttemptInRange(servers, r, es[0]);
      AfterInRange(servers, Attempt(servers, r, es[0]), es[1..]);
    }
  }

  lemma {:induction false} SafeSurroundingsNeverStall(servers: seq<Entry>, r: Rotor, es: seq<Env>, e: Env)
    requires servers != [] && !MayStall(servers, e) && forall i :: 0 <= i < |es| ==> es[i] == e
    ensures NoStall(servers, r, es)
    decreases |es|
  {
    if es != [] {
      assert es[0] == e;
      SafeSurroundingsNeverStall(servers, Attempt(servers, r, e), es[1..], e);
    }
  }

  /** A rotor that an attempt does not change stays on its server. */
  predicate Stuck(servers: seq<Entry>, r: Rotor, e: Env)
    requires servers != []
  {
    Attempt(servers, r, e) == r && Select(|servers|, r, e.draw) == r
  }

  lemma {:induction false} StuckVisitsOne(servers: seq<Entry>, r: Rotor, e: Env, m: nat, k: int)
    requires servers != [] && Stuck(servers, r, e) && Visits(Log(servers, r, Repeat(m, e)), k)
    ensures k == r.index
    decreases m
  {
    if m > 0 {
      assert Repeat(m, e)[1..] == Repeat(m - 1, e);
      VisitsTail(Log(servers, r, Repeat(m, e))[0], Log(servers, r, Repeat(m - 1, e)), k);
      if k != r.index { StuckVisitsOne(servers, r, e, m - 1, k); }
    }
  }

  /** Once an undiscovered local server has its turn, the rotation never leaves it. */
  lemma {:induction false} LocalTraps(servers: seq<Entry>, r: Rotor, e: Env, m: nat, k: int)
    returns (i: nat)
    requires servers != [] && InRange(|servers|, r) && GoodDraw(|servers|, r, e) && !e.multicast
    requires 1 <= k <= |servers| && servers[k - 1].Local?
    requires Visits(Log(servers, r, Repeat(m, e)), k)
    ensures var t := After(servers, r, Repeat(i, e)); t.index == k && Stuck(servers, t, e)
    decreases m
  {
    var s := Select(|servers|, r, e.draw);
    var t := Attempt(servers, r, e);
    AttemptInRange(servers, r, e);
    assert Repeat(m, e)[1..] == Repeat(m - 1, e);
    VisitsTail(Log(servers, r, Repeat(m, e))[0], Log(servers, t, Repeat(m - 1, e)), k);
    if s.index == k {
      i := 1;
      assert Repeat(1, e) == [e];
      assert After(servers, r, [e]) == After(servers, t, []) == t;
    } else {
      var j := LocalTraps(servers, t, e, m - 1, k);
      i := j + 1;
      assert Repeat(i, e)[1..] == Repeat(j, e);
    }
  }

  /** In constant surroundings every server keeps getting its turn exactly when no attempt can stall. */
  lemma FairIffNothingStalls(servers: seq<Entry>, e: Env)
    requires servers != [] && GoodDraw(|servers|, FRESH, e)
    ensures Fair(servers, e) <==> |servers| == 1 || !MayStall(servers, e)
  {
    var n := |servers|;
    if !MayStall(servers, e) {
      forall m: nat, k: int | 1 <= k <= n ensures GetsTurn(servers, e, m, k) {
        AfterInRange(servers, FRESH, Repeat(m, e));
        var r := After(servers, FRESH, Repeat(m, e));
        SafeSurroundingsNeverStall(servers, r, Repeat(4 * n, e), e);
        EveryServerWithin4N(servers, r, Repeat(4 * n, e), k);
      }
    } else if n == 1 {
      forall m: nat, k: int | 1 <= k <= n ensures GetsTurn(servers, e, m, k) {
        AfterInRange(servers, FRESH, Repeat(m, e));
        var r := After(servers, FRESH, Repeat(m, e));
        AttemptInRange(servers, r, e);
        assert Repeat(4 * n, e)[0] == e;
        assert Log(servers, r, Repeat(4 * n, e))[0].0 == k;
      }
    } else {
      StallingIsUnfair(servers, e);
    }
  }

  lemma StallingIsUnfair(servers: seq<Entry>, e: Env)
    requires |servers| >= 2 && GoodDraw(|servers|, FRESH, e) && MayStall(servers, e)
    ensures !Fair(servers, e)
  {
    var n := |servers|;
    if Fair(servers, e) {
      var m: nat, t: Rotor;
      if e.proxy && !(e.idsOk && e.parses) {
        m, t := 1, Attempt(servers, FRESH, e);
        AttemptInRange(servers, FRESH, e);
        assert Repeat(1, e) == [e];
        assert After(servers, FRESH, [e]) == After(servers, t, []) == t;
      } else {
        var i :| 0 <= i < n && servers[i].Local?;
        assert GetsTurn(servers, e, 0, i + 1);
        assert After(servers, FRESH, Repeat(0, e)) == FRESH;
        m := LocalTraps(servers, FRESH, e, 4 * n, i + 1);
        t := After(servers, FRESH, Repeat(m, e));
      }
      var k := if t.index == 1 then 2 else 1;
      assert GetsTurn(servers, e, m, k);
      StuckVisitsOne(servers, t, e, 4 * n, k);
    }
  }
}
