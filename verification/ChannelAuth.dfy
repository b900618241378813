/**
 Authentication of the control channel: the two-bit mask, the nonces, the cached certificate hash, the gate
 on server commands, and the `Connected` event that scripts observe.
 */
module ChannelAuth {
  import opened Common

  const HASH_SIZE: nat := 48  // SHA-384
  const OLD_HASH_SIZE: nat := 32  // SHA-256, in older policy files

  const OPEN_BRACE: byte := 123
  const AUTH_REQUEST: nat := 1
  const AUTH_VERIFY: nat := 2
  const AUTH_CONFIRM: nat := 4
  const AUTH_REQUEST_SIZE: nat := 2 + HASH_SIZE + HASH_SIZE
  const VERIFY_HEADER_SIZE: nat := 4

  /** The cryptographic primitives; nothing is assumed about them. Certificates are octet strings. */
  datatype Crypto = Crypto(
    hash: seq<byte> -> seq<byte>,
    certHash: seq<byte> -> seq<byte>,
    keyHash: seq<byte> -> seq<byte>,
    keyDigest384: seq<byte> -> seq<byte>,
    keyDigest256: seq<byte> -> seq<byte>,
    parseCert: seq<byte> -> Option<seq<byte>>,
    verify: (seq<byte>, seq<byte>, seq<byte>) -> bool)

  datatype Setup = Setup(crypto: Crypto, serverHash: seq<byte>)

  /** `listeners` maps each live `Connected` subscriber to the values it has been called with. */
  datatype State = State(
    serverOk: bool,
    agentOk: bool,
    connectionState: nat,
    agentNonce: seq<byte>,
    serverNonce: seq<byte>,
    tlsHash: Option<seq<byte>>,
    listeners: map<nat, seq<nat>>)
  {
    predicate Authenticated() { serverOk && agentOk }
  }

  datatype Event =
    | Opened(peer: seq<byte>, sendOk: bool, nonce: seq<byte>)
    | Received(peer: seq<byte>, cmd: seq<byte>)
    | Closed(late: seq<nat>)  // `late`: listeners added by a handler while it is being told about the disconnect
    | Subscribed(id: nat)
    | HeapReplaced

  datatype Effect =
    | SendServerId(hash: seq<byte>)
    | SendAuthConfirm
    | SendAuthRequest(certHash: seq<byte>, nonce: seq<byte>)
    | SendProof(digest: seq<byte>)
    | StoreTlsHash(hash: seq<byte>)
    | SendAgentInfo
    | SendAgentTag
    | EmitConnected(value: nat)
    | ToScript(cmd: seq<byte>)
    | ToBuiltin(command: nat, request: nat, cmd: seq<byte>)

  // ----- Specification of one event -----

  function Tell(listeners: map<nat, seq<nat>>, value: nat): map<nat, seq<nat>> {
    map id | id in listeners :: listeners[id] + [value]
  }

  function Joined(listeners: map<nat, seq<nat>>, ids: seq<nat>, trace: seq<nat>): map<nat, seq<nat>>
    decreases |ids|
  {
    if ids == [] then listeners else Joined(listeners[ids[0] := trace], ids[1..], trace)
  }

  /** The certificate the server presents is the one its own TLS connection uses. */
  predicate RequestMatches(c: Crypto, peer: seq<byte>, cmd: seq<byte>) {
    && |cmd| == AUTH_REQUEST_SIZE
    && (c.certHash(peer) == cmd[2..2 + HASH_SIZE] || c.keyHash(peer) == cmd[2..2 + HASH_SIZE])
  }

  predicate ExpectedServer(k: Setup, cert: seq<byte>) {
    || k.crypto.keyDigest384(cert) == k.serverHash
    || (|k.serverHash| >= OLD_HASH_SIZE && k.crypto.keyDigest256(cert) == k.serverHash[..OLD_HASH_SIZE])
  }

  /** A message of type AuthVerify that proves the server's identity for the TLS peer and these nonces. */
  predicate Verified(k: Setup, peer: seq<byte>, agentNonce: seq<byte>, serverNonce: seq<byte>, cmd: seq<byte>) {
    && |cmd| > 8
    && BE16(cmd, 0) == AUTH_VERIFY
    && var certLen := BE16(cmd, 2);
    && |cmd| > VERIFY_HEADER_SIZE + certLen
    && var cert := k.crypto.parseCert(cmd[4..4 + certLen]);
    && cert.Some?
    && ExpectedServer(k, cert.value)
    && var sigLen := (|cmd| - (VERIFY_HEADER_SIZE + certLen)) % 0x1_0000;
    && k.crypto.verify(cert.value,
                       k.crypto.hash(k.crypto.certHash(peer) + agentNonce + serverNonce),
                       cmd[4 + certLen..4 + certLen + sigLen])
  }

  predicate CacheMatches(c: Crypto, s: State, peer: seq<byte>) {
    s.tlsHash.Some? && |s.tlsHash.value| == HASH_SIZE && s.tlsHash.value == c.certHash(peer)
  }

  function Announce(s: State): (State, seq<Effect>) {
    if s.Authenticated() then (s.(listeners := Tell(s.listeners, 1)), [SendAgentTag, EmitConnected(1)])
    else (s, [])
  }

  function StepUnauthenticated(k: Setup, s: State, peer: seq<byte>, cmd: seq<byte>): (State, seq<Effect>)
    requires |cmd| >= 2
  {
    var command := BE16(cmd, 0);
    if command == AUTH_REQUEST then
      if RequestMatches(k.crypto, peer, cmd) then
        var nonce := cmd[2 + HASH_SIZE..];
        (s.(serverNonce := nonce), [SendProof(k.crypto.hash(cmd[2..2 + HASH_SIZE] + nonce + s.agentNonce))])
      else (s, [])
    else if command == AUTH_VERIFY then
      if Verified(k, peer, s.agentNonce, s.serverNonce, cmd) then
        var h := k.crypto.certHash(peer);
        var (t, told) := Announce(s.(serverOk := true, tlsHash := Some(h)));
        (t, [StoreTlsHash(h), SendAgentInfo] + told)
      else (s, [])
    else if command == AUTH_CONFIRM then Announce(s.(agentOk := true))
    else (s, [])
  }

  function StepAuthenticated(s: State, cmd: seq<byte>): seq<Effect>
    requires |cmd| >= 2
  {
    var command := BE16(cmd, 0);
    if command < 10 then []
    else if cmd[0] == OPEN_BRACE || command >= 1000 then [ToScript(cmd)]
    else if |cmd| < 4 then []
    else [ToBuiltin(command, BE16(cmd, 2), cmd)]
  }

  predicate Sensible(e: Event) { e.Received? ==> |e.cmd| >= 2 }

  function Step(k: Setup, s: State, e: Event): (State, seq<Effect>)
    requires Sensible(e)
  {
    match e
    case Opened(peer, sendOk, nonce) =>
      var t := s.(serverOk := false, agentOk := false, connectionState := 2);
      if !sendOk then (t, [SendServerId(k.serverHash)])
      else
        var known := CacheMatches(k.crypto, s, peer);
        (t.(serverOk := known, agentNonce := nonce),
         [SendServerId(k.serverHash)] + (if known then [SendAuthConfirm] else [])
         + [SendAuthRequest(k.crypto.certHash(peer), nonce)] + (if known then [SendAgentInfo] else []))
    case Received(peer, cmd) =>
      if s.Authenticated() then (s, StepAuthenticated(s, cmd)) else StepUnauthenticated(k, s, peer, cmd)
    case Closed(late) =>
      var told := if s.Authenticated() then Joined(Tell(s.listeners, 0), late, [1]) else s.listeners;
      (s.(serverOk := false, agentOk := false, connectionState := 0, listeners := told),
       if s.Authenticated() then [EmitConnected(0)] else [])
    case Subscribed(id) =>
      (s.(listeners := s.listeners[id := if s.Authenticated() then [1] else []]), [])
    case HeapReplaced => (s.(listeners := map[]), [])
  }

  predicate AllSensible(events: seq<Event>) { forall i :: 0 <= i < |events| ==> Sensible(events[i]) }

  function Run(k: Setup, s: State, events: seq<Event>): State
    requires AllSensible(events)
  {
    if events == [] then s
    else Step(k, Run(k, s, events[..|events| - 1]), events[|events| - 1]).0
  }

  // ----- What the two bits mean, in terms of the history of the connection -----

  predicate Boundary(e: Event) { e.Opened? || e.Closed? }

  /** Event `j` belongs to the connection that is open after the whole history. */
  predicate ThisConnection(events: seq<Event>, j: nat) {
    j < |events| && forall i :: j < i < |events| ==> !Boundary(events[i])
  }

  /** The server is accepted: its certificate was remembered, or it signed the nonces in use. */
  predicate AcceptsServer(k: Setup, s: State, e: Event) {
    || (e.Opened? && e.sendOk && CacheMatches(k.crypto, s, e.peer))
    || SignatureAccepted(k, s, e)
  }

  predicate SignatureAccepted(k: Setup, s: State, e: Event) {
    e.Received? && !s.Authenticated() && Verified(k, e.peer, s.agentNonce, s.serverNonce, e.cmd)
  }

  predicate AcceptsAgent(e: Event) { e.Received? && |e.cmd| >= 2 && BE16(e.cmd, 0) == AUTH_CONFIRM }

  /** Event `j` of the open connection is a reason to accept the server. */
  predicate ServerAcceptedAt(k: Setup, s: State, events: seq<Event>, j: nat)
    requires AllSensible(events) && j < |events|
  {
    ThisConnection(events, j) && AcceptsServer(k, Run(k, s, events[..j]), events[j])
  }

  /** After `events`, the open connection has accepted the server. */
  ghost predicate ServerAccepted(k: Setup, s: State, events: seq<Event>)
    requires AllSensible(events)
  {
    exists j: nat :: j < |events| && ServerAcceptedAt(k, s, events, j)
  }

  predicate AgentAcceptedAt(events: seq<Event>, j: nat) { ThisConnection(events, j) && AcceptsAgent(events[j]) }

  ghost predicate AgentAccepted(events: seq<Event>) {
    exists j: nat :: AgentAcceptedAt(events, j)
  }

  lemma ThisConnectionGrows(events: seq<Event>, j: nat)
    requires j + 1 < |events|
    ensures ThisConnection(events, j) <==>
            ThisConnection(events[..|events| - 1], j) && !Boundary(events[|events| - 1])
  {
    var n := |events| - 1;
    assert forall i :: j < i < n ==> events[..n][i] == events[i];
    if ThisConnection(events[..n], j) && !Boundary(events[n]) {
      forall i | j < i < |events| ensures !Boundary(events[i]) {
        if i < n { assert events[..n][i] == events[i]; }
      }
    }
  }

  lemma ServerAcceptedGrows(k: Setup, s: State, events: seq<Event>, j: nat)
    requires AllSensible(events) && j < |events|
    ensures var n := |events| - 1;
      ServerAcceptedAt(k, s, events, j) <==>
      if j == n then AcceptsServer(k, Run(k, s, events[..n]), events[n])
      else ServerAcceptedAt(k, s, events[..n], j) && !Boundary(events[n])
  {
    if j < |events| - 1 {
      ThisConnectionGrows(events, j);
      assert events[..|events| - 1][..j] == events[..j];
    }
  }

  /** The reason for the server bit outlasts an event exactly when that is no boundary. */
  lemma ServerReasonGrows(k: Setup, s: State, events: seq<Event>)
    requires AllSensible(events) && events != []
    ensures var n := |events| - 1;
      ServerAccepted(k, s, events) <==>
      (AcceptsServer(k, Run(k, s, events[..n]), events[n])
       || (!Boundary(events[n]) && ServerAccepted(k, s, events[..n])))
  {
    var n := |events| - 1;
    if ServerAccepted(k, s, events) {
      var j: nat :| j < |events| && ServerAcceptedAt(k, s, events, j);
      ServerAcceptedGrows(k, s, events, j);
    }
    if !Boundary(events[n]) && ServerAccepted(k, s, events[..n]) {
      var j: nat :| j < n && ServerAcceptedAt(k, s, events[..n], j);
      ServerAcceptedGrows(k, s, events, j);
    }
    ServerAcceptedGrows(k, s, events, n);
  }

  lemma AgentAcceptedGrows(events: seq<Event>, j: nat)
    requires j < |events|
    ensures var n := |events| - 1;
      AgentAcceptedAt(events, j) <==>
      if j == n then AcceptsAgent(events[n]) else AgentAcceptedAt(events[..n], j) && !Boundary(events[n])
  {
    if j < |events| - 1 { ThisConnectionGrows(events, j); }
  }

  lemma AgentReasonGrows(events: seq<Event>)
    requires events != []
    ensures var n := |events| - 1;
      AgentAccepted(events) <==> (AcceptsAgent(events[n]) || (!Boundary(events[n]) && AgentAccepted(events[..n])))
  {
    var n := |events| - 1;
    if AgentAccepted(events) {
      var j: nat :| AgentAcceptedAt(events, j);
      AgentAcceptedGrows(events, j);
    }
    if !Boundary(events[n]) && AgentAccepted(events[..n]) {
      var j: nat :| AgentAcceptedAt(events[..n], j);
      AgentAcceptedGrows(events, j);
    }
    AgentAcceptedGrows(events, n);
  }

  /**
   In every reachable state each bit of the mask is set exactly when the history of the open connection
   gives the reason for it. (Which nonces a signature covers is said below.)
   */
  lemma {:induction false} MaskIsHistory(k: Setup, s: State, events: seq<Event>)
    requires AllSensible(events) && !s.serverOk && !s.agentOk
    ensures Run(k, s, events).serverOk <==> ServerAccepted(k, s, events)
    ensures Run(k, s, events).agentOk ==> AgentAccepted(events)
    ensures AgentAccepted(events) ==> Run(k, s, events).agentOk
    decreases |events|
  {
    if events != [] {
      MaskIsHistory(k, s, events[..|events| - 1]);
      ServerReasonGrows(k, s, events);
      AgentReasonGrows(events);
    }
  }

  /** The connection counts as established exactly from an opening to the disconnect that follows. */
  lemma {:induction false} EstablishedWhileOpen(k: Setup, s: State, events: seq<Event>, j: nat)
    requires AllSensible(events) && ThisConnection(events, j) && Boundary(events[j])
    ensures Run(k, s, events).connectionState == if events[j].Opened? then 2 else 0
    decreases |events|
  {
    var n := |events| - 1;
    if j < n {
      ThisConnectionGrows(events, j);
      EstablishedWhileOpen(k, s, events[..n], j);
    }
  }

  // ----- Which nonces a signature covers -----

  predicate RequestAccepted(k: Setup, s: State, e: Event) {
    && e.Received? && !s.Authenticated() && |e.cmd| >= 2 && BE16(e.cmd, 0) == AUTH_REQUEST
    && RequestMatches(k.crypto, e.peer, e.cmd)
  }

  /** The agent's nonce changes only when a connection opens and can be written to; the server's only by its request. */
  lemma StepNonces(k: Setup, s: State, e: Event)
    requires Sensible(e)
    ensures Step(k, s, e).0.agentNonce == if e.Opened? && e.sendOk then e.nonce else s.agentNonce
    ensures Step(k, s, e).0.serverNonce == if RequestAccepted(k, s, e) then e.cmd[2 + HASH_SIZE..] else s.serverNonce
  {
  }

  /** The nonce in use while the connection opened by event `j` lasts: its own, or else the one from before. */
  function NonceInUse(k: Setup, s: State, events: seq<Event>, j: nat): seq<byte>
    requires AllSensible(events) && j < |events| && events[j].Opened?
  {
    if events[j].sendOk then events[j].nonce else Run(k, s, events[..j]).agentNonce
  }

  lemma {:induction false} NonceOfConnection(k: Setup, s: State, events: seq<Event>, j: nat)
    requires AllSensible(events) && ThisConnection(events, j) && events[j].Opened?
    ensures Run(k, s, events).agentNonce == NonceInUse(k, s, events, j)
    decreases |events|
  {
    var n := |events| - 1;
    StepNonces(k, Run(k, s, events[..n]), events[n]);
    if j < n {
      ThisConnectionGrows(events, j);
      NonceOfConnection(k, s, events[..n], j);
      assert events[..n][..j] == events[..j];
    }
  }

  /**
   The nonce that a signature must cover is the one drawn when its connection opened exactly when that opening
   could be written to, unless the random draw repeats the nonce from before.
   */
  lemma NonceIsThisConnectionsIff(k: Setup, s: State, events: seq<Event>, j: nat)
    requires AllSensible(events) && ThisConnection(events, j) && events[j].Opened?
    requires events[j].nonce != Run(k, s, events[..j]).agentNonce
    ensures Run(k, s, events).agentNonce == events[j].nonce <==> events[j].sendOk
  {
    NonceOfConnection(k, s, events, j);
  }

  /** Event `i` of a run is a message in which the expected server signs this agent nonce. */
  predicate SignsAt(k: Setup, s: State, events: seq<Event>, i: nat, agentNonce: seq<byte>)
    requires AllSensible(events) && i < |events|
  {
    events[i].Received? && Verified(k, events[i].peer, agentNonce, Run(k, s, events[..i]).serverNonce, events[i].cmd)
  }

  lemma SignsGrows(k: Setup, s: State, events: seq<Event>, i: nat, agentNonce: seq<byte>)
    requires AllSensible(events) && i + 1 < |events|
    ensures SignsAt(k, s, events[..|events| - 1], i, agentNonce) <==> SignsAt(k, s, events, i, agentNonce)
  {
    assert events[..|events| - 1][..i] == events[..i];
  }

  lemma ServerBitOfStep(k: Setup, s: State, e: Event)
    requires Sensible(e) && !Boundary(e)
    ensures Step(k, s, e).0.serverOk <==>
            s.serverOk || (e.Received? && Verified(k, e.peer, s.agentNonce, s.serverNonce, e.cmd))
  {
  }

  /** The server has signed this nonce after event `j`. */
  ghost predicate SignedSince(k: Setup, s: State, events: seq<Event>, j: nat, agentNonce: seq<byte>)
    requires AllSensible(events)
  {
    exists i: nat :: j < i < |events| && SignsAt(k, s, events, i, agentNonce)
  }

  lemma SignedSinceGrows(k: Setup, s: State, events: seq<Event>, j: nat, agentNonce: seq<byte>)
    requires AllSensible(events) && j + 1 < |events|
    ensures var n := |events| - 1;
      SignedSince(k, s, events, j, agentNonce) <==>
      SignedSince(k, s, events[..n], j, agentNonce) || SignsAt(k, s, events, n, agentNonce)
  {
    var n := |events| - 1;
    if SignedSince(k, s, events, j, agentNonce) {
      var i: nat :| j < i < |events| && SignsAt(k, s, events, i, agentNonce);
      if i < n { SignsGrows(k, s, events, i, agentNonce); }
    }
    if SignedSince(k, s, events[..n], j, agentNonce) {
      var i: nat :| j < i < n && SignsAt(k, s, events[..n], i, agentNonce);
      SignsGrows(k, s, events, i, agentNonce);
    }
  }

  /** The connection opened by event `j` found its certificate remembered, or the server has since signed its nonce. */
  ghost predicate ServerProven(k: Setup, s: State, events: seq<Event>, j: nat)
    requires AllSensible(events) && j < |events| && events[j].Opened?
  {
    || (events[j].sendOk && CacheMatches(k.crypto, Run(k, s, events[..j]), events[j].peer))
    || SignedSince(k, s, events, j, NonceInUse(k, s, events, j))
  }

  lemma ServerBitAtOpening(k: Setup, s: State, events: seq<Event>)
    requires AllSensible(events) && events != [] && events[|events| - 1].Opened?
    ensures Run(k, s, events).serverOk <==> ServerProven(k, s, events, |events| - 1)
  {
  }

  /**
   In every run, while the connection opened by event `j` lasts, the server bit is set exactly when its certificate
   was remembered then or the expected server has since signed the nonce in use.
   */
  lemma {:induction false} ServerBitCoversNonce(k: Setup, s: State, events: seq<Event>, j: nat)
    requires AllSensible(events) && ThisConnection(events, j) && events[j].Opened?
    ensures Run(k, s, events).serverOk <==> ServerProven(k, s, events, j)
    decreases |events|
  {
    var n := |events| - 1;
    var before := events[..n];
    if j < n {
      ThisConnectionGrows(events, j);
      ServerBitCoversNonce(k, s, before, j);
      NonceOfConnection(k, s, before, j);
      assert before[..j] == events[..j];
      SignedSinceGrows(k, s, events, j, NonceInUse(k, s, events, j));
      ServerBitOfStep(k, Run(k, s, before), events[n]);
    } else {
      ServerBitAtOpening(k, s, events);
    }
  }

  /** In every run the server's nonce is the one in the last request accepted, in whichever connection that was. */
  lemma {:induction false} ServerNonceIsLastRequest(k: Setup, s: State, events: seq<Event>)
    requires AllSensible(events)
    ensures var requested := Requests(k, s, events);
      Run(k, s, events).serverNonce == if requested == [] then s.serverNonce else requested[|requested| - 1]
    decreases |events|
  {
    if events != [] {
      var n := |events| - 1;
      StepNonces(k, Run(k, s, events[..n]), events[n]);
      ServerNonceIsLastRequest(k, s, events[..n]);
    }
  }

  /** The nonces in the requests accepted during a run, in order. */
  function Requests(k: Setup, s: State, events: seq<Event>): seq<seq<byte>>
    requires AllSensible(events)
    decreases |events|
  {
    if events == [] then []
    else
      var n := |events| - 1;
      var e := events[n];
      Requests(k, s, events[..n])
      + (if RequestAccepted(k, Run(k, s, events[..n]), e) then [e.cmd[2 + HASH_SIZE..]] else [])
  }

  // ----- What the authentication messages say -----

  function RequestMessage(named: seq<byte>, nonce: seq<byte>): seq<byte> { [0, 1] + named + nonce }

  function VerifyMessage(cert: seq<byte>, signature: seq<byte>): seq<byte>
    requires |cert| < 0x1_0000
  {
    [0, 2] + ToBE16(|cert|) + cert + signature
  }

  const CONFIRM_MESSAGE: seq<byte> := [0, 4]

  predicate Named(c: Crypto, peer: seq<byte>, named: seq<byte>) {
    c.certHash(peer) == named || c.keyHash(peer) == named
  }

  /**
   The certificate is the expected server's, and its key made the signature, over the certificate of the TLS peer,
   the agent's nonce and the server's nonce. The length of a signature has 16 bits.
   */
  predicate Signs(k: Setup, peer: seq<byte>, cert: seq<byte>, signature: seq<byte>, agentNonce: seq<byte>,
                  serverNonce: seq<byte>)
  {
    && |cert| + |signature| > 4 && signature != []
    && var x := k.crypto.parseCert(cert);
    && x.Some?
    && (k.crypto.keyDigest384(x.value) == k.serverHash
        || (|k.serverHash| >= 32 && k.crypto.keyDigest256(x.value) == k.serverHash[..32]))
    && var signed := k.crypto.certHash(peer) + agentNonce + serverNonce;
    k.crypto.verify(x.value, k.crypto.hash(signed), signature[..|signature| % 0x1_0000])
  }

  lemma VerifyMessageParts(cert: seq<byte>, signature: seq<byte>)
    requires |cert| < 0x1_0000
    ensures var m := VerifyMessage(cert, signature);
      && |m| == 4 + |cert| + |signature| && BE16(m, 0) == AUTH_VERIFY && BE16(m, 2) == |cert|
      && m[4..4 + |cert|] == cert
      && m[4 + |cert|..4 + |cert| + |signature| % 0x1_0000] == signature[..|signature| % 0x1_0000]
  {
    var length := ToBE16(|cert|);
    var m := VerifyMessage(cert, signature);
    assert m[2] == length[0] && m[3] == length[1];
  }

  /** A signature message sets the server bit exactly when the expected server signed these nonces for this peer. */
  lemma SignatureDecides(k: Setup, s: State, peer: seq<byte>, cert: seq<byte>, signature: seq<byte>)
    requires |cert| < 0x1_0000 && !s.Authenticated()
    ensures var (t, fx) := Step(k, s, Received(peer, VerifyMessage(cert, signature)));
      var h := k.crypto.certHash(peer);
      if Signs(k, peer, cert, signature, s.agentNonce, s.serverNonce)
      then t.serverOk && t.agentOk == s.agentOk && t.tlsHash == Some(h)
           && fx == [StoreTlsHash(h), SendAgentInfo] + if s.agentOk then [SendAgentTag, EmitConnected(1)] else []
      else t == s && fx == []
  {
    VerifyMessageParts(cert, signature);
  }

  /** A request is answered, and its nonce taken over, exactly when it names the certificate or key of this peer. */
  lemma RequestDecides(k: Setup, s: State, peer: seq<byte>, named: seq<byte>, nonce: seq<byte>)
    requires |named| == |nonce| == 48 && !s.Authenticated()
    ensures var e := Received(peer, RequestMessage(named, nonce));
      && Step(k, s, e) == (if Named(k.crypto, peer, named)
                           then (s.(serverNonce := nonce), [SendProof(k.crypto.hash(named + nonce + s.agentNonce))])
                           else (s, []))
      && (RequestAccepted(k, s, e) <==> Named(k.crypto, peer, named))
  {
    var m := RequestMessage(named, nonce);
    assert m[2..2 + HASH_SIZE] == named && m[2 + HASH_SIZE..] == nonce;
  }

  predicate RequestAt(k: Setup, s: State, events: seq<Event>, i: nat)
    requires AllSensible(events) && i < |events|
  {
    RequestAccepted(k, Run(k, s, events[..i]), events[i])
  }

  /** Event `i` is the last request accepted in a run. */
  ghost predicate LastRequest(k: Setup, s: State, events: seq<Event>, i: nat)
    requires AllSensible(events)
  {
    i < |events| && RequestAt(k, s, events, i) && forall m: nat :: i < m < |events| ==> !RequestAt(k, s, events, m)
  }

  lemma {:induction false} NonceOfLastRequest(k: Setup, s: State, events: seq<Event>, i: nat)
    requires AllSensible(events) && LastRequest(k, s, events, i)
    ensures Run(k, s, events).serverNonce == events[i].cmd[2 + HASH_SIZE..]
    decreases |events|
  {
    var n := |events| - 1;
    var before := events[..n];
    StepNonces(k, Run(k, s, before), events[n]);
    if i < n {
      assert !RequestAt(k, s, events, n);
      forall m: nat | i <= m < n ensures RequestAt(k, s, before, m) == RequestAt(k, s, events, m) {
        assert before[..m] == events[..m];
      }
      NonceOfLastRequest(k, s, before, i);
    }
  }

  /**
   In every run, a signature is accepted exactly when the expected server made it over the nonce that was drawn when
   the connection opened and the nonce of the last request, for the certificate of the peer.
   */
  lemma SignatureDecidesInRun(k: Setup, s: State, events: seq<Event>, j: nat, i: nat, named: seq<byte>,
                              serverNonce: seq<byte>, peer: seq<byte>, cert: seq<byte>, signature: seq<byte>)
    requires AllSensible(events) && |cert| < 0x1_0000 && !Run(k, s, events).serverOk
    requires ThisConnection(events, j) && events[j].Opened? && events[j].sendOk
    requires LastRequest(k, s, events, i) && events[i].cmd == RequestMessage(named, serverNonce) && |named| == 48
    ensures Step(k, Run(k, s, events), Received(peer, VerifyMessage(cert, signature))).0.serverOk <==>
            Signs(k, peer, cert, signature, events[j].nonce, serverNonce)
  {
    NonceOfConnection(k, s, events, j);
    NonceOfLastRequest(k, s, events, i);
    assert events[i].cmd[2 + HASH_SIZE..] == serverNonce;
    SignatureDecides(k, Run(k, s, events), peer, cert, signature);
  }

  /** A confirmation authenticates the channel exactly when the server is accepted already. */
  lemma ConfirmDecides(k: Setup, s: State, peer: seq<byte>)
    requires !s.Authenticated()
    ensures var (t, fx) := Step(k, s, Received(peer, CONFIRM_MESSAGE));
      && t.agentOk && t.serverOk == s.serverOk
      && fx == if s.serverOk then [SendAgentTag, EmitConnected(1)] else []
  {
  }

  /** The whole handshake with a server that is not remembered: what the agent sends, and how it ends. */
  lemma HandshakeCompletes(k: Setup, s: State, peer: seq<byte>, nonce: seq<byte>, serverNonce: seq<byte>,
                           cert: seq<byte>, signature: seq<byte>)
    requires var h := k.crypto.certHash(peer); |h| == |serverNonce| == 48 && s.tlsHash != Some(h)
    requires |cert| < 0x1_0000 && Signs(k, peer, cert, signature, nonce, serverNonce)
    ensures var h := k.crypto.certHash(peer);
      var (s1, opening) := Step(k, s, Opened(peer, true, nonce));
      var (s2, proof) := Step(k, s1, Received(peer, RequestMessage(h, serverNonce)));
      var (s3, accepting) := Step(k, s2, Received(peer, VerifyMessage(cert, signature)));
      var (s4, announcing) := Step(k, s3, Received(peer, CONFIRM_MESSAGE));
      && opening == [SendServerId(k.serverHash), SendAuthRequest(h, nonce)]
      && proof == [SendProof(k.crypto.hash(h + serverNonce + nonce))]
      && accepting == [StoreTlsHash(h), SendAgentInfo]
      && announcing == [SendAgentTag, EmitConnected(1)]
      && s4.Authenticated() && s4.tlsHash == Some(h)
  {
    var h := k.crypto.certHash(peer);
    var s1 := Step(k, s, Opened(peer, true, nonce)).0;
    RequestDecides(k, s1, peer, h, serverNonce);
    var s2 := s1.(serverNonce := serverNonce);
    SignatureDecides(k, s2, peer, cert, signature);
    ConfirmDecides(k, Step(k, s2, Received(peer, VerifyMessage(cert, signature))).0, peer);
  }

  /** A server that is remembered needs to confirm only, and is told so before anything else. */
  lemma RememberedNeedsOnlyConfirm(k: Setup, s: State, peer: seq<byte>, nonce: seq<byte>)
    requires var h := k.crypto.certHash(peer); |h| == 48 && s.tlsHash == Some(h)
    ensures var h := k.crypto.certHash(peer);
      var (s1, opening) := Step(k, s, Opened(peer, true, nonce));
      var (s2, announcing) := Step(k, s1, Received(peer, CONFIRM_MESSAGE));
      && opening == [SendServerId(k.serverHash), SendAuthConfirm, SendAuthRequest(h, nonce), SendAgentInfo]
      && announcing == [SendAgentTag, EmitConnected(1)] && s2.Authenticated()
  {
    ConfirmDecides(k, Step(k, s, Opened(peer, true, nonce)).0, peer);
  }

  /** Where a command goes once both sides are accepted, by its number. */
  lemma CommandIsDelivered(k: Setup, s: State, peer: seq<byte>, command: nat, request: nat, rest: seq<byte>)
    requires command < 0x1_0000 && request < 0x1_0000 && s.Authenticated()
    ensures var m := ToBE16(command) + ToBE16(request) + rest;
      Step(k, s, Received(peer, m)) ==
      (s, if command < 10 then [] else if command >= 1000 then [ToScript(m)] else [ToBuiltin(command, request, m)])
  {
    var a, b := ToBE16(command), ToBE16(request);
    var m := a + b + rest;
    assert m[0] == a[0] && m[1] == a[1] && m[2] == b[0] && m[3] == b[1];
    assert m[0] == OPEN_BRACE ==> command >= 1000;
  }

  /** A connection whose opening cannot be written to accepts a signature made for the connection before it. */
  lemma OldSignatureCountsAgain(k: Setup, s: State, peer: seq<byte>, cmd: seq<byte>, nonce: seq<byte>)
    requires |cmd| >= 2 && !s.serverOk && !s.agentOk && Verified(k, peer, s.agentNonce, s.serverNonce, cmd)
    ensures Run(k, s, [Received(peer, cmd), Closed([]), Opened(peer, false, nonce), Received(peer, cmd)]).serverOk
  {
    var events := [Received(peer, cmd), Closed([]), Opened(peer, false, nonce), Received(peer, cmd)];
    var e0, e1, e2 := events[..1], events[..2], events[..3];
    assert e0[..0] == [] && e1[..1] == e0 && e2[..2] == e1;
    var t0 := Step(k, s, events[0]).0;
    assert Run(k, s, e0) == t0 && t0.agentNonce == s.agentNonce && t0.serverNonce == s.serverNonce;
    var t1 := Step(k, t0, Closed([])).0;
    assert Run(k, s, e1) == t1;
    var t2 := Step(k, t1, Opened(peer, false, nonce)).0;
    assert Run(k, s, e2) == t2 && !t2.Authenticated();
  }

  predicate ServerCommand(fx: Effect) { fx.ToScript? || fx.ToBuiltin? }

  /** The effects that only an accepted server may cause. */
  predicate NeedsServer(fx: Effect) { ServerCommand(fx) || fx.SendAgentInfo? || fx.SendAgentTag? || fx.EmitConnected? }

  /** Which events let a server command through, and what the other privileged effects presuppose. */
  lemma StepEffects(k: Setup, s: State, e: Event)
    requires Sensible(e)
    ensures var fx := Step(k, s, e).1;
      && ((exists i :: 0 <= i < |fx| && ServerCommand(fx[i])) <==>
          (s.Authenticated() && e.Received? && BE16(e.cmd, 0) >= 10
           && (BE16(e.cmd, 0) >= 1000 || |e.cmd| >= 4)))
      && ((exists i :: 0 <= i < |fx| && NeedsServer(fx[i])) ==> s.serverOk || AcceptsServer(k, s, e))
  {
    var fx := Step(k, s, e).1;
    if e.Received? && s.Authenticated() {
      var command := BE16(e.cmd, 0);
      assert e.cmd[0] == OPEN_BRACE ==> command >= 1000;
      if command >= 10 && (command >= 1000 || |e.cmd| >= 4) {
        assert ServerCommand(fx[0]);
      }
    }
  }

  /**
   A command numbered 10 or more reaches a script or a built-in handler exactly when the open connection
   accepted the server and was confirmed by it; the agent's details leave it only for an accepted server.
   */
  lemma CommandsNeedBoth(k: Setup, s: State, events: seq<Event>, e: Event)
    requires AllSensible(events) && Sensible(e) && !s.serverOk && !s.agentOk
    ensures var fx := Step(k, Run(k, s, events), e).1;
      && ((exists i :: 0 <= i < |fx| && ServerCommand(fx[i])) <==>
          (ServerAccepted(k, s, events) && AgentAccepted(events) && e.Received?
           && BE16(e.cmd, 0) >= 10 && (BE16(e.cmd, 0) >= 1000 || |e.cmd| >= 4)))
      && ((exists i :: 0 <= i < |fx| && NeedsServer(fx[i])) ==>
          ServerAccepted(k, s, events) || AcceptsServer(k, Run(k, s, events), e))
  {
    MaskIsHistory(k, s, events);
    StepEffects(k, Run(k, s, events), e);
  }

  /** While not authenticated, anything but the three authentication messages is ignored. */
  lemma OtherCommandsIgnored(k: Setup, s: State, peer: seq<byte>, cmd: seq<byte>)
    requires |cmd| >= 2 && !s.Authenticated()
    requires BE16(cmd, 0) !in {AUTH_REQUEST, AUTH_VERIFY, AUTH_CONFIRM}
    ensures Step(k, s, Received(peer, cmd)) == (s, [])
  {
  }

  lemma CacheChangesOnlyBySignature(k: Setup, s: State, e: Event)
    requires Sensible(e)
    ensures Step(k, s, e).0.tlsHash == if SignatureAccepted(k, s, e) then Some(k.crypto.certHash(e.peer)) else s.tlsHash
  {
  }

  /** A certificate hash remembered during the run is the one of a peer that signed this agent's nonces. */
  lemma {:induction false} CacheProvenance(k: Setup, s: State, events: seq<Event>)
    requires AllSensible(events)
    ensures var h := Run(k, s, events).tlsHash;
      || h == s.tlsHash
      || exists j: nat :: j < |events| && SignatureAccepted(k, Run(k, s, events[..j]), events[j])
                          && h == Some(k.crypto.certHash(events[j].peer))
    decreases |events|
  {
    if events != [] {
      var n := |events| - 1;
      var before := events[..n];
      CacheProvenance(k, s, before);
      CacheChangesOnlyBySignature(k, Run(k, s, before), events[n]);
      var h := Run(k, s, events).tlsHash;
      if SignatureAccepted(k, Run(k, s, before), events[n]) {
        assert events[..n] == before;
      } else if h != s.tlsHash {
        var j: nat :| j < n && SignatureAccepted(k, Run(k, s, before[..j]), before[j])
                      && h == Some(k.crypto.certHash(before[j].peer));
        assert events[..j] == before[..j] && events[j] == before[j];
      }
    }
  }

  // ----- The Connected event -----

  /** 1, 0, 1, 0, ... and the last value says whether the channel is authenticated. */
  predicate GoodTrace(trace: seq<nat>, authenticated: bool) {
    && (forall i :: 0 <= i < |trace| ==> trace[i] == 1 - i % 2)
    && (|trace| % 2 == 1 <==> authenticated)
  }

  predicate Coherent(s: State) {
    forall id :: id in s.listeners ==> GoodTrace(s.listeners[id], s.Authenticated())
  }

  /** No connection opens over an authenticated one, and nobody subscribes from a disconnect handler. */
  predicate Orderly(s: State, e: Event) {
    s.Authenticated() ==>
      match e
      case Opened(_, _, _) => s.listeners == map[]
      case Closed(late) => late == []
      case _ => true
  }

  lemma {:induction false} JoinedKeeps(listeners: map<nat, seq<nat>>, ids: seq<nat>, trace: seq<nat>)
    ensures forall id :: id in Joined(listeners, ids, trace) <==> id in listeners || id in ids
    ensures forall id :: id in ids ==> Joined(listeners, ids, trace)[id] == trace
    ensures forall id :: id in listeners && id !in ids ==> Joined(listeners, ids, trace)[id] == listeners[id]
    decreases |ids|
  {
    if ids != [] { JoinedKeeps(listeners[ids[0] := trace], ids[1..], trace); }
  }

  lemma TellExtends(trace: seq<nat>, authenticated: bool, value: nat)
    requires GoodTrace(trace, authenticated)
    ensures GoodTrace(trace + [value], !authenticated) <==> value == if authenticated then 0 else 1
  {
    var next := trace + [value];
    assert next[|trace|] == value;
    forall i | 0 <= i < |trace| ensures next[i] == 1 - i % 2 { }
  }

  /** One event keeps every subscriber's view in step with the channel exactly when it is orderly. */
  lemma CoherenceKeptIffOrderly(k: Setup, s: State, e: Event)
    requires Sensible(e) && Coherent(s)
    ensures Coherent(Step(k, s, e).0) <==> Orderly(s, e)
  {
    var t := Step(k, s, e).0;
    match e
    case Opened(_, _, _) =>
      if s.Authenticated() && s.listeners != map[] {
        var id :| id in s.listeners;
        assert !GoodTrace(t.listeners[id], t.Authenticated());
      }
    case Received(peer, cmd) =>
      if t.listeners != s.listeners {
        forall id | id in t.listeners ensures GoodTrace(t.listeners[id], true) {
          TellExtends(s.listeners[id], false, 1);
        }
      }
    case Closed(late) =>
      if s.Authenticated() {
        JoinedKeeps(Tell(s.listeners, 0), late, [1]);
        if late == [] {
          forall id | id in t.listeners ensures GoodTrace(t.listeners[id], false) {
            TellExtends(s.listeners[id], true, 0);
          }
        } else {
          assert late[0] in t.listeners && t.listeners[late[0]] == [1];
          assert !GoodTrace([1], false);
        }
      }
    case Subscribed(id) =>
    case HeapReplaced =>
  }

  predicate OrderlyAt(k: Setup, s: State, events: seq<Event>, j: nat)
    requires AllSensible(events) && j < |events|
  {
    Orderly(Run(k, s, events[..j]), events[j])
  }

  predicate CoherentAt(k: Setup, s: State, events: seq<Event>, j: nat)
    requires AllSensible(events) && j <= |events|
  {
    Coherent(Run(k, s, events[..j]))
  }

  lemma CoherentStep(k: Setup, s: State, events: seq<Event>, j: nat)
    requires AllSensible(events) && j < |events| && CoherentAt(k, s, events, j)
    ensures CoherentAt(k, s, events, j + 1) <==> OrderlyAt(k, s, events, j)
  {
    assert events[..j + 1][..j] == events[..j];
    CoherenceKeptIffOrderly(k, Run(k, s, events[..j]), events[j]);
  }

  /** Whenever a script subscribes, it sees 1, 0, 1, 0, ... in every run of orderly events. */
  lemma {:induction false} ConnectedAlternates(k: Setup, s: State, events: seq<Event>, n: nat)
    requires AllSensible(events) && Coherent(s) && n <= |events|
    requires forall j: nat :: j < n ==> OrderlyAt(k, s, events, j)
    ensures CoherentAt(k, s, events, n)
    decreases n
  {
    if n > 0 {
      ConnectedAlternates(k, s, events, n - 1);
      CoherentStep(k, s, events, n - 1);
    }
  }

  /** And they all see that throughout a run exactly when all its events are orderly. */
  lemma ConnectedAlternatesIff(k: Setup, s: State, events: seq<Event>)
    requires AllSensible(events) && Coherent(s)
    ensures (forall j: nat :: j <= |events| ==> CoherentAt(k, s, events, j)) <==>
            (forall j: nat :: j < |events| ==> OrderlyAt(k, s, events, j))
  {
    if forall j: nat :: j <= |events| ==> CoherentAt(k, s, events, j) {
      forall j: nat | j < |events| ensures OrderlyAt(k, s, events, j) {
        assert CoherentAt(k, s, events, j + 1);
        CoherentStep(k, s, events, j);
      }
    }
    if forall j: nat :: j < |events| ==> OrderlyAt(k, s, events, j) {
      forall j: nat | j <= |events| ensures CoherentAt(k, s, events, j) {
        ConnectedAlternates(k, s, events, j);
      }
    }
  }

  /** A subscriber added by a disconnect handler is told 1 while disconnecting and 1 again at the next login. */
  lemma LateSubscriberHearsOneTwice(k: Setup, s: State, id: nat, peer: seq<byte>, nonce: seq<byte>, confirm: seq<byte>)
    requires s.Authenticated()
    requires CacheMatches(k.crypto, s, peer)
    requires |confirm| >= 2 && BE16(confirm, 0) == AUTH_CONFIRM
    ensures var t := Run(k, s, [Closed([id]), Opened(peer, true, nonce), Received(peer, confirm)]);
      id in t.listeners && t.listeners[id] == [1, 1]
  {
    var events := [Closed([id]), Opened(peer, true, nonce), Received(peer, confirm)];
    assert events[..2] == [Closed([id]), Opened(peer, true, nonce)];
    assert events[..2][..1] == [Closed([id])];
    assert events[..2][..1][..0] == [];
    JoinedKeeps(Tell(s.listeners, 0), [id], [1]);
    var closed := Step(k, s, Closed([id])).0;
    assert Run(k, s, events[..2][..1]) == closed;
    var reopened := Step(k, closed, Opened(peer, true, nonce)).0;
    assert Run(k, s, events[..2]) == reopened;
    assert reopened.serverOk && id in reopened.listeners && reopened.listeners[id] == [1];
  }

  // ----- The agent's fields -----

  class Channel {
    const setup: Setup
    var serverAuthState: bv2  // 1: server accepted, 2: agent accepted
    var serverConnectionState: nat
    var agentNonce: seq<byte>
    var serverNonce: seq<byte>
    var tlsHash: Option<seq<byte>>  // database entry ServerTlsCertHash
    var listeners: map<nat, seq<nat>>

    function Abs(): State
      reads this
    {
      State(serverAuthState & 1 != 0, serverAuthState & 2 != 0, serverConnectionState,
            agentNonce, serverNonce, tlsHash, listeners)
    }

    constructor (setup: Setup, stored: Option<seq<byte>>)
      ensures this.setup == setup
      ensures Abs() == State(false, false, 0, [], [], stored, map[])
    {
      this.setup := setup;
      serverAuthState, serverConnectionState := 0, 0;
      agentNonce, serverNonce, tlsHash, listeners := [], [], stored, map[];
    }

    method ServerAuthenticated() returns (fx: seq<Effect>)
      modifies this`listeners
      ensures serverAuthState == 3 ==> Abs() == Announce(old(Abs())).0 && fx == Announce(old(Abs())).1
    {
      fx := [SendAgentTag];
      if serverAuthState == 3 {
        listeners := Tell(listeners, 1);
        fx := fx + [EmitConnected(1)];
        assert fx == [SendAgentTag, EmitConnected(1)];
      }
    }

    method SendInfo() returns (fx: seq<Effect>)
      modifies this`listeners
      ensures Abs() == Announce(old(Abs())).0 && fx == [SendAgentInfo] + Announce(old(Abs())).1
    {
      fx := [SendAgentInfo];
      if serverAuthState == 3 {
        var more := ServerAuthenticated();
        fx := fx + more;
      }
    }

    method OnAuthVerify(peer: seq<byte>, cmd: seq<byte>) returns (fx: seq<Effect>)
      requires |cmd| >= 2 && BE16(cmd, 0) == AUTH_VERIFY && serverAuthState != 3
      modifies this
      ensures Abs() == Step(setup, old(Abs()), Received(peer, cmd)).0
      ensures fx == Step(setup, old(Abs()), Received(peer, cmd)).1
    {
      fx := [];
      var c := setup.crypto;
      if |cmd| > 8 {
        var certLen := BE16(cmd, 2);
        if |cmd| > VERIFY_HEADER_SIZE + certLen {
          var cert := c.parseCert(cmd[4..4 + certLen]);
          if cert.None? { return; }
          if c.keyDigest384(cert.value) != setup.serverHash {
            if |setup.serverHash| < OLD_HASH_SIZE
              || c.keyDigest256(cert.value) != setup.serverHash[..OLD_HASH_SIZE]
            {
              return;
            }
          }
          var peerHash := c.certHash(peer);
          var digest := c.hash(peerHash + agentNonce + serverNonce);
          var sigLen := (|cmd| - (VERIFY_HEADER_SIZE + certLen)) % 0x1_0000;
          if c.verify(cert.value, digest, cmd[4 + certLen..4 + certLen + sigLen]) {
            serverAuthState := serverAuthState | 1;
            tlsHash := Some(peerHash);
            fx := SendInfo();
            fx := [StoreTlsHash(peerHash)] + fx;
          }
        }
      }
    }

    method ProcessCommand(peer: seq<byte>, cmd: seq<byte>) returns (fx: seq<Effect>)
      requires |cmd| >= 2
      modifies this
      ensures Abs() == Step(setup, old(Abs()), Received(peer, cmd)).0
      ensures fx == Step(setup, old(Abs()), Received(peer, cmd)).1
    {
      fx := [];
      var command := BE16(cmd, 0);
      var c := setup.crypto;
      if serverAuthState != 3 {
        if command == AUTH_REQUEST {
          if |cmd| == AUTH_REQUEST_SIZE {
            var presented := cmd[2..2 + HASH_SIZE];
            if c.certHash(peer) != presented {
              if c.keyHash(peer) != presented { return; }
            }
            serverNonce := cmd[2 + HASH_SIZE..];
            fx := [SendProof(c.hash(presented + serverNonce + agentNonce))];
          }
        } else if command == AUTH_VERIFY {
          fx := OnAuthVerify(peer, cmd);
        } else if command == AUTH_CONFIRM {
          serverAuthState := serverAuthState | 2;
          if serverAuthState == 3 { fx := ServerAuthenticated(); }
        }
        return;
      }

      if command < 10 { return; }
      if cmd[0] == OPEN_BRACE || command >= 1000 { return [ToScript(cmd)]; }
      if |cmd| < 4 { return; }
      fx := [ToBuiltin(command, BE16(cmd, 2), cmd)];
    }

    method OnOpened(peer: seq<byte>, sendOk: bool, nonce: seq<byte>) returns (fx: seq<Effect>)
      modifies this
      ensures Abs() == Step(setup, old(Abs()), Opened(peer, sendOk, nonce)).0
      ensures fx == Step(setup, old(Abs()), Opened(peer, sendOk, nonce)).1
    {
      serverAuthState := 0;
      serverConnectionState := 2;
      fx := [SendServerId(setup.serverHash)];
      if !sendOk { return; }
      var peerHash := setup.crypto.certHash(peer);
      if tlsHash.Some? && |tlsHash.value| == HASH_SIZE && tlsHash.value == peerHash {
        serverAuthState := 1;
        fx := fx + [SendAuthConfirm];
      }
      agentNonce := nonce;
      fx := fx + [SendAuthRequest(peerHash, nonce)];
      if serverAuthState == 1 {
        var more := SendInfo();
        fx := fx + more;
      }
    }

    /** `late` are the listeners that handlers of the disconnect notice add while it is dispatched. */
    method OnClosed(late: seq<nat>) returns (fx: seq<Effect>)
      modifies this
      ensures Abs() == Step(setup, old(Abs()), Closed(late)).0
      ensures fx == Step(setup, old(Abs()), Closed(late)).1
    {
      fx := [];
      if serverAuthState == 3 {
        listeners := Tell(listeners, 0);
        fx := [EmitConnected(0)];
        ghost var told := listeners;
        for i := 0 to |late|
          invariant serverAuthState == 3
          invariant agentNonce == old(agentNonce) && serverNonce == old(serverNonce) && tlsHash == old(tlsHash)
          invariant Joined(told, late, [1]) == Joined(listeners, late[i..], [1])
        {
          OnSubscribed(late[i]);
          assert late[i..][1..] == late[i + 1..];
        }
      }
      serverAuthState := 0;
      serverConnectionState := 0;
    }

    /** The hook that replays the current state to a new `Connected` subscriber. */
    method OnSubscribed(id: nat)
      modifies this`listeners
      ensures Abs() == Step(setup, old(Abs()), Subscribed(id)).0
    {
      var trace: seq<nat> := [];
      if serverAuthState == 3 { trace := [1]; }
      listeners := listeners[id := trace];
    }
  }
}
