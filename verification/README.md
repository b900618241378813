# A model of the agent's control channel and of three script services

The agent keeps one connection to its server. This project models what that connection does to the agent, and
proves properties of every run, every input and every interleaving:

* `Reassembly.dfy`: messages that arrive in pieces (fragmentation, section 5.4 of RFC 6455), the growable and capped
  buffer, and its discard mode;
* `ChannelAuth.dfy`: the two-bit authentication mask, the nonces, the remembered certificate hash, the gate on server
  commands, and the `Connected` event; `ControlChannel.dfy` joins it with reassembly;
* `ServerRotation.dfy` and `ControlConnection.dfy`: which server is tried next and by which route, the mutually
  recursive connect functions, the retry delay, and the watchdog record of the outstanding request;
* `CoreLifecycle.dfy`: the core module in the database, its script heap, its launch timer, and the confirmations;
* `FileHash.dfy` and `SelfUpdate.dfy`: the hash of an executable with settings embedded in it, and the block transfer
  that the hash decides about;
* `RateLimiter.dfy` and `MacCheck.dfy`: the console rate limit, and the comparison of hardware addresses;
* `AsyncWorker.dfy` and `CallbackPool.dfy`: native calls on a worker thread, and the pool of 22 native callbacks;
* `Decompressor.dfy` and `EncryptionStream.dfy` (with `DuplexStream.dfy`): a decompressor that can be paused in the
  middle of a buffer, and the counter-mode cipher streams (section 6.5 of NIST SP 800-38A).

Each file has a specification of one step, the theorems about runs of steps, and a class whose methods update fields
as the C code does and are proved equal to the specification. `AsyncWorker.dfy` is about two threads, and is a state
machine whose runs are all interleavings. Hashes, signatures, the block cipher, the random numbers, the compressed
format and the network are parameters about which nothing, or only a stated contract, is assumed. What a step does is
also stated without that specification: by the octets of messages, files and streams, by sets and sequences, or by
reference definitions of their own.

Properties that the code does not have in general are stated with the exact condition under which it has them:

* the rotation reaches every server for ever exactly when no attempt can stall: an undiscovered `local` server or an
  unusable proxy setting keeps its turn (`ServerRotation.FairIffNothingStalls`), and the first server exists exactly
  when the signed random number is not negative or is a multiple of the number of servers
  (`ServerRotation.FirstServerExistsIff`);
* `Connected` alternates exactly as long as no connection opens over an authenticated one and nobody subscribes from a
  disconnect handler (`ChannelAuth.CoherenceKeptIffOrderly`);
* the agent's handle to the launch timer stays the armed one exactly as long as no delete command and no undecodable
  core arrive while approval is awaited (`CoreLifecycle.HandleStaysLiveIff`), and `restartCore` keeps one core per heap
  exactly when no approval is awaited or there is nothing to launch (`CoreLifecycle.RestartIsSafeIff`);
* the agent nonce that a signature covers is the one drawn for its connection exactly when the opening could be written
  to (`ChannelAuth.NonceIsThisConnectionsIff`); otherwise an old signature counts again
  (`ChannelAuth.OldSignatureCountsAgain`), and the server's nonce outlives its connection in any case;
* the agent uses a timer of a destroyed heap only after a delete command while approval is awaited
  (`CoreLifecycle.HandleDiesIff`), exactly at the approvals that come then (`CoreLifecycle.StaleUseOfRunIff`);
* embedding settings leaves the hash unchanged exactly when there is an executable and no trailer already that cuts it
  short (`FileHash.EmbeddingIsInvisibleIff`): a trailer with a length that gives the end 0, an end inside the headers or
  one past the file cuts nothing, and of an empty executable the whole file is hashed;
* a caller that asks for the embedded settings gets the same as the settings file exactly when the length in the trailer
  is not longer than what is left to read, or is 2^31 or more and ends the agent (`FileHash.CallersAgreeIff`);
* an empty update block is never acknowledged, since nothing is counted as written (`SelfUpdate.Updater.OnBlock`);
* the node identity is reset exactly when some start finds addresses but none of the first list recorded, so a gradual
  replacement resets it too (`MacCheck.ResetIffFirstListIsLost`, `MacCheck.GradualChangeResets`);
* after an abort the worker exits exactly when no promise is outstanding or it is not waiting for work
  (`AsyncWorker.AbortEndsTheWorkerIff`, `AsyncWorker.AbortCanStrand`), and the abort posts on a destroyed semaphore in
  some interleaving exactly when the worker has not yet got back to waiting (`AsyncWorker.AbortCanBeLateIff`); a
  promise that it rejects can be resolved as well exactly when its call had been handed to the worker
  (`AsyncWorker.RejectedCanResolveIff`);
* releasing a callback keeps the pool sound exactly when it is in use (`CallbackPool.PartitionKeptIff`); one asked
  for with n parameters is dispatched with n + 1 words (`CallbackPool.Pool.Process`);
* a decompressor that is ended has sent everything exactly when the input it kept adds nothing and what is in the codec
  fits in one last buffer of a finished stream, or is nothing (`Decompressor.DeCompressor.End`,
  `Decompressor.EndDropsWhatIsKept`);
* a write is reported as an error, and a resumed reader's stream is ended, over valid input exactly when the codec has
  nothing left to do after the last full buffer (`Decompressor.DeCompressor.Write`, `Decompressor.DeCompressor.Resume`):
  so for a write of nothing, and for input that fills the buffers exactly (`Decompressor.EmptyWriteFails`,
  `Decompressor.ExactFillFails`, `Decompressor.ResumeEndsTheStream`); nothing is lost by either.

## Model

| member | source | states |
|---|---|---|
| `Reassembly.DeliveredIsReference` | meshcore/agentcore.c:3740-3786 | In every run what the bounded buffer delivers is what collecting without a limit and then keeping the messages of 2 octets to 64 MiB delivers |
| `Reassembly.GroupEndsClean` | meshcore/agentcore.c:3770-3784 | The last piece of a message leaves nothing behind for the next one, delivered or discarded |
| `Reassembly.WireReference` | meshcore/agentcore.c:3743-3786 | Messages cut into any groups of pieces give exactly those of an allowed size, in order |
| `Reassembly.UnfinishedDeliversNothing` | meshcore/agentcore.c:3942-3943 | Pieces left unfinished at a disconnect are never delivered |
| `Reassembly.FragmentationIsInvisible` | meshcore/agentcore.c:3743-3788 | From any state of the handler, one connection delivers exactly the allowed messages whatever their fragmentation, and an oversized one does not touch its neighbours |
| `Reassembly.DeliveredIff` | meshcore/agentcore.c:3743-3786 | One message of any size, however cut, is delivered exactly with 2 to 67108864 octets |
| `Reassembly.DoublingStaysCapacity` | meshcore/agentcore.c:3715-3717 | Doubling a capacity that is too small for an allowed message stays a capacity and within the limit, so the clamp never shrinks it |
| `Reassembly.CapacityIsBounded` | meshcore/agentcore.c:3690 | A capacity is 0 or 131072 times a power of two up to 2^9, at most 64 MiB |
| `Reassembly.PartialBuffer.ResetPartial` | meshcore/agentcore.c:3692-3698 | Nothing is collected any more and the allocation is gone; the discard mode stays |
| `Reassembly.PartialBuffer.Grow` | meshcore/agentcore.c:3713-3723 | Contents kept; the new size is a capacity, less than twice what is needed or the first allocation; the octets copied so far stay below it |
| `Reassembly.PartialBuffer.AppendPartial` | meshcore/agentcore.c:3707-3727 | Refuses exactly what would exceed 64 MiB, and otherwise the data follow what was collected; the buffer never shrinks |
| `Reassembly.PartialBuffer.OnPiece` | meshcore/agentcore.c:3742-3786 | The array implementation refines the step of the specification, and frees the buffer at the end of a message |
| `Reassembly.PartialBuffer.OnBoundary` | meshcore/agentcore.c:3787-3790 | Opening or ending a connection forgets pieces and discard mode |
| `ChannelAuth.MaskIsHistory` | meshcore/agentcore.c:3844-3892 | In every run each bit is set exactly when the history of the open connection gives the reason: a remembered certificate or an accepted signature for the server, a confirmation for the agent |
| `ChannelAuth.ServerReasonGrows` | meshcore/agentcore.c:3844-3944 | The reason for the server bit outlasts an event exactly when that is no opening or closing |
| `ChannelAuth.AgentReasonGrows` | meshcore/agentcore.c:3844-3944 | So does the reason for the agent bit |
| `ChannelAuth.EstablishedWhileOpen` | meshcore/agentcore.c:3848-3944 | In every run the connection state is 2 from an opening to the disconnect that follows, and 0 after it |
| `ChannelAuth.StepNonces` | meshcore/agentcore.c:3852-3887 | The agent's nonce changes only when a connection opens and can be written to, the server's only by an accepted request |
| `ChannelAuth.NonceOfConnection` | meshcore/agentcore.c:3852-3887 | As long as a connection lasts the agent nonce in use is the one drawn when it opened, or the one from before if that opening could not be written to |
| `ChannelAuth.NonceIsThisConnectionsIff` | meshcore/agentcore.c:3852-3887 | The nonce to be signed belongs to the open connection exactly when its opening could be written to, unless the draw repeats |
| `ChannelAuth.ServerBitCoversNonce` | meshcore/agentcore.c:3098-3160 | In every run, as long as a connection lasts, the server bit is set exactly when its certificate was remembered or the expected server has since signed the nonce in use |
| `ChannelAuth.ServerNonceIsLastRequest` | meshcore/agentcore.c:3023-3047 | In every run the server's nonce is that of the last request accepted, in whichever connection; no opening resets it |
| `ChannelAuth.SignatureDecides` | meshcore/agentcore.c:3098-3160 | A signature message, by its octets, is accepted exactly when its certificate has the expected key (by either hash) and signed the hash of the peer's certificate hash, the agent's nonce and the server's nonce; and what it does then |
| `ChannelAuth.SignatureDecidesInRun` | meshcore/agentcore.c:3138-3147 | In every run the nonces so signed are the one drawn when the connection opened and the one of the last request accepted |
| `ChannelAuth.NonceOfLastRequest` | meshcore/agentcore.c:3044 | The server's nonce is in the message of that request |
| `ChannelAuth.RequestDecides` | meshcore/agentcore.c:3023-3095 | A request, by its octets, is answered exactly when it names the certificate or the key of the peer, with the hash of what it names, its nonce and the agent's nonce |
| `ChannelAuth.ConfirmDecides` | meshcore/agentcore.c:3169-3178 | A confirmation announces the channel exactly when the server is accepted |
| `ChannelAuth.HandshakeCompletes` | meshcore/agentcore.c:3848-3890 | The handshake with a new server, message by message: what the agent sends, and that it ends authenticated with the certificate remembered |
| `ChannelAuth.RememberedNeedsOnlyConfirm` | meshcore/agentcore.c:3857-3890 | With a remembered server the agent says so at once, sends its information, and needs a confirmation only |
| `ChannelAuth.OldSignatureCountsAgain` | meshcore/agentcore.c:3848-3855 | The run in which a signature made for one connection is accepted in the next, whose opening could not be written to |
| `ChannelAuth.StepEffects` | meshcore/agentcore.c:3017-3192 | A step passes a command to a script or a built-in handler exactly for commands of 10 and more while both bits are set; other privileged output needs an accepted server |
| `ChannelAuth.CommandsNeedBoth` | meshcore/agentcore.c:3017-3272 | After any history, commands take effect exactly when the open connection accepted the server and was confirmed by it |
| `ChannelAuth.OtherCommandsIgnored` | meshcore/agentcore.c:3017-3187 | Before that, all but the three authentication messages change nothing and answer nothing |
| `ChannelAuth.CommandIsDelivered` | meshcore/agentcore.c:3185-3272 | Once both bits are set, a command by its octets goes nowhere below 10, to the scripts from 1000 on, and else to its built-in handler with its number and request |
| `ChannelAuth.CacheChangesOnlyBySignature` | meshcore/agentcore.c:3141-3160 | The remembered certificate hash changes only by an accepted signature, to that of the signing peer |
| `ChannelAuth.CacheProvenance` | meshcore/agentcore.c:3141-3160 | In every run, a remembered hash that is not the first one came from a verified signature of that peer over the nonces of that moment |
| `ChannelAuth.CoherenceKeptIffOrderly` | meshcore/agentcore.c:2748-2776 | A step keeps every subscriber's sequence alternating from 1 exactly when it does not open over an authenticated connection with listeners and no handler subscribes while it is told of a disconnect |
| `ChannelAuth.ConnectedAlternates` | meshcore/agentcore.c:1754-1766 | In a run that is orderly so far every subscriber, however late, has heard 1, 0, 1, 0, ... and the last value is the state |
| `ChannelAuth.ConnectedAlternatesIff` | meshcore/agentcore.c:1754-1766 | That holds throughout a run exactly when all its events are orderly |
| `ChannelAuth.LateSubscriberHearsOneTwice` | meshcore/agentcore.c:3903-3944 | The run that breaks it: a subscriber added while a disconnect is announced hears 1 twice |
| `ChannelAuth.Channel.ServerAuthenticated` | meshcore/agentcore.c:2748-2776 | With both bits set the agent tag goes out and every subscriber is told 1 |
| `ChannelAuth.Channel.SendInfo` | meshcore/agentcore.c:2782-2854 | The agent's information goes out, and the announcement when both bits are set |
| `ChannelAuth.Channel.OnAuthVerify` | meshcore/agentcore.c:3098-3167 | The signature message refines the specification: server bit, remembered hash and output, only when the expected server signed these nonces |
| `ChannelAuth.Channel.ProcessCommand` | meshcore/agentcore.c:3004-3192 | Handling any message of two octets or more refines the specification, state and output |
| `ChannelAuth.Channel.OnOpened` | meshcore/agentcore.c:3844-3892 | A new connection starts with no bit but the one a remembered certificate gives, a new nonce, and the stated output |
| `ChannelAuth.Channel.OnClosed` | meshcore/agentcore.c:3896-3944 | A disconnect clears both bits and tells every subscriber 0 exactly when both were set |
| `ChannelAuth.Channel.OnSubscribed` | meshcore/agentcore.c:1754-1766 | A late subscriber is told 1 exactly when both bits are set |
| `ControlChannel.PiecesActAsWhole` | meshcore/agentcore.c:3740-3952 | In every run, whatever the fragmentation, state and effects are those of the run with every allowed message whole and the others left out |
| `ControlChannel.OneEvent` | meshcore/agentcore.c:3740-3952 | One event of the handler does what the whole message it completes does |
| `ControlChannel.RunRepresents` | meshcore/agentcore.c:3740-3786 | After any run the bounded buffer stands for exactly the pieces collected since the last message ended |
| `ControlChannel.ReassembledCommandsNeedBoth` | meshcore/agentcore.c:3017-3272 | In every run, a last piece that completes a command of an allowed size makes it take effect exactly when the open connection accepted the server and was confirmed by it, and the command is one for a handler |
| `ControlChannel.WholeCommandsNeedBoth` | meshcore/agentcore.c:3017-3272 | The same of a command that arrives whole, after any run with fragmented messages |
| `ServerRotation.AttemptInRange` | meshcore/agentcore.c:4115-4130 | 0 <= tried <= index <= N in every attempt, and a server is chosen |
| `ServerRotation.FirstServerExistsIff` | meshcore/agentcore.c:4114-4119 | The first index is a server exactly when the signed random number is not negative or divides evenly |
| `ServerRotation.FirstServerIsDrawn` | meshcore/agentcore.c:4114-4119 | The draws number the servers over and over from 0, so each server is the first for some draw |
| `ServerRotation.ProgressOfOne` | meshcore/agentcore.c:4215-4242 | An attempt that does not stall uses up one of the at most two attempts on a server, or rotates |
| `ServerRotation.Reaches` | meshcore/agentcore.c:4115-4242 | A decreasing bound on the attempts until a given server has its turn |
| `ServerRotation.EveryServerWithin4N` | meshcore/agentcore.c:4115-4242 | From any state of a run, 4N attempts that do not stall contact each of N servers, if the first of them draws a server whenever one has to be drawn |
| `ServerRotation.ProxySchedule` | meshcore/agentcore.c:4215-4426 | For any attempts with a proxy that do not stall, whatever else changes, each next server is tried by proxy and then directly |
| `ServerRotation.ProxyAndDirect` | meshcore/agentcore.c:4215-4426 | Any two such attempts try one server by proxy and then directly, and use up one of its turns |
| `ServerRotation.FirstServer` | meshcore/agentcore.c:4115-4130 | The attempts on the first server drawn are by proxy and directly, in turn, as often as its place in the list, and then its turn is over |
| `ServerRotation.ProxyScheduleFromStart` | meshcore/agentcore.c:4115-4426 | From the start: the first 2k attempts, where k is the place of the first server, are on it by proxy and directly in turn, and then the schedule by proxy and then directly goes on for ever |
| `ServerRotation.EachServerTwicePerRound` | meshcore/agentcore.c:4215-4426 | 2N attempts contain each server once by proxy and once directly |
| `ServerRotation.DirectSchedule` | meshcore/agentcore.c:4239-4242 | For any attempts without a proxy that do not stall, whatever else changes, the servers are tried in order |
| `ServerRotation.DirectScheduleFromStart` | meshcore/agentcore.c:4115-4242 | And so from the start, where the first one is drawn |
| `ServerRotation.EachServerOncePerRound` | meshcore/agentcore.c:4124-4129 | N attempts contain each server once |
| `ServerRotation.LocalTraps` | meshcore/agentcore.c:4136-4191 | Once an undiscovered `local` server has its turn, the rotation never leaves it |
| `ServerRotation.FairIffNothingStalls` | meshcore/agentcore.c:4115-4428 | In constant surroundings every server keeps getting its turn exactly when there is one server or nothing can stall |
| `ServerRotation.StallingIsUnfair` | meshcore/agentcore.c:4136-4191 | With two servers or more, surroundings that can stall starve some server |
| `ControlConnection.StepKeepsInv` | meshcore/agentcore.c:3734-3738 | Every event keeps: a request is remembered exactly while its watchdog is pending and then the agent is connecting; idle means nothing outstanding; delays in range |
| `ControlConnection.RunKeepsInv` | meshcore/agentcore.c:4000-4021 | In every run at most one request is outstanding, and each watchdog record is freed once, by firing or by a response |
| `ControlConnection.RecordsAreCounted` | meshcore/agentcore.c:4385-4389 | Records freed and pending are together all that were made |
| `ControlConnection.DelaysGrowToTheCap` | meshcore/agentcore.c:4578-4599 | In every run from the start, between two resets: a retry waits at least as long as the delay before it and less than twice that below 240000, from there on 240000 to 360000; and never less than the delays before it, up to the cap |
| `ControlConnection.StepLogs` | meshcore/agentcore.c:4578-4599 | Every event sets the delay only as it may follow the one before, and arms the single timer exactly with a delay to be waited for |
| `ControlConnection.RunDelays` | meshcore/agentcore.c:4532-4600 | In every run the sequence of delays set is such a chain, and the field holds its last |
| `ControlConnection.RunRotates` | meshcore/agentcore.c:4060-4435 | The rotation of a run is that of the sequence of its attempts, so the rotation theorems hold of runs |
| `ControlConnection.RetrySendsIff` | meshcore/agentcore.c:4060-4435 | A retry or a discovery sends one request, with its watchdog, and makes the agent connecting, exactly when the settings allow it and the route of the server can be used; another retry is armed exactly when only the server is missing |
| `ControlConnection.ConnectSendsIff` | meshcore/agentcore.c:4532-4582 | Without a delay set, an attempt with the same conditions comes at once, and leaves a first delay |
| `ControlConnection.FirstRequestIff` | meshcore/agentcore.c:4532-4582 | From the start, the first request goes out exactly under these conditions |
| `ControlConnection.GoingOnOutcome` | meshcore/agentcore.c:3729-3844 | A response that goes on frees the watchdog's record, and the first makes the connection |
| `ControlConnection.EndOutcome` | meshcore/agentcore.c:3939-4021 | When a request is over, by its response or by its watchdog, nothing is outstanding, and the agent connects again at once, later, or not at all, exactly as stated |
| `ControlConnection.QuietOutcome` | meshcore/agentcore.c:4874-4911 | A change of address while idle sets a retry in 3000 ms; reaching a server sets the delay to 0; otherwise a busy agent does nothing |
| `ControlConnection.DelaysAreAllPossible` | meshcore/agentcore.c:4584-4599 | The delays that can follow one are exactly those of its range |
| `ControlConnection.FirstDelaysAreAllPossible` | meshcore/agentcore.c:4578-4582 | The first delays are exactly 500 to 1999 |
| `ControlConnection.AwakeUnlessEndedByReply` | meshcore/agentcore.c:3939-3976 | With complete settings an event leaves the agent without a next step exactly when it ends the last request with a header, or during shutdown, and no retry is pending |
| `ControlConnection.Agent.Connect` | meshcore/agentcore.c:4532-4600 | Terminates, and either tries at once with a first delay of 500 to 1999 or arms the single retry timer |
| `ControlConnection.Agent.ConnectEx` | meshcore/agentcore.c:4060-4435 | Terminates, does nothing unless idle, and otherwise makes one attempt of the rotation |
| `ControlConnection.Agent.FollowRoute` | meshcore/agentcore.c:4186-4435 | A skipped or unresolved server leads back to a retry; a contacted one leaves one remembered request and the state connecting |
| `ControlConnection.Agent.PickRoute` | meshcore/agentcore.c:4114-4242 | The updates of the indices and of the proxy fields are those of the rotation |
| `ControlConnection.Agent.OnResponse` | meshcore/agentcore.c:3729-3976 | Any response first releases the watchdog; an ending one makes the agent idle; one without a header connects again unless shutting down |
| `ControlConnection.Agent.OnWatchdog` | meshcore/agentcore.c:4000-4021 | A watchdog that fires releases its record, ends the request, and connects again |
| `ControlConnection.Agent.OnRetry` | meshcore/agentcore.c:4597 | The retry timer leads to an attempt |
| `ControlConnection.Agent.OnIpChanged` | meshcore/agentcore.c:4874-4911 | While idle, a change of address replaces the retry by one in 3 seconds |
| `ControlConnection.Agent.OnInfoSent` | meshcore/agentcore.c:2842 | Reaching an accepted server starts the delays over |
| `ControlConnection.Agent.OnServerDiscovered` | meshcore/agentcore.c:685 | A server discovered while idle is tried at once |
| `CoreLifecycle.RunKeepsInv` | meshcore/agentcore.c:3279-3479 | In every run: at most one core per heap, and it is the stored one; no core while a timer is remembered or armed |
| `CoreLifecycle.StepKeepsInv` | meshcore/agentcore.c:3279-3479 | Every event keeps that |
| `CoreLifecycle.OneCorePerHeap` | meshcore/agentcore.c:5683-5753 | From startup on, no heap ever sees a second core or one that differs from the database |
| `CoreLifecycle.AnswersDescribeTheStore` | meshcore/agentcore.c:3330-3407 | Every CoreModuleHash answer describes the database as the event leaves it, failures included |
| `CoreLifecycle.StoreChangesOnlyBy` | meshcore/agentcore.c:3283-3388 | The stored core changes only to one with the announced hash, which is then launched, or to none, and then none runs |
| `CoreLifecycle.CommandDecides` | meshcore/agentcore.c:3282-3388 | A core command, by its octets, changes nothing, forgets the timer, installs or deletes, exactly by the stored hash, the decompressor and the announced hash |
| `CoreLifecycle.AcceptedCoreRuns` | meshcore/agentcore.c:3330-3361 | An accepted core, compressed or not, is stored with its prefix of four octets, and its text after them runs alone in a new heap |
| `CoreLifecycle.StoredCoreRuns` | meshcore/agentcore.c:3430-3479 | The timer, an approval that is awaited, and a restart run the text of the stored core |
| `CoreLifecycle.StartedCoreRuns` | meshcore/agentcore.c:5683-5753 | So does startup, at once as a local script, and else by the timer or the approval |
| `CoreLifecycle.HandleStaysLiveIff` | meshcore/agentcore.c:3295-3388 | The remembered timer stays the armed one exactly when neither a delete command nor an undecodable core arrives while it waits |
| `CoreLifecycle.ForgottenTimerStillLaunches` | meshcore/agentcore.c:3295-3320 | After an undecodable core the forgotten timer still launches the stored one, and the server's approval is ignored |
| `CoreLifecycle.HandleDiesIff` | meshcore/agentcore.c:3373-3388 | The remembered timer comes to belong to a destroyed heap exactly by a delete while approval is awaited |
| `CoreLifecycle.StaleUseIff` | meshcore/agentcore.c:3430-3437 | Such a timer is used exactly when the approval arrives then |
| `CoreLifecycle.StaleUseOfRunIff` | meshcore/agentcore.c:3430-3437 | A run uses one exactly when some approval in it comes while the remembered timer belongs to a destroyed heap |
| `CoreLifecycle.DeleteThenApprovalUsesDeadHandle` | meshcore/agentcore.c:3373-3437 | The run in which it is |
| `CoreLifecycle.WithoutDeleteNoStaleUse` | meshcore/agentcore.c:3279-3479 | No run without a delete uses a timer of a destroyed heap |
| `CoreLifecycle.RestartIsSafeIff` | meshcore/agentcore.c:1719-1752 | `restartCore` keeps the invariant exactly when no approval is awaited or there is nothing to launch |
| `CoreLifecycle.EarlyRestartLaunchesTwice` | meshcore/agentcore.c:1719-1742 | Otherwise one heap runs the core twice |
| `CoreLifecycle.CoreHost.Execute` | meshcore/agentcore.c:2583-2601 | The source after the four octets of prefix runs in the current heap |
| `CoreLifecycle.CoreHost.StopEngine` | meshcore/agentcore.c:2564-2582 | A new heap with nothing launched, and the old heap's timer gone |
| `CoreLifecycle.CoreHost.RestartEngine` | meshcore/agentcore.c:2583-2601 | A new heap with exactly this core |
| `CoreLifecycle.CoreHost.OnModule` | meshcore/agentcore.c:3282-3388 | The three forms of the command refine the specification, state and answer |
| `CoreLifecycle.CoreHost.OnHashRequested` | meshcore/agentcore.c:3390-3407 | The answer is zeros with a local script, else the stored core's hash or none |
| `CoreLifecycle.CoreHost.OnApproved` | meshcore/agentcore.c:3408-3479 | Approval cancels the timer and launches the stored core, only while a timer is remembered; a timer of a destroyed heap is used too, and that is recorded |
| `CoreLifecycle.CoreHost.OnTimer` | meshcore/agentcore.c:4933-4963 | The timeout launches the stored core |
| `CoreLifecycle.CoreHost.OnRestartRequested` | meshcore/agentcore.c:1719-1752 | A new heap with the stored core, local script mode left |
| `CoreLifecycle.CoreHost.constructor` | meshcore/agentcore.c:5683-5753 | The agent starts with the stored core waiting for approval, or running as a local script, or with none |
| `FileHash.GenerateFileHash` | meshcore/agentcore.c:2619-2742 | For every file, truncated or malformed, and any scratch buffer that the headers fit into, the octets hashed are the file up to the executable's end with the checksum and the signature entry zeroed; refused exactly when the headers are not understood |
| `FileHash.ReadLayout` | meshcore/agentcore.c:2636-2693 | The layout read is that of the octets of the file, with what the buffers held before where the file has none |
| `FileHash.ReadOptional` | meshcore/agentcore.c:2654-2686 | The fields found in the optional header are those of the file, with zeros where it has none |
| `FileHash.ReadPe` | meshcore/agentcore.c:2645-2655 | The headers are looked at in the file, and behind its end in the old buffer |
| `FileHash.ParseIntact` | meshcore/agentcore.c:2636-2693 | Of headers that lie inside the file nothing old shows |
| `FileHash.LayoutOfImage` | meshcore/agentcore.c:2642-2686 | A 32-bit or 64-bit executable, by the octets that its format prescribes, is seen with its checksum, its fifth directory entry and the offset of its signature |
| `FileHash.OnlyImagesAreExecutable` | meshcore/agentcore.c:2642-2686 | And nothing else is seen as an executable |
| `FileHash.LittleEndian` | meshcore/agentcore.c:2645-2680 | A field read is the number whose octets, low one first, stand there |
| `FileHash.EntryInside` | microstack/ILibParsers.h:534-546 | The signature's entry lies inside such headers, because their buffer is rounded up to whole addresses |
| `FileHash.FindEnd` | meshcore/agentcore.c:2695-2713 | The end found is where the trailer says, in 32-bit arithmetic |
| `FileHash.ReadTail` | meshcore/agentcore.c:2699-2700 | The last 16 octets, or a shorter file followed by what was in the buffer |
| `FileHash.ReadLength` | meshcore/agentcore.c:2703-2706 | The length in the trailer, or 0 when nothing is left to read |
| `FileHash.DigestHeaders` | meshcore/agentcore.c:2718-2730 | The headers are hashed with both fields zeroed |
| `FileHash.DigestUpTo` | meshcore/agentcore.c:2715-2741 | Headers and rest together are the masked file up to the end, or all of it when the end is 0 or out of reach |
| `FileHash.DigestRest` | meshcore/agentcore.c:2732-2740 | The chunked loop hashes exactly the octets up to the stop, for any buffer size |
| `FileHash.HashedOfEmbed` | modules/MSH_Installer.js:86-105 | Of an executable with settings appended, the executable is hashed; of an empty one, everything |
| `FileHash.DigestedOfEmbed` | modules/MSH_Installer.js:86-105 | The same through the parsing of headers |
| `FileHash.EmbeddingIsInvisibleIff` | meshcore/agentcore.c:2695-2713 | Embedding leaves the hash unchanged exactly when the executable is not empty and has no trailer whose length gives an end after the headers and before the end of the file, other than 0, in 32-bit arithmetic |
| `FileHash.EmbeddingTwiceShows` | meshcore/agentcore.c:2695-2713 | Of an executable with settings, embedding others shows: the first settings are hashed then |
| `FileHash.SettingsAloneAreWhole` | meshcore/agentcore.c:2695-2713 | Settings with no executable before them have a trailer and are hashed whole, with others embedded and without |
| `FileHash.LimitIsWholeIff` | meshcore/agentcore.c:2695-2740 | The whole file is hashed exactly under that condition on the trailer |
| `FileHash.NoTrailerNoCut` | meshcore/agentcore.c:2695-2713 | A file of 16 octets or more without a trailer is hashed whole |
| `FileHash.SignedEmbeddingIsInvisible` | modules/MSH_Installer.js:106-170 | Settings added to a signature leave the executable signed and its hash unchanged |
| `FileHash.DigestedOfSigned` | meshcore/agentcore.c:2658-2741 | Of a signed executable what comes before its signature is hashed |
| `FileHash.DigestedOfSignedImage` | meshcore/agentcore.c:2658-2741 | By octets: of a signed executable exactly what comes before the offset in its directory, with checksum and entry zeroed |
| `FileHash.DigestedOfUnsignedImage` | meshcore/agentcore.c:2658-2741 | By octets: of an unsigned one all of it, with settings appended or without a trailer |
| `FileHash.ReadEmbedded` | meshcore/agentcore.c:4618-4667 | For every file: the caller that writes the settings beside the executable gets only a complete read, the one that asks for a buffer gets what was read and zeros; a length of 2^31 and more ends the agent |
| `FileHash.ReadContents` | meshcore/agentcore.c:4644-4663 | The buffer is handed over before it is filled |
| `FileHash.CallersAgreeIff` | microscript/ILibDuktape_Polyfills.c:3237-3290 | The two callers get the same exactly when there is no trailer, its length is not longer than what is left to read, or it is 2^31 or more, where the agent ends for both |
| `FileHash.OverlongLengthIsHandedBack` | meshcore/agentcore.c:4644-4646 | A file in which it is longer: one caller gets nothing, the other the GUID and zeros |
| `FileHash.EmbeddedRoundTrip` | meshcore/agentcore.c:4633-4646 | Both callers get exactly the embedded settings, and the reader cuts where the hash does |
| `FileHash.TrailerOfEmbed` | modules/MSH_Installer.js:93-101 | The trailer written is the trailer found |
| `FileHash.ToBE32` | modules/MSH_Installer.js:95-97 | The written length reads back as itself |
| `FileHash.BigEndian` | modules/MSH_Installer.js:95-97 | Its octets, the high one first |
| `SelfUpdate.FileIsTheAckedBlocks` | meshcore/agentcore.c:3511-3637 | In every run the update file is the blocks acknowledged since it was last deleted, joined in order, and after any leftover file if it was not deleted |
| `SelfUpdate.InstalledIsWhatWasSent` | meshcore/agentcore.c:3529-3598 | What is installed has the announced hash and consists of the blocks acknowledged since the last deletion, after any leftover file if there was none |
| `SelfUpdate.TransferIsExact` | meshcore/agentcore.c:3511-3637 | Whatever was there before, a fully acknowledged transfer leaves exactly the file sent, installed when its hash is the announced one and else deleted |
| `SelfUpdate.InstalledIff` | meshcore/agentcore.c:3511-3637 | A file that stands for an executable is installed exactly when the hash of that is announced |
| `SelfUpdate.EmbeddedStands` | meshcore/agentcore.c:2695-2713 | An unsigned executable with settings appended stands for the executable |
| `SelfUpdate.BareStands` | meshcore/agentcore.c:2695-2713 | So does one without a trailer |
| `SelfUpdate.SignedStands` | meshcore/agentcore.c:2658-2741 | A signed executable, with settings in the signature or without, stands for what comes before the signature |
| `SelfUpdate.PlainSubject` | meshcore/agentcore.c:2695-2713 | Where no headers are looked for, the octets compared are the executable itself |
| `SelfUpdate.BlocksArrive` | meshcore/agentcore.c:3601-3629 | Acknowledged blocks are in the file, in order |
| `SelfUpdate.Updater.OnBegin` | meshcore/agentcore.c:3524-3528 | A new transfer deletes the file, unless updates are disabled |
| `SelfUpdate.Updater.OnBlock` | meshcore/agentcore.c:3601-3637 | A block is acknowledged exactly when one of four tries wrote it, and then it is in the file once |
| `SelfUpdate.Updater.AppendFile` | microstack/ILibCrypto.c:301-318 | An append is all or nothing, and one of no octets counts as failed |
| `SelfUpdate.Updater.OnEnd` | meshcore/agentcore.c:3529-3598 | Installation exactly on the announced hash, else the file is deleted |
| `RateLimiter.SentIffWithinQuota` | meshcore/agentcore.c:800-816 | For all timestamps, a message passes exactly when it is among the first max(maxRate,0)+1 of its window |
| `RateLimiter.CountWithinWindow` | meshcore/agentcore.c:803-814 | How many messages of any stretch of one window pass, exactly |
| `RateLimiter.AtMostTwiceTheRate` | meshcore/agentcore.c:800-816 | For ordered positive timestamps at most 2 maxRate + 1 messages pass in any 1000 ms |
| `RateLimiter.TwiceTheRateIsReached` | meshcore/agentcore.c:800-816 | For every rate some input reaches that bound, within one millisecond |
| `RateLimiter.Limiter.OnConsoleText` | meshcore/agentcore.c:800-816 | The method on fields refines the specification |
| `MacCheck.HitsAreAligned` | microstack/ILibParsers.c:9424-9452 | A bracketed address occurs in a list exactly at the addresses equal to it, never across two |
| `MacCheck.FoundIffListed` | meshcore/agentcore.c:5433-5436 | A substring search finds a bracketed address exactly when it is listed |
| `MacCheck.IndexOf` | microstack/ILibParsers.c:9424-9452 | The position found is that of the first occurrence, and none found means there is none |
| `MacCheck.GetMac` | meshcore/agentcore.c:5401 | The list read is the bracketed addresses of the ethernet and wireless interfaces, in order |
| `MacCheck.KeptIff` | meshcore/agentcore.c:5401 | Those are exactly the addresses of interfaces of these two kinds |
| `MacCheck.KeptInOrder` | meshcore/agentcore.c:5401 | Interfaces listed later give addresses listed later |
| `MacCheck.SkipZeros` | meshcore/agentcore.c:5418-5424 | Stops before the end exactly when some address is not all zeros |
| `MacCheck.FindShared` | meshcore/agentcore.c:5428-5440 | Runs to the end exactly when no non-zero address is shared |
| `MacCheck.Database.CheckMacs` | meshcore/agentcore.c:5398-5450 | Resets exactly when there is a record, a current non-zero address, and none shared; and what is recorded then |
| `MacCheck.CheckOutcome` | meshcore/agentcore.c:5407-5445 | A check resets exactly when there is a record, some address that is not zeros, and no such address in both; the list is recorded then, and when there is no record |
| `MacCheck.CheckedOnceIsSettled` | meshcore/agentcore.c:5407-5445 | Any number of further checks with the same interfaces reset nothing and change nothing |
| `MacCheck.ResetIffFirstListIsLost` | meshcore/agentcore.c:5407-5445 | A run of checks resets exactly when one finds addresses but none of the first list |
| `MacCheck.GradualChangeResets` | meshcore/agentcore.c:5431-5445 | Replacing interfaces one at a time resets although consecutive lists share an address |
| `AsyncWorker.StepKeepsInv` | microscript/ILibDuktape_GenericMarshal.c:1290-1368 | Every step of either thread keeps the invariant of the hand-off |
| `AsyncWorker.RunKeepsInv` | microscript/ILibDuktape_GenericMarshal.c:1290-1629 | So does every interleaving |
| `AsyncWorker.ReadsOnlyWhileCallerWaits` | microscript/ILibDuktape_GenericMarshal.c:1309-1314 | In every interleaving the worker reads an argument only while the caller waits and the word is in its frame; both semaphores stay 0 or 1 |
| `AsyncWorker.RankDecreases` | microscript/ILibDuktape_GenericMarshal.c:1303-1338 | Every step but a new call or an abort decreases a rank |
| `AsyncWorker.RunsAreShort` | microscript/ILibDuktape_GenericMarshal.c:1303-1338 | Left to themselves the threads come to rest |
| `AsyncWorker.QuiescentMeansDone` | microscript/ILibDuktape_GenericMarshal.c:1303-1368 | No deadlock: at rest, without an abort every call is resolved; after one the worker has exited or is stranded |
| `AsyncWorker.RunConservesCalls` | microscript/ILibDuktape_GenericMarshal.c:1571-1615 | The calls handed to the worker are those asked for and accepted, in order |
| `AsyncWorker.EveryCallIsResolvedOnce` | microscript/ILibDuktape_GenericMarshal.c:1275-1288 | In every run without an abort, at rest, each accepted call has been resolved exactly once, in order, with its own function's result on its own arguments |
| `AsyncWorker.OrphansAreForGood` | microscript/ILibDuktape_GenericMarshal.c:1613-1616 | An unusable parameter leaves a promise that no later step resolves |
| `AsyncWorker.AbortEndsTheWorkerIff` | microscript/ILibDuktape_GenericMarshal.c:1351-1397 | In every run, after an abort and at rest, the worker has exited exactly when no promise was outstanding or it was not waiting for work |
| `AsyncWorker.AbortCanStrand` | microscript/ILibDuktape_GenericMarshal.c:1351-1397 | The run in which it has not: one unusable parameter, then an abort while the worker waits, and nothing moves any more |
| `AsyncWorker.StrandedThroughout` | microscript/ILibDuktape_GenericMarshal.c:1351-1397 | Whether it is stranded is settled at the abort |
| `AsyncWorker.AbortRejectsTheOutstanding` | microscript/ILibDuktape_GenericMarshal.c:1368-1389 | In every run an abort rejects the promise outstanding at that time, if there is one, and nothing else is ever rejected |
| `AsyncWorker.RejectedCanResolveIff` | microscript/ILibDuktape_GenericMarshal.c:1275-1389 | A rejected promise is resolved as well in some interleaving exactly when its call was handed to the worker |
| `AsyncWorker.AbortCanBeLateIff` | microscript/ILibDuktape_GenericMarshal.c:1359-1367 | Some interleaving posts on the freed semaphore exactly when the worker was not waiting at the abort |
| `AsyncWorker.WriteParameters` | microscript/ILibDuktape_GenericMarshal.c:1598-1617 | The frame holds the words of all parameters, or the call fails at an unusable one |
| `AsyncWorker.CopyParameters` | microscript/ILibDuktape_GenericMarshal.c:1308-1313 | The worker's copy is all the words, or all but the first when redirected |
| `CallbackPool.InitialPartition` | microscript/ILibDuktape_GenericMarshal.c:2720-2833 | At first all 22 slots are free |
| `CallbackPool.PartitionKeptIff` | microscript/ILibDuktape_GenericMarshal.c:2684-2708 | Getting keeps every slot either free once or in use; releasing does exactly when the slot is in use |
| `CallbackPool.OrderlyRunsKeepThePartition` | microscript/ILibDuktape_GenericMarshal.c:2684-2852 | So do all runs that release only what is in use |
| `CallbackPool.FirstReleasedFirstReused` | microscript/ILibDuktape_GenericMarshal.c:2702-2841 | In every run, slots handed out and then the free ones are those free at first and then those released, in order |
| `CallbackPool.HandedOutInOrder` | microscript/ILibDuktape_GenericMarshal.c:2720-2841 | From the start slots come as 21 down to 0 and then in the order of release |
| `CallbackPool.ReleasedSlotRests` | microscript/ILibDuktape_GenericMarshal.c:2702-2841 | A released slot is handed out again exactly after all slots that were free before it |
| `CallbackPool.DoubleReleaseIsHandedOutTwice` | microscript/ILibDuktape_GenericMarshal.c:2702-2708 | A slot released twice goes to two callers in a row |
| `CallbackPool.SilentUntilHandedOut` | microscript/ILibDuktape_GenericMarshal.c:2430-2433 | A released slot stays silent until it is handed out again |
| `CallbackPool.RegisteredUntilReleased` | microscript/ILibDuktape_GenericMarshal.c:2684-2852 | In every run a slot keeps its caller and number of parameters until it is released or handed out again |
| `CallbackPool.GetAndCall` | microscript/ILibDuktape_GenericMarshal.c:2424-2483 | A callback asked for with n parameters and then called reaches the one who asked, with n + 1 words |
| `CallbackPool.Pool.constructor` | microscript/ILibDuktape_GenericMarshal.c:2367-2369 | The tables start as if the list had been made |
| `CallbackPool.Pool.CreateList` | microscript/ILibDuktape_GenericMarshal.c:2720-2833 | Making the list on first use changes nothing one can see |
| `CallbackPool.Pool.GetCallback` | microscript/ILibDuktape_GenericMarshal.c:2711-2852 | Hands out the last free slot and registers the caller, or fails and changes nothing |
| `CallbackPool.Pool.PutCallback` | microscript/ILibDuktape_GenericMarshal.c:2684-2708 | The slot is first in the list and registers nobody |
| `CallbackPool.Pool.Process` | microscript/ILibDuktape_GenericMarshal.c:2424-2483 | A call into a slot reaches its registered caller with its words, and a call into a released one nobody |
| `Decompressor.CrcStreams` | microstack/ILibWebRTC.c:7810-7823 | The CRC of pieces, each started from the one before, is that of the whole |
| `Decompressor.Crc32` | microstack/ILibWebRTC.c:7789-7832 | The loop of eight octets at a time computes the octet-wise CRC |
| `Decompressor.CrcIsSerial` | microstack/ILibWebRTC.c:7789-7832 | With the table of the polynomial 0xEDB88320 it is the remainder of a division bit by bit, low bits first |
| `Decompressor.UpdateTakesBits` | microstack/ILibWebRTC.c:7792 | One look-up takes in the eight bits of an octet |
| `Decompressor.TableEntries` | microstack/ILibWebRTC.c:7664-7786 | The entries of that table for single bits |
| `Decompressor.HalvingIsLinear` | microstack/ILibWebRTC.c:7664-7786 | The other entries are sums of those |
| `Decompressor.NothingIsLost` | microscript/ILibDuktape_CompressedStream.c:233-283 | What was sent, and then what codec and kept input still decode to, is the decoding of all input accepted |
| `Decompressor.AcceptedIsSentOrHeld` | microscript/ILibDuktape_CompressedStream.c:59-113 | The same of a decompressor at any time, after any schedule of writes and pauses and also when its reader's stream is over, and its CRC is that of what was sent |
| `Decompressor.MoreInput` | microscript/ILibDuktape_CompressedStream.c:242-247 | More input never takes back output, and what follows the end of the stream adds none |
| `Decompressor.ZStream.Inflate` | meshcore/zlib/inflate.c:1236-1277 | The contract of the codec: what it uses, what it hands out, when it reports the end or no progress |
| `Decompressor.DeCompressor.Send` | microscript/ILibDuktape_CompressedStream.c:250-254 | The CRC stays that of everything sent |
| `Decompressor.DeCompressor.InflateAll` | microscript/ILibDuktape_CompressedStream.c:242-274 | The loop keeps sent, used and kept input together equal to what was accepted, however it ends |
| `Decompressor.DeCompressor.Write` | microscript/ILibDuktape_CompressedStream.c:233-283 | Complete means that all accepted input is decoded and sent; incomplete a paused reader or a finished stream; without invalid input an error means exactly that the last round found nothing to do, which for a write of nothing, or one whose last octet adds output, is so exactly when the output fills its buffers and the stream goes on |
| `Decompressor.DeCompressor.Resume` | microscript/ILibDuktape_CompressedStream.c:59-113 | Going on after a kept buffer means that everything is sent, and without one exactly that the codec holds nothing back; the reader's stream is ended over valid input exactly when the last round found nothing to do, with the same condition on the input |
| `Decompressor.ExhaustedIffFull` | microscript/ILibDuktape_CompressedStream.c:242-274 | Whatever input the codec leaves unused in between, the last round finds nothing to do exactly when the output is a whole number of full buffers and the stream goes on |
| `Decompressor.EmptyWriteFails` | microscript/ILibDuktape_CompressedStream.c:246-249 | A write of nothing is an error |
| `Decompressor.ExactFillFails` | microscript/ILibDuktape_CompressedStream.c:246-249 | A write that fills the buffer for a reader that does not pause is an error |
| `Decompressor.ResumeEndsTheStream` | microscript/ILibDuktape_CompressedStream.c:78-85 | A reader that pauses after the first of two buffers and goes on has its stream ended |
| `Decompressor.DeCompressor.End` | microscript/ILibDuktape_CompressedStream.c:284-316 | When the end has sent everything, exactly, and the CRC is that of what was sent |
| `Decompressor.EndDropsWhatIsKept` | microscript/ILibDuktape_CompressedStream.c:284-316 | A reader that pauses after the first of two buffers and a writer that ends: the second buffer is never sent |
| `Decompressor.DeCompressor.constructor` | microscript/ILibDuktape_CompressedStream.c:326-356 | A new decompressor has sent, kept and accepted nothing |
| `EncryptionStream.FragmentationIsInvisible` | microscript/ILibDuktape_EncryptionStream.c:42-74 | What comes out joined does not depend on the writes |
| `EncryptionStream.CryptSplits` | microscript/ILibDuktape_EncryptionStream.c:50-55 | Chunks encrypted one after another are the whole encrypted at once |
| `EncryptionStream.RoundTrip` | microscript/ILibDuktape_EncryptionStream.c:42-74 | For any writes and any re-fragmentation of what has arrived, the same part of the clear text comes out |
| `EncryptionStream.UnderstoodIff` | microscript/ILibDuktape_EncryptionStream.c:217-220 | Two ends recover the data exactly when their key streams agree at the positions used |
| `EncryptionStream.WriteSink` | microscript/ILibDuktape_EncryptionStream.c:42-74 | The chunked loop writes the whole buffer combined with the key stream; incomplete exactly when the reader is paused after the last chunk |
| `EncryptionStream.Stream.constructor` | microscript/ILibDuktape_EncryptionStream.c:190-220 | Both directions start at the beginning of the same key stream |
| `EncryptionStream.Stream.DecryptedWrite` | microscript/ILibDuktape_EncryptionStream.c:58-74 | In every run the encrypted side has received all clear writes, encrypted as one |
| `EncryptionStream.CounterMode` | microscript/ILibDuktape_EncryptionStream.c:217-218 | What comes out is the data combined with the cipher's blocks of the counters from the initial value on, modulo 2^128 |
| `EncryptionStream.ZerosGiveTheBlocks` | microscript/ILibDuktape_EncryptionStream.c:217-218 | Of zeros, those blocks themselves |
| `EncryptionStream.ReceivedInCounterMode` | microscript/ILibDuktape_EncryptionStream.c:58-74 | In every run the encrypted side has received all that was written, octet by octet in counter mode |
| `EncryptionStream.EncryptOnce` | microscript/ILibDuktape_EncryptionStream.c:58-74 | So has that of a new stream after one write |
| `EncryptionStream.Stream.EncryptedWrite` | microscript/ILibDuktape_EncryptionStream.c:42-57 | In every run the clear side has received all encrypted writes, decrypted as one |
| `EncryptionStream.LinkedStreams` | microscript/ILibDuktape_EncryptionStream.c:217-220 | What has come out at the receiver is a prefix of what was written at the sender, as long as what has arrived |

## Left out

* Each handler is one atomic step; script handlers called from it are assumed to return without throwing, and to
  re-enter the handler only where an event says so (`late` listeners of a disconnect).
* Self-test, local debug mode, `jsDebugPort`, `fakeUpdate`, `forceUpdate`, the unzipping of an update, automatic proxy
  discovery, the lock-out retry and the look-up of addresses on Windows: they bypass or suspend the modelled steps.
* The ping and pong timeouts of the control channel, logging, and the output of messages sent for information only.
* `ChannelAuth.Channel.ProcessCommand`: messages of fewer than two octets that arrive whole are not modelled; the code
  reads the command number before it looks at the length.
* `ControlConnection.Agent.ConnectEx`: reading the settings is one decision per attempt (`configured`, `idsOk`).
* Random numbers, timestamps and counters are unbounded integers where the proofs do not need their width; the retry
  delay is proved to stay far below 2^31, and the console counter would need 2^31 messages within a second.
* `RateLimiter.Limiter.OnConsoleText`: the rate is fixed; the agent reads it anew at each connection.
* `CoreLifecycle.CoreHost.OnApproved`: using the timer of a destroyed heap is recorded, and taken to do nothing else.
* `CoreLifecycle.CoreHost.Execute`: a core of four octets or fewer runs as the empty source.
* `FileHash.GenerateFileHash`: files of nearly 4 GiB and more; and the executables for which the code writes outside its
  buffer, because the headers do not fit into it or the file ends within 12 octets of the checksum. The code has no
  defined result for those (`FileHash.Addressable`).
* `FileHash.EntryInside`: addresses have 8 octets.
* `FileHash.ReadEmbedded`: the allocation of a buffer that is asked for always succeeds.
* `SelfUpdate.Updater.OnEnd`: deleting the file always succeeds; as for `FileHash.GenerateFileHash`, no executables
  for which the code writes outside its buffer.
* `MacCheck.Database.CheckMacs`: an address in the database or on an interface has 17 characters and no brackets, as
  the agent itself writes them.
* `AsyncWorker.StepKeepsInv`: steps on values, not methods on an object, because two threads take turns inside the
  methods; memory is sequentially consistent, and a check that the data still exist and the use after it are one step.
* The variant of a native call that waits for the result, the dispatcher thread of Windows, and finalizers.
* `CallbackPool.Pool.GetCallback`: one script heap; custom event handlers have no slot.
* `Decompressor.DeCompressor.Write`: requires, as the stream protocol does, that a writer told to wait writes nothing
  until it is told to go on; the lifetime of the kept buffer while it is replaced is not modelled.
* `Decompressor.DeCompressor.Resume`: a reader whose stream was ended is not resumed; the code would use its kept buffer
  a second time.
* The end of a cipher stream: the cipher's final step, which writes nothing in counter mode, and its error event.
* The compressor, which has no state to resume; the reading of keys; certificates, real cryptography and zlib itself.
