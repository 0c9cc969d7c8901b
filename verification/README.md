# Telematics SDK: a model of its stateful components

This project models four parts of the Telematics SDK and proves what they do over whole runs.

* **The remote-SIM link.** A daemon on the modem side and a SAP card provider on the SIM side
  exchange byte messages. `Messages` relates what one program encodes to what the other decodes,
  for the APDUs of section 10.1 of ETSI TS 102 221, for card responses and for answers to reset.
  `SimConnections`, `CardControls`, `SapCardProviders` and `RemoteSimDaemons` hold the classes, with
  their byte buffers as arrays. `Keepalive` is the two-ended keepalive protocol over one clock;
  `ApduCorrelation` follows every APDU through modem, daemon, provider and card.
* **The eCall application.** `ECalls` says what each modem event makes of the state, `TelClients`
  holds the classes TelClient, EcallScanFailHandler, ECallManager and ThermClient. `CallProgress` and
  `RedialRuns` are runs of them without and with the multi-SIM recovery.
* **The simulated location manager.** `Locations` holds the report scheduler, the listener registry
  that is pruned while it is dispatched to, and two requests answered once by a detached worker;
  `LocationRuns` proves how they behave over runs.
* **The key=value configuration parser**, `ConfigParsers`.

Throughout, an object is a class whose methods are proved equal to a step function on the value of
its state, or to a function of its inputs, and the properties are then proved about runs of those
functions: an invariant of one step, its induction over a run, and a theorem from the initial state.
Every callback or locked region is one atomic step. What a call into another library returns is a
parameter of the step that makes the call, so each theorem holds for every outcome.

Where the code differs from its own documentation the model follows the code:

* `simulation/loc/LocationManagerStub.hpp:340-342` says that a terrestrial position request fails
  while another one is pending. It does not: it replaces the callback and may be answered by the
  earlier worker (`LocationRuns.SecondRequestTakesOver`). What holds instead is stated exactly by
  `LocationRuns.TerrestrialRequestsAnsweredOnce`.
* `apps/common/ConfigParser.cpp:114` says that carriage returns are trimmed from the end of a line;
  they are erased everywhere in it. A line `key=` with nothing after the `=` stores nothing, so an
  earlier value of the key stays (`ConfigParsers.PrintableExactly`); with a blank after the `=` it
  stores an empty value (`ConfigParsers.ExpressibleExactly`).
* `apps/reference/ecall_app/TelClient.cpp:526-527` says that without an index a call is hung up only
  if it is the only one; the first call of the slot that has not ended is hung up.
* The multi-SIM recovery is meant to redial the eCall that the user started. An entry that no start
  wrote is redialled as well (`RedialRuns.UnrequestedRedial`); `RedialRuns.RedialsKeepParameters`
  gives exactly what is dialled in every case.
* `apps/reference/ecall_app/ECallManager.cpp:454-456` sets up a call that the modem redials, but not
  phoneId_: location updates for it go to slot -1 (`CallProgress.ModemRedialLosesTheSlot`;
  `CallProgress.UpdatesReachTheCall` says exactly when they go to the slot of the call).
* The progress flag can go wrong when the modem's responses come out of order, and with it what is held
  for a call (`CallProgress.LateFailureStripsTheCall`); and eCall_ can be a call that has ended
  (`CallProgress.EndedCallKeepsProtection`). `CallProgress.ProgressMeansACall`,
  `CallProgress.HeldForCallsExactly` and `CallProgress.HeldCallIsLive` give the exact conditions.
* A healthy client can be dropped for not answering keepalives. `Keepalive.ConditionIsExact` gives the
  exact condition on the timing under which that never happens.

## Model

| member | source | states |
|---|---|---|
| Messages.RequestRoundTrip | apps/reference/remote_sim/CardControl.cpp:231-298 | every well-formed Case 1 to 4 APDU that the daemon encodes reaches transmitApdu with its own header, data, Lc as the data's length, Le (0 when absent) and its id modulo 256 |
| Messages.DecodingLosesOnlyAZeroLe | apps/reference/remote_sim/CardControl.cpp:263-290 | two well-formed APDUs are decoded alike if and only if they are equal or differ by a trailing Le of 0 |
| Messages.StandardMessages | apps/reference/remote_sim/CardControl.cpp:233-244 | the request messages that some well-formed APDU encodes to are exactly those of certain lengths |
| Messages.ReadApdu | apps/reference/remote_sim/CardControl.cpp:233-244 | a message of such a length holds a well-formed APDU whose layout is exactly its payload |
| Messages.DecoderAcceptance | apps/reference/remote_sim/CardControl.cpp:251-290 | the decoder accepts all requests of the standard, and besides them exactly those with an explicit Lc of 0 or with bytes after the Le |
| Messages.ResponseWholeOrNothing | apps/reference/remote_sim/RemoteSimDaemon.cpp:219-243 | a card response of at most 255 bytes reaches the modem whole and under its id; a longer one that fits the receive buffer does not reach it at all; of one that does not fit, the daemon drops what fills the buffer and takes the rest for messages |
| Messages.AtrWholeOrNothing | apps/reference/remote_sim/RemoteSimDaemon.cpp:265-303 | the same for the answer to reset, in both messages that carry one |
| Messages.LongResponseMisread | apps/reference/remote_sim/SimConnection.cpp:142-142 | an input for the last case: a response one byte too long whose last byte is 7 tells the modem that the card was removed |
| Messages.BytesSurvive | apps/reference/remote_sim/SimConnection.cpp:343-345 | narrowing the ints of a response to bytes changes nothing when they are bytes |
| SimConnections.SimConnection.HandleClientConnection | apps/reference/remote_sim/SimConnection.cpp:127-189 | one daemon iteration: the state, the keepalive sent, and a message reported exactly when a connected client delivered one, with the buffer holding it and zeros after it |
| SimConnections.SimConnection.HandleDaemonConnection | apps/reference/remote_sim/SimConnection.cpp:191-244 | the same for the provider, which sends nothing |
| SimConnections.ClientKeptExactly | apps/reference/remote_sim/SimConnection.cpp:134-185 | a connected client stays so through an iteration if and only if the read did not find the connection closed or failed, no error is set, and no probe has gone unanswered for more than 13 s; an unconnected daemon ends up with a client; and the time of the last message is that of this one if there is one |
| SimConnections.ProbedExactly | apps/reference/remote_sim/SimConnection.cpp:161-175 | a keepalive goes out if and only if the connection is sound, nothing was read for more than 10 s and none is pending; when it stays pending |
| SimConnections.DaemonKeptExactly | apps/reference/remote_sim/SimConnection.cpp:198-241 | the same for the provider, which gives up after 13 s of silence and answers exactly the keepalive requests that come without an error |
| SimConnections.SimConnection.SendCardRequest | apps/reference/remote_sim/SimConnection.cpp:294-332 | each of the five card requests of the modem is one byte of its own, written if the client is connected |
| SimConnections.WireFormat | apps/reference/remote_sim/SimConnection.hpp:54-62 | the bytes of every message: its code, then the id or the length modulo 256, then the payload |
| SimConnections.SimConnection.SendApduRequest | apps/reference/remote_sim/SimConnection.cpp:279-292 | to a connected client, exactly the encoded request is written; otherwise nothing |
| SimConnections.SimConnection.SendApduResponse | apps/reference/remote_sim/SimConnection.cpp:334-348 | to a connected daemon, exactly the encoded response with its length byte wrapped |
| SimConnections.SimConnection.SendCardResetResponse | apps/reference/remote_sim/SimConnection.cpp:350-363 | to a connected daemon, exactly the encoded answer to reset |
| SimConnections.SimConnection.SendCardInsertedMessage | apps/reference/remote_sim/SimConnection.cpp:365-378 | the same in a card-inserted message |
| SimConnections.SimConnection.SendCardRemovedMessage | apps/reference/remote_sim/SimConnection.cpp:380-386 | one byte, if the daemon is connected |
| SimConnections.SimConnection.SendConnKeepaliveResponse | apps/reference/remote_sim/SimConnection.cpp:388-394 | one byte, if the daemon is connected |
| SimConnections.SimConnection.SendConnKeepaliveRequest | apps/reference/remote_sim/SimConnection.cpp:396-402 | one byte, if the client is connected |
| SimConnections.SimConnection.SendRequest | apps/reference/remote_sim/SimConnection.cpp:404-417 | the whole buffer goes to a connected client and to nobody else |
| SimConnections.SimConnection.SendResponse | apps/reference/remote_sim/SimConnection.cpp:419-432 | the whole buffer goes to a connected daemon and to nobody else |
| Keepalive.InvariantStep | apps/reference/remote_sim/SimConnection.cpp:127-244 | each event keeps the three-phase invariant of the protocol: nothing, one request or one response under way, each with its deadline |
| Keepalive.InvariantRun | apps/reference/remote_sim/SimConnection.cpp:127-244 | so does every run |
| Keepalive.NoFalseDisconnect | apps/reference/remote_sim/SimConnection.cpp:127-244 | on an idle link with 10 + P + 2D at most 13, no run from a fresh connection ever has either end drop the other, and there is never more than one keepalive under way |
| Keepalive.SlowLinkCanDrop | apps/reference/remote_sim/SimConnection.cpp:161-175 | whenever that bound is exceeded there is a run in which a healthy client is dropped |
| Keepalive.SpeakingProviderCanDrop | apps/reference/remote_sim/SimConnection.cpp:222-227 | when the provider sends messages of its own there is a run in which it hangs up itself, however fast the link, for the daemon then sends no keepalive |
| Keepalive.ConditionIsExact | apps/reference/remote_sim/SimConnection.cpp:127-244 | for every P of at least 1 and every D, no run drops a fresh connection if and only if the link is idle and the bound holds |
| Keepalive.TimeCanPass | apps/reference/remote_sim/RemoteSimDaemon.cpp:78-89 | the timing assumptions are never in contradiction: from every state of such a run the clock can move on |
| Keepalive.SilentClientWindow | apps/reference/remote_sim/SimConnection.cpp:161-175 | a silent client is dropped only more than 13 s after its last message and no later than max(13 + P, 10 + 2P) s after it; while it is not dropped, no iteration is later than max(13, 10 + P) s |
| Keepalive.PendingCountsProbes | apps/reference/remote_sim/SimConnection.cpp:147-174 | over all runs, with failures, drops and reconnections, pendingKeepalive_ is set exactly when one request went out since the last message or timeout drop, and there are never two |
| CardControls.CardControl.Init | apps/reference/remote_sim/CardControl.cpp:200-220 | a card found present at start-up is noted as present, one found absent as neither present nor connected, and nothing is requested or sent |
| CardControls.CardControl.OnCardInfoChanged | apps/reference/remote_sim/CardControl.cpp:47-77 | the card state after a removal, an insertion or another change, and the removal message sent exactly when the card is gone and the daemon connected |
| CardControls.CardControl.ConnectAfterCardInsertion | apps/reference/remote_sim/CardControl.cpp:368-379 | opens first only if not connected while the daemon is; a failed open ends it, otherwise the answer to reset is requested |
| CardControls.CardControl.OpenSapConn | apps/reference/remote_sim/CardControl.cpp:408-437 | succeeds exactly when the card is present and the attempt does, and only then is the card connected |
| CardControls.CardControl.SendApduToSim | apps/reference/remote_sim/CardControl.cpp:231-298 | transmits what the received bytes decode to, with the callback registered under the id, exactly when the card is connected and they decode; every index read is inside the buffer and only received bytes matter |
| CardControls.ApduResponseCallback.constructor | apps/reference/remote_sim/CardControl.cpp:79-82 | the callback remembers the id it is made with |
| CardControls.ApduResponseCallback.OnResponse | apps/reference/remote_sim/CardControl.cpp:84-90 | the response goes to the daemon under the id the callback was made with, and the callback under that id alone is forgotten |
| CardControls.CardControl.EraseFromApduRespCbMap | apps/reference/remote_sim/CardControl.cpp:388-391 | exactly that callback is forgotten |
| CardControls.CardControl.ConnectToCard | apps/reference/remote_sim/CardControl.cpp:300-311 | the answer to reset is requested exactly if the card is connected or can be |
| CardControls.CardControl.DisconnectFromCard | apps/reference/remote_sim/CardControl.cpp:313-323 | a close is requested exactly if the card is connected; the flags stay |
| CardControls.CardControl.PowerUpCard | apps/reference/remote_sim/CardControl.cpp:325-332 | opening if need be, powering on, requesting the answer to reset, each only after the one before it worked |
| CardControls.CardControl.PowerDownCard | apps/reference/remote_sim/CardControl.cpp:334-344 | requested exactly if the card is connected |
| CardControls.CardControl.ResetCard | apps/reference/remote_sim/CardControl.cpp:346-356 | requested exactly if the card is connected |
| CardControls.CardControl.OnResetResponse | apps/reference/remote_sim/CardControl.cpp:127-134 | the answer to reset is requested exactly after a successful reset |
| CardControls.AtrResponseCallback.constructor | apps/reference/remote_sim/CardControl.cpp:136-139 | the callback remembers which message it is for |
| CardControls.AtrResponseCallback.AtrResponse | apps/reference/remote_sim/CardControl.cpp:141-152 | a connected daemon gets the answer to reset in exactly that message |
| CardControls.InsertionExactly | apps/reference/remote_sim/CardControl.cpp:368-379 | for every state of the card and both outcomes of opening: whether an inserted card is opened, and that its answer to reset is asked for, to be sent as that of an inserted card, unless opening failed |
| CardControls.PresentAsLastReported | apps/reference/remote_sim/CardControl.cpp:65-76 | over every history, cardPresent_ is what the last report of the card's state said, at start-up or later |
| CardControls.RemovalAndResetExactly | apps/reference/remote_sim/CardControl.cpp:65-69 | a removed card, or one found absent, is no longer connected; after a reset, if and only if it worked, the answer to reset is asked for |
| CardControls.CallbacksChange | apps/reference/remote_sim/CardControl.cpp:292-292 | the callback map changes only when an APDU is accepted or answered, and then at its id only |
| CardControls.InvariantStep | apps/reference/remote_sim/CardControl.cpp:60-76 | each event keeps: connected implies present, connected exactly when an open followed the last removal, no APDU transmitted otherwise |
| CardControls.InvariantRun | apps/reference/remote_sim/CardControl.cpp:60-76 | so does every run |
| CardControls.ConnectedExactlyWhenOpened | apps/reference/remote_sim/CardControl.cpp:246-249 | over every history from the start, cardConnected_ implies cardPresent_ and holds exactly when a successful open came after the last removal, and every transmitApdu happened in such a moment (a requested close ends neither) |
| SapCardProviders.SapCardProvider.HandleDaemonMsg | apps/reference/remote_sim/SapCardProvider.cpp:147-175 | each message has its effect on the card and no other, and exactly the keepalive request is answered |
| SapCardProviders.SapCardProvider.LoopIteration | apps/reference/remote_sim/SapCardProvider.cpp:85-92 | one turn of the loop: connection state, what is written back, and the card's part, only for a message received while connected |
| SapCardProviders.RequestReachesCard | apps/reference/remote_sim/CardControl.cpp:300-356 | what becomes of each of the modem's five card requests, from the byte the daemon writes to what the card is asked: on an open connection that request and no other, with the answer to reset after it where it is due; a present card is opened first to be connected to or powered up; without a connection nothing is asked |
| SapCardProviders.OtherMessagesLeaveCard | apps/reference/remote_sim/SapCardProvider.cpp:168-173 | keepalives and unknown messages leave the card alone |
| RemoteSimDaemons.RemoteSimDaemon.constructor | apps/reference/remote_sim/RemoteSimDaemon.cpp:202-211 | the state that initDaemon leaves: availability has been announced once |
| RemoteSimDaemons.RemoteSimDaemon.NotifyModemConnAvailable | apps/reference/remote_sim/RemoteSimDaemon.cpp:94-102 | announces availability only if the modem was last told otherwise |
| RemoteSimDaemons.RemoteSimDaemon.NotifyModemConnUnavailable | apps/reference/remote_sim/RemoteSimDaemon.cpp:104-112 | announces unavailability only if the modem was last told otherwise |
| RemoteSimDaemons.RemoteSimDaemon.OnServiceStatusChange | apps/reference/remote_sim/RemoteSimDaemon.cpp:385-397 | a service that goes down is announced; one that comes up only with a client connected |
| RemoteSimDaemons.RemoteSimDaemon.HandleApduTransfer | apps/reference/remote_sim/RemoteSimDaemon.cpp:219-243 | forwards exactly the payload of a message whose length byte matches the bytes received, and nothing of any other |
| RemoteSimDaemons.RemoteSimDaemon.HandleCardReset | apps/reference/remote_sim/RemoteSimDaemon.cpp:265-283 | the same for an answer to reset |
| RemoteSimDaemons.RemoteSimDaemon.HandleCardInserted | apps/reference/remote_sim/RemoteSimDaemon.cpp:285-303 | the same for a card-inserted message |
| RemoteSimDaemons.RemoteSimDaemon.HandleClientMsg | apps/reference/remote_sim/RemoteSimDaemon.cpp:319-353 | every message leads to exactly the modem commands that Forwarded gives for the received bytes |
| RemoteSimDaemons.RemoteSimDaemon.LoopIteration | apps/reference/remote_sim/RemoteSimDaemon.cpp:78-89 | one turn of the loop: connection, forwarding, then the announcement if the truth changed |
| RemoteSimDaemons.InvariantStep | apps/reference/remote_sim/RemoteSimDaemon.cpp:78-112 | each event keeps the announcements alternating, and a loop iteration ends with modemConnected_ equal to clientConnected_ |
| RemoteSimDaemons.InvariantRun | apps/reference/remote_sim/RemoteSimDaemon.cpp:78-112 | so does every run |
| RemoteSimDaemons.AnnouncementsAlternate | apps/reference/remote_sim/RemoteSimDaemon.cpp:78-112 | from the state initDaemon leaves, for any interleaving of iterations and service notifications, availability and unavailability are announced in strict alternation, the last announcement is what modemConnected_ says, and after each iteration that equals clientConnected_ |
| RemoteSimDaemons.DisconnectAnnounced | apps/reference/remote_sim/RemoteSimDaemon.cpp:78-89 | wherever a run has got to, a loop turn that finds the connection closed, failed or in error ends with the client given up and unavailability announced last, and one that accepts a client with availability announced last |
| RemoteSimDaemons.ServiceAnnounced | apps/reference/remote_sim/RemoteSimDaemon.cpp:385-397 | which announcement each service status leads to, and when to none |
| RemoteSimDaemons.LoopSends | apps/reference/remote_sim/RemoteSimDaemon.cpp:78-89 | one loop turn gives the modem the commands of the message read, if one was, and then at most one announcement |
| RemoteSimDaemons.RelaysExactly | apps/reference/remote_sim/RemoteSimDaemon.cpp:319-353 | over all runs, what the modem is given besides announcements is exactly what the messages read from connected clients say, in order |
| RemoteSimDaemons.ResponseReachesModem | apps/reference/remote_sim/RemoteSimDaemon.cpp:219-303 | a response of at most 255 bytes, either message with an answer to reset, and a removal, read from a connected client, are given to the modem unaltered before any announcement |
| RemoteSimDaemons.ReceivedIsRelayed | apps/reference/remote_sim/SimConnection.cpp:142-151 | reading the bytes of one write in pieces of the buffer's length relays exactly what Received says, however many they are |
| ApduCorrelation.InvariantStep | apps/reference/remote_sim/CardControl.cpp:292-297 | each event keeps messages and callbacks labelled with the id of their request, no later request under the id of one on its way, the callback map exact and the deliveries correct |
| ApduCorrelation.InvariantRun | apps/reference/remote_sim/CardControl.cpp:292-297 | so does every run |
| ApduCorrelation.ResponsesCorrelate | apps/reference/remote_sim/RemoteSimDaemon.cpp:226-242 | in every run with ids distinct while in use and messages that fit the buffer, lost or out of order as they may be, with the card pulled at any point and the daemon's loop doing whatever else in between: what the daemon's loop gives the modem under an id, which comes from the callback the card was given, is the card's answer to the last request the modem has made with that id, unaltered and at most once; these are all the responses the modem gets; and the keys of apduRespCbMap_ are exactly the ids whose last accepted request is unanswered |
| ApduCorrelation.AnswerReachesModem | apps/reference/remote_sim/RemoteSimDaemon.cpp:78-82 | in every run, an answer of at most 255 bytes is given to the modem, under the id of its request, by the loop turn that reads it |
| ApduCorrelation.IssuedApduReachesCard | apps/reference/remote_sim/RemoteSimDaemon.cpp:355-358 | in every run, a well-formed APDU the modem issued is what the connected card is asked to execute, field by field and under its id |
| TelClients.ThermClient.DisableAutoShutdown | apps/reference/ecall_app/ThermClient.cpp:202-211 | the client registers for notices and commands auto-shutdown off; if that is refused, shutdown is allowed again and the registration undone |
| TelClients.ThermClient.EnableAutoShutdown | apps/reference/ecall_app/ThermClient.cpp:214-219 | shutdown is allowed, auto-shutdown commanded on and the registration undone, whatever becomes of the command |
| CallProgress.ProtectionRenewed | apps/reference/ecall_app/ThermClient.cpp:54-73 | over all event sequences, the client is registered for notices exactly while protection is held, its last command then was to disable auto-shutdown, a notice that auto-shutdown is on is answered at once by a new such command if and only if protection is held, and protection that is held is in force if and only if its last renewal, if any, was accepted |
| CallProgress.CommandsExactly | apps/reference/ecall_app/ThermClient.cpp:201-219 | the commands sent to the thermal manager: one to disable at each set-up, one to enable at each clean-up, one to disable at each notice while shutdown is not allowed, and no others |
| TelClients.TelClient.StartECall | apps/reference/ecall_app/TelClient.cpp:385-424 | on success the slot's entry holds the parameters of this call with all flags reset and the listener is the caller's; on failure only the progress flag is cleared |
| TelClients.TelClient.StartVoiceECall | apps/reference/ecall_app/TelClient.cpp:427-466 | the same for a call to a custom number |
| TelClients.TelClient.AnswerCall | apps/reference/ecall_app/TelClient.cpp:484-517 | the call answered is that of FirstIncoming; without one nothing changes, and a refusal leaves no call and no progress |
| ECalls.FirstIncomingIsFirst | apps/reference/ecall_app/TelClient.cpp:493-500 | it is the first listed call that is incoming and on the slot; there is none only if no listed call is both |
| TelClients.TelClient.Hangup | apps/reference/ecall_app/TelClient.cpp:520-553 | the call hung up is the first one of the slot that has not ended and has the index, if one was given; there is none only if no call qualifies |
| TelClients.TelClient.OnCallInfoChange | apps/reference/ecall_app/TelClient.cpp:185-218 | a dialling call is adopted only if there is none, an ended one is let go only if it is the one held, and the listener is told of exactly these |
| TelClients.TelClient.MakeCallResponse | apps/reference/ecall_app/TelClient.cpp:288-303 | a success stores the call; a failure ends progress and tells the listener |
| TelClients.TelClient.AnswerCommandResponse | apps/reference/ecall_app/TelClient.cpp:321-342 | a failure tells the listener once, forgets it, and leaves no call and no progress |
| TelClients.TelClient.OnECallMsdTransmissionStatus | apps/reference/ecall_app/TelClient.cpp:233-239 | only the slot's MSD status changes; a missing entry appears with default values |
| TelClients.EcallScanFailHandler.OnEmergencyNetworkScanFail | apps/reference/ecall_app/EcallScanFailHandler.cpp:266-289 | the slot is flagged, unless the request for the high-capability slot fails, which erases its entry |
| TelClients.EcallScanFailHandler.RequestSwitch | apps/reference/ecall_app/EcallScanFailHandler.cpp:152-172 | a failed switch request erases the slot's entry and nothing else |
| TelClients.EcallScanFailHandler.FindFlagged | apps/reference/ecall_app/EcallScanFailHandler.cpp:192-198 | the loop finds the least slot with a scan failure, or the invalid slot if there is none |
| TelClients.EcallScanFailHandler.RequestHighCapabilityResponse | apps/reference/ecall_app/EcallScanFailHandler.cpp:175-236 | which entry is flagged for a switch or erased, for each outcome of the query, each slot and each state of the call; and the hang-up of the call in progress is requested exactly when a switch must wait for it and the modem lists it |
| TelClients.EcallScanFailHandler.SetHighCapabilityResponse | apps/reference/ecall_app/EcallScanFailHandler.cpp:110-149 | a completed switch redials the slots of the map in key order, by RedialAll; a failed one changes nothing |
| TelClients.EcallScanFailHandler.Redial | apps/reference/ecall_app/EcallScanFailHandler.cpp:123-131 | the call made has the entry's own parameters and no listener |
| TelClients.EcallScanFailHandler.OnCallInfoChange | apps/reference/ecall_app/EcallScanFailHandler.cpp:291-319 | an ended call asks for the switch exactly if nothing is in progress and its slot is flagged for one |
| TelClients.ECallManager.SetupResources | apps/reference/ecall_app/ECallManager.cpp:278-302 | a voice session for the slot and location updates are asked for, no location fix counts as received, and thermal protection is asked for |
| TelClients.ECallManager.CleanupResources | apps/reference/ecall_app/ECallManager.cpp:308-331 | voice session, location updates and thermal protection are given up and no slot is held |
| TelClients.ECallManager.OnCallConnect | apps/reference/ecall_app/ECallManager.cpp:457-459 | as setup, the voice session being for the slot of the call and phoneId_ staying as it is |
| TelClients.ECallManager.OnCallDisconnect | apps/reference/ecall_app/ECallManager.cpp:450-452 | as cleanup |
| TelClients.ECallManager.OnLocationUpdate | apps/reference/ecall_app/ECallManager.cpp:365-376 | a fix goes into the MSD and, exactly while a call is in progress, to the modem for phoneId_; otherwise it counts as received |
| TelClients.ECallManager.TriggerECall | apps/reference/ecall_app/ECallManager.cpp:130-195 | refused without any change while a call is in progress; accepted, resources are held for the slot, and an MSD to be transmitted has the location fix that came while the call waited for one; not accepted, the resources are released again |
| TelClients.ECallManager.AnswerCall | apps/reference/ecall_app/ECallManager.cpp:200-220 | the same for an incoming call |
| RedialRuns.OneRedialSound | apps/reference/ecall_app/EcallScanFailHandler.cpp:121-137 | a redial uses its entry's own parameters, keeps all parameters, and if accepted clears one scan-fail flag |
| RedialRuns.RedialAllSound | apps/reference/ecall_app/EcallScanFailHandler.cpp:120-143 | so does a whole round: flags still set and successful redials together do not exceed the flags before |
| RedialRuns.RedialAllDialsTheDue | apps/reference/ecall_app/EcallScanFailHandler.cpp:120-143 | a round dials exactly the slots where a switch was wanted and the MSD was transmitted, each once and in key order, with their parameters |
| RedialRuns.RedialsHaveNoListener | apps/reference/ecall_app/EcallScanFailHandler.cpp:113-131 | after a round there is a listener if and only if there was one and no redial was accepted; the call held stays |
| RedialRuns.OtherEvents | apps/reference/ecall_app/EcallScanFailHandler.cpp:152-319 | of the other events only an indication adds a flag, only a user's start changes parameters, and other new entries have default ones |
| RedialRuns.MsdExactly | apps/reference/ecall_app/TelClient.cpp:238-238 | the status reported is stored for its slot, and nothing else changes |
| RedialRuns.ScanFailExactly | apps/reference/ecall_app/EcallScanFailHandler.cpp:266-289 | the query made, the flag set or the entry gone, and nothing else |
| RedialRuns.HighCapabilityExactly | apps/reference/ecall_app/EcallScanFailHandler.cpp:192-225 | for the least slot whose scan failed: its entry is gone if it has high capability, and otherwise it is flagged for a switch, whether or not a call is in progress; the switch is asked for at once if and only if none is, and the entry is gone if that is not accepted |
| RedialRuns.HighCapabilityOtherwise | apps/reference/ecall_app/EcallScanFailHandler.cpp:226-235 | without a failed scan a response does nothing; a failed query costs only the slot of a call in progress its entry |
| RedialRuns.CallEndExactly | apps/reference/ecall_app/EcallScanFailHandler.cpp:296-313 | the end of a call asks for the switch if and only if no call is in progress and one is wanted for the slot |
| RedialRuns.SwitchesAskedSoundly | apps/reference/ecall_app/EcallScanFailHandler.cpp:152-319 | in every run a switch is only asked for with no call in progress and for a slot whose scan has failed |
| RedialRuns.RecoveryRedials | apps/reference/ecall_app/EcallScanFailHandler.cpp:110-319 | the recovery works: an eCall whose scan fails on a slot without high capability leads, whether the response comes before or after the end of the call, to exactly one query and one switch to that slot, asked for once no call is in progress, and when that completes to exactly one redial with the user's parameters if the MSD was transmitted, and to none if it was not or nothing was reported |
| RedialRuns.InvariantStep | apps/reference/ecall_app/EcallScanFailHandler.cpp:110-319 | each event keeps: a switch is wanted only for a slot whose scan failed, redials are bounded, entries hold the user's parameters or the default ones |
| RedialRuns.InvariantRun | apps/reference/ecall_app/EcallScanFailHandler.cpp:110-319 | so does every run |
| RedialRuns.RedialsBounded | apps/reference/ecall_app/EcallScanFailHandler.cpp:110-319 | in every run, successful redials plus slots with eCallNWScanFailed set never exceed the scan-fail indications |
| RedialRuns.RedialsKeepParameters | apps/reference/ecall_app/EcallScanFailHandler.cpp:120-131 | after every run, through any chain of switches and redials, a completed switch redials exactly the due slots, with the parameters of the user's last successful start on the slot if its entry was not erased since, and with default ones otherwise |
| RedialRuns.UnrequestedRedial | apps/reference/ecall_app/EcallScanFailHandler.cpp:266-275 | an input for the second case: with no call ever made, one scan failure and one switch make the application dial an eCall |
| CallProgress.StepExact | apps/reference/ecall_app/TelClient.cpp:185-218 | where the progress flag is exact, an event keeps it so if and only if it is none of four: the end of the call being made, a makeECall failure while eCall_ is set, a makeECall success with nothing in progress, an answer failure while a call is being made |
| CallProgress.RunExact | apps/reference/ecall_app/TelClient.cpp:288-303 | a run keeps the flag exact throughout if and only if none of the four occurs in it |
| CallProgress.ProgressMeansACall | apps/reference/ecall_app/TelClient.cpp:385-517 | over all event sequences from the start, eCallInprogress_ holds exactly while eCall_ is set or a makeECall is unanswered, if and only if none of the four occurs |
| CallProgress.HeldCallIsLive | apps/reference/ecall_app/TelClient.cpp:288-293 | over all event sequences, eCall_ is always a call that has not ended, if and only if no makeECall is said to succeed with one that has |
| CallProgress.CallTakenExactly | apps/reference/ecall_app/TelClient.cpp:193-199 | with no call held, the events that make a given call the one that is held |
| CallProgress.CallLetGoExactly | apps/reference/ecall_app/TelClient.cpp:204-216 | the events after which a given call is held no longer: its own end, a makeECall success with another, an answer failure, and, should nothing be in progress, the answer of another or a refused answer |
| CallProgress.ListenerExactly | apps/reference/ecall_app/TelClient.cpp:330-334 | there is a listener from the first start or answer that is accepted until an answer fails; without one nothing the modem says of a call changes what is held |
| CallProgress.RefusedDuringCall | apps/reference/ecall_app/ECallManager.cpp:136-139 | during a call triggerECall and answerCall change nothing; otherwise triggerECall makes exactly one request, with the parameters given |
| CallProgress.PromisesSuffice | apps/reference/ecall_app/TelClient.cpp:321-342 | a modem that keeps these promises causes neither the four events nor that: each response answers a pending request; a makeECall succeeds with a call that has not ended and fails only if no call dialled while it was unanswered; the call taken for the one being made, or being answered, does not end before the answer |
| CallProgress.PromisedProgress | apps/reference/ecall_app/TelClient.cpp:185-218 | so with such a modem, at every point of every run, eCallInprogress_ holds exactly while eCall_ is set or a makeECall is unanswered, eCall_ is a call that has not ended, and everything is held exactly then, given a listener |
| CallProgress.LateResponseLeavesAGhost | apps/reference/ecall_app/TelClient.cpp:288-303 | for every call, a makeECall response after the end leaves eCall_ set with nothing in progress |
| CallProgress.LateFailureStripsTheCall | apps/reference/ecall_app/TelClient.cpp:294-301 | for every call, a makeECall failure after the call dialled leaves a call that goes on without thermal protection and voice session |
| CallProgress.EndedCallKeepsProtection | apps/reference/ecall_app/TelClient.cpp:291-293 | for every call that the application has not taken up, a makeECall response after its end leaves everything held for a call that is over, though the flag is exact throughout |
| CallProgress.HeldStep | apps/reference/ecall_app/ECallManager.cpp:278-331 | each event, whatever the modem does, keeps what is held for a call exact |
| CallProgress.HeldRun | apps/reference/ecall_app/ECallManager.cpp:130-220 | so does every sequence of events |
| CallProgress.ProtectionNeverLeaks | apps/reference/ecall_app/ECallManager.cpp:130-220 | over all event sequences, voice session and location updates are on exactly while eCallInprogress_ is set and there is a listener, the session for the slot of the last accepted start or answer or of the call adopted since; shutdown is disallowed exactly then unless it was refused at set-up; and phoneId_ is the slot of the last accepted start or answer if eCallInprogress_ has been set ever since, and otherwise none |
| CallProgress.HeldForCallsExactly | apps/reference/ecall_app/TelClient.cpp:185-218 | over all event sequences, they are held exactly while there is a call or one is being made, and a listener, if and only if there is no listener or eCallInprogress_ is right about that |
| CallProgress.HeldForCallsAlways | apps/reference/ecall_app/ECallManager.cpp:278-331 | so they are at every point of a run in which none of the four events occurs |
| CallProgress.UpdatesReachTheCall | apps/reference/ecall_app/ECallManager.cpp:365-376 | over all event sequences, MSD updates go to the slot of the call in progress if and only if triggerECall or answerCall was last accepted for that slot and eCallInprogress_ has been set ever since; with nothing in progress none is sent and the fix counts as received |
| CallProgress.ModemRedialLosesTheSlot | apps/reference/ecall_app/ECallManager.cpp:457-459 | for every redial by the modem after the end of a call: protection and the voice session are for the new call, its MSD updates go to slot -1 |
| Locations.ReportHandler.Cycle | simulation/loc/ReportHandler.cpp:42-60 | one tick advances the three sequence numbers, modulo 2^32 |
| Locations.LocationManagerStub.StartBasicReports | simulation/loc/LocationManagerStub.cpp:318-335 | starts a session of basic reports at the pace of the interval, at least 100 ms, leaving the paces of the other types |
| Locations.LocationManagerStub.StartDetailedReports | simulation/loc/LocationManagerStub.cpp:277-295 | the same for detailed reports |
| Locations.LocationManagerStub.StartDetailedEngineReports | simulation/loc/LocationManagerStub.cpp:297-316 | the same for detailed engine reports |
| Locations.LocationManagerStub.StopReports | simulation/loc/LocationManagerStub.cpp:448-456 | only the report type changes |
| LocationRuns.StoppedDispatchesNothing | simulation/loc/LocationManagerStub.cpp:448-456 | after a stop, in every run up to the next start, nothing is dispatched |
| Locations.LocationManagerStub.InvokeBasicReport | simulation/loc/LocationManagerStub.cpp:71-86 | when due, each live listener is called once in order, the expired ones are erased, and the tick is remembered; otherwise nothing |
| Locations.LocationManagerStub.InvokeDetailedReport | simulation/loc/LocationManagerStub.cpp:88-122 | the same at the pace of detailed reports |
| Locations.LocationManagerStub.InvokeDetailedEngineReport | simulation/loc/LocationManagerStub.cpp:124-160 | the same at the pace of detailed engine reports |
| Locations.LocationManagerStub.Dispatch | simulation/loc/LocationManagerStub.cpp:75-83 | erasing while iterating neither skips nor repeats a live listener, and leaves exactly the live ones |
| Locations.LocationManagerStub.ManagerWake | simulation/loc/LocationManagerStub.cpp:162-189 | one wake-up dispatches the current report type only, and only with a listener registered |
| Locations.LocationManagerStub.RegisterListenerEx | simulation/loc/LocationManagerStub.cpp:227-247 | a live listener is added at the end unless it is there already |
| Locations.LocationManagerStub.DeRegisterListenerEx | simulation/loc/LocationManagerStub.cpp:249-266 | succeeds exactly for a live listener that is registered, and removes its first entry |
| Locations.TerrestrialRequests.GetTerrestrialPosition | simulation/loc/LocationManagerStub.cpp:472-489 | responds with success whether or not a request is pending, replaces the callback and adds a worker |
| Locations.TerrestrialRequests.GetTerrestrialPositionCb | simulation/loc/LocationManagerStub.cpp:458-470 | a worker calls the stored callback exactly if a request is active, and ends it |
| Locations.TerrestrialRequests.CancelTerrestrialPositionRequest | simulation/loc/LocationManagerStub.cpp:491-508 | ends the request; reports success exactly if there was one |
| Locations.EnergyRequests.RequestEnergyConsumedInfo | simulation/loc/LocationManagerStub.cpp:401-426 | replaces the callback and starts a worker exactly if none is pending |
| Locations.EnergyRequests.RequestEnergyConsumedCb | simulation/loc/LocationManagerStub.cpp:390-399 | the worker calls the callback stored last and releases the lock |
| LocationRuns.DispatchesSpaced | simulation/loc/LocationManagerStub.cpp:71-86 | on any subsequence of ticks, dispatches of a session are at least delta + 1 ticks apart |
| LocationRuns.ExactPace | simulation/loc/LocationManagerStub.cpp:71-86 | waking on each of n ticks, the first of them due, dispatches are exactly delta + 1 apart, one for each block of delta + 1 ticks begun |
| LocationRuns.SessionFollowsPace | simulation/loc/LocationManagerStub.cpp:162-189 | in a session, whatever happens to the registry, the dispatches of the run are those the pace gives on its wake-ups, up to the stop if there is one |
| LocationRuns.ReportsPaced | simulation/loc/LocationManagerStub.cpp:162-189 | within one session without wrap-around, stopped or not, with listeners coming, going and expiring and spurious wake-ups, reports are at least delta + 1 ticks apart, and the first is so from the start |
| LocationRuns.ReportsKeepTheInterval | simulation/loc/LocationManagerStub.cpp:277-335 | after a start with any interval, reports come more than that many milliseconds apart, a tick being 100 ms |
| LocationRuns.ReportsExactlyPaced | simulation/loc/ReportHandler.cpp:42-60 | if the manager wakes on each of n ticks, the first of them due, and always has a listener, they are exactly delta + 1 apart and n / (delta + 1) in number, rounded up |
| LocationRuns.ReportsAtTheInterval | simulation/loc/LocationManagerStub.cpp:277-335 | after a start with any interval and of any report type, waking on every tick with a listener there, a report is dispatched on every d-th tick, where d ticks of 100 ms are more than the interval (at least 100 ms) and at most 100 ms more |
| LocationRuns.RegistryRefines | simulation/loc/LocationManagerStub.cpp:227-266 | each event acts on the weak references as on a duplicate-free list of live listeners; a deregistration succeeds exactly for a listener in that list and leaves no copy; a dispatch adds exactly one delivery, of the current report type and tick, for each member of it in order, and drops exactly the expired |
| LocationRuns.RegistryRunRefines | simulation/loc/LocationManagerStub.cpp:71-86 | over every interleaving of registration, deregistration, expiry, dispatch, start and stop the registry refines that list |
| LocationRuns.ShotInvariantStep | simulation/loc/LocationManagerStub.cpp:390-508 | each event keeps the account of requests, callbacks and workers |
| LocationRuns.ShotInvariantRun | simulation/loc/LocationManagerStub.cpp:390-508 | so does every run |
| LocationRuns.TerrestrialRequestsAnsweredOnce | simulation/loc/LocationManagerStub.cpp:458-508 | over every run, a callback comes only right after the request it answers, so never after a cancel; an active request has a worker to come; and requests equal callbacks plus those superseded or cancelled plus the active one |
| LocationRuns.SecondRequestTakesOver | simulation/loc/LocationManagerStub.cpp:472-489 | for any two callbacks: a request made while one is pending succeeds, is answered by the first worker, and the first callback is never called |
| LocationRuns.EnergyRequestsAnsweredOnce | simulation/loc/LocationManagerStub.cpp:390-426 | over every run, cbLock_ holds exactly while one worker is pending and there is never a second, each firing serves the last request, and only requests followed by another one go unanswered |
| ConfigParsers.ConfigParser.constructor | apps/common/ConfigParser.cpp:50-67 | the map is what the settings of the file found make of an empty one, or empty |
| ConfigParsers.ConfigParser.GetValue | apps/common/ConfigParser.cpp:78-86 | the stored value or the empty string |
| ConfigParsers.ConfigParser.ReadConfigFile | apps/common/ConfigParser.cpp:106-133 | the loop stores exactly the assignments of the text, in order, over what was there |
| ConfigParsers.LookupIsLastAssignment | apps/common/ConfigParser.cpp:78-86 | for any assignments and key, the value found is that of the last assignment to the key, or empty |
| ConfigParsers.AssignmentReadsBack | apps/common/ConfigParser.cpp:116-129 | a clean key and value are read back from their line whatever spaces surround them |
| ConfigParsers.LineAssigns | apps/common/ConfigParser.cpp:113-131 | with padding before it and carriage returns anywhere, a blank line or comment assigns nothing and a setting itself |
| ConfigParsers.ParseInvertsPrint | apps/common/ConfigParser.cpp:106-133 | parsing printed lines gives exactly their settings in order, whatever blank lines, comments, padding and carriage returns there are |
| ConfigParsers.MapRoundTrip | apps/common/ConfigParser.cpp:106-133 | a map, with empty values or not, is read back from any text that prints its entries, in any order and any number of times, and nothing else |
| ConfigParsers.ParsedClean | apps/common/ConfigParser.cpp:106-133 | whatever the text, only clean keys and values are stored |
| ConfigParsers.PrintableExactly | apps/common/ConfigParser.cpp:106-133 | the plain line key=value reads back as that setting if and only if key and value are clean and the value is not empty |
| ConfigParsers.ExpressibleExactly | apps/common/ConfigParser.cpp:106-133 | some text assigns just a given setting if and only if its key and value are clean; an empty value can be expressed |
| ConfigParsers.MapExpressibleExactly | apps/common/ConfigParser.cpp:106-133 | some text is read as a given map if and only if all its keys and values are clean |

## Left out

- TCP byte-stream effects: one write is one read of at most 1024 bytes; coalesced and partial transfers are not modelled. What a response too long for that is read as is stated by ResponseWholeOrNothing.
- Sockets, signals, option parsing, logging, file search and the console menus: input and output only. What poll and read report is a parameter.
- SimConnections.SimConnection.HandleClientConnection: two clock readings within one iteration are taken as one, and a failed accept, which is retried, as a success.
- Keepalive.NoFalseDisconnect: starts from an accepted connection with no keepalive pending. The first connection, which initDaemon may hold for up to 5 s before the time of the last message is set, and a pendingKeepalive_ left over from a failed read are outside it.
- Keepalive.ConditionIsExact: for P = 0 nothing is claimed, since daemon iterations that take no time at all would stop the clock of the model.
- CardControls.CardControl.OpenSapConn: opening and powering on are atomic with any outcome; the races of their promises are not modelled, and nothing is claimed about closing, which does not clear cardConnected_.
- Tear-down on exit, for both programs.
- ApduCorrelation.ResponsesCorrelate: requests and responses fit the receive buffer, as all that section 10.1 of ETSI TS 102 221 allows do (LongResponseMisread shows why they have to). Messages may overtake each other here, which the real link does not do; the theorem covers its order among all others.
- Null checks of managers and clients, which start-up establishes, and expired weak pointers to TelClient.
- TelClients.TelClient.StartECall: the MSD is an opaque value, and isCustomNumber, dialNumber and variant of an entry are one choice of what to dial.
- TelClients.ECallManager.SetupResources: that voice session and location updates are asked for is recorded; what AudioClient and LocationClient make of it is not modelled. The same in CleanupResources.
- TelClients.ECallManager.TriggerECall: one atomic step, in which at most one location fix arrives and no other callback comes between its check and its start.
- TelClients.ThermClient.DisableAutoShutdown: the outcomes of registering and deregistering, which the code ignores, are not modelled; the notices that arrive may be any.
- CallProgress.ProgressMeansACall: like all of CallProgress, without the multi-SIM recovery, whose redials have no listener and do not look at the progress flag.
- Locations.LocationManagerStub.Dispatch: which objects are alive is fixed during one dispatch, and the callbacks that the report mask selects count as one delivery.
- Locations.LocationManagerStub.StartBasicReports: the three stores are one step. The floating-point product of the interval with 0.01 is the integer division by 100, to which it truncates for every 32-bit interval.
- LocationRuns.ReportsPaced: no wrap-around of the 32-bit sequence numbers, which takes 13 years of ticks, and no second start within the session.
- Locations.TerrestrialRequests: a class of its own here, as is EnergyRequests; in the code both are parts of LocationManagerStub, and share no field with the reports.
- Locations.EnergyRequests.RequestEnergyConsumedInfo: clients call one at a time, as its second, unlocked store of the callback requires; the amount of energy is not modelled.
- System-info listeners, the year of hardware, response callbacks with a delay, report contents, DGNSS and the location configurator: no logic beyond single branches.
- ConfigParsers.ConfigParser.ReadConfigFile: std::getline, std::ws and the two regular expressions are functions on strings with the behaviour of the C locale.
- AudioClient, LocationClient, MsdProvider and the string tables: thin wrappers and canned data.
