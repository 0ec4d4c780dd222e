# A verified model of the call server and its service logic protocol

The system answers telephone calls.  A C++ call server drives telephony boards
through the Dialogic library; what to do with a call is decided by service logic
written in Python, which the server talks to in small binary messages.  This
project models the parts of it that keep state or transform data, and proves
what they are for.

| files | what they model |
|---|---|
| `bytes.dfy`, `wire.dfy` | octets, little-endian integers, the OFFERED / ANSWERED / PLAY_FINISHED events and the DROP / ANSWER / PLAY commands, with the writers and readers of both ends |
| `udp_spec.dfy`, `udp_request.dfy`, `udp_runs.dfy`, `udp_drain.dfy`, `udp_bound.dfy`, `udp_payload.dfy`, `udp_server.dfy` | the UDP request engine with retries, what it keeps over every run, what one update/recv cycle amounts to, how many cycles a request can outlast, which send put what on the wire, and its Python peer |
| `scp.dfy` | the two ends of the ZMQ link: the server's transport and the service logic script |
| `sessions.dfy`, `diversion.dfy` | the session map; reading Diversion headers (RFC 5806) and the way of the reason code |
| `call_spec.dfy`, `call_server.dfy` | the call server: channel records, call tables, counters, sessions, changed by library events, packets, a shutdown request and exit polls |
| `call_table.dfy`, `call_sessions.dfy`, `call_projection.dfy`, `call_shutdown.dfy`, `call_ledger.dfy`, `call_owed.dfy` | what every run of the call server keeps; its library calls counted against what happened; what the library still owes it |
| `call_commands.dfy` | what the packets of the service logic do, to the letter |
| `call_protocol.dfy` | call server, transport, service logic script and library put together, over any number of calls |
| `call_autoresponder.dfy` | call server and library without service logic, over any number of calls |

The C++ classes and globals are Dafny classes with the same fields, changed in
place; each method is proved equal to a function on the class's whole abstract
state (`View()`), and the theorems about runs are lemmas about those functions.
`Run` and `RunMoves` quantify over every interleaving of steps.

The environment is a parameter.  The clock is an arbitrary function from the
number of readings so far to seconds, assumed not to run backwards where a lemma
says `Monotone`.  What the sockets hold, and what library calls that the code
looks at return, are inputs of a step.  The library's events are steps that
may come in any order; only `call_protocol.dfy` and `call_autoresponder.dfy` make
the library an automaton that reports the calls it was given.  Slot count, attempts, timeout, number of
channels and size of the call table are arbitrary, where the source has 1000,
settings, `MAXCHANS` and `MAX_CALLS`.

## What the code does, where one might expect otherwise

- A request with an empty payload is sent and retried but refused by the Python
  server, which wants at least five octets (`TransmissionReachesCallback`).
- With no attempts configured a request is still sent once, which is why bounds
  use `MaxAttempts`.  A request whose first write to the socket fails is
  reported as failed to the caller but stays active and is retried.  The result
  of a retry's write is ignored.
- The assert behind ANSWERED fails for exactly one kind of event: call number 0 on
  a channel that was never offered a call, since blank table entries hold 0
  (`AnsweredAssert`).  The one behind the end of a play fails exactly for a device
  of a channel that was never offered a call (`PlayDoneAssert`).
- In autoresponder mode a call answered after the shutdown request is played to as
  if nothing had happened.  That is the only step without new business that can
  put a channel back to work (`RankRisesExactly`, with a run from the
  initial state in `AnsweredAfterDeinitPlays`).
- A DROP for a channel without a call hangs up call number 0 and has the channel wait
  for a release that no library can report, so that the program does not end either
  (`DropHangsUp`, `ReportedNotWaiting`).
- A call that is answered but not playing is not hung up at shutdown: its channel
  is idle and is just closed.
- The OFFERED event carries the reason of the header even if no number was
  complete, while the channel record then keeps 0.
- The checked reader's `read2Bytes` returns a position one too far (+3).  Nobody
  uses it.  Checked and unchecked readers accept the same octet strings
  (`ReadersAgree`).
- Copying a received UDP payload to the caller takes four octets too many, so that it
  stays within the receive buffer if and only if the datagram has at most
  MAX_DATAGRAM_SIZE - 4 octets (`TryReceiveFromSocket`); the payload reported is
  right up to MAX_DATAGRAM_SIZE octets, beyond which the socket cuts it off
  (`ResponseReturned`).
- The ZMQ transport copies a payload of any size into its caller's buffer of
  MAX_DATAGRAM_SIZE octets.  Of the commands only a PLAY of a name of more than
  MAX_DATAGRAM_SIZE - 3 octets leaves it (`CommandFrameRoundTrip`); nothing the
  script sends does (`LinkRoundTrip`).
- The session counter hands out `UNKNOWN_SESSION` after exactly 2^32 - 1 creations
  (`UnknownHandedOut`).

## Model

| member | source | states |
|---|---|---|
| UdpRequest.UDPRequest.constructor | callserver/udp_request.cpp:24-80 | all slots inactive, cursor at 0, socket not processed; ready exactly if the socket could be set up |
| UdpRequest.UDPRequest.Send | callserver/udp_request.cpp:87-103 | refuses when not ready or when the slot is taken; else activates the slot with id and payload as frame, and makes the first attempt |
| UdpPayload.SendLogged | callserver/udp_request.cpp:97-109 | an accepted send puts exactly one frame on the wire, of 4 octets more than its payload: the id reads back from it, and behind the id stands the payload that send was given |
| UdpPayload.SendIsLogged | callserver/udp_request.cpp:87-109 | in every run the entry of each accepted send stays in the log with its id and payload |
| UdpPayload.TransmissionHasSend | callserver/udp_request.cpp:97-109 | in every run each transmission, first or retry, carries id and payload of an operation of the run, the last accepted send of its id |
| UdpPayload.DueAfterTimeout | callserver/udp_request.cpp:105-108 | in every run an active request is due exactly the timeout after its last transmission |
| UdpRequest.UDPRequest.Transmit | callserver/udp_request.cpp:105-116 | one attempt: new deadline, attempt counted, the stored frame put on the wire, whatever the socket answers |
| UdpRequest.UDPRequest.TryReceiveFromSocket | callserver/udp_request.cpp:118-143 | takes one datagram, cut off at the buffer; true exactly for one with an id of this engine, whose payload is what follows the id; the copy stays within the buffer if and only if the datagram has at most MAX_DATAGRAM_SIZE - 4 octets |
| UdpRequest.UDPRequest.Update | callserver/udp_request.cpp:148-152 | begins a cycle: socket to be read again, cursor at slot 0, slots untouched |
| UdpRequest.UDPRequest.Recv | callserver/udp_request.cpp:154-200 | one event or none: a reply while the socket phase lasts, else the scan resumed at the cursor |
| UdpRequest.UDPRequest.ScanRequests | callserver/udp_request.cpp:172-196 | the loop over slots is the recursive scan of the specification, from any cursor |
| UdpRequest.UDPRequest.VisitRequest | callserver/udp_request.cpp:174-195 | one turn of that loop: skip, resend, or give up leaving the cursor on the slot |
| UdpRequest.UDPRequest.DrainAll | callserver/udp_request.cpp:154-200 | calling recv until it returns false ends and yields the events of the specification's drain |
| UdpSpec.ScanFacts | callserver/udp_request.cpp:172-199 | a scan moves the cursor forward only; it deactivates the one slot it reports and no other |
| UdpSpec.RecvConsumes | callserver/udp_request.cpp:154-200 | every event uses up a queued datagram or an active slot; none means the cycle is over |
| UdpRuns.RunKeepsInv | callserver/udp_request.cpp:87-200 | every interleaving of send, update, recv and arrivals, under any clock that does not run back, keeps the invariant relating slots and cursor to the whole log |
| UdpRuns.TimeoutTiming | callserver/udp_request.cpp:105-192 | a timeout follows exactly the allowed number of attempts since the accepted send and comes at least attempts * (timeout + 1) seconds after it |
| UdpRuns.RequestConservation | callserver/udp_request.cpp:87-196 | per slot, accepted sends = timeouts + replies that found it active + (1 if active); attempts within bounds; at most one retransmission a cycle |
| UdpRuns.RetransmissionsIdentical | callserver/udp_request.cpp:97-109 | every retransmission repeats the frame of its accepted send octet for octet, and the frame starts with the slot's id |
| UdpRuns.CycleComplete | callserver/udp_request.cpp:148-200 | when recv returns false, no active request was due when the cycle began, even with a moving clock and sends in between |
| UdpBound.CycleAdvances | callserver/udp_request.cpp:148-200 | a cycle that finds a request overdue brings it to an end or uses up one of its attempts, whatever is sent and arrives meanwhile |
| UdpBound.AnsweredOrReported | callserver/udp_request.cpp:148-200 | in every run, a request is answered or reported by the time the cycles that found it overdue outnumber the attempts it had left |
| UdpDrain.ExpiriesMeaning | callserver/udp_request.cpp:174-191 | the rule's list of timeouts holds exactly the overdue slots without attempts left, in increasing order |
| UdpDrain.ResendsMeaning | callserver/udp_request.cpp:174-180 | the rule's list of retransmissions holds exactly the other overdue slots, in increasing order, with their stored frames |
| UdpDrain.ScanPhase | callserver/udp_request.cpp:171-199 | repeated recv calls, resumed at each timeout, make one sweep over the slots behind the cursor |
| UdpDrain.SocketPhase | callserver/udp_request.cpp:157-169 | repeated recv calls first deliver the usable datagrams in order, up to the first unusable one |
| UdpDrain.DrainIsOneShot | callserver/udp_request.cpp:148-200 | with the clock standing still, update and recv until false is the one-shot rule: replies, then timeouts; resends and nothing else on the wire; every slot as the rule says |
| UdpDrain.DrainBound | callserver/udp_request.cpp:154-200 | a drain reports at most queued datagrams + active slots events, whatever the clock does |
| UdpDrain.DrainEnds | callserver/udp_request.cpp:154-200 | after a drain, recv keeps returning false and changes nothing |
| UdpServer.SCPRequestHandler.Handle | services/udp_server.py:18-27 | under five octets nothing; else the id is remembered with its sender and id and payload go to the callback |
| UdpServer.SCPRequestHandler.SendResponse | services/udp_server.py:29-40 | id and data go back to whoever last sent a request under that id; nothing without one |
| UdpServer.UnframeFrame | services/udp_server.py:20-27 | unframing undoes framing, except that an empty payload is refused |
| UdpServer.TransmissionReachesCallback | callserver/udp_request.cpp:97-109 | any transmission in any run, first or retry, gives the server's callback exactly the id and payload that an operation of the run was given to send; an empty payload is refused |
| UdpServer.SendReachesCallback | services/udp_server.py:20-27 | conversely every accepted send of a run is transmitted and gives the callback its id and payload |
| UdpServer.ResponseReturned | callserver/udp_request.cpp:118-163 | the server's response comes out of recv under the same id and frees exactly that slot; its payload is intact if and only if the response fits the receive buffer |
| Wire.OutStream.SerializeOffered | callserver/ssp_scp_interface.hpp:71-86 | three texts, each behind the low octet of its length, and a 16-bit reason |
| Wire.OutStream.Serialize | callserver/ssp_scp_interface.hpp:48-53 | the event's code and then its body |
| Wire.Pack | callserver/tests/scp_interface.py:56-66 | the Python writer gives the same octets as the C++ one, and fails exactly on texts or reasons that do not fit |
| Wire.EvOfferedReader.Unpack | callserver/tests/scp_interface.py:27-54 | true exactly for octets that decode; then the fields are the decoded ones; the reason is untouched on failure |
| Wire.EvOfferedReader.UnpackUnchecked | services/scp_interface.py:20-38 | returns exactly for octets the slicing reader can take, with its fields; raises otherwise |
| Wire.OfferedRoundTrip | callserver/tests/scp_interface.py:27-66 | decoding an encoded OFFERED body followed by any octets gives back numbers and reason |
| Wire.OfferedRoundTripLimit | callserver/ssp_scp_interface.hpp:71-86 | the round trip holds if and only if each text has at most 255 octets |
| Wire.DecodedIsEncoded | callserver/tests/scp_interface.py:27-54 | whatever decodes begins with the encoding of what it decodes to |
| Wire.PrefixRejected | callserver/tests/scp_interface.py:45-54 | every proper prefix of an encoded body is rejected |
| Wire.ReadersAgree | services/scp_interface.py:20-38 | on every octet string the unchecked reader succeeds exactly when the checked one returns True, with the same four fields |
| Wire.EventsDiffer | callserver/ssp_scp_interface.hpp:48-115 | no two events whose texts fit are written alike, results of plays included |
| Wire.Construct | callserver/ssp_scp_interface.cpp:84-93 | the factory for the command code reads the command; no factory for an unknown code |
| Wire.InStream.Read | callserver/ssp_scp_interface.cpp:42-77 | reading takes what there is; a short read keeps the rest of the caller's buffer |
| Wire.InStream.ConstructDrop | callserver/ssp_scp_interface.cpp:44-48 | a DROP is read off the stream as the specification's parser reads it |
| Wire.InStream.ConstructPlay | callserver/ssp_scp_interface.cpp:70-77 | so is a PLAY, whose name is padded with zeros if the octets run out |
| Wire.CommandRoundTrip | callserver/tests/scp_interface.py:78-97 | a written command, followed by any octets, is readable and parses back to itself |
| Scp.TransportZMQ.GetNextRequestID | callserver/transport.hpp:17-19 | ids count up from 0 and wrap at 2^32 |
| Scp.TransportZMQ.Send | callserver/transport_zmq.cpp:44-54 | request id, session and the serialized event, in one frame |
| Scp.TransportZMQ.Recv | callserver/transport_zmq.cpp:70-113 | session and payload of a frame of at least nine octets, the payload at the start of the caller's buffer and the rest of it as before; nothing for none or a shorter one; the copy leaves the buffer exactly if the payload is larger |
| Scp.SendResponse | callserver/tests/scp.py:17-23 | the reply echoes request id and session before the payload |
| Scp.Process | callserver/tests/scp.py:26-67 | OFFERED is answered by ANSWER if it decodes, ANSWERED by PLAY, PLAY_FINISHED by DROP; anything else by nothing |
| Scp.DropCall | callserver/tests/scp_interface.py:78-83 | the DROP command for a reason of 16 bits; an error for any other |
| Scp.PlayFragment | callserver/tests/scp_interface.py:91-97 | the PLAY command for a name whose length has 16 bits; an error for a longer one |
| Scp.RequestAnswered | callserver/tests/scp.py:26-64 | any message that begins with a frame of an event, whatever follows, is answered by the event's command under its ids |
| Scp.AnsweredExactly | callserver/tests/scp.py:26-64 | the script answers a message if and only if it is such a request: an OFFERED event that is all there, or one of the other two codes; it is silent on everything else |
| Scp.RespondToEvent | callserver/tests/scp.py:26-64 | every event the server can frame gets exactly the script's command, under the same request id and session |
| Scp.CommandFrameRoundTrip | callserver/transport_zmq.cpp:91-102 | a command frame gives back request id, session and command, if and only if its payload fits the receive buffer: always but for a PLAY of more than MAX_DATAGRAM_SIZE - 3 octets |
| Scp.LinkRoundTrip | callserver/tests/scp.py:17-64 | event out, command back: same request id, same session, the script's command, within the receive buffer |
| Sessions.SessionList.CreateSession | callserver/sessions.hpp:22-29 | the next id, mapped both ways; the channel's previous session stays mapped to it |
| Sessions.SessionList.GetNewSessionID | callserver/sessions.hpp:13-15 | hands out the counter and advances it modulo 2^32 |
| Sessions.SessionList.GetChannelBySession | callserver/sessions.cpp:5-11 | the channel of a session, -1 for an unknown one |
| Sessions.SessionList.GetSessionByChannel | callserver/sessions.cpp:13-19 | the current session of a channel, UNKNOWN_SESSION without one |
| Sessions.CreateAllMeaning | callserver/sessions.hpp:13-29 | below 2^32 creations the k-th session is k and stays with its channel, and a channel's session is the greatest created on it |
| Sessions.SessionLookups | callserver/sessions.cpp:5-19 | no session is UNKNOWN_SESSION; looking up a channel's session and its channel is the identity; different channels have different sessions |
| Sessions.SessionsStay | callserver/sessions.hpp:22-29 | later creations never move a session to another channel |
| Sessions.UnknownHandedOut | callserver/sessions.hpp:13-15 | UNKNOWN_SESSION is handed out exactly after 2^32 - 1 creations |
| Diversion.GetSIPRdPN | callserver/callserver.cpp:1143-1199 | the loop over parameters computes the specification's redirection for any parameter block |
| Diversion.ReadField | callserver/callserver.cpp:1164-1183 | finding tag and semicolon and taking what lies between gives exactly the field, with no length below zero |
| Diversion.ReadDiversion | callserver/callserver.cpp:1158-1193 | one header value changes number and reason each only if it is complete in it |
| Diversion.EndBehindTag | callserver/callserver.cpp:1167-1182 | the length handed to substr never runs below zero |
| Diversion.FieldAfterMeaning | callserver/callserver.cpp:1164-1182 | the two searches return a text if and only if the header carries it: after the first tag, up to a semicolon, holding none |
| Diversion.FieldHasNoSemicolon | callserver/callserver.cpp:1168-1182 | no extracted field holds a semicolon |
| Diversion.RedirectMeaning | callserver/callserver.cpp:1154-1196 | number and reason each come from the last Diversion value in which that field is complete |
| Diversion.RedirectDefault | callserver/callserver.cpp:1150-1198 | the result says exactly whether some number was complete; what no value completes keeps its initial value; the code is that of the reason |
| Diversion.NumberRoundTrip | callserver/callserver.cpp:1161-1173 | the number of a printed header is read back if and only if it holds no semicolon |
| Diversion.ReasonRoundTrip | callserver/callserver.cpp:1175-1193 | behind a clean number, the reason is read back if and only if it holds no semicolon |
| Diversion.MissedCallAnswers | services/missed_call/missed_call.py:20-29 | every OFFERED event that fits its length octets is answered by a DROP of the same reason |
| CallCommands.AnswerAsks | callserver/callserver.cpp:1317-1328 | a packet with ANSWER asks the library once for the first call of the session's channel, to accept or to answer it as configured, and changes nothing else |
| CallCommands.PlayPlays | callserver/callserver.cpp:1330-1332 | a packet with PLAY makes the library play exactly that file, if it opens; the channel is in PLAY exactly if it starts |
| CallCommands.DropHangsUp | callserver/callserver.cpp:1334-1338 | a packet with DROP of any code adds exactly one hang-up of the channel's first call, with 480, 486 or the normal reason exactly as the code says, and leaves the channel waiting for its release |
| CallCommands.StrayPackets | callserver/callserver.cpp:642-664 | packets for sessions never created and empty ones change nothing; for a live session exactly an unknown code ends the program |
| CallCommands.ReasonReachesLibrary | callserver/callserver.cpp:1288-1338 | from header through event, missed-call service and DROP packet to the call of the library: the hang-up is made once, with 480 and 486 exactly for "unavailable" and "user-busy" |
| CallServer.CallServer.constructor | callserver/callserver.cpp:545-598 | all channels in PState NULL with blank tables, no sessions |
| CallServer.CallServer.RegNewCall | callserver/callserver.cpp:1201-1213 | the shifting loop puts the call first, moves the others on and forgets the last, for any table size |
| CallServer.CallServer.GetCallNdx | callserver/callserver.cpp:1215-1221 | the first place holding the number, -1 if none does |
| CallServer.CallServer.GetIndexByVoice | callserver/callserver.cpp:1223-1230 | the first channel with the voice handle, -1 if none has it |
| CallServer.CallServer.InitPlayFragment | callserver/callserver.cpp:1232-1261 | the channel is in PState PLAY exactly if the play was started; else nothing but the call made is recorded |
| CallServer.CallServer.InitDisconnect | callserver/callserver.cpp:1263-1269 | PState RELEASING and the first call of the table hung up |
| CallServer.CallServer.NotifyScp | callserver/callserver.cpp:1090-1095 | the event goes out under the channel's session; without one the assert ends the program |
| CallServer.CallServer.OnUnblocked | callserver/callserver.cpp:773-805 | voice device attached if it could be opened; calls are awaited exactly if it is ready |
| CallServer.CallServer.RecordRedirection | callserver/callserver.cpp:819-835 | the redirecting number and its reason code if the headers hold a number, else neither; the code handed on is the header's in both cases |
| CallServer.CallServer.RecordOffered | callserver/callserver.cpp:809-881 | the whole channel record of an offered call, number and reason of the Diversion headers included |
| CallServer.CallServer.OnOffered | callserver/callserver.cpp:809-881 | counters, record, and: a new session and an OFFERED event, or an acknowledgement, accept or answer, as configured |
| CallServer.CallServer.OnAnswered | callserver/callserver.cpp:904-940 | unknown calls are hung up; known ones become CONNECTED and are played to, reported, or hung up by mode |
| CallServer.CallServer.OnDisconnected | callserver/callserver.cpp:952-990 | PState RELEASING; hung up unless the call was DISCONNECTED before |
| CallServer.CallServer.OnReleaseCall | callserver/callserver.cpp:1009-1035 | count of used channels lowered, RELEASING becomes IDLE, an IDLE call is blanked out of the table |
| CallServer.CallServer.OnResetLineDev | callserver/callserver.cpp:1036-1045 | the loop blanks the whole table and calls are awaited again |
| CallServer.CallServer.ProcessLineEvent | callserver/callserver.cpp:720-1060 | the event switch, every case, is the specification's step, touching nothing else |
| CallServer.CallServer.ProcessVoiceEvent | callserver/callserver.cpp:1075-1113 | the end of a play on a known device hangs up, or reports to the service logic, by mode |
| CallServer.CallServer.ExecuteCommand | callserver/callserver.cpp:1315-1340 | what each command does to its channel and the library |
| CallServer.CallServer.ProcessPacket | callserver/callserver.cpp:642-669 | unknown sessions and empty packets are refused without effect; a known command runs on the session's channel; an unknown code ends the program |
| CallServer.CallServer.Deinit | callserver/callserver.cpp:223-255 | every calling or playing channel is hung up (and its play stopped) and RELEASING; all others are as before |
| CallServer.CallServer.InterruptHandler | callserver/callserver.cpp:131-136 | Deinit and the interrupted flag |
| CallServer.CallServer.CheckAppExitCondition | callserver/callserver.cpp:680-713 | once interrupted, closes every idle channel; true exactly if interrupted and all channels are SHUTDOWN |
| CallSpec.LineTouches | callserver/callserver.cpp:720-1060 | an event of a line changes only that channel's record and log; only an offered call in SSP mode touches the sessions |
| CallSpec.LineTable | callserver/callserver.cpp:720-1060 | what each event of a line does to the call table |
| CallSpec.ApplyKeepsValid | callserver/callserver.cpp:642-1141 | every step keeps tables, logs and session maps well-formed |
| CallTable.FoundInWindow | callserver/callserver.cpp:1215-1221 | in a window on a full account a call is found at its recency exactly if it is recent enough and not released |
| CallTable.TableFollows | callserver/callserver.cpp:1024-1042 | the table follows an account that forgets nothing through every event |
| CallTable.TableIsWindow | callserver/callserver.cpp:1201-1221 | in every run, for any table size, place i holds the i-th latest call since the last reset, blank if released from IDLE; call numbers are distinct.  Assumed of the events about a call only: number not 0, and a new one not used since the reset |
| CallTable.CallFound | callserver/callserver.cpp:1215-1221 | in every run a call number is found, at its recency, exactly if it is unreleased and among the latest MAX_CALLS |
| CallSessions.RunSessions | callserver/callserver.cpp:842-848 | over every run the session maps stay mutually consistent and no session moves |
| CallSessions.AnswerReachesChannel | callserver/callserver.cpp:642-668 | an event of a channel, answered by the script, runs exactly the script's command on that channel, whatever steps lie in between, and the reply echoes the request id |
| CallSessions.RunBacked | callserver/callserver.cpp:842-848 | in every run of the SSP mode a channel has a session exactly if a call was offered to it, and every call and play has one behind it |
| CallSessions.AnsweredAssert | callserver/callserver.cpp:919-925 | after any run the assert behind ANSWERED fails if and only if the call number is 0 and the channel was never offered a call |
| CallSessions.PlayDoneAssert | callserver/callserver.cpp:1090-1095 | after any run the assert behind the end of a play fails if and only if the device's channel was never offered a call; never for a play the server started |
| CallSessions.NeverAborts | callserver/callserver.cpp:642-1141 | with distinct non-zero handles, non-zero call numbers, known commands and ends only of started plays, no run aborts |
| CallProjection.OtherUnnoticed | callserver/callserver.cpp:720-1141 | a step of another channel is not noticed by a channel |
| CallProjection.Projection | callserver/callserver.cpp:642-1141 | after any run, a channel's record, library calls and messages (up to session ids) are those of the run cut down to its own steps and the broadcasts |
| CallLedger.BooksBalance | callserver/callserver.cpp:773-1057 | in every run a channel has waited for calls once for each reset and each unblocking that found its voice device, reset its line once for each failed task, and released a call once for each report that it was dropped; its flags say whether it was ever unblocked and given a voice device |
| CallLedger.CountersCount | callserver/callserver.cpp:773-1010 | in every run the counters are the calls offered, the calls offered less those released, and the voice devices given |
| CallLedger.UnblockedWaits | callserver/callserver.cpp:773-805 | unblocking adds exactly one wait for calls if and only if the voice device is there or comes with it |
| CallLedger.TaskFailRecovers | callserver/callserver.cpp:1036-1057 | a failed task resets the line once, and the reset ends in an empty table and one wait for calls |
| CallLedger.DisconnectedOnce | callserver/callserver.cpp:952-990 | a call that the other side ends is hung up exactly once and its channel waits, however often that is reported |
| CallLedger.StrangersHungUp | callserver/callserver.cpp:904-990 | connected calls, and answered or disconnected calls that are not in the table, are hung up |
| CallLedger.InterruptHangsUp | callserver/callserver.cpp:223-255 | the shutdown request adds exactly one normal hang-up of the first call to each channel calling or playing, after stopping the voice exactly if it plays, and nothing to any other |
| CallLedger.PlayDoneHangsUp | callserver/callserver.cpp:1087-1089 | without service logic the end of a play adds exactly one normal hang-up and has the channel wait for the release |
| CallOwed.RunOwed | callserver/callserver.cpp:952-1035 | in every run a channel waiting for its release has a call that was hung up and not reported released since |
| CallOwed.ReportedNotWaiting | callserver/callserver.cpp:952-1035 | once every hang-up was followed by the report of a release, the channel does not wait |
| CallOwed.ReportedLibraryEnds | callserver/callserver.cpp:680-713 | over a whole life of the program: if every hang-up was followed by the report of a release, the poll after the shutdown request and a quiet run ends the program |
| CallShutdown.DeinitReleases | callserver/callserver.cpp:223-255 | after the shutdown request no channel is calling or playing; exactly those that were are RELEASING |
| CallShutdown.ExitCondition | callserver/callserver.cpp:680-713 | a poll ends the program if and only if it was interrupted and no channel is in a call or waits for a release |
| CallShutdown.ShutdownEnds | callserver/callserver.cpp:680-713 | after the request and any quiet run, the next poll ends the program if and only if every waiting channel had its release |
| CallShutdown.RunUnclosed | callserver/callserver.cpp:680-713 | in every run before the shutdown request no channel is closed or SHUTDOWN, polls included |
| CallShutdown.ClosedOnceMore | callserver/callserver.cpp:686-695 | from any state, the request, a quiet run and the poll that ends the program pass a channel to gc_Close once more, unless it was SHUTDOWN |
| CallShutdown.ClosedOnce | callserver/callserver.cpp:686-695 | over a whole life of the program (any run, the request, a quiet run, the ending poll) each channel is passed to gc_Close exactly once |
| CallShutdown.RankSumFalls | callserver/callserver.cpp:223-255 | if no channel's rank rises the sum does not, and one that falls lowers it |
| CallShutdown.QuietRank | callserver/callserver.cpp:1009-1015 | quiet steps never raise the rank sum over PStates; a release of a waiting channel and a close lower it |
| CallShutdown.RankRisesExactly | callserver/callserver.cpp:904-940 | of the steps that bring nothing new, exactly an autoresponder's started play on a late answer raises the rank sum |
| CallShutdown.AnsweredAfterDeinitPlays | callserver/callserver.cpp:904-940 | a run from the initial state: call offered, shutdown requested, call answered; a poll before the answer would have ended the program, after it the channel plays and a poll waits |
| CallProtocol.UnblockedReady | callserver/callserver.cpp:773-805 | a channel unblocked with a handle of its own waits for calls and is ready for them |
| CallProtocol.OfferMove | callserver/callserver.cpp:809-881 | on a ready channel a call can be offered and leads to the first phase: one OFFERED frame under way |
| CallProtocol.ScpMove | callserver/tests/scp.py:26-64 | reading an event frame, the script puts exactly its command's frame under way |
| CallProtocol.ServerMove | callserver/callserver.cpp:617-669 | reading a command frame, the server makes exactly the one library call it stands for |
| CallProtocol.OneInFlight | callserver/callserver.cpp:809-1113 | in each phase exactly one frame or library call is under way, none when the call is done |
| CallProtocol.PhaseFollows | callserver/callserver.cpp:720-1113 | in each phase exactly one kind of move is possible, and it leads the whole system to exactly the next phase |
| CallProtocol.MovesLeftFalls | callserver/callserver.cpp:720-1113 | the measure falls by one with each move |
| CallProtocol.TraceCount | callserver/callserver.cpp:642-1113 | a call is answered, played to, hung up and released once each |
| CallProtocol.CallEnds | callserver/callserver.cpp:1009-1035 | a finished call leaves PState IDLE, its place in the table blank, the count of used channels restored, exactly its trace in the log, other channels untouched, and the channel ready |
| CallProtocol.EveryRunExplained | callserver/callserver.cpp:720-1113 | after any moves, all calls but possibly the last are over and the last is in one of its phases, server state, frames and library calls being exactly those of the phase |
| CallProtocol.Alternation | callserver/tests/scp.py:26-64 | in every reachable state one thing is under way if a call is on and nothing otherwise, and something can go on exactly while a call is on |
| CallProtocol.EveryCallEnds | callserver/callserver.cpp:720-1113 | n calls take at most 12 n moves (11 n without accepting first); with all of them taken the channel is free and IDLE, the places of all calls in the table are blank in front of the older entries, the count of used channels is restored, and each call was answered, played to, hung up and released once |
| CallAutoresponder.UnblockedReady | callserver/callserver.cpp:773-805 | the same without service logic |
| CallAutoresponder.OfferMove | callserver/callserver.cpp:850-879 | a call offered to a ready channel is acknowledged, accepted or answered, as configured, its numbers and reason recorded |
| CallAutoresponder.PhaseFollows | callserver/callserver.cpp:882-1113 | in each phase of a call only the library's report is possible, and it leads the whole system to exactly the next phase, whether the play starts, is refused or has no file |
| CallAutoresponder.CallEnds | callserver/callserver.cpp:1009-1035 | a finished call leaves PState IDLE, its place blank, the counter restored, exactly its trace in the log and the channel ready |
| CallAutoresponder.EveryRunExplained | callserver/callserver.cpp:720-1113 | after any moves, all calls but possibly the last are over and the last is in one of its phases |
| CallAutoresponder.EveryCallEnds | callserver/callserver.cpp:720-1113 | for every acknowledgement and acceptance setting, n calls take at most 7 n moves and the library owes exactly one report while a call is on; once none is, each was answered, hung up and released once, and played the default fragment once if the library started every play |

## Left out

- The Dialogic library, sockets and ZMQ: their calls are entries of a log, their events and results inputs of a step; a poll that reports readiness without input pending is not modelled.
- Settings, logging, statistics files, `iott`/`xpb`/file handles, the callflow and SDP database programs, the plugin manager, `net_server.py`, `config.py`.
- The timeout branch of `processNetwork` (callserver/callserver.cpp:634-638), which hands a session id to a function of channels and which the ZMQ transport never takes; its loop is a sequence of packet steps.
- Deletion of sessions, declared in callserver/sessions.hpp:31 and never defined; commands for an old session run on its channel, as in the source.
- Outbound calls: `InitNewCall` is never called, so no run of the model enters PState CALLING.
- Reading a DROP or PLAY whose fixed-size field is cut short uses uninitialised memory in the source; `Readable` excludes it.  A PLAY whose name is cut short is modelled.
- Names with a NUL octet, which the source cuts when opening the file, and numbers of `MAX_NUMSIZE` octets and more, which `strncpy` cuts in the channel record.
- Texts are octet strings; a Python reader fails on octets that are not UTF-8, which is not modelled.
- What is undefined: the octets behind the receive buffer that the copy of a UDP payload reads from a datagram of more than `MAX_DATAGRAM_SIZE` - 4 octets (they lie behind the reported length), and everything after a ZMQ payload larger than the buffer.  The protocol's moves exclude the latter, and no reachable state needs that.
- `intr_hdlr` is an asynchronous signal handler; the model assumes that the signal arrives between two steps.  One that arrives inside a step, say between callserver/callserver.cpp:1242 and 1251, finds the channel IDLE and leaves it to become PLAY, as the late answer above does.
- Matching a reply to one generation of a slot's request: ids are reused and late replies are delivered, as in the source.
- The order of library calls of different channels: the log is kept channel by channel.
- CallProtocol.EveryCallEnds: for one channel, with a library whose calls succeed and no remote hang-up; a play file that cannot be opened in SSP mode is reported to nobody, so such a call waits for ever.
- CallAutoresponder.EveryCallEnds: for one channel, without remote hang-up; what the other side can do to a call is in CallLedger and CallOwed.
- CallOwed.ReportedLibraryEnds: assumes that numbers of calls are not 0 and not used twice between resets, and that a disconnected call is reported released only after that it was reported dropped.
- CallProtocol.Alternation: for one channel; several channels with calls under way at once would break the lockstep of the one REQ socket.
- A Python handler object is made anew for each request by its framework; the model's handler may live on.
