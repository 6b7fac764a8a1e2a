# Verified model of the CROSSCON UC1 client

The client of this repository answers the challenges of a server: over a TLS
connection it receives three messages, puts each of them to a trusted application
in another virtual machine through one shared page, and sends the results back.
This project models that path, and two small programs beside it, and proves what
they promise.

* **The link.** `Channel.dfy` is a connection as one end sees it: a schedule of
  short reads, retries, closes and errors, and a log whose reads are the input that
  has been read. `Framing.dfy`, `Reception.dfy` and `Transmission.dfy` are the framing
  (`55 55 55 55`, payload, `FF FF FF FF`) and the acknowledgement: the receiver as an
  automaton, what it returns on every input, and the loops of the program proved to
  compute exactly that. `Fragmentation.dfy` says that the way the input is cut does not
  matter.
* **The exchange.** `Protocol.dfy` and `Exchange.dfy` are the stop-and-wait exchange
  of one record as a system of two automata and two byte channels that may be cut
  at any time: an invariant of every event, agreement in every reachable state,
  transfer, and exactly when an exchange completes. `Memory.dfy`, `Challenge.dfy` and
  `Parties.dfy` are the records with their heap buffers and the two ends as methods,
  each shown to be a run of its automaton. `Records.dfy` joins the two calls: what the
  receiver's record holds and what both return, however the calls interleave.
  `Streams.dfy` takes several exchanges on one connection in which the ends change
  roles. `Outcomes.dfy` says for any input and any write schedule where the sender and
  the receiver stop, and when they succeed.
* **The calls.** `SharedPage.dfy` is the layout of the shared page, `Staging.dfy` what
  driver and caller write into it and the other side reads back, `Puf.dfy` the driver,
  the interrupt handler and the sequence of calls. The trusted application is an
  arbitrary function of all the pages it has been shown; it is asked only to leave the
  call type and the parameter entries of the header alone. `Pages.dfy` says byte by
  byte what is in the five pages it is shown, and where its results are taken from.
  The sleeps of the program appear as the assumption that a call is answered before
  the sleep ends.
* **The session.** `Session.dfy` is the part of `test_socket_connection` from the first
  buffer to the cleanup, with every allocation allowed to fail. `EndToEnd.dfy` puts
  link and calls together: what the server sent is what the trusted application saw,
  and what it left is what the server gets. `Endings.dfy` says how a session ends on a
  connection that is not cut and on one that is.
* **Beside it.** `EchoBot.dfy` has the interrupt-driven line assemblers of the echo
  bots with their bounded, lossy queues, `DumpParser.dfy` and `Command.dfy` the script
  that makes a command line out of the hex dumps in a log. `Bytes.dfy` has machine
  integers and little-endian encoding.

Four things in the code are worth knowing, and are kept in the model. The tests
`readExact(...) < 0` in `recStream` never hold; reception is sound all the same as
long as a closed connection stays closed, because the comparison buffer still holds
the start sequence where nothing was read (`Reception.ReceiveSound`), and
`Reception.AcceptedExactly` says what happens otherwise. The driver's calls return 0
whatever the trusted application answers, so that `challenge_puf` returning 0 is not
its success (`PufCaller.Guest.ChallengePuf`). A sender gives up on any write of a frame
that is not taken whole, also when TLS only asks for the write to be repeated, while
reads and the acknowledgement are repeated (`Outcomes.RetryEndsExchange`,
`Exchange.CompletesExactly`, `Records.UncutResults`). A line end at the start of a line
is an ordinary byte, so that CRLF text comes out with an LF before every line but the
first (`EchoBot.CrLfLines`).

`dafny verify dfyconfig.toml` checks the whole project. Several proofs use `hide` to
keep definitions they do not need from the solver.

## Model

| member | source | states |
|---|---|---|
| Framing.StopFromStart | tls_client/src/common/transmission.c:134-141 | A stop sequence cut short is never accepted: the bytes it did not overwrite still hold the start sequence |
| Framing.HuntFinds | tls_client/src/common/transmission.c:95-129 | The sliding window stops exactly at the first start sequence of the input |
| Reception.AcceptedExactly | tls_client/src/common/transmission.c:94-142 | For every input, however the connection behaves: accepted if and only if a whole frame follows the first start sequence, or the input breaks inside the payload and then delivers a stop sequence |
| Reception.WholePayloadExactly | tls_client/src/common/transmission.c:131-139 | An accepted payload is whole if and only if no break of the connection was consumed |
| Reception.ReceiveSound | tls_client/src/common/transmission.c:71-142 | If a close or error is permanent, acceptance is equivalent to a whole frame at the first start sequence; consumed are then the noise and that frame, and the buffer holds the payload |
| Reception.TransientBreakAccepted | tls_client/src/common/transmission.c:131-141 | A concrete input with a passing error on which a frame is accepted whose payload never arrived |
| Reception.Resynchronises | tls_client/src/common/transmission.c:94-142 | After noise that ends in exactly k bytes 0x55 the payload is received shifted by k, accepted if and only if its last k bytes are 0xFF, and exactly k bytes 0xFF of the frame stay unread |
| Reception.NextFrameAfterResync | tls_client/src/common/transmission.c:94-142 | After either outcome of a resynchronisation the next frame is received as it was sent |
| Reception.FrameTransparent | tls_client/src/common/transmission.c:94-142 | Every payload, also one with start or stop sequences in it, comes back, and not one byte beyond its frame is consumed |
| Reception.FramesRoundTrip | tls_client/src/common/challenge.c:78-96 | Any list of frames comes back frame by frame from successive receptions into one buffer |
| Transmission.ReadExact | tls_client/src/common/transmission.c:71-92 | Returns 0 if and only if all bytes came before the end; the buffer holds what came, the rest of it is untouched, and no more is consumed |
| Transmission.WaitForAck | tls_client/src/common/transmission.c:20-42 | Returns 0 if and only if the next three bytes are 0x41, 0x43, 0x4B |
| Transmission.SendAck | tls_client/src/common/transmission.c:44-63 | Writes exactly the bytes 0x41, 0x43, 0x4B, or a proper prefix of them when it returns 1; 0 if and only if no close or fatal error was met on the way, whatever retries and short writes there were |
| Transmission.AckGoesOut | tls_client/src/common/transmission.c:44-63 | From any part already written: the loop ends with all three bytes out exactly when the events it used hold no close and no fatal error |
| Transmission.RecStream | tls_client/src/common/transmission.c:94-142 | Result, buffer and consumed input are those of the frame automaton, for every schedule of reads |
| Fragmentation.SameDelivery | tls_client/src/common/transmission.c:24-37 | Two schedules that deliver the same bytes before the same end are the same input, however they cut the bytes |
| Fragmentation.RecStreamTwice | tls_client/src/common/transmission.c:100-129 | On the same input under any two schedules the result, the buffer and the input consumed are equal |
| Fragmentation.ReadExactTwice | tls_client/src/common/transmission.c:74-89 | The same for exact reads, including the bytes stored before a failure |
| Fragmentation.WaitForAckTwice | tls_client/src/common/transmission.c:24-37 | The same for the acknowledgement |
| Protocol.InvStep | tls_client/src/common/challenge.c:98-173 | Every event of the two-party system, including cuts that lose any part of what is in transit, keeps the invariant that ties both ends and both channels together |
| Exchange.Agreement | tls_client/src/common/challenge.c:98-173 | In every reachable state: acknowledgements received <= frames stored <= frames accepted <= frames sent <= acknowledgements received + 1, the receiver has a prefix of the frames, and a sender that is done has had all of them stored |
| Exchange.Transfer | tls_client/src/common/challenge.c:98-173 | When both ends are done, everything has arrived and both channels are empty |
| Exchange.InterleavedTransfer | tls_client/src/common/challenge.c:98-173 | About the action logs of the two ends, interleaved in any way: the receiver stored a prefix, at most one frame beyond the acknowledged ones; a sender that is done has a receiver that is done, all frames stored and both channels empty |
| Exchange.NoDeadlock | tls_client/src/common/challenge.c:111-124 | Without a cut, and until the sender gives up on a write, one of the ends can read or write in every state in which not both are done |
| Exchange.AlwaysCompletes | tls_client/src/common/challenge.c:98-173 | Without a cut the number of events of a run is bounded by the bytes to be moved and the retries, neither end ever sees a wrong acknowledgement or a rejected frame, and until a write of a frame is refused both are done or one can go on |
| Exchange.CompletesExactly | tls_client/src/common/challenge.c:82-94 | An uncut run that can go no further has transferred everything if and only if no write of a frame was refused |
| Records.RecordTransferred | tls_client/src/common/challenge.c:98-173 | For the two calls on records of one shape, interleaved in any way and cut anywhere: the id and the portions of the received record are a prefix of those sent and then what they were, at most one more than were acknowledged; the receiver returning 0 has the sent id and every portion, and the sender returning 0 implies that the receiver does and that nothing is left in transit |
| Records.UncutResults | tls_client/src/common/challenge.c:82-94 | Without a cut `sendChallenge` fails exactly when a write of a frame is not taken whole, and `recChallenge` exactly when an acknowledgement meets a close or a fatal error |
| Records.RecordArrives | tls_client/src/common/challenge.c:98-173 | Without a cut, with frame writes taken whole and no failure at an acknowledgement, both calls return 0 and the whole record has arrived |
| Challenge.InitFunc | tls_client/src/common/challenge.c:36-63 | Returns 0 exactly when every allocation it asks for is granted: then one new distinct zeroed block of the right size per positive portion; otherwise the heap is as before, a record that was blank has no pointer, and some portion has a length but no buffer |
| Challenge.GrantsAll | tls_client/src/common/challenge.c:42-54 | When every portion needs a buffer, it succeeds if and only if none of the next allocations is refused, and each uses one |
| Challenge.FreeFunc | tls_client/src/common/challenge.c:65-74 | Frees exactly the blocks of the record, each once, and clears it |
| Parties.SendFramedStream | tls_client/src/common/challenge.c:78-96 | Writes the frame, or a proper prefix of it when it returns 1; how much is fixed by the write schedule |
| Outcomes.FrameGoesOut | tls_client/src/common/challenge.c:82-94 | The frame goes out, and the call returns 0, if and only if each of its three writes is taken whole by its own event |
| Outcomes.RetryEndsExchange | tls_client/src/common/challenge.c:82-94 | When TLS asks for the first write of a frame to be repeated, nothing of the frame goes out and the sender has stopped |
| Parties.FrameStoppedByEvent | tls_client/src/common/challenge.c:82-94 | A frame that stopped met an event that is not a whole write: a short write, a retry, a close or an error |
| Parties.AlwaysSendable | tls_client/src/common/challenge.c:103-114 | The frames of any record meet what the theorems about the exchange ask of frames |
| Parties.IdBytes | tls_client/src/common/challenge.c:103 | The first frame of a record is its id: byte k is `func / 256^k % 256`, on the wire between four bytes 0x55 and four bytes 0xFF, and the id is the number of those bytes, the first being the lowest |
| Parties.SendChallenge | tls_client/src/common/challenge.c:98-128 | For any input and any write schedule: its actions are a run of the sender over the id and the allocated non-empty portions, and where that run stops, how much input is read and what is left of the schedule are those of the sender in `Outcomes.SenderAfter`; 0 if and only if it was completed, otherwise an acknowledgement was wrong or missing in the input, or the schedule stopped the current frame; the id goes out lowest byte first (`Parties.IdBytes`) |
| Outcomes.SendsExactly | tls_client/src/common/challenge.c:98-128 | That sender completes if and only if the input goes on with one acknowledgement for each frame and every write is taken whole |
| Outcomes.TakesEach | tls_client/src/common/challenge.c:82-94 | Every write is taken whole: event j takes the four bytes or the payload that write j is for |
| Records.SentExactly | tls_client/src/common/challenge.c:98-128 | So `sendChallenge` returns 0 if and only if both hold, and has then read exactly those acknowledgements |
| Records.IdSent | tls_client/src/common/challenge.c:98-128 | Whatever `sendChallenge` writes when it returns 0 begins with these twelve bytes |
| Parties.RecChallenge | tls_client/src/common/challenge.c:135-173 | For any input and any write schedule: its actions are a run of the receiver, and where it stops, the input read and the schedule left are those of the receiver in `Outcomes.ReceiverAfter`; 0 if and only if completed, otherwise a frame of the input was rejected or the schedule stopped an acknowledgement; the accepted frames replace a prefix of the record, all else keeps its contents, and every copy is in bounds; the stored id is the number of the four bytes that came (`Records.IdStored`) |
| Outcomes.ReceivesWires | tls_client/src/common/challenge.c:135-173 | When the input goes on with the frames it expects, the receiver rejects none; it stores all of them, and reads no more, if and only if no write of an acknowledgement fails |
| Outcomes.ReceivesCut | tls_client/src/common/challenge.c:135-173 | When that input is cut for good before its last byte, the receiver stores the first frames only; it has seen the end unless a write of an acknowledgement failed before |
| Records.ReceivedExactly | tls_client/src/common/challenge.c:135-173 | So on the frames of a record of the same shape `recChallenge` returns 0 if and only if no write of an acknowledgement fails, has then stored the whole record, and in any case a prefix of it |
| Records.CutOff | tls_client/src/common/challenge.c:135-173 | On such frames cut off anywhere it does not return 0, and has stored a prefix of the record |
| Records.IdStored | tls_client/src/common/challenge.c:143-152 | Four bytes that arrive in a frame, and are acknowledged, are stored as the id `w + 256 x + 65536 y + 16777216 z` |
| Parties.AckStoppedByFailure | tls_client/src/common/transmission.c:44-63 | An acknowledgement that stopped met a close or a fatal error |
| Streams.SenderStream | tls_client/src/common/challenge.c:98-128 | A completed sender wrote exactly its frames and read exactly one acknowledgement for each |
| Streams.ReceiverStream | tls_client/src/common/challenge.c:135-173 | A receiver fed with frames of the lengths it expects, or cut off, completes only by receiving exactly those frames |
| Streams.RolesReversed | tls_client/src/main.c:215-252 | Any number of exchanges in one direction and then in the other on one connection: when all are completed every list of frames has arrived as it was sent |
| SharedPage.MacrosMatchStruct | tls_client/src/pufcaller/crosscon_hv/crosscon_hv_config.h:24-53 | For arbitrary sizes: the offset macros are the offsets of the packed struct, the message fits the page with less than four bytes to spare, and pointer arithmetic on the payload is indexing it |
| SharedPage.HvNumbers | tls_client/src/pufcaller/crosscon_hv/crosscon_hv_config.h:152-158 | Whatever size the compiler gives the call type, the static assertions hold and the payload has 3884 bytes in slots of 971 |
| SharedPage.SlotsDisjoint | tls_client/src/pufcaller/crosscon_hv/crosscon_hv_config.h:27-53 | For any number of slots: they do not meet and lie inside the payload |
| SharedPage.NibblesAgree | tls_client/src/pufcaller/crosscon_hv/crosscon_hv_tee/crosscon_hv_tee.c:125-134 | Nibble i of the parameter types is the masked type of parameter i when it is given and 0 otherwise, for every number of parameters and all attributes |
| SharedPage.TypesAre | tls_client/src/pufcaller/crosscon_hv/crosscon_hv_tee/crosscon_hv_tee.c:125-134 | The parameter types are the low four bits of each attribute that is given, the first lowest, and zero for the others |
| SharedPage.OrIsSum | tls_client/src/pufcaller/crosscon_hv/crosscon_hv_config.h:100-105 | Bitwise or of a number below 2^k with a multiple of 2^k is their sum, for all numbers |
| SharedPage.MacroIsParamTypes | tls_client/src/pufcaller/crosscon_hv/crosscon_hv_config.h:100-105 | So the macro, with its masks, shifts and ors, is the sum by which the model computes the parameter types |
| SharedPage.TypeIsMasked | tls_client/src/pufcaller/crosscon_hv/crosscon_hv_tee/crosscon_hv_tee.c:125-134 | Masking an attribute with 0xFF is the remainder that the model takes |
| SharedPage.InvokeRoundTrip | tls_client/src/pufcaller/crosscon_hv/crosscon_hv_config.h:65-72 | The packed invoke arguments decode to what was encoded |
| Staging.LayoutInUse | tls_client/src/pufcaller/crosscon_hv/crosscon_hv_config.h:24-53 | The numbers the calls use are those of the packed struct: slots of 971 bytes, a payload of 3884, arguments, parameters and payload at 56, 80 and 208 behind the call type |
| Staging.InvokeRead | tls_client/src/pufcaller/crosscon_hv/crosscon_hv_config.h:65-72 | Field by field: the number read from the page at its offset in the packed struct, lowest byte first, is the argument of the invoke call that the other side decodes |
| Staging.SessionRead | tls_client/src/pufcaller/crosscon_hv/crosscon_hv_config.h:81-90 | The same for the session arguments |
| Staging.ParamRead | tls_client/src/pufcaller/crosscon_hv/crosscon_hv_config.h:74-79 | The same for the four fields of every parameter entry |
| Staging.CallTypeRead | tls_client/src/pufcaller/crosscon_hv/crosscon_hv_config.h:59-63 | The call type is c if and only if the first byte of the page is c and the rest of the field is zero |
| Staging.InvokeStaged | tls_client/src/pufcaller/crosscon_hv/crosscon_hv_tee/crosscon_hv_tee.c:112-142 | The other side reads the call type, the arguments and the given parameters; parameters not given, session arguments and payload are as before |
| Staging.OpenStaged | tls_client/src/pufcaller/crosscon_hv/crosscon_hv_tee/crosscon_hv_tee.c:53-85 | For an open call the other side reads the call type, the session arguments and the given parameters; parameters not given, invoke arguments and payload are as before |
| Staging.CloseStaged | tls_client/src/pufcaller/crosscon_hv/crosscon_hv_tee/crosscon_hv_tee.c:93-98 | For a close call it reads the call type and the session arguments; parameters, invoke arguments and payload are as before |
| Staging.InputsStaged | tls_client/src/pufcaller/pufcaller.c:91-93 | Each payload byte is an input byte of its slot, zero in the first 1024, or what it was; the header is untouched |
| Staging.InputInSlot | tls_client/src/pufcaller/pufcaller.c:127-130 | Every input is found whole in its own slot |
| Pages.InvokeOnPage | tls_client/src/pufcaller/crosscon_hv/crosscon_hv_tee/crosscon_hv_tee.c:112-150 | For any invoke call and any page before it: call type byte 0; func, session, cancel id, two zeros and the parameter types at their offsets; and the four fields of every given parameter at theirs |
| Pages.OpenCallOnPage | tls_client/src/pufcaller/crosscon_hv/crosscon_hv_tee/crosscon_hv_tee.c:53-91 | For any open call: call type byte 1; both identifiers, the login and the parameter types at their offsets, zeros between; and every given parameter |
| Pages.CloseOnPage | tls_client/src/pufcaller/crosscon_hv/crosscon_hv_tee/crosscon_hv_tee.c:93-98 | A closing call: call type byte 2, the session id at its offset, and every other byte of the session arguments zero |
| Pages.InitOnPage | tls_client/src/pufcaller/pufcaller.c:32-61 | The call for the initialisation as numbers in the page: types 0x6666, and entry i with attribute 6, offset 971 i, length 32 and the shared memory |
| Pages.CommitmentOnPage | tls_client/src/pufcaller/pufcaller.c:63-96 | The same for the commitment: types 0x6655, attributes 5, 5, 6, 6, lengths 32 |
| Pages.ProofsOnPage | tls_client/src/pufcaller/pufcaller.c:99-133 | The same for the proofs: types 0x6777, attributes 7, 7, 7, 6, lengths 32, 32, 64, 64 |
| Pages.TypesMatchUse | tls_client/src/pufcaller/pufcaller.c:65-83 | In each of the three calls an entry is of an input type if and only if an input is staged in its slot, and of an output type if and only if a result is to be left there |
| Pages.InputsOnPage | tls_client/src/pufcaller/pufcaller.c:91-93 | Byte 971 i + j of the payload is byte j of portion i for the staged inputs, zero in the rest of the first 1024, and what it was beyond |
| Pages.ResultsOnPage | tls_client/src/pufcaller/pufcaller.c:141-148 | Byte j of portion i of the record is byte 971 i + j of the payload of the reply |
| PufCaller.MetaKept | tls_client/src/pufcaller/crosscon_hv/crosscon_hv_config.c:26-48 | A reply that keeps the metadata is dispatched on the call type that was sent, with the parameters that were sent |
| PufCaller.Guest.IrqHandler | tls_client/src/pufcaller/crosscon_hv/crosscon_hv_config.c:26-101 | By call type: invoke copies back results and parameters, open the session id, close nothing; all else is unchanged |
| PufCaller.Guest.OpenSession | tls_client/src/pufcaller/crosscon_hv/crosscon_hv_tee/crosscon_hv_tee.c:53-91 | Returns 0 and notifies once, with the page that holds the open call |
| PufCaller.Guest.InvokeFunc | tls_client/src/pufcaller/crosscon_hv/crosscon_hv_tee/crosscon_hv_tee.c:112-150 | Returns 0 and notifies once, with the page that holds the invoke call; at most four parameters are read and none when none are given |
| PufCaller.Guest.CallInit | tls_client/src/pufcaller/pufcaller.c:32-61 | The other side sees the record's id, the session id and four output slots; the payload is as it was (`Pages.InitOnPage`) |
| PufCaller.Guest.CallGetCommitment | tls_client/src/pufcaller/pufcaller.c:63-96 | The other side sees the record's id, the session id, the parameter table, and the two inputs staged (`Pages.CommitmentOnPage`, `Pages.TypesMatchUse`) |
| PufCaller.Guest.CallGetZkProofs | tls_client/src/pufcaller/pufcaller.c:99-133 | The same with three inputs staged, the third of 64 bytes (`Pages.ProofsOnPage`) |
| PufCaller.Guest.CpyLastResult | tls_client/src/pufcaller/pufcaller.c:141-148 | Every portion gets the first len bytes of its own slot, and no other block changes |
| PufCaller.Assembled | tls_client/src/pufcaller/pufcaller.c:205-239 | Rounds on records that share no block do not disturb each other: each record keeps the results of its own call and each call carried inputs from before the first |
| PufCaller.Guest.ChallengePuf | tls_client/src/pufcaller/pufcaller.c:150-250 | Five calls in this order, all with the session id of the open reply, each with its own record's id and inputs, and each record ends with what its own call left; the result is 0 whenever the device is found and the session arguments carry no error, whatever the replies say; what that means for the bytes of the five pages is `Pages.ChallengeOnPages` |
| Pages.ChallengeOnPages | tls_client/src/pufcaller/pufcaller.c:195-241 | The five pages of a challenge in numbers: call types 1, 0, 0, 0, 2; the session id of the open reply, read from the page at its offset, at its offset in each of the four pages after the first, also the last; the ids of the three records; and the entries of each call |
| Pages.SessionSurvives | tls_client/src/pufcaller/pufcaller.c:195-199 | Keeping the session id as an int and sending it as an unsigned number loses nothing |
| Session.CleanUp | tls_client/src/main.c:290-294 | Frees each live block of the three records exactly once and gives back the heap as it was |
| Session.BlankRecord | tls_client/src/common/challenge.c:36-63 | A record right after `initFunc` consists of its id and zeroed buffers, or of its id alone when an allocation failed |
| Session.SetUp | tls_client/src/main.c:215-219 | Whatever fails: the reception ends as the input and the write schedule determine, the record ends as the accepted frames followed by the initial id and zeroed buffers, it has all its buffers or none, every block keeps its one owner, and earlier contents stay |
| Session.AllGrantedExactly | tls_client/src/main.c:215-229 | All buffers of the three records are allocated if and only if none of the first twelve allocations is refused |
| Session.IdsAndShapes | tls_client/src/common/challenge.h:21-23 | The three challenges are received for the ids 0x00112233, 0x11223344 and 0x22334455 into portions of 32, 32, 32, 32 bytes twice and then 32, 32, 64, 64 |
| Session.ReadyExactly | tls_client/src/main.c:215-236 | The copies of the calls all go through valid pointers if and only if every allocation succeeded: a failed one leaves a portion with a length and no buffer |
| Session.TestSession | tls_client/src/main.c:199-294 | On every path, including the one without a connection, the heap ends as it began and the records are empty, except that the outcome is undefined if and only if the calls are made after a refused allocation. What it reads is the input of its connection from its first place to its last. The receptions in order, and then the responses up to the first that fails, each end as the input and the write schedule at their own place determine; the session is completed if and only if all three responses were sent |
| Endings.SessionCompletes | tls_client/src/main.c:215-252 | A session with all its buffers on a connection that is not cut: when what it has read is the beginning of what the server sends, every challenge is received if and only if no write of an acknowledgement fails, and then the session is completed if and only if every write of a response is taken whole |
| Endings.SessionCut | tls_client/src/main.c:215-252 | On a connection that is cut for good somewhere, although the program goes on after a failed reception: the challenges received are the first ones, and no response is completed unless all three were received |
| Endings.SessionAgrees | tls_client/src/main.c:215-252 | On such a connection, over the whole session: the frames stored are the first of those the server sends and each of them came whole, the client has acknowledged all of them and written less than one acknowledgement more, and whoever finds r acknowledgements in what the client writes has had at least r frames stored |
| Endings.PlayedLocal | tls_client/src/main.c:215-252 | The course of the six exchanges depends on no input beyond what they have read |
| EndToEnd.MessagesCross | tls_client/src/main.c:215-252 | When the input of the client's connection is what the server writes, perhaps cut off: the records held the server's messages when the calls began, and the server gets what they held afterwards |
| EndToEnd.ChallengesAnswered | tls_client/src/main.c:215-252 | For a completed session in which everything was received, on such an input: each call carried the id and the input portions of its own message from the server, and the server's answers are the ids with the slot contents left after that very call, in order |
| EndToEnd.SessionOnPages | tls_client/src/pufcaller/pufcaller.c:150-250 | Whenever a session makes the calls through valid pointers, the five pages are those of `Pages.ChallengeOnPages`, and the length in every entry is that of the buffer of the record |
| EchoBot.OneByteMore | echo_bot/src/main.c:45-57 | One more byte ends the pending line if it is 10 or 13 and something is pending; otherwise it is kept if there is room |
| EchoBot.LfUnchanged | echo_bot/src/main.c:44-58 | Fitting non-empty lines without the bytes 10 and 13 (but for the first place) come out unchanged, whether each ends in 10 or in 13 |
| EchoBot.LfLines | echo_bot/src/main.c:44-58 | Longer ones come out cut to the size of a message less one |
| EchoBot.CrLfLines | echo_bot/src/main.c:45-55 | CRLF text comes out with an LF before every line but the first, and an LF stays pending |
| EchoBot.TextOfBuffer | echo_bot/src/main.c:64-71 | What is printed of a queued buffer is the line up to its first NUL, whatever older lines left behind it |
| EchoBot.KeptInOrder | echo_bot/src/main.c:49-50 | The queued messages are the completed ones without the dropped ones, in the same order |
| EchoBot.QueueConserves | echo_bot/src/main.c:34-58 | For any interleaving of interrupts and consumer turns: the messages put are the lines of the bytes received; taken and pending together are the queued ones in order, at most ten are pending, a line was dropped exactly if ten were pending when it was completed, and taken, pending and dropped add up |
| EchoBot.NothingLost | echo_bot/src/main.c:49-50 | Every line was taken or is pending, in order, if and only if fewer than ten earlier lines were unread whenever one was completed |
| EchoBot.PutConserves | echo_bot/src/main.c:19-53 | A put keeps the history of the queue: at most ten pending, dropped if and only if ten were pending, order preserved |
| EchoBot.Line.SerialCb | echo_bot/src/main.c:31-59 | Reads the FIFO until it is empty, or not at all, and puts exactly the lines that these bytes complete, in order; which bytes end a line is in `EchoBot.OneByteMore` and `EchoBot.LfUnchanged` |
| EchoBot.Line.Echo | echo_bot/src/main.c:100-105 | Takes the oldest message and prints its text between prefix and line end; an empty queue prints nothing and stays |
| EchoBot.RunOne | echo_bot/src/main.c:31-105 | For any interleaving of interrupts and consumer turns the queue is the one that `QueueConserves` describes and the output is the echo of exactly the messages taken, in order (`EchoBot.LineEchoed` for one line) |
| EchoBot.TwoUarts.Run | echo_bot_two_uarts/src/main.c:19-85 | The same with interrupts of both devices: each device has its own such queue, and the output is the echo of exactly the messages taken from the second |
| EchoBot.LineEchoed | echo_bot/src/main.c:101-105 | For a line that comes before its end, 10 or 13, and a turn of the consumer: printed are the prefix, at most 31 bytes of the line (63 on the second bot), 13 and 10; the prefixes are "Echo: " and "UART1: " (`EchoBot.Prefixes`) |
| DumpParser.ParseHexBlocks | resources/scripts/cnvrt_puf_output.py:5-37 | The loop returns, for each header followed by rows, the joined digits of those rows, in order; headers and ends as text are in `DumpParser.HeaderExactly`, `DumpParser.EndExactly` and `DumpParser.AnyBlock` |
| DumpParser.HeaderExactly | resources/scripts/cnvrt_puf_output.py:13 | A line is a header if and only if it is white space, then "MEMREF Output data:", then anything |
| DumpParser.EndExactly | resources/scripts/cnvrt_puf_output.py:21 | A line ends a block if and only if it is white space only, or white space, then "Param[", then anything; the characters of white space are in `DumpParser.SpacesAre` |
| DumpParser.AnyBlock | resources/scripts/cnvrt_puf_output.py:10-37 | For any log: after a header every line that is neither a header nor an end in that sense adds its digits to one block, nothing else does, and what follows is parsed on its own |
| DumpParser.DigitsAre | resources/scripts/cnvrt_puf_output.py:30-33 | The digits of any line are what precedes its first bar, or the whole line, without the white space |
| DumpParser.CutAtHeader | resources/scripts/cnvrt_puf_output.py:13-18 | A log cut at a header parses to the results of the two parts, one after the other |
| DumpParser.JoinWordsFrom | resources/scripts/cnvrt_puf_output.py:30-33 | Splitting at white space and joining drops exactly the white space |
| DumpParser.RowRead | resources/scripts/cnvrt_puf_output.py:27-33 | A printed row of hex pairs, bar and any text is read as a row, with the digits of its bytes |
| DumpParser.DumpsRoundTrip | resources/scripts/cnvrt_puf_output.py:10-37 | Any list of printed dumps, each followed by the end of the log, by a line of white space or by one that starts with "Param[" after white space, and then by any lines without a header, parses to the digits of each dump, in order; which digits stand for a byte is in `DumpParser.HexIs` and `DumpParser.HexCharIs` |
| Command.BuildCommand | resources/scripts/cnvrt_puf_output.py:39-66 | Stops with an error exactly when there are fewer than ten blocks, and otherwise puts out the base line, one line per parameter and the nonce, in order |
| Command.OptionsWritten | resources/scripts/cnvrt_puf_output.py:39-61 | Each of the ten options, written out, stands before the block that it is for; the nonce is in `Command.NonceWritten` |
| Command.CommandReadBack | resources/scripts/cnvrt_puf_output.py:59-66 | Splitting the command at its line ends gives every parameter its own block back |
| Command.LogToCommand | resources/scripts/cnvrt_puf_output.py:68-76 | From a printed log to the command: parameter i is the digits of dump i |

## Left out

- Session.TestSession: promises nothing about the heap and the records when an allocation was refused and the calls are made all the same, because the program then copies through a NULL pointer (outcome `Undefined`, `Session.ReadyExactly`).
- EndToEnd.ChallengesAnswered: takes the server to run the same exchange to its end, the client's input to be a prefix of what the server wrote, perhaps followed by the end of the connection, and the server to read such a prefix of what the client wrote.
- Endings.SessionCut: takes a connection whose failing writes go on to fail; one that fails an acknowledgement and then takes later ones is left to `Session.TestSession`.
- Exchange.Agreement: takes the last write of an acknowledgement and the copy out of the receive buffer right after it as one step.
- PufCaller.Guest.ChallengePuf: assumes that every call is answered before the sleep after it ends and that the other side keeps the call type and the parameter entries; the closing call is not waited for.
- Exchange.AlwaysCompletes: counts the events of a run with a given finite number of retries of reads and of the acknowledgement; a connection that asks for such retries for ever is not ruled out by the program.
- Records.RecordArrives: says what the two calls return, not that they return when retries never end.
- EchoBot.TwoUarts.Run: takes an interrupt and a turn of the consumer as indivisible.
- TLS, sockets, certificates, the connection set-up, the plain message after the responses and the release of TLS resources: library calls; a connection is a schedule of read and write events.
- The cryptography of the trusted application and the server's check of proofs: not in these files.
- NULL arguments for the connection or the record: the guards that return 1 on them.
- Contents of memory before `memset` in `initFunc`: a new block holds an arbitrary fixed byte.
- The variant with one data portion (`RPI_CBA`).
- Byte order: the program sends memory as it is; the model takes the little-endian order of the boards it runs on.
- `zephyr/drivers/tee.h` is not part of this model: the parameter types 0, 5, 6, 7 and the type mask 0xFF are used as Zephyr publishes them.
- Sleeps, memory barriers, log output and hex dumps, also those of the interrupt handler, which only read.
- The result of `tee_get_version` and driver entries that only return 0.
- The greeting of the echo bots and the periodic line on the first UART of the second one.
- Decoding of the log file and its division into lines: the parser is given the lines.
- Hypervisor configurations, Wi-Fi handlers, and the remaining example programs.
