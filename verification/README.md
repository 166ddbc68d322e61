# Vehicle diagnostics: transport, sessions and tools

The repository is a vehicle diagnostics platform. It sends UDS requests over an ISO-TP transport on CAN
and CAN FD, and it has a second transport engine in JavaScript. This project models the parts that carry
real algorithms, in the shape they have in the program: objects with fields and loops are classes whose
methods are proved equal to functions, and the properties are proved about these functions, for every
input, every run or every interleaving.

**ISO-TP** (ISO 15765-2:2016, section 9.6 for the frame formats and section 9.7 for the limit on
FC.WAIT frames).

- `IsoTpFrames` cuts a payload into frame bodies and pads them; it also holds the preview generator
  `iter_frames`.
- `IsoTpMachines` is one half of a handler each as a step function over inbound frames. `RunSend` and
  `RunReceive` repeat the steps over an inbound stream.
- `IsoTpHandler` is the handler class with its fields and loops, proved equal to these runs. `IsoTpStatistics` says
  that its counters count what crosses the driver boundary.
- `IsoTpSending` and `IsoTpReceiving` hold what one side guarantees against any peer.
- `IsoTpLink` joins a sender and a receiver by two FIFO channels. Its invariant is kept by every step, so
  its theorems hold for every interleaving, from any two idle handlers and for any sequence of messages.
- `IsoTpLossy` lets these channels lose frames of any kind and lets timeouts fire at any moment.
- `IsoTpFaults` loses, repeats and reorders consecutive frames behind a first frame that has arrived.
- `JsIsoTp` is how the JavaScript engine cuts and reassembles, compared with the Python frames. `JsSender` is its
  sender event by event, with several transfers under way, suspended block loops, timers and late ends.
- `JsFaults` is the JavaScript receiver behind a channel that loses, repeats and reorders, or carries anything.
- `JsInterop` puts a JavaScript sender or receiver at one end, or both. `JsLink` and `PyJsLink` do so over two FIFO
  channels, for every interleaving.

**Around it.** `MessageQueue` is the bounded priority queue over a binary heap, `UdsClient` the request,
response-pending and retry engine, `RateLimiter` the token bucket, `Flash` the validator and runner of
flash sequences, `Checksum` the two 16-bit CRCs, `CrcDivision` the polynomial division they are the
remainders of, `BurstErrors` the bursts they detect, `ByteUtils` bit addressing and extraction, `Uleb` the
LEB128 numbers of the package scripts, `Configuration` the layered settings as trees of values, and
`ConfigurationStore` the same settings as nested mapping objects that are updated in place.

**Where the code does not do what one would expect.** Each of these has an exact condition, proved for
all inputs.

- `iter_frames` shows what `send` transmits if and only if the payload is at most 4095 bytes; longer ones
  are previewed without the escape length (`IsoTpFrames.PreviewIsExact`). The JavaScript engine has the
  same limit on both sides (`JsIsoTp.SegmentationsAgree`, `JsIsoTp.PythonToJavaScript`).
- With JavaScript at one end or at both, a segmented message gets through only on conditions, because the
  JavaScript receiver answers once and the JavaScript sender takes a block size of zero for "none given". From
  Python to JavaScript it does if and only if the receiver asks for no blocks or the message fits into one
  (`JsInterop.OneReplyMustDo`, and for every message and interleaving `PyJsLink.EveryInterleaving`); from
  JavaScript to Python if and only if the receiver asks for blocks or the message fits into the sender's own
  block size (`JsInterop.OwnBlockSizeMustDo`, and for every interleaving `JsLink.EveryInterleaving`); from
  JavaScript to JavaScript if and only if it fits into one block (`JsInterop.OneBlockMustDo`).
- A JavaScript sender has one active transfer, and the end of any transfer clears it. So a transfer stays active if
  and only if no running one ends and no second longer payload is sent meanwhile (`JsSender.ActiveSurvives`); after
  that it can still resolve if and only if its suspended loops cover what it has left (`JsSender.DroppedResolves`).
  A single frame sent just before a longer payload is enough (`JsSender.LateEndStrands`).
- A padding sender and its receiver agree on every payload if and only if the frame size is a length
  the bus can carry; otherwise padding bytes enter the payload (`IsoTpReceiving.SoundConfigurations`).
- Reassembly checks a number modulo 16 and nothing else. For any arrivals whatever, every payload that is
  returned is the one sent if and only if the arrivals complete no message or every one that is taken is the
  frame that is due (`IsoTpFaults.SafeArrivals`). No arrivals within `w` places of their order do harm if and
  only if `w` is at most 15 (`IsoTpFaults.WindowIsExact`).
- The comment at the eviction in the queue says that the lowest-priority entry goes. That is guaranteed
  if and only if the bound is at most two (`MessageQueue.EvictsLeastUrgent`).
- Assigning a setting is the same as merging a tree that holds only this setting if and only if nothing that
  is not a mapping is in the way (merging replaces it, assigning raises) and nothing of what stands at the path
  would survive the merge, which for a leaf is always so (`Configuration.AssignIsMerge`).

## Model

| member | source | states |
|---|---|---|
| IsoTpFrames.FdPaddedLengthIsLeast | src/communication/isotp_handler.py:41-53 | the padded length is the least legal CAN FD length that holds the frame |
| IsoTpFrames.BigEndian4RoundTrip | src/communication/isotp_handler.py:272 | the 32-bit escape length is read back as it was written |
| IsoTpFrames.StripWire | src/communication/isotp_handler.py:358-378 | removing the address byte from a transmitted frame gives the body followed by its padding |
| IsoTpFrames.TailFits | src/communication/isotp_handler.py:358-370 | on a legal frame size padding never exceeds the frame and a full frame gets none |
| IsoTpFrames.WireIsOnBus | src/communication/isotp_handler.py:358-369 | a frame is the one handed to the driver if and only if it is the address byte, the body and padding bytes up to 8 bytes, or on CAN FD up to the least legal length that holds it |
| IsoTpFrames.ConsecutiveAt | src/communication/isotp_handler.py:281-292 | where the j-th consecutive frame starts in the payload and that its number counts modulo 16 |
| IsoTpFrames.ConsecutiveCount | src/communication/isotp_handler.py:281-292 | the number of consecutive frames: all but the last are full and the last is not empty |
| IsoTpFrames.FramesHaveStandardForm | src/communication/isotp_handler.py:249-295 | the frames of every payload byte by byte: single frames in both forms, first frames with 12 and 32 bits of length, consecutive frames numbered from 1 with the slices they carry |
| IsoTpFrames.PreviewIsExact | src/communication/isotp_handler.py:478-500 | the preview equals the transmitted segmentation if and only if the payload has at most 4095 bytes |
| IsoTpFrames.PreviewBeyond | src/communication/isotp_handler.py:478-500 | above 4095 bytes the previewed header byte is the type with the higher length byte over it, and from 64 KiB on the generator raises |
| IsoTpFrames.IterFrames | src/communication/isotp_handler.py:478-500 | the generator yields the preview, and raises where the header byte would not be a byte |
| IsoTpMachines.StMinByteRoundTrip | src/communication/isotp_handler.py:109-142 | decoding then encoding a separation-time byte gives it back, reserved bytes become zero |
| IsoTpMachines.StMinTimeRoundTrip | src/communication/isotp_handler.py:109-142 | encoding then decoding a representable time is off by at most half a unit |
| IsoTpMachines.StMinByteMeans | src/communication/isotp_handler.py:109-126 | the separation-time byte says the time asked for: to the nearest millisecond or tenth, never zero for a positive time, the longest there is beyond 127 ms |
| IsoTpMachines.FlowControlForm | src/communication/isotp_handler.py:465-475 | status, block size and separation time in the three bytes of a flow-control frame |
| IsoTpHandler.Handler.constructor | src/communication/isotp_handler.py:177-191 | a new handler has empty reassembly fields, zero statistics and no negotiated block size |
| IsoTpHandler.Handler.Transmit | src/communication/isotp_handler.py:358-370 | exactly one frame goes out and is counted: address byte, body and, with padding on, padding bytes up to 8 bytes or the least CAN FD length that holds it |
| IsoTpHandler.Handler.Send | src/communication/isotp_handler.py:194-214 | refuses exactly empty and oversized payloads without any effect; otherwise trace, inbox, statistics, negotiated block size and error are those of the sending run |
| IsoTpHandler.Handler.SendMultiFrame | src/communication/isotp_handler.py:265-279 | first frame, first flow control and all that follows are the sending run from its start |
| IsoTpHandler.Handler.SendConsecutiveFrames | src/communication/isotp_handler.py:281-295 | the transmission loop, with flow control at each block boundary, is the rest of that run |
| IsoTpHandler.Handler.SendConsecutiveFrame | src/communication/isotp_handler.py:285-294 | one turn of the loop transmits one chunk and advances index, number and block |
| IsoTpHandler.Handler.AwaitFlowControl | src/communication/isotp_handler.py:304-347 | the waiting loop ends with a granted block size that is remembered, or with the error of the run; it always ends |
| IsoTpHandler.Handler.TakeFlowControl | src/communication/isotp_handler.py:325-347 | what each flow status does to the run, the statistics and the negotiated block size |
| IsoTpHandler.Handler.Reset | src/communication/isotp_handler.py:241-246 | the reassembly fields are cleared and nothing else changes |
| IsoTpHandler.Handler.Receive | src/communication/isotp_handler.py:216-239 | the loop returns the payload, None or the error of the receiving run and leaves its fields, trace and inbox |
| IsoTpHandler.Handler.HandleFrame | src/communication/isotp_handler.py:380-396 | one frame and, after a first frame, the whole reassembly are the receiving run from this frame on |
| IsoTpHandler.Handler.HandleSingleFrame | src/communication/isotp_handler.py:398-414 | the payload of a single frame or a framing error, by both length forms |
| IsoTpHandler.Handler.HandleFirstFrame | src/communication/isotp_handler.py:416-430 | reassembly starts with the announced length and one flow-control frame goes out, or a framing error leaves the fields alone |
| IsoTpHandler.Handler.ReceiveRemaining | src/communication/isotp_handler.py:432-463 | the reassembly loop is the receiving run from its collecting state |
| IsoTpHandler.Handler.HearConsecutive | src/communication/isotp_handler.py:436-461 | one turn of the reassembly loop: timeout, frame passed over, or frame taken |
| IsoTpHandler.Handler.TakeConsecutive | src/communication/isotp_handler.py:448-460 | a consecutive frame extends the buffer and asks for the next block when one is full, or is out of sequence |
| IsoTpHandler.Handler.SendFlowControl | src/communication/isotp_handler.py:465-475 | one flow-control frame with status, block size and separation time goes out and is counted twice |
| IsoTpSending.SendTransmitsFrames | src/communication/isotp_handler.py:194-214 | against any peer the transmitted frames are a beginning of the segmentation, and all of it if and only if the transfer finishes |
| IsoTpSending.SendRefinesPreview | src/communication/isotp_handler.py:265-295 | a finished transfer of at most 4095 bytes transmits exactly what `iter_frames` yields, addressed and padded |
| IsoTpSending.ConsecutiveCarriesPayload | src/communication/isotp_handler.py:284-292 | the data of the consecutive frames joins to the payload and frame k carries number k modulo 16 |
| IsoTpSending.SenderDiscipline | src/communication/isotp_handler.py:281-295 | against any peer, at most b frames go out after a grant of b > 0, and the bus is read again only when the grant is used up |
| IsoTpSending.WaitLimit | src/communication/isotp_handler.py:333-341 | the transfer gets past a boundary if and only if there were at most `wait_frame_limit` WAIT frames, with unrelated frames in between; one more ends it with the wait error |
| IsoTpSending.BoundaryStartsFresh | src/communication/isotp_handler.py:304-345 | every wait for flow control starts with no WAIT frame counted |
| IsoTpSending.FlowControlBytes | src/communication/isotp_handler.py:318-345 | first bytes 0x30 to 0x3F are flow control, 0x30 grants and 0x31 makes the sender wait |
| IsoTpSending.RefusalEnds | src/communication/isotp_handler.py:322-345 | behind any waiting within the limit, status 0x32 ends the transfer with the overflow error and 0x33 to 0x3F with the invalid-status error; nothing more is transmitted or read |
| IsoTpSending.StaleBlockSize | src/communication/isotp_handler.py:297-302 | the block size left over from an earlier transfer changes nothing observable in a later one |
| IsoTpReceiving.TakesSingle | src/communication/isotp_handler.py:398-414 | the receiver returns the payload of a transmitted single frame, whatever padding follows |
| IsoTpReceiving.TakesFirst | src/communication/isotp_handler.py:416-430 | a transmitted first frame starts the reassembly with its data and full length and is answered with one flow-control frame |
| IsoTpReceiving.TakesConsecutive | src/communication/isotp_handler.py:444-463 | the awaited consecutive frame brings the receiver to the next prefix of the payload, or delivers the payload exactly, and grants a block when one is full |
| IsoTpReceiving.IdleHears | src/communication/isotp_handler.py:380-430 | what an idle receiver makes of any frame by its bytes: it raises if and only if the frame is malformed, delivers a single frame, starts on a first frame with one reply, and passes over the rest |
| IsoTpReceiving.CollectingHears | src/communication/isotp_handler.py:436-461 | what a receiver in the middle of a message makes of any frame: only the consecutive frame with the number that is due counts, another number raises, and a full block is answered exactly if more is needed |
| IsoTpReceiving.ReceivesMessage | src/communication/isotp_handler.py:216-239 | from any idle receiver the frames of a payload yield exactly that payload and nothing behind them is consumed |
| IsoTpReceiving.Resynchronises | src/communication/isotp_handler.py:380-396 | after any aborted reassembly and any leftover consecutive or flow-control frames the next message is received exactly |
| IsoTpReceiving.StaleReassembly | src/communication/isotp_handler.py:426-428 | on any inbound stream the stale reassembly fields change neither result nor statistics nor answers |
| IsoTpReceiving.DeliveredKeepsBuffer | src/communication/isotp_handler.py:455-463 | a delivered payload begins with what had been buffered |
| IsoTpStatistics.SendCounts | src/communication/isotp_handler.py:194-370 | over every run of `send` the statistics count what the trace holds: frames sent, flow control, WAIT frames and timeouts; a message exactly if the run finishes, an error exactly for an overflow |
| IsoTpStatistics.ReceiveCounts | src/communication/isotp_handler.py:216-475 | over every run of `receive`: frames received, flow control sent, one message exactly if one is returned, one timeout or error exactly if that is how it ends |
| IsoTpReceiving.PaddingCorrupts | src/communication/isotp_handler.py:358-370 | for every padded illegal frame size there is a payload that is not returned |
| IsoTpReceiving.SoundConfigurations | src/communication/isotp_handler.py:101-106 | all payloads of 1 to 2^32 - 1 bytes are returned exactly if and only if padding is off or the frame size is legal |
| IsoTpLink.StepKeeps | src/communication/isotp_handler.py:281-295 | every step of either side keeps the invariant of the closed loop and lowers its measure |
| IsoTpLink.RunKeeps | src/communication/isotp_handler.py:432-463 | the invariant holds after every run and bounds its length |
| IsoTpLink.NeverStuck | src/communication/isotp_handler.py:304-347 | in every reachable state some side can move if and only if the transfer is not complete |
| IsoTpLink.EveryInterleaving | src/communication/isotp_handler.py:249-295 | for every payload, every interleaving and any two idle handlers: nothing is raised, at most one flow-control frame and one block are in flight, the run is finite, and it stops exactly when the payload was returned, ceil(n / block size) flow-control frames were sent for n consecutive frames (one for block size 0) and the counters of both ends tally |
| IsoTpLink.EveryMessageArrives | src/communication/isotp_handler.py:194-239 | of any sequence of messages between the same two handlers, each under any interleaving, every one is returned |
| IsoTpLink.ChannelsConserve | src/communication/isotp_handler.py:249-295 | what was put into a channel is what was taken from it and what is still in it |
| IsoTpLink.ConsecutiveTotalIsQuotient | src/communication/isotp_handler.py:281-292 | the number of consecutive frames is the rounded-up quotient of what the first frame leaves |
| IsoTpLink.SenderSideIsSend | src/communication/isotp_handler.py:265-295 | in every finished interleaving the sending side ends where `send` ends on the flow control it took, and transmits the same frames |
| IsoTpLink.ReceiverSideIsReceive | src/communication/isotp_handler.py:216-239 | in every finished interleaving the receiving side ends where `receive` ends on the frames it took, and answers the same |
| IsoTpLink.InterleavingIsTwoCalls | src/communication/isotp_handler.py:194-239 | a completed interleaving is one call of `send` and one call of `receive`, each hearing exactly what the other transmits |
| IsoTpLossy.StepKeeps | src/communication/isotp_handler.py:304-347 | every step, loss and timeout keeps the invariant of the lossy loop and lowers its measure |
| IsoTpLossy.StreamIsTight | src/communication/isotp_handler.py:432-463 | with one frame less in flight not even full frames would complete the payload |
| IsoTpLossy.NarrowTaken | src/communication/isotp_handler.py:443-460 | a consecutive frame at a receiver that misses more than it can hold extends the buffer or breaks the sequence, and delivers nothing |
| IsoTpLossy.RunKeeps | src/communication/isotp_handler.py:432-463 | the invariant holds after every lossy run, bounds its length and knows whether a frame was dropped |
| IsoTpLossy.EveryLossyRun | src/communication/isotp_handler.py:194-239 | under any losses of first, consecutive and flow-control frames and any timeouts: the run is finite and ends with both sides done, the receiver returns the payload or nothing, it returns it only if no frame to it was dropped and the sender has finished, and the only errors are the two timeouts and the sequence error |
| IsoTpFaults.LossIsDetected | src/communication/isotp_handler.py:432-463 | whatever consecutive frames are lost, the payload is returned if and only if none is, otherwise there is a sequence error or a timeout |
| IsoTpFaults.TooFewArrivals | src/communication/isotp_handler.py:434-443 | fewer arrivals than consecutive frames never complete a message, whichever they are |
| IsoTpFaults.OutcomeIsReassembled | src/communication/isotp_handler.py:432-463 | whatever arrives in whatever order, reassembly breaks off at the first number not congruent to its position and appends everything before, until the length is reached or silence ends it |
| IsoTpFaults.AliasFreeIsSafe | src/communication/isotp_handler.py:448-456 | if no arrival has the number that is due without being the due frame, the payload is returned if and only if the arrivals begin with the message, otherwise there is a sequence error or a timeout |
| IsoTpFaults.SafeArrivals | src/communication/isotp_handler.py:448-463 | for every list of arrivals: no payload of the length is ever returned corrupted if and only if the arrivals complete no message or every one that is taken is the due frame |
| IsoTpFaults.BoundedDisplacement | src/communication/isotp_handler.py:448-454 | with loss, repetition and reordering within 15 places the payload is returned if and only if the arrivals begin with the message in order, otherwise there is a sequence error or a timeout |
| IsoTpFaults.WindowIsExact | src/communication/isotp_handler.py:448-456 | arrivals within w places of their order never make the receiver return anything but the payload if and only if w is at most 15 |
| IsoTpFaults.SixteenPlacesCorrupt | src/communication/isotp_handler.py:448-456 | for every payload of 18 or more consecutive frames the seventeenth in place of the first is accepted, and what is returned is the payload if and only if the two chunks are equal |
| JsIsoTp.SegmentationsAgree | diagnostics/isotp/index.js:145-206 | under any flow control and undisturbed by anything else, a JavaScript transfer of at most 4095 bytes transmits a beginning of the Python frames, and all of them if and only if it resolves; a longer one that resolves never does |
| JsIsoTp.StartForm | diagnostics/isotp/index.js:145-167 | the first frame and the record of a payload of any length; the header has room for twelve bits of the length |
| JsIsoTp.FlowStatuses | diagnostics/isotp/index.js:170-180 | status 1 waits, 2 rejects, and any other grants a block of the size given or, for zero or none, of the option |
| JsSender.Sender.Send | diagnostics/isotp/index.js:145-167 | the new record and its first frame; a longer payload becomes the active transfer, a single frame leaves it as it is |
| JsSender.Sender.HandleFlowControl | diagnostics/isotp/index.js:170-180 | the active transfer is aborted, left waiting, or granted a block, of which the first frame goes out |
| JsSender.Sender.SendConsecutive | diagnostics/isotp/index.js:190-206 | the block loop up to its next await: one frame and the loop suspended, or the end of the transfer, or of the block |
| JsSender.Sender.Resume | diagnostics/isotp/index.js:199-202 | a suspended loop goes on from the record as it is then, unless the transfer has ended |
| JsSender.Sender.Finish | diagnostics/isotp/index.js:208-214 | a running transfer resolves and, whichever it is, none is active afterwards |
| JsSender.Sender.Fail | diagnostics/isotp/index.js:216-222 | a running transfer is rejected and, whichever it is, none is active afterwards |
| JsSender.ApplyCuts | diagnostics/isotp/index.js:190-198 | every event keeps it that a transfer's transmitted and unsent frames are the frames of its payload |
| JsSender.ApplyAttended | diagnostics/isotp/index.js:199-203 | every event keeps it that a running transfer whose frames are all out has a loop that will end it |
| JsSender.EveryTransfer | diagnostics/isotp/index.js:145-222 | over every sequence of sends, grants, failures and resumed loops each transfer transmits a beginning of the frames of its payload, up to 4095 bytes those of the Python handler, and all of them if it resolves; with all of them out and no end yet, its end is due |
| JsSender.ActiveSurvives | diagnostics/isotp/index.js:208-222 | a transfer stays the active one if and only if no transfer that is running ends meanwhile, itself or another, and nothing but single frames is sent; one that is not active never becomes so |
| JsSender.DroppedIsBounded | diagnostics/isotp/index.js:190-206 | a transfer that is not active transmits no more than its suspended loops have left of their blocks, and nothing without such a loop |
| JsSender.DroppedResolves | diagnostics/isotp/index.js:190-206 | a running transfer that is not active can still resolve if and only if its suspended loops cover all its unsent frames |
| JsSender.Strands | diagnostics/isotp/index.js:145-188 | two sends and the end of the first transfer lead to a state in which none is active and no loop is suspended |
| JsSender.LateEndStrands | diagnostics/isotp/index.js:154-188 | a single frame's end, or the timer of a displaced transfer, takes the flow control from the payload sent after it: that one never resolves and transmits at most its first frame |
| JsSender.UndisturbedTransfer | diagnostics/isotp/index.js:170-206 | from any state, a segmented payload whose blocks are transmitted without interruption becomes and transmits what the run of its flow control says |
| JsIsoTp.Receiver.HandleFrame | diagnostics/isotp/index.js:69-107 | fields, messages, errors and reply after any frame |
| JsIsoTp.Receiver.Deliver | diagnostics/isotp/index.js:115-120 | the message is handed over once and the reassembly is reset |
| JsIsoTp.Receiver.Fail | diagnostics/isotp/index.js:122-127 | the error is reported once and the reassembly is reset |
| JsIsoTp.EscapeDeliversEmpty | diagnostics/isotp/index.js:78-104 | fed with a Python message above 4095 bytes the JavaScript receiver delivers one empty message |
| JsIsoTp.OverflowDeliversNothing | diagnostics/isotp/index.js:78-90 | a message above the receiver's own limit delivers nothing |
| JsIsoTp.PythonToJavaScript | diagnostics/isotp/index.js:69-107 | in whatever state it is, the JavaScript receiver delivers a Python message exactly once and without error if and only if it is a single frame or within 4095 bytes and its own limit |
| JsFaults.FrameKinds | diagnostics/isotp/index.js:69-107 | messages, errors, fields and reply for every frame by its first byte |
| JsFaults.WrongNumberEnds | diagnostics/isotp/index.js:92-94 | a consecutive frame with another number than the one due adds exactly one error, delivers nothing and ends the reassembly |
| JsFaults.AnyArrivals | diagnostics/isotp/index.js:91-100 | for any consecutive frames whatever in the middle of a message: those in order are joined until the message is long enough, which is delivered once; the first wrong number ends it with that error; everything behind is stray |
| JsFaults.EveryArrival | diagnostics/isotp/index.js:69-107 | whatever consecutive frames of a message arrive in whatever order, the JavaScript receiver delivers what the Python one returns, reports the wrong number where that one raises it, and waits where that one times out |
| JsFaults.LossIsDetected | diagnostics/isotp/index.js:91-100 | whatever consecutive frames are lost, the message is delivered without error if and only if none is; otherwise the first error is a wrong number, or there is none and the receiver waits |
| JsFaults.SafeArrivals | diagnostics/isotp/index.js:91-100 | losses, repetitions and reordering never make it deliver another payload if and only if they are safe for the Python receiver |
| JsInterop.SilentPeer | src/communication/isotp_handler.py:281-295 | a Python sender that hears nothing more finishes if and only if its grant covers the rest, otherwise it ends with the N_Bs timeout |
| JsInterop.OneReplyMustDo | diagnostics/isotp/index.js:78-107 | a Python message above 7 and up to 4095 bytes is transmitted completely on the JavaScript receiver's one reply if and only if its block size byte is 0 or covers the whole message; otherwise the N_Bs timeout |
| JsInterop.BlockTakes | diagnostics/isotp/index.js:190-206 | a granted block takes that many frames off the unsent ones and resolves the transfer if and only if none is left |
| JsInterop.GrantsResolve | diagnostics/isotp/index.js:170-206 | under any number of equal grants a transfer resolves if and only if they cover it, and leaves what they do not |
| JsInterop.GrantsSend | diagnostics/isotp/index.js:190-206 | under equal grants a transfer transmits exactly as many of the Python frames as they allow |
| JsInterop.PythonHears | src/communication/isotp_handler.py:432-463 | the grants a Python receiver sends while the first m consecutive frames of a message arrive, and that its call ends with the payload for all of them and with the N_Cr timeout for fewer |
| JsInterop.JavaScriptSends | diagnostics/isotp/index.js:170-206 | on the grants of a Python receiver the sender transmits the whole message, or its own block if no blocks are asked for |
| JsInterop.OwnBlockSizeMustDo | diagnostics/isotp/index.js:176 | JavaScript sender and Python receiver run on each other's frames: the receiver's run answers exactly the grants the sender transmits on; the transfer resolves and the payload is returned if blocks are asked for or the message fits into the sender's own block size, otherwise the transfer stays pending and the receiver ends with the N_Cr timeout |
| JsInterop.OneBlockMustDo | diagnostics/isotp/index.js:78-107 | JavaScript at both ends: the receiver replies once; a segmented message is delivered and resolves if and only if it fits into one block, otherwise both wait |
| JsLink.RunKeeps | diagnostics/isotp/index.js:170-206 | every step of a JavaScript sender, its loops suspended after every frame, and a Python receiver over FIFO channels keeps the invariant, and runs are bounded |
| JsLink.SenderSideIsEngine | diagnostics/isotp/index.js:170-206 | the sending side of every run is a run of the event-by-event sender with this one transfer |
| JsLink.ResumeKeeps | diagnostics/isotp/index.js:193-205 | a loop that goes on, the one inside its block or one that is over, keeps the invariant |
| JsLink.Stops | diagnostics/isotp/index.js:190-206 | where neither side can move, the transfer is complete or the sender waits for a grant that does not come, by the same condition |
| JsLink.EveryInterleaving | diagnostics/isotp/index.js:145-206 | for every interleaving of the two, block loops of the sender included: nothing is raised, nothing but the payload is returned, and the run stops with the transfer resolved and the payload returned if blocks are asked for or the own block size suffices, otherwise with the transfer pending and a receiver that the N_Cr timeout ends |
| PyJsLink.StepKeeps | diagnostics/isotp/index.js:69-107 | every step of a Python sender, a JavaScript receiver that answers each frame itself, and the sender's timeout keeps the invariant |
| PyJsLink.RunIsBounded | src/communication/isotp_handler.py:265-356 | every run of the two is finite, whatever is on the way |
| PyJsLink.SegmentedRuns | diagnostics/isotp/index.js:69-107 | for every interleaving with a receiver that accepts the length: no `onError`, `onMessage` at most once and with the payload, and the sender finishes if and only if the receiver asks for no blocks or the message fits into one; otherwise the N_Bs timeout ends it and the receiver still waits |
| PyJsLink.MisfitRuns | diagnostics/isotp/index.js:78-104 | of a message that the receiver refuses or whose escape length it misreads, at most an empty message is delivered |
| PyJsLink.EveryInterleaving | diagnostics/isotp/index.js:69-127 | for every message of the Python sender, every state of the receiver and every interleaving: the sender's call ends, and the message is delivered once and without error to a finished transfer if and only if it is a single frame, or within both limits and within one block where blocks are asked for |
| MessageQueue.PriorityMessageQueue.constructor | src/communication/message_queue.py:45-56 | a new queue is empty and has dropped nothing |
| MessageQueue.PriorityMessageQueue.Put | src/communication/message_queue.py:58-79 | with room the entry is added; a full queue evicts its last slot for it if it may, rejects it otherwise; the counters and the answer go with it |
| MessageQueue.PriorityMessageQueue.Get | src/communication/message_queue.py:81-95 | the popped payload and the new array, or None on an empty queue |
| MessageQueue.PriorityMessageQueue.Clear | src/communication/message_queue.py:97-102 | the queue is emptied and the number of entries returned |
| MessageQueue.PriorityMessageQueue.SiftToRoot | src/communication/message_queue.py:77 | the loop of `heappush` in place |
| MessageQueue.PriorityMessageQueue.SiftToLeaf | src/communication/message_queue.py:88 | the loop of `heappop` in place |
| MessageQueue.PriorityMessageQueue.HeapPop | src/communication/message_queue.py:88-95 | `heappop` returns the root and leaves the re-sifted rest |
| MessageQueue.PushKeepsHeap | src/communication/message_queue.py:77 | pushing keeps the heap order and adds exactly one entry |
| MessageQueue.PopKeepsHeap | src/communication/message_queue.py:88 | popping keeps the heap order and removes exactly the root |
| MessageQueue.RootIsLeast | src/communication/message_queue.py:88 | nothing in the array comes before its root |
| MessageQueue.PutDoes | src/communication/message_queue.py:58-79 | in every state: with room the entry is added; on a full queue `drop_oldest` gives it the place of the last slot, and without it nothing but the dropped count changes; the answer says which |
| MessageQueue.PutOnFull | src/communication/message_queue.py:66-79 | the same for every state operations lead to under a positive bound, where nothing raises and the new entry is the latest |
| MessageQueue.EveryRun | src/communication/message_queue.py:58-102 | after every run the array is a heap within the bound and every put is exactly one of queued, delivered, cleared or counted as dropped, or, under a negative bound only, one that raised |
| MessageQueue.GetTakesMostUrgent | src/communication/message_queue.py:81-95 | in every reachable state what is returned comes before everything that stays |
| MessageQueue.EvictionSparesMostUrgent | src/communication/message_queue.py:75 | eviction from two or more entries never removes the most urgent one |
| MessageQueue.DrainIsStableSort | src/communication/message_queue.py:90-95 | draining yields exactly the entries, sorted by priority and within one by arrival |
| MessageQueue.EvictsLeastUrgent | src/communication/message_queue.py:70-76 | a full queue always evicts a least urgent entry if and only if its bound is at most two |
| MessageQueue.LowIsNotLast | src/communication/message_queue.py:70-76 | for every larger bound a run after which the evicted entry is not the least urgent |
| UdsClient.Client.SendRequest | src/diagnostics/uds_client.py:125-188 | result, trace, statistics and counters of one request are those of the exchange and its accounting |
| UdsClient.Client.PerformExchange | src/diagnostics/uds_client.py:190-248 | answer, trace and statistics of the retry loop are those of the exchange, for which `UdsClient.BusyIsRepeated` says what is transmitted again |
| UdsClient.Client.ResolvePending | src/diagnostics/pending_response_handler.py:67-94 | the pending loop is the resolving function |
| UdsClient.RequestIsBounded | src/diagnostics/uds_client.py:190-248 | on every reply stream: at most max(1, max_retries) transmissions, at most max_pending receives after each, and the reported pending count is the number of pending responses seen |
| UdsClient.CountersFollowTrace | src/diagnostics/uds_client.py:190-248 | the request and pending counters move exactly with what is transmitted and seen |
| UdsClient.PendingIsPassedOver | src/diagnostics/pending_response_handler.py:82-94 | a transmission resolves to the first reply that is not `7F xx 78`, or to the one behind `max_pending` others; nothing behind it is consumed |
| UdsClient.BusyIsRepeated | src/diagnostics/uds_client.py:200-248 | a transmission is made again if and only if it resolved to `7F xx 21`, `retry_on_busy` is set and fewer than `max_retries` were made; the number of transmissions and the answer are thereby determined |
| UdsClient.RequestIsAnswered | src/diagnostics/uds_client.py:125-188 | what `send_request` returns or raises on every reply stream: refusals, silence, negative, malformed and positive responses, from the last transmission |
| UdsClient.SuppressionIsOneBit | src/diagnostics/suppress_positive_handler.py:39-71 | suppression sets the top bit of the second byte and nothing else, exactly for the services with a sub-function |
| UdsClient.ExchangeCounts | src/diagnostics/uds_client.py:200-248 | an exchange transmits once more than it retries, and what it returns passes the echo check |
| UdsClient.SendTallies | src/diagnostics/uds_client.py:161-188 | one request is counted once, as what it ended with, and its negative response code once |
| UdsClient.RunTallies | src/diagnostics/uds_client.py:161-188 | over every run: requests = positive + negative + timeouts + retries + rejected echoes, each of these is the number of requests that ended so, and each code counter is the number of its negative responses |
| UdsClient.ReturnedResponseFits | src/diagnostics/uds_client.py:250-275 | a returned non-empty response is a complete negative response or echoes the service, never negative with `raise_on_negative` |
| RateLimiter.Limiter.RefillNow | src/communication/rate_limiter.py:33-38 | the tokens after a refill and that they stay within 0 and the capacity |
| RateLimiter.Limiter.TryTake | src/communication/rate_limiter.py:47-53 | the critical section grants exactly if the refilled bucket holds enough, and takes exactly that |
| RateLimiter.Limiter.Acquire | src/communication/rate_limiter.py:40-59 | always ends; takes the tokens exactly if it answers True; a refusal means the deadline would pass before the deficit is made up; without blocking one attempt and no sleep, otherwise one sleep of at most 0.05 s between two attempts |
| RateLimiter.Limiter.Reset | src/communication/rate_limiter.py:61-65 | the bucket is full as of now |
| RateLimiter.GrantsAreBounded | src/communication/rate_limiter.py:33-53 | over every run of events, tokens granted and left are at most those at the start, those accrued and those of resets |
| RateLimiter.TryIsExact | src/communication/rate_limiter.py:33-53 | an attempt is granted if and only if what has accrued up to the capacity suffices, and costs exactly its amount |
| RateLimiter.RateIsRespected | src/communication/rate_limiter.py:9-12 | in every stretch of time d the tokens granted are at most capacity + rate · d, plus one capacity for each reset |
| Flash.MoveShifts | src/diagnostics/flash_sequence.py:475-491 | a move shifts the steps between its ends by one place and touches no other |
| Flash.MoveUndoes | src/diagnostics/flash_sequence.py:475-491 | moving back restores the sequence |
| Flash.FlashSequence.Move | src/diagnostics/flash_sequence.py:475-491 | applies exactly for indices inside the list, otherwise changes nothing |
| Flash.FlashSequence.Add | src/diagnostics/flash_sequence.py:493-500 | the new step is inserted where Python's `insert` clamps the index to, or appended |
| Flash.FlashSequence.Remove | src/diagnostics/flash_sequence.py:502-507 | removes exactly the step at a valid index |
| Flash.FlashSequence.Validate | src/diagnostics/flash_sequence.py:520-570 | reports a problem if and only if it is one of the enabled steps and chosen files |
| Flash.FlashSequence.FindRepeats | src/diagnostics/flash_sequence.py:547-552 | reports exactly the kinds that may not repeat and do, with their count |
| Flash.FlashSequence.FindDisorders | src/diagnostics/flash_sequence.py:554-569 | reports exactly the rules whose predecessor comes first after the ruled kind |
| Flash.ProblemsByName | src/diagnostics/flash_sequence.py:520-570 | what is reported, step kind by step kind and without the tables: which need a file, which may run once, which must come before which |
| Flash.RearrangedDefault | src/diagnostics/flash_sequence.py:321-346 | however the thirteen default steps are rearranged, the sequence is valid if and only if the files are there, the connection is opened before its use, and upload, request, transfer and exit follow each other |
| Flash.FlashRunner.Run | src/diagnostics/flash_runner.py:156-193 | steps, outcomes and cancellation of the run loop are those of the run function |
| Flash.FlashRunner.RunStep | src/diagnostics/flash_runner.py:195-221 | a step passes or fails with its handler and keeps that status |
| Flash.RunReports | src/diagnostics/flash_runner.py:171-187 | outcomes are an in-order prefix of the steps, with `stop_on_failure` only the last can have failed, and a short run was cancelled or stopped by that failure |
| Flash.CompletedMeansAllPassed | src/diagnostics/flash_runner.py:68-76 | a report is completed if and only if every enabled step ran once and passed |
| Flash.OrderedIsRespected | src/diagnostics/flash_sequence.py:340-346 | a rule without complaint is respected by every run that stops at failures, cut short or not |
| Flash.MisorderedIsViolated | src/diagnostics/flash_sequence.py:340-346 | a rule with a complaint is violated by the run in which everything passes |
| Flash.ValidatedOrder | src/diagnostics/flash_sequence.py:554-569 | no ordering problem is reported if and only if every run with `stop_on_failure` executes each ruled kind only after a passed step of each enabled predecessor kind |
| Checksum.Crc16Ccitt | src/utils/checksum_calculator.py:40-47 | the byte loop computes the register function |
| Checksum.CcittShift | src/utils/checksum_calculator.py:45-46 | the bit loop is eight register steps |
| Checksum.Crc16Modbus | src/utils/checksum_calculator.py:50-57 | the byte loop computes the register function |
| Checksum.ModbusShift | src/utils/checksum_calculator.py:55-56 | the bit loop is eight register steps |
| CrcDivision.RemainderIsUnique | src/utils/checksum_calculator.py:40-57 | long division of polynomials over two elements leaves the only remainder p = q·g + r allows |
| CrcDivision.BitsAreDivided | src/utils/checksum_calculator.py:40-57 | fed any bits one by one from any value, either register leaves the remainder of a long division by its generator |
| CrcDivision.CcittIsRemainder | src/utils/checksum_calculator.py:40-47 | crc16_ccitt is the remainder of the message times x^16, with the initial value added at its beginning, by x^16 + x^12 + x^5 + 1, and no other word is |
| CrcDivision.ModbusIsRemainder | src/utils/checksum_calculator.py:50-57 | crc16_modbus is the same for x^16 + x^15 + x^2 + 1 with bytes and register reflected |
| CrcDivision.WordIsDetermined | src/utils/checksum_calculator.py:40-57 | a word is determined by its coefficients in either order |
| Checksum.Streaming | src/utils/checksum_calculator.py:40-57 | the checksum of a concatenation continues from the checksum of the first part |
| Checksum.ResidueIsZero | src/utils/checksum_calculator.py:40-57 | a message followed by its own checksum bytes has checksum zero |
| Checksum.CcittResidue | src/utils/checksum_calculator.py:40-47 | a message followed by its CRC-16/CCITT-FALSE, high byte first, has checksum zero |
| Checksum.ModbusResidue | src/utils/checksum_calculator.py:50-57 | a message followed by its CRC-16/MODBUS, low byte first, has checksum zero |
| Checksum.AdjacentBytesAreDetected | src/utils/checksum_calculator.py:40-57 | messages of equal length that differ only within two adjacent bytes have equal checksums if and only if the bytes are equal |
| Checksum.OneByteIsDetected | src/utils/checksum_calculator.py:40-57 | the same for one byte anywhere |
| BurstErrors.CrcIsBits | src/utils/checksum_calculator.py:40-57 | the byte-wise checksum is the checksum of the bits taken one by one, in the register's order |
| BurstErrors.SpreadDetermines | src/utils/checksum_calculator.py:40-57 | messages with the same bits are equal |
| BurstErrors.BurstIsDetected | src/utils/checksum_calculator.py:40-57 | messages whose bits differ only within at most 16 consecutive places, over however many bytes, have equal checksums if and only if they are equal |
| BurstErrors.CcittIsOrderly | src/utils/checksum_calculator.py:40-47 | all of this holds of CRC-16/CCITT-FALSE, most significant bit first |
| BurstErrors.ModbusIsOrderly | src/utils/checksum_calculator.py:50-57 | and of CRC-16/MODBUS, least significant bit first |
| Checksum.BitsInjective | src/utils/checksum_calculator.py:45-46 | any number of bit steps is injective |
| Checksum.BitsLinear | src/utils/checksum_calculator.py:45-46 | any number of bit steps is linear over exclusive or |
| Checksum.CcittIsLawful | src/utils/checksum_calculator.py:40-47 | the CCITT register, checksum high byte first, has all the laws the theorems need |
| Checksum.ModbusIsLawful | src/utils/checksum_calculator.py:50-57 | the MODBUS register, checksum low byte first, has them too |
| ByteUtils.SetBitChangesOne | src/utils/byte_utils.py:98-109 | in either numbering, setting a bit changes exactly that bit as `get_bit` reads it, negative indices included |
| ByteUtils.WrapIndex | src/utils/byte_utils.py:90-95 | which bit a negative index addresses |
| ByteUtils.ExtractBits | src/utils/byte_utils.py:112-139 | the accumulating loop computes the extraction function, with both error cases |
| ByteUtils.AllBitsAreBigEndian | src/utils/byte_utils.py:112-139 | all bits, most significant first, are the big-endian integer |
| ByteUtils.ExtractIsArithmetic | src/utils/byte_utils.py:112-139 | for buffers of any length: floor(BE / 2^(8·len - start - n)) mod 2^n, or the error |
| ByteUtils.ExtractSplits | src/utils/byte_utils.py:112-139 | extract(s, m + n) = extract(s, m) · 2^n + extract(s + m, n), in either numbering |
| ByteUtils.ExtractWraps | src/utils/byte_utils.py:112-139 | from a negative start the buffer put before itself is read; which starts and lengths raise, in either numbering |
| ByteUtils.LeastFirstIsLittleEndian | src/utils/byte_utils.py:80-95 | least significant bit first, bit i is bit i of the little-endian integer |
| ByteUtils.ExtractReverses | src/utils/byte_utils.py:112-139 | least significant bit first, every bit of the result is a bit of the little-endian integer, in reversed order, and there are no others |
| Uleb.Write | scripts/build-apk.py:165-174 | the loop writes the encoding |
| Uleb.ReadAt | scripts/verify-apk.py:182-191 | the loop reads the number and the offset behind it, or runs off the end |
| Uleb.DecodesEncoded | scripts/verify-apk.py:182-191 | a number is read back wherever it is written, and the reader stops exactly behind it |
| Uleb.ListRoundTrip | scripts/verify-apk.py:182-191 | any list of naturals is read back from its concatenated encodings, up to exactly the end |
| Uleb.EncodingIsMinimal | scripts/build-apk.py:165-174 | no shorter byte string reads as the number, and no other one of the same length |
| Configuration.MergeReads | src/core/configuration_manager.py:150-158 | what a merge reads at any path: the override's leaf, the merged mappings, the base where the override is silent, nothing below an override's leaf |
| Configuration.MergeIsIdempotent | src/core/configuration_manager.py:150-158 | merging the same override again changes nothing |
| Configuration.LastLayerDecides | src/core/configuration_manager.py:199-207 | the last configuration layer that says anything about a path decides it, if what it says is a leaf |
| Configuration.AssignRaises | src/core/configuration_manager.py:247-256 | assigning raises TypeError if and only if something that is not a mapping is strictly before the end of the path |
| Configuration.AssignReads | src/core/configuration_manager.py:247-257 | after an assignment the path reads the value, paths above it read mappings and unrelated paths read what they did |
| Configuration.CoveredIsReplaced | src/core/configuration_manager.py:150-158 | a merge leaves nothing of the base if and only if the override covers it, mapping by mapping |
| Configuration.AssignIsMerge | src/core/configuration_manager.py:247-257 | assigning any value equals merging the tree that holds nothing else, if and only if nothing is in the way and nothing of what stands at the path would survive; for a leaf, if and only if nothing is in the way |
| Configuration.AssignsCommute | src/core/configuration_manager.py:247-257 | assignments at unrelated paths give the same tree in either order |
| ConfigurationStore.ConfigurationManager.Get | src/core/configuration_manager.py:231-245 | the walk returns what stands at the path, or the default if any part is missing |
| ConfigurationStore.ConfigurationManager.Walk | src/core/configuration_manager.py:250-255 | the walk creates the missing mappings and stops with the tree untouched where it raises |
| ConfigurationStore.ConfigurationManager.SetDefault | src/core/configuration_manager.py:253 | `setdefault` returns the entry and changes the tree exactly if there was none |
| ConfigurationStore.ConfigurationManager.Set | src/core/configuration_manager.py:247-257 | the updated mapping objects spell out the assigned tree, or on TypeError the old one; the value is stored itself and not copied |
| ConfigurationStore.StoreGrafts | src/core/configuration_manager.py:257 | writing one mapping object changes the tree at its place and nowhere else |

## Left out

- Threads and locks: locked methods are atomic steps; a token bucket has one caller at a time.
- Real time: a timeout is an inbound `None`, a clock is a monotone input, sleeping only moves it on; the pause between consecutive frames (`_wait_st_min`) and the overall deadline of `receive` are not part of this model.
- Separation times are exact reals, so the binary rounding of `st_min_ms * 10` is not captured.
- IsoTpHandler.Handler.Send: requires room in a frame for two bytes besides an address byte, and for six where the payload needs the escape length. With less room the loop makes no progress or the slice bound of the first chunk is negative.
- IsoTpLink.EveryInterleaving: two peers with a frame capacity of 2 to 5 bytes, which no bus length gives, are not covered.
- IsoTpHandler.Handler.Transmit: `pad_to_full=False` has no caller and is left out.
- The receiver's block size is 0 to 255 in all closed loops, as the flow-control byte can carry no other.
- IsoTpLossy.EveryLossyRun: frames are lost but not repeated or reordered there; `IsoTpFaults` does that at the receiver.
- Logging, callbacks, events, listeners, session keep-alive and exporters have no influence on the modelled results.
- JsSender.Sender.Resume: promises are left out, and how long a pause or a timer takes; a suspended loop may go on at any time, a running transfer may fail at any time.
- JsLink.EveryInterleaving: the sender's flow-control timer does not fire and no second payload is sent there; `JsSender` has both.
- JsInterop.OneBlockMustDo: with JavaScript at both ends the block is transmitted without interruption.
- MessageQueue: `heapq` is not part of the repository; its two sifting loops are modelled after CPython's. The waiting of `get` is left out.
- UdsClient.Client.SendRequest: transport exceptions are left out. The retryable codes are those of src/core/enums/nrc_enums.py that the client can retry; the session fields and the last response are not modelled.
- RateLimiter.Limiter.Acquire: does not cover negative amounts, which would put tokens into the bucket beyond its capacity.
- Flash.FlashRunner.Run: a handler is an oracle that passes or fails, cancellation an oracle asked before each step; callbacks do not raise, the same step object does not stand twice in a sequence, and messages, durations and options are left out.
- Checksum.Crc16Ccitt: initial values are 16-bit words; the default 0xFFFF is one of them.
- ConfigurationStore.ConfigurationManager.Set: the stored value is a tree of its own, so a value that shares a mapping with the configuration or with itself is not covered; a leaf is never changed from outside.
- The bytewise CRC-8, the sums, `swap_endianness`, `chunk_bytes`, the hex helpers and the YAML and environment layers of the configuration are not modelled.
- The DEX, AXML and signing parts of the package scripts are fixed data, and `ui/`, the servers, plugins and sample scripts are wiring.
