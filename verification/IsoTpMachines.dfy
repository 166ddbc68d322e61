/**
 The sending and the receiving half of an ISO-TP handler as step functions. Each step consumes at most
 one inbound frame (`None` stands for a timeout) and names the frames it transmits. `RunSend`
 and `RunReceive` repeat the steps over a given inbound stream; a stream that is used up
 times out. The handler class is proved equal to the runs, the two-process system is built from the steps.
 */
module IsoTpMachines {
  import opened Common
  import opened IsoTpFrames

  datatype Error =
    | ValueError
    | NBsTimeout
    | PeerOverflow
    | TooManyWaits
    | InvalidFlowStatus(status: nat)
    | NCrTimeout
    | SequenceNumber(expected: nat, received: nat)
    | Framing

  datatype Statistics = Statistics(
    framesSent: nat,
    framesReceived: nat,
    messagesSent: nat,
    messagesReceived: nat,
    flowControlSent: nat,
    flowControlReceived: nat,
    waitFrames: nat,
    timeouts: nat,
    errors: nat)

  const ZERO_STATISTICS := Statistics(0, 0, 0, 0, 0, 0, 0, 0, 0)

  /** One observation at the driver boundary. */
  datatype Event = Sent(frame: Bytes) | Got(frame: Bytes) | Quiet

  type Inbox = seq<Option<Bytes>>

  function Observed(got: Option<Bytes>): Event {
    if got.None? then Quiet else Got(got.value)
  }

  // ---------- separation time byte ----------

  /** Rounding to the nearest integer, ties to the even one. */
  function RoundHalfEven(x: real): int {
    var below := x.Floor;
    var rest := x - below as real;
    if rest < 0.5 || (rest == 0.5 && below % 2 == 0) then below else below + 1
  }

  function EncodeStMin(ms: real): byte {
    if ms <= 0.0 then 0x00
    else if ms >= 1.0 then var rounded := RoundHalfEven(ms); if rounded < 127 then rounded else 127
    else 0xF0 + Max(1, Min(9, RoundHalfEven(ms * 10.0)))
  }

  function DecodeStMin(value: byte): real {
    if value <= 0x7F then value as real
    else if 0xF1 <= value <= 0xF9 then (value - 0xF0) as real / 10.0
    else 0.0
  }

  /** Decoding then encoding loses nothing but the reserved bytes, which come back as zero. */
  lemma StMinByteRoundTrip(value: byte)
    ensures EncodeStMin(DecodeStMin(value)) == if value <= 0x7F || 0xF1 <= value <= 0xF9 then value else 0
  {
    if 0xF1 <= value <= 0xF9 {
      assert (value - 0xF0) as real / 10.0 * 10.0 == (value - 0xF0) as real;
    }
  }

  /** Encoding then decoding moves a representable separation time by at most half a unit. */
  lemma StMinTimeRoundTrip(ms: real)
    ensures 1.0 <= ms <= 127.0 ==> -0.5 <= DecodeStMin(EncodeStMin(ms)) - ms <= 0.5
    ensures 0.1 <= ms <= 0.9 ==> -0.05 <= DecodeStMin(EncodeStMin(ms)) - ms <= 0.05
  {
    if 0.1 <= ms <= 0.9 {
      var tenths := RoundHalfEven(ms * 10.0);
      assert -0.5 <= tenths as real - ms * 10.0 <= 0.5;
      assert 1 <= tenths <= 9;
    }
  }

  /**
   The separation-time byte says the time asked for: to the nearest millisecond from 1 ms to 127 ms, to the nearest
   tenth below 1 ms but never zero, zero for no time, and the longest there is for anything longer.
   */
  lemma StMinByteMeans(ms: real)
    ensures var b := EncodeStMin(ms);
            if ms <= 0.0 then b == 0
            else if ms < 1.0 then
              0xF1 <= b <= 0xF9 &&
              var tenths := (b - 0xF0) as real;
              (ms * 10.0 <= 1.0 ==> tenths == 1.0) && (ms * 10.0 >= 9.0 ==> tenths == 9.0)
              && (1.0 <= ms * 10.0 <= 9.0 ==> -0.5 <= tenths - ms * 10.0 <= 0.5)
            else 1 <= b <= 0x7F && (ms <= 127.0 ==> -0.5 <= b as real - ms <= 0.5) && (ms >= 127.0 ==> b == 0x7F)
  {
    if 1.0 <= ms {
      assert -0.5 <= RoundHalfEven(ms) as real - ms <= 0.5;
    } else if 0.0 < ms {
      assert -0.5 <= RoundHalfEven(ms * 10.0) as real - ms * 10.0 <= 0.5;
    }
  }

  // ---------- sending ----------

  /** `AwaitFlow(waits)` is the loop of `_await_flow_control` after `waits` WAIT frames. */
  datatype TxPhase = Start | AwaitFlow(waits: nat) | Ready | Finished | Failed(error: Error)

  datatype Sender = Sender(
    phase: TxPhase,
    payload: Bytes,
    index: nat,
    sequence: nat,
    blockRemaining: nat,
    negotiated: nat,
    statistics: Statistics)

  /** The sender stays inside its payload and its sequence number inside a nibble. */
  predicate SenderOk(c: Config, s: Sender) {
    && 1 <= |s.payload| <= MAX_ESCAPE_PAYLOAD
    && RoomFor(c, |s.payload|)
    && s.index <= |s.payload|
    && s.sequence < 16
    && (s.phase.Start? ==> s.index == 0)
    && (if s.phase.Finished? then s.index == |s.payload| else s.index < |s.payload|)
  }

  function StartSending(payload: Bytes, negotiated: nat, statistics: Statistics): Sender {
    Sender(Start, payload, 0, 0, 0, negotiated, statistics)
  }

  /** The top of the transmission loop: stop, wait for flow control or go on. */
  function Settle(s: Sender): Sender {
    if s.index >= |s.payload| then
      s.(phase := Finished, statistics := s.statistics.(messagesSent := s.statistics.messagesSent + 1))
    else if s.blockRemaining == 0 && s.negotiated != 0 then s.(phase := AwaitFlow(0))
    else s.(phase := Ready)
  }

  function CountSent(s: Sender): Sender {
    s.(statistics := s.statistics.(framesSent := s.statistics.framesSent + 1))
  }

  predicate CanEmit(s: Sender) {
    s.phase.Start? || s.phase.Ready?
  }

  /** The body of the next frame. */
  function NextBody(c: Config, s: Sender): Bytes
    requires SenderOk(c, s) && CanEmit(s)
  {
    if s.phase.Ready? then ConsecutiveBody(c, s.payload, s.index, s.sequence)
    else if FitsSingleFrame(c, s.payload) then SingleBody(c, s.payload)
    else FirstBody(c, s.payload)
  }

  function Emit(c: Config, s: Sender): (r: Sender)
    requires SenderOk(c, s) && CanEmit(s)
    ensures SenderOk(c, r) && r.payload == s.payload && !r.phase.Start?
    ensures s.phase.Ready? ==> s.index < r.index
  {
    if s.phase.Ready? then
      Settle(CountSent(s.(index := s.index + |Chunk(c, s.payload, s.index)|,
                          sequence := (s.sequence + 1) % 16,
                          blockRemaining := if s.blockRemaining > 0 then s.blockRemaining - 1 else 0)))
    else if FitsSingleFrame(c, s.payload) then
      CountSent(s.(phase := Finished, index := |s.payload|,
                   statistics := s.statistics.(messagesSent := s.statistics.messagesSent + 1)))
    else
      CountSent(s.(phase := AwaitFlow(0), index := FirstLength(c, |s.payload|), sequence := 1, blockRemaining := 0))
  }

  function FrameType(body: Bytes): nat
    requires body != []
  {
    body[0] / 16
  }

  predicate IsFlowControl(c: Config, frame: Bytes) {
    var body := Strip(c, frame);
    body != [] && FrameType(body) == FLOW_CONTROL
  }

  /** A flow-control frame at a waiting sender. */
  function OnFlowControl(c: Config, s: Sender, body: Bytes): (r: Sender)
    requires SenderOk(c, s) && s.phase.AwaitFlow? && body != []
    ensures SenderOk(c, r) && r.payload == s.payload && r.index == s.index && r.sequence == s.sequence
    ensures !r.phase.Start? && !r.phase.Finished?
  {
    var st := s.statistics.(flowControlReceived := s.statistics.flowControlReceived + 1);
    var status := body[0] % 16;
    if status == OVERFLOW then
      s.(phase := Failed(PeerOverflow), statistics := st.(errors := st.errors + 1))
    else if status == WAIT then
      var waits := s.phase.waits + 1;
      s.(phase := if waits > c.waitFrameLimit then Failed(TooManyWaits) else AwaitFlow(waits),
         statistics := st.(waitFrames := st.waitFrames + 1))
    else if status != CONTINUE_TO_SEND then
      s.(phase := Failed(InvalidFlowStatus(status)), statistics := st)
    else
      var blockSize := if |body| > 1 then body[1] else 0;
      Settle(s.(blockRemaining := blockSize, negotiated := blockSize, statistics := st))
  }

  /** One turn of the flow-control loop. */
  function OnFlow(c: Config, s: Sender, got: Option<Bytes>): (r: Sender)
    requires SenderOk(c, s) && s.phase.AwaitFlow?
    ensures SenderOk(c, r) && r.payload == s.payload && r.index == s.index && r.sequence == s.sequence
    ensures !r.phase.Start? && !r.phase.Finished?
    ensures got.None? ==> r.phase.Failed?
  {
    if got.None? then
      s.(phase := Failed(NBsTimeout), statistics := s.statistics.(timeouts := s.statistics.timeouts + 1))
    else if IsFlowControl(c, got.value) then OnFlowControl(c, s, Strip(c, got.value))
    else s
  }

  datatype SendRun = SendRun(sender: Sender, rest: Inbox, trace: seq<Event>)

  function Rank(s: Sender): nat
    requires s.index <= |s.payload|
  {
    |s.payload| - s.index + if s.phase.Start? then 1 else 0
  }

  predicate Done(s: Sender) {
    s.phase.Finished? || s.phase.Failed?
  }

  /** One step of a sender that is not done: what it becomes, the inbox it leaves, what is observed. */
  function Turn(c: Config, s: Sender, inbox: Inbox): (r: (Sender, Inbox, Event))
    requires SenderOk(c, s) && !Done(s)
    ensures SenderOk(c, r.0) && r.0.payload == s.payload
    ensures Rank(r.0) + |r.1| <= Rank(s) + |inbox|
    ensures Rank(r.0) + |r.1| == Rank(s) + |inbox| ==> s.phase.AwaitFlow? && !r.0.phase.AwaitFlow?
  {
    if s.phase.AwaitFlow? then (OnFlow(c, s, Head(inbox)), Rest(inbox), Observed(Head(inbox)))
    else (Emit(c, s), inbox, Sent(Wire(c, NextBody(c, s))))
  }

  /** The whole of `send` on a payload of legal length. */
  function RunSend(c: Config, s: Sender, inbox: Inbox, trace: seq<Event>): (r: SendRun)
    requires SenderOk(c, s)
    decreases Rank(s) + |inbox|, s.phase.AwaitFlow?
  {
    if Done(s) then SendRun(s, inbox, trace)
    else
      var (next, rest, e) := Turn(c, s, inbox);
      RunSend(c, next, rest, trace + [e])
  }

  // ---------- receiving ----------

  /** `Silent` is the end of a `receive` call that saw no message. */
  datatype RxPhase = Idle | Collecting(inBlock: nat) | Delivered(payload: Bytes) | Silent | Broken(error: Error)

  datatype Receiver = Receiver(
    phase: RxPhase,
    buffer: Bytes,
    expected: nat,
    sequence: nat,
    statistics: Statistics)

  predicate Listening(r: Receiver) {
    r.phase.Idle? || r.phase.Collecting?
  }

  function FlowControlBody(c: Config, status: nat): Bytes
    requires status <= OVERFLOW
  {
    [FLOW_CONTROL * 16 + status, c.blockSize % 256, EncodeStMin(c.stMinMs)]
  }

  /** Flow control in the format of ISO 15765-2:2016, section 9.6.5: status, block size and separation time. */
  lemma FlowControlForm(c: Config, status: nat)
    requires status <= OVERFLOW
    ensures var body := FlowControlBody(c, status);
            |body| == 3 && body[0] == 0x30 + status && body[1] == c.blockSize % 256 && body[2] == EncodeStMin(c.stMinMs)
    ensures FlowControlBody(c, CONTINUE_TO_SEND)[0] == 0x30
  {
  }

  function CountFlowSent(st: Statistics): Statistics {
    st.(framesSent := st.framesSent + 1, flowControlSent := st.flowControlSent + 1)
  }

  function Deliver(r: Receiver, payload: Bytes): Receiver {
    r.(phase := Delivered(payload),
       statistics := r.statistics.(messagesReceived := r.statistics.messagesReceived + 1))
  }

  /** The top of the reassembly loop: deliver and reset, or go on collecting. */
  function Check(r: Receiver): Receiver
    requires r.phase.Collecting?
  {
    if |r.buffer| < r.expected then r
    else Deliver(r.(buffer := [], expected := 0, sequence := 0), r.buffer[..r.expected])
  }

  function OnSingle(c: Config, r: Receiver, body: Bytes): Receiver
    requires body != []
  {
    var escape := body[0] % 16 == 0 && c.canFd;
    if escape && |body| < 2 then r.(phase := Broken(Framing))
    else
      var length: nat := if escape then body[1] else body[0] % 16;
      var offset := if escape then 2 else 1;
      if length == 0 || |body| - offset < length then r.(phase := Broken(Framing))
      else Deliver(r, body[offset..offset + length])
  }

  function OnFirst(c: Config, r: Receiver, body: Bytes): (Receiver, seq<Bytes>)
    requires body != []
  {
    if |body| < 2 then (r.(phase := Broken(Framing)), [])
    else
      var short := (body[0] as int) % 16 * 256 + body[1];
      if short == 0 && |body| < 6 then (r.(phase := Broken(Framing)), [])
      else
        var length := if short == 0 then FromBigEndian4(body[2..6]) else short;
        var offset := if short == 0 then 6 else 2;
        var started := Receiver(Collecting(0), body[offset..], length, 1, CountFlowSent(r.statistics));
        (Check(started), [Wire(c, FlowControlBody(c, CONTINUE_TO_SEND))])
  }

  function OnConsecutive(c: Config, r: Receiver, body: Bytes): (Receiver, seq<Bytes>)
    requires r.phase.Collecting? && body != []
  {
    var st := r.statistics;
    if body[0] % 16 != r.sequence then
      (r.(phase := Broken(SequenceNumber(r.sequence, body[0] % 16)), statistics := st.(errors := st.errors + 1)), [])
    else
      var buffer := r.buffer + body[1..];
      var inBlock := r.phase.inBlock + 1;
      var full := c.blockSize != 0 && inBlock >= c.blockSize;
      var ask := full && |buffer| < r.expected;
      (Check(Receiver(Collecting(if full then 0 else inBlock), buffer, r.expected, (r.sequence + 1) % 16,
                      if ask then CountFlowSent(st) else st)),
       if ask then [Wire(c, FlowControlBody(c, CONTINUE_TO_SEND))] else [])
  }

  /** A frame at a listening receiver that has already counted it, and the frames it answers with. */
  function OnHeard(c: Config, r: Receiver, frame: Bytes): (Receiver, seq<Bytes>)
    requires Listening(r)
  {
    var body := Strip(c, frame);
    if body == [] then (r, [])
    else if r.phase.Collecting? then
      if FrameType(body) != CONSECUTIVE_FRAME then (r, []) else OnConsecutive(c, r, body)
    else if FrameType(body) == SINGLE_FRAME then (OnSingle(c, r, body), [])
    else if FrameType(body) == FIRST_FRAME then OnFirst(c, r, body)
    else if FrameType(body) == CONSECUTIVE_FRAME || FrameType(body) == FLOW_CONTROL then (r, [])
    else (r.(phase := Broken(Framing)), [])
  }

  function CountHeard(r: Receiver): Receiver {
    r.(statistics := r.statistics.(framesReceived := r.statistics.framesReceived + 1))
  }

  /** One inbound frame, or a timeout, at a listening receiver. */
  function OnFrame(c: Config, r: Receiver, got: Option<Bytes>): (Receiver, seq<Bytes>)
    requires Listening(r)
  {
    if got.Some? then OnHeard(c, CountHeard(r), got.value)
    else if r.phase.Idle? then (r.(phase := Silent), [])
    else (r.(phase := Broken(NCrTimeout),
             statistics := r.statistics.(timeouts := r.statistics.timeouts + 1)), [])
  }

  datatype ReceiveRun = ReceiveRun(receiver: Receiver, rest: Inbox, trace: seq<Event>)

  function SentEvents(frames: seq<Bytes>): seq<Event> {
    seq(|frames|, k requires 0 <= k < |frames| => Sent(frames[k]))
  }

  /** The whole of `receive`. */
  function RunReceive(c: Config, r: Receiver, inbox: Inbox, trace: seq<Event>): (run: ReceiveRun)
    decreases |inbox|
  {
    if !Listening(r) then ReceiveRun(r, inbox, trace)
    else
      var (next, replies) := OnFrame(c, r, Head(inbox));
      var seen := trace + [Observed(Head(inbox))] + SentEvents(replies);
      if inbox == [] then ReceiveRun(next, [], seen) else RunReceive(c, next, Rest(inbox), seen)
  }
}
