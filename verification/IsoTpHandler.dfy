/**
 `IsoTpHandler` with its fields and loops. The driver callbacks are the fields `inbox` (what
 `receive_frame` will return, in order, `None` once it is used up) and `trace` (what crossed the driver
 boundary). Every method is proved equal to the step functions of `IsoTpMachines`.
 */
module IsoTpHandler {
  import opened Common
  import opened IsoTpFrames
  import opened IsoTpMachines

  /** The sender a handler is while `_send_multi_frame` runs. */
  function Sending(payload: Bytes, index: nat, sequence: nat, blockRemaining: nat, negotiated: nat,
                   st: Statistics): Sender {
    Sender(Ready, payload, index, sequence, blockRemaining, negotiated, st)
  }

  /** The loop's variables after one transmission. */
  function After(c: Config, s: Sender): Sender
    requires SenderOk(c, s) && s.phase.Ready?
  {
    Sending(s.payload, s.index + |Chunk(c, s.payload, s.index)|, (s.sequence + 1) % 16,
            if s.blockRemaining > 0 then s.blockRemaining - 1 else 0, s.negotiated,
            s.statistics.(framesSent := s.statistics.framesSent + 1))
  }

  lemma SendStep(c: Config, s: Sender, inbox: Inbox, trace: seq<Event>, run: SendRun)
    requires SenderOk(c, s) && s.phase.Ready?
    requires RunSend(c, s, inbox, trace) == run
    ensures After(c, s).index <= |s.payload|
    ensures SenderOk(c, Settle(After(c, s))) && RunSend(c, Settle(After(c, s)), inbox,
                    trace + [Sent(Wire(c, ConsecutiveBody(c, s.payload, s.index, s.sequence)))]) == run
  {
    assert Settle(After(c, s)) == Emit(c, s);
  }

  lemma SingleStep(c: Config, s: Sender, inbox: Inbox, trace: seq<Event>)
    requires SenderOk(c, s) && s.phase.Start? && FitsSingleFrame(c, s.payload)
    ensures RunSend(c, s, inbox, trace) ==
            SendRun(Emit(c, s), inbox, trace + [Sent(Wire(c, SingleBody(c, s.payload)))])
  {
    assert Emit(c, s).phase.Finished?;
  }

  /** One turn of a receiving run. */
  lemma ReceiveTurn(c: Config, r: Receiver, inbox: Inbox, trace: seq<Event>)
    requires Listening(r)
    ensures var (next, replies) := OnFrame(c, r, Head(inbox));
            && RunReceive(c, r, inbox, trace)
               == RunReceive(c, next, Rest(inbox), trace + [Observed(Head(inbox))] + SentEvents(replies))
            && (inbox == [] ==> !Listening(next))
  {}

  lemma SendEnds(c: Config, s: Sender, inbox: Inbox, trace: seq<Event>)
    requires SenderOk(c, s) && Done(s)
    ensures RunSend(c, s, inbox, trace) == SendRun(s, inbox, trace)
  {}

  lemma ReceiveEnds(c: Config, r: Receiver, inbox: Inbox, trace: seq<Event>)
    requires !Listening(r)
    ensures RunReceive(c, r, inbox, trace) == ReceiveRun(r, inbox, trace)
  {}

  /** A frame at a collecting receiver is passed over or taken as a consecutive one. */
  lemma CollectingTurn(c: Config, r: Receiver, frame: Bytes)
    requires r.phase.Collecting?
    ensures var body := Strip(c, frame);
            OnFrame(c, r, Some(frame)) ==
            if body == [] || body[0] / 16 != CONSECUTIVE_FRAME then (CountHeard(r), [])
            else OnConsecutive(c, CountHeard(r), body)
  {}

  lemma NothingSent(trace: seq<Event>)
    ensures trace + SentEvents([]) == trace
  {}

  class Handler {
    const config: Config
    var inbox: Inbox
    var trace: seq<Event>
    var statistics: Statistics
    var rxBuffer: Bytes
    var rxExpected: nat
    var rxSequence: nat
    var negotiatedBlockSize: nat

    constructor (config: Config, inbox: Inbox)
      ensures this.config == config && this.inbox == inbox && trace == []
      ensures statistics == Statistics(0, 0, 0, 0, 0, 0, 0, 0, 0) && negotiatedBlockSize == 0
      ensures rxBuffer == [] && rxExpected == 0 && rxSequence == 0
    {
      this.config := config;
      this.inbox := inbox;
      trace := [];
      statistics := ZERO_STATISTICS;
      rxBuffer, rxExpected, rxSequence := [], 0, 0;
      negotiatedBlockSize := 0;
    }

    /** The receiving half of this handler in the given phase. */
    ghost function Receiving(phase: RxPhase): Receiver
      reads this
    {
      Receiver(phase, rxBuffer, rxExpected, rxSequence, statistics)
    }

    method ReceiveFrame() returns (frame: Option<Bytes>)
      modifies this`inbox, this`trace
      ensures frame == Head(old(inbox)) && inbox == Rest(old(inbox))
      ensures trace == old(trace) + [Observed(frame)]
    {
      frame := Head(inbox);
      inbox := Rest(inbox);
      trace := trace + [Observed(frame)];
    }

    method Transmit(body: Bytes)
      modifies this`trace, this`statistics
      ensures trace == old(trace) + [Sent(Wire(config, body))] && OnBus(config, body, trace[|old(trace)|].frame)
      ensures statistics == old(statistics).(framesSent := old(statistics.framesSent) + 1)
    {
      WireOnBus(config, body);
      var frame := body;
      if config.extended {
        frame := [config.targetAddress % 256] + frame;
      }
      assert frame == Address(config) + body;
      if config.txPadding {
        var target := if config.canFd then FdPaddedLength(|frame|) else 8;
        if |frame| < target {
          frame := frame + seq(target - |frame|, _ => config.paddingByte % 256);
        }
      }
      assert frame == Wire(config, body);
      trace := trace + [Sent(frame)];
      statistics := statistics.(framesSent := statistics.framesSent + 1);
    }

    // ---------- transmission ----------

    /**
     Refuses exactly the empty and the oversized payload, otherwise performs the run of the sending
     machine from its start and reports the error the run ends with.
     */
    method Send(payload: Bytes) returns (r: Result<(), Error>)
      requires RoomFor(config, |payload|)
      modifies this`inbox, this`trace, this`statistics, this`negotiatedBlockSize
      ensures payload == [] || |payload| > MAX_ESCAPE_PAYLOAD ==>
                r == Err(ValueError) && inbox == old(inbox) && trace == old(trace) &&
                statistics == old(statistics) && negotiatedBlockSize == old(negotiatedBlockSize)
      ensures 1 <= |payload| <= MAX_ESCAPE_PAYLOAD ==>
                var run := RunSend(config, StartSending(payload, old(negotiatedBlockSize), old(statistics)),
                                   old(inbox), old(trace));
                && inbox == run.rest && trace == run.trace
                && statistics == run.sender.statistics && negotiatedBlockSize == run.sender.negotiated
                && match run.sender.phase
                   case Finished => r.Ok?
                   case Failed(error) => r == Err(error)
                   case _ => false
    {
      if |payload| == 0 {
        return Err(ValueError);
      }
      if |payload| > MAX_ESCAPE_PAYLOAD {
        return Err(ValueError);
      }
      if FitsSingleFrame(config, payload) {
        ghost var start := StartSending(payload, negotiatedBlockSize, statistics);
        SingleStep(config, start, inbox, trace);
        Transmit(SingleBody(config, payload));
        r := Ok(());
      } else {
        r := SendMultiFrame(payload);
      }
      if r.Ok? {
        statistics := statistics.(messagesSent := statistics.messagesSent + 1);
      }
    }

    /** The run ends in this handler's state, except that its caller still has to count the message. */
    ghost predicate Concludes(r: Result<(), Error>, run: SendRun)
      reads this
    {
      && inbox == run.rest && trace == run.trace && negotiatedBlockSize == run.sender.negotiated
      && (r.Ok? ==> run.sender.phase.Finished? &&
                    run.sender.statistics == statistics.(messagesSent := statistics.messagesSent + 1))
      && (r.Err? ==> run.sender.phase == Failed(r.error) && run.sender.statistics == statistics)
    }

    /** As `Send`, except that the caller still has to count the message. */
    method SendMultiFrame(payload: Bytes) returns (r: Result<(), Error>)
      requires RoomFor(config, |payload|) && 1 <= |payload| <= MAX_ESCAPE_PAYLOAD && !FitsSingleFrame(config, payload)
      modifies this`inbox, this`trace, this`statistics, this`negotiatedBlockSize
      ensures Concludes(r, RunSend(config, StartSending(payload, old(negotiatedBlockSize), old(statistics)),
                                   old(inbox), old(trace)))
    {
      ghost var run := RunSend(config, StartSending(payload, negotiatedBlockSize, statistics), inbox, trace);
      SegmentedIsLonger(config, payload);
      var capacity := Capacity(config);
      var total := |payload|;
      var header := Header(total);
      var firstChunk := payload[..capacity - |header|];
      Transmit(header + firstChunk);
      ghost var waiting := Sender(AwaitFlow(0), payload, |firstChunk|, 1, 0, negotiatedBlockSize, statistics);
      assert RunSend(config, waiting, inbox, trace) == run;
      hide RunSend;
      var flow := AwaitFlowControl(waiting, run);
      if flow.Err? {
        return Err(flow.error);
      }
      r := SendConsecutiveFrames(payload, |firstChunk|, flow.value, run);
    }

    /** The loop of `_send_multi_frame`. */
    method SendConsecutiveFrames(payload: Bytes, start: nat, granted: nat, ghost run: SendRun)
      returns (r: Result<(), Error>)
      requires RoomFor(config, |payload|) && 1 <= |payload| <= MAX_ESCAPE_PAYLOAD && !FitsSingleFrame(config, payload)
      requires start < |payload| && granted == negotiatedBlockSize
      requires RunSend(config, Sending(payload, start, 1, granted, negotiatedBlockSize, statistics),
                       inbox, trace) == run
      modifies this`inbox, this`trace, this`statistics, this`negotiatedBlockSize
      ensures Concludes(r, run)
    {
      hide RunSend, FitsSingleFrame;
      var total := |payload|;
      var index, sequence: nat, blockRemaining := start, 1, granted;
      ghost var s := Sending(payload, index, sequence, blockRemaining, negotiatedBlockSize, statistics);
      while index < total
        invariant 0 <= index <= total && sequence < 16
        invariant s == Sending(payload, index, sequence, blockRemaining, negotiatedBlockSize, statistics)
        invariant RunSend(config, Settle(s), inbox, trace) == run
      {
        if blockRemaining == 0 && negotiatedBlockSize != 0 {
          assert Settle(s) == s.(phase := AwaitFlow(0));
          var flow := AwaitFlowControl(s.(phase := AwaitFlow(0)), run);
          if flow.Err? {
            return Err(flow.error);
          }
          blockRemaining := flow.value;
          s := Sending(payload, index, sequence, blockRemaining, negotiatedBlockSize, statistics);
        }
        var length;
        length, s := SendConsecutiveFrame(payload, index, sequence, s, run);
        index := index + length;
        sequence := (sequence + 1) % 16;
        if blockRemaining != 0 {
          blockRemaining := blockRemaining - 1;
        }
      }
      SendEnds(config, Settle(s), inbox, trace);
      return Ok(());
    }

    /** One turn of that loop: cut the next chunk and transmit it; returns how long it was. */
    method SendConsecutiveFrame(payload: Bytes, index: nat, sequence: nat, ghost s: Sender, ghost run: SendRun)
      returns (length: nat, ghost t: Sender)
      requires SenderOk(config, s) && s.phase.Ready? && RunSend(config, s, inbox, trace) == run
      requires s.payload == payload && s.index == index && s.sequence == sequence && s.statistics == statistics
      modifies this`trace, this`statistics
      ensures index + length <= |payload| && length > 0
      ensures t == Sending(payload, index + length, (sequence + 1) % 16,
                           if s.blockRemaining > 0 then s.blockRemaining - 1 else 0, s.negotiated, statistics)
      ensures RunSend(config, Settle(t), inbox, trace) == run
    {
      hide RunSend;
      SendStep(config, s, inbox, trace, run);
      t := After(config, s);
      var chunk := payload[index..Min(index + Capacity(config) - 1, |payload|)];
      Transmit([CONSECUTIVE_FRAME * 16 + sequence] + chunk);
      length := |chunk|;
    }

    /** The waiting loop, on behalf of the sender `s` in the run `run`. Returns the granted block size. */
    method AwaitFlowControl(ghost s: Sender, ghost run: SendRun) returns (flow: Result<nat, Error>)
      requires SenderOk(config, s) && s.phase == AwaitFlow(0)
      requires s.statistics == statistics && s.negotiated == negotiatedBlockSize
      requires RunSend(config, s, inbox, trace) == run
      modifies this`inbox, this`trace, this`statistics, this`negotiatedBlockSize
      ensures match flow
              case Ok(blockSize) =>
                && negotiatedBlockSize == blockSize
                && RunSend(config, Sending(s.payload, s.index, s.sequence, blockSize, blockSize, statistics),
                           inbox, trace) == run
              case Err(error) => SendRun(s.(phase := Failed(error), statistics := statistics), inbox, trace) == run
                                 && negotiatedBlockSize == s.negotiated
    {
      var waits := 0;
      while true
        invariant 0 <= waits && negotiatedBlockSize == s.negotiated
        invariant RunSend(config, s.(phase := AwaitFlow(waits), statistics := statistics), inbox, trace) == run
        decreases |inbox|
      {
        var frame := ReceiveFrame();
        if frame.None? {
          statistics := statistics.(timeouts := statistics.timeouts + 1);
          return Err(NBsTimeout);
        }
        var body := Strip(config, frame.value);
        if body == [] {
          continue;
        }
        if body[0] / 16 != FLOW_CONTROL {
          continue;
        }
        var taken := TakeFlowControl(body, waits, s, run);
        if taken.Some? {
          return taken.value;
        }
        waits := waits + 1;
      }
    }

    /** The part of that loop behind the frame-type test; None asks for another turn after a WAIT. */
    method TakeFlowControl(body: Bytes, waited: nat, ghost s: Sender, ghost run: SendRun)
      returns (flow: Option<Result<nat, Error>>)
      requires SenderOk(config, s) && s.phase.AwaitFlow? && s.negotiated == negotiatedBlockSize && body != []
      requires RunSend(config, OnFlowControl(config, s.(phase := AwaitFlow(waited), statistics := statistics), body),
                       inbox, trace) == run
      modifies this`statistics, this`negotiatedBlockSize
      ensures match flow
              case Some(Ok(blockSize)) =>
                && negotiatedBlockSize == blockSize
                && RunSend(config, Sending(s.payload, s.index, s.sequence, blockSize, blockSize, statistics),
                           inbox, trace) == run
              case Some(Err(error)) =>
                SendRun(s.(phase := Failed(error), statistics := statistics), inbox, trace) == run
                && negotiatedBlockSize == s.negotiated
              case None =>
                RunSend(config, s.(phase := AwaitFlow(waited + 1), statistics := statistics), inbox, trace) == run
                && negotiatedBlockSize == s.negotiated
    {
      hide RunSend;
      ghost var next := OnFlowControl(config, s.(phase := AwaitFlow(waited), statistics := statistics), body);
      if next.phase.Failed? {
        SendEnds(config, next, inbox, trace);
      }
      statistics := statistics.(flowControlReceived := statistics.flowControlReceived + 1);
      var status := body[0] % 16;
      if status == OVERFLOW {
        statistics := statistics.(errors := statistics.errors + 1);
        return Some(Err(PeerOverflow));
      }
      if status == WAIT {
        var waits := waited + 1;
        statistics := statistics.(waitFrames := statistics.waitFrames + 1);
        if waits > config.waitFrameLimit {
          return Some(Err(TooManyWaits));
        }
        return None;
      }
      if status != CONTINUE_TO_SEND {
        return Some(Err(InvalidFlowStatus(status)));
      }
      var blockSize := if |body| > 1 then body[1] else 0;
      negotiatedBlockSize := blockSize;
      return Some(Ok(blockSize));
    }

    // ---------- reception ----------

    method Reset()
      modifies this`rxBuffer, this`rxExpected, this`rxSequence
      ensures rxBuffer == [] && rxExpected == 0 && rxSequence == 0
    {
      rxBuffer, rxExpected, rxSequence := [], 0, 0;
    }

    /** Performs the run of the receiving machine from idle; `Ok(None)` is a call that saw no message. */
    method Receive() returns (r: Result<Option<Bytes>, Error>)
      modifies this`inbox, this`trace, this`statistics, this`rxBuffer, this`rxExpected, this`rxSequence
      ensures var run := RunReceive(config, old(Receiving(Idle)), old(inbox), old(trace));
              && inbox == run.rest && trace == run.trace && Receiving(run.receiver.phase) == run.receiver
              && r == match run.receiver.phase
                      case Delivered(payload) => Ok(Some(payload))
                      case Broken(error) => Err(error)
                      case _ => Ok(None)
    {
      hide RunReceive, OnHeard;
      ghost var run := RunReceive(config, Receiving(Idle), inbox, trace);
      while true
        invariant RunReceive(config, Receiving(Idle), inbox, trace) == run
        decreases |inbox|
      {
        ReceiveTurn(config, Receiving(Idle), inbox, trace);
        var frame := ReceiveFrame();
        if frame.None? {
          NothingSent(trace);
          ReceiveEnds(config, Receiving(Silent), inbox, trace);
          return Ok(None);
        }
        statistics := statistics.(framesReceived := statistics.framesReceived + 1);
        var payload := HandleFrame(frame.value, run);
        if payload.Err? {
          return Err(payload.error);
        }
        if payload.value.Some? {
          statistics := statistics.(messagesReceived := statistics.messagesReceived + 1);
          return Ok(payload.value);
        }
      }
    }

    /** What the caller of a method below finds when it goes on from the result. */
    ghost predicate Yields(r: Result<Option<Bytes>, Error>, run: ReceiveRun)
      reads this
    {
      match r
      case Err(error) => Receiving(Broken(error)) == run.receiver && inbox == run.rest && trace == run.trace
      case Ok(None) => RunReceive(config, Receiving(Idle), inbox, trace) == run
      case Ok(Some(payload)) =>
        Deliver(Receiving(Idle), payload) == run.receiver && inbox == run.rest && trace == run.trace
    }

    method HandleFrame(frame: Bytes, ghost run: ReceiveRun) returns (r: Result<Option<Bytes>, Error>)
      requires var (next, replies) := OnHeard(config, Receiving(Idle), frame);
               RunReceive(config, next, inbox, trace + SentEvents(replies)) == run
      modifies this`inbox, this`trace, this`statistics, this`rxBuffer, this`rxExpected, this`rxSequence
      ensures |inbox| <= |old(inbox)|
      ensures Yields(r, run)
    {
      assert trace + SentEvents([]) == trace;
      var body := Strip(config, frame);
      if body == [] {
        return Ok(None);
      }
      var frameType := body[0] / 16;
      if frameType == SINGLE_FRAME {
        r := HandleSingleFrame(body);
      } else if frameType == FIRST_FRAME {
        var started := HandleFirstFrame(body);
        if started.Err? {
          return Err(started.error);
        }
        r := ReceiveRemaining(run);
      } else if frameType == CONSECUTIVE_FRAME || frameType == FLOW_CONTROL {
        return Ok(None);
      } else {
        return Err(Framing);
      }
    }

    method HandleSingleFrame(body: Bytes) returns (r: Result<Option<Bytes>, Error>)
      requires body != []
      ensures var next := OnSingle(config, Receiving(Idle), body);
              match r
              case Err(error) => next == Receiving(Broken(error))
              case Ok(payload) => payload.Some? && next == Deliver(Receiving(Idle), payload.value)
    {
      var length: nat := body[0] % 16;
      var offset := 1;
      if length == 0 && config.canFd {
        if |body| < 2 {
          return Err(Framing);
        }
        length := body[1];
        offset := 2;
      }
      if length == 0 {
        return Err(Framing);
      }
      var payload := body[offset..Max(offset, Min(offset + length, |body|))];
      if |payload| < length {
        return Err(Framing);
      }
      return Ok(Some(payload));
    }

    method HandleFirstFrame(body: Bytes) returns (r: Result<(), Error>)
      requires body != []
      modifies this`trace, this`statistics, this`rxBuffer, this`rxExpected, this`rxSequence
      ensures var (next, replies) := OnFirst(config, old(Receiving(Idle)), body);
              && trace == old(trace) + SentEvents(replies)
              && match r
                 case Err(error) => next == Receiving(Broken(error))
                 case Ok(_) => next == Check(Receiving(Collecting(0)))
    {
      assert forall t: seq<Event> :: t + SentEvents([]) == t;
      if |body| < 2 {
        return Err(Framing);
      }
      var length := (body[0] as int) % 16 * 256 + body[1];
      var offset := 2;
      if length == 0 {
        if |body| < 6 {
          return Err(Framing);
        }
        length := FromBigEndian4(body[2..6]);
        offset := 6;
      }
      rxBuffer := body[offset..];
      rxExpected := length;
      rxSequence := 1;
      SendFlowControl(CONTINUE_TO_SEND);
      return Ok(());
    }

    method ReceiveRemaining(ghost run: ReceiveRun) returns (r: Result<Option<Bytes>, Error>)
      requires RunReceive(config, Check(Receiving(Collecting(0))), inbox, trace) == run
      modifies this`inbox, this`trace, this`statistics, this`rxBuffer, this`rxExpected, this`rxSequence
      ensures |inbox| <= |old(inbox)|
      ensures Yields(r, run)
    {
      hide RunReceive;
      var receivedInBlock := 0;
      while |rxBuffer| < rxExpected
        invariant receivedInBlock >= 0 && |inbox| <= |old(inbox)|
        invariant RunReceive(config, Check(Receiving(Collecting(receivedInBlock))), inbox, trace) == run
        decreases |inbox|
      {
        var turn := HearConsecutive(receivedInBlock, run);
        if turn.Err? {
          return Err(turn.error);
        }
        receivedInBlock := turn.value;
      }
      ReceiveEnds(config, Check(Receiving(Collecting(receivedInBlock))), inbox, trace);
      var payload := rxBuffer[..rxExpected];
      Reset();
      return Ok(Some(payload));
    }

    /** One turn of that loop; returns `received_in_block` after it. */
    method HearConsecutive(receivedInBlock: nat, ghost run: ReceiveRun) returns (r: Result<nat, Error>)
      requires |rxBuffer| < rxExpected
      requires RunReceive(config, Receiving(Collecting(receivedInBlock)), inbox, trace) == run
      modifies this`inbox, this`trace, this`statistics, this`rxBuffer, this`rxSequence
      ensures r.Ok? ==> |inbox| < |old(inbox)|
      ensures |inbox| <= |old(inbox)|
      ensures match r
              case Ok(count) => RunReceive(config, Check(Receiving(Collecting(count))), inbox, trace) == run
              case Err(error) => ReceiveRun(Receiving(Broken(error)), inbox, trace) == run
    {
      hide RunReceive, OnConsecutive, OnHeard, Strip;
      ReceiveTurn(config, Receiving(Collecting(receivedInBlock)), inbox, trace);
      var frame := ReceiveFrame();
      NothingSent(trace);
      if frame.None? {
        statistics := statistics.(timeouts := statistics.timeouts + 1);
        ReceiveEnds(config, Receiving(Broken(NCrTimeout)), inbox, trace);
        return Err(NCrTimeout);
      }
      CollectingTurn(config, Receiving(Collecting(receivedInBlock)), frame.value);
      statistics := statistics.(framesReceived := statistics.framesReceived + 1);
      var body := Strip(config, frame.value);
      if body == [] || body[0] / 16 != CONSECUTIVE_FRAME {
        return Ok(receivedInBlock);
      }
      r := TakeConsecutive(body, receivedInBlock, run);
    }

    /** The part of that loop behind the frame-type test; returns the new `received_in_block`. */
    method TakeConsecutive(body: Bytes, receivedInBlock: nat, ghost run: ReceiveRun) returns (r: Result<nat, Error>)
      requires body != []
      requires var (next, replies) := OnConsecutive(config, Receiving(Collecting(receivedInBlock)), body);
               RunReceive(config, next, inbox, trace + SentEvents(replies)) == run
      modifies this`trace, this`statistics, this`rxBuffer, this`rxSequence
      ensures match r
              case Ok(count) => RunReceive(config, Check(Receiving(Collecting(count))), inbox, trace) == run
              case Err(error) => ReceiveRun(Receiving(Broken(error)), inbox, trace) == run
    {
      assert trace + SentEvents([]) == trace;
      var sequence := body[0] % 16;
      if sequence != rxSequence {
        statistics := statistics.(errors := statistics.errors + 1);
        return Err(SequenceNumber(rxSequence, sequence));
      }
      rxBuffer := rxBuffer + body[1..];
      rxSequence := (rxSequence + 1) % 16;
      var count := receivedInBlock + 1;
      if config.blockSize != 0 && count >= config.blockSize {
        if |rxBuffer| < rxExpected {
          SendFlowControl(CONTINUE_TO_SEND);
        }
        count := 0;
      }
      return Ok(count);
    }

    method SendFlowControl(status: nat)
      requires status <= OVERFLOW
      modifies this`trace, this`statistics
      ensures trace == old(trace) + SentEvents([Wire(config, FlowControlBody(config, status))])
      ensures statistics == CountFlowSent(old(statistics))
    {
      var body: Bytes := [FLOW_CONTROL * 16 + status, config.blockSize % 256, EncodeStMin(config.stMinMs)];
      Transmit(body);
      statistics := statistics.(flowControlSent := statistics.flowControlSent + 1);
    }
  }
}
