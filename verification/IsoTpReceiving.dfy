/** What `receive` makes of the frames of one segmented payload, whatever state it starts from. */
module IsoTpReceiving {
  import opened Common
  import opened IsoTpFrames
  import opened IsoTpMachines

  // ---------- one frame at a time ----------

  lemma TakesSingle(a: Config, b: Config, r: Receiver, payload: Bytes)
    requires Compatible(a, b) && Roomy(a) && r.phase.Idle?
    requires 1 <= |payload| && FitsSingleFrame(a, payload)
    ensures OnFrame(b, r, Some(Wire(a, SingleBody(a, payload)))) == (Deliver(CountHeard(r), payload), [])
  {
    var body := SingleBody(a, payload);
    StripWire(a, b, body);
    var seen := body + Tail(a, |body|);
    var offset := |body| - |payload|;
    assert seen[offset..offset + |payload|] == payload;
  }

  lemma TakesFirst(a: Config, b: Config, r: Receiver, payload: Bytes)
    requires Compatible(a, b) && Admissible(a) && r.phase.Idle?
    requires |payload| <= MAX_ESCAPE_PAYLOAD && !FitsSingleFrame(a, payload)
    ensures var first := FirstLength(a, |payload|);
            && first < |payload|
            && OnFrame(b, r, Some(Wire(a, FirstBody(a, payload)))) ==
               (Receiver(Collecting(0), payload[..first], |payload|, 1, CountFlowSent(CountHeard(r).statistics)),
                [Wire(b, FlowControlBody(b, CONTINUE_TO_SEND))])
  {
    var body := FirstBody(a, payload);
    SegmentedIsLonger(a, payload);
    StripWire(a, b, body);
    TailFits(a, |body|);
    FirstFrameParses(a, b, CountHeard(r), payload, []);
    var first := payload[..FirstLength(a, |payload|)];
    assert body + [] == body && first + [] == first;
  }

  /** A first frame announces its length in either form, and its data may have padding behind it. */
  lemma FirstFrameParses(a: Config, b: Config, r: Receiver, payload: Bytes, tail: Bytes)
    requires Roomy(a) && 6 <= |payload| <= MAX_ESCAPE_PAYLOAD
    ensures var body := FirstBody(a, payload) + tail;
            var started := Receiver(Collecting(0), payload[..FirstLength(a, |payload|)] + tail, |payload|, 1,
                                    CountFlowSent(r.statistics));
            && FrameType(body) == FIRST_FRAME
            && OnFirst(b, r, body) == (Check(started), [Wire(b, FlowControlBody(b, CONTINUE_TO_SEND))])
  {
    var total := |payload|;
    var header := Header(total);
    var data := payload[..FirstLength(a, total)] + tail;
    var body := FirstBody(a, payload) + tail;
    assert body == header + data;
    assert body[|header|..] == data;
    if total > MAX_CLASSIC_PAYLOAD {
      assert body[2..6] == BigEndian4(total);
      BigEndian4RoundTrip(total);
    }
  }

  /** What an idle receiver makes of a frame it can read nothing from, by its first bytes. */
  predicate Malformed(c: Config, body: Bytes) {
    body != [] &&
    if body[0] <= 0x0F then
      if body[0] == 0 && c.canFd then |body| < 2 || body[1] == 0 || |body| - 2 < body[1]
      else body[0] == 0 || |body| - 1 < body[0]
    else if body[0] <= 0x1F then |body| < 2 || (body[0] == 0x10 && body[1] == 0 && |body| < 6)
    else body[0] >= 0x40
  }

  /** The length a well-formed single or first frame announces, and where its data begins. */
  function Announced(body: Bytes): (r: (nat, nat))
    requires body != [] && body[0] <= 0x1F
    requires (body[0] == 0 || body[0] >= 0x10 ==> |body| >= 2) && (body[0] == 0x10 && body[1] == 0 ==> |body| >= 6)
  {
    if body[0] == 0 then (body[1], 2)
    else if body[0] <= 0x0F then (body[0], 1)
    else if body[0] == 0x10 && body[1] == 0 then
      ((body[2] as int) * 0x100_0000 + (body[3] as int) * 0x1_0000 + (body[4] as int) * 0x100 + body[5], 6)
    else ((body[0] as int - 0x10) * 0x100 + body[1], 2)
  }

  lemma SingleHeard(c: Config, r: Receiver, body: Bytes)
    requires body != [] && body[0] <= 0x0F
    ensures var next := OnSingle(c, r, body);
            if Malformed(c, body) then next.phase == Broken(Framing)
            else var (length, offset) := Announced(body); next.phase == Delivered(body[offset..offset + length])
  {
  }

  lemma FirstHeard(c: Config, r: Receiver, body: Bytes)
    requires body != [] && 0x10 <= body[0] <= 0x1F
    ensures var (next, replies) := OnFirst(c, r, body);
            if Malformed(c, body) then next.phase == Broken(Framing)
            else
              var (length, offset) := Announced(body);
              && replies == [Wire(c, FlowControlBody(c, CONTINUE_TO_SEND))]
              && if |body| - offset >= length then next.phase == Delivered(body[offset..offset + length])
                 else next.phase == Collecting(0) && next.buffer == body[offset..] && next.expected == length
                      && next.sequence == 1
  {
    hide Wire, FlowControlBody;
  }

  /**
   What an idle receiver makes of any frame: it raises exactly on the malformed ones, delivers a single frame, starts on
   a first frame, and passes over everything else.
   */
  lemma IdleHears(c: Config, r: Receiver, frame: Bytes)
    requires r.phase.Idle?
    ensures var body := Strip(c, frame);
            var (next, replies) := OnFrame(c, r, Some(frame));
            && (Malformed(c, body) <==> next.phase == Broken(Framing))
            && (body == [] || 0x20 <= body[0] <= 0x3F ==> next == CountHeard(r) && replies == [])
            && (!Malformed(c, body) && body != [] && body[0] <= 0x0F ==>
                  var (length, offset) := Announced(body);
                  next.phase == Delivered(body[offset..offset + length]) && replies == [])
            && (!Malformed(c, body) && body != [] && 0x10 <= body[0] <= 0x1F ==>
                  var (length, offset) := Announced(body);
                  && replies == [Wire(c, FlowControlBody(c, CONTINUE_TO_SEND))]
                  && if |body| - offset >= length then next.phase == Delivered(body[offset..offset + length])
                     else next.phase == Collecting(0) && next.buffer == body[offset..] && next.expected == length
                          && next.sequence == 1)
  {
    hide OnSingle, OnFirst, Announced, Wire, FlowControlBody, Strip;
    var body := Strip(c, frame);
    if body != [] && body[0] <= 0x0F {
      SingleHeard(c, CountHeard(r), body);
    } else if body != [] && body[0] <= 0x1F {
      FirstHeard(c, CountHeard(r), body);
    }
  }

  /** And in the middle of a message: only consecutive frames count, and of these only the one whose number is due. */
  lemma CollectingHears(c: Config, r: Receiver, frame: Bytes)
    requires r.phase.Collecting? && r.sequence < 16
    ensures var body := Strip(c, frame);
            var (next, replies) := OnFrame(c, r, Some(frame));
            && (body == [] || body[0] < 0x20 || body[0] > 0x2F ==> next == CountHeard(r) && replies == [])
            && (body != [] && 0x20 <= body[0] <= 0x2F ==>
                  if body[0] != 0x20 + r.sequence then
                    next.phase == Broken(SequenceNumber(r.sequence, body[0] - 0x20)) && replies == []
                  else
                    var held := r.buffer + body[1..];
                    var asks := |held| < r.expected && c.blockSize > 0 && r.phase.inBlock + 1 >= c.blockSize;
                    && replies == (if asks then [Wire(c, FlowControlBody(c, CONTINUE_TO_SEND))] else [])
                    && if |held| >= r.expected then next.phase == Delivered(held[..r.expected])
                       else
                         && next.buffer == held && next.expected == r.expected && next.sequence == (r.sequence + 1) % 16
                         && next.phase.Collecting? && (asks ==> next.phase.inBlock == 0)
                         && (c.blockSize > 0 && !asks ==> next.phase.inBlock == r.phase.inBlock + 1))
  {
    hide Wire, FlowControlBody;
  }

  /** The receiver holds the first bytes of `payload` and waits for the rest. */
  predicate Holding(payload: Bytes, r: Receiver) {
    && r.phase.Collecting?
    && r.expected == |payload|
    && |r.buffer| < |payload|
    && r.buffer == payload[..|r.buffer|]
    && r.sequence < 16
  }

  predicate BlockFull(b: Config, r: Receiver)
    requires r.phase.Collecting?
  {
    b.blockSize != 0 && r.phase.inBlock + 1 >= b.blockSize
  }

  /** The receiver once it holds the first `next` bytes, the last of them from a frame it has counted. */
  function HoldingTo(b: Config, payload: Bytes, r: Receiver, next: nat): (Receiver, seq<Bytes>)
    requires r.phase.Collecting? && next <= |payload|
  {
    if next == |payload| then (Deliver(Receiver(r.phase, [], 0, 0, r.statistics), payload), [])
    else if BlockFull(b, r) then
      (Receiver(Collecting(0), payload[..next], |payload|, (r.sequence + 1) % 16, CountFlowSent(r.statistics)),
       [Wire(b, FlowControlBody(b, CONTINUE_TO_SEND))])
    else
      (Receiver(Collecting(r.phase.inBlock + 1), payload[..next], |payload|, (r.sequence + 1) % 16, r.statistics), [])
  }

  /** The receiver after the consecutive frame it waits for. */
  function AfterNext(a: Config, b: Config, payload: Bytes, r: Receiver): (Receiver, seq<Bytes>)
    requires Roomy(a) && Holding(payload, r)
  {
    HoldingTo(b, payload, CountHeard(r), |r.buffer| + |Chunk(a, payload, |r.buffer|)|)
  }

  lemma TakesConsecutive(a: Config, b: Config, r: Receiver, payload: Bytes)
    requires Compatible(a, b) && Admissible(a) && Holding(payload, r)
    ensures OnFrame(b, r, Some(Wire(a, ConsecutiveBody(a, payload, |r.buffer|, r.sequence)))) ==
            AfterNext(a, b, payload, r)
  {
    var held := |r.buffer|;
    var tail := ChunkArrives(a, b, payload, held, r.sequence);
    var next := held + |Chunk(a, payload, held)|;
    ExtendsBuffer(payload, held, next, tail);
    ExtendsTo(b, CountHeard(r), payload, next, Wire(a, ConsecutiveBody(a, payload, held, r.sequence)), tail);
  }

  /** A chunk reaches the receiver with padding behind it only if it is the last one. */
  lemma ChunkArrives(a: Config, b: Config, payload: Bytes, held: nat, sequence: nat) returns (tail: Bytes)
    requires Compatible(a, b) && Admissible(a) && held < |payload| && sequence < 16
    ensures var body := Strip(b, Wire(a, ConsecutiveBody(a, payload, held, sequence)));
            && body != [] && body[0] == CONSECUTIVE_FRAME * 16 + sequence
            && body[1..] == Chunk(a, payload, held) + tail
    ensures held + |Chunk(a, payload, held)| < |payload| ==> tail == []
  {
    var body := ConsecutiveBody(a, payload, held, sequence);
    tail := Tail(a, |body|);
    StripWire(a, b, body);
    TailFits(a, |body|);
    assert (body + tail)[1..] == Chunk(a, payload, held) + tail;
  }

  lemma ExtendsTo(b: Config, r: Receiver, payload: Bytes, next: nat, frame: Bytes, tail: Bytes)
    requires Holding(payload, r) && |r.buffer| <= next <= |payload|
    requires var body := Strip(b, frame);
             && body != [] && body[0] == CONSECUTIVE_FRAME * 16 + r.sequence
             && body[1..] == payload[|r.buffer|..next] + tail
    requires next < |payload| ==> tail == []
    ensures OnHeard(b, r, frame) == HoldingTo(b, payload, r, next)
  {
    ExtendsBuffer(payload, |r.buffer|, next, tail);
  }

  lemma ExtendsBuffer(payload: Bytes, held: nat, next: nat, tail: Bytes)
    requires held <= next <= |payload|
    ensures payload[..held] + (payload[held..next] + tail) == payload[..next] + tail
    ensures next == |payload| ==> (payload[..next] + tail)[..|payload|] == payload
    ensures tail == [] ==> payload[..next] + tail == payload[..next]
  {
  }

  // ---------- whole messages ----------

  function Arrivals(frames: seq<Bytes>): Inbox {
    seq(|frames|, k requires 0 <= k < |frames| => Some(frames[k]))
  }

  lemma ArrivalsSplit(frames: seq<Bytes>, rest: Inbox)
    requires frames != []
    ensures Head(Arrivals(frames) + rest) == Some(frames[0])
    ensures Rest(Arrivals(frames) + rest) == Arrivals(frames[1..]) + rest
  {
    var inbox, later := Arrivals(frames), Arrivals(frames[1..]);
    assert inbox[1..] == later;
    assert (inbox + rest)[1..] == inbox[1..] + rest;
  }

  lemma ArrivalsTail(frames: seq<Bytes>)
    requires frames != []
    ensures Head(Arrivals(frames)) == Some(frames[0]) && Rest(Arrivals(frames)) == Arrivals(frames[1..])
  {
    assert Arrivals(frames)[1..] == Arrivals(frames[1..]);
  }

  lemma RunEnds(b: Config, r: Receiver, inbox: Inbox, trace: seq<Event>)
    ensures !Listening(r) ==> RunReceive(b, r, inbox, trace) == ReceiveRun(r, inbox, trace)
    ensures r.phase.Collecting? ==> RunReceive(b, r, [], trace).receiver.phase == Broken(NCrTimeout)
  {
  }

  lemma RunStep(b: Config, r: Receiver, frame: Bytes, frames: seq<Bytes>, rest: Inbox, trace: seq<Event>)
    requires Listening(r)
    ensures var (next, replies) := OnFrame(b, r, Some(frame));
            RunReceive(b, r, Arrivals([frame] + frames) + rest, trace) ==
            RunReceive(b, next, Arrivals(frames) + rest, trace + [Got(frame)] + SentEvents(replies))
  {
    ArrivalsSplit([frame] + frames, rest);
    assert ([frame] + frames)[1..] == frames;
  }

  /** What the next consecutive frame leads to: the end of the message, or waiting for the one after it. */
  lemma NextHolds(a: Config, b: Config, payload: Bytes, r: Receiver)
    requires Roomy(a) && Holding(payload, r)
    ensures var next := AfterNext(a, b, payload, r).0;
            var index := |r.buffer| + |Chunk(a, payload, |r.buffer|)|;
            && |r.buffer| < index <= |payload|
            && if index == |payload| then next.phase == Delivered(payload)
            else Holding(payload, next) && |next.buffer| == index && next.sequence == (r.sequence + 1) % 16
  {
  }

  lemma ReceivesNext(a: Config, b: Config, r: Receiver, payload: Bytes, rest: Inbox, trace: seq<Event>)
    returns (seen: seq<Event>)
    requires Compatible(a, b) && Admissible(a) && Holding(payload, r)
    ensures var index := |r.buffer| + |Chunk(a, payload, |r.buffer|)|;
            var later := WireAll(a, Consecutive(a, payload, index, (r.sequence + 1) % 16));
            RunReceive(b, r, Arrivals(WireAll(a, Consecutive(a, payload, |r.buffer|, r.sequence))) + rest, trace) ==
            RunReceive(b, AfterNext(a, b, payload, r).0, Arrivals(later) + rest, seen)
  {
    hide OnFrame, RunReceive, Wire, WireAll, Arrivals, Consecutive, ConsecutiveBody, AfterNext, Chunk;
    ConsecutiveUnfolds(a, payload, |r.buffer|, r.sequence);
    var body := ConsecutiveBody(a, payload, |r.buffer|, r.sequence);
    var index := |r.buffer| + |Chunk(a, payload, |r.buffer|)|;
    var bodies := Consecutive(a, payload, index, (r.sequence + 1) % 16);
    WireAllCons(a, body, bodies);
    RunStep(b, r, Wire(a, body), WireAll(a, bodies), rest, trace);
    TakesConsecutive(a, b, r, payload);
    seen := trace + [Got(Wire(a, body))] + SentEvents(AfterNext(a, b, payload, r).1);
  }

  lemma {:induction false} ReceivesRest(a: Config, b: Config, r: Receiver, payload: Bytes, rest: Inbox,
                                        trace: seq<Event>)
    requires Compatible(a, b) && Admissible(a) && Holding(payload, r)
    ensures var frames := WireAll(a, Consecutive(a, payload, |r.buffer|, r.sequence));
            var run := RunReceive(b, r, Arrivals(frames) + rest, trace);
            run.receiver.phase == Delivered(payload) && run.rest == rest
    decreases |payload| - |r.buffer|
  {
    hide OnFrame, AfterNext, Chunk;
    var seen := ReceivesNext(a, b, r, payload, rest, trace);
    var next := AfterNext(a, b, payload, r).0;
    NextHolds(a, b, payload, r);
    if next.phase.Collecting? {
      ReceivesRest(a, b, next, payload, rest, seen);
    } else {
      assert Arrivals([]) + rest == rest;
    }
  }

  /** From any idle receiver the frames of a payload yield that payload and nothing else is consumed. */
  lemma ReceivesMessage(a: Config, b: Config, r: Receiver, payload: Bytes, rest: Inbox, trace: seq<Event>)
    requires Compatible(a, b) && Admissible(a) && r.phase.Idle?
    requires 1 <= |payload| <= MAX_ESCAPE_PAYLOAD
    ensures var run := RunReceive(b, r, Arrivals(WireAll(a, Frames(a, payload))) + rest, trace);
            run.receiver.phase == Delivered(payload) && run.rest == rest
  {
    var bodies := Frames(a, payload);
    WireAllCons(a, bodies[0], bodies[1..]);
    RunStep(b, r, Wire(a, bodies[0]), WireAll(a, bodies[1..]), rest, trace);
    if FitsSingleFrame(a, payload) {
      TakesSingle(a, b, r, payload);
      assert Arrivals([]) + rest == rest;
    } else {
      TakesFirst(a, b, r, payload);
      var (next, replies) := OnFrame(b, r, Some(Wire(a, bodies[0])));
      assert bodies[1..] == Consecutive(a, payload, |next.buffer|, 1);
      ReceivesRest(a, b, next, payload, rest, trace + [Got(Wire(a, bodies[0]))] + SentEvents(replies));
    }
  }

  // ---------- resynchronisation ----------

  /** What an idle receiver passes over: empty frames, consecutive frames and flow control. */
  predicate Leftover(b: Config, got: Option<Bytes>) {
    got.Some? &&
    var body := Strip(b, got.value);
    body == [] || FrameType(body) == CONSECUTIVE_FRAME || FrameType(body) == FLOW_CONTROL
  }

  lemma PassesOne(b: Config, r: Receiver, leftovers: Inbox, rest: Inbox, trace: seq<Event>)
    requires r.phase.Idle? && leftovers != [] && Leftover(b, leftovers[0])
    ensures RunReceive(b, r, leftovers + rest, trace) ==
            RunReceive(b, CountHeard(r), leftovers[1..] + rest, trace + [Observed(leftovers[0])])
  {
    assert Rest(leftovers + rest) == leftovers[1..] + rest;
    assert trace + [Observed(leftovers[0])] + SentEvents([]) == trace + [Observed(leftovers[0])];
  }

  lemma {:induction false} PassesOver(b: Config, r: Receiver, leftovers: Inbox, rest: Inbox, trace: seq<Event>)
    returns (next: Receiver, seen: seq<Event>)
    requires r.phase.Idle? && forall k :: 0 <= k < |leftovers| ==> Leftover(b, leftovers[k])
    ensures next.phase.Idle?
    ensures RunReceive(b, r, leftovers + rest, trace) == RunReceive(b, next, rest, trace + seen)
    decreases |leftovers|
  {
    if leftovers == [] {
      assert leftovers + rest == rest && trace + [] == trace;
      next, seen := r, [];
    } else {
      var e := Observed(leftovers[0]);
      PassesOne(b, r, leftovers, rest, trace);
      next, seen := PassesOver(b, CountHeard(r), leftovers[1..], rest, trace + [e]);
      assert trace + [e] + seen == trace + ([e] + seen);
      seen := [e] + seen;
    }
  }

  /**
   After an aborted reassembly, whatever it left in the buffer and whatever consecutive or flow-control
   frames of it are still to come, the next complete message is received exactly.
   */
  lemma Resynchronises(a: Config, b: Config, r: Receiver, leftovers: Inbox, payload: Bytes, rest: Inbox,
                       trace: seq<Event>)
    requires Compatible(a, b) && Admissible(a) && r.phase.Idle?
    requires forall k :: 0 <= k < |leftovers| ==> Leftover(b, leftovers[k])
    requires 1 <= |payload| <= MAX_ESCAPE_PAYLOAD
    ensures var message := Arrivals(WireAll(a, Frames(a, payload)));
            var run := RunReceive(b, r, leftovers + (message + rest), trace);
            run.receiver.phase == Delivered(payload) && run.rest == rest
  {
    var message := Arrivals(WireAll(a, Frames(a, payload)));
    var next, seen := PassesOver(b, r, leftovers, message + rest, trace);
    ReceivesMessage(a, b, next, payload, rest, trace + seen);
  }

  /** On any inbound stream at all, the stale reassembly fields decide nothing. */
  lemma {:induction false} StaleReassembly(b: Config, r: Receiver, buffer: Bytes, expected: nat, sequence: nat,
                                           inbox: Inbox, trace: seq<Event>)
    requires r.phase.Idle?
    ensures var clean := RunReceive(b, r, inbox, trace);
            var stale := RunReceive(b, r.(buffer := buffer, expected := expected, sequence := sequence), inbox, trace);
            && clean.receiver.phase == stale.receiver.phase && clean.receiver.statistics == stale.receiver.statistics
            && clean.rest == stale.rest && clean.trace == stale.trace
    decreases |inbox|
  {
    var other := r.(buffer := buffer, expected := expected, sequence := sequence);
    var (next, replies) := OnFrame(b, r, Head(inbox));
    StaleFrame(b, r, other, Head(inbox));
    if inbox != [] && next.phase.Idle? {
      var seen := trace + [Observed(Head(inbox))] + SentEvents(replies);
      StaleReassembly(b, next, buffer, expected, sequence, Rest(inbox), seen);
    }
  }

  lemma StaleFrame(b: Config, r: Receiver, other: Receiver, got: Option<Bytes>)
    requires r.phase.Idle?
    requires other == r.(buffer := other.buffer, expected := other.expected, sequence := other.sequence)
    ensures var (next, replies) := OnFrame(b, r, got);
            var (next', replies') := OnFrame(b, other, got);
            && replies' == replies && next'.phase == next.phase && next'.statistics == next.statistics
            && (next' == next || (!next.phase.Collecting? &&
                next' == next.(buffer := other.buffer, expected := other.expected, sequence := other.sequence)))
  {
    if got.Some? && Strip(b, got.value) != [] {
      var body := Strip(b, got.value);
      var heard, heard' := CountHeard(r), CountHeard(other);
      if FrameType(body) == FIRST_FRAME {
        assert OnFrame(b, r, got) == OnFirst(b, heard, body) && OnFrame(b, other, got) == OnFirst(b, heard', body);
        assert |body| < 2 ==> OnFirst(b, heard', body).0 == heard'.(phase := Broken(Framing));
      }
    }
  }

  // ---------- which configurations are sound ----------

  const FRESH_RECEIVER := Receiver(Idle, [], 0, 0, ZERO_STATISTICS)

  ghost predicate RoundTrips(a: Config, b: Config, payload: Bytes)
    requires Roomy(a) && 1 <= |payload| <= MAX_ESCAPE_PAYLOAD
  {
    RunReceive(b, FRESH_RECEIVER, Arrivals(WireAll(a, Frames(a, payload))), []).receiver.phase == Delivered(payload)
  }

  /** A delivered payload begins with what is already in the buffer. */
  lemma {:induction false} DeliveredKeepsBuffer(b: Config, r: Receiver, inbox: Inbox, trace: seq<Event>, k: nat)
    requires r.phase.Collecting? && k < |r.buffer| < r.expected
    ensures var phase := RunReceive(b, r, inbox, trace).receiver.phase;
            phase.Delivered? ==> |phase.payload| > k && phase.payload[k] == r.buffer[k]
    decreases |inbox|
  {
    var (next, replies) := OnFrame(b, r, Head(inbox));
    if inbox != [] && next.phase.Collecting? {
      DeliveredKeepsBuffer(b, next, Rest(inbox), trace + [Observed(Head(inbox))] + SentEvents(replies), k);
    }
  }

  /** Behind an illegal full frame the receiver sees at least one padding byte. */
  lemma IllegalSizeIsPadded(c: Config)
    requires Roomy(c) && c.txPadding && !LegalFrameSize(c)
    ensures Tail(c, Capacity(c)) != [] && Tail(c, Capacity(c))[0] == c.paddingByte % 256
  {
    FdPaddedTable(FrameSize(c));
    assert CAN_FD_LENGTHS == [8, 12, 16, 20, 24, 32, 48, 64];
  }

  /** A padding sender whose full frames are no legal length puts padding into the payload. */
  lemma PaddingCorrupts(a: Config, b: Config) returns (payload: Bytes)
    requires Compatible(a, b) && Roomy(a) && a.txPadding && !LegalFrameSize(a)
    ensures 1 <= |payload| <= MAX_ESCAPE_PAYLOAD && !RoundTrips(a, b, payload)
  {
    var other: byte := (a.paddingByte + 1) % 256;
    payload := seq(Capacity(a), _ => other);
    hide RunReceive, OnFrame, Wire, Tail;
    IllegalSizeIsPadded(a);
    var tail := Tail(a, Capacity(a));
    assert other != tail[0];
    SegmentedIsLonger(a, payload);
    var first := FirstLength(a, |payload|);
    var held := payload[..first] + tail;
    assert held[first] == tail[0] != payload[first];
    PaddedFirst(a, b, payload, held);
    FirstFrameDecides(b, Arrivals(WireAll(a, Frames(a, payload))), held, |payload|, first);
  }

  /** A full first frame arrives with the padding behind it, which is taken for data. */
  lemma PaddedFirst(a: Config, b: Config, payload: Bytes, held: Bytes)
    requires Compatible(a, b) && Roomy(a) && 6 <= |payload| <= MAX_ESCAPE_PAYLOAD && !FitsSingleFrame(a, payload)
    requires held == payload[..FirstLength(a, |payload|)] + Tail(a, Capacity(a))
    ensures var frames := Arrivals(WireAll(a, Frames(a, payload)));
            && frames != []
            && exists st :: OnFrame(b, FRESH_RECEIVER, Head(frames)).0 ==
                            Check(Receiver(Collecting(0), held, |payload|, 1, st))
  {
    hide Wire, Tail, OnFirst, Header, Consecutive;
    var body, heard := FirstBody(a, payload), CountHeard(FRESH_RECEIVER);
    SegmentedIsLonger(a, payload);
    StripWire(a, b, body);
    FirstFrameParses(a, b, heard, payload, Tail(a, Capacity(a)));
    assert OnFrame(b, FRESH_RECEIVER, Some(Wire(a, body))) == OnFirst(b, heard, body + Tail(a, |body|));
    assert OnFirst(b, heard, body + Tail(a, |body|)).0 ==
           Check(Receiver(Collecting(0), held, |payload|, 1, CountFlowSent(heard.statistics)));
  }

  lemma FirstFrameDecides(b: Config, frames: Inbox, held: Bytes, expected: nat, k: nat)
    requires frames != [] && k < |held| && k < expected
    requires var (next, _) := OnFrame(b, FRESH_RECEIVER, Head(frames));
             exists st :: next == Check(Receiver(Collecting(0), held, expected, 1, st))
    ensures var phase := RunReceive(b, FRESH_RECEIVER, frames, []).receiver.phase;
            phase.Delivered? ==> k < |phase.payload| && phase.payload[k] == held[k]
  {
    var (next, replies) := OnFrame(b, FRESH_RECEIVER, Head(frames));
    if next.phase.Collecting? {
      DeliveredKeepsBuffer(b, next, Rest(frames), [] + [Observed(Head(frames))] + SentEvents(replies), k);
    }
  }

  /**
   Every payload survives segmentation and reassembly exactly when padding is off or the frame size is
   a legal one.
   */
  lemma SoundConfigurations(a: Config, b: Config)
    requires Compatible(a, b) && Roomy(a)
    ensures (forall payload: Bytes :: 1 <= |payload| <= MAX_ESCAPE_PAYLOAD ==> RoundTrips(a, b, payload))
            <==> (a.txPadding ==> LegalFrameSize(a))
  {
    if Admissible(a) {
      forall payload: Bytes | 1 <= |payload| <= MAX_ESCAPE_PAYLOAD ensures RoundTrips(a, b, payload) {
        ReceivesMessage(a, b, FRESH_RECEIVER, payload, [], []);
        var message := Arrivals(WireAll(a, Frames(a, payload)));
        assert message + [] == message;
      }
    } else {
      var payload := PaddingCorrupts(a, b);
    }
  }
}
