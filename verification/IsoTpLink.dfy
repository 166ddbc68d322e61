/**
 One sending and one receiving handler joined by two lossless FIFO channels. A run is any sequence of
 atomic steps of the two sides, so the theorems hold for every interleaving; timeouts do not fire.
 */
module IsoTpLink {
  import opened Common
  import opened IsoTpFrames
  import opened IsoTpMachines
  import opened IsoTpReceiving
  import opened IsoTpSending

  datatype Link = Link(tx: Sender, rx: Receiver, toRx: seq<Bytes>, toTx: seq<Bytes>)

  datatype Move = Transmit | TakeFlow | TakeFrame

  /** What earlier transfers have left in the two handlers. */
  datatype Origin = Origin(negotiated: nat, tx: Statistics, rx: Receiver)

  /** The next `send` meets the next `receive`. */
  function Initial(payload: Bytes, o: Origin): Link {
    Link(StartSending(payload, o.negotiated, o.tx), o.rx.(phase := Idle), [], [])
  }

  predicate Enabled(l: Link, m: Move) {
    match m
    case Transmit => CanEmit(l.tx)
    case TakeFlow => l.tx.phase.AwaitFlow? && l.toTx != []
    case TakeFrame => Listening(l.rx) && l.toRx != []
  }

  function Apply(a: Config, b: Config, l: Link, m: Move): (r: Link)
    requires SenderOk(a, l.tx) && Enabled(l, m)
    ensures SenderOk(a, r.tx)
  {
    match m
    case Transmit => l.(tx := Emit(a, l.tx), toRx := l.toRx + [Wire(a, NextBody(a, l.tx))])
    case TakeFlow => l.(tx := OnFlow(a, l.tx, Some(l.toTx[0])), toTx := l.toTx[1..])
    case TakeFrame =>
      var (rx, replies) := OnFrame(b, l.rx, Some(l.toRx[0]));
      l.(rx := rx, toRx := l.toRx[1..], toTx := l.toTx + replies)
  }

  predicate Possible(a: Config, b: Config, l: Link, moves: seq<Move>)
    requires SenderOk(a, l.tx)
    decreases |moves|
  {
    moves == [] || (Enabled(l, moves[0]) && Possible(a, b, Apply(a, b, l, moves[0]), moves[1..]))
  }

  function Exec(a: Config, b: Config, l: Link, moves: seq<Move>): (r: Link)
    requires SenderOk(a, l.tx) && Possible(a, b, l, moves)
    ensures SenderOk(a, r.tx)
    decreases |moves|
  {
    if moves == [] then l else Exec(a, b, Apply(a, b, l, moves[0]), moves[1..])
  }

  predicate Peers(a: Config, b: Config, payload: Bytes) {
    && Compatible(a, b) && Admissible(a)
    && b.blockSize <= 255
    && 1 <= |payload| <= MAX_ESCAPE_PAYLOAD
  }

  // ---------- the invariant ----------

  /** How many consecutive frames the payload takes. */
  function ConsecutiveTotal(a: Config, payload: Bytes): nat
    requires RoomFor(a, |payload|) && |payload| <= MAX_ESCAPE_PAYLOAD
  {
    |Frames(a, payload)| - 1
  }

  function GrantFrame(b: Config): Bytes {
    Wire(b, FlowControlBody(b, CONTINUE_TO_SEND))
  }

  predicate Undisturbed(st: Statistics, before: Statistics) {
    st.waitFrames == before.waitFrames && st.timeouts == before.timeouts && st.errors == before.errors
  }

  /** Before the receiver has taken a frame. */
  predicate Opening(a: Config, payload: Bytes, o: Origin, l: Link)
    requires RoomFor(a, |payload|) && |payload| <= MAX_ESCAPE_PAYLOAD
  {
    && l.rx == o.rx.(phase := Idle) && l.toTx == []
    && if l.tx.phase.Start? then l.tx == Initial(payload, o).tx && l.toRx == []
       else
         && l.toRx == [Wire(a, Frames(a, payload)[0])]
         && l.tx.statistics.framesSent == o.tx.framesSent + 1
         && l.tx.statistics.flowControlReceived == o.tx.flowControlReceived
         && Undisturbed(l.tx.statistics, o.tx)
         && if FitsSingleFrame(a, payload) then
              l.tx.phase.Finished? && l.tx.statistics.messagesSent == o.tx.messagesSent + 1
            else l.tx.phase == AwaitFlow(0) && l.tx.index == FirstLength(a, |payload|) && l.tx.sequence == 1
                 && l.tx.statistics.messagesSent == o.tx.messagesSent
  }

  /** The two ends agree on how far the block has got. */
  predicate BlockAgrees(b: Config, l: Link)
    requires l.rx.phase.Collecting?
  {
    var size := b.blockSize;
    var taken := l.rx.phase.inBlock + |l.toRx|;
    && (size > 0 ==> l.rx.phase.inBlock < size)
    && match l.tx.phase
       case Ready => l.toTx == [] && l.tx.negotiated == size &&
                     if size == 0 then l.tx.blockRemaining == 0
                     else l.tx.blockRemaining > 0 && taken + l.tx.blockRemaining == size
       case AwaitFlow(waits) => waits == 0 &&
                     ((l.toTx == [GrantFrame(b)] && l.toRx == [] && l.rx.phase.inBlock == 0)
                      || (l.toTx == [] && size > 0 && taken == size))
       case Finished => l.toTx == [] && (size > 0 ==> taken <= size)
       case _ => false
  }

  /** `flows` grants cover `frames` consecutive frames, the last block holding `inBlock` of them. */
  predicate GrantsCover(size: nat, flows: int, inBlock: int, frames: int) {
    if size == 0 then flows == 1 else (flows - 1) * size + inBlock == frames
  }

  /** The receiver holds the first frame and waits for consecutive frames. */
  predicate Running(a: Config, b: Config, payload: Bytes, o: Origin, l: Link)
    requires SenderOk(a, l.tx) && l.tx.payload == payload
  {
    var tx, rx, tx0, rx0 := l.tx.statistics, l.rx.statistics, o.tx, o.rx.statistics;
    && !FitsSingleFrame(a, payload)
    && Holding(payload, l.rx)
    && l.toRx + WireAll(a, Consecutive(a, payload, l.tx.index, l.tx.sequence)) ==
       WireAll(a, Consecutive(a, payload, |l.rx.buffer|, l.rx.sequence))
    && BlockAgrees(b, l)
    && Undisturbed(tx, tx0) && Undisturbed(rx, rx0)
    && tx.messagesSent - tx0.messagesSent == (if l.tx.phase.Finished? then 1 else 0)
    && rx.messagesReceived == rx0.messagesReceived
    && tx.framesSent - tx0.framesSent == Heard(o, l) + |l.toRx|
    && Granted(o, l) == tx.flowControlReceived - tx0.flowControlReceived + |l.toTx|
    && Heard(o, l) - 1 + |Consecutive(a, payload, |l.rx.buffer|, l.rx.sequence)| == ConsecutiveTotal(a, payload)
    && GrantsCover(b.blockSize, Granted(o, l), l.rx.phase.inBlock, Heard(o, l) - 1)
  }

  /** Frames the receiver has heard, and grants it has sent, of this message. */
  function Heard(o: Origin, l: Link): int {
    l.rx.statistics.framesReceived - o.rx.statistics.framesReceived
  }

  function Granted(o: Origin, l: Link): int {
    l.rx.statistics.flowControlSent - o.rx.statistics.flowControlSent
  }

  /** The number of flow-control frames a message of `n` consecutive frames causes. */
  function FlowFrames(size: nat, n: nat): nat {
    if n == 0 then 0 else if size == 0 then 1 else (n + size - 1) / size
  }

  /** Both sides are through, the channels are empty and the counters of the two ends tally. */
  predicate Complete(a: Config, b: Config, payload: Bytes, o: Origin, l: Link)
    requires RoomFor(a, |payload|) && |payload| <= MAX_ESCAPE_PAYLOAD
  {
    var tx, rx, n := l.tx.statistics, l.rx.statistics, ConsecutiveTotal(a, payload);
    && l.tx.phase.Finished? && l.rx.phase == Delivered(payload)
    && l.toRx == [] && l.toTx == []
    && tx.framesSent - o.tx.framesSent == Heard(o, l) == n + 1
    && Granted(o, l) == tx.flowControlReceived - o.tx.flowControlReceived == FlowFrames(b.blockSize, n)
    && tx.messagesSent == o.tx.messagesSent + 1
    && rx.messagesReceived == o.rx.statistics.messagesReceived + 1
    && Undisturbed(tx, o.tx) && Undisturbed(rx, o.rx.statistics)
  }

  predicate Inv(a: Config, b: Config, payload: Bytes, o: Origin, l: Link)
    requires Peers(a, b, payload)
  {
    && SenderOk(a, l.tx) && l.tx.payload == payload
    && match l.rx.phase
       case Idle => Opening(a, payload, o, l)
       case Collecting(_) => Running(a, b, payload, o, l)
       case _ => Complete(a, b, payload, o, l)
  }

  // ---------- every step keeps it ----------

  lemma OpeningTransmit(a: Config, b: Config, payload: Bytes, o: Origin, l: Link)
    requires Peers(a, b, payload) && Inv(a, b, payload, o, l) && l.tx.phase.Start?
    ensures Inv(a, b, payload, o, Apply(a, b, l, Transmit))
  {
    if !FitsSingleFrame(a, payload) {
      SegmentedIsLonger(a, payload);
    }
  }

  /** A transmission moves one frame from the unsent ones to the end of the channel. */
  lemma TransmitMoves(a: Config, s: Sender, channel: seq<Bytes>)
    requires SenderOk(a, s) && s.phase.Ready?
    ensures var next := Emit(a, s);
            && next.index <= |s.payload| && next.sequence < 16
            && channel + WireAll(a, Consecutive(a, s.payload, s.index, s.sequence)) ==
               (channel + [Wire(a, NextBody(a, s))]) + WireAll(a, Consecutive(a, s.payload, next.index, next.sequence))
  {
    var next := Emit(a, s);
    var later := Consecutive(a, s.payload, next.index, next.sequence);
    assert Consecutive(a, s.payload, s.index, s.sequence) == [NextBody(a, s)] + later;
    WireAllCons(a, NextBody(a, s), later);
    assert channel + ([Wire(a, NextBody(a, s))] + WireAll(a, later)) ==
           (channel + [Wire(a, NextBody(a, s))]) + WireAll(a, later);
  }

  lemma RunningTransmit(a: Config, b: Config, payload: Bytes, o: Origin, l: Link)
    requires Peers(a, b, payload) && Inv(a, b, payload, o, l) && l.tx.phase.Ready?
    ensures Inv(a, b, payload, o, Apply(a, b, l, Transmit))
  {
    hide Wire, Consecutive, Holding, GrantsCover, ConsecutiveTotal;
    TransmitMoves(a, l.tx, l.toRx);
    var next := Apply(a, b, l, Transmit);
    assert next.rx == l.rx && next.toTx == l.toTx && |next.toRx| == |l.toRx| + 1;
    assert BlockAgrees(b, next);
  }

  lemma TakesGrant(a: Config, b: Config, s: Sender)
    requires Compatible(a, b) && b.blockSize <= 255 && SenderOk(a, s) && s.phase.AwaitFlow?
    ensures OnFlow(a, s, Some(GrantFrame(b))) ==
            Settle(s.(blockRemaining := b.blockSize, negotiated := b.blockSize,
                      statistics := s.statistics.(flowControlReceived := s.statistics.flowControlReceived + 1)))
  {
    StripWire(b, a, FlowControlBody(b, CONTINUE_TO_SEND));
  }

  lemma TakeFlowKeeps(a: Config, b: Config, payload: Bytes, o: Origin, l: Link)
    requires Peers(a, b, payload) && Inv(a, b, payload, o, l) && Enabled(l, TakeFlow)
    ensures Inv(a, b, payload, o, Apply(a, b, l, TakeFlow))
  {
    hide OnFlow, Wire, Consecutive, Holding, GrantsCover, ConsecutiveTotal;
    TakesGrant(a, b, l.tx);
  }

  lemma OpeningTakeFrame(a: Config, b: Config, payload: Bytes, o: Origin, l: Link)
    requires Peers(a, b, payload) && Inv(a, b, payload, o, l) && Enabled(l, TakeFrame) && l.rx.phase.Idle?
    ensures Inv(a, b, payload, o, Apply(a, b, l, TakeFrame))
  {
    hide OnFrame, OnFlow, Emit, Wire, SingleBody, FirstBody, Consecutive;
    if FitsSingleFrame(a, payload) {
      TakesSingle(a, b, l.rx, payload);
    } else {
      TakesFirst(a, b, l.rx, payload);
      var next := Apply(a, b, l, TakeFrame);
      assert next.toTx == [GrantFrame(b)] && next.toRx == [];
      var bodies := Consecutive(a, payload, l.tx.index, 1);
      assert next.toRx + WireAll(a, bodies) == WireAll(a, bodies);
    }
  }

  lemma HeadSplits(channel: seq<Bytes>, unsent: seq<Bytes>, head: Bytes, later: seq<Bytes>)
    requires channel != [] && channel + unsent == [head] + later
    ensures channel[0] == head && channel[1..] + unsent == later
  {
    assert (channel + unsent)[0] == channel[0];
    assert (channel + unsent)[1..] == channel[1..] + unsent;
  }

  /** The frame at the head of the channel is the one the receiver waits for. */
  lemma HeadIsNext(a: Config, b: Config, payload: Bytes, rx: Receiver, channel: seq<Bytes>, unsent: seq<Bytes>)
    requires Compatible(a, b) && Admissible(a) && Holding(payload, rx) && channel != []
    requires channel + unsent == WireAll(a, Consecutive(a, payload, |rx.buffer|, rx.sequence))
    ensures var index := |rx.buffer| + |Chunk(a, payload, |rx.buffer|)|;
            var later := Consecutive(a, payload, index, (rx.sequence + 1) % 16);
            && channel[0] == Wire(a, ConsecutiveBody(a, payload, |rx.buffer|, rx.sequence))
            && channel[1..] + unsent == WireAll(a, later)
            && |Consecutive(a, payload, |rx.buffer|, rx.sequence)| == 1 + |later|
            && OnFrame(b, rx, Some(channel[0])) == AfterNext(a, b, payload, rx)
  {
    hide OnFrame, AfterNext, Wire;
    var index := |rx.buffer| + |Chunk(a, payload, |rx.buffer|)|;
    var later := Consecutive(a, payload, index, (rx.sequence + 1) % 16);
    var body := ConsecutiveBody(a, payload, |rx.buffer|, rx.sequence);
    WireAllCons(a, body, later);
    HeadSplits(channel, unsent, Wire(a, body), WireAll(a, later));
    TakesConsecutive(a, b, rx, payload);
  }

  lemma LastTakeFrame(a: Config, b: Config, payload: Bytes, o: Origin, l: Link)
    requires Peers(a, b, payload) && Inv(a, b, payload, o, l) && l.rx.phase.Collecting? && l.toRx != []
    requires |l.rx.buffer| + |Chunk(a, payload, |l.rx.buffer|)| == |payload|
    ensures Inv(a, b, payload, o, Apply(a, b, l, TakeFrame))
  {
    hide OnFrame, OnFlow, Emit, Wire, Consecutive;
    HeadIsNext(a, b, payload, l.rx, l.toRx, WireAll(a, Consecutive(a, payload, l.tx.index, l.tx.sequence)));
    MoreToCome(a, payload, l.tx.index, l.tx.sequence);
    MoreToCome(a, payload, |payload|, (l.rx.sequence + 1) % 16);
    SegmentedIsLonger(a, payload);
    MoreToCome(a, payload, FirstLength(a, |payload|), 1);
    assert l.toRx[1..] == [] && Consecutive(a, payload, l.tx.index, l.tx.sequence) == [];
    assert l.tx.phase.Finished? && l.toTx + [] == [];
    GrantsCount(b.blockSize, Granted(o, l), l.rx.phase.inBlock + 1, Heard(o, l));
  }

  /** What a frame that is not the last does to the stream and to the counters of the sending side. */
  lemma InnerStep(a: Config, b: Config, payload: Bytes, o: Origin, l: Link)
    requires Peers(a, b, payload) && Inv(a, b, payload, o, l) && l.rx.phase.Collecting? && l.toRx != []
    requires |l.rx.buffer| + |Chunk(a, payload, |l.rx.buffer|)| < |payload|
    ensures var next := Apply(a, b, l, TakeFrame);
            var sequence := (l.rx.sequence + 1) % 16;
            && next.tx == l.tx && |next.toRx| == |l.toRx| - 1
            && (next.rx, next.toTx[|l.toTx|..]) == AfterNext(a, b, payload, l.rx) && l.toTx <= next.toTx
            && Holding(payload, next.rx) && next.rx.sequence == sequence
            && next.toRx + WireAll(a, Consecutive(a, payload, l.tx.index, l.tx.sequence)) ==
               WireAll(a, Consecutive(a, payload, |next.rx.buffer|, sequence))
            && |Consecutive(a, payload, |l.rx.buffer|, l.rx.sequence)| ==
               1 + |Consecutive(a, payload, |next.rx.buffer|, sequence)|
            && (l.tx.phase.Finished? ==> next.toRx != [])
  {
    hide OnFrame, OnFlow, Emit, BlockAgrees, GrantsCover, Wire, Opening, Complete, Consecutive, HoldingTo;
    HeadIsNext(a, b, payload, l.rx, l.toRx, WireAll(a, Consecutive(a, payload, l.tx.index, l.tx.sequence)));
    NextHolds(a, b, payload, l.rx);
    MoreToCome(a, payload, l.tx.index, l.tx.sequence);
    MoreToCome(a, payload, |l.rx.buffer| + |Chunk(a, payload, |l.rx.buffer|)|, (l.rx.sequence + 1) % 16);
  }

  lemma MoreToCome(a: Config, payload: Bytes, index: nat, sequence: nat)
    requires Usable(a) && index <= |payload| && sequence < 16
    ensures Consecutive(a, payload, index, sequence) == [] <==> index == |payload|
  {
  }

  lemma InnerTakeFrame(a: Config, b: Config, payload: Bytes, o: Origin, l: Link)
    requires Peers(a, b, payload) && Inv(a, b, payload, o, l) && l.rx.phase.Collecting? && l.toRx != []
    requires |l.rx.buffer| + |Chunk(a, payload, |l.rx.buffer|)| < |payload|
    ensures Inv(a, b, payload, o, Apply(a, b, l, TakeFrame))
  {
    hide OnFrame, OnFlow, Emit, Wire, Consecutive, ConsecutiveTotal;
    InnerStep(a, b, payload, o, l);
    var next := Apply(a, b, l, TakeFrame);
    var replies := next.toTx[|l.toTx|..];
    assert next.toTx == l.toTx + replies;
    if BlockFull(b, l.rx) {
      NextGrant(b.blockSize, Granted(o, l), Heard(o, l));
      assert l.tx.phase.AwaitFlow? && l.toTx == [];
    }
    assert BlockAgrees(b, next);
  }

  lemma NextGrant(size: nat, flows: int, frames: int)
    requires size > 0 && GrantsCover(size, flows, size - 1, frames - 1)
    ensures GrantsCover(size, flows + 1, 0, frames)
  {
    assert (flows - 1) * size + size == flows * size;
  }

  /** A last block of 1 to `size` frames makes the number of grants the rounded-up quotient. */
  lemma GrantsCount(size: nat, flows: int, inBlock: int, frames: nat)
    requires GrantsCover(size, flows, inBlock, frames) && frames > 0
    requires size > 0 ==> 1 <= inBlock <= size
    ensures flows == FlowFrames(size, frames)
  {
    if size > 0 {
      assert frames + size - 1 == flows * size + (inBlock - 1) by {
        assert (flows - 1) * size + size == flows * size;
      }
      UniqueQuotient(frames + size - 1, size, flows, inBlock - 1);
    }
  }

  /** Falls with every step: a frame costs three while unsent, two in flight; a grant costs one. */
  function Measure(l: Link): nat
    requires l.tx.index <= |l.tx.payload|
  {
    3 * Rank(l.tx) + 2 * |l.toRx| + |l.toTx|
  }

  lemma AtMostOneReply(b: Config, r: Receiver, frame: Bytes)
    requires Listening(r)
    ensures |OnFrame(b, r, Some(frame)).1| <= 1
  {
  }

  lemma MeasureFalls(a: Config, b: Config, l: Link, m: Move)
    requires SenderOk(a, l.tx) && Enabled(l, m)
    ensures Measure(Apply(a, b, l, m)) < Measure(l)
  {
    hide OnFrame, Wire;
    if m.TakeFrame? {
      AtMostOneReply(b, l.rx, l.toRx[0]);
    }
  }

  lemma StepKeeps(a: Config, b: Config, payload: Bytes, o: Origin, l: Link, m: Move)
    requires Peers(a, b, payload) && Inv(a, b, payload, o, l) && Enabled(l, m)
    ensures Inv(a, b, payload, o, Apply(a, b, l, m))
    ensures Measure(Apply(a, b, l, m)) < Measure(l)
  {
    hide OnFrame, OnFlow, Emit, Wire, BlockAgrees, GrantsCover;
    MeasureFalls(a, b, l, m);
    match m
    case Transmit =>
      if l.tx.phase.Start? {
        OpeningTransmit(a, b, payload, o, l);
      } else {
        RunningTransmit(a, b, payload, o, l);
      }
    case TakeFlow => TakeFlowKeeps(a, b, payload, o, l);
    case TakeFrame =>
      if l.rx.phase.Idle? {
        OpeningTakeFrame(a, b, payload, o, l);
      } else if |l.rx.buffer| + |Chunk(a, payload, |l.rx.buffer|)| == |payload| {
        LastTakeFrame(a, b, payload, o, l);
      } else {
        InnerTakeFrame(a, b, payload, o, l);
      }
  }

  /** As long as the transfer is not complete, some side can move. */
  lemma NeverStuck(a: Config, b: Config, payload: Bytes, o: Origin, l: Link)
    requires Peers(a, b, payload) && Inv(a, b, payload, o, l)
    ensures Complete(a, b, payload, o, l) <==> (forall m :: !Enabled(l, m))
  {
    if l.rx.phase.Collecting? {
      assert Consecutive(a, payload, |l.rx.buffer|, l.rx.sequence) != [];
    }
    assert Enabled(l, Transmit) || Enabled(l, TakeFlow) || Enabled(l, TakeFrame) || Complete(a, b, payload, o, l);
  }

  lemma {:induction false} RunKeeps(a: Config, b: Config, payload: Bytes, o: Origin, l: Link, moves: seq<Move>)
    requires Peers(a, b, payload) && Inv(a, b, payload, o, l) && Possible(a, b, l, moves)
    ensures Inv(a, b, payload, o, Exec(a, b, l, moves))
    ensures |moves| + Measure(Exec(a, b, l, moves)) <= Measure(l)
    decreases |moves|
  {
    if moves != [] {
      StepKeeps(a, b, payload, o, l, moves[0]);
      RunKeeps(a, b, payload, o, Apply(a, b, l, moves[0]), moves[1..]);
    }
  }

  // ---------- the theorems ----------

  /**
   For every payload and every interleaving: nothing is raised, at most one flow-control frame and at
   most a block of frames are in flight, the run is finite, and it can stop only when the receiver has
   returned exactly the payload and all counters tally.
   */
  lemma EveryInterleaving(a: Config, b: Config, payload: Bytes, o: Origin, moves: seq<Move>)
    requires Peers(a, b, payload) && Possible(a, b, Initial(payload, o), moves)
    ensures var l := Exec(a, b, Initial(payload, o), moves);
            && !l.tx.phase.Failed? && !l.rx.phase.Broken? && !l.rx.phase.Silent?
            && (l.rx.phase.Delivered? ==> l.rx.phase.payload == payload)
            && |l.toTx| <= 1
            && (b.blockSize > 0 ==> |l.toRx| <= b.blockSize)
            && |moves| <= 3 * |payload| + 3
            && (Complete(a, b, payload, o, l) <==> (forall m :: !Enabled(l, m)))
  {
    RunKeeps(a, b, payload, o, Initial(payload, o), moves);
    NeverStuck(a, b, payload, o, Exec(a, b, Initial(payload, o), moves));
  }

  /** The number of consecutive frames is the rounded-up quotient of what the first frame leaves. */
  lemma ConsecutiveTotalIsQuotient(a: Config, payload: Bytes)
    requires RoomFor(a, |payload|) && |payload| <= MAX_ESCAPE_PAYLOAD && !FitsSingleFrame(a, payload)
    ensures FirstLength(a, |payload|) < |payload|
    ensures ConsecutiveTotal(a, payload) == FlowFrames(Capacity(a) - 1, |payload| - FirstLength(a, |payload|))
  {
    SegmentedIsLonger(a, payload);
    var first, width, n := FirstLength(a, |payload|), Capacity(a) - 1, ConsecutiveTotal(a, payload);
    ConsecutiveCount(a, payload, first, 1);
    RoundedUp(|payload| - first, width, n);
  }

  lemma RoundedUp(rest: nat, width: nat, n: nat)
    requires width > 0 && n > 0 && (n - 1) * width < rest <= n * width
    ensures (rest + width - 1) / width == n
  {
    assert (n - 1) * width + width == n * width;
    UniqueQuotient(rest + width - 1, width, n, rest + width - 1 - n * width);
  }

  // ---------- one message after the other ----------

  /** What a finished transfer leaves for the next one. */
  function Leftover(l: Link): Origin {
    Origin(l.tx.negotiated, l.tx.statistics, l.rx)
  }

  /** A transfer of one payload under one interleaving. */
  datatype Transfer = Transfer(payload: Bytes, moves: seq<Move>)

  function End(a: Config, b: Config, o: Origin, t: Transfer): Link
    requires Peers(a, b, t.payload) && Possible(a, b, Initial(t.payload, o), t.moves)
  {
    Exec(a, b, Initial(t.payload, o), t.moves)
  }

  /** Transfers that follow each other, each run until neither side can move. */
  predicate Successive(a: Config, b: Config, o: Origin, ts: seq<Transfer>)
    decreases |ts|
  {
    ts == [] ||
    (&& Peers(a, b, ts[0].payload) && Possible(a, b, Initial(ts[0].payload, o), ts[0].moves)
     && !Enabled(End(a, b, o, ts[0]), Transmit) && !Enabled(End(a, b, o, ts[0]), TakeFlow)
     && !Enabled(End(a, b, o, ts[0]), TakeFrame)
     && Successive(a, b, Leftover(End(a, b, o, ts[0])), ts[1..]))
  }

  /** What the successive calls of `receive` return. */
  function Returned(a: Config, b: Config, o: Origin, ts: seq<Transfer>): seq<RxPhase>
    requires Successive(a, b, o, ts)
    decreases |ts|
  {
    if ts == [] then [] else [End(a, b, o, ts[0]).rx.phase] + Returned(a, b, Leftover(End(a, b, o, ts[0])), ts[1..])
  }

  /** Every message of any sequence of them is returned, whatever the handlers did before. */
  lemma {:induction false} EveryMessageArrives(a: Config, b: Config, o: Origin, ts: seq<Transfer>, i: nat)
    requires Successive(a, b, o, ts) && i < |ts|
    ensures |Returned(a, b, o, ts)| == |ts| && Returned(a, b, o, ts)[i] == Delivered(ts[i].payload)
    decreases |ts|
  {
    hide Complete, Peers, Possible, Exec;
    var t, end := ts[0], End(a, b, o, ts[0]);
    Finishes(a, b, o, t);
    if i > 0 {
      EveryMessageArrives(a, b, Leftover(end), ts[1..], i - 1);
    } else if |ts| > 1 {
      EveryMessageArrives(a, b, Leftover(end), ts[1..], 0);
    }
  }

  lemma Finishes(a: Config, b: Config, o: Origin, t: Transfer)
    requires Peers(a, b, t.payload) && Possible(a, b, Initial(t.payload, o), t.moves)
    requires var end := End(a, b, o, t);
             !Enabled(end, Transmit) && !Enabled(end, TakeFlow) && !Enabled(end, TakeFrame)
    ensures End(a, b, o, t).rx.phase == Delivered(t.payload)
  {
    EveryInterleaving(a, b, t.payload, o, t.moves);
    forall m
      ensures !Enabled(End(a, b, o, t), m)
    {
    }
  }

  // ---------- the two sides are the handler's methods ----------

  function FlowsTaken(a: Config, b: Config, l: Link, moves: seq<Move>): seq<Bytes>
    requires SenderOk(a, l.tx) && Possible(a, b, l, moves)
    decreases |moves|
  {
    if moves == [] then []
    else (if moves[0].TakeFlow? then [l.toTx[0]] else []) + FlowsTaken(a, b, Apply(a, b, l, moves[0]), moves[1..])
  }

  function FramesTaken(a: Config, b: Config, l: Link, moves: seq<Move>): seq<Bytes>
    requires SenderOk(a, l.tx) && Possible(a, b, l, moves)
    decreases |moves|
  {
    if moves == [] then []
    else (if moves[0].TakeFrame? then [l.toRx[0]] else []) + FramesTaken(a, b, Apply(a, b, l, moves[0]), moves[1..])
  }

  /** The frames and the flow control that the moves put into the channels. */
  function FramesSent(a: Config, b: Config, l: Link, moves: seq<Move>): seq<Bytes>
    requires SenderOk(a, l.tx) && Possible(a, b, l, moves)
    decreases |moves|
  {
    if moves == [] then []
    else (if moves[0].Transmit? then [Wire(a, NextBody(a, l.tx))] else [])
         + FramesSent(a, b, Apply(a, b, l, moves[0]), moves[1..])
  }

  function FlowsSent(a: Config, b: Config, l: Link, moves: seq<Move>): seq<Bytes>
    requires SenderOk(a, l.tx) && Possible(a, b, l, moves)
    decreases |moves|
  {
    if moves == [] then []
    else (if moves[0].TakeFrame? then OnFrame(b, l.rx, Some(l.toRx[0])).1 else [])
         + FlowsSent(a, b, Apply(a, b, l, moves[0]), moves[1..])
  }

  /** A channel holds what was put in and not yet taken. */
  lemma {:induction false} ChannelsConserve(a: Config, b: Config, l: Link, moves: seq<Move>)
    requires SenderOk(a, l.tx) && Possible(a, b, l, moves)
    ensures var end := Exec(a, b, l, moves);
            && l.toRx + FramesSent(a, b, l, moves) == FramesTaken(a, b, l, moves) + end.toRx
            && l.toTx + FlowsSent(a, b, l, moves) == FlowsTaken(a, b, l, moves) + end.toTx
    decreases |moves|
  {
    hide OnFrame, OnFlow, Emit, Wire, NextBody;
    if moves != [] {
      var next := Apply(a, b, l, moves[0]);
      ChannelsConserve(a, b, next, moves[1..]);
      var end := Exec(a, b, l, moves);
      var sent, granted := FramesSent(a, b, next, moves[1..]), FlowsSent(a, b, next, moves[1..]);
      var heard, taken := FramesTaken(a, b, next, moves[1..]), FlowsTaken(a, b, next, moves[1..]);
      assert [] + sent == sent && [] + granted == granted && [] + heard == heard && [] + taken == taken;
      match moves[0]
      case Transmit => Through(l.toRx, [Wire(a, NextBody(a, l.tx))], sent, heard, end.toRx);
      case TakeFlow => Taken(l.toTx, granted, taken, end.toTx);
      case TakeFrame =>
        Taken(l.toRx, sent, heard, end.toRx);
        Through(l.toTx, OnFrame(b, l.rx, Some(l.toRx[0])).1, granted, taken, end.toTx);
    }
  }

  lemma Through(channel: seq<Bytes>, put: seq<Bytes>, later: seq<Bytes>, taken: seq<Bytes>, left: seq<Bytes>)
    requires (channel + put) + later == taken + left
    ensures channel + (put + later) == taken + left
  {
    assert (channel + put) + later == channel + (put + later);
  }

  lemma Taken(channel: seq<Bytes>, later: seq<Bytes>, taken: seq<Bytes>, left: seq<Bytes>)
    requires channel != [] && channel[1..] + later == taken + left
    ensures channel + later == ([channel[0]] + taken) + left
  {
    assert channel == [channel[0]] + channel[1..];
    assert channel + later == [channel[0]] + (channel[1..] + later);
  }

  lemma RepliesAreSent(trace: seq<Event>, got: Bytes, replies: seq<Bytes>)
    requires |replies| <= 1
    ensures SentFrames(trace + [Got(got)] + SentEvents(replies)) == SentFrames(trace) + replies
  {
    hide SentFrames;
    SentFramesSnoc(trace, Got(got));
    var longer := trace + [Got(got)];
    assert SentFrames(trace) + [] == SentFrames(trace);
    if replies == [] {
      assert SentEvents(replies) == [];
      assert longer + [] == longer;
    } else {
      assert SentEvents(replies) == [Sent(replies[0])] && replies == [replies[0]];
      SentFramesSnoc(longer, Sent(replies[0]));
    }
  }

  lemma {:induction false} SenderSideIsSend(a: Config, b: Config, l: Link, moves: seq<Move>, trace: seq<Event>)
    requires SenderOk(a, l.tx) && Possible(a, b, l, moves) && Done(Exec(a, b, l, moves).tx)
    ensures var run := RunSend(a, l.tx, Arrivals(FlowsTaken(a, b, l, moves)), trace);
            && run.sender == Exec(a, b, l, moves).tx
            && SentFrames(run.trace) == SentFrames(trace) + FramesSent(a, b, l, moves)
    decreases |moves|
  {
    hide OnFrame, OnFlow, Emit, Wire, NextBody, RunSend, Arrivals, SentFrames;
    if moves == [] {
      DoneAtOnce(a, l.tx, trace);
    } else {
      var m, next := moves[0], Apply(a, b, l, moves[0]);
      if m.TakeFlow? {
        var seen := trace + [Got(l.toTx[0])];
        SentFramesSnoc(trace, Got(l.toTx[0]));
        SenderSideIsSend(a, b, next, moves[1..], seen);
        TakesFlowFirst(a, b, l, moves, trace);
      } else if m.Transmit? {
        SendsFirst(a, l, Arrivals(FlowsTaken(a, b, l, moves)), trace);
        SenderSideIsSend(a, b, next, moves[1..], trace + [Sent(Wire(a, NextBody(a, l.tx)))]);
        assert FlowsTaken(a, b, l, moves) == FlowsTaken(a, b, next, moves[1..]);
      } else {
        SenderSideIsSend(a, b, next, moves[1..], trace);
        assert FlowsTaken(a, b, l, moves) == FlowsTaken(a, b, next, moves[1..]);
      }
    }
  }

  lemma DoneAtOnce(a: Config, s: Sender, trace: seq<Event>)
    requires SenderOk(a, s) && Done(s)
    ensures RunSend(a, s, Arrivals([]), trace) == SendRun(s, Arrivals([]), trace)
    ensures SentFrames(trace) + [] == SentFrames(trace)
  {
  }

  lemma SendsFirst(a: Config, l: Link, inbox: Inbox, trace: seq<Event>)
    requires SenderOk(a, l.tx) && Enabled(l, Transmit)
    ensures var e := Sent(Wire(a, NextBody(a, l.tx)));
            && RunSend(a, l.tx, inbox, trace) == RunSend(a, Emit(a, l.tx), inbox, trace + [e])
            && SentFrames(trace + [e]) == SentFrames(trace) + [e.frame]
  {
    SentFramesSnoc(trace, Sent(Wire(a, NextBody(a, l.tx))));
  }

  lemma TakesFlowFirst(a: Config, b: Config, l: Link, moves: seq<Move>, trace: seq<Event>)
    requires SenderOk(a, l.tx) && Possible(a, b, l, moves) && moves != [] && moves[0].TakeFlow?
    ensures var next := Apply(a, b, l, TakeFlow);
            RunSend(a, l.tx, Arrivals(FlowsTaken(a, b, l, moves)), trace) ==
            RunSend(a, next.tx, Arrivals(FlowsTaken(a, b, next, moves[1..])), trace + [Got(l.toTx[0])])
  {
    hide OnFrame, OnFlow, Emit, Wire;
    var next := Apply(a, b, l, TakeFlow);
    var inbox, later := Arrivals(FlowsTaken(a, b, l, moves)), Arrivals(FlowsTaken(a, b, next, moves[1..]));
    assert FlowsTaken(a, b, l, moves)[1..] == FlowsTaken(a, b, next, moves[1..]);
    ArrivalsTail(FlowsTaken(a, b, l, moves));
    assert Turn(a, l.tx, inbox) == (next.tx, later, Got(l.toTx[0]));
  }

  lemma {:induction false} ReceiverSideIsReceive(a: Config, b: Config, l: Link, moves: seq<Move>, trace: seq<Event>)
    requires SenderOk(a, l.tx) && Possible(a, b, l, moves) && !Listening(Exec(a, b, l, moves).rx)
    ensures var run := RunReceive(b, l.rx, Arrivals(FramesTaken(a, b, l, moves)), trace);
            && run.receiver == Exec(a, b, l, moves).rx
            && SentFrames(run.trace) == SentFrames(trace) + FlowsSent(a, b, l, moves)
    decreases |moves|
  {
    hide OnFrame, OnFlow, Emit, Wire, NextBody, RunReceive, Arrivals, SentFrames;
    if moves == [] {
      RunEnds(b, l.rx, Arrivals([]), trace);
      assert SentFrames(trace) + [] == SentFrames(trace);
    } else {
      var m, next := moves[0], Apply(a, b, l, moves[0]);
      if m.TakeFrame? {
        var frame, frames := l.toRx[0], FramesTaken(a, b, next, moves[1..]);
        var (_, replies) := OnFrame(b, l.rx, Some(frame));
        AtMostOneReply(b, l.rx, frame);
        RepliesAreSent(trace, frame, replies);
        ReceiverSideIsReceive(a, b, next, moves[1..], trace + [Got(frame)] + SentEvents(replies));
        RunStep(b, l.rx, frame, frames, [], trace);
        assert Arrivals([frame] + frames) + [] == Arrivals([frame] + frames);
        assert Arrivals(frames) + [] == Arrivals(frames);
        assert FramesTaken(a, b, l, moves) == [frame] + frames;
      } else {
        assert FramesTaken(a, b, l, moves) == FramesTaken(a, b, next, moves[1..]);
        ReceiverSideIsReceive(a, b, next, moves[1..], trace);
      }
    }
  }

  /**
   A completed interleaving is one `send` and one `receive`: each side ends where its method, given the
   frames it took, ends, and what each method hears is what the other one transmits.
   */
  lemma InterleavingIsTwoCalls(a: Config, b: Config, payload: Bytes, o: Origin, moves: seq<Move>)
    requires Peers(a, b, payload) && Possible(a, b, Initial(payload, o), moves)
    requires Complete(a, b, payload, o, Exec(a, b, Initial(payload, o), moves))
    ensures var start, end := Initial(payload, o), Exec(a, b, Initial(payload, o), moves);
            var frames, flows := FramesTaken(a, b, start, moves), FlowsTaken(a, b, start, moves);
            var send := RunSend(a, start.tx, Arrivals(flows), []);
            var receive := RunReceive(b, start.rx, Arrivals(frames), []);
            && send.sender == end.tx && receive.receiver == end.rx
            && SentFrames(send.trace) == frames && SentFrames(receive.trace) == flows
  {
    hide OnFrame, OnFlow, Emit, Wire, Exec, Possible, FramesTaken, FlowsTaken, FramesSent, FlowsSent;
    hide RunSend, RunReceive;
    var start := Initial(payload, o);
    SenderSideIsSend(a, b, start, moves, []);
    ReceiverSideIsReceive(a, b, start, moves, []);
    ChannelsConserve(a, b, start, moves);
    NothingAdded(FramesSent(a, b, start, moves), FramesTaken(a, b, start, moves));
    NothingAdded(FlowsSent(a, b, start, moves), FlowsTaken(a, b, start, moves));
  }

  lemma NothingAdded(sent: seq<Bytes>, taken: seq<Bytes>)
    requires [] + sent == taken + []
    ensures sent == taken && [] + sent == sent
  {
    assert [] + sent == sent && taken + [] == taken;
  }
}
