/**
 A Python sender and a JavaScript receiver joined by two lossless FIFO channels. A run is any sequence of atomic
 steps of the two sides, each frame being answered by the receiver itself; the sender's timeout is one of the steps,
 possible once nothing is on its way any more. The payload is segmented.
 */
module PyJsLink {
  import opened Common
  import opened IsoTpFrames
  import M = IsoTpMachines
  import L = IsoTpLink
  import J = JsIsoTp
  import I = JsInterop

  datatype Link = Link(tx: M.Sender, rx: J.ReceiverState, toRx: seq<Bytes>, toTx: seq<Bytes>)

  datatype Move = Transmit | TakeFlow | TakeFrame | Expire

  /** The next `send` of a handler meets a receiver in whatever state it is. */
  function Initial(payload: Bytes, negotiated: nat, st: M.Statistics, rx: J.ReceiverState): Link {
    Link(M.StartSending(payload, negotiated, st), rx, [], [])
  }

  predicate Enabled(l: Link, m: Move) {
    match m
    case Transmit => M.CanEmit(l.tx)
    case TakeFlow => l.tx.phase.AwaitFlow? && l.toTx != []
    case TakeFrame => l.toRx != []
    case Expire => l.tx.phase.AwaitFlow? && l.toRx == [] && l.toTx == []
  }

  function Apply(c: Config, options: J.Options, l: Link, m: Move): (r: Link)
    requires M.SenderOk(c, l.tx) && Enabled(l, m)
    ensures M.SenderOk(c, r.tx)
  {
    match m
    case Transmit => l.(tx := M.Emit(c, l.tx), toRx := l.toRx + [Wire(c, M.NextBody(c, l.tx))])
    case TakeFlow => l.(tx := M.OnFlow(c, l.tx, Some(l.toTx[0])), toTx := l.toTx[1..])
    case TakeFrame =>
      var (rx, reply) := J.OnFrame(options, l.rx, l.toRx[0]);
      l.(rx := rx, toRx := l.toRx[1..], toTx := l.toTx + if reply.Some? then [reply.value] else [])
    case Expire => l.(tx := M.OnFlow(c, l.tx, None))
  }

  predicate Possible(c: Config, options: J.Options, l: Link, moves: seq<Move>)
    requires M.SenderOk(c, l.tx)
    decreases |moves|
  {
    moves == [] || (Enabled(l, moves[0]) && Possible(c, options, Apply(c, options, l, moves[0]), moves[1..]))
  }

  function Exec(c: Config, options: J.Options, l: Link, moves: seq<Move>): (r: Link)
    requires M.SenderOk(c, l.tx) && Possible(c, options, l, moves)
    ensures M.SenderOk(c, r.tx)
    decreases |moves|
  {
    if moves == [] then l else Exec(c, options, Apply(c, options, l, moves[0]), moves[1..])
  }

  predicate Ends(c: Config, options: J.Options, payload: Bytes) {
    J.ClassicNormal(c) && 7 < |payload| <= Min(MAX_CLASSIC_PAYLOAD, options.maxLength)
  }

  /** The block size the receiver's reply grants; zero is no limit. */
  function Block(options: J.Options): nat {
    options.blockSize % 256
  }

  predicate GetsThrough(c: Config, options: J.Options, payload: Bytes)
    requires Ends(c, options, payload)
  {
    Block(options) == 0 || L.ConsecutiveTotal(c, payload) <= Block(options)
  }

  // ---------- the invariant ----------

  function Unsent(c: Config, s: M.Sender): seq<Bytes>
    requires M.SenderOk(c, s)
  {
    Consecutive(c, s.payload, s.index, s.sequence)
  }

  /** The sender between its first frame and the end of its grant. */
  predicate Granted(c: Config, options: J.Options, payload: Bytes, s: M.Sender)
    requires Ends(c, options, payload) && M.SenderOk(c, s) && s.payload == payload
  {
    var block, left := Block(options), |Unsent(c, s)|;
    var sent := L.ConsecutiveTotal(c, payload) - left;
    && s.negotiated == block && 0 <= sent && (block > 0 ==> sent <= block && s.blockRemaining == block - sent)
    && match s.phase
       case Ready => left > 0 && (block > 0 ==> sent < block)
       case AwaitFlow(_) => left > 0 && block > 0 && sent == block
       case Finished => left == 0
       case Failed(error) => error == M.NBsTimeout && left > 0 && block > 0 && sent == block
       case Start => false
  }

  /** The receiver on the way through the message, or behind it. */
  predicate Follows(c: Config, payload: Bytes, before: J.ReceiverState, l: Link)
    requires J.ClassicNormal(c) && M.SenderOk(c, l.tx)
  {
    && l.rx.errors == before.errors
    && if l.rx.receiving then
         && J.Holding(payload, l.rx) && l.rx.messages == before.messages
         && l.toRx + WireAll(c, Unsent(c, l.tx)) ==
            WireAll(c, Consecutive(c, payload, |l.rx.buffer|, l.rx.expectedSn))
       else
         l.rx.messages == before.messages + [payload] && l.toRx == [] && Unsent(c, l.tx) == []
  }

  /** The first frame is on its way, or its reply. */
  predicate Opening(c: Config, options: J.Options, payload: Bytes, rx: J.ReceiverState, l: Link)
    requires Ends(c, options, payload)
  {
    && l.tx.phase == M.AwaitFlow(0) && l.tx.index == 6 && l.tx.sequence == 1
    && if l.toTx == [] then l.toRx == [Wire(c, FirstBody(c, payload))] && l.rx == rx
       else
         && l.toTx == [J.Reply(options, CONTINUE_TO_SEND)] && l.toRx == []
         && J.Holding(payload, l.rx) && |l.rx.buffer| == 6 && l.rx.expectedSn == 1
         && l.rx.messages == rx.messages && l.rx.errors == rx.errors
  }

  predicate Inv(c: Config, options: J.Options, payload: Bytes, start: Link, l: Link)
    requires Ends(c, options, payload)
  {
    && M.SenderOk(c, l.tx) && l.tx.payload == payload
    && if l.tx.phase.Start? then l == start
       else
         || Opening(c, options, payload, start.rx, l)
         || (l.toTx == [] && Granted(c, options, payload, l.tx) && Follows(c, payload, start.rx, l))
  }

  // ---------- every step keeps it ----------

  lemma StartTransmits(c: Config, options: J.Options, payload: Bytes, l: Link)
    requires Ends(c, options, payload) && M.SenderOk(c, l.tx) && l.tx.payload == payload && l.tx.phase.Start?
    requires l.toRx == [] && l.toTx == []
    ensures Opening(c, options, payload, l.rx, Apply(c, options, l, Transmit))
  {
    J.FirstAlike(c, payload);
  }

  lemma TransmitKeeps(c: Config, options: J.Options, payload: Bytes, start: Link, l: Link)
    requires Ends(c, options, payload) && Inv(c, options, payload, start, l) && l.tx.phase.Ready?
    ensures Inv(c, options, payload, start, Apply(c, options, l, Transmit))
  {
    hide Wire, Consecutive, J.Holding, WireAll;
    L.TransmitMoves(c, l.tx, l.toRx);
    I.EmitsOne(c, l.tx);
    var next := M.Emit(c, l.tx);
    L.MoreToCome(c, payload, next.index, next.sequence);
    L.MoreToCome(c, payload, l.tx.index, l.tx.sequence);
    assert Unsent(c, l.tx) != [];
  }

  lemma TakeFlowKeeps(c: Config, options: J.Options, payload: Bytes, start: Link, l: Link)
    requires Ends(c, options, payload) && Inv(c, options, payload, start, l) && Enabled(l, TakeFlow)
    ensures Inv(c, options, payload, start, Apply(c, options, l, TakeFlow))
  {
    hide M.OnFlow, Wire, Consecutive;
    I.TakesReply(c, options, l.tx);
    J.FirstAlike(c, payload);
    L.MoreToCome(c, payload, 6, 1);
    var bodies := WireAll(c, Consecutive(c, payload, 6, 1));
    assert [] + bodies == bodies;
  }

  lemma ExpireKeeps(c: Config, options: J.Options, payload: Bytes, start: Link, l: Link)
    requires Ends(c, options, payload) && Inv(c, options, payload, start, l) && Enabled(l, Expire)
    ensures Inv(c, options, payload, start, Apply(c, options, l, Expire))
  {
    hide Wire, Consecutive, J.Holding;
  }

  lemma FirstTaken(c: Config, options: J.Options, payload: Bytes, rx: J.ReceiverState)
    requires Ends(c, options, payload)
    ensures var (next, reply) := J.OnFrame(options, rx, Wire(c, FirstBody(c, payload)));
            && reply == Some(J.Reply(options, CONTINUE_TO_SEND))
            && J.Holding(payload, next) && |next.buffer| == 6 && next.expectedSn == 1
            && next.messages == rx.messages && next.errors == rx.errors
  {
    J.ClassicWire(c, FirstBody(c, payload));
    J.FirstAlike(c, payload);
    J.FeedsFirst(c, options, payload, rx);
  }

  lemma FirstKeeps(c: Config, options: J.Options, payload: Bytes, start: Link, l: Link)
    requires Ends(c, options, payload) && Inv(c, options, payload, start, l)
    requires !l.tx.phase.Start? && l.toRx != [] && Opening(c, options, payload, start.rx, l)
    ensures Inv(c, options, payload, start, Apply(c, options, l, TakeFrame))
  {
    hide Wire, Consecutive, J.Holding, J.OnFrame, FirstBody;
    FirstTaken(c, options, payload, l.rx);
    var reply := J.Reply(options, CONTINUE_TO_SEND);
    assert [] + [reply] == [reply];
  }

  lemma FrameTaken(c: Config, options: J.Options, payload: Bytes, rx: J.ReceiverState, channel: seq<Bytes>,
                   unsent: seq<Bytes>)
    requires J.ClassicNormal(c) && J.Holding(payload, rx) && channel != []
    requires channel + unsent == WireAll(c, Consecutive(c, payload, |rx.buffer|, rx.expectedSn))
    ensures var (next, reply) := J.OnFrame(options, rx, channel[0]);
            && reply.None? && next.errors == rx.errors
            && if next.receiving then
                 && J.Holding(payload, next) && next.messages == rx.messages
                 && channel[1..] + unsent == WireAll(c, Consecutive(c, payload, |next.buffer|, next.expectedSn))
               else next.messages == rx.messages + [payload] && channel[1..] + unsent == []
  {
    hide Wire, J.OnFrame, Consecutive, WireAll, ConsecutiveBody;
    var body := ConsecutiveBody(c, payload, |rx.buffer|, rx.expectedSn);
    ConsecutiveUnfolds(c, payload, |rx.buffer|, rx.expectedSn);
    var index := |rx.buffer| + |Chunk(c, payload, |rx.buffer|)|;
    var later := Consecutive(c, payload, index, (rx.expectedSn + 1) % 16);
    WireAllCons(c, body, later);
    L.HeadSplits(channel, unsent, Wire(c, body), WireAll(c, later));
    ConsecutiveFirst(c, options, payload, rx);
    J.FeedsNext(c, options, payload, rx);
    L.MoreToCome(c, payload, index, (rx.expectedSn + 1) % 16);
  }

  lemma ConsecutiveFirst(c: Config, options: J.Options, payload: Bytes, rx: J.ReceiverState)
    requires J.ClassicNormal(c) && J.Holding(payload, rx)
    ensures J.OnFrame(options, rx, Wire(c, ConsecutiveBody(c, payload, |rx.buffer|, rx.expectedSn))).1.None?
  {
    var body := ConsecutiveBody(c, payload, |rx.buffer|, rx.expectedSn);
    J.ClassicWire(c, body);
    I.NoReply(options, rx, Wire(c, body));
  }

  lemma FrameKeeps(c: Config, options: J.Options, payload: Bytes, start: Link, l: Link)
    requires Ends(c, options, payload) && Inv(c, options, payload, start, l)
    requires !l.tx.phase.Start? && l.toRx != [] && l.toTx == []
    requires Granted(c, options, payload, l.tx) && Follows(c, payload, start.rx, l)
    ensures Inv(c, options, payload, start, Apply(c, options, l, TakeFrame))
  {
    hide Wire, Consecutive, J.Holding, J.OnFrame, WireAll;
    FrameTaken(c, options, payload, l.rx, l.toRx, WireAll(c, Unsent(c, l.tx)));
    assert l.toTx + [] == l.toTx;
  }

  lemma StepKeeps(c: Config, options: J.Options, payload: Bytes, start: Link, l: Link, m: Move)
    requires Ends(c, options, payload) && Inv(c, options, payload, start, l) && Enabled(l, m)
    requires start.toRx == [] && start.toTx == []
    ensures Inv(c, options, payload, start, Apply(c, options, l, m))
  {
    hide Opening, Granted, Follows, Apply;
    if l.tx.phase.Start? {
      NothingYet(l, m);
      StartTransmits(c, options, payload, l);
      Emits(c, options, l);
    } else {
      match m
      case Transmit => TransmitKeeps(c, options, payload, start, l);
      case TakeFlow => TakeFlowKeeps(c, options, payload, start, l);
      case Expire => ExpireKeeps(c, options, payload, start, l);
      case TakeFrame =>
        if Opening(c, options, payload, start.rx, l) {
          FirstKeeps(c, options, payload, start, l);
        } else {
          FrameKeeps(c, options, payload, start, l);
        }
    }
  }

  lemma NothingYet(l: Link, m: Move)
    requires l.tx.phase.Start? && l.toRx == [] && l.toTx == [] && Enabled(l, m)
    ensures m.Transmit?
  {
  }

  lemma Emits(c: Config, options: J.Options, l: Link)
    requires M.SenderOk(c, l.tx) && Enabled(l, Transmit)
    ensures var r := Apply(c, options, l, Transmit).tx; r.payload == l.tx.payload && !r.phase.Start?
  {
  }

  lemma {:induction false} RunKeeps(c: Config, options: J.Options, payload: Bytes, start: Link, l: Link,
                                    moves: seq<Move>)
    requires Ends(c, options, payload) && Inv(c, options, payload, start, l) && Possible(c, options, l, moves)
    requires start.toRx == [] && start.toTx == []
    ensures Inv(c, options, payload, start, Exec(c, options, l, moves))
    decreases |moves|
  {
    hide Opening, Granted, Follows, Apply;
    if moves != [] {
      StepKeeps(c, options, payload, start, l, moves[0]);
      RunKeeps(c, options, payload, start, Apply(c, options, l, moves[0]), moves[1..]);
    }
  }

  // ---------- every run is finite ----------

  /** The frames the sender has yet to transmit. */
  function Left(c: Config, s: M.Sender): nat
    requires M.SenderOk(c, s)
  {
    if !s.phase.Start? then |Unsent(c, s)|
    else if FitsSingleFrame(c, s.payload) then 1
    else 1 + |Consecutive(c, s.payload, FirstLength(c, |s.payload|), 1)|
  }

  function Measure(c: Config, l: Link): nat
    requires M.SenderOk(c, l.tx)
  {
    3 * Left(c, l.tx) + 2 * |l.toRx| + |l.toTx| + if M.Done(l.tx) then 0 else 1
  }

  lemma EmitLeaves(c: Config, s: M.Sender)
    requires M.SenderOk(c, s) && M.CanEmit(s)
    ensures Left(c, M.Emit(c, s)) == Left(c, s) - 1
  {
    hide Consecutive;
    if s.phase.Ready? {
      I.EmitsOne(c, s);
    } else if FitsSingleFrame(c, s.payload) {
      assert Consecutive(c, s.payload, |s.payload|, s.sequence) == [] by {
        NothingConsecutive(c, s.payload, s.sequence);
      }
    } else {
      SegmentedIsLonger(c, s.payload);
    }
  }

  lemma MeasureFalls(c: Config, options: J.Options, l: Link, m: Move)
    requires M.SenderOk(c, l.tx) && Enabled(l, m)
    ensures Measure(c, Apply(c, options, l, m)) < Measure(c, l)
  {
    hide M.OnFlow, M.Emit, J.OnFrame, Wire, Consecutive;
    if m.Transmit? {
      EmitLeaves(c, l.tx);
    }
  }

  lemma {:induction false} RunIsBounded(c: Config, options: J.Options, l: Link, moves: seq<Move>)
    requires M.SenderOk(c, l.tx) && Possible(c, options, l, moves)
    ensures |moves| + Measure(c, Exec(c, options, l, moves)) <= Measure(c, l)
    decreases |moves|
  {
    hide Apply, Measure;
    if moves != [] {
      MeasureFalls(c, options, l, moves[0]);
      RunIsBounded(c, options, Apply(c, options, l, moves[0]), moves[1..]);
    }
  }

  // ---------- a segmented message that gets through, or runs into its grant ----------

  predicate Settled(l: Link) {
    forall m :: !Enabled(l, m)
  }

  /**
   For every interleaving with a receiver that accepts the length: `onError` is not called, `onMessage` at most once
   and with the payload, the sender's only error is the N_Bs timeout, and where nothing can move any more the message
   got through if and only if the receiver asks for no blocks or it fits into one. Otherwise the sender's call has
   timed out and the receiver still waits.
   */
  lemma SegmentedRuns(c: Config, options: J.Options, payload: Bytes, negotiated: nat, st: M.Statistics,
                      rx: J.ReceiverState, moves: seq<Move>)
    requires Ends(c, options, payload)
    requires Possible(c, options, Initial(payload, negotiated, st, rx), moves)
    ensures var l := Exec(c, options, Initial(payload, negotiated, st, rx), moves);
            && l.rx.errors == rx.errors
            && (l.rx.messages == rx.messages
                || (l.rx.messages == rx.messages + [payload] && GetsThrough(c, options, payload)))
            && (l.tx.phase.Failed? ==> l.tx.phase.error == M.NBsTimeout && !GetsThrough(c, options, payload))
            && (Settled(l) ==>
                  if GetsThrough(c, options, payload)
                  then l.tx.phase.Finished? && l.rx.messages == rx.messages + [payload]
                  else l.tx.phase == M.Failed(M.NBsTimeout) && l.rx.messages == rx.messages && l.rx.receiving)
  {
    hide Wire, Consecutive, J.Holding, Exec, Possible;
    var start := Initial(payload, negotiated, st, rx);
    RunKeeps(c, options, payload, start, start, moves);
    var l := Exec(c, options, start, moves);
    if Settled(l) {
      assert !Enabled(l, Transmit) && !Enabled(l, TakeFlow) && !Enabled(l, TakeFrame) && !Enabled(l, Expire);
      Stops(c, options, payload, start, l);
    }
  }

  lemma Stops(c: Config, options: J.Options, payload: Bytes, start: Link, l: Link)
    requires Ends(c, options, payload) && Inv(c, options, payload, start, l)
    requires start.tx.phase.Start?
    requires !Enabled(l, Transmit) && !Enabled(l, TakeFlow) && !Enabled(l, TakeFrame) && !Enabled(l, Expire)
    ensures l.rx.errors == start.rx.errors
    ensures if GetsThrough(c, options, payload)
            then l.tx.phase.Finished? && l.rx.messages == start.rx.messages + [payload]
            else l.tx.phase == M.Failed(M.NBsTimeout) && l.rx.messages == start.rx.messages && l.rx.receiving
  {
    hide Wire, Consecutive, L.ConsecutiveTotal;
    if l.rx.receiving {
      L.MoreToCome(c, payload, |l.rx.buffer|, l.rx.expectedSn);
    }
  }

  // ---------- single frames ----------

  predicate SingleInv(c: Config, payload: Bytes, start: Link, l: Link)
    requires J.ClassicNormal(c) && 1 <= |payload| <= 7
  {
    && l.tx.payload == payload && l.toTx == []
    && if l.tx.phase.Start? then l == start
       else
         && l.tx.phase.Finished?
         && if l.toRx != [] then l.toRx == [Wire(c, SingleBody(c, payload))] && l.rx == start.rx
            else l.rx.messages == start.rx.messages + [payload] && l.rx.errors == start.rx.errors
  }

  lemma SingleTaken(c: Config, options: J.Options, payload: Bytes, rx: J.ReceiverState)
    requires J.ClassicNormal(c) && 1 <= |payload| <= 7
    ensures var (next, reply) := J.OnFrame(options, rx, Wire(c, SingleBody(c, payload)));
            reply.None? && next.messages == rx.messages + [payload] && next.errors == rx.errors
  {
    J.FeedsFirst(c, options, payload, rx);
    J.ClassicWire(c, SingleBody(c, payload));
  }

  lemma {:induction false} SingleRuns(c: Config, options: J.Options, payload: Bytes, start: Link, l: Link,
                                      moves: seq<Move>)
    requires J.ClassicNormal(c) && 1 <= |payload| <= 7 && M.SenderOk(c, l.tx) && SingleInv(c, payload, start, l)
    requires start.toRx == [] && start.toTx == [] && Possible(c, options, l, moves)
    ensures SingleInv(c, payload, start, Exec(c, options, l, moves))
    decreases |moves|
  {
    hide Wire, J.OnFrame;
    if moves != [] {
      SingleTaken(c, options, payload, l.rx);
      SingleRuns(c, options, payload, start, Apply(c, options, l, moves[0]), moves[1..]);
    }
  }

  // ---------- lengths the receiver refuses or misreads ----------

  /** The receiver refuses the first frame, or reads its escape length as zero. */
  predicate Misfits(c: Config, options: J.Options, payload: Bytes) {
    && J.ClassicNormal(c) && 7 < |payload| <= MAX_ESCAPE_PAYLOAD
    && (|payload| > options.maxLength || |payload| > MAX_CLASSIC_PAYLOAD)
  }

  predicate IsConsecutive(frame: Bytes) {
    frame != [] && frame[0] / 16 == CONSECUTIVE_FRAME
  }

  /** All the receiver can have delivered is an empty message. */
  predicate Astray(before: J.ReceiverState, rx: J.ReceiverState) {
    || (rx.messages == before.messages && (rx.receiving ==> rx.expectedLength == 0))
    || (rx.messages == before.messages + [[]] && !rx.receiving)
  }

  predicate OnlyConsecutive(frames: seq<Bytes>) {
    forall k :: 0 <= k < |frames| ==> IsConsecutive(frames[k])
  }

  /** The first frame is still on its way. */
  predicate Announcing(c: Config, payload: Bytes, start: Link, l: Link)
    requires J.ClassicNormal(c) && 7 < |payload| <= MAX_ESCAPE_PAYLOAD
  {
    l.tx.phase == M.AwaitFlow(0) && l.toTx == [] && l.toRx == [Wire(c, FirstBody(c, payload))] && l.rx == start.rx
  }

  predicate MisfitInv(c: Config, options: J.Options, payload: Bytes, start: Link, l: Link)
    requires Misfits(c, options, payload)
  {
    && l.tx.payload == payload
    && if l.tx.phase.Start? then l == start
       else
         || Announcing(c, payload, start, l)
         || (Astray(start.rx, l.rx) && OnlyConsecutive(l.toRx))
  }

  lemma MisfitFirst(c: Config, options: J.Options, payload: Bytes, rx: J.ReceiverState)
    requires Misfits(c, options, payload)
    ensures Astray(rx, J.OnFrame(options, rx, Wire(c, FirstBody(c, payload))).0)
  {
    J.ClassicWire(c, FirstBody(c, payload));
  }

  lemma StaysAstray(options: J.Options, before: J.ReceiverState, rx: J.ReceiverState, frame: Bytes)
    requires Astray(before, rx) && IsConsecutive(frame)
    ensures Astray(before, J.OnFrame(options, rx, frame).0)
  {
  }

  lemma EmitsConsecutive(c: Config, s: M.Sender)
    requires J.ClassicNormal(c) && M.SenderOk(c, s) && s.phase.Ready?
    ensures IsConsecutive(Wire(c, M.NextBody(c, s)))
  {
    J.ClassicWire(c, M.NextBody(c, s));
  }

  lemma MisfitTransmit(c: Config, options: J.Options, payload: Bytes, start: Link, l: Link)
    requires Misfits(c, options, payload) && M.SenderOk(c, l.tx) && MisfitInv(c, options, payload, start, l)
    requires start.toRx == [] && start.toTx == [] && Enabled(l, Transmit)
    ensures MisfitInv(c, options, payload, start, Apply(c, options, l, Transmit))
  {
    hide Wire, Astray, IsConsecutive;
    if l.tx.phase.Ready? {
      EmitsConsecutive(c, l.tx);
    } else {
      assert l.toRx + [Wire(c, M.NextBody(c, l.tx))] == [Wire(c, FirstBody(c, payload))];
    }
  }

  lemma MisfitFrame(c: Config, options: J.Options, payload: Bytes, start: Link, l: Link)
    requires Misfits(c, options, payload) && M.SenderOk(c, l.tx) && MisfitInv(c, options, payload, start, l)
    requires start.toRx == [] && Enabled(l, TakeFrame)
    ensures MisfitInv(c, options, payload, start, Apply(c, options, l, TakeFrame))
  {
    hide Wire, J.OnFrame, Astray, IsConsecutive;
    if Announcing(c, payload, start, l) {
      MisfitFirst(c, options, payload, l.rx);
    } else {
      StaysAstray(options, start.rx, l.rx, l.toRx[0]);
    }
  }

  lemma MisfitStep(c: Config, options: J.Options, payload: Bytes, start: Link, l: Link, m: Move)
    requires Misfits(c, options, payload) && M.SenderOk(c, l.tx) && MisfitInv(c, options, payload, start, l)
    requires start.toRx == [] && start.toTx == [] && Enabled(l, m)
    ensures MisfitInv(c, options, payload, start, Apply(c, options, l, m))
  {
    hide Wire, Astray, OnlyConsecutive, M.OnFlowControl;
    if m.Transmit? {
      MisfitTransmit(c, options, payload, start, l);
    } else if m.TakeFrame? {
      MisfitFrame(c, options, payload, start, l);
    }
  }

  lemma {:induction false} MisfitRuns(c: Config, options: J.Options, payload: Bytes, start: Link, l: Link,
                                      moves: seq<Move>)
    requires Misfits(c, options, payload) && M.SenderOk(c, l.tx) && MisfitInv(c, options, payload, start, l)
    requires start.toRx == [] && start.toTx == [] && Possible(c, options, l, moves)
    ensures MisfitInv(c, options, payload, start, Exec(c, options, l, moves))
    decreases |moves|
  {
    hide Apply, MisfitInv;
    if moves != [] {
      MisfitStep(c, options, payload, start, l, moves[0]);
      MisfitRuns(c, options, payload, start, Apply(c, options, l, moves[0]), moves[1..]);
    }
  }

  // ---------- every message ----------

  /** A single frame; or a length the receiver accepts, and no blocks or one that suffices. */
  predicate Arrives(c: Config, options: J.Options, payload: Bytes) {
    |payload| <= 7 || (Ends(c, options, payload) && GetsThrough(c, options, payload))
  }

  /**
   For every interleaving of a Python sender and a JavaScript receiver, whatever the message and whatever state the
   receiver is in: the run is finite, and where nothing can move any more, the sender's call has ended and
   `onMessage` was called exactly once, with the payload, and `onError` not at all, if and only if the message
   arrives by the condition above.
   */
  lemma EveryInterleaving(c: Config, options: J.Options, payload: Bytes, negotiated: nat, st: M.Statistics,
                          rx: J.ReceiverState, moves: seq<Move>)
    requires J.ClassicNormal(c) && 1 <= |payload| <= MAX_ESCAPE_PAYLOAD
    requires Possible(c, options, Initial(payload, negotiated, st, rx), moves)
    ensures var start := Initial(payload, negotiated, st, rx);
            var l := Exec(c, options, start, moves);
            && |moves| <= 3 * Left(c, start.tx) + 1
            && (l.rx.messages == rx.messages + [payload] ==> Arrives(c, options, payload))
            && (Settled(l) ==>
                  && M.Done(l.tx)
                  && (l.tx.phase.Finished? && l.rx.messages == rx.messages + [payload] && l.rx.errors == rx.errors
                      <==> Arrives(c, options, payload)))
  {
    hide Wire, Consecutive, J.Holding, Exec, Possible, L.ConsecutiveTotal, Left;
    var start := Initial(payload, negotiated, st, rx);
    RunIsBounded(c, options, start, moves);
    var l := Exec(c, options, start, moves);
    if Settled(l) {
      assert !Enabled(l, Transmit) && !Enabled(l, TakeFlow) && !Enabled(l, TakeFrame) && !Enabled(l, Expire);
    }
    if |payload| <= 7 {
      SingleRuns(c, options, payload, start, start, moves);
    } else if Ends(c, options, payload) {
      SegmentedRuns(c, options, payload, negotiated, st, rx, moves);
    } else {
      MisfitRuns(c, options, payload, start, start, moves);
      NotEmpty(rx.messages, payload);
    }
  }

  lemma NotEmpty(messages: seq<Bytes>, payload: Bytes)
    requires payload != []
    ensures messages + [payload] != messages && messages + [payload] != messages + [[]]
  {
    assert (messages + [payload])[|messages|] == payload;
  }
}
