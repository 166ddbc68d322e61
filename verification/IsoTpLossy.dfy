/**
 The sender and the receiver of `IsoTpLink` over channels that lose frames of any kind, with timeouts that may fire
 at any moment.
 */
module IsoTpLossy {
  import opened Common
  import opened IsoTpFrames
  import opened IsoTpMachines
  import opened IsoTpReceiving
  import opened IsoTpFaults
  import L = IsoTpLink

  /** `lost` records whether a frame to the receiver has been dropped. */
  datatype Link = Link(l: L.Link, lost: bool)

  /** A frame may be dropped anywhere in its channel. */
  datatype Move = Regular(m: L.Move) | DropFrame(k: nat) | DropFlow(k: nat) | TxTimeout | RxTimeout

  function Initial(payload: Bytes, o: L.Origin): Link {
    Link(L.Initial(payload, o), false)
  }

  predicate Enabled(z: Link, m: Move) {
    match m
    case Regular(regular) => L.Enabled(z.l, regular)
    case DropFrame(k) => k < |z.l.toRx|
    case DropFlow(k) => k < |z.l.toTx|
    case TxTimeout => z.l.tx.phase.AwaitFlow?
    case RxTimeout => Listening(z.l.rx)
  }

  function Without<T>(s: seq<T>, k: nat): seq<T>
    requires k < |s|
  {
    s[..k] + s[k + 1..]
  }

  function Apply(a: Config, b: Config, z: Link, m: Move): (r: Link)
    requires SenderOk(a, z.l.tx) && Enabled(z, m)
    ensures SenderOk(a, r.l.tx)
  {
    match m
    case Regular(regular) => z.(l := L.Apply(a, b, z.l, regular))
    case DropFrame(k) => Link(z.l.(toRx := Without(z.l.toRx, k)), true)
    case DropFlow(k) => z.(l := z.l.(toTx := Without(z.l.toTx, k)))
    case TxTimeout => z.(l := z.l.(tx := OnFlow(a, z.l.tx, None)))
    case RxTimeout => z.(l := z.l.(rx := OnFrame(b, z.l.rx, None).0))
  }

  predicate Possible(a: Config, b: Config, z: Link, moves: seq<Move>)
    requires SenderOk(a, z.l.tx)
    decreases |moves|
  {
    moves == [] || (Enabled(z, moves[0]) && Possible(a, b, Apply(a, b, z, moves[0]), moves[1..]))
  }

  function Exec(a: Config, b: Config, z: Link, moves: seq<Move>): (r: Link)
    requires SenderOk(a, z.l.tx) && Possible(a, b, z, moves)
    ensures SenderOk(a, r.l.tx)
    decreases |moves|
  {
    if moves == [] then z else Exec(a, b, Apply(a, b, z, moves[0]), moves[1..])
  }

  // ---------- the invariant ----------

  /** The sender has met nothing but grants and silence. */
  predicate SenderFine(a: Config, payload: Bytes, tx: Sender) {
    && SenderOk(a, tx) && tx.payload == payload
    && match tx.phase
       case Failed(error) => error.NBsTimeout?
       case AwaitFlow(waits) => waits == 0
       case _ => true
  }

  predicate AllGrants(b: Config, flows: seq<Bytes>) {
    forall k :: 0 <= k < |flows| ==> flows[k] == L.GrantFrame(b)
  }

  predicate AllNarrow(b: Config, frames: seq<Bytes>, width: nat) {
    forall k :: 0 <= k < |frames| ==> Narrow(b, Some(frames[k]), width)
  }

  /** The frames the sender has not transmitted. */
  function Unsent(a: Config, tx: Sender): seq<Bytes>
    requires SenderOk(a, tx)
  {
    Consecutive(a, tx.payload, tx.index, tx.sequence)
  }

  /** Before the receiver has taken a frame. */
  predicate Opening(a: Config, payload: Bytes, o: L.Origin, z: Link)
    requires Roomy(a) && 1 <= |payload| <= MAX_ESCAPE_PAYLOAD
  {
    && z.l.rx == o.rx.(phase := Idle) && z.l.toTx == []
    && if z.l.tx.phase.Start? then z == Initial(payload, o)
       else
         && (if z.lost then z.l.toRx == [] else z.l.toRx == [Wire(a, Frames(a, payload)[0])])
         && if FitsSingleFrame(a, payload) then z.l.tx.phase.Finished?
            else !CanEmit(z.l.tx) && z.l.tx.index == FirstLength(a, |payload|) && z.l.tx.sequence == 1
  }

  /** Nothing is lost: what is held, in flight and unsent is the payload. */
  predicate InStream(a: Config, payload: Bytes, z: Link)
    requires SenderOk(a, z.l.tx)
  {
    && Holding(payload, z.l.rx)
    && z.l.toRx + WireAll(a, Unsent(a, z.l.tx)) ==
       WireAll(a, Consecutive(a, payload, |z.l.rx.buffer|, z.l.rx.sequence))
  }

  /** Something is lost: not even full frames would make up for it. */
  predicate Deficient(a: Config, b: Config, payload: Bytes, z: Link)
    requires SenderOk(a, z.l.tx) && Roomy(a)
  {
    && z.l.rx.expected == |payload| && AllNarrow(b, z.l.toRx, Capacity(a) - 1)
    && |z.l.rx.buffer| + (|z.l.toRx| + |Unsent(a, z.l.tx)|) * (Capacity(a) - 1) < |payload|
  }

  predicate Inv(a: Config, b: Config, payload: Bytes, o: L.Origin, z: Link)
    requires L.Peers(a, b, payload)
  {
    && SenderFine(a, payload, z.l.tx) && AllGrants(b, z.l.toTx)
    && match z.l.rx.phase
       case Idle => Opening(a, payload, o, z)
       case Collecting(_) =>
         !z.l.tx.phase.Start? && !FitsSingleFrame(a, payload) &&
         if z.lost then Deficient(a, b, payload, z) else InStream(a, payload, z)
       case Delivered(returned) => returned == payload && !z.lost && z.l.tx.phase.Finished? && z.l.toRx == []
       case Silent => true
       case Broken(error) => error.SequenceNumber? || error.NCrTimeout?
  }

  // ---------- regular steps ----------

  lemma BodyIsNarrow(a: Config, b: Config, payload: Bytes, index: nat, sequence: nat)
    requires Compatible(a, b) && Admissible(a) && index <= |payload| && sequence < 16
    ensures Narrow(b, Some(Wire(a, ConsecutiveBody(a, payload, index, sequence))), Capacity(a) - 1)
  {
    var body := ConsecutiveBody(a, payload, index, sequence);
    StripWire(a, b, body);
    TailFits(a, |body|);
  }

  lemma {:induction false} BodiesAreNarrow(a: Config, b: Config, payload: Bytes, index: nat, sequence: nat)
    requires Compatible(a, b) && Admissible(a) && index <= |payload| && sequence < 16
    ensures AllNarrow(b, WireAll(a, Consecutive(a, payload, index, sequence)), Capacity(a) - 1)
    decreases |payload| - index
  {
    hide Wire, Narrow;
    if index < |payload| {
      BodyIsNarrow(a, b, payload, index, sequence);
      BodiesAreNarrow(a, b, payload, index + |Chunk(a, payload, index)|, (sequence + 1) % 16);
    }
  }

  lemma OpeningTransmit(a: Config, b: Config, payload: Bytes, o: L.Origin, z: Link)
    requires L.Peers(a, b, payload) && Inv(a, b, payload, o, z) && z.l.rx.phase.Idle? && L.Enabled(z.l, L.Transmit)
    ensures Inv(a, b, payload, o, Apply(a, b, z, Regular(L.Transmit)))
  {
    hide Wire;
    if !FitsSingleFrame(a, payload) {
      SegmentedIsLonger(a, payload);
    }
  }

  lemma EmitIsFine(a: Config, payload: Bytes, tx: Sender)
    requires SenderFine(a, payload, tx) && CanEmit(tx)
    ensures SenderFine(a, payload, Emit(a, tx)) && !Emit(a, tx).phase.Start?
  {
  }

  lemma UnsentShrinks(a: Config, tx: Sender)
    requires SenderOk(a, tx) && tx.phase.Ready?
    ensures Unsent(a, tx) == [NextBody(a, tx)] + Unsent(a, Emit(a, tx))
  {
  }

  lemma CollectingTransmit(a: Config, b: Config, payload: Bytes, o: L.Origin, z: Link)
    requires L.Peers(a, b, payload) && Inv(a, b, payload, o, z)
    requires z.l.rx.phase.Collecting? && L.Enabled(z.l, L.Transmit)
    ensures Inv(a, b, payload, o, Apply(a, b, z, Regular(L.Transmit)))
  {
    hide Wire, Emit, Consecutive, Narrow, Holding;
    EmitIsFine(a, payload, z.l.tx);
    if z.lost {
      UnsentShrinks(a, z.l.tx);
      BodyIsNarrow(a, b, payload, z.l.tx.index, z.l.tx.sequence);
    } else {
      L.TransmitMoves(a, z.l.tx, z.l.toRx);
    }
  }

  lemma TransmitKeeps(a: Config, b: Config, payload: Bytes, o: L.Origin, z: Link)
    requires L.Peers(a, b, payload) && Inv(a, b, payload, o, z) && L.Enabled(z.l, L.Transmit)
    ensures Inv(a, b, payload, o, Apply(a, b, z, Regular(L.Transmit)))
  {
    if z.l.rx.phase.Idle? {
      OpeningTransmit(a, b, payload, o, z);
    } else if z.l.rx.phase.Collecting? {
      CollectingTransmit(a, b, payload, o, z);
    } else {
      EmitIsFine(a, payload, z.l.tx);
    }
  }

  /** A grant moves neither index nor number. */
  lemma GrantIsFine(a: Config, b: Config, payload: Bytes, tx: Sender)
    requires L.Peers(a, b, payload) && SenderFine(a, payload, tx) && tx.phase.AwaitFlow?
    ensures var next := OnFlow(a, tx, Some(L.GrantFrame(b)));
            SenderFine(a, payload, next) && Unsent(a, next) == Unsent(a, tx) && !next.phase.Start?
  {
    hide Consecutive;
    L.TakesGrant(a, b, tx);
  }

  lemma TakeFlowKeeps(a: Config, b: Config, payload: Bytes, o: L.Origin, z: Link)
    requires L.Peers(a, b, payload) && Inv(a, b, payload, o, z) && L.Enabled(z.l, L.TakeFlow)
    ensures Inv(a, b, payload, o, Apply(a, b, z, Regular(L.TakeFlow)))
  {
    hide OnFlow, Wire, L.GrantFrame, Unsent, Holding, Narrow, Opening;
    assert z.l.rx.phase.Idle? ==> z.l.toTx == [] by {
      IdleHasNoFlow(a, b, payload, o, z);
    }
    GrantIsFine(a, b, payload, z.l.tx);
  }

  lemma IdleHasNoFlow(a: Config, b: Config, payload: Bytes, o: L.Origin, z: Link)
    requires L.Peers(a, b, payload) && Inv(a, b, payload, o, z)
    ensures z.l.rx.phase.Idle? ==> z.l.toTx == []
  {
  }

  lemma OpeningTakeFrame(a: Config, b: Config, payload: Bytes, o: L.Origin, z: Link)
    requires L.Peers(a, b, payload) && Inv(a, b, payload, o, z) && z.l.rx.phase.Idle? && L.Enabled(z.l, L.TakeFrame)
    ensures Inv(a, b, payload, o, Apply(a, b, z, Regular(L.TakeFrame)))
  {
    hide OnFrame, Wire, Consecutive;
    if FitsSingleFrame(a, payload) {
      TakesSingle(a, b, z.l.rx, payload);
    } else {
      TakesFirst(a, b, z.l.rx, payload);
      var next := Apply(a, b, z, Regular(L.TakeFrame));
      var unsent := WireAll(a, Unsent(a, next.l.tx));
      assert next.l.toRx == [] && [] + unsent == unsent;
      assert next.l.toTx == [L.GrantFrame(b)];
    }
  }

  lemma StreamTakeFrame(a: Config, b: Config, payload: Bytes, o: L.Origin, z: Link)
    requires L.Peers(a, b, payload) && Inv(a, b, payload, o, z) && z.l.rx.phase.Collecting? && !z.lost
    requires L.Enabled(z.l, L.TakeFrame)
    ensures Inv(a, b, payload, o, Apply(a, b, z, Regular(L.TakeFrame)))
  {
    hide OnFrame, OnFlow, Emit, Wire, WireAll, Consecutive, AfterNext, Chunk, L.GrantFrame;
    hide ConsecutiveBody, Narrow, Opening, Deficient;
    var l := z.l;
    L.HeadIsNext(a, b, payload, l.rx, l.toRx, WireAll(a, Unsent(a, l.tx)));
    NextHolds(a, b, payload, l.rx);
    AnswersAreGrants(a, b, payload, l.rx);
    L.MoreToCome(a, payload, l.tx.index, l.tx.sequence);
    var index := |l.rx.buffer| + |Chunk(a, payload, |l.rx.buffer|)|;
    L.MoreToCome(a, payload, index, (l.rx.sequence + 1) % 16);
  }

  lemma AnswersAreGrants(a: Config, b: Config, payload: Bytes, r: Receiver)
    requires Roomy(a) && Holding(payload, r)
    ensures AllGrants(b, AfterNext(a, b, payload, r).1)
  {
  }

  lemma DeficientTakeFrame(a: Config, b: Config, payload: Bytes, o: L.Origin, z: Link)
    requires L.Peers(a, b, payload) && Inv(a, b, payload, o, z) && z.l.rx.phase.Collecting? && z.lost
    requires L.Enabled(z.l, L.TakeFrame)
    ensures Inv(a, b, payload, o, Apply(a, b, z, Regular(L.TakeFrame)))
  {
    hide OnFrame, Unsent, L.GrantFrame;
    var width, k := Capacity(a) - 1, |z.l.toRx| + |Unsent(a, z.l.tx)|;
    OneLess(k, width);
    NarrowTaken(b, z.l.rx, z.l.toRx[0], width);
    assert Narrow(b, Some(z.l.toRx[0]), width);
  }

  lemma OneLess(k: nat, width: nat)
    requires k > 0
    ensures k * width == (k - 1) * width + width && (k - 1) * width >= 0
  {
    NonNegativeProduct(k - 1, width);
  }

  /** A consecutive frame at a receiver that misses more than it holds. */
  lemma NarrowTaken(b: Config, r: Receiver, frame: Bytes, width: nat)
    requires r.phase.Collecting? && Narrow(b, Some(frame), width) && |r.buffer| + width < r.expected
    ensures var (next, replies) := OnFrame(b, r, Some(frame));
            && AllGrants(b, replies)
            && if next.phase.Collecting? then next.expected == r.expected && |next.buffer| <= |r.buffer| + width
               else next.phase.Broken? && next.phase.error.SequenceNumber?
  {
    var body := Strip(b, frame);
    assert OnFrame(b, r, Some(frame)) == OnConsecutive(b, CountHeard(r), body);
  }

  // ---------- losses and timeouts ----------

  lemma WithoutKeeps(b: Config, frames: seq<Bytes>, k: nat, width: nat)
    requires k < |frames|
    ensures AllGrants(b, frames) ==> AllGrants(b, Without(frames, k))
    ensures AllNarrow(b, frames, width) ==> AllNarrow(b, Without(frames, k), width)
    ensures |Without(frames, k)| == |frames| - 1
  {
    hide L.GrantFrame, Narrow;
    var fewer := Without(frames, k);
    forall i | 0 <= i < |fewer|
      ensures fewer[i] == frames[if i < k then i else i + 1]
    {
    }
  }

  lemma DropFrameKeeps(a: Config, b: Config, payload: Bytes, o: L.Origin, z: Link, k: nat)
    requires L.Peers(a, b, payload) && Inv(a, b, payload, o, z) && k < |z.l.toRx|
    ensures Inv(a, b, payload, o, Apply(a, b, z, DropFrame(k)))
  {
    hide Wire, Narrow, L.GrantFrame, Consecutive;
    var width, count := Capacity(a) - 1, |z.l.toRx| + |Unsent(a, z.l.tx)|;
    WithoutKeeps(b, z.l.toRx, k, width);
    OneLess(count, width);
    if z.l.rx.phase.Collecting? && !z.lost {
      StreamIsTight(a, b, payload, z);
    }
  }

  /** One frame less, and the payload cannot be completed. */
  lemma StreamIsTight(a: Config, b: Config, payload: Bytes, z: Link)
    requires L.Peers(a, b, payload) && SenderOk(a, z.l.tx) && InStream(a, payload, z) && z.l.toRx != []
    ensures AllNarrow(b, z.l.toRx, Capacity(a) - 1)
    ensures |z.l.rx.buffer| + (|z.l.toRx| + |Unsent(a, z.l.tx)| - 1) * (Capacity(a) - 1) < |payload|
  {
    hide Wire, Narrow, Consecutive;
    var rx, all := z.l.rx, WireAll(a, Consecutive(a, payload, |z.l.rx.buffer|, z.l.rx.sequence));
    ConsecutiveCount(a, payload, |rx.buffer|, rx.sequence);
    BodiesAreNarrow(a, b, payload, |rx.buffer|, rx.sequence);
    forall k | 0 <= k < |z.l.toRx|
      ensures z.l.toRx[k] == all[k]
    {
      assert (z.l.toRx + WireAll(a, Unsent(a, z.l.tx)))[k] == z.l.toRx[k];
    }
    assert |all| == |z.l.toRx| + |WireAll(a, Unsent(a, z.l.tx))|;
  }

  lemma OtherKeeps(a: Config, b: Config, payload: Bytes, o: L.Origin, z: Link, m: Move)
    requires L.Peers(a, b, payload) && Inv(a, b, payload, o, z) && Enabled(z, m)
    requires m.DropFlow? || m.TxTimeout? || m.RxTimeout?
    ensures Inv(a, b, payload, o, Apply(a, b, z, m))
  {
    hide Wire, Narrow, L.GrantFrame, Consecutive, Holding;
    if m.DropFlow? {
      WithoutKeeps(b, z.l.toTx, m.k, 0);
    }
  }

  // ---------- every run ----------

  /** As without losses; each side can also give up once. */
  function Measure(z: Link): nat
    requires z.l.tx.index <= |z.l.tx.payload|
  {
    L.Measure(z.l) + (if Done(z.l.tx) then 0 else 1) + if Listening(z.l.rx) then 1 else 0
  }

  lemma MeasureFalls(a: Config, b: Config, z: Link, m: Move)
    requires SenderOk(a, z.l.tx) && Enabled(z, m)
    ensures Measure(Apply(a, b, z, m)) < Measure(z)
  {
    hide OnFrame, Wire;
    match m
    case Regular(regular) =>
      L.MeasureFalls(a, b, z.l, regular);
    case DropFrame(k) =>
    case DropFlow(k) =>
    case TxTimeout =>
    case RxTimeout =>
      SilenceEnds(b, z.l.rx);
  }

  lemma SilenceEnds(b: Config, r: Receiver)
    requires Listening(r)
    ensures !Listening(OnFrame(b, r, None).0)
  {
  }

  lemma StepKeeps(a: Config, b: Config, payload: Bytes, o: L.Origin, z: Link, m: Move)
    requires L.Peers(a, b, payload) && Inv(a, b, payload, o, z) && Enabled(z, m)
    ensures Inv(a, b, payload, o, Apply(a, b, z, m))
    ensures Measure(Apply(a, b, z, m)) < Measure(z)
  {
    hide Measure, OnFrame, OnFlow, Emit, Wire, Opening, InStream, Deficient, AllGrants;
    MeasureFalls(a, b, z, m);
    match m
    case Regular(regular) =>
      if regular.Transmit? {
        TransmitKeeps(a, b, payload, o, z);
      } else if regular.TakeFlow? {
        TakeFlowKeeps(a, b, payload, o, z);
      } else if z.l.rx.phase.Idle? {
        OpeningTakeFrame(a, b, payload, o, z);
      } else if z.lost {
        DeficientTakeFrame(a, b, payload, o, z);
      } else {
        StreamTakeFrame(a, b, payload, o, z);
      }
    case DropFrame(k) => DropFrameKeeps(a, b, payload, o, z, k);
    case _ => OtherKeeps(a, b, payload, o, z, m);
  }

  predicate Drops(moves: seq<Move>) {
    exists i :: 0 <= i < |moves| && moves[i].DropFrame?
  }

  lemma {:induction false} RunKeeps(a: Config, b: Config, payload: Bytes, o: L.Origin, z: Link, moves: seq<Move>)
    requires L.Peers(a, b, payload) && Inv(a, b, payload, o, z) && Possible(a, b, z, moves)
    ensures var end := Exec(a, b, z, moves);
            && Inv(a, b, payload, o, end) && |moves| + Measure(end) <= Measure(z)
            && (end.lost <==> z.lost || Drops(moves))
    decreases |moves|
  {
    hide Measure, Opening, InStream, Deficient, AllGrants;
    if moves != [] {
      StepKeeps(a, b, payload, o, z, moves[0]);
      RunKeeps(a, b, payload, o, Apply(a, b, z, moves[0]), moves[1..]);
      DropsSplit(moves);
      LostGrows(a, b, z, moves[0]);
    }
  }

  lemma DropsSplit(moves: seq<Move>)
    requires moves != []
    ensures Drops(moves) <==> moves[0].DropFrame? || Drops(moves[1..])
  {
    if Drops(moves[1..]) {
      var i :| 0 <= i < |moves[1..]| && moves[1..][i].DropFrame?;
      assert moves[i + 1].DropFrame?;
    }
    if Drops(moves) && !moves[0].DropFrame? {
      var i :| 0 <= i < |moves| && moves[i].DropFrame?;
      assert moves[1..][i - 1].DropFrame?;
    }
  }

  lemma LostGrows(a: Config, b: Config, z: Link, m: Move)
    requires SenderOk(a, z.l.tx) && Enabled(z, m)
    ensures Apply(a, b, z, m).lost <==> z.lost || m.DropFrame?
  {
  }

  /**
   For every payload and every run with any losses and timeouts, from any idle pair: the run is finite and ends
   with both sides done; the receiver returns the payload or nothing; it returns it only if no frame to it was
   dropped and the sender has finished; and the only errors are the N_Bs timeout of the sender and the sequence
   error and the N_Cr timeout of the receiver.
   */
  lemma EveryLossyRun(a: Config, b: Config, payload: Bytes, o: L.Origin, moves: seq<Move>)
    requires L.Peers(a, b, payload) && Possible(a, b, Initial(payload, o), moves)
    ensures var end := Exec(a, b, Initial(payload, o), moves).l;
            && (end.rx.phase.Delivered? ==>
                  end.rx.phase.payload == payload && end.tx.phase.Finished? && !Drops(moves))
            && (end.tx.phase.Failed? ==> end.tx.phase.error == NBsTimeout)
            && (end.rx.phase.Broken? ==> end.rx.phase.error.SequenceNumber? || end.rx.phase.error.NCrTimeout?)
            && |moves| <= 3 * |payload| + 5
            && ((forall m :: !Enabled(Exec(a, b, Initial(payload, o), moves), m)) ==>
                  Done(end.tx) && !Listening(end.rx))
  {
    hide Opening, InStream, Deficient, AllGrants;
    var start := Initial(payload, o);
    Begins(a, b, payload, o);
    RunKeeps(a, b, payload, o, start, moves);
    var end := Exec(a, b, start, moves);
    if forall m :: !Enabled(end, m) {
      assert !Enabled(end, Regular(L.Transmit)) && !Enabled(end, TxTimeout) && !Enabled(end, RxTimeout);
    }
  }

  lemma Begins(a: Config, b: Config, payload: Bytes, o: L.Origin)
    requires L.Peers(a, b, payload)
    ensures Inv(a, b, payload, o, Initial(payload, o))
  {
  }
}
