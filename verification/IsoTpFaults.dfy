/**
 Reassembly behind a faulty channel. The first frame arrives, and then `picks` says which consecutive
 frames arrive, by their number from 0: losing, repeating and reordering frames are all choices of
 `picks`. After them the channel is silent.
 */
module IsoTpFaults {
  import opened Common
  import opened IsoTpFrames
  import opened IsoTpMachines
  import opened IsoTpReceiving

  /** A segmented payload between two peers. */
  predicate Segmented(a: Config, b: Config, payload: Bytes) {
    && Compatible(a, b) && Admissible(a)
    && 1 <= |payload| <= MAX_ESCAPE_PAYLOAD && !FitsSingleFrame(a, payload)
  }

  function ConsecutiveFrames(a: Config, payload: Bytes): (frames: seq<Bytes>)
    requires Roomy(a) && |payload| <= MAX_ESCAPE_PAYLOAD && !FitsSingleFrame(a, payload)
  {
    WireAll(a, Consecutive(a, payload, FirstLength(a, |payload|), 1))
  }

  predicate Picks(picks: seq<nat>, n: nat) {
    forall j :: 0 <= j < |picks| ==> picks[j] < n
  }

  function Picked(frames: seq<Bytes>, picks: seq<nat>): seq<Bytes>
    requires Picks(picks, |frames|)
  {
    seq(|picks|, j requires 0 <= j < |picks| => frames[picks[j]])
  }

  /** How a `receive` call ends that sees the first frame and the picked consecutive frames. */
  function Outcome(a: Config, b: Config, payload: Bytes, picks: seq<nat>): RxPhase
    requires Segmented(a, b, payload) && Picks(picks, |ConsecutiveFrames(a, payload)|)
  {
    var frames := [Wire(a, FirstBody(a, payload))] + Picked(ConsecutiveFrames(a, payload), picks);
    RunReceive(b, FRESH_RECEIVER, Arrivals(frames), []).receiver.phase
  }

  /** The two ways reassembly gives up. */
  predicate GivesUp(phase: RxPhase) {
    phase.Broken? && (phase.error.SequenceNumber? || phase.error.NCrTimeout?)
  }

  /** The receiver once it has taken the first frame. */
  function AfterFirst(a: Config, payload: Bytes): Receiver
    requires Roomy(a) && |payload| <= MAX_ESCAPE_PAYLOAD
  {
    Receiver(Collecting(0), payload[..FirstLength(a, |payload|)], |payload|, 1,
             CountFlowSent(CountHeard(FRESH_RECEIVER).statistics))
  }

  lemma OutcomeAfterFirst(a: Config, b: Config, payload: Bytes, picks: seq<nat>) returns (seen: seq<Event>)
    requires Segmented(a, b, payload) && Picks(picks, |ConsecutiveFrames(a, payload)|)
    ensures Holding(payload, AfterFirst(a, payload))
    ensures var frames := Picked(ConsecutiveFrames(a, payload), picks);
            Outcome(a, b, payload, picks) ==
            RunReceive(b, AfterFirst(a, payload), Arrivals(frames), seen).receiver.phase
  {
    TakesFirst(a, b, FRESH_RECEIVER, payload);
    var picked := Picked(ConsecutiveFrames(a, payload), picks);
    var frames := [Wire(a, FirstBody(a, payload))] + picked;
    assert frames[1..] == picked;
    ArrivalsSplit(frames, []);
    assert Arrivals(frames) + [] == Arrivals(frames) && Arrivals(picked) + [] == Arrivals(picked);
    var (next, replies) := OnFrame(b, FRESH_RECEIVER, Some(frames[0]));
    seen := [] + [Got(frames[0])] + SentEvents(replies);
  }

  // ---------- losses ----------

  /** A consecutive frame with at most `width` data bytes. */
  predicate Narrow(b: Config, got: Option<Bytes>, width: nat) {
    got.Some? &&
    var body := Strip(b, got.value);
    body != [] && FrameType(body) == CONSECUTIVE_FRAME && |body| - 1 <= width
  }

  /** Frames that together hold too little end in a gap or in silence. */
  lemma {:induction false} Starved(b: Config, r: Receiver, inbox: Inbox, trace: seq<Event>, width: nat)
    requires r.phase.Collecting? && forall k :: 0 <= k < |inbox| ==> Narrow(b, inbox[k], width)
    requires |r.buffer| + |inbox| * width < r.expected
    ensures GivesUp(RunReceive(b, r, inbox, trace).receiver.phase)
    decreases |inbox|
  {
    if inbox != [] {
      var (next, replies) := OnFrame(b, r, Head(inbox));
      assert Narrow(b, inbox[0], width);
      assert |inbox| * width == |inbox[1..]| * width + width;
      if next.phase.Collecting? {
        Starved(b, next, inbox[1..], trace + [Observed(Head(inbox))] + SentEvents(replies), width);
      }
    }
  }

  lemma FramesAreNarrow(a: Config, b: Config, payload: Bytes, k: nat)
    requires Segmented(a, b, payload) && k < |ConsecutiveFrames(a, payload)|
    ensures Narrow(b, Some(ConsecutiveFrames(a, payload)[k]), Capacity(a) - 1)
  {
    var first := FirstLength(a, |payload|);
    SegmentedIsLonger(a, payload);
    ConsecutiveAt(a, payload, first, 1, k);
    var body := Consecutive(a, payload, first, 1)[k];
    StripWire(a, b, body);
    TailFits(a, |body|);
  }

  lemma PickedAreNarrow(a: Config, b: Config, payload: Bytes, picks: seq<nat>)
    requires Segmented(a, b, payload) && Picks(picks, |ConsecutiveFrames(a, payload)|)
    ensures var inbox := Arrivals(Picked(ConsecutiveFrames(a, payload), picks));
            forall k :: 0 <= k < |inbox| ==> Narrow(b, inbox[k], Capacity(a) - 1)
  {
    var frames := ConsecutiveFrames(a, payload);
    var inbox := Arrivals(Picked(frames, picks));
    forall k | 0 <= k < |inbox| ensures Narrow(b, inbox[k], Capacity(a) - 1) {
      FramesAreNarrow(a, b, payload, picks[k]);
      assert inbox[k] == Some(Picked(frames, picks)[k]);
    }
  }

  /** All frames but one cannot fill the message. */
  lemma OneShort(a: Config, payload: Bytes, m: nat)
    requires Roomy(a) && |payload| <= MAX_ESCAPE_PAYLOAD && !FitsSingleFrame(a, payload)
    requires m < |ConsecutiveFrames(a, payload)|
    ensures FirstLength(a, |payload|) + m * (Capacity(a) - 1) < |payload|
  {
    var first, n := FirstLength(a, |payload|), |ConsecutiveFrames(a, payload)|;
    ConsecutiveCount(a, payload, first, 1);
    StartOfMonotone(a, first, m, n - 1);
  }

  /** Fewer arrivals than consecutive frames never complete a message, whichever they are. */
  lemma TooFewArrivals(a: Config, b: Config, payload: Bytes, picks: seq<nat>)
    requires Segmented(a, b, payload) && Picks(picks, |ConsecutiveFrames(a, payload)|)
    requires |picks| < |ConsecutiveFrames(a, payload)|
    ensures GivesUp(Outcome(a, b, payload, picks))
  {
    hide RunReceive, Outcome, Narrow, Consecutive;
    var seen := OutcomeAfterFirst(a, b, payload, picks);
    OneShort(a, payload, |picks|);
    PickedAreNarrow(a, b, payload, picks);
    Starved(b, AfterFirst(a, payload), Arrivals(Picked(ConsecutiveFrames(a, payload), picks)), seen, Capacity(a) - 1);
  }

  /** Only losses: what arrives arrives once and in order. */
  predicate OnlyLosses(picks: seq<nat>) {
    forall i, j :: 0 <= i < j < |picks| ==> picks[i] < picks[j]
  }

  lemma {:induction false} IncreasingFills(picks: seq<nat>, n: nat, j: nat)
    requires OnlyLosses(picks) && Picks(picks, n) && j < |picks|
    ensures j <= picks[j] <= n - (|picks| - j)
    decreases |picks| - j
  {
    if j + 1 < |picks| {
      IncreasingFills(picks, n, j + 1);
    }
    AtLeastPosition(picks, j);
  }

  lemma {:induction false} AtLeastPosition(picks: seq<nat>, j: nat)
    requires OnlyLosses(picks) && j < |picks|
    ensures j <= picks[j]
  {
    if j > 0 {
      AtLeastPosition(picks, j - 1);
    }
  }

  /**
   Whatever consecutive frames are lost, the payload is returned exactly when none is; otherwise
   reassembly ends with a sequence number error or with the N_Cr timeout.
   */
  lemma LossIsDetected(a: Config, b: Config, payload: Bytes, picks: seq<nat>)
    requires Segmented(a, b, payload) && Picks(picks, |ConsecutiveFrames(a, payload)|) && OnlyLosses(picks)
    ensures Outcome(a, b, payload, picks) == Delivered(payload) <==> |picks| == |ConsecutiveFrames(a, payload)|
    ensures |picks| < |ConsecutiveFrames(a, payload)| ==> GivesUp(Outcome(a, b, payload, picks))
    ensures |picks| <= |ConsecutiveFrames(a, payload)|
  {
    var n := |ConsecutiveFrames(a, payload)|;
    if |picks| > 0 {
      IncreasingFills(picks, n, 0);
    }
    if |picks| < n {
      TooFewArrivals(a, b, payload, picks);
    } else {
      forall j | 0 <= j < n ensures picks[j] == j {
        IncreasingFills(picks, n, j);
      }
      BoundedDisplacement(a, b, payload, picks);
    }
  }

  // ---------- any losses, repetitions and reordering ----------

  /** A payload that is cut into a first frame and consecutive frames. */
  predicate IsCut(a: Config, payload: Bytes) {
    Roomy(a) && |payload| <= MAX_ESCAPE_PAYLOAD && !FitsSingleFrame(a, payload)
  }

  /** Where consecutive frame `k` starts. */
  function Start(a: Config, total: nat, k: nat): (start: nat)
    requires Roomy(a) && total <= MAX_ESCAPE_PAYLOAD
    ensures start == StartOf(a, FirstLength(a, total), k)
  {
    NonNegativeProduct(k, Capacity(a) - 1);
    StartOf(a, FirstLength(a, total), k)
  }

  /** What consecutive frame `k` adds to the buffer: its chunk and the padding behind it. */
  function Data(a: Config, payload: Bytes, k: nat): Bytes
    requires IsCut(a, payload) && k < |ConsecutiveFrames(a, payload)|
  {
    var body := Strip(a, ConsecutiveFrames(a, payload)[k]);
    if body == [] then [] else body[1..]
  }

  /**
   What becomes of the arrivals from position `j` on once `held` is in the buffer: the first number that is not
   congruent to its position breaks the reassembly off, everything before it is appended.
   */
  function Reassembled(a: Config, payload: Bytes, picks: seq<nat>, j: nat, held: Bytes): RxPhase
    requires IsCut(a, payload) && Picks(picks, |ConsecutiveFrames(a, payload)|) && j <= |picks|
    decreases |picks| - j
  {
    if |held| >= |payload| then Delivered(held[..|payload|])
    else if j == |picks| then Broken(NCrTimeout)
    else if picks[j] % 16 != j % 16 then Broken(SequenceNumber((1 + j) % 16, (1 + picks[j]) % 16))
    else Reassembled(a, payload, picks, j + 1, held + Data(a, payload, picks[j]))
  }

  /** The receiver in the middle of a message, behind `j` consecutive frames of any content. */
  predicate Filling(payload: Bytes, j: nat, r: Receiver) {
    r.phase.Collecting? && r.expected == |payload| && |r.buffer| < |payload| && r.sequence == (1 + j) % 16
  }

  lemma NumbersAgree(j: nat, k: nat)
    ensures (1 + k) % 16 == (1 + j) % 16 <==> k % 16 == j % 16
    ensures ((1 + j) % 16 + 1) % 16 == (1 + (j + 1)) % 16
  {
    NextNumber(j);
    NextNumber(k);
    NextNumber(1 + j);
  }

  lemma NextNumber(j: nat)
    ensures (1 + j) % 16 == if j % 16 == 15 then 0 else j % 16 + 1
  {
    var q, r := j / 16, j % 16;
    if r == 15 {
      UniqueQuotient(1 + j, 16, q + 1, 0);
    } else {
      UniqueQuotient(1 + j, 16, q, r + 1);
    }
  }

  /** Any of the frames at a receiver in the middle of the message. */
  lemma AnyFrame(a: Config, b: Config, payload: Bytes, j: nat, k: nat, r: Receiver)
    requires Segmented(a, b, payload) && k < |ConsecutiveFrames(a, payload)| && Filling(payload, j, r)
    ensures var next := OnFrame(b, r, Some(ConsecutiveFrames(a, payload)[k])).0;
            var held := r.buffer + Data(a, payload, k);
            if k % 16 != j % 16 then next.phase == Broken(SequenceNumber((1 + j) % 16, (1 + k) % 16))
            else if |held| >= |payload| then next.phase == Delivered(held[..|payload|])
            else Filling(payload, j + 1, next) && next.buffer == held
  {
    hide ConsecutiveFrames;
    FrameNumbered(a, b, payload, k);
    NumbersAgree(j, k);
    var frame := ConsecutiveFrames(a, payload)[k];
    assert Strip(a, frame) == Strip(b, frame);
    assert OnFrame(b, r, Some(frame)) == OnConsecutive(b, CountHeard(r), Strip(b, frame));
  }

  lemma {:induction false} ReassembledFrom(a: Config, b: Config, payload: Bytes, picks: seq<nat>, j: nat, r: Receiver,
                                           trace: seq<Event>)
    requires Segmented(a, b, payload) && Picks(picks, |ConsecutiveFrames(a, payload)|)
    requires j <= |picks| && Filling(payload, j, r)
    ensures RunReceive(b, r, Arrivals(Picked(ConsecutiveFrames(a, payload), picks[j..])), trace).receiver.phase ==
            Reassembled(a, payload, picks, j, r.buffer)
    decreases |picks| - j
  {
    hide OnFrame, RunReceive, ConsecutiveFrames, Data;
    var frames := ConsecutiveFrames(a, payload);
    if j < |picks| {
      var due, late := frames[picks[j]], Picked(frames, picks[j + 1..]);
      assert Picked(frames, picks[j..]) == [due] + late;
      RunStep(b, r, due, late, [], trace);
      assert Arrivals([due] + late) + [] == Arrivals([due] + late) && Arrivals(late) + [] == Arrivals(late);
      AnyFrame(a, b, payload, j, picks[j], r);
      var (next, replies) := OnFrame(b, r, Some(due));
      var seen := trace + [Got(due)] + SentEvents(replies);
      RunEnds(b, next, Arrivals(late), seen);
      if next.phase.Collecting? {
        ReassembledFrom(a, b, payload, picks, j + 1, next, seen);
      } else if picks[j] % 16 == j % 16 {
        assert Reassembled(a, payload, picks, j, r.buffer) ==
               Reassembled(a, payload, picks, j + 1, r.buffer + Data(a, payload, picks[j]));
      }
    } else {
      assert Arrivals(Picked(frames, picks[j..])) == [];
      RunEnds(b, r, [], trace);
    }
  }

  /** Whatever arrives in whatever order, this is how the reassembly ends. */
  lemma OutcomeIsReassembled(a: Config, b: Config, payload: Bytes, picks: seq<nat>)
    requires Segmented(a, b, payload) && Picks(picks, |ConsecutiveFrames(a, payload)|)
    ensures FirstLength(a, |payload|) < |payload|
    ensures Outcome(a, b, payload, picks) == Reassembled(a, payload, picks, 0, payload[..FirstLength(a, |payload|)])
  {
    hide RunReceive, Outcome, ConsecutiveFrames, Reassembled;
    SegmentedIsLonger(a, payload);
    var seen := OutcomeAfterFirst(a, b, payload, picks);
    assert picks[0..] == picks;
    ReassembledFrom(a, b, payload, picks, 0, AfterFirst(a, payload), seen);
  }

  // ---------- arrivals without a false friend ----------

  /** No arrival has the number that is due without being the frame that is due. */
  predicate AliasFree(picks: seq<nat>) {
    forall j :: 0 <= j < |picks| && picks[j] % 16 == j % 16 ==> picks[j] == j
  }

  /** The arrivals begin with all the consecutive frames in order. */
  predicate BeginsComplete(picks: seq<nat>, n: nat) {
    n <= |picks| && forall j :: 0 <= j < n ==> picks[j] == j
  }

  /** The frame that is due brings the buffer to the next boundary, or completes the payload. */
  lemma DueData(a: Config, payload: Bytes, j: nat, here: nat, next: nat)
    requires Admissible(a) && IsCut(a, payload)
    requires here == Start(a, |payload|, j) < |payload| && next == Start(a, |payload|, j + 1)
    ensures j < |ConsecutiveFrames(a, payload)|
    ensures var held := payload[..here] + Data(a, payload, j);
            if j + 1 < |ConsecutiveFrames(a, payload)| then next < |payload| && held == payload[..next]
            else |held| >= |payload| && held[..|payload|] == payload
  {
    hide Data, Tail, Start;
    var chunk := DueChunk(a, payload, j, here, next);
    DataIsChunk(a, payload, j, here);
    TailFits(a, 1 + |chunk|);
    ExtendsBuffer(payload, here, here + |chunk|, Tail(a, 1 + |chunk|));
  }

  lemma DueChunk(a: Config, payload: Bytes, j: nat, here: nat, next: nat) returns (chunk: Bytes)
    requires IsCut(a, payload)
    requires here == Start(a, |payload|, j) < |payload| && next == Start(a, |payload|, j + 1)
    ensures j < |ConsecutiveFrames(a, payload)| && chunk == Chunk(a, payload, here)
    ensures if j + 1 < |ConsecutiveFrames(a, payload)| then
              1 + |chunk| == Capacity(a) && here + |chunk| == next < |payload|
            else here + |chunk| == |payload|
  {
    var first := FirstLength(a, |payload|);
    DueFrame(a, payload, j);
    StartOfStep(a, first, j + 1);
    chunk := Chunk(a, payload, here);
    if j + 1 < |ConsecutiveFrames(a, payload)| {
      ConsecutiveAt(a, payload, first, 1, j + 1);
    }
  }

  lemma DataIsChunk(a: Config, payload: Bytes, k: nat, start: nat)
    requires IsCut(a, payload) && k < |ConsecutiveFrames(a, payload)| && start == Start(a, |payload|, k)
    ensures start < |payload|
    ensures Data(a, payload, k) == Chunk(a, payload, start) + Tail(a, 1 + |Chunk(a, payload, start)|)
  {
    hide Chunk, Tail, Start, ConsecutiveFrames, Wire, Strip;
    var body := BodyAt(a, payload, k, start);
    StripWire(a, a, body);
    FirstOff(body, Tail(a, |body|));
  }

  lemma FirstOff(body: Bytes, tail: Bytes)
    requires body != []
    ensures body + tail != [] && (body + tail)[1..] == body[1..] + tail
  {
  }

  lemma BodyAt(a: Config, payload: Bytes, k: nat, start: nat) returns (body: Bytes)
    requires IsCut(a, payload) && k < |ConsecutiveFrames(a, payload)| && start == Start(a, |payload|, k)
    ensures start < |payload| && ConsecutiveFrames(a, payload)[k] == Wire(a, body)
    ensures body != [] && body[1..] == Chunk(a, payload, start)
  {
    hide Chunk, Wire;
    var first := FirstLength(a, |payload|);
    SegmentedIsLonger(a, payload);
    ConsecutiveAt(a, payload, first, 1, k);
    body := Consecutive(a, payload, first, 1)[k];
  }

  lemma {:induction false} AliasFreeFrom(a: Config, payload: Bytes, picks: seq<nat>, j: nat, held: Bytes)
    requires Admissible(a) && IsCut(a, payload)
    requires Picks(picks, |ConsecutiveFrames(a, payload)|) && AliasFree(picks)
    requires j <= |picks| && Start(a, |payload|, j) < |payload| && held == payload[..Start(a, |payload|, j)]
    requires forall i :: 0 <= i < j ==> picks[i] == i
    ensures var phase := Reassembled(a, payload, picks, j, held);
            if BeginsComplete(picks, |ConsecutiveFrames(a, payload)|) then phase == Delivered(payload)
            else GivesUp(phase)
    decreases |picks| - j
  {
    hide ConsecutiveFrames, Data, Start;
    DueData(a, payload, j, Start(a, |payload|, j), Start(a, |payload|, j + 1));
    if j < |picks| && picks[j] == j && j + 1 < |ConsecutiveFrames(a, payload)| {
      AliasFreeFrom(a, payload, picks, j + 1, held + Data(a, payload, j));
    }
  }

  /**
   Under any losses, repetitions and reordering in which no arrival has the number of the frame that is due
   without being that frame, a returned payload is the one sent, and it is returned exactly when the arrivals
   begin with the whole message in order.
   */
  lemma AliasFreeIsSafe(a: Config, b: Config, payload: Bytes, picks: seq<nat>)
    requires Segmented(a, b, payload) && Picks(picks, |ConsecutiveFrames(a, payload)|) && AliasFree(picks)
    ensures var phase := Outcome(a, b, payload, picks);
            if BeginsComplete(picks, |ConsecutiveFrames(a, payload)|) then phase == Delivered(payload)
            else GivesUp(phase)
  {
    hide Outcome, Reassembled, ConsecutiveFrames;
    OutcomeIsReassembled(a, b, payload, picks);
    AliasFreeFrom(a, payload, picks, 0, payload[..FirstLength(a, |payload|)]);
  }

  // ---------- exactly which arrivals are safe ----------

  /** How many bytes consecutive frame `k` of a payload of `total` bytes adds. */
  function DataLength(a: Config, total: nat, k: nat): nat
    requires Roomy(a) && total <= MAX_ESCAPE_PAYLOAD
  {
    var start := Start(a, total, k);
    var chunk := if start < total then Min(Capacity(a) - 1, total - start) else 0;
    chunk + |Tail(a, 1 + chunk)|
  }

  /** How many arrivals are taken until `total` bytes are held, if they ever are. It takes only numbers and lengths. */
  function Completes(a: Config, total: nat, picks: seq<nat>, j: nat, held: nat): (taken: Option<nat>)
    requires Roomy(a) && total <= MAX_ESCAPE_PAYLOAD && j <= |picks|
    ensures taken.Some? ==> j <= taken.value <= |picks|
    decreases |picks| - j
  {
    if held >= total then Some(j)
    else if j == |picks| || picks[j] % 16 != j % 16 then None
    else Completes(a, total, picks, j + 1, held + DataLength(a, total, picks[j]))
  }

  lemma DataHasLength(a: Config, payload: Bytes, k: nat)
    requires IsCut(a, payload) && k < |ConsecutiveFrames(a, payload)|
    ensures |Data(a, payload, k)| == DataLength(a, |payload|, k) > 0
    ensures Start(a, |payload|, k) < |payload| && Data(a, payload, k)[0] == payload[Start(a, |payload|, k)]
  {
    hide Data, Start, Tail, ConsecutiveFrames;
    DataIsChunk(a, payload, k, Start(a, |payload|, k));
  }

  lemma {:induction false} CompletesDelivers(a: Config, payload: Bytes, picks: seq<nat>, j: nat, held: Bytes)
    requires IsCut(a, payload) && Picks(picks, |ConsecutiveFrames(a, payload)|) && j <= |picks|
    ensures Reassembled(a, payload, picks, j, held).Delivered? <==>
            Completes(a, |payload|, picks, j, |held|).Some?
    decreases |picks| - j
  {
    hide ConsecutiveFrames, Data, DataLength;
    if j < |picks| {
      DataHasLength(a, payload, picks[j]);
      CompletesDelivers(a, payload, picks, j + 1, held + Data(a, payload, picks[j]));
    }
  }

  /** What is in the buffer stays in what is delivered. */
  lemma {:induction false} HeldStays(a: Config, payload: Bytes, picks: seq<nat>, j: nat, held: Bytes, i: nat)
    requires IsCut(a, payload) && Picks(picks, |ConsecutiveFrames(a, payload)|) && j <= |picks|
    requires i < |held| && i < |payload|
    ensures var phase := Reassembled(a, payload, picks, j, held);
            phase.Delivered? ==> |phase.payload| == |payload| && phase.payload[i] == held[i]
    decreases |picks| - j
  {
    hide ConsecutiveFrames, Data;
    if j < |picks| {
      HeldStays(a, payload, picks, j + 1, held + Data(a, payload, picks[j]), i);
    }
  }

  /** As long as the due frames arrive, the buffer is a prefix of the payload. */
  lemma {:induction false} DueFramesTaken(a: Config, payload: Bytes, picks: seq<nat>, j: nat)
    requires Admissible(a) && IsCut(a, payload) && Picks(picks, |ConsecutiveFrames(a, payload)|)
    requires j <= |picks| && Start(a, |payload|, j) < |payload| && forall i :: 0 <= i < j ==> picks[i] == i
    ensures var first := FirstLength(a, |payload|);
            && first <= |payload|
            && Reassembled(a, payload, picks, 0, payload[..first]) ==
               Reassembled(a, payload, picks, j, payload[..Start(a, |payload|, j)])
            && Completes(a, |payload|, picks, 0, first) == Completes(a, |payload|, picks, j, Start(a, |payload|, j))
    decreases j
  {
    hide ConsecutiveFrames, Data, DataLength;
    if j > 0 {
      StartGrows(a, |payload|, j - 1, j);
      hide Start;
      var here, next := Start(a, |payload|, j - 1), Start(a, |payload|, j);
      DueData(a, payload, j - 1, here, next);
      DueChunkIsNotLast(a, payload, j - 1);
      DataHasLength(a, payload, j - 1);
      DueFramesTaken(a, payload, picks, j - 1);
    } else {
      assert Start(a, |payload|, 0) == FirstLength(a, |payload|);
    }
  }

  lemma DueChunkIsNotLast(a: Config, payload: Bytes, j: nat)
    requires IsCut(a, payload) && Start(a, |payload|, j + 1) < |payload|
    ensures j + 1 < |ConsecutiveFrames(a, payload)|
  {
    DueFrame(a, payload, j + 1);
  }

  lemma StartGrows(a: Config, total: nat, i: nat, j: nat)
    requires Roomy(a) && total <= MAX_ESCAPE_PAYLOAD && i < j
    ensures Start(a, total, i) < Start(a, total, j)
  {
    var width := Capacity(a) - 1;
    assert j * width == i * width + (j - i) * width;
    ProductAtLeast(j - i, width);
  }

  lemma ProductAtLeast(x: nat, y: nat)
    requires x > 0
    ensures x * y >= y
  {
    assert x * y == (x - 1) * y + y;
    NonNegativeProduct(x - 1, y);
  }

  /** Every arrival that is taken is the due one. */
  predicate Exact(a: Config, total: nat, picks: seq<nat>)
    requires Roomy(a) && total <= MAX_ESCAPE_PAYLOAD
  {
    var taken := Completes(a, total, picks, 0, FirstLength(a, total));
    taken.Some? ==> forall j :: 0 <= j < taken.value ==> picks[j] == j
  }

  /** What is returned, if anything, is what was sent. */
  predicate Faithful(a: Config, b: Config, payload: Bytes, picks: seq<nat>)
    requires Segmented(a, b, payload) && Picks(picks, |ConsecutiveFrames(a, payload)|)
  {
    var phase := Outcome(a, b, payload, picks);
    phase.Delivered? ==> phase.payload == payload
  }

  lemma {:induction false} ExactDelivers(a: Config, payload: Bytes, picks: seq<nat>, j: nat)
    requires Admissible(a) && IsCut(a, payload) && Picks(picks, |ConsecutiveFrames(a, payload)|) && j <= |picks|
    requires Start(a, |payload|, j) < |payload|
    requires var taken := Completes(a, |payload|, picks, j, Start(a, |payload|, j));
             taken.Some? && forall i :: 0 <= i < taken.value ==> picks[i] == i
    ensures Reassembled(a, payload, picks, j, payload[..Start(a, |payload|, j)]) == Delivered(payload)
    decreases |picks| - j
  {
    hide ConsecutiveFrames, Data, DataLength, Start;
    var here, next := Start(a, |payload|, j), Start(a, |payload|, j + 1);
    DueData(a, payload, j, here, next);
    DataHasLength(a, payload, j);
    if j + 1 < |ConsecutiveFrames(a, payload)| {
      ExactDelivers(a, payload, picks, j + 1);
    }
  }

  lemma ExactIsFaithful(a: Config, b: Config, payload: Bytes, picks: seq<nat>)
    requires Segmented(a, b, payload) && Picks(picks, |ConsecutiveFrames(a, payload)|) && Exact(a, |payload|, picks)
    ensures Faithful(a, b, payload, picks)
  {
    hide ConsecutiveFrames, Outcome, Reassembled, Completes;
    var first := FirstLength(a, |payload|);
    OutcomeIsReassembled(a, b, payload, picks);
    CompletesDelivers(a, payload, picks, 0, payload[..first]);
    assert Start(a, |payload|, 0) == first;
    if Completes(a, |payload|, picks, 0, first).Some? {
      ExactDelivers(a, payload, picks, 0);
    }
  }

  /** A false friend at position `j` puts the first byte of another frame where frame `j` starts. */
  lemma FalseFriendShows(a: Config, b: Config, payload: Bytes, picks: seq<nat>, j: nat)
    requires Segmented(a, b, payload) && Picks(picks, |ConsecutiveFrames(a, payload)|)
    requires var taken := Completes(a, |payload|, picks, 0, FirstLength(a, |payload|));
             taken.Some? && j < taken.value
    requires forall i :: 0 <= i < j ==> picks[i] == i
    ensures var here, there := Start(a, |payload|, j), Start(a, |payload|, picks[j]);
            && here < |payload| && there < |payload|
            && var phase := Outcome(a, b, payload, picks);
               phase.Delivered? && |phase.payload| == |payload| && phase.payload[here] == payload[there]
  {
    hide ConsecutiveFrames, Outcome, Data, DataLength, Start;
    OutcomeIsReassembled(a, b, payload, picks);
    CompletesDelivers(a, payload, picks, 0, payload[..FirstLength(a, |payload|)]);
    StillMissing(a, payload, picks, j);
    DueFramesTaken(a, payload, picks, j);
    var here := Start(a, |payload|, j);
    var held := payload[..here] + Data(a, payload, picks[j]);
    DataHasLength(a, payload, picks[j]);
    assert held[here] == Data(a, payload, picks[j])[0];
    HeldStays(a, payload, picks, j + 1, held, here);
  }

  lemma {:induction false} StillMissing(a: Config, payload: Bytes, picks: seq<nat>, j: nat)
    requires Admissible(a) && IsCut(a, payload) && Picks(picks, |ConsecutiveFrames(a, payload)|)
    requires var taken := Completes(a, |payload|, picks, 0, FirstLength(a, |payload|));
             taken.Some? && j < taken.value
    requires forall i :: 0 <= i < j ==> picks[i] == i
    ensures Start(a, |payload|, j) < |payload|
    decreases j
  {
    hide ConsecutiveFrames, DataLength;
    if j > 0 {
      StillMissing(a, payload, picks, j - 1);
      DueFramesTaken(a, payload, picks, j - 1);
      var here, next := Start(a, |payload|, j - 1), Start(a, |payload|, j);
      DueData(a, payload, j - 1, here, next);
      DataHasLength(a, payload, j - 1);
    } else {
      SegmentedIsLonger(a, payload);
    }
  }

  /** Cutting depends on the length alone. */
  lemma {:induction false} SameLengthSameCount(a: Config, p: Bytes, q: Bytes, index: nat, sequence: nat)
    requires Roomy(a) && |p| == |q| && index <= |p| && sequence < 16
    ensures |Consecutive(a, p, index, sequence)| == |Consecutive(a, q, index, sequence)|
    decreases |p| - index
  {
    if index < |p| {
      SameLengthSameCount(a, p, q, index + |Chunk(a, p, index)|, (sequence + 1) % 16);
    }
  }

  lemma SameLengthSameCut(a: Config, b: Config, p: Bytes, q: Bytes)
    requires Segmented(a, b, p) && |p| == |q|
    ensures Segmented(a, b, q) && |ConsecutiveFrames(a, q)| == |ConsecutiveFrames(a, p)|
  {
    SameLengthSameCount(a, p, q, FirstLength(a, |p|), 1);
  }

  /** Zero but for one byte. */
  function Marked(total: nat, at: nat): (payload: Bytes)
    ensures |payload| == total
  {
    seq(total, i => if i == at then 1 else 0)
  }

  /**
   Exactly which arrivals are safe, whatever is in the payload: those that never complete a message, and those
   of which every one that is taken is the due frame. Otherwise some payload of this length is returned
   corrupted.
   */
  lemma SafeArrivals(a: Config, b: Config, sample: Bytes, picks: seq<nat>)
    requires Segmented(a, b, sample) && Picks(picks, |ConsecutiveFrames(a, sample)|)
    ensures forall payload: Bytes :: |payload| == |sample| ==>
              Segmented(a, b, payload) && |ConsecutiveFrames(a, payload)| == |ConsecutiveFrames(a, sample)|
    ensures (forall payload: Bytes :: |payload| == |sample| ==> Faithful(a, b, payload, picks))
            <==> Exact(a, |sample|, picks)
  {
    hide ConsecutiveFrames, Faithful, Completes, Start;
    forall payload: Bytes | |payload| == |sample|
      ensures Segmented(a, b, payload) && |ConsecutiveFrames(a, payload)| == |ConsecutiveFrames(a, sample)|
    {
      SameLengthSameCut(a, b, sample, payload);
    }
    if Exact(a, |sample|, picks) {
      forall payload: Bytes | |payload| == |sample|
        ensures Faithful(a, b, payload, picks)
      {
        ExactIsFaithful(a, b, payload, picks);
      }
    } else {
      var payload := UnfaithfulPayload(a, b, sample, picks);
      assert !Faithful(a, b, payload, picks);
    }
  }

  lemma UnfaithfulPayload(a: Config, b: Config, sample: Bytes, picks: seq<nat>) returns (payload: Bytes)
    requires Segmented(a, b, sample) && Picks(picks, |ConsecutiveFrames(a, sample)|) && !Exact(a, |sample|, picks)
    ensures |payload| == |sample| && Segmented(a, b, payload)
    ensures Picks(picks, |ConsecutiveFrames(a, payload)|) && !Faithful(a, b, payload, picks)
  {
    hide ConsecutiveFrames, Outcome, Completes, Start;
    var taken := Completes(a, |sample|, picks, 0, FirstLength(a, |sample|)).value;
    var j := FirstWrong(picks, taken);
    payload := Marked(|sample|, Start(a, |sample|, picks[j]));
    SameLengthSameCut(a, b, sample, payload);
    FalseFriendShows(a, b, payload, picks, j);
    if picks[j] < j {
      StartGrows(a, |sample|, picks[j], j);
    } else {
      StartGrows(a, |sample|, j, picks[j]);
    }
  }

  lemma {:induction false} FirstWrong(picks: seq<nat>, taken: nat) returns (j: nat)
    requires taken <= |picks| && exists i :: 0 <= i < taken && picks[i] != i
    ensures j < taken && picks[j] != j && forall i :: 0 <= i < j ==> picks[i] == i
    decreases taken
  {
    if exists i :: 0 <= i < taken - 1 && picks[i] != i {
      j := FirstWrong(picks, taken - 1);
    } else {
      j := taken - 1;
    }
  }

  // ---------- arrivals within a window ----------

  /** Every arrival is at most `w` places away from the one that is due. */
  predicate Displaced(picks: seq<nat>, w: nat) {
    forall j :: 0 <= j < |picks| ==> picks[j] <= j + w && j <= picks[j] + w
  }

  lemma NearNumbersDiffer(j: int, k: int)
    requires k != j && -15 <= k - j <= 15
    ensures k % 16 != j % 16
  {
  }

  /** Within fifteen places there is no false friend. */
  lemma BoundedDisplacement(a: Config, b: Config, payload: Bytes, picks: seq<nat>)
    requires Segmented(a, b, payload) && Picks(picks, |ConsecutiveFrames(a, payload)|) && Displaced(picks, 15)
    ensures var phase := Outcome(a, b, payload, picks);
            if BeginsComplete(picks, |ConsecutiveFrames(a, payload)|) then phase == Delivered(payload)
            else GivesUp(phase)
  {
    hide Outcome, ConsecutiveFrames;
    forall j | 0 <= j < |picks| && picks[j] % 16 == j % 16
      ensures picks[j] == j
    {
      if picks[j] != j {
        NearNumbersDiffer(j, picks[j]);
      }
    }
    AliasFreeIsSafe(a, b, payload, picks);
  }

  /** While bytes are missing there is a frame `j`, and it is full unless it is the last. */
  lemma DueFrame(a: Config, payload: Bytes, j: nat)
    requires Roomy(a) && |payload| <= MAX_ESCAPE_PAYLOAD && !FitsSingleFrame(a, payload)
    requires StartOf(a, FirstLength(a, |payload|), j) < |payload|
    ensures var first := FirstLength(a, |payload|);
            var n := |Consecutive(a, payload, first, 1)|;
            && first <= StartOf(a, first, j) && j < n
            && Consecutive(a, payload, first, 1)[j] == ConsecutiveBody(a, payload, StartOf(a, first, j), (1 + j) % 16)
            && (j + 1 < n ==> |Chunk(a, payload, StartOf(a, first, j))| == Capacity(a) - 1)
            && (j + 1 == n ==> |Chunk(a, payload, StartOf(a, first, j))| == |payload| - StartOf(a, first, j))
  {
    var first := FirstLength(a, |payload|);
    var n := |Consecutive(a, payload, first, 1)|;
    ConsecutiveCount(a, payload, first, 1);
    if j >= n {
      StartOfMonotone(a, first, n, j);
    } else {
      ConsecutiveAt(a, payload, first, 1, j);
      StartOfStep(a, first, j + 1);
      if j + 1 < n {
        ConsecutiveAt(a, payload, first, 1, j + 1);
      }
    }
  }

  lemma StartOfMonotone(a: Config, index: nat, i: nat, j: nat)
    requires Roomy(a) && i <= j
    ensures StartOf(a, index, i) <= StartOf(a, index, j)
  {
    assert j * (Capacity(a) - 1) == i * (Capacity(a) - 1) + (j - i) * (Capacity(a) - 1);
    NonNegativeProduct(j - i, Capacity(a) - 1);
  }

  lemma NonNegativeProduct(x: nat, y: nat)
    ensures x * y >= 0
  {
  }

  lemma FrameNumbered(a: Config, b: Config, payload: Bytes, k: nat)
    requires Segmented(a, b, payload) && k < |ConsecutiveFrames(a, payload)|
    ensures var body := Strip(b, ConsecutiveFrames(a, payload)[k]);
            body != [] && FrameType(body) == CONSECUTIVE_FRAME && body[0] % 16 == (1 + k) % 16
  {
    var first := FirstLength(a, |payload|);
    SegmentedIsLonger(a, payload);
    ConsecutiveAt(a, payload, first, 1, k);
    StripWire(a, b, Consecutive(a, payload, first, 1)[k]);
  }

  // ---------- sixteen places are too many ----------

  /** Equal suffixes are cut into equal frames. */
  lemma {:induction false} SameSuffixSameFrames(a: Config, p: Bytes, q: Bytes, index: nat, sequence: nat)
    requires Roomy(a) && |p| == |q| && index <= |p| && sequence < 16 && p[index..] == q[index..]
    ensures Consecutive(a, p, index, sequence) == Consecutive(a, q, index, sequence)
    decreases |p| - index
  {
    if index < |p| {
      var next := index + |Chunk(a, p, index)|;
      assert p[index..next] == p[index..][..next - index] && q[index..next] == q[index..][..next - index];
      assert p[next..] == p[index..][next - index..] && q[next..] == q[index..][next - index..];
      SameSuffixSameFrames(a, p, q, next, (sequence + 1) % 16);
    }
  }

  /** `payload` with its first chunk replaced by its seventeenth. */
  function Corrupted(a: Config, payload: Bytes): Bytes
    requires Roomy(a) && |payload| <= MAX_ESCAPE_PAYLOAD
    requires FirstLength(a, |payload|) + 17 * (Capacity(a) - 1) <= |payload|
  {
    Replaced(payload, FirstLength(a, |payload|), Capacity(a) - 1)
  }

  function Replaced(payload: Bytes, first: nat, width: nat): Bytes
    requires first + 17 * width <= |payload|
  {
    payload[..first] + payload[first + 16 * width..first + 17 * width] + payload[first + width..]
  }

  lemma ReplacedSlices(payload: Bytes, first: nat, width: nat)
    requires 0 < width && first + 17 * width <= |payload|
    ensures var q := Replaced(payload, first, width);
            && |q| == |payload| && q[..first] == payload[..first]
            && q[first..first + width] == payload[first + 16 * width..first + 16 * width + width]
            && q[first + width..] == payload[first + width..]
  {
  }

  lemma SeventeenthFrame(a: Config, payload: Bytes)
    requires Roomy(a) && |payload| <= MAX_ESCAPE_PAYLOAD && !FitsSingleFrame(a, payload)
    requires |ConsecutiveFrames(a, payload)| >= 18
    ensures var first, width := FirstLength(a, |payload|), Capacity(a) - 1;
            && first + 17 * width < |payload|
            && Consecutive(a, payload, first, 1)[16] == ConsecutiveBody(a, payload, first + 16 * width, 1)
  {
    hide Consecutive, FirstLength, ConsecutiveBody;
    var first := FirstLength(a, |payload|);
    SegmentedIsLonger(a, payload);
    ConsecutiveAt(a, payload, first, 1, 17);
    ConsecutiveAt(a, payload, first, 1, 16);
  }

  /** The corrupted payload is cut like the original, except that its first frame is the seventeenth. */
  lemma CorruptedFrames(a: Config, payload: Bytes)
    requires Roomy(a) && |payload| <= MAX_ESCAPE_PAYLOAD && !FitsSingleFrame(a, payload)
    requires |ConsecutiveFrames(a, payload)| >= 18
    ensures FirstLength(a, |payload|) + 17 * (Capacity(a) - 1) <= |payload|
    ensures |Corrupted(a, payload)| == |payload|
    ensures Corrupted(a, payload)[..FirstLength(a, |payload|)] == payload[..FirstLength(a, |payload|)]
    ensures var bodies := Consecutive(a, payload, FirstLength(a, |payload|), 1);
            Consecutive(a, Corrupted(a, payload), FirstLength(a, |payload|), 1) == [bodies[16]] + bodies[1..]
  {
    hide Consecutive, FirstLength, FitsSingleFrame;
    SeventeenthFrame(a, payload);
    ReplacedIsCut(a, payload, FirstLength(a, |payload|));
  }

  lemma ReplacedIsCut(a: Config, p: Bytes, first: nat)
    requires Roomy(a) && first + 17 * (Capacity(a) - 1) <= |p|
    ensures var q := Replaced(p, first, Capacity(a) - 1);
            && |q| == |p| && q[..first] == p[..first]
            && Consecutive(a, q, first, 1) ==
               [ConsecutiveBody(a, p, first + 16 * (Capacity(a) - 1), 1)] + Consecutive(a, p, first, 1)[1..]
  {
    ReplacedSlices(p, first, Capacity(a) - 1);
    FirstOfCorrupted(a, p, Replaced(p, first, Capacity(a) - 1), first, first + 16 * (Capacity(a) - 1));
  }

  lemma FirstOfCorrupted(a: Config, p: Bytes, q: Bytes, first: nat, far: nat)
    requires Roomy(a) && |p| == |q| && first + Capacity(a) - 1 <= |p| && far + Capacity(a) - 1 <= |p|
    requires q[first..first + Capacity(a) - 1] == p[far..far + Capacity(a) - 1]
    requires q[first + Capacity(a) - 1..] == p[first + Capacity(a) - 1..]
    ensures Consecutive(a, q, first, 1) ==
            [ConsecutiveBody(a, p, far, 1)] + Consecutive(a, p, first, 1)[1..]
  {
    hide Consecutive, ConsecutiveBody;
    var next := first + Capacity(a) - 1;
    SameSuffixSameFrames(a, p, q, next, 2);
    SameChunk(a, p, q, first, far);
    FullChunkFirst(a, p, first);
    FullChunkFirst(a, q, first);
  }

  lemma SameChunk(a: Config, p: Bytes, q: Bytes, first: nat, far: nat)
    requires Roomy(a) && |p| == |q| && first + Capacity(a) - 1 <= |p| && far + Capacity(a) - 1 <= |p|
    requires q[first..first + Capacity(a) - 1] == p[far..far + Capacity(a) - 1]
    ensures ConsecutiveBody(a, q, first, 1) == ConsecutiveBody(a, p, far, 1)
  {
  }

  lemma FullChunkFirst(a: Config, p: Bytes, first: nat)
    requires Roomy(a) && first + Capacity(a) - 1 <= |p|
    ensures Consecutive(a, p, first, 1) ==
            [ConsecutiveBody(a, p, first, 1)] + Consecutive(a, p, first + Capacity(a) - 1, 2)
  {
  }

  /**
   The seventeenth consecutive frame in place of the first is accepted, and the payload is returned with the one
   chunk in the place of the other: corrupted, unless the two are equal.
   */
  lemma SixteenPlacesCorrupt(a: Config, b: Config, payload: Bytes, picks: seq<nat>)
    requires Segmented(a, b, payload) && |ConsecutiveFrames(a, payload)| >= 18
    requires |picks| == |ConsecutiveFrames(a, payload)|
    requires forall j :: 0 <= j < |picks| ==> picks[j] == if j == 0 then 16 else j
    ensures FirstLength(a, |payload|) + 17 * (Capacity(a) - 1) <= |payload|
    ensures Outcome(a, b, payload, picks) == Delivered(Corrupted(a, payload))
    ensures Corrupted(a, payload) == payload <==> ChunksEqual(payload, FirstLength(a, |payload|), Capacity(a) - 1)
  {
    hide ConsecutiveFrames, Outcome, Replaced, ChunksEqual, FirstLength, Capacity;
    SixteenPlacesOutcome(a, b, payload, picks);
    ReplacedDiffers(payload, FirstLength(a, |payload|), Capacity(a) - 1);
  }

  lemma SixteenPlacesOutcome(a: Config, b: Config, payload: Bytes, picks: seq<nat>)
    requires Segmented(a, b, payload) && |ConsecutiveFrames(a, payload)| >= 18
    requires |picks| == |ConsecutiveFrames(a, payload)|
    requires forall j :: 0 <= j < |picks| ==> picks[j] == if j == 0 then 16 else j
    ensures FirstLength(a, |payload|) + 17 * (Capacity(a) - 1) <= |payload|
    ensures Outcome(a, b, payload, picks) == Delivered(Corrupted(a, payload))
  {
    hide Outcome, RunReceive, Corrupted, Wire;
    CorruptedFrames(a, payload);
    PickedSeventeenth(a, payload, picks);
    var q := Corrupted(a, payload);
    var picked := Picked(ConsecutiveFrames(a, payload), picks);
    assert Arrivals(picked) + [] == Arrivals(picked);
    var seen := OutcomeAfterFirst(a, b, payload, picks);
    ReceivesRest(a, b, AfterFirst(a, payload), q, [], seen);
  }

  lemma PickedSeventeenth(a: Config, payload: Bytes, picks: seq<nat>)
    requires IsCut(a, payload) && |ConsecutiveFrames(a, payload)| >= 18
    requires |picks| == |ConsecutiveFrames(a, payload)|
    requires forall j :: 0 <= j < |picks| ==> picks[j] == if j == 0 then 16 else j
    ensures var bodies := Consecutive(a, payload, FirstLength(a, |payload|), 1);
            Picked(ConsecutiveFrames(a, payload), picks) == WireAll(a, [bodies[16]] + bodies[1..])
  {
    hide Wire, Consecutive;
  }

  /** The first and the seventeenth of the chunks of `width` bytes behind `first`. */
  predicate ChunksEqual(payload: Bytes, first: nat, width: nat)
    requires first + 17 * width <= |payload|
  {
    payload[first..first + width] == payload[first + 16 * width..first + 17 * width]
  }

  lemma ReplacedDiffers(payload: Bytes, first: nat, width: nat)
    requires first + 17 * width <= |payload|
    ensures Replaced(payload, first, width) == payload <==> ChunksEqual(payload, first, width)
  {
    var chunk, far := payload[first..first + width], payload[first + 16 * width..first + 17 * width];
    assert payload == payload[..first] + chunk + payload[first + width..];
    assert Replaced(payload, first, width)[first..first + width] == far;
  }

  // ---------- the window is exact ----------

  predicate InWindow(a: Config, b: Config, payload: Bytes, picks: seq<nat>, w: nat) {
    Segmented(a, b, payload) && Picks(picks, |ConsecutiveFrames(a, payload)|) && Displaced(picks, w)
  }

  /** Eighteen consecutive frames, with a mark at the start of the seventeenth. */
  lemma MarkedPayload(a: Config, b: Config) returns (payload: Bytes)
    requires Compatible(a, b) && Admissible(a)
    ensures Segmented(a, b, payload) && |ConsecutiveFrames(a, payload)| >= 18
    ensures var first, width := FirstLength(a, |payload|), Capacity(a) - 1;
            && first + 17 * width <= |payload|
            && payload[first] == 0 && payload[first + 16 * width] == 1
  {
    var first, width := Capacity(a) - 2, Capacity(a) - 1;
    payload := Marked(first + 17 * width + 1, first + 16 * width);
    ConsecutiveCount(a, payload, first, 1);
    var n := |Consecutive(a, payload, first, 1)|;
    if n <= 17 {
      StartOfMonotone(a, first, n, 17);
    }
  }

  lemma WindowBreaks(a: Config, b: Config) returns (payload: Bytes, picks: seq<nat>)
    requires Compatible(a, b) && Admissible(a)
    ensures InWindow(a, b, payload, picks, 16) && !Faithful(a, b, payload, picks)
  {
    hide ConsecutiveFrames, Outcome, Corrupted, Consecutive, Wire, Picks, Displaced, ChunksEqual, FirstLength;
    payload := MarkedPayload(a, b);
    picks := SixteenForZero(|ConsecutiveFrames(a, payload)|);
    SixteenPlacesCorrupt(a, b, payload, picks);
    MarkShows(payload, FirstLength(a, |payload|), Capacity(a) - 1);
  }

  /** All frames in order, but the seventeenth in place of the first. */
  lemma SixteenForZero(n: nat) returns (picks: seq<nat>)
    requires n >= 18
    ensures |picks| == n && Picks(picks, n) && Displaced(picks, 16)
    ensures forall j :: 0 <= j < n ==> picks[j] == if j == 0 then 16 else j
  {
    picks := seq(n, j => if j == 0 then 16 else j);
  }

  lemma MarkShows(payload: Bytes, first: nat, width: nat)
    requires width > 0 && first + 17 * width <= |payload|
    requires payload[first] == 0 && payload[first + 16 * width] == 1
    ensures !ChunksEqual(payload, first, width)
  {
    assert payload[first..first + width][0] == 0;
    assert payload[first + 16 * width..first + 17 * width][0] == 1;
  }

  /**
   The receiver never returns a payload other than the one sent, however frames are lost, repeated and
   reordered within `w` places, if and only if `w` is at most fifteen.
   */
  lemma WindowIsExact(a: Config, b: Config, w: nat)
    requires Compatible(a, b) && Admissible(a)
    ensures (forall payload: Bytes, picks: seq<nat> ::
               InWindow(a, b, payload, picks, w) ==> Faithful(a, b, payload, picks))
            <==> w <= 15
  {
    hide ConsecutiveFrames, Outcome;
    if w <= 15 {
      forall payload: Bytes, picks: seq<nat> | InWindow(a, b, payload, picks, w)
        ensures Faithful(a, b, payload, picks)
      {
        BoundedDisplacement(a, b, payload, picks);
      }
    } else {
      var payload, picks := WindowBreaks(a, b);
      assert InWindow(a, b, payload, picks, w);
    }
  }
}
