/** What `send` promises against an arbitrary peer: any inbound stream, any mixture of frames in it. */
module IsoTpSending {
  import opened Common
  import opened IsoTpFrames
  import opened IsoTpMachines

  // ---------- the frames transmitted ----------

  function SentFrames(trace: seq<Event>): seq<Bytes> {
    if trace == [] then []
    else
      var last := trace[|trace| - 1];
      SentFrames(trace[..|trace| - 1]) + if last.Sent? then [last.frame] else []
  }

  lemma SentFramesSnoc(trace: seq<Event>, e: Event)
    ensures SentFrames(trace + [e]) == SentFrames(trace) + if e.Sent? then [e.frame] else []
  {
    assert (trace + [e])[..|trace|] == trace;
  }

  /** The bodies a sender still has to transmit. */
  function Remaining(c: Config, s: Sender): seq<Bytes>
    requires SenderOk(c, s)
  {
    match s.phase
    case Start => Frames(c, s.payload)
    case Finished => []
    case _ => Consecutive(c, s.payload, s.index, s.sequence)
  }

  lemma EmitsNext(c: Config, s: Sender)
    requires SenderOk(c, s) && CanEmit(s)
    ensures Remaining(c, s) == [NextBody(c, s)] + Remaining(c, Emit(c, s))
  {
    var next := Emit(c, s);
    if s.phase.Ready? {
      assert Remaining(c, next) == Consecutive(c, s.payload, next.index, next.sequence);
    } else if !FitsSingleFrame(c, s.payload) {
      SegmentedIsLonger(c, s.payload);
      assert Frames(c, s.payload) == [FirstBody(c, s.payload)] + Consecutive(c, s.payload, next.index, 1);
    }
  }

  lemma AppendShift(front: seq<Bytes>, frame: Bytes, back: seq<Bytes>)
    ensures (front + [frame]) + back == front + ([frame] + back)
  {
  }

  lemma TurnKeepsFrames(c: Config, s: Sender, inbox: Inbox, trace: seq<Event>)
    requires SenderOk(c, s) && !Done(s)
    ensures var (next, _, e) := Turn(c, s, inbox);
            SentFrames(trace + [e]) + WireAll(c, Remaining(c, next)) == SentFrames(trace) + WireAll(c, Remaining(c, s))
  {
    var (next, _, e) := Turn(c, s, inbox);
    SentFramesSnoc(trace, e);
    if CanEmit(s) {
      EmitsNext(c, s);
      WireAllCons(c, NextBody(c, s), Remaining(c, next));
      AppendShift(SentFrames(trace), e.frame, WireAll(c, Remaining(c, next)));
    } else {
      assert Remaining(c, next) == Remaining(c, s);
      assert SentFrames(trace) + [] == SentFrames(trace);
    }
  }

  /** What was sent followed by what remains never changes; only a finished run leaves nothing. */
  lemma {:induction false} SentPlusRemaining(c: Config, s: Sender, inbox: Inbox, trace: seq<Event>)
    requires SenderOk(c, s)
    ensures var run := RunSend(c, s, inbox, trace);
            && SenderOk(c, run.sender) && run.sender.payload == s.payload && Done(run.sender)
            && SentFrames(run.trace) + WireAll(c, Remaining(c, run.sender)) ==
               SentFrames(trace) + WireAll(c, Remaining(c, s))
    decreases Rank(s) + |inbox|, s.phase.AwaitFlow?
  {
    if !Done(s) {
      var (next, rest, e) := Turn(c, s, inbox);
      TurnKeepsFrames(c, s, inbox, trace);
      SentPlusRemaining(c, next, rest, trace + [e]);
    }
  }

  /**
   Whatever the peer does, the frames transmitted are the first ones of the segmentation, and they are
   all of them exactly when the transfer finishes.
   */
  lemma SendTransmitsFrames(c: Config, payload: Bytes, negotiated: nat, st: Statistics, inbox: Inbox)
    requires RoomFor(c, |payload|) && 1 <= |payload| <= MAX_ESCAPE_PAYLOAD
    ensures var run := RunSend(c, StartSending(payload, negotiated, st), inbox, []);
            && SentFrames(run.trace) <= WireAll(c, Frames(c, payload))
            && (run.sender.phase.Finished? <==> SentFrames(run.trace) == WireAll(c, Frames(c, payload)))
  {
    var run := RunSend(c, StartSending(payload, negotiated, st), inbox, []);
    SentPlusRemaining(c, StartSending(payload, negotiated, st), inbox, []);
    assert WireAll(c, Frames(c, payload)) == SentFrames(run.trace) + WireAll(c, Remaining(c, run.sender));
    if run.sender.phase.Failed? {
      assert Remaining(c, run.sender) != [];
    }
  }

  /** Below the escape length a finished transfer transmits what the preview shows. */
  lemma SendRefinesPreview(c: Config, payload: Bytes, negotiated: nat, st: Statistics, inbox: Inbox)
    requires RoomFor(c, |payload|) && 1 <= |payload| <= MAX_ESCAPE_PAYLOAD
    ensures var run := RunSend(c, StartSending(payload, negotiated, st), inbox, []);
            run.sender.phase.Finished? && |payload| <= MAX_CLASSIC_PAYLOAD ==>
              Preview(c, payload).Some? && SentFrames(run.trace) == WireAll(c, Preview(c, payload).value)
  {
    SendTransmitsFrames(c, payload, negotiated, st, inbox);
    PreviewIsExact(c, payload);
  }

  function Join(chunks: seq<Bytes>): Bytes {
    if chunks == [] then [] else chunks[0] + Join(chunks[1..])
  }

  function DataOf(bodies: seq<Bytes>): seq<Bytes>
    requires forall k :: 0 <= k < |bodies| ==> bodies[k] != []
  {
    seq(|bodies|, k requires 0 <= k < |bodies| => bodies[k][1..])
  }

  /** The consecutive frames carry the payload in order, and frame `k` carries number `k` modulo 16. */
  lemma {:induction false} ConsecutiveCarriesPayload(c: Config, payload: Bytes, index: nat, sequence: nat)
    requires Usable(c) && index <= |payload| && sequence < 16
    ensures var bodies := Consecutive(c, payload, index, sequence);
            && (forall k :: 0 <= k < |bodies| ==>
                  bodies[k] != [] && bodies[k][0] == CONSECUTIVE_FRAME * 16 + (sequence + k) % 16)
            && Join(DataOf(bodies)) == payload[index..]
    decreases |payload| - index
  {
    hide ConsecutiveBody;
    BodiesNumbered(c, payload, index, sequence);
    if index < |payload| {
      var next := index + |Chunk(c, payload, index)|;
      ConsecutiveCarriesPayload(c, payload, next, (sequence + 1) % 16);
      var tail := Consecutive(c, payload, next, (sequence + 1) % 16);
      BodiesNumbered(c, payload, next, (sequence + 1) % 16);
      assert forall k :: 0 <= k < |tail| ==> tail[k] != [];
      BodyCarries(c, payload, index, sequence);
      JoinsOne(ConsecutiveBody(c, payload, index, sequence), tail);
    }
  }

  lemma JoinsOne(body: Bytes, tail: seq<Bytes>)
    requires body != [] && forall k :: 0 <= k < |tail| ==> tail[k] != []
    ensures Join(DataOf([body] + tail)) == body[1..] + Join(DataOf(tail))
  {
    assert DataOf([body] + tail) == [body[1..]] + DataOf(tail);
    assert ([body[1..]] + DataOf(tail))[1..] == DataOf(tail);
  }

  lemma BodyCarries(c: Config, payload: Bytes, index: nat, sequence: nat)
    requires Usable(c) && index < |payload| && sequence < 16
    ensures var next := index + |Chunk(c, payload, index)|;
            && next <= |payload| && ConsecutiveBody(c, payload, index, sequence) != []
            && ConsecutiveBody(c, payload, index, sequence)[1..] + payload[next..] == payload[index..]
  {
  }

  lemma BodiesNumbered(c: Config, payload: Bytes, index: nat, sequence: nat)
    requires Usable(c) && index <= |payload| && sequence < 16
    ensures var bodies := Consecutive(c, payload, index, sequence);
            forall k :: 0 <= k < |bodies| ==>
              bodies[k] != [] && bodies[k][0] == CONSECUTIVE_FRAME * 16 + (sequence + k) % 16
  {
    hide Consecutive, Chunk, StartOf;
    var bodies := Consecutive(c, payload, index, sequence);
    forall k | 0 <= k < |bodies|
      ensures bodies[k] != [] && bodies[k][0] == CONSECUTIVE_FRAME * 16 + (sequence + k) % 16
    {
      ConsecutiveAt(c, payload, index, sequence, k);
    }
  }

  // ---------- block discipline ----------

  predicate IsGrant(c: Config, e: Event) {
    e.Got? && IsFlowControl(c, e.frame) && Strip(c, e.frame)[0] % 16 == CONTINUE_TO_SEND
  }

  function GrantSize(c: Config, e: Event): nat
    requires IsGrant(c, e)
  {
    var body := Strip(c, e.frame);
    if |body| > 1 then body[1] else 0
  }

  /** The block size of the last continue-to-send that was consumed. */
  function LastGrant(c: Config, trace: seq<Event>): Option<nat> {
    if trace == [] then None
    else
      var last := trace[|trace| - 1];
      if IsGrant(c, last) then Some(GrantSize(c, last)) else LastGrant(c, trace[..|trace| - 1])
  }

  /** Frames transmitted since then, or since the beginning. */
  function SentSince(c: Config, trace: seq<Event>): nat {
    if trace == [] then 0
    else
      var last := trace[|trace| - 1];
      if IsGrant(c, last) then 0
      else SentSince(c, trace[..|trace| - 1]) + if last.Sent? then 1 else 0
  }

  lemma GrantSnoc(c: Config, trace: seq<Event>, e: Event)
    ensures LastGrant(c, trace + [e]) == if IsGrant(c, e) then Some(GrantSize(c, e)) else LastGrant(c, trace)
    ensures SentSince(c, trace + [e]) ==
            if IsGrant(c, e) then 0 else SentSince(c, trace) + if e.Sent? then 1 else 0
  {
    assert (trace + [e])[..|trace|] == trace;
  }

  /** Before the first grant one frame may be out; a grant of `b` frames allows `b`; zero is no limit. */
  predicate WithinGrant(c: Config, trace: seq<Event>) {
    match LastGrant(c, trace)
    case None => SentSince(c, trace) <= 1
    case Some(b) => b == 0 || SentSince(c, trace) <= b
  }

  /** The grant is used up exactly. */
  predicate GrantUsedUp(c: Config, trace: seq<Event>) {
    match LastGrant(c, trace)
    case None => SentSince(c, trace) == 1
    case Some(b) => b > 0 && SentSince(c, trace) == b
  }

  /** Every prefix stays within its grant, and the bus is read only when the grant is used up. */
  predicate Disciplined(c: Config, trace: seq<Event>) {
    && (forall n :: 0 <= n <= |trace| ==> WithinGrant(c, trace[..n]))
    && (forall n :: 0 <= n < |trace| && !trace[n].Sent? ==> GrantUsedUp(c, trace[..n]))
  }

  lemma DisciplinedSnoc(c: Config, trace: seq<Event>, e: Event)
    requires Disciplined(c, trace) && WithinGrant(c, trace + [e])
    requires !e.Sent? ==> GrantUsedUp(c, trace)
    ensures Disciplined(c, trace + [e])
  {
    var longer := trace + [e];
    assert longer[..|longer|] == longer;
    forall n | 0 <= n <= |trace| ensures longer[..n] == trace[..n] {
    }
    assert trace[..|trace|] == trace;
  }

  predicate InStep(c: Config, s: Sender, trace: seq<Event>) {
    match s.phase
    case Start => LastGrant(c, trace) == None && SentSince(c, trace) == 0
    case AwaitFlow(_) => GrantUsedUp(c, trace)
    case Ready =>
      && LastGrant(c, trace) == Some(s.negotiated)
      && (if s.negotiated == 0 then s.blockRemaining == 0
          else s.blockRemaining > 0 && s.blockRemaining + SentSince(c, trace) == s.negotiated)
    case _ => true
  }

  lemma TurnInStep(c: Config, s: Sender, inbox: Inbox, trace: seq<Event>)
    requires SenderOk(c, s) && !Done(s) && InStep(c, s, trace)
    ensures var (next, _, e) := Turn(c, s, inbox);
            && InStep(c, next, trace + [e]) && WithinGrant(c, trace + [e])
            && (!e.Sent? ==> GrantUsedUp(c, trace))
  {
    hide Wire, NextBody, Chunk, LastGrant, SentSince;
    var (_, _, e) := Turn(c, s, inbox);
    GrantSnoc(c, trace, e);
  }

  lemma {:induction false} RunIsDisciplined(c: Config, s: Sender, inbox: Inbox, trace: seq<Event>)
    requires SenderOk(c, s) && InStep(c, s, trace) && Disciplined(c, trace)
    ensures Disciplined(c, RunSend(c, s, inbox, trace).trace)
    decreases Rank(s) + |inbox|, s.phase.AwaitFlow?
  {
    if !Done(s) {
      var (next, rest, e) := Turn(c, s, inbox);
      TurnInStep(c, s, inbox, trace);
      DisciplinedSnoc(c, trace, e);
      RunIsDisciplined(c, next, rest, trace + [e]);
    }
  }

  /** After a grant of `b > 0` frames exactly `b` are sent before the bus is read again. */
  lemma SenderDiscipline(c: Config, payload: Bytes, negotiated: nat, st: Statistics, inbox: Inbox)
    requires RoomFor(c, |payload|) && 1 <= |payload| <= MAX_ESCAPE_PAYLOAD
    ensures Disciplined(c, RunSend(c, StartSending(payload, negotiated, st), inbox, []).trace)
  {
    RunIsDisciplined(c, StartSending(payload, negotiated, st), inbox, []);
  }

  // ---------- wait frames ----------

  predicate IsWait(c: Config, got: Option<Bytes>) {
    got.Some? && IsFlowControl(c, got.value) && Strip(c, got.value)[0] % 16 == WAIT
  }

  /** WAIT frames and frames that are not flow control at all. */
  predicate Stalling(c: Config, frames: Inbox) {
    forall k :: 0 <= k < |frames| ==>
      IsWait(c, frames[k]) || (frames[k].Some? && !IsFlowControl(c, frames[k].value))
  }

  function CountWaits(c: Config, frames: Inbox): nat {
    if frames == [] then 0 else (if IsWait(c, frames[0]) then 1 else 0) + CountWaits(c, frames[1..])
  }

  lemma StallStep(c: Config, s: Sender, frames: Inbox, rest: Inbox, trace: seq<Event>)
    requires SenderOk(c, s) && s.phase.AwaitFlow? && s.phase.waits <= c.waitFrameLimit
    requires frames != [] && Stalling(c, frames)
    ensures var next := OnFlow(c, s, frames[0]);
            var waits := s.phase.waits + if IsWait(c, frames[0]) then 1 else 0;
            && next == s.(phase := next.phase, statistics := next.statistics)
            && next.phase == (if waits > c.waitFrameLimit then Failed(TooManyWaits) else AwaitFlow(waits))
            && RunSend(c, s, frames + rest, trace) ==
               RunSend(c, next, frames[1..] + rest, trace + [Observed(frames[0])])
            && (next.phase.Failed? ==> RunSend(c, s, frames + rest, trace).sender == next)
  {
    assert Rest(frames + rest) == frames[1..] + rest;
    assert IsWait(c, frames[0]) || !IsFlowControl(c, frames[0].value);
  }

  /** A stalling peer either exceeds the limit, which ends the transfer, or only makes the sender wait. */
  lemma {:induction false} Stalled(c: Config, s: Sender, frames: Inbox, rest: Inbox, trace: seq<Event>)
    returns (t: Sender, seen: seq<Event>)
    requires SenderOk(c, s) && s.phase.AwaitFlow? && s.phase.waits <= c.waitFrameLimit && Stalling(c, frames)
    ensures t == s.(phase := t.phase, statistics := t.statistics)
    ensures if s.phase.waits + CountWaits(c, frames) <= c.waitFrameLimit
            then t.phase == AwaitFlow(s.phase.waits + CountWaits(c, frames)) && (forall e <- seen :: !e.Sent?) &&
                 RunSend(c, s, frames + rest, trace) == RunSend(c, t, rest, trace + seen)
            else t.phase == Failed(TooManyWaits) && RunSend(c, s, frames + rest, trace).sender == t
    decreases |frames|
  {
    hide OnFlow, RunSend, IsWait;
    if frames == [] {
      assert frames + rest == rest && trace + [] == trace;
      t, seen := s, [];
    } else {
      var e := Observed(frames[0]);
      var next := OnFlow(c, s, frames[0]);
      StallStep(c, s, frames, rest, trace);
      if next.phase.Failed? {
        t, seen := next, [];
      } else {
        t, seen := Stalled(c, next, frames[1..], rest, trace + [e]);
        assert trace + [e] + seen == trace + ([e] + seen);
        seen := [e] + seen;
      }
    }
  }

  /**
   One boundary tolerates exactly `wait_frame_limit` WAIT frames: with the continue-to-send behind them
   the transfer gets past the boundary if and only if there were not more.
   */
  lemma WaitLimit(c: Config, s: Sender, frames: Inbox, grant: Bytes, rest: Inbox, trace: seq<Event>)
    requires SenderOk(c, s) && s.phase == AwaitFlow(0) && Stalling(c, frames) && IsGrant(c, Got(grant))
    ensures var run := RunSend(c, s, frames + ([Some(grant)] + rest), trace);
            && (s.index < run.sender.index <==> CountWaits(c, frames) <= c.waitFrameLimit)
            && (CountWaits(c, frames) > c.waitFrameLimit ==> run.sender.phase == Failed(TooManyWaits))
  {
    hide Stalling, CountWaits;
    var t, seen := Stalled(c, s, frames, [Some(grant)] + rest, trace);
    if t.phase.AwaitFlow? {
      var inbox := [Some(grant)] + rest;
      var ready := OnFlow(c, t, Head(inbox));
      assert Rest(inbox) == rest && ready.phase.Ready?;
      var next := Emit(c, ready);
      IndexGrows(c, next, rest, trace + seen + [Got(grant)] + [Sent(Wire(c, NextBody(c, ready)))]);
    }
  }

  /** Every boundary has the whole limit to itself: waiting starts with no WAIT frame counted. */
  lemma BoundaryStartsFresh(c: Config, s: Sender, inbox: Inbox)
    requires SenderOk(c, s) && CanEmit(s)
    ensures var next := Turn(c, s, inbox).0; next.phase.AwaitFlow? ==> next.phase == AwaitFlow(0)
  {
  }

  /** The flow statuses on the bus. */
  lemma FlowControlBytes(c: Config, got: Option<Bytes>)
    ensures var body: Bytes := if got.None? then [] else Strip(c, got.value);
            && (got.Some? && IsFlowControl(c, got.value) <==> body != [] && 0x30 <= body[0] <= 0x3F)
            && (got.Some? && IsGrant(c, Got(got.value)) <==> body != [] && body[0] == 0x30)
            && (IsWait(c, got) <==> body != [] && body[0] == 0x31)
  {
  }

  /**
   A flow status that is neither continue nor wait ends the transfer at once, behind whatever waiting the limit
   permits: 0x32 with the error for an overflow, any other with the one for an invalid status. Nothing more is
   transmitted and nothing more is read.
   */
  lemma RefusalEnds(c: Config, s: Sender, frames: Inbox, refusal: Bytes, rest: Inbox, trace: seq<Event>)
    returns (seen: seq<Event>)
    requires SenderOk(c, s) && s.phase == AwaitFlow(0) && Stalling(c, frames)
    requires CountWaits(c, frames) <= c.waitFrameLimit
    requires Strip(c, refusal) != [] && 0x32 <= Strip(c, refusal)[0] <= 0x3F
    ensures var status := Strip(c, refusal)[0] - 0x30;
            var run := RunSend(c, s, frames + ([Some(refusal)] + rest), trace);
            && run.sender.phase == Failed(if status == 2 then PeerOverflow else InvalidFlowStatus(status))
            && run.rest == rest && run.trace == trace + seen && (forall e <- seen :: !e.Sent?)
  {
    hide Stalling, CountWaits, RunSend, Strip;
    var t, before := Stalled(c, s, frames, [Some(refusal)] + rest, trace);
    RefusedAtOnce(c, t, refusal, rest, trace + before);
    seen := before + [Got(refusal)];
    assert trace + before + [Got(refusal)] == trace + seen;
  }

  lemma RefusedAtOnce(c: Config, s: Sender, refusal: Bytes, rest: Inbox, trace: seq<Event>)
    requires SenderOk(c, s) && s.phase.AwaitFlow?
    requires Strip(c, refusal) != [] && 0x32 <= Strip(c, refusal)[0] <= 0x3F
    ensures var status := Strip(c, refusal)[0] - 0x30;
            var run := RunSend(c, s, [Some(refusal)] + rest, trace);
            && run.sender.phase == Failed(if status == 2 then PeerOverflow else InvalidFlowStatus(status))
            && run.rest == rest && run.trace == trace + [Got(refusal)]
  {
    var inbox := [Some(refusal)] + rest;
    var next := OnFlow(c, s, Head(inbox));
    assert Rest(inbox) == rest && next.phase.Failed?;
    assert RunSend(c, s, inbox, trace) == RunSend(c, next, rest, trace + [Got(refusal)]);
  }

  lemma {:induction false} IndexGrows(c: Config, s: Sender, inbox: Inbox, trace: seq<Event>)
    requires SenderOk(c, s)
    ensures s.index <= RunSend(c, s, inbox, trace).sender.index
    decreases Rank(s) + |inbox|, s.phase.AwaitFlow?
  {
    if !Done(s) {
      var (next, rest, e) := Turn(c, s, inbox);
      IndexGrows(c, next, rest, trace + [e]);
    }
  }

  // ---------- independence of earlier transfers ----------

  lemma StaleTurn(c: Config, s: Sender, stale: nat, inbox: Inbox)
    requires SenderOk(c, s) && (s.phase.Start? || s.phase.AwaitFlow?)
    ensures var (next, rest, e) := Turn(c, s, inbox);
            var other := Turn(c, s.(negotiated := stale), inbox);
            && other.1 == rest && other.2 == e
            && (other.0 == next || other.0 == next.(negotiated := stale))
            && (next.phase.AwaitFlow? ==> other.0 == next.(negotiated := stale))
            && (next.phase.Ready? ==> other.0 == next) && !next.phase.Start?
  {
  }

  /** A block size left over from an earlier transfer changes nothing that can be observed. */
  lemma {:induction false} StaleBlockSize(c: Config, s: Sender, stale: nat, inbox: Inbox, trace: seq<Event>)
    requires SenderOk(c, s) && (s.phase.Start? || s.phase.AwaitFlow?)
    ensures var clean, left := RunSend(c, s, inbox, trace), RunSend(c, s.(negotiated := stale), inbox, trace);
            && clean.trace == left.trace && clean.rest == left.rest
            && clean.sender == left.sender.(negotiated := clean.sender.negotiated)
    decreases Rank(s) + |inbox|, s.phase.AwaitFlow?
  {
    var other := s.(negotiated := stale);
    var (next, rest, e) := Turn(c, s, inbox);
    StaleTurn(c, s, stale, inbox);
    if next.phase.AwaitFlow? {
      StaleBlockSize(c, next, stale, rest, trace + [e]);
    } else if Turn(c, other, inbox).0 != next {
      assert Done(next) && RunSend(c, next, rest, trace + [e]) == SendRun(next, rest, trace + [e]);
    }
  }
}
