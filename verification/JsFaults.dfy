/**
 The JavaScript receiver behind a faulty channel: what it makes of any frames whatever, and of the consecutive frames
 of a message that are lost, repeated or reordered.
 */
module JsFaults {
  import opened Common
  import opened IsoTpFrames
  import M = IsoTpMachines
  import F = IsoTpFaults
  import L = IsoTpLink
  import J = JsIsoTp

  // ---------- one frame ----------

  /** Every frame but a consecutive one of a message under way, by its first byte. */
  lemma FrameKinds(options: J.Options, s: J.ReceiverState, data: Bytes)
    ensures var (next, reply) := J.OnFrame(options, s, data);
            var announced := if data == [] then 0 else (data[0] as int) % 16 * 256 + if |data| > 1 then data[1] else 0;
            if data == [] || 0x30 <= data[0] <= 0x3F then next == s && reply == None
            else if data[0] <= 0x0F then
              reply == None && next.messages == s.messages + [data[1..Min(1 + data[0], |data|)]]
              && next.errors == s.errors
              && !next.receiving && next.buffer == []
            else if 0x10 <= data[0] <= 0x1F && announced > options.maxLength then
              reply == Some([0x32, 0, 0]) && next.messages == s.messages && next.errors == s.errors + [J.Overflow]
              && !next.receiving && next.buffer == []
            else if 0x10 <= data[0] <= 0x1F then
              && reply == Some([0x30, options.blockSize % 256, Min(0x7F, options.stMin)])
              && next.messages == s.messages && next.errors == s.errors && next.receiving
              && next.expectedLength == announced && next.expectedSn == 1
              && next.buffer == if |data| > 2 then data[2..] else []
            else data[0] >= 0x40 || !s.receiving ==>
              reply == None && next.messages == s.messages && next.errors == s.errors + [J.Unexpected]
              && !next.receiving && next.buffer == []
  {
  }

  predicate IsConsecutive(frame: Bytes) {
    frame != [] && 0x20 <= frame[0] <= 0x2F
  }

  predicate AllConsecutive(frames: seq<Bytes>) {
    forall i :: 0 <= i < |frames| ==> IsConsecutive(frames[i])
  }

  /** A frame with another number than the one due is one error, delivers nothing and ends the reassembly. */
  lemma WrongNumberEnds(options: J.Options, s: J.ReceiverState, frame: Bytes)
    requires s.receiving && IsConsecutive(frame) && frame[0] != 0x20 + s.expectedSn
    ensures var (next, reply) := J.OnFrame(options, s, frame);
            && reply == None && !next.receiving && next.buffer == [] && next.messages == s.messages
            && next.errors == s.errors + [J.WrongSn(s.expectedSn, frame[0] - 0x20)]
  {
  }

  /** The frame that is due is appended, and the message is delivered as soon as it is long enough. */
  lemma DueNumberCounts(options: J.Options, s: J.ReceiverState, frame: Bytes)
    requires s.receiving && IsConsecutive(frame) && frame[0] == 0x20 + s.expectedSn
    ensures var (next, reply) := J.OnFrame(options, s, frame);
            var held := s.buffer + frame[1..];
            && reply == None && next.errors == s.errors
            && if |held| >= s.expectedLength then
                 !next.receiving && next.buffer == [] && next.messages == s.messages + [held[..s.expectedLength]]
               else
                 next == s.(buffer := held, expectedSn := (s.expectedSn + 1) % 16)
  {
  }

  // ---------- any consecutive frames ----------

  /** The data of frames, one behind the other. */
  function Joined(frames: seq<Bytes>): Bytes {
    if frames == [] then [] else (if frames[0] == [] then [] else frames[0][1..]) + Joined(frames[1..])
  }

  function Strays(k: nat): seq<J.ReceiveError> {
    seq(k, _ => J.Unexpected)
  }

  lemma StraysJoin(errors: seq<J.ReceiveError>, k: nat)
    ensures errors + [J.Unexpected] + Strays(k) == errors + Strays(k + 1)
    ensures errors + Strays(0) == errors
  {
  }

  lemma {:induction false} StrayFrames(options: J.Options, s: J.ReceiverState, frames: seq<Bytes>)
    requires !s.receiving && AllConsecutive(frames)
    ensures var end := J.Feed(options, s, frames);
            !end.receiving && end.messages == s.messages && end.errors == s.errors + Strays(|frames|)
    decreases |frames|
  {
    if frames == [] {
      StraysJoin(s.errors, 0);
    } else {
      assert IsConsecutive(frames[0]);
      FrameKinds(options, s, frames[0]);
      StrayFrames(options, J.OnFrame(options, s, frames[0]).0, frames[1..]);
      StraysJoin(s.errors, |frames| - 1);
    }
  }

  /** The first `taken` frames have the numbers that are due one after the other. */
  predicate InOrder(sn: nat, frames: seq<Bytes>, taken: nat)
    requires AllConsecutive(frames) && taken <= |frames|
  {
    forall i :: 0 <= i < taken ==> frames[i][0] == 0x20 + (sn + i) % 16
  }

  /**
   What has become of the receiver behind the frames, of which it has taken the first `taken` and no more: they are
   in order and what they hold, `held` of it before them, was too short before the last of them. They complete the
   message; or they do not, and the next one has another number than the one due; or there is no next one.
   */
  predicate Outcome(s: J.ReceiverState, frames: seq<Bytes>, end: J.ReceiverState, taken: nat)
    requires AllConsecutive(frames)
  {
    && taken <= |frames| && InOrder(s.expectedSn, frames, taken)
    && (forall k :: 0 < k < taken ==> |s.buffer + Joined(frames[..k])| < s.expectedLength)
    && var held := s.buffer + Joined(frames[..taken]);
       if taken > 0 && |held| >= s.expectedLength then
         !end.receiving && end.messages == s.messages + [held[..s.expectedLength]]
         && end.errors == s.errors + Strays(|frames| - taken)
       else if taken < |frames| then
         && !end.receiving && end.messages == s.messages
         && frames[taken][0] != 0x20 + (s.expectedSn + taken) % 16
         && end.errors == s.errors + [J.WrongSn((s.expectedSn + taken) % 16, frames[taken][0] - 0x20)]
                          + Strays(|frames| - taken - 1)
       else
         end.receiving && end.messages == s.messages && end.errors == s.errors && end.buffer == held
  }

  lemma JoinedSplits(frames: seq<Bytes>, k: nat)
    requires 0 < k <= |frames| && frames[0] != []
    ensures Joined(frames[..k]) == frames[0][1..] + Joined(frames[1..][..k - 1])
  {
    assert frames[..k][1..] == frames[1..][..k - 1];
  }

  lemma OneMoreTaken(s: J.ReceiverState, frames: seq<Bytes>, next: J.ReceiverState, end: J.ReceiverState, taken: nat)
    requires AllConsecutive(frames) && frames != [] && s.expectedSn < 16
    requires frames[0][0] == 0x20 + s.expectedSn
    requires next == s.(buffer := s.buffer + frames[0][1..], expectedSn := (s.expectedSn + 1) % 16)
    requires |next.buffer| < s.expectedLength
    requires AllConsecutive(frames[1..]) && Outcome(next, frames[1..], end, taken)
    ensures Outcome(s, frames, end, taken + 1)
  {
    hide Joined, Strays;
    var later := frames[1..];
    JoinedNothing(later);
    forall k | 0 < k < taken + 1 ensures |s.buffer + Joined(frames[..k])| < s.expectedLength {
      JoinedSplits(frames, k);
      assert k > 1 ==> |next.buffer + Joined(later[..k - 1])| < s.expectedLength;
    }
    JoinedSplits(frames, taken + 1);
    assert next.buffer + Joined(later[..taken]) == s.buffer + Joined(frames[..taken + 1]);
    forall i | 0 <= i < taken + 1 ensures frames[i][0] == 0x20 + (s.expectedSn + i) % 16 {
      if i > 0 {
        SequenceStep(s.expectedSn, i);
        assert later[i - 1] == frames[i];
      }
    }
    SequenceStep(s.expectedSn, taken + 1);
  }

  lemma JoinedNothing(frames: seq<Bytes>)
    ensures Joined(frames[..0]) == []
  {
  }

  /** Any consecutive frames whatever, in the middle of a message. */
  lemma {:induction false} AnyArrivals(options: J.Options, s: J.ReceiverState, frames: seq<Bytes>)
    returns (taken: nat)
    requires s.receiving && s.expectedSn < 16 && AllConsecutive(frames)
    ensures Outcome(s, frames, J.Feed(options, s, frames), taken)
    decreases |frames|
  {
    taken := 0;
    JoinedNothing(frames);
    if frames == [] {
      NothingArrives(s, frames);
    } else {
      hide J.OnFrame, Outcome, Joined;
      var first, later := frames[0], frames[1..];
      assert IsConsecutive(first);
      var next := J.OnFrame(options, s, first).0;
      if first[0] != 0x20 + s.expectedSn {
        WrongNumberEnds(options, s, first);
        StrayFrames(options, next, later);
        WrongAtOnce(s, frames, J.Feed(options, s, frames));
      } else {
        DueNumberCounts(options, s, first);
        if next.receiving {
          taken := AnyArrivals(options, next, later);
          OneMoreTaken(s, frames, next, J.Feed(options, s, frames), taken);
        } else {
          StrayFrames(options, next, later);
          CompleteAtOnce(s, frames, J.Feed(options, s, frames));
        }
        taken := taken + 1;
      }
    }
  }

  lemma NothingArrives(s: J.ReceiverState, frames: seq<Bytes>)
    requires frames == [] && s.receiving
    ensures Outcome(s, frames, s, 0)
  {
    assert s.buffer + Joined(frames[..0]) == s.buffer;
  }

  lemma WrongAtOnce(s: J.ReceiverState, frames: seq<Bytes>, end: J.ReceiverState)
    requires frames != [] && AllConsecutive(frames) && s.expectedSn < 16 && frames[0][0] != 0x20 + s.expectedSn
    requires !end.receiving && end.messages == s.messages
    requires end.errors == s.errors + [J.WrongSn(s.expectedSn, frames[0][0] - 0x20)] + Strays(|frames| - 1)
    ensures Outcome(s, frames, end, 0)
  {
  }

  lemma CompleteAtOnce(s: J.ReceiverState, frames: seq<Bytes>, end: J.ReceiverState)
    requires frames != [] && AllConsecutive(frames) && s.expectedSn < 16 && frames[0][0] == 0x20 + s.expectedSn
    requires var held := s.buffer + frames[0][1..];
             |held| >= s.expectedLength && !end.receiving && end.messages == s.messages + [held[..s.expectedLength]]
    requires end.errors == s.errors + Strays(|frames| - 1)
    ensures Outcome(s, frames, end, 1)
  {
    JoinedSplits(frames, 1);
    JoinedNothing(frames[1..]);
    assert frames[0][1..] + [] == frames[0][1..];
  }

  // ---------- the frames of a message, lost, repeated and reordered ----------

  /** A message of the Python handler that the receiver accepts the length of. */
  predicate Accepted(c: Config, options: J.Options, payload: Bytes) {
    && J.ClassicNormal(c) && 7 < |payload| <= Min(MAX_CLASSIC_PAYLOAD, options.maxLength)
  }

  lemma AcceptedIsSegmented(c: Config, options: J.Options, payload: Bytes)
    requires Accepted(c, options, payload)
    ensures F.Segmented(c, c, payload) && FirstLength(c, |payload|) == 6
  {
    J.FirstAlike(c, payload);
  }

  /** The two receivers end alike: same payload, same wrong number, or both still wait. */
  predicate EndsAs(s: J.ReceiverState, end: J.ReceiverState, phase: M.RxPhase) {
    match phase
    case Delivered(payload) =>
      !end.receiving && end.messages == s.messages + [payload] && OnlyStrays(s.errors, end.errors)
    case Broken(error) =>
      end.messages == s.messages
      && if error.SequenceNumber? then
           !end.receiving && OnlyStrays(s.errors + [J.WrongSn(error.expected, error.received)], end.errors)
         else error.NCrTimeout? && end.receiving && end.errors == s.errors
    case _ => false
  }

  predicate OnlyStrays(before: seq<J.ReceiveError>, after: seq<J.ReceiveError>) {
    |before| <= |after| && after == before + Strays(|after| - |before|)
  }

  lemma PickedIsConsecutive(c: Config, options: J.Options, payload: Bytes, k: nat)
    requires Accepted(c, options, payload) && F.Segmented(c, c, payload) && k < |F.ConsecutiveFrames(c, payload)|
    ensures var frame := F.ConsecutiveFrames(c, payload)[k];
            IsConsecutive(frame) && frame[0] == 0x20 + (1 + k) % 16 && frame[1..] == F.Data(c, payload, k)
  {
    hide F.ConsecutiveFrames;
    F.FrameNumbered(c, c, payload, k);
  }

  lemma PickedAreConsecutive(c: Config, options: J.Options, payload: Bytes, picks: seq<nat>)
    requires Accepted(c, options, payload) && F.Segmented(c, c, payload)
    requires F.Picks(picks, |F.ConsecutiveFrames(c, payload)|)
    ensures AllConsecutive(F.Picked(F.ConsecutiveFrames(c, payload), picks))
  {
    forall i | 0 <= i < |picks| ensures IsConsecutive(F.ConsecutiveFrames(c, payload)[picks[i]]) {
      PickedIsConsecutive(c, options, payload, picks[i]);
    }
  }

  lemma {:induction false} ReassembledFrom(c: Config, options: J.Options, payload: Bytes, picks: seq<nat>, j: nat,
                                           s: J.ReceiverState)
    requires Accepted(c, options, payload) && F.Segmented(c, c, payload)
    requires F.Picks(picks, |F.ConsecutiveFrames(c, payload)|) && j <= |picks|
    requires s.receiving && s.expectedLength == |payload| && |s.buffer| < |payload| && s.expectedSn == (1 + j) % 16
    ensures var frames := F.Picked(F.ConsecutiveFrames(c, payload), picks[j..]);
            EndsAs(s, J.Feed(options, s, frames), F.Reassembled(c, payload, picks, j, s.buffer))
    decreases |picks| - j
  {
    hide J.OnFrame, F.ConsecutiveFrames, F.Data;
    var all := F.ConsecutiveFrames(c, payload);
    var frames := F.Picked(all, picks[j..]);
    if j < |picks| {
      var later := F.Picked(all, picks[j + 1..]);
      assert frames[0] == all[picks[j]] && frames[1..] == later;
      PickedIsConsecutive(c, options, payload, picks[j]);
      PickedAreConsecutive(c, options, payload, picks[j + 1..]);
      F.NumbersAgree(j, picks[j]);
      var next := J.OnFrame(options, s, frames[0]).0;
      if picks[j] % 16 != j % 16 {
        WrongNumberEnds(options, s, frames[0]);
        StrayFrames(options, next, later);
      } else {
        DueNumberCounts(options, s, frames[0]);
        if next.receiving {
          ReassembledFrom(c, options, payload, picks, j + 1, next);
        } else {
          StrayFrames(options, next, later);
        }
      }
    } else {
      assert frames == [];
    }
  }

  /** What a receiver in any state has become behind the first frame and the picked consecutive ones. */
  function Heard(c: Config, options: J.Options, payload: Bytes, s: J.ReceiverState, picks: seq<nat>): J.ReceiverState
    requires F.Segmented(c, c, payload) && F.Picks(picks, |F.ConsecutiveFrames(c, payload)|)
  {
    J.Feed(options, s, [Wire(c, FirstBody(c, payload))] + F.Picked(F.ConsecutiveFrames(c, payload), picks))
  }

  /**
   Whatever consecutive frames of a message arrive in whatever order, the JavaScript receiver delivers what the
   Python one returns, reports the wrong number where that one raises it, and waits where that one times out.
   */
  lemma EveryArrival(c: Config, options: J.Options, payload: Bytes, s: J.ReceiverState, picks: seq<nat>)
    requires Accepted(c, options, payload) && F.Segmented(c, c, payload)
    requires F.Picks(picks, |F.ConsecutiveFrames(c, payload)|)
    ensures EndsAs(s, Heard(c, options, payload, s, picks), F.Outcome(c, c, payload, picks))
  {
    hide J.OnFrame, F.ConsecutiveFrames, F.Outcome, F.Reassembled;
    AcceptedIsSegmented(c, options, payload);
    F.OutcomeIsReassembled(c, c, payload, picks);
    J.FeedsFirst(c, options, payload, s);
    var first, frames := Wire(c, FirstBody(c, payload)), F.Picked(F.ConsecutiveFrames(c, payload), picks);
    assert ([first] + frames)[1..] == frames && picks[0..] == picks;
    var next := J.OnFrame(options, s, first).0;
    ReassembledFrom(c, options, payload, picks, 0, next);
  }

  /**
   Whatever consecutive frames are lost: the message is delivered, without an error, exactly if none is. Otherwise
   nothing is delivered, and the first new error is a wrong number, or there is none and the receiver still waits.
   */
  lemma LossIsDetected(c: Config, options: J.Options, payload: Bytes, s: J.ReceiverState, picks: seq<nat>)
    requires Accepted(c, options, payload) && F.Segmented(c, c, payload)
    requires F.Picks(picks, |F.ConsecutiveFrames(c, payload)|) && F.OnlyLosses(picks)
    ensures var n, end := |F.ConsecutiveFrames(c, payload)|, Heard(c, options, payload, s, picks);
            && |picks| <= n
            && if |picks| == n then end.messages == s.messages + [payload] && end.errors == s.errors
               else
                 && end.messages == s.messages
                 && (if end.errors == s.errors then end.receiving
                     else |end.errors| > |s.errors| && end.errors[|s.errors|].WrongSn?)
  {
    hide J.Feed, F.ConsecutiveFrames, F.Outcome;
    EveryArrival(c, options, payload, s, picks);
    F.LossIsDetected(c, c, payload, picks);
    var n := |F.ConsecutiveFrames(c, payload)|;
    if |picks| == n {
      AllInOrder(c, payload, picks);
      J.ReceiverTakesMessage(c, options, payload, s);
    }
  }

  lemma AllInOrder(c: Config, payload: Bytes, picks: seq<nat>)
    requires F.Segmented(c, c, payload)
    requires F.Picks(picks, |F.ConsecutiveFrames(c, payload)|) && F.OnlyLosses(picks)
    requires |picks| == |F.ConsecutiveFrames(c, payload)|
    ensures [Wire(c, FirstBody(c, payload))] + F.Picked(F.ConsecutiveFrames(c, payload), picks) ==
            WireAll(c, Frames(c, payload))
  {
    hide F.ConsecutiveFrames, Wire;
    var frames := F.ConsecutiveFrames(c, payload);
    forall j | 0 <= j < |picks| ensures picks[j] == j {
      F.IncreasingFills(picks, |frames|, j);
    }
    assert F.Picked(frames, picks) == frames;
    WireAllCons(c, FirstBody(c, payload), Consecutive(c, payload, FirstLength(c, |payload|), 1));
    FramesAre(c, payload);
  }

  lemma FramesAre(c: Config, payload: Bytes)
    requires F.IsCut(c, payload)
    ensures F.ConsecutiveFrames(c, payload) == WireAll(c, Consecutive(c, payload, FirstLength(c, |payload|), 1))
  {
  }

  /** Nothing but the payload is delivered. */
  predicate Faithful(c: Config, options: J.Options, payload: Bytes, s: J.ReceiverState, picks: seq<nat>)
    requires F.Segmented(c, c, payload) && F.Picks(picks, |F.ConsecutiveFrames(c, payload)|)
  {
    var end := Heard(c, options, payload, s, picks);
    end.messages == s.messages || end.messages == s.messages + [payload]
  }

  /** It is exactly the arrivals that are safe for the Python receiver that are safe for this one. */
  lemma SafeArrivals(c: Config, options: J.Options, sample: Bytes, s: J.ReceiverState, picks: seq<nat>)
    requires Accepted(c, options, sample) && F.Segmented(c, c, sample)
    requires F.Picks(picks, |F.ConsecutiveFrames(c, sample)|)
    ensures forall payload: Bytes :: |payload| == |sample| ==>
              F.Segmented(c, c, payload) && |F.ConsecutiveFrames(c, payload)| == |F.ConsecutiveFrames(c, sample)|
    ensures (forall payload: Bytes :: |payload| == |sample| ==> Faithful(c, options, payload, s, picks))
            <==> F.Exact(c, |sample|, picks)
  {
    hide F.ConsecutiveFrames, Faithful, F.Faithful, F.Exact;
    F.SafeArrivals(c, c, sample, picks);
    forall payload: Bytes | |payload| == |sample|
      ensures Faithful(c, options, payload, s, picks) <==> F.Faithful(c, c, payload, picks)
    {
      FaithfulAlike(c, options, payload, s, picks);
    }
  }

  lemma FaithfulAlike(c: Config, options: J.Options, payload: Bytes, s: J.ReceiverState, picks: seq<nat>)
    requires Accepted(c, options, payload) && F.Segmented(c, c, payload)
    requires F.Picks(picks, |F.ConsecutiveFrames(c, payload)|)
    ensures Faithful(c, options, payload, s, picks) <==> F.Faithful(c, c, payload, picks)
  {
    hide F.ConsecutiveFrames, F.Outcome, Heard;
    EveryArrival(c, options, payload, s, picks);
    var phase := F.Outcome(c, c, payload, picks);
    if phase.Delivered? {
      assert (s.messages + [phase.payload])[|s.messages|] == phase.payload;
    }
  }
}
