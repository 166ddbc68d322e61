/**
 The second implementation of the transport, `IsoTpSender` and `IsoTpReceiver` of the JavaScript engine,
 on classic CAN without an address byte: how a payload is cut and reassembled. Here a granted block is transmitted
 without interruption; `JsSender` lets everything that can happen come in between.
 */
module JsIsoTp {
  import opened Common
  import opened IsoTpFrames

  const FLOW_WAIT := 1
  const FLOW_ABORT := 2

  datatype Progress = Pending | Resolved | Rejected

  /** The record `st` of a running transmission. */
  datatype Transfer = Transfer(data: Bytes, offset: nat, sn: nat, blockLeft: nat, progress: Progress)

  predicate TransferOk(t: Transfer) {
    && t.offset <= |t.data| && t.sn < 16
    && (t.progress.Resolved? ==> t.offset == |t.data|)
  }

  function Slice(s: Bytes, from: nat, to: nat): Bytes
    requires from <= to
  {
    s[Min(from, |s|)..Min(to, |s|)]
  }

  // ---------- transfers ----------

  function FirstFrame(payload: Bytes): Bytes {
    [FIRST_FRAME * 16 + |payload| / 256 % 16, |payload| % 256] + Slice(payload, 0, 6)
  }

  /** The state and the frame after `send`. */
  function Start(payload: Bytes): (r: (Transfer, Bytes))
    ensures TransferOk(r.0)
  {
    if |payload| <= 7 then (Transfer(payload, |payload|, 1, 0, Resolved), [SINGLE_FRAME * 16 + |payload|] + payload)
    else (Transfer(payload, 6, 1, 0, Pending), FirstFrame(payload))
  }

  function NextFrame(t: Transfer): Bytes
    requires TransferOk(t)
  {
    [CONSECUTIVE_FRAME * 16 + t.sn] + Slice(t.data, t.offset, t.offset + 7)
  }

  /** The block loop with `left` frames to go, and the finish behind it. */
  function Block(t: Transfer, left: nat): (r: (Transfer, seq<Bytes>))
    requires TransferOk(t) && t.progress.Pending?
    ensures TransferOk(r.0) && r.0.data == t.data && !r.0.progress.Rejected?
    decreases left
  {
    if t.offset == |t.data| then (t.(progress := Resolved), [])
    else if left == 0 then (t, [])
    else
      var rest := Block(t.(offset := Min(t.offset + 7, |t.data|), sn := (t.sn + 1) % 16), left - 1);
      (rest.0, [NextFrame(t)] + rest.1)
  }

  /**
   The block loop up to its next `await`, with `count` frames of the block transmitted: the transfer then, and the
   frame that is on its way. Without one the call is over.
   */
  function Advance(t: Transfer, count: nat): (r: (Transfer, Option<Bytes>))
    requires TransferOk(t) && t.progress.Pending?
    ensures TransferOk(r.0) && r.0.data == t.data && !r.0.progress.Rejected?
  {
    if t.offset < |t.data| && count < t.blockLeft then
      (t.(offset := Min(t.offset + 7, |t.data|), sn := (t.sn + 1) % 16), Some(NextFrame(t)))
    else if t.offset == |t.data| then (t.(progress := Resolved), None)
    else (t, None)
  }

  function BlockLength(option: nat, fc: Bytes): nat {
    (if |fc| > 1 && fc[1] != 0 then fc[1] else option) % 256
  }

  /** `handleFlowControl` on a transfer that is the active one. */
  function OnFlowControl(option: nat, t: Transfer, fc: Bytes): (r: (Transfer, seq<Bytes>))
    requires TransferOk(t)
    ensures TransferOk(r.0) && r.0.data == t.data
  {
    if !t.progress.Pending? then (t, [])
    else if At(fc, 0) % 16 == FLOW_ABORT then (t.(progress := Rejected), [])
    else if At(fc, 0) % 16 == FLOW_WAIT then (t, [])
    else
      var blockLeft := BlockLength(option, fc);
      Block(t.(blockLeft := blockLeft), blockLeft)
  }

  /** The first frame of a payload of any length: its header has room for twelve bits of the length. */
  lemma StartForm(payload: Bytes)
    ensures var (t, frame) := Start(payload);
            if |payload| <= 7 then frame == [|payload| as byte] + payload
            else
              && frame == [0x10 + |payload| % 4096 / 256, |payload| % 256] + payload[..6]
              && t == Transfer(payload, 6, 1, 0, Pending)
  {
    TwelveBits(|payload|);
  }

  lemma TwelveBits(n: nat)
    ensures n / 256 % 16 == n % 4096 / 256
  {
    var q, r := n / 4096, n % 4096;
    assert n / 256 == q * 16 + r / 256;
  }

  /** What each flow status does to a running transfer; only the low four bits of the first byte are looked at. */
  lemma FlowStatuses(option: nat, t: Transfer, fc: Bytes)
    requires TransferOk(t) && t.progress.Pending?
    ensures var (next, frames) := OnFlowControl(option, t, fc);
            var status := if fc == [] then 0 else fc[0] % 16;
            var block := if |fc| >= 2 && fc[1] != 0 then fc[1] else option % 256;
            && (status == 1 ==> next == t && frames == [])
            && (status == 2 ==> next == t.(progress := Rejected) && frames == [])
            && (status != 1 && status != 2 ==>
                  |frames| <= block && !next.progress.Rejected? && next.blockLeft == block
                  && (next.progress.Pending? ==> |frames| == block))
  {
    var block := BlockLength(option, fc);
    BlockFills(t.(blockLeft := block), block);
  }

  lemma {:induction false} BlockFills(t: Transfer, left: nat)
    requires TransferOk(t) && t.progress.Pending?
    ensures var (next, frames) := Block(t, left);
            |frames| <= left && next.blockLeft == t.blockLeft && (next.progress.Pending? ==> |frames| == left)
    decreases left
  {
    if t.offset < |t.data| && left > 0 {
      BlockFills(t.(offset := Min(t.offset + 7, |t.data|), sn := (t.sn + 1) % 16), left - 1);
    }
  }

  /** A transfer under a sequence of flow-control frames, nothing else happening meanwhile, and what it transmits. */
  function RunTransfer(option: nat, t: Transfer, fcs: seq<Bytes>): (r: (Transfer, seq<Bytes>))
    requires TransferOk(t)
    ensures TransferOk(r.0) && r.0.data == t.data
    decreases |fcs|
  {
    if fcs == [] then (t, [])
    else
      var (next, frames) := OnFlowControl(option, t, fcs[0]);
      var rest := RunTransfer(option, next, fcs[1..]);
      (rest.0, frames + rest.1)
  }

  // ---------- the two segmentations agree ----------

  /** The Python configuration the JavaScript sender corresponds to, up to padding. */
  predicate ClassicNormal(c: Config) {
    !c.extended && !c.canFd && FrameSize(c) == 8
  }

  /** The next JavaScript frame is the next Python body. */
  lemma NextIsBody(c: Config, t: Transfer)
    requires ClassicNormal(c) && TransferOk(t) && t.offset < |t.data|
    ensures Consecutive(c, t.data, t.offset, t.sn) ==
            [NextFrame(t)] + Consecutive(c, t.data, Min(t.offset + 7, |t.data|), (t.sn + 1) % 16)
  {
    assert NextFrame(t) == ConsecutiveBody(c, t.data, t.offset, t.sn);
  }

  lemma {:induction false} BlockCutsAlike(c: Config, t: Transfer, left: nat)
    requires ClassicNormal(c) && TransferOk(t) && t.progress.Pending?
    ensures var (r, frames) := Block(t, left);
            Consecutive(c, t.data, t.offset, t.sn) == frames + Consecutive(c, t.data, r.offset, r.sn)
    decreases left
  {
    hide Consecutive, NextFrame;
    if t.offset < |t.data| && left > 0 {
      NextIsBody(c, t);
      BlockCutsAlike(c, t.(offset := Min(t.offset + 7, |t.data|), sn := (t.sn + 1) % 16), left - 1);
    }
  }

  lemma {:induction false} TransferCutsAlike(c: Config, option: nat, t: Transfer, fcs: seq<Bytes>)
    requires ClassicNormal(c) && TransferOk(t)
    ensures var (r, frames) := RunTransfer(option, t, fcs);
            Consecutive(c, t.data, t.offset, t.sn) == frames + Consecutive(c, t.data, r.offset, r.sn)
    decreases |fcs|
  {
    hide Consecutive, Block;
    if fcs != [] {
      var (next, frames) := OnFlowControl(option, t, fcs[0]);
      if t.progress.Pending? {
        BlockCutsAlike(c, t.(blockLeft := BlockLength(option, fcs[0])), BlockLength(option, fcs[0]));
      }
      TransferCutsAlike(c, option, next, fcs[1..]);
      var (r, later) := RunTransfer(option, next, fcs[1..]);
      assert frames + (later + Consecutive(c, t.data, r.offset, r.sn)) ==
             (frames + later) + Consecutive(c, t.data, r.offset, r.sn);
    }
  }

  /**
   All frames the JavaScript sender transmits for `payload` under the flow control `fcs`, nothing else happening
   meanwhile.
   */
  function Transmitted(option: nat, payload: Bytes, fcs: seq<Bytes>): seq<Bytes>
  {
    [Start(payload).1] + RunTransfer(option, Start(payload).0, fcs).1
  }

  /** A transfer that has not resolved has something left. */
  lemma {:induction false} UnresolvedIsUnsent(option: nat, t: Transfer, fcs: seq<Bytes>)
    requires TransferOk(t)
    requires t.progress.Resolved? <==> t.offset == |t.data|
    ensures var r := RunTransfer(option, t, fcs).0; r.progress.Resolved? <==> r.offset == |t.data|
    decreases |fcs|
  {
    if fcs != [] {
      if t.progress.Pending? {
        BlockEnds(t.(blockLeft := BlockLength(option, fcs[0])), BlockLength(option, fcs[0]));
      }
      UnresolvedIsUnsent(option, OnFlowControl(option, t, fcs[0]).0, fcs[1..]);
    }
  }

  lemma {:induction false} BlockEnds(t: Transfer, left: nat)
    requires TransferOk(t) && t.progress.Pending?
    ensures var r := Block(t, left).0; r.progress.Resolved? <==> r.offset == |t.data|
    decreases left
  {
    if t.offset < |t.data| && left > 0 {
      BlockEnds(t.(offset := Min(t.offset + 7, |t.data|), sn := (t.sn + 1) % 16), left - 1);
    }
  }

  /**
   Whatever flow control it gets, as long as nothing else happens meanwhile, a JavaScript transfer
   transmits a beginning of the bodies the Python handler cuts the payload into, and all of them exactly if
   it resolves; this holds if and only if the payload needs no escape length.
   */
  lemma SegmentationsAgree(c: Config, option: nat, payload: Bytes, fcs: seq<Bytes>)
    requires ClassicNormal(c) && 1 <= |payload| <= MAX_ESCAPE_PAYLOAD
    ensures var resolved := RunTransfer(option, Start(payload).0, fcs).0.progress.Resolved?;
            && (|payload| <= MAX_CLASSIC_PAYLOAD ==>
                  && Transmitted(option, payload, fcs) <= Frames(c, payload)
                  && (resolved <==> Transmitted(option, payload, fcs) == Frames(c, payload)))
            && (resolved ==>
                  (Transmitted(option, payload, fcs) == Frames(c, payload) <==> |payload| <= MAX_CLASSIC_PAYLOAD))
  {
    hide RunTransfer, Consecutive, Frames, TotalLength;
    var t := Start(payload).0;
    var (r, later) := RunTransfer(option, t, fcs);
    TransferCutsAlike(c, option, t, fcs);
    UnresolvedIsUnsent(option, t, fcs);
    var frames := Transmitted(option, payload, fcs);
    var unsent := Consecutive(c, payload, r.offset, r.sn);
    NothingUnsent(c, payload, r.offset, r.sn);
    if |payload| <= MAX_CLASSIC_PAYLOAD {
      StartsAlike(c, payload);
      assert [Start(payload).1] + (later + unsent) == frames + unsent;
    } else if r.progress.Resolved? {
      assert later == later + [];
      EscapeIsLonger(c, payload);
    }
  }

  lemma NothingUnsent(c: Config, payload: Bytes, index: nat, sn: nat)
    requires ClassicNormal(c) && index <= |payload| && sn < 16
    ensures index == |payload| <==> Consecutive(c, payload, index, sn) == []
  {
  }

  lemma StartsAlike(c: Config, payload: Bytes)
    requires ClassicNormal(c) && 1 <= |payload| <= MAX_CLASSIC_PAYLOAD
    ensures var (t, frame) := Start(payload);
            Frames(c, payload) == [frame] + Consecutive(c, payload, t.offset, t.sn)
  {
    hide Consecutive;
    if |payload| > 7 {
      FirstAlike(c, payload);
    } else {
      NothingUnsent(c, payload, |payload|, 1);
    }
  }

  lemma FirstAlike(c: Config, payload: Bytes)
    requires ClassicNormal(c) && 7 < |payload| <= MAX_CLASSIC_PAYLOAD
    ensures FirstFrame(payload) == FirstBody(c, payload) && FirstLength(c, |payload|) == 6
  {
    HeaderAlike(|payload|);
    assert Slice(payload, 0, 6) == payload[..6];
  }

  lemma HeaderAlike(total: nat)
    requires total <= MAX_CLASSIC_PAYLOAD
    ensures total / 256 % 16 == total / 256
  {
  }

  /** With the escape length the first frame holds four bytes less. */
  lemma EscapeIsLonger(c: Config, payload: Bytes)
    requires ClassicNormal(c) && MAX_CLASSIC_PAYLOAD < |payload| <= MAX_ESCAPE_PAYLOAD
    ensures [FirstFrame(payload)] + Consecutive(c, payload, 6, 1) != Frames(c, payload)
  {
    var first, frames := FirstFrame(payload), Frames(c, payload);
    var short, long := Consecutive(c, payload, 6, 1), Consecutive(c, payload, 2, 1);
    ConsecutiveLength(c, payload, 6, 1);
    ConsecutiveLength(c, payload, 2, 1);
    assert ([first] + short)[1..] == short && frames[1..] == long;
  }

  // ---------- receiver ----------

  datatype ReceiveError = Overflow | WrongSn(expected: nat, got: nat) | Unexpected

  /** The receiver's fields and the calls it has made of `onMessage` and `onError`. */
  datatype ReceiverState = ReceiverState(
    buffer: Bytes,
    expectedLength: nat,
    expectedSn: nat,
    receiving: bool,
    messages: seq<Bytes>,
    errors: seq<ReceiveError>)

  datatype Options = Options(maxLength: nat, blockSize: nat, stMin: nat)

  function Delivered(s: ReceiverState, payload: Bytes): ReceiverState {
    s.(receiving := false, buffer := [], messages := s.messages + [payload])
  }

  function Failed(s: ReceiverState, error: ReceiveError): ReceiverState {
    s.(receiving := false, buffer := [], errors := s.errors + [error])
  }

  function At(data: Bytes, k: nat): byte {
    if k < |data| then data[k] else 0
  }

  function Announced(data: Bytes): nat
    requires data != []
  {
    (data[0] as int) % 16 * 256 + At(data, 1)
  }

  function Reply(options: Options, status: nat): Bytes
    requires status <= 2
  {
    if status == FLOW_ABORT then [FLOW_CONTROL * 16 + FLOW_ABORT, 0, 0]
    else [FLOW_CONTROL * 16 + status, options.blockSize % 256, Min(0x7F, options.stMin)]
  }

  function OnFrame(options: Options, s: ReceiverState, data: Bytes): (ReceiverState, Option<Bytes>) {
    if data == [] then (s, None)
    else if data[0] / 16 == SINGLE_FRAME then
      (Delivered(s, Slice(data, 1, 1 + data[0] as int % 16)), None)
    else if data[0] / 16 == FIRST_FRAME then
      var cleared := s.(buffer := [], expectedLength := Announced(data), expectedSn := 1, receiving := false);
      if Announced(data) > options.maxLength then (Failed(cleared, Overflow), Some(Reply(options, FLOW_ABORT)))
      else
        (cleared.(buffer := Slice(data, 2, Max(2, |data|)), receiving := true),
         Some(Reply(options, CONTINUE_TO_SEND)))
    else if data[0] / 16 == CONSECUTIVE_FRAME then
      if !s.receiving then (Failed(s, Unexpected), None)
      else if data[0] % 16 != s.expectedSn then (Failed(s, WrongSn(s.expectedSn, data[0] % 16)), None)
      else
        var grown := s.(expectedSn := (s.expectedSn + 1) % 16, buffer := s.buffer + data[1..]);
        if |grown.buffer| >= s.expectedLength then (Delivered(grown, grown.buffer[..s.expectedLength]), None)
        else (grown, None)
    else if data[0] / 16 == FLOW_CONTROL then (s, None)
    else (Failed(s, Unexpected), None)
  }

  function Feed(options: Options, s: ReceiverState, frames: seq<Bytes>): ReceiverState
    decreases |frames|
  {
    if frames == [] then s else Feed(options, OnFrame(options, s, frames[0]).0, frames[1..])
  }

  class Receiver {
    const options: Options
    var buffer: Bytes
    var expectedLength: nat
    var expectedSn: nat
    var receiving: bool
    var messages: seq<Bytes>
    var errors: seq<ReceiveError>

    constructor (options: Options)
      ensures this.options == options && State() == ReceiverState([], 0, 1, false, [], [])
    {
      this.options := options;
      buffer, expectedLength, expectedSn, receiving := [], 0, 1, false;
      messages, errors := [], [];
    }

    ghost function State(): ReceiverState
      reads this
    {
      ReceiverState(buffer, expectedLength, expectedSn, receiving, messages, errors)
    }

    method Reset()
      modifies this`buffer, this`expectedLength, this`expectedSn, this`receiving
      ensures buffer == [] && expectedLength == 0 && expectedSn == 1 && !receiving
    {
      buffer, expectedLength, expectedSn, receiving := [], 0, 1, false;
    }

    method Deliver(payload: Bytes)
      modifies this`buffer, this`receiving, this`messages
      ensures State() == Delivered(old(State()), payload)
    {
      receiving := false;
      buffer := [];
      messages := messages + [payload];
    }

    method Fail(error: ReceiveError)
      modifies this`buffer, this`receiving, this`errors
      ensures State() == Failed(old(State()), error)
    {
      receiving := false;
      buffer := [];
      errors := errors + [error];
    }

    method HandleFrame(data: Bytes) returns (reply: Option<Bytes>)
      modifies this
      ensures (State(), reply) == OnFrame(options, old(State()), data)
    {
      reply := None;
      if |data| == 0 {
        return;
      }
      match data[0] / 16 {
        case 0 =>
          var length := data[0] as int % 16;
          Deliver(data[1..Min(1 + length, |data|)]);
        case 1 =>
          Reset();
          expectedLength := (data[0] as int) % 16 * 256 + At(data, 1);
          if expectedLength > options.maxLength {
            Fail(Overflow);
            return Some([FLOW_CONTROL * 16 + FLOW_ABORT, 0, 0]);
          }
          buffer := if |data| >= 2 then data[2..] else [];
          assert buffer == Slice(data, 2, Max(2, |data|));
          expectedSn := 1;
          receiving := true;
          return Some([FLOW_CONTROL * 16 + CONTINUE_TO_SEND, options.blockSize % 256, Min(0x7F, options.stMin)]);
        case 2 =>
          if !receiving {
            Fail(Unexpected);
            return;
          }
          var sn := data[0] % 16;
          if sn != expectedSn {
            Fail(WrongSn(expectedSn, sn));
            return;
          }
          expectedSn := (expectedSn + 1) % 16;
          buffer := buffer + data[1..];
          if |buffer| >= expectedLength {
            Deliver(buffer[..expectedLength]);
          }
        case 3 =>
        case _ =>
          Fail(Unexpected);
      }
    }
  }

  // ---------- Python sends, JavaScript receives ----------

  /** The receiver holds the first bytes of `payload` and waits for the rest. */
  predicate Holding(payload: Bytes, s: ReceiverState) {
    && s.receiving && s.expectedLength == |payload| && |s.buffer| < |payload|
    && s.buffer == payload[..|s.buffer|] && s.expectedSn < 16
  }

  lemma ClassicWire(c: Config, body: Bytes)
    requires ClassicNormal(c)
    ensures body <= Wire(c, body) && |Wire(c, body)| <= Max(8, |body|)
    ensures |body| == 8 ==> Wire(c, body) == body
  {
    assert Address(c) + body == body;
  }

  lemma {:induction false} FeedsRest(c: Config, options: Options, payload: Bytes, s: ReceiverState)
    requires ClassicNormal(c) && Holding(payload, s)
    ensures var frames := WireAll(c, Consecutive(c, payload, |s.buffer|, s.expectedSn));
            var end := Feed(options, s, frames);
            end.messages == s.messages + [payload] && end.errors == s.errors
    decreases |payload| - |s.buffer|
  {
    hide OnFrame, Wire;
    var bodies := Consecutive(c, payload, |s.buffer|, s.expectedSn);
    WireAllCons(c, bodies[0], bodies[1..]);
    FeedsNext(c, options, payload, s);
    var next := OnFrame(options, s, Wire(c, bodies[0])).0;
    if next.receiving {
      FeedsRest(c, options, payload, next);
    }
  }

  lemma FeedsNext(c: Config, options: Options, payload: Bytes, s: ReceiverState)
    requires ClassicNormal(c) && Holding(payload, s)
    ensures var index := |s.buffer| + |Chunk(c, payload, |s.buffer|)|;
            var next := OnFrame(options, s, Wire(c, ConsecutiveBody(c, payload, |s.buffer|, s.expectedSn))).0;
            && next.errors == s.errors
            && if index < |payload| then
                 Holding(payload, next) && |next.buffer| == index && next.expectedSn == (s.expectedSn + 1) % 16
                 && next.messages == s.messages
               else !next.receiving && next.messages == s.messages + [payload]
  {
    hide Wire;
    var body := ConsecutiveBody(c, payload, |s.buffer|, s.expectedSn);
    var frame := Wire(c, body);
    ClassicWire(c, body);
    var chunk := Chunk(c, payload, |s.buffer|);
    var index := |s.buffer| + |chunk|;
    assert frame[1..][..|chunk|] == chunk;
    assert (s.buffer + frame[1..])[..index] == payload[..index];
    if index < |payload| {
      assert frame[1..] == chunk;
    } else {
      assert payload[..index] == payload;
    }
  }

  /** Consecutive frames at a receiver that is not receiving only raise errors. */
  lemma {:induction false} FeedsStray(c: Config, options: Options, payload: Bytes, index: nat, sn: nat,
                                      s: ReceiverState)
    requires ClassicNormal(c) && index <= |payload| && sn < 16 && !s.receiving
    ensures Feed(options, s, WireAll(c, Consecutive(c, payload, index, sn))).messages == s.messages
    decreases |payload| - index
  {
    if index < |payload| {
      var bodies := Consecutive(c, payload, index, sn);
      WireAllCons(c, bodies[0], bodies[1..]);
      ClassicWire(c, bodies[0]);
      FeedsStray(c, options, payload, index + |Chunk(c, payload, index)|, (sn + 1) % 16,
                 OnFrame(options, s, Wire(c, bodies[0])).0);
    }
  }

  /** A first frame with escape length announces nothing, so the first consecutive frame delivers nothing. */
  lemma EscapeDeliversEmpty(c: Config, options: Options, payload: Bytes, s: ReceiverState)
    requires ClassicNormal(c) && MAX_CLASSIC_PAYLOAD < |payload| <= MAX_ESCAPE_PAYLOAD
    ensures Feed(options, s, WireAll(c, Frames(c, payload))).messages == s.messages + [[]]
  {
    var bodies := Frames(c, payload);
    WireAllCons(c, bodies[0], bodies[1..]);
    ClassicWire(c, bodies[0]);
    var started := OnFrame(options, s, Wire(c, bodies[0])).0;
    assert started.receiving && started.expectedLength == 0 && started.expectedSn == 1;
    var rest := Consecutive(c, payload, 2, 1);
    assert bodies[1..] == rest;
    WireAllCons(c, rest[0], rest[1..]);
    ClassicWire(c, rest[0]);
    var delivered := OnFrame(options, started, Wire(c, rest[0])).0;
    assert delivered.messages == s.messages + [[]] && !delivered.receiving;
    FeedsStray(c, options, payload, 2 + |Chunk(c, payload, 2)|, 2, delivered);
  }

  /** A first frame that announces too much is refused, and what follows is stray. */
  lemma OverflowDeliversNothing(c: Config, options: Options, payload: Bytes, s: ReceiverState)
    requires ClassicNormal(c) && 7 < |payload| <= MAX_CLASSIC_PAYLOAD && options.maxLength < |payload|
    ensures Feed(options, s, WireAll(c, Frames(c, payload))).messages == s.messages
  {
    var bodies := Frames(c, payload);
    WireAllCons(c, bodies[0], bodies[1..]);
    ClassicWire(c, bodies[0]);
    assert bodies[1..] == Consecutive(c, payload, 6, 1);
    FeedsStray(c, options, payload, 6, 1, OnFrame(options, s, Wire(c, bodies[0])).0);
  }

  lemma ReceiverTakesMessage(c: Config, options: Options, payload: Bytes, s: ReceiverState)
    requires ClassicNormal(c) && 1 <= |payload| <= MAX_CLASSIC_PAYLOAD
    requires |payload| <= 7 || |payload| <= options.maxLength
    ensures var end := Feed(options, s, WireAll(c, Frames(c, payload)));
            end.messages == s.messages + [payload] && end.errors == s.errors
  {
    hide OnFrame, Wire;
    var bodies := Frames(c, payload);
    WireAllCons(c, bodies[0], bodies[1..]);
    FeedsFirst(c, options, payload, s);
    if |payload| > 7 {
      assert bodies[1..] == Consecutive(c, payload, 6, 1);
      FeedsRest(c, options, payload, OnFrame(options, s, Wire(c, bodies[0])).0);
    }
  }

  lemma FeedsFirst(c: Config, options: Options, payload: Bytes, s: ReceiverState)
    requires ClassicNormal(c) && 1 <= |payload| <= MAX_CLASSIC_PAYLOAD
    requires |payload| <= 7 || |payload| <= options.maxLength
    ensures var next := OnFrame(options, s, Wire(c, Frames(c, payload)[0])).0;
            && next.errors == s.errors
            && if |payload| <= 7 then next.messages == s.messages + [payload]
               else Holding(payload, next) && |next.buffer| == 6 && next.expectedSn == 1 && next.messages == s.messages
  {
    hide Consecutive, Wire;
    var body := Frames(c, payload)[0];
    var frame := Wire(c, body);
    ClassicWire(c, body);
    if |payload| <= 7 {
      assert frame[1..1 + |payload|] == payload;
    } else {
      assert frame[2..] == payload[..6];
    }
  }

  /**
   Fed with the frames the Python handler transmits, in whatever state it is, the JavaScript receiver
   calls `onMessage` exactly once, with the payload, and reports no error, if and only if the payload
   is a single frame or is neither longer than 4095 bytes nor longer than its own limit.
   */
  lemma PythonToJavaScript(c: Config, options: Options, payload: Bytes, s: ReceiverState)
    requires ClassicNormal(c) && 1 <= |payload| <= MAX_ESCAPE_PAYLOAD
    ensures var end := Feed(options, s, WireAll(c, Frames(c, payload)));
            end.messages == s.messages + [payload] && end.errors == s.errors
            <==> |payload| <= 7 || |payload| <= Min(MAX_CLASSIC_PAYLOAD, options.maxLength)
  {
    if |payload| > MAX_CLASSIC_PAYLOAD {
      EscapeDeliversEmpty(c, options, payload, s);
      var end := Feed(options, s, WireAll(c, Frames(c, payload)));
      assert end.messages[|s.messages|] == [];
    } else if |payload| > 7 && |payload| > options.maxLength {
      OverflowDeliversNothing(c, options, payload, s);
    } else {
      ReceiverTakesMessage(c, options, payload, s);
    }
  }
}
