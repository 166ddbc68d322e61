/**
 Frame layer of the ISO 15765-2 transport: capacities, protocol control bytes, padding and the
 segmentation of a payload into frame bodies. A *body* is a frame before the address byte and the
 padding are added; a *wire frame* is what reaches the bus.
 */
module IsoTpFrames {
  import opened Common

  const MAX_CLASSIC_PAYLOAD := 0xFFF
  const MAX_ESCAPE_PAYLOAD := 0xFFFF_FFFF
  const CAN_FD_LENGTHS: seq<int> := [8, 12, 16, 20, 24, 32, 48, 64]

  const SINGLE_FRAME := 0
  const FIRST_FRAME := 1
  const CONSECUTIVE_FRAME := 2
  const FLOW_CONTROL := 3

  const CONTINUE_TO_SEND := 0
  const WAIT := 1
  const OVERFLOW := 2

  /** `extended` says that a leading address byte is part of every frame. */
  datatype Config = Config(
    extended: bool,
    blockSize: nat,
    stMinMs: real,
    waitFrameLimit: nat,
    txPadding: bool,
    paddingByte: int,
    canFd: bool,
    maxFrameSize: nat,
    targetAddress: int)

  // ---------- capacities and padding ----------

  function FrameSize(c: Config): nat {
    var capacity := if c.canFd then 64 else 8;
    Min(capacity, if c.maxFrameSize != 0 then c.maxFrameSize else capacity)
  }

  function Capacity(c: Config): int {
    FrameSize(c) - if c.extended then 1 else 0
  }

  function FdPaddedFrom(k: nat, length: nat): nat
    requires k <= |CAN_FD_LENGTHS|
    decreases |CAN_FD_LENGTHS| - k
  {
    if k == |CAN_FD_LENGTHS| then 64
    else if length <= CAN_FD_LENGTHS[k] then CAN_FD_LENGTHS[k]
    else FdPaddedFrom(k + 1, length)
  }

  function FdPaddedLength(length: nat): nat {
    FdPaddedFrom(0, length)
  }

  /** The padded length is the least legal CAN FD length that fits, and every legal length is its own. */
  lemma FdPaddedLengthIsLeast(length: nat)
    requires length <= 64
    ensures FdPaddedLength(length) in CAN_FD_LENGTHS
    ensures length <= FdPaddedLength(length)
    ensures forall size :: size in CAN_FD_LENGTHS && length <= size ==> FdPaddedLength(length) <= size
  {
    assert CAN_FD_LENGTHS == [8, 12, 16, 20, 24, 32, 48, 64];
    FdPaddedTable(length);
  }

  lemma FdPaddedTable(length: nat)
    ensures FdPaddedLength(length) ==
            if length <= 8 then 8 else if length <= 12 then 12 else if length <= 16 then 16
            else if length <= 20 then 20 else if length <= 24 then 24 else if length <= 32 then 32
            else if length <= 48 then 48 else 64
  {
    var n := length;
    assert FdPaddedFrom(0, n) == if n <= 8 then 8 else FdPaddedFrom(1, n);
    assert FdPaddedFrom(1, n) == if n <= 12 then 12 else FdPaddedFrom(2, n);
    assert FdPaddedFrom(2, n) == if n <= 16 then 16 else FdPaddedFrom(3, n);
    assert FdPaddedFrom(3, n) == if n <= 20 then 20 else FdPaddedFrom(4, n);
    assert FdPaddedFrom(4, n) == if n <= 24 then 24 else FdPaddedFrom(5, n);
    assert FdPaddedFrom(5, n) == if n <= 32 then 32 else FdPaddedFrom(6, n);
    assert FdPaddedFrom(6, n) == if n <= 48 then 48 else FdPaddedFrom(7, n);
    assert FdPaddedFrom(7, n) == if n <= 64 then 64 else FdPaddedFrom(8, n);
  }

  /** The frame size is one the bus can carry without stretching a full frame. */
  predicate LegalFrameSize(c: Config) {
    if c.canFd then FrameSize(c) in CAN_FD_LENGTHS else FrameSize(c) == 8
  }

  /**
   A frame must have room for the six byte first-frame header with escape length (otherwise the slice
   bound of the first chunk is negative), and a padding sender must not stretch a full frame.
   */
  predicate Admissible(c: Config) {
    && Roomy(c)
    && (c.txPadding ==> LegalFrameSize(c))
  }

  predicate Roomy(c: Config) {
    Capacity(c) >= 6
  }

  /** A consecutive frame has room for data. */
  predicate Usable(c: Config) {
    Capacity(c) >= 2
  }

  /** The frames have room for a payload of this length: without escape length a two byte header will do. */
  predicate RoomFor(c: Config, total: nat) {
    Usable(c) && (total > MAX_CLASSIC_PAYLOAD ==> Roomy(c))
  }

  function PaddingTarget(c: Config, length: nat): nat {
    if c.canFd then FdPaddedLength(length) else 8
  }

  function Padding(c: Config, length: nat): Bytes {
    if c.txPadding && length < PaddingTarget(c, length)
    then seq(PaddingTarget(c, length) - length, _ => c.paddingByte % 256)
    else []
  }

  function Address(c: Config): Bytes {
    if c.extended then [c.targetAddress % 256] else []
  }

  /** The bytes handed to the driver for one body. */
  function Wire(c: Config, body: Bytes): Bytes {
    var addressed := Address(c) + body;
    addressed + Padding(c, |addressed|)
  }

  function WireAll(c: Config, bodies: seq<Bytes>): (frames: seq<Bytes>)
    ensures |frames| == |bodies|
    ensures forall k :: 0 <= k < |bodies| ==> frames[k] == Wire(c, bodies[k])
  {
    if bodies == [] then [] else [Wire(c, bodies[0])] + WireAll(c, bodies[1..])
  }

  lemma WireAllCons(c: Config, body: Bytes, bodies: seq<Bytes>)
    ensures WireAll(c, [body] + bodies) == [Wire(c, body)] + WireAll(c, bodies)
  {
    assert ([body] + bodies)[1..] == bodies;
  }

  function Strip(c: Config, frame: Bytes): Bytes {
    if c.extended && frame != [] then frame[1..] else frame
  }

  /** The two ends of a connection agree on the shape of a frame; everything else may differ. */
  predicate Compatible(a: Config, b: Config) {
    && a.extended == b.extended
    && a.canFd == b.canFd
    && FrameSize(a) == FrameSize(b)
  }

  /** The padding the receiver sees behind a body of the given length. */
  function Tail(c: Config, length: nat): Bytes {
    Padding(c, length + if c.extended then 1 else 0)
  }

  lemma StripWire(a: Config, b: Config, body: Bytes)
    requires a.extended == b.extended
    ensures Strip(b, Wire(a, body)) == body + Tail(a, |body|)
  {
    assert |Address(a) + body| == |body| + if a.extended then 1 else 0;
    if a.extended {
      assert Wire(a, body)[1..] == body + Tail(a, |body|);
    } else {
      assert Address(a) + body == body;
    }
  }

  /** Padding never makes a frame longer than a full one, and a full frame gets none. */
  lemma TailFits(c: Config, length: nat)
    requires Admissible(c) && length <= Capacity(c)
    ensures length + |Tail(c, length)| <= Capacity(c)
    ensures length == Capacity(c) ==> Tail(c, length) == []
  {
    var size := length + if c.extended then 1 else 0;
    if c.canFd {
      FdPaddedLengthIsLeast(size);
    }
  }

  /** The CAN FD lengths from 8 bytes on. */
  predicate DataLength(size: int) {
    size in {8, 12, 16, 20, 24, 32, 48, 64}
  }

  /**
   What reaches the bus for one body, byte by byte: the address byte if there is one, the body, and with padding on as
   many padding bytes as make up 8 bytes, or on CAN FD the next length its data length code can state.
   */
  ghost predicate OnBus(c: Config, body: Bytes, frame: Bytes) {
    var head := if c.extended then 1 else 0;
    var length := head + |body|;
    && |frame| >= length
    && (c.extended ==> frame[0] == c.targetAddress % 256)
    && frame[head..length] == body
    && (forall i :: length <= i < |frame| ==> frame[i] == c.paddingByte % 256)
    && (if !c.txPadding || (c.canFd && length > 64) then |frame| == length
        else if !c.canFd then |frame| == Max(8, length)
        else
          DataLength(|frame|) && forall size :: DataLength(size) && length <= size ==> |frame| <= size)
  }

  /** The frame handed to the driver is the one the bus is to carry, and there is no other. */
  lemma WireIsOnBus(c: Config, body: Bytes, frame: Bytes)
    ensures OnBus(c, body, frame) <==> frame == Wire(c, body)
  {
    var length := |Address(c) + body|;
    FdPaddedTable(length);
    WireOnBus(c, body);
    if OnBus(c, body, frame) {
      var wire := Wire(c, body);
      assert DataLength(|wire|) || !c.canFd || !c.txPadding || length > 64;
      assert |frame| == |wire|;
      forall i | 0 <= i < |frame| ensures frame[i] == wire[i] {
        var head := if c.extended then 1 else 0;
        if head <= i < length {
          assert frame[head..length][i - head] == wire[head..length][i - head];
        }
      }
    }
  }

  lemma WireOnBus(c: Config, body: Bytes)
    ensures OnBus(c, body, Wire(c, body))
  {
    var length := |Address(c) + body|;
    FdPaddedTable(length);
    assert Wire(c, body)[if c.extended then 1 else 0..length] == body;
  }

  // ---------- segmentation ----------

  predicate FitsSingleFrame(c: Config, payload: Bytes) {
    if c.canFd && |payload| > 7 then |payload| <= Capacity(c) - 2 else |payload| <= Capacity(c) - 1
  }

  function SingleBody(c: Config, payload: Bytes): Bytes
    requires FitsSingleFrame(c, payload)
  {
    if c.canFd && |payload| > 7 then [0x00, |payload|] + payload else [SINGLE_FRAME * 16 + |payload|] + payload
  }

  function BigEndian4(n: nat): Bytes
    requires n <= MAX_ESCAPE_PAYLOAD
  {
    [n / 0x100_0000, n / 0x1_0000 % 256, n / 0x100 % 256, n % 256]
  }

  function FromBigEndian4(b: Bytes): nat
    requires |b| == 4
  {
    (b[0] as int) * 0x100_0000 + (b[1] as int) * 0x1_0000 + (b[2] as int) * 0x100 + b[3]
  }

  lemma BigEndian4RoundTrip(n: nat)
    requires n <= MAX_ESCAPE_PAYLOAD
    ensures FromBigEndian4(BigEndian4(n)) == n
  {
    assert n / 0x1_0000 == n / 0x100_0000 * 256 + n / 0x1_0000 % 256;
    assert n / 0x100 == n / 0x1_0000 * 256 + n / 0x100 % 256;
  }

  function Header(total: nat): (h: Bytes)
    requires total <= MAX_ESCAPE_PAYLOAD
    ensures |h| == if total <= MAX_CLASSIC_PAYLOAD then 2 else 6
  {
    if total <= MAX_CLASSIC_PAYLOAD
    then [FIRST_FRAME * 16 + total / 256, total % 256]
    else [FIRST_FRAME * 16, 0x00] + BigEndian4(total)
  }

  /** Number of payload bytes in the first frame. */
  function FirstLength(c: Config, total: nat): nat
    requires RoomFor(c, total) && total <= MAX_ESCAPE_PAYLOAD
  {
    Min(Capacity(c) - |Header(total)|, total)
  }

  function FirstBody(c: Config, payload: Bytes): Bytes
    requires RoomFor(c, |payload|) && |payload| <= MAX_ESCAPE_PAYLOAD
  {
    Header(|payload|) + payload[..FirstLength(c, |payload|)]
  }

  function Chunk(c: Config, payload: Bytes, index: nat): Bytes
    requires Usable(c) && index <= |payload|
  {
    payload[index..Min(index + Capacity(c) - 1, |payload|)]
  }

  function ConsecutiveBody(c: Config, payload: Bytes, index: nat, sequence: nat): Bytes
    requires Usable(c) && index <= |payload| && sequence < 16
  {
    [CONSECUTIVE_FRAME * 16 + sequence] + Chunk(c, payload, index)
  }

  /** The consecutive-frame bodies that carry `payload[index..]`. */
  function Consecutive(c: Config, payload: Bytes, index: nat, sequence: nat): seq<Bytes>
    requires Usable(c) && index <= |payload| && sequence < 16
    decreases |payload| - index
  {
    if index == |payload| then []
    else [ConsecutiveBody(c, payload, index, sequence)]
         + Consecutive(c, payload, index + |Chunk(c, payload, index)|, (sequence + 1) % 16)
  }

  lemma ConsecutiveUnfolds(c: Config, payload: Bytes, index: nat, sequence: nat)
    requires Usable(c) && index < |payload| && sequence < 16
    ensures var next := index + |Chunk(c, payload, index)|;
            && index < next <= |payload|
            && Consecutive(c, payload, index, sequence) ==
               [ConsecutiveBody(c, payload, index, sequence)] + Consecutive(c, payload, next, (sequence + 1) % 16)
  {
  }

  /** Every body `payload` is split into. */
  function Frames(c: Config, payload: Bytes): seq<Bytes>
    requires RoomFor(c, |payload|) && |payload| <= MAX_ESCAPE_PAYLOAD
  {
    if FitsSingleFrame(c, payload) then [SingleBody(c, payload)]
    else [FirstBody(c, payload)] + Consecutive(c, payload, FirstLength(c, |payload|), 1)
  }

  /** A segmented payload always needs at least one consecutive frame. */
  lemma SegmentedIsLonger(c: Config, payload: Bytes)
    requires RoomFor(c, |payload|) && |payload| <= MAX_ESCAPE_PAYLOAD && !FitsSingleFrame(c, payload)
    ensures FirstLength(c, |payload|) == Capacity(c) - |Header(|payload|)| < |payload|
    ensures Roomy(c) ==> 6 <= |payload|
  {
  }

  /** Consecutive frame number `j` (from 0), where it starts and what it is numbered. */
  lemma {:induction false} ConsecutiveAt(c: Config, payload: Bytes, index: nat, sequence: nat, j: nat)
    requires Usable(c) && index <= |payload| && sequence < 16
    requires j < |Consecutive(c, payload, index, sequence)|
    ensures index <= StartOf(c, index, j) < |payload|
    ensures Consecutive(c, payload, index, sequence)[j] ==
            ConsecutiveBody(c, payload, StartOf(c, index, j), (sequence + j) % 16)
    decreases j
  {
    if j > 0 {
      var next := index + |Chunk(c, payload, index)|;
      ConsecutiveAt(c, payload, next, (sequence + 1) % 16, j - 1);
      StartOfStep(c, index, j);
      SequenceStep(sequence, j);
      assert Consecutive(c, payload, index, sequence)[j] == Consecutive(c, payload, next, (sequence + 1) % 16)[j - 1];
    } else {
      assert StartOf(c, index, 0) == index;
    }
  }

  lemma SequenceStep(sequence: nat, j: int)
    ensures (sequence + j) % 16 == ((sequence + 1) % 16 + (j - 1)) % 16
  {
  }

  /** Where the chunk that comes `j` full chunks after `index` starts. */
  function StartOf(c: Config, index: nat, j: int): int {
    index + j * (Capacity(c) - 1)
  }

  lemma StartOfStep(c: Config, index: nat, j: int)
    requires Usable(c)
    ensures StartOf(c, index, j) == StartOf(c, index + Capacity(c) - 1, j - 1)
    ensures StartOf(c, index, j) == StartOf(c, index, j - 1) + Capacity(c) - 1
  {
    assert j * (Capacity(c) - 1) == (j - 1) * (Capacity(c) - 1) + (Capacity(c) - 1);
  }

  /** How many consecutive frames there are: all but the last are full. */
  lemma {:induction false} ConsecutiveCount(c: Config, payload: Bytes, index: nat, sequence: nat)
    requires Usable(c) && index <= |payload| && sequence < 16
    ensures var n := |Consecutive(c, payload, index, sequence)|;
            && |payload| <= StartOf(c, index, n)
            && (n > 0 ==> StartOf(c, index, n - 1) < |payload|)
            && (n == 0 <==> index == |payload|)
    decreases |payload| - index
  {
    if index < |payload| {
      var next := index + |Chunk(c, payload, index)|;
      ConsecutiveCount(c, payload, next, (sequence + 1) % 16);
      var n := |Consecutive(c, payload, index, sequence)|;
      StartOfStep(c, index, n);
      StartOfStep(c, index, n - 1);
    }
  }

  /** Data bytes a frame of this configuration has room for, protocol control bytes included. */
  function Room(c: Config): int {
    var limit := if c.canFd then 64 else 8;
    (if 0 < c.maxFrameSize < limit then c.maxFrameSize else limit) - if c.extended then 1 else 0
  }

  /** Body `k` of a segmented payload: the first frame in either length form, and consecutive frames numbered from 1. */
  predicate SegmentedForm(c: Config, payload: Bytes, k: nat, body: Bytes) {
    var n, room := |payload|, Room(c);
    var first := room - if n <= 0xFFF then 2 else 6;
    if k == 0 then
      && 0 <= first <= n
      && body == (if n <= 0xFFF then [0x10 + n / 256, n % 256]
                  else if n <= 0xFFFF_FFFF then
                    [0x10, 0, n / 0x100_0000, n / 0x1_0000 % 256, n / 0x100 % 256, n % 256]
                  else []) + payload[..first]
    else
      var start := first + (k - 1) * (room - 1);
      && 0 <= start < n && room > 1
      && body == [0x20 + k % 16] + payload[start..Min(start + room - 1, n)]
  }

  lemma RoomIsCapacity(c: Config)
    ensures Room(c) == Capacity(c)
  {
  }

  lemma FirstHasStandardForm(c: Config, payload: Bytes)
    requires RoomFor(c, |payload|) && |payload| <= MAX_ESCAPE_PAYLOAD && !FitsSingleFrame(c, payload)
    ensures SegmentedForm(c, payload, 0, FirstBody(c, payload))
  {
    hide Room;
    RoomIsCapacity(c);
    SegmentedIsLonger(c, payload);
  }

  lemma NextHasStandardForm(c: Config, payload: Bytes, k: nat)
    requires RoomFor(c, |payload|) && |payload| <= MAX_ESCAPE_PAYLOAD && !FitsSingleFrame(c, payload)
    requires 0 < k < |Frames(c, payload)|
    ensures SegmentedForm(c, payload, k, Frames(c, payload)[k])
  {
    hide Room, Consecutive, Capacity;
    RoomIsCapacity(c);
    SegmentedIsLonger(c, payload);
    ConsecutiveAt(c, payload, FirstLength(c, |payload|), 1, k - 1);
    assert |Header(|payload|)| == if |payload| <= 0xFFF then 2 else 6;
  }

  /** The frames of a payload in the formats of ISO 15765-2:2016, section 9.6. */
  lemma FramesHaveStandardForm(c: Config, payload: Bytes)
    requires RoomFor(c, |payload|) && |payload| <= MAX_ESCAPE_PAYLOAD
    ensures var n, room, frames := |payload|, Room(c), Frames(c, payload);
            if n <= Min(7, room - 1) then frames == [[n as byte] + payload]
            else if c.canFd && 7 < n <= room - 2 then frames == [[0, n as byte] + payload]
            else |frames| > 1 && forall k: nat :: k < |frames| ==> SegmentedForm(c, payload, k, frames[k])
  {
    RoomIsCapacity(c);
    if !FitsSingleFrame(c, payload) {
      hide SegmentedForm, Consecutive, Room;
      var frames := Frames(c, payload);
      SegmentedIsLonger(c, payload);
      ConsecutiveCount(c, payload, FirstLength(c, |payload|), 1);
      FirstHasStandardForm(c, payload);
      forall k: nat | k < |frames| ensures SegmentedForm(c, payload, k, frames[k]) {
        if k > 0 {
          NextHasStandardForm(c, payload, k);
        }
      }
    }
  }

  // ---------- the preview generator ----------

  /** `bytes([...])` raises when an element is not a byte. */
  function PreviewHeader(total: nat): Option<Bytes> {
    var high := total / 256;
    if high > 255 then None
    else Some([if high / 16 % 2 == 1 then high else high + 16, total % 256])
  }

  /** What `iter_frames` yields, or None where it raises; its header is never the escape form. */
  function Preview(c: Config, payload: Bytes): Option<seq<Bytes>>
    requires Usable(c)
  {
    if FitsSingleFrame(c, payload) then Some([SingleBody(c, payload)])
    else
      var header := PreviewHeader(|payload|);
      if header.None? then None
      else
        var first := Min(Capacity(c) - 2, |payload|);
        Some([header.value + payload[..first]] + Consecutive(c, payload, first, 1))
  }

  function TotalLength(bodies: seq<Bytes>): nat {
    if bodies == [] then 0 else |bodies[0]| + TotalLength(bodies[1..])
  }

  lemma {:induction false} ConsecutiveLength(c: Config, payload: Bytes, index: nat, sequence: nat)
    requires Usable(c) && index <= |payload| && sequence < 16
    ensures var bodies := Consecutive(c, payload, index, sequence);
            TotalLength(bodies) == |payload| - index + |bodies|
    decreases |payload| - index
  {
    if index < |payload| {
      ConsecutiveLength(c, payload, index + |Chunk(c, payload, index)|, (sequence + 1) % 16);
    }
  }

  /**
   The preview shows the frames that are transmitted exactly for payloads without escape length. A
   longer payload is previewed differently: the previewed bytes are four short of the transmitted ones.
   */
  lemma PreviewIsExact(c: Config, payload: Bytes)
    requires RoomFor(c, |payload|) && |payload| <= MAX_ESCAPE_PAYLOAD
    ensures Preview(c, payload) == Some(Frames(c, payload)) <==> |payload| <= MAX_CLASSIC_PAYLOAD
  {
    if |payload| > MAX_CLASSIC_PAYLOAD && Preview(c, payload).Some? {
      var sent, shown := Frames(c, payload), Preview(c, payload).value;
      var first := Capacity(c) - 2;
      ConsecutiveLength(c, payload, first, 1);
      ConsecutiveLength(c, payload, FirstLength(c, |payload|), 1);
      assert shown[1..] == Consecutive(c, payload, first, 1);
      assert sent[1..] == Consecutive(c, payload, FirstLength(c, |payload|), 1);
      assert TotalLength(shown) == |payload| + 2 + |shown| - 1;
      assert TotalLength(sent) == |payload| + 6 + |sent| - 1;
    }
  }

  /** Above 4095 bytes the header byte is the type with the higher length byte over it; from 64 KiB on it raises. */
  lemma PreviewBeyond(c: Config, payload: Bytes)
    requires Usable(c) && |payload| > 0xFFF && !FitsSingleFrame(c, payload)
    ensures Preview(c, payload).None? <==> |payload| >= 0x1_0000
    ensures |payload| < 0x1_0000 ==>
              var first, high := Preview(c, payload).value[0], |payload| / 256;
              |first| >= 2 && first[0] == (if high / 16 % 2 == 1 then high else high + 0x10)
              && first[1] == |payload| % 256
  {
  }

  lemma NothingConsecutive(c: Config, payload: Bytes, sequence: nat)
    requires Usable(c) && sequence < 16
    ensures Consecutive(c, payload, |payload|, sequence) == []
  {
  }

  /** The generator itself: it accumulates what the consumer of `iter_frames` would see. */
  method IterFrames(c: Config, payload: Bytes) returns (frames: Option<seq<Bytes>>)
    requires Usable(c)
    ensures frames == Preview(c, payload)
  {
    hide Consecutive;
    if FitsSingleFrame(c, payload) {
      return Some([SingleBody(c, payload)]);
    }
    var total := |payload|;
    var header := PreviewHeader(total);
    if header.None? {
      return None;
    }
    var first := payload[..Min(Capacity(c) - 2, total)];
    var out: seq<Bytes> := [header.value + first];
    var index, sequence := |first|, 1;
    while index < total
      invariant 0 <= index <= total && 0 <= sequence < 16
      invariant out + Consecutive(c, payload, index, sequence) == Preview(c, payload).value
    {
      ConsecutiveUnfolds(c, payload, index, sequence);
      var chunk := Chunk(c, payload, index);
      out := out + [[CONSECUTIVE_FRAME * 16 + sequence] + chunk];
      index := index + |chunk|;
      sequence := (sequence + 1) % 16;
    }
    NothingConsecutive(c, payload, sequence);
    assert out + [] == out;
    return Some(out);
  }
}
