/**
 `IsoTpSender` of the JavaScript engine. A run is any sequence of events, each of them what the engine does up to
 its next `await` or the end of a callback: a call of `send` or `handleFlowControl`, a suspended block loop that
 goes on, the end of a single frame's transmission, and a failure, whether of a timer or of a transmission.
 Several transfers can be under way at a time; flow control reaches only the active one.
 */
module JsSender {
  import opened Common
  import opened IsoTpFrames
  import opened JsIsoTp

  /** A suspended call of `_sendConsecutive` for transfer `k`, with `count` frames of its block transmitted. */
  datatype Loop = Loop(k: nat, count: nat)

  datatype Tagged = Tagged(k: nat, frame: Bytes)

  /** The records in the order of their `send`, the active one, the suspended block loops and what was transmitted. */
  datatype Engine = Engine(transfers: seq<Transfer>, active: Option<nat>, loops: seq<Loop>, wire: seq<Tagged>)

  const IDLE := Engine([], None, [], [])

  predicate Short(t: Transfer) {
    |t.data| <= 7
  }

  predicate RecordOk(t: Transfer) {
    TransferOk(t) && (Short(t) ==> t.offset == |t.data|)
  }

  predicate Running(e: Engine, k: nat) {
    k < |e.transfers| && e.transfers[k].progress.Pending?
  }

  predicate Segmented(e: Engine, k: nat) {
    k < |e.transfers| && !Short(e.transfers[k])
  }

  predicate Sound(e: Engine) {
    && (forall k :: 0 <= k < |e.transfers| ==> RecordOk(e.transfers[k]))
    && (forall i :: 0 <= i < |e.loops| ==> Segmented(e, e.loops[i].k))
    && (e.active.Some? ==> Segmented(e, e.active.value) && Running(e, e.active.value))
  }

  // ---------- the events ----------

  datatype Event = Send(payload: Bytes) | Flow(fc: Bytes) | Resume(i: nat) | Confirm(k: nat) | Fail(k: nat)

  predicate Enabled(e: Engine, ev: Event) {
    match ev
    case Send(_) => true
    case Flow(_) => true
    case Resume(i) => i < |e.loops|
    case Confirm(k) => k < |e.transfers| && Short(e.transfers[k])
    case Fail(k) => k < |e.transfers|
  }

  /** `_finish` and `_fail`: whichever transfer ends, none is active afterwards. */
  function Settle(e: Engine, k: nat, progress: Progress): (r: Engine)
    requires Sound(e) && k < |e.transfers|
    requires progress.Resolved? ==> e.transfers[k].offset == |e.transfers[k].data|
    ensures Sound(r) && |r.transfers| == |e.transfers|
  {
    if !Running(e, k) then e
    else e.(transfers := e.transfers[k := e.transfers[k].(progress := progress)], active := None)
  }

  /** The record of a new transfer. */
  function Opened(payload: Bytes): Transfer {
    Start(payload).0.(progress := Pending)
  }

  function OnSend(e: Engine, payload: Bytes): (r: Engine)
    requires Sound(e)
    ensures Sound(r)
  {
    var k := |e.transfers|;
    e.(transfers := e.transfers + [Opened(payload)],
       active := if |payload| <= 7 then e.active else Some(k),
       wire := e.wire + [Tagged(k, Start(payload).1)])
  }

  /** A block loop from its head to its next `await` or its end. */
  function Step(e: Engine, k: nat, count: nat): (r: Engine)
    requires Sound(e) && Running(e, k) && Segmented(e, k)
    ensures Sound(r) && |r.transfers| == |e.transfers|
  {
    var (t, frame) := Advance(e.transfers[k], count);
    if frame.Some? then
      e.(transfers := e.transfers[k := t], loops := e.loops + [Loop(k, count + 1)],
         wire := e.wire + [Tagged(k, frame.value)])
    else if t.progress.Resolved? then Settle(e, k, Resolved)
    else e
  }

  function Granted(e: Engine, k: nat, block: nat): (r: Engine)
    requires Sound(e) && k < |e.transfers|
    ensures Sound(r) && |r.transfers| == |e.transfers|
  {
    e.(transfers := e.transfers[k := e.transfers[k].(blockLeft := block)])
  }

  function OnFlow(option: nat, e: Engine, fc: Bytes): (r: Engine)
    requires Sound(e)
    ensures Sound(r) && |r.transfers| == |e.transfers|
  {
    if e.active.None? then e
    else
      var k := e.active.value;
      if At(fc, 0) % 16 == FLOW_ABORT then Settle(e, k, Rejected)
      else if At(fc, 0) % 16 == FLOW_WAIT then e
      else Step(Granted(e, k, BlockLength(option, fc)), k, 0)
  }

  function Without(e: Engine, i: nat): (r: Engine)
    requires Sound(e) && i < |e.loops|
    ensures Sound(r)
  {
    e.(loops := e.loops[..i] + e.loops[i + 1..])
  }

  function OnResume(e: Engine, i: nat): (r: Engine)
    requires Sound(e) && i < |e.loops|
    ensures Sound(r) && |r.transfers| == |e.transfers|
  {
    var Loop(k, count) := e.loops[i];
    if Running(e, k) then Step(Without(e, i), k, count) else Without(e, i)
  }

  function Apply(option: nat, e: Engine, ev: Event): (r: Engine)
    requires Sound(e) && Enabled(e, ev)
    ensures Sound(r)
  {
    match ev
    case Send(payload) => OnSend(e, payload)
    case Flow(fc) => OnFlow(option, e, fc)
    case Resume(i) => OnResume(e, i)
    case Confirm(k) => Settle(e, k, Resolved)
    case Fail(k) => Settle(e, k, Rejected)
  }

  predicate Possible(option: nat, e: Engine, events: seq<Event>)
    requires Sound(e)
    decreases |events|
  {
    events == [] || (Enabled(e, events[0]) && Possible(option, Apply(option, e, events[0]), events[1..]))
  }

  function Run(option: nat, e: Engine, events: seq<Event>): (r: Engine)
    requires Sound(e) && Possible(option, e, events)
    ensures Sound(r)
    decreases |events|
  {
    if events == [] then e else Run(option, Apply(option, e, events[0]), events[1..])
  }

  // ---------- the sender ----------

  class Sender {
    const blockSizeOption: nat
    var transfers: seq<Transfer>
    var active: Option<nat>
    var loops: seq<Loop>
    var wire: seq<Tagged>

    constructor (blockSizeOption: nat)
      ensures this.blockSizeOption == blockSizeOption && State() == IDLE
    {
      this.blockSizeOption := blockSizeOption;
      transfers, active, loops, wire := [], None, [], [];
    }

    ghost function State(): Engine
      reads this
    {
      Engine(transfers, active, loops, wire)
    }

    method Transmit(k: nat, frame: Bytes)
      modifies this`wire
      ensures wire == old(wire) + [Tagged(k, frame)]
    {
      wire := wire + [Tagged(k, frame)];
    }

    /** A single frame leaves the active transfer alone until its transmission is over; a longer payload replaces it. */
    method Send(payload: Bytes)
      requires Sound(State())
      modifies this
      ensures State() == OnSend(old(State()), payload)
    {
      var k := |transfers|;
      if |payload| <= 7 {
        transfers := transfers + [Transfer(payload, |payload|, 1, 0, Pending)];
        Transmit(k, [SINGLE_FRAME * 16 + |payload|] + payload);
        return;
      }
      transfers := transfers + [Transfer(payload, 6, 1, 0, Pending)];
      active := Some(k);
      var header: Bytes := [FIRST_FRAME * 16 + |payload| / 256 % 16, |payload| % 256];
      Transmit(k, header + Slice(payload, 0, 6));
    }

    method HandleFlowControl(fc: Bytes)
      requires Sound(State())
      modifies this
      ensures State() == OnFlow(blockSizeOption, old(State()), fc)
    {
      if active.None? {
        return;
      }
      var k, status := active.value, At(fc, 0) % 16;
      if status == FLOW_ABORT {
        Fail(k);
        return;
      }
      if status == FLOW_WAIT {
        return;
      }
      var blockLeft := (if |fc| > 1 && fc[1] != 0 then fc[1] else blockSizeOption) % 256;
      transfers := transfers[k := transfers[k].(blockLeft := blockLeft)];
      SendConsecutive(k, 0);
    }

    /** The loop of `_sendConsecutive` from its head to its next `await` or its end. */
    method SendConsecutive(k: nat, count: nat)
      requires Sound(State()) && Running(State(), k) && Segmented(State(), k)
      modifies this
      ensures State() == Step(old(State()), k, count)
    {
      var st := transfers[k];
      if st.offset < |st.data| && count < st.blockLeft {
        var chunk := st.data[st.offset..Min(st.offset + 7, |st.data|)];
        assert chunk == Slice(st.data, st.offset, st.offset + 7);
        transfers := transfers[k := st.(offset := st.offset + |chunk|, sn := (st.sn + 1) % 16)];
        Transmit(k, [CONSECUTIVE_FRAME * 16 + st.sn] + chunk);
        loops := loops + [Loop(k, count + 1)];
        return;
      }
      if st.offset >= |st.data| {
        Finish(k);
      }
    }

    /** A suspended loop goes on, unless its transfer has ended meanwhile. */
    method Resume(i: nat)
      requires Sound(State()) && i < |loops|
      modifies this
      ensures State() == OnResume(old(State()), i)
    {
      var Loop(k, count) := loops[i];
      loops := loops[..i] + loops[i + 1..];
      if transfers[k].progress != Pending {
        return;
      }
      SendConsecutive(k, count);
    }

    method Finish(k: nat)
      requires Sound(State()) && k < |transfers| && transfers[k].offset == |transfers[k].data|
      modifies this`transfers, this`active
      ensures State() == Settle(old(State()), k, Resolved)
    {
      if transfers[k].progress != Pending {
        return;
      }
      transfers := transfers[k := transfers[k].(progress := Resolved)];
      active := None;
    }

    method Fail(k: nat)
      requires Sound(State()) && k < |transfers|
      modifies this`transfers, this`active
      ensures State() == Settle(old(State()), k, Rejected)
    {
      if transfers[k].progress != Pending {
        return;
      }
      transfers := transfers[k := transfers[k].(progress := Rejected)];
      active := None;
    }
  }

  // ---------- what is transmitted ----------

  function FramesOf(wire: seq<Tagged>, k: nat): seq<Bytes> {
    if wire == [] then []
    else
      var last := |wire| - 1;
      FramesOf(wire[..last], k) + if wire[last].k == k then [wire[last].frame] else []
  }

  lemma FramesOfSnoc(wire: seq<Tagged>, x: Tagged, k: nat)
    ensures FramesOf(wire + [x], k) == FramesOf(wire, k) + if x.k == k then [x.frame] else []
  {
    assert (wire + [x])[..|wire|] == wire;
  }

  /** The frames a transfer still has to transmit. */
  function Unsent(c: Config, t: Transfer): seq<Bytes>
    requires ClassicNormal(c) && TransferOk(t)
  {
    Consecutive(c, t.data, t.offset, t.sn)
  }

  /** All frames of a payload. */
  function Whole(c: Config, payload: Bytes): seq<Bytes>
    requires ClassicNormal(c)
  {
    [Start(payload).1] + Unsent(c, Start(payload).0)
  }

  lemma StepFrames(c: Config, e: Engine, k: nat, count: nat, j: nat)
    requires ClassicNormal(c) && Sound(e) && Running(e, k) && Segmented(e, k) && j < |e.transfers|
    ensures var r := Step(e, k, count);
            && r.transfers[j].data == e.transfers[j].data
            && FramesOf(r.wire, j) + Unsent(c, r.transfers[j]) == FramesOf(e.wire, j) + Unsent(c, e.transfers[j])
  {
    hide Consecutive, NextFrame, FramesOf;
    var t := e.transfers[k];
    if t.offset < |t.data| && count < t.blockLeft {
      NextIsBody(c, t);
      FramesOfSnoc(e.wire, Tagged(k, NextFrame(t)), j);
    }
  }

  lemma ApplyFrames(c: Config, option: nat, e: Engine, ev: Event, j: nat)
    requires ClassicNormal(c) && Sound(e) && Enabled(e, ev) && j < |e.transfers|
    ensures var r := Apply(option, e, ev);
            && j < |r.transfers|
            && FramesOf(r.wire, j) + Unsent(c, r.transfers[j]) == FramesOf(e.wire, j) + Unsent(c, e.transfers[j])
            && r.transfers[j].data == e.transfers[j].data
  {
    hide Consecutive, FramesOf, Step;
    match ev
    case Send(payload) =>
      FramesOfSnoc(e.wire, Tagged(|e.transfers|, Start(payload).1), j);
    case Flow(fc) =>
      if e.active.Some? {
        var k := e.active.value;
        StepFrames(c, Granted(e, k, BlockLength(option, fc)), k, 0, j);
      }
    case Resume(i) =>
      if Running(e, e.loops[i].k) {
        StepFrames(c, Without(e, i), e.loops[i].k, e.loops[i].count, j);
      }
    case _ =>
  }

  lemma {:induction false} FramesOfNone(wire: seq<Tagged>, k: nat)
    requires forall i :: 0 <= i < |wire| ==> wire[i].k != k
    ensures FramesOf(wire, k) == []
  {
    if wire != [] {
      FramesOfNone(wire[..|wire| - 1], k);
    }
  }

  /** Every record's transmitted and unsent frames are the frames of its payload. */
  predicate CutOk(c: Config, e: Engine)
    requires ClassicNormal(c) && Sound(e)
  {
    && (forall i :: 0 <= i < |e.wire| ==> e.wire[i].k < |e.transfers|)
    && (forall j :: 0 <= j < |e.transfers| ==> JoinsWhole(c, e, j))
  }

  predicate JoinsWhole(c: Config, e: Engine, j: nat)
    requires ClassicNormal(c) && Sound(e) && j < |e.transfers|
  {
    FramesOf(e.wire, j) + Unsent(c, e.transfers[j]) == Whole(c, e.transfers[j].data)
  }

  predicate HasLoop(e: Engine, k: nat) {
    exists i :: 0 <= i < |e.loops| && e.loops[i].k == k
  }

  /** Behind the last frame of a running transfer a loop is still suspended. */
  predicate Attended(e: Engine) {
    forall k :: 0 <= k < |e.transfers| ==> AttendedAt(e, k)
  }

  predicate AttendedAt(e: Engine, k: nat)
    requires k < |e.transfers|
  {
    var t := e.transfers[k];
    t.progress.Pending? && !Short(t) && t.offset == |t.data| ==> HasLoop(e, k)
  }

  lemma StepAttended(e: Engine, k: nat, count: nat)
    requires Sound(e) && Running(e, k) && Segmented(e, k)
    requires forall j :: 0 <= j < |e.transfers| && j != k ==> AttendedAt(e, j)
    ensures Attended(Step(e, k, count))
  {
    var r := Step(e, k, count);
    forall j | 0 <= j < |r.transfers| ensures AttendedAt(r, j) {
      if j == k && |r.loops| > |e.loops| {
        assert r.loops[|e.loops|].k == k;
      } else if j != k {
        assert AttendedAt(e, j);
        if HasLoop(e, j) {
          var i :| 0 <= i < |e.loops| && e.loops[i].k == j;
          assert r.loops[i].k == j;
        }
      }
    }
  }

  lemma WithoutAttended(e: Engine, i: nat)
    requires Sound(e) && i < |e.loops| && Attended(e)
    ensures forall j :: 0 <= j < |e.transfers| && j != e.loops[i].k ==> AttendedAt(Without(e, i), j)
    ensures !Running(e, e.loops[i].k) ==> Attended(Without(e, i))
  {
    var r := Without(e, i);
    forall j | 0 <= j < |e.transfers| && j != e.loops[i].k ensures AttendedAt(r, j) {
      assert AttendedAt(e, j);
      if HasLoop(e, j) {
        var m :| 0 <= m < |e.loops| && e.loops[m].k == j;
        assert r.loops[if m < i then m else m - 1].k == j;
      }
    }
  }

  lemma SettleAttended(e: Engine, k: nat, progress: Progress)
    requires Sound(e) && k < |e.transfers| && Attended(e) && !progress.Pending?
    requires progress.Resolved? ==> e.transfers[k].offset == |e.transfers[k].data|
    ensures Attended(Settle(e, k, progress))
  {
    var r := Settle(e, k, progress);
    forall j | 0 <= j < |r.transfers| ensures AttendedAt(r, j) {
      assert AttendedAt(e, j);
      assert r.loops == e.loops && (HasLoop(e, j) ==> HasLoop(r, j));
    }
  }

  lemma GrantedAttended(e: Engine, k: nat, block: nat)
    requires Sound(e) && k < |e.transfers| && Attended(e)
    ensures Attended(Granted(e, k, block))
  {
    var r := Granted(e, k, block);
    forall j | 0 <= j < |r.transfers| ensures AttendedAt(r, j) {
      assert AttendedAt(e, j);
      assert r.loops == e.loops && (HasLoop(e, j) ==> HasLoop(r, j));
    }
  }

  lemma SendAttended(e: Engine, payload: Bytes)
    requires Sound(e) && Attended(e)
    ensures Attended(OnSend(e, payload))
  {
    var r := OnSend(e, payload);
    forall j | 0 <= j < |r.transfers| ensures AttendedAt(r, j) {
      if j < |e.transfers| {
        assert AttendedAt(e, j);
        assert r.loops == e.loops && (HasLoop(e, j) ==> HasLoop(r, j));
      }
    }
  }

  lemma ApplyAttended(option: nat, e: Engine, ev: Event)
    requires Sound(e) && Enabled(e, ev) && Attended(e)
    ensures Attended(Apply(option, e, ev))
  {
    hide Attended, Step;
    match ev
    case Send(payload) =>
      SendAttended(e, payload);
    case Flow(fc) =>
      if e.active.Some? {
        var k := e.active.value;
        SettleAttended(e, k, Rejected);
        GrantedAttended(e, k, BlockLength(option, fc));
        AttendsOthers(Granted(e, k, BlockLength(option, fc)), k);
        StepAttended(Granted(e, k, BlockLength(option, fc)), k, 0);
      }
    case Resume(i) =>
      WithoutAttended(e, i);
      if Running(e, e.loops[i].k) {
        StepAttended(Without(e, i), e.loops[i].k, e.loops[i].count);
      }
    case Confirm(k) =>
      SettleAttended(e, k, Resolved);
    case Fail(k) =>
      SettleAttended(e, k, Rejected);
  }

  lemma AttendsOthers(e: Engine, k: nat)
    requires Attended(e)
    ensures forall j :: 0 <= j < |e.transfers| && j != k ==> AttendedAt(e, j)
  {
  }

  lemma StepTags(e: Engine, k: nat, count: nat)
    requires Sound(e) && Running(e, k) && Segmented(e, k)
    requires forall i :: 0 <= i < |e.wire| ==> e.wire[i].k < |e.transfers|
    ensures var r := Step(e, k, count); forall i :: 0 <= i < |r.wire| ==> r.wire[i].k < |r.transfers|
  {
  }

  lemma ApplyCuts(c: Config, option: nat, e: Engine, ev: Event)
    requires ClassicNormal(c) && Sound(e) && Enabled(e, ev) && CutOk(c, e)
    ensures CutOk(c, Apply(option, e, ev))
  {
    hide Unsent, FramesOf, Whole, Step;
    var r := Apply(option, e, ev);
    forall j | 0 <= j < |r.transfers| ensures JoinsWhole(c, r, j) {
      if j < |e.transfers| {
        assert JoinsWhole(c, e, j);
        ApplyFrames(c, option, e, ev, j);
      } else {
        FramesOfNone(e.wire, j);
        FramesOfSnoc(e.wire, Tagged(j, Start(ev.payload).1), j);
        OpenedUnsent(c, ev.payload);
      }
    }
    if ev.Flow? && e.active.Some? {
      StepTags(Granted(e, e.active.value, BlockLength(option, ev.fc)), e.active.value, 0);
    } else if ev.Resume? && Running(e, e.loops[ev.i].k) {
      StepTags(Without(e, ev.i), e.loops[ev.i].k, e.loops[ev.i].count);
    }
  }

  lemma OpenedUnsent(c: Config, payload: Bytes)
    requires ClassicNormal(c)
    ensures [] + [Start(payload).1] + Unsent(c, Opened(payload)) == Whole(c, payload)
  {
  }

  lemma {:induction false} RunCuts(c: Config, option: nat, e: Engine, events: seq<Event>)
    requires ClassicNormal(c) && Sound(e) && Possible(option, e, events) && CutOk(c, e) && Attended(e)
    ensures CutOk(c, Run(option, e, events)) && Attended(Run(option, e, events))
    decreases |events|
  {
    hide Apply, CutOk, Attended, Sound;
    if events != [] {
      ApplyCuts(c, option, e, events[0]);
      ApplyAttended(option, e, events[0]);
      RunCuts(c, option, Apply(option, e, events[0]), events[1..]);
    }
  }

  /**
   Whatever is sent, granted, confirmed and failed in whatever order, and however block loops interleave: each
   transfer transmits a beginning of the frames of its payload, up to 4095 bytes those of the Python handler, and
   all of them if it resolves. All of them without an end is the state of a last frame whose transmission is awaited.
   */
  lemma EveryTransfer(c: Config, option: nat, events: seq<Event>, j: nat)
    requires ClassicNormal(c) && Possible(option, IDLE, events) && j < |Run(option, IDLE, events).transfers|
    ensures var e := Run(option, IDLE, events);
            var t, own := e.transfers[j], FramesOf(e.wire, j);
            && own <= Whole(c, t.data)
            && (t.progress.Resolved? ==> own == Whole(c, t.data))
            && (own == Whole(c, t.data) && t.progress.Pending? && !Short(t) ==> HasLoop(e, j))
            && (1 <= |t.data| <= MAX_CLASSIC_PAYLOAD ==> Whole(c, t.data) == Frames(c, t.data))
  {
    hide Consecutive, Frames, FramesOf, Run, Possible, Whole;
    RunCuts(c, option, IDLE, events);
    var e := Run(option, IDLE, events);
    var t, own := e.transfers[j], FramesOf(e.wire, j);
    assert JoinsWhole(c, e, j) && AttendedAt(e, j);
    NothingUnsent(c, t.data, t.offset, t.sn);
    PrefixOfWhole(own, Unsent(c, t), Whole(c, t.data));
    if 1 <= |t.data| <= MAX_CLASSIC_PAYLOAD {
      WholeIsFrames(c, t.data);
    }
  }

  lemma PrefixOfWhole(own: seq<Bytes>, later: seq<Bytes>, all: seq<Bytes>)
    requires own + later == all
    ensures own <= all && (own == all <==> later == [])
  {
  }

  lemma WholeIsFrames(c: Config, payload: Bytes)
    requires ClassicNormal(c) && 1 <= |payload| <= MAX_CLASSIC_PAYLOAD
    ensures Whole(c, payload) == Frames(c, payload)
  {
    hide Consecutive, Frames;
    StartsAlike(c, payload);
  }

  // ---------- which transfer is active ----------

  /** Nothing that ran has ended, and only single frames were sent. */
  predicate Calm(e: Engine, r: Engine) {
    && |e.transfers| <= |r.transfers|
    && (forall j :: 0 <= j < |e.transfers| && Running(e, j) ==> Running(r, j))
    && (forall j :: |e.transfers| <= j < |r.transfers| ==> Running(r, j) && Short(r.transfers[j]))
  }

  /** Records keep their payload, and what has ended stays so. */
  predicate Persistent(e: Engine, r: Engine) {
    && |e.transfers| <= |r.transfers|
    && (forall j :: 0 <= j < |e.transfers| ==>
          r.transfers[j].data == e.transfers[j].data && (Running(r, j) ==> Running(e, j)))
  }

  lemma CalmJoins(e: Engine, r: Engine, end: Engine)
    requires Persistent(e, r) && Persistent(r, end)
    ensures Persistent(e, end) && (Calm(e, end) <==> Calm(e, r) && Calm(r, end))
  {
  }

  /** What an event makes of the active transfer. */
  predicate Hands(e: Engine, r: Engine) {
    && Persistent(e, r)
    && (if Calm(e, r) then r.active == e.active else r.active.None? || r.active.value >= |e.transfers|)
  }

  lemma StepActive(e: Engine, k: nat, count: nat)
    requires Sound(e) && Running(e, k) && Segmented(e, k)
    ensures Hands(e, Step(e, k, count))
  {
  }

  lemma SettleActive(e: Engine, k: nat, progress: Progress)
    requires Sound(e) && k < |e.transfers| && !progress.Pending?
    requires progress.Resolved? ==> e.transfers[k].offset == |e.transfers[k].data|
    ensures Hands(e, Settle(e, k, progress))
  {
    assert Running(e, k) ==> !Running(Settle(e, k, progress), k);
  }

  lemma SameActive(e: Engine)
    ensures Hands(e, e) && Calm(e, e)
  {
  }

  lemma SendActive(e: Engine, payload: Bytes)
    requires Sound(e)
    ensures Hands(e, OnSend(e, payload))
  {
  }

  /** A grant and the waking of a loop change no progress. */
  lemma SameHands(e: Engine, f: Engine, r: Engine)
    requires Hands(f, r) && |f.transfers| == |e.transfers| && f.active == e.active
    requires forall j :: 0 <= j < |e.transfers| ==> f.transfers[j].data == e.transfers[j].data
    requires forall j :: 0 <= j < |e.transfers| ==> f.transfers[j].progress == e.transfers[j].progress
    ensures Hands(e, r)
  {
    assert forall j :: 0 <= j < |e.transfers| ==> Running(f, j) == Running(e, j);
  }

  lemma ApplyActive(option: nat, e: Engine, ev: Event)
    requires Sound(e) && Enabled(e, ev)
    ensures Hands(e, Apply(option, e, ev))
  {
    SameActive(e);
    hide Hands, Step, Settle;
    match ev
    case Send(payload) =>
      SendActive(e, payload);
    case Flow(fc) =>
      if e.active.Some? {
        var k := e.active.value;
        var granted := Granted(e, k, BlockLength(option, fc));
        SettleActive(e, k, Rejected);
        StepActive(granted, k, 0);
        SameHands(e, granted, Step(granted, k, 0));
      }
    case Resume(i) =>
      SameActive(Without(e, i));
      if Running(e, e.loops[i].k) {
        StepActive(Without(e, i), e.loops[i].k, e.loops[i].count);
      }
      SameHands(e, Without(e, i), OnResume(e, i));
    case Confirm(k) =>
      SettleActive(e, k, Resolved);
    case Fail(k) =>
      SettleActive(e, k, Rejected);
  }

  /**
   A transfer that is active stays so exactly as long as nothing ends, neither it nor any other that is under way,
   and nothing but single frames is sent; one that is not never becomes active.
   */
  lemma {:induction false} ActiveSurvives(option: nat, e: Engine, events: seq<Event>, k: nat)
    requires Sound(e) && Possible(option, e, events) && k < |e.transfers|
    ensures var end := Run(option, e, events);
            Persistent(e, end) && (end.active == Some(k) <==> e.active == Some(k) && Calm(e, end))
    decreases |events|
  {
    hide Apply, Calm, Sound;
    if events != [] {
      var r := Apply(option, e, events[0]);
      ApplyActive(option, e, events[0]);
      ActiveSurvives(option, r, events[1..], k);
      CalmJoins(e, r, Run(option, r, events[1..]));
    } else {
      SameActive(e);
    }
  }

  // ---------- a transfer that is not active any more ----------

  /** What the suspended loops of transfer `k` can still transmit of blocks of `block` frames. */
  function OwedBy(loops: seq<Loop>, block: nat, k: nat): nat {
    if loops == [] then 0
    else
      var last := |loops| - 1;
      OwedBy(loops[..last], block, k) + Left(loops[last], block, k)
  }

  function Left(l: Loop, block: nat, k: nat): nat {
    if l.k == k && l.count < block then block - l.count else 0
  }

  function Owed(e: Engine, k: nat): nat
    requires k < |e.transfers|
  {
    OwedBy(e.loops, e.transfers[k].blockLeft, k)
  }

  lemma OwedSnoc(loops: seq<Loop>, l: Loop, block: nat, k: nat)
    ensures OwedBy(loops + [l], block, k) == OwedBy(loops, block, k) + Left(l, block, k)
  {
    assert (loops + [l])[..|loops|] == loops;
  }

  lemma {:induction false} OwedWithout(loops: seq<Loop>, i: nat, block: nat, k: nat)
    requires i < |loops|
    ensures OwedBy(loops, block, k) == OwedBy(loops[..i] + loops[i + 1..], block, k) + Left(loops[i], block, k)
    decreases |loops|
  {
    var last := |loops| - 1;
    if i < last {
      var before := loops[..last];
      OwedWithout(before, i, block, k);
      OwedSnoc(before[..i] + before[i + 1..], loops[last], block, k);
      assert loops[..i] + loops[i + 1..] == (before[..i] + before[i + 1..]) + [loops[last]] && before[i] == loops[i];
    } else {
      assert loops[..i] + loops[i + 1..] == loops[..last];
    }
  }

  lemma {:induction false} OwedHasLoop(loops: seq<Loop>, block: nat, k: nat) returns (i: nat)
    requires OwedBy(loops, block, k) > 0
    ensures i < |loops| && loops[i].k == k
  {
    i := |loops| - 1;
    if loops[i].k != k {
      i := OwedHasLoop(loops[..i], block, k);
    }
  }

  /** What was transmitted of transfer `k`, and what its loops can add. */
  function Reach(e: Engine, k: nat): nat
    requires k < |e.transfers|
  {
    |FramesOf(e.wire, k)| + Owed(e, k)
  }

  lemma StepReach(e: Engine, j: nat, count: nat, k: nat)
    requires Sound(e) && Running(e, j) && Segmented(e, j) && k < |e.transfers|
    ensures var r := Step(e, j, count);
            && r.transfers[k].blockLeft == e.transfers[k].blockLeft
            && Reach(r, k) <= Reach(e, k) + Left(Loop(j, count), e.transfers[k].blockLeft, k)
            && (Running(r, j) ==> Reach(r, k) == Reach(e, k) + Left(Loop(j, count), e.transfers[k].blockLeft, k)
                                  || (j == k && e.transfers[k].offset == |e.transfers[k].data|))
  {
    hide FramesOf, OwedBy;
    var t := e.transfers[j];
    if t.offset < |t.data| && count < t.blockLeft {
      FramesOfSnoc(e.wire, Tagged(j, NextFrame(t)), k);
      OwedSnoc(e.loops, Loop(j, count + 1), e.transfers[k].blockLeft, k);
    }
  }

  lemma ResumeReach(e: Engine, i: nat, k: nat)
    requires Sound(e) && i < |e.loops| && k < |e.transfers|
    ensures var r := OnResume(e, i);
            && Reach(r, k) <= Reach(e, k)
            && (Running(r, k) && e.loops[i].k == k ==> Reach(r, k) == Reach(e, k))
  {
    hide FramesOf, OwedBy, Step;
    var Loop(j, count) := e.loops[i];
    OwedWithout(e.loops, i, e.transfers[k].blockLeft, k);
    if Running(e, j) {
      StepReach(Without(e, i), j, count, k);
      StepEnds(Without(e, i), j, count);
    }
  }

  /** A loop that finds nothing left ends its transfer. */
  lemma StepEnds(e: Engine, k: nat, count: nat)
    requires Sound(e) && Running(e, k) && Segmented(e, k)
    ensures var r := Step(e, k, count);
            && !r.transfers[k].progress.Rejected?
            && (Running(r, k) ==> e.transfers[k].offset < |e.transfers[k].data|)
  {
  }

  lemma ApplyReach(option: nat, e: Engine, ev: Event, k: nat)
    requires Sound(e) && Enabled(e, ev) && k < |e.transfers| && e.active != Some(k)
    ensures var r := Apply(option, e, ev); k < |r.transfers| && Reach(r, k) <= Reach(e, k)
  {
    hide FramesOf, OwedBy, Step;
    match ev
    case Send(payload) =>
      FramesOfSnoc(e.wire, Tagged(|e.transfers|, Start(payload).1), k);
    case Flow(fc) =>
      if e.active.Some? {
        StepReach(Granted(e, e.active.value, BlockLength(option, fc)), e.active.value, 0, k);
      }
    case Resume(i) =>
      ResumeReach(e, i, k);
    case _ =>
  }

  /**
   A transfer that is not active transmits at most what its suspended loops have left of the block granted last;
   without such a loop, nothing any more.
   */
  lemma {:induction false} DroppedIsBounded(option: nat, e: Engine, events: seq<Event>, k: nat)
    requires Sound(e) && Possible(option, e, events) && k < |e.transfers| && e.active != Some(k)
    ensures var end := Run(option, e, events); k < |end.transfers| && Reach(end, k) <= Reach(e, k)
    decreases |events|
  {
    hide Apply, Reach, Sound, Hands;
    if events != [] {
      var r := Apply(option, e, events[0]);
      ApplyReach(option, e, events[0], k);
      ApplyActive(option, e, events[0]);
      NotHanded(e, r, k);
      DroppedIsBounded(option, r, events[1..], k);
    }
  }

  lemma NotHanded(e: Engine, r: Engine, k: nat)
    requires Hands(e, r) && k < |e.transfers| && e.active != Some(k)
    ensures r.active != Some(k)
  {
  }

  lemma {:induction false} RunFrames(c: Config, option: nat, e: Engine, events: seq<Event>, k: nat)
    requires ClassicNormal(c) && Sound(e) && Possible(option, e, events) && k < |e.transfers|
    ensures var end := Run(option, e, events);
            && k < |end.transfers|
            && |FramesOf(end.wire, k)| + |Unsent(c, end.transfers[k])| ==
               |FramesOf(e.wire, k)| + |Unsent(c, e.transfers[k])|
    decreases |events|
  {
    hide Apply, FramesOf, Unsent;
    if events != [] {
      var r := Apply(option, e, events[0]);
      ApplyFrames(c, option, e, events[0], k);
      assert |FramesOf(r.wire, k) + Unsent(c, r.transfers[k])| == |FramesOf(e.wire, k) + Unsent(c, e.transfers[k])|;
      RunFrames(c, option, r, events[1..], k);
    }
  }

  /** Its loops, left to themselves, end a transfer whose unsent frames they cover. */
  lemma {:induction false} LoopsResolve(c: Config, option: nat, e: Engine, k: nat) returns (events: seq<Event>)
    requires ClassicNormal(c) && Sound(e) && Attended(e) && Running(e, k) && Segmented(e, k) && e.active != Some(k)
    requires |Unsent(c, e.transfers[k])| <= Owed(e, k)
    ensures Possible(option, e, events)
    ensures k < |Run(option, e, events).transfers| && Run(option, e, events).transfers[k].progress.Resolved?
    decreases |Unsent(c, e.transfers[k])| + |e.loops|
  {
    hide OnResume, OwedBy, Unsent, FramesOf, Sound, Attended;
    var i := SomeLoop(c, e, k);
    var r := OnResume(e, i);
    ResumeReach(e, i, k);
    ResumeFrames(c, option, e, i, k);
    ResumeOwn(c, e, i, k);
    ApplyActive(option, e, Resume(i));
    NotHanded(e, r, k);
    ApplyAttended(option, e, Resume(i));
    if Running(r, k) {
      events := LoopsResolve(c, option, r, k);
    } else {
      events := [];
    }
    assert ([Resume(i)] + events)[1..] == events;
    events := [Resume(i)] + events;
  }

  lemma SomeLoop(c: Config, e: Engine, k: nat) returns (i: nat)
    requires ClassicNormal(c) && Sound(e) && Attended(e) && Running(e, k) && Segmented(e, k)
    requires |Unsent(c, e.transfers[k])| <= Owed(e, k)
    ensures i < |e.loops| && e.loops[i].k == k
  {
    hide Consecutive;
    var t := e.transfers[k];
    NothingUnsent(c, t.data, t.offset, t.sn);
    if t.offset == |t.data| {
      assert AttendedAt(e, k);
      i :| 0 <= i < |e.loops| && e.loops[i].k == k;
    } else {
      i := OwedHasLoop(e.loops, t.blockLeft, k);
    }
  }

  lemma ResumeFrames(c: Config, option: nat, e: Engine, i: nat, k: nat)
    requires ClassicNormal(c) && Sound(e) && i < |e.loops| && k < |e.transfers|
    ensures var r := OnResume(e, i);
            && Sound(r) && Enabled(e, Resume(i)) && Apply(option, e, Resume(i)) == r
            && |FramesOf(r.wire, k)| + |Unsent(c, r.transfers[k])| ==
               |FramesOf(e.wire, k)| + |Unsent(c, e.transfers[k])|
  {
    hide FramesOf, Unsent, OnResume;
    ApplyFrames(c, option, e, Resume(i), k);
    var r := OnResume(e, i);
    assert |FramesOf(r.wire, k) + Unsent(c, r.transfers[k])| == |FramesOf(e.wire, k) + Unsent(c, e.transfers[k])|;
  }

  lemma ResumeOwn(c: Config, e: Engine, i: nat, k: nat)
    requires ClassicNormal(c) && Sound(e) && i < |e.loops| && e.loops[i].k == k && Running(e, k) && Segmented(e, k)
    ensures var r := OnResume(e, i);
            && Segmented(r, k) && !r.transfers[k].progress.Rejected?
            && (Running(r, k) ==> |Unsent(c, r.transfers[k])| + |r.loops| < |Unsent(c, e.transfers[k])| + |e.loops|)
  {
    hide Consecutive, NextFrame;
    var t := e.transfers[k];
    if t.offset < |t.data| && e.loops[i].count < t.blockLeft {
      NextIsBody(c, t);
    }
  }

  /**
   What becomes of a transfer that a later one has displaced, or that the end of another has left without flow
   control: it can still resolve if and only if its suspended loops cover all it has left to transmit.
   */
  lemma DroppedResolves(c: Config, option: nat, e: Engine, k: nat)
    requires ClassicNormal(c) && Sound(e) && Attended(e) && Running(e, k) && Segmented(e, k) && e.active != Some(k)
    ensures (exists events :: Possible(option, e, events) && ResolvedBy(option, e, events, k))
            <==> |Unsent(c, e.transfers[k])| <= Owed(e, k)
  {
    hide Unsent, OwedBy, FramesOf, Run, Possible;
    if |Unsent(c, e.transfers[k])| <= Owed(e, k) {
      var events := LoopsResolve(c, option, e, k);
      assert ResolvedBy(option, e, events, k);
    }
    if events :| Possible(option, e, events) && ResolvedBy(option, e, events, k) {
      DroppedIsBounded(option, e, events, k);
      RunFrames(c, option, e, events, k);
      ResolvedIsSent(c, Run(option, e, events).transfers[k]);
    }
  }

  predicate ResolvedBy(option: nat, e: Engine, events: seq<Event>, k: nat)
    requires Sound(e) && Possible(option, e, events)
  {
    var end := Run(option, e, events);
    k < |end.transfers| && end.transfers[k].progress.Resolved?
  }

  lemma ResolvedIsSent(c: Config, t: Transfer)
    requires ClassicNormal(c) && TransferOk(t) && t.progress.Resolved?
    ensures Unsent(c, t) == []
  {
  }

  // ---------- an undisturbed transfer ----------

  function Tags(k: nat, frames: seq<Bytes>): seq<Tagged> {
    seq(|frames|, i requires 0 <= i < |frames| => Tagged(k, frames[i]))
  }

  /** The engine after transfer `k` has become `t` and transmitted `frames`. */
  function Moved(e: Engine, k: nat, t: Transfer, frames: seq<Bytes>): Engine
    requires k < |e.transfers|
  {
    e.(transfers := e.transfers[k := t], active := if t.progress.Pending? then e.active else None,
       wire := e.wire + Tags(k, frames))
  }

  lemma MovedTwice(e: Engine, k: nat, t: Transfer, frames: seq<Bytes>, end: Transfer, later: seq<Bytes>)
    requires k < |e.transfers| && t.progress.Pending?
    ensures Moved(Moved(e, k, t, frames), k, end, later) == Moved(e, k, end, frames + later)
  {
    assert Tags(k, frames) + Tags(k, later) == Tags(k, frames + later);
    assert e.wire + Tags(k, frames) + Tags(k, later) == e.wire + (Tags(k, frames) + Tags(k, later));
  }

  /** A loop that has just transmitted a frame goes on as if it had not been suspended. */
  lemma Parks(e: Engine, k: nat, count: nat) returns (next: Transfer, frame: Bytes, after: Engine)
    requires Sound(e) && Running(e, k) && Segmented(e, k)
    requires e.transfers[k].offset < |e.transfers[k].data| && count < e.transfers[k].blockLeft
    ensures TransferOk(next) && next.progress.Pending? && next.blockLeft == e.transfers[k].blockLeft
    ensures var left := next.blockLeft - count - 1;
            Block(e.transfers[k], left + 1) == (Block(next, left).0, [frame] + Block(next, left).1)
    ensures after == Moved(e, k, next, [frame]) && after.transfers[k] == next
    ensures Sound(after) && Running(after, k) && Segmented(after, k)
    ensures var r := Step(e, k, count);
            |r.loops| == |e.loops| + 1 && OnResume(r, |e.loops|) == Step(after, k, count + 1)
  {
    next, frame := Advance(e.transfers[k], count).0, NextFrame(e.transfers[k]);
    after := Moved(e, k, next, [frame]);
    assert Tags(k, [frame]) == [Tagged(k, frame)];
    assert Without(Step(e, k, count), |e.loops|) == after;
  }

  lemma RunsOne(option: nat, e: Engine, ev: Event, events: seq<Event>)
    requires Sound(e) && Enabled(e, ev) && Possible(option, Apply(option, e, ev), events)
    ensures Possible(option, e, [ev] + events)
    ensures Run(option, e, [ev] + events) == Run(option, Apply(option, e, ev), events)
  {
    assert ([ev] + events)[1..] == events;
  }

  lemma RunsNone(option: nat, e: Engine)
    requires Sound(e)
    ensures Possible(option, e, []) && Run(option, e, []) == e
  {
  }

  lemma ResumesFirst(option: nat, e: Engine, i: nat)
    requires Sound(e) && i < |e.loops|
    ensures Enabled(e, Resume(i)) && Apply(option, e, Resume(i)) == OnResume(e, i)
  {
  }

  /** The events drive the loop from its head until it is over. */
  ghost predicate DrivenBy(option: nat, e: Engine, k: nat, count: nat, events: seq<Event>)
    requires Sound(e) && Running(e, k) && Segmented(e, k) && count <= e.transfers[k].blockLeft
  {
    var (t, frames) := Block(e.transfers[k], e.transfers[k].blockLeft - count);
    && Possible(option, Step(e, k, count), events)
    && Run(option, Step(e, k, count), events) == Moved(e, k, t, frames)
  }

  /** With the suspended loop put back first, what drives the loop on drives it from here. */
  lemma WakesFirst(option: nat, r: Engine, i: nat, next: Engine, events: seq<Event>)
    requires Sound(r) && i < |r.loops| && OnResume(r, i) == next && Possible(option, next, events)
    ensures Possible(option, r, [Resume(i)] + events)
    ensures Run(option, r, [Resume(i)] + events) == Run(option, next, events)
  {
    hide OnResume, Run, Possible, Sound;
    ResumesFirst(option, r, i);
    RunsOne(option, r, Resume(i), events);
  }

  lemma {:induction false} Drives(option: nat, e: Engine, k: nat, count: nat) returns (events: seq<Event>)
    requires Sound(e) && Running(e, k) && Segmented(e, k) && count <= e.transfers[k].blockLeft
    ensures DrivenBy(option, e, k, count, events)
    decreases e.transfers[k].blockLeft - count
  {
    hide Step, Moved, OnResume, Block, Apply, Run, Possible;
    var t, r := e.transfers[k], Step(e, k, count);
    if t.offset < |t.data| && count < t.blockLeft {
      var next, frame, after := Parks(e, k, count);
      events := Drives(option, after, k, count + 1);
      WakesFirst(option, r, |e.loops|, Step(after, k, count + 1), events);
      events := [Resume(|e.loops|)] + events;
      var left := next.blockLeft - count - 1;
      MovedTwice(e, k, next, [frame], Block(next, left).0, Block(next, left).1);
    } else {
      events := [];
      RunsNone(option, r);
      StepOver(e, k, count);
    }
  }

  lemma StepOver(e: Engine, k: nat, count: nat)
    requires Sound(e) && Running(e, k) && Segmented(e, k)
    requires var t := e.transfers[k]; t.offset == |t.data| || count >= t.blockLeft
    ensures var t := e.transfers[k];
            count <= t.blockLeft ==>
               var (end, frames) := Block(t, t.blockLeft - count);
               Step(e, k, count) == Moved(e, k, end, frames)
  {
    assert e.wire + Tags(k, []) == e.wire;
    assert e.transfers[k := e.transfers[k]] == e.transfers;
  }

  lemma {:induction false} RunJoins(option: nat, e: Engine, xs: seq<Event>, ys: seq<Event>)
    requires Sound(e) && Possible(option, e, xs) && Possible(option, Run(option, e, xs), ys)
    ensures Possible(option, e, xs + ys) && Run(option, e, xs + ys) == Run(option, Run(option, e, xs), ys)
    decreases |xs|
  {
    hide Apply;
    if xs == [] {
      assert xs + ys == ys;
    } else {
      RunJoins(option, Apply(option, e, xs[0]), xs[1..], ys);
      assert (xs + ys)[1..] == xs[1..] + ys;
    }
  }

  /** Flow control whose block is transmitted before anything else happens. */
  lemma FlowDrives(option: nat, e: Engine, k: nat, fc: Bytes) returns (events: seq<Event>)
    requires Sound(e) && k < |e.transfers| && e.active == Some(k)
    ensures Possible(option, e, events)
    ensures var (t, frames) := OnFlowControl(option, e.transfers[k], fc);
            Run(option, e, events) == Moved(e, k, t, frames)
  {
    hide Step, Block;
    var t, status := e.transfers[k], At(fc, 0) % 16;
    events := [];
    if status != FLOW_ABORT && status != FLOW_WAIT {
      var granted := Granted(e, k, BlockLength(option, fc));
      events := Drives(option, granted, k, 0);
      assert DrivenBy(option, granted, k, 0, events);
    } else {
      assert e.transfers[k := t] == e.transfers;
      assert e.wire + Tags(k, []) == e.wire;
    }
    RunsOne(option, e, Flow(fc), events);
    events := [Flow(fc)] + events;
  }

  lemma {:induction false} OverIsOver(option: nat, t: Transfer, fcs: seq<Bytes>)
    requires TransferOk(t) && !t.progress.Pending?
    ensures RunTransfer(option, t, fcs) == (t, [])
    decreases |fcs|
  {
    if fcs != [] {
      OverIsOver(option, t, fcs[1..]);
      assert OnFlowControl(option, t, fcs[0]) == (t, []);
      var none: seq<Bytes> := [];
      assert none + none == none;
    }
  }

  lemma {:induction false} FlowsDrive(option: nat, e: Engine, k: nat, fcs: seq<Bytes>) returns (events: seq<Event>)
    requires Sound(e) && k < |e.transfers| && e.active == Some(k)
    ensures Possible(option, e, events)
    ensures var (t, frames) := RunTransfer(option, e.transfers[k], fcs);
            Run(option, e, events) == Moved(e, k, t, frames)
    decreases |fcs|
  {
    hide OnFlowControl, Apply;
    var t := e.transfers[k];
    if fcs == [] {
      events := [];
      assert e.transfers[k := t] == e.transfers && e.wire + Tags(k, []) == e.wire;
    } else {
      var (next, frames) := OnFlowControl(option, t, fcs[0]);
      var (end, later) := RunTransfer(option, next, fcs[1..]);
      events := FlowDrives(option, e, k, fcs[0]);
      if next.progress.Pending? {
        var after := Moved(e, k, next, frames);
        assert after.transfers[k] == next;
        var more := FlowsDrive(option, after, k, fcs[1..]);
        RunJoins(option, e, events, more);
        events := events + more;
        MovedTwice(e, k, next, frames, end, later);
      } else {
        OverIsOver(option, next, fcs[1..]);
        assert frames + [] == frames;
      }
    }
  }

  /**
   If nothing else happens while it runs, a segmented payload is transmitted exactly as `RunTransfer` says, whatever
   is suspended of earlier ones.
   */
  lemma UndisturbedTransfer(option: nat, e: Engine, payload: Bytes, fcs: seq<Bytes>) returns (events: seq<Event>)
    requires Sound(e) && |payload| > 7
    ensures Possible(option, e, events)
    ensures var end, k := Run(option, e, events), |e.transfers|;
            var (t, _) := RunTransfer(option, Start(payload).0, fcs);
            && end.transfers == e.transfers + [t]
            && end.active == (if t.progress.Pending? then Some(k) else None)
            && end.loops == e.loops
            && end.wire == e.wire + Tags(k, Transmitted(option, payload, fcs))
  {
    hide Apply, RunTransfer, Run, Possible;
    var k, sent := |e.transfers|, OnSend(e, payload);
    assert sent.transfers[k] == Start(payload).0;
    SendsFirst(option, e, payload);
    events := FlowsDrive(option, sent, k, fcs);
    RunsOne(option, e, Send(payload), events);
    events := [Send(payload)] + events;
    var (t, frames) := RunTransfer(option, Start(payload).0, fcs);
    assert Tags(k, [Start(payload).1]) + Tags(k, frames) == Tags(k, [Start(payload).1] + frames);
    assert [Tagged(k, Start(payload).1)] == Tags(k, [Start(payload).1]);
  }

  lemma SendsFirst(option: nat, e: Engine, payload: Bytes)
    requires Sound(e)
    ensures Enabled(e, Send(payload)) && Apply(option, e, Send(payload)) == OnSend(e, payload)
  {
  }

  // ---------- a late end ----------

  function EndOf(first: Bytes): Event {
    if |first| <= 7 then Confirm(0) else Fail(0)
  }

  /** Two sends, and then the end of the first transfer. */
  function Stranded(first: Bytes, payload: Bytes): Engine {
    var over := if |first| <= 7 then Resolved else Rejected;
    Engine([Opened(first).(progress := over), Opened(payload)], None, [],
           [Tagged(0, Start(first).1), Tagged(1, Start(payload).1)])
  }

  lemma Strands(option: nat, first: Bytes, payload: Bytes)
    requires |payload| > 7
    ensures Sound(Stranded(first, payload))
    ensures Possible(option, IDLE, [Send(first), Send(payload), EndOf(first)])
    ensures Run(option, IDLE, [Send(first), Send(payload), EndOf(first)]) == Stranded(first, payload)
  {
    hide Run, Possible;
    var one := OnSend(IDLE, first);
    var two := OnSend(one, payload);
    var three := Stranded(first, payload);
    assert two.transfers == [Opened(first), Opened(payload)];
    assert three.transfers == two.transfers[0 := three.transfers[0]];
    assert Apply(option, two, EndOf(first)) == three;
    RunsNone(option, three);
    assert [EndOf(first)] + [] == [EndOf(first)];
    RunsOne(option, two, EndOf(first), []);
    assert [Send(payload)] + [EndOf(first)] == [Send(payload), EndOf(first)];
    RunsOne(option, one, Send(payload), [EndOf(first)]);
    assert [Send(first)] + [Send(payload), EndOf(first)] == [Send(first), Send(payload), EndOf(first)];
    RunsOne(option, IDLE, Send(first), [Send(payload), EndOf(first)]);
  }

  /**
   The end of an earlier transfer, a single frame's transmission or the timer of a longer payload, takes the flow
   control from the one that is active: whatever happens then, it never resolves, and at most its first frame is
   transmitted.
   */
  lemma LateEndStrands(c: Config, option: nat, first: Bytes, payload: Bytes, events: seq<Event>)
    requires ClassicNormal(c) && |payload| > 7
    requires Sound(Stranded(first, payload)) && Possible(option, Stranded(first, payload), events)
    ensures var r := Run(option, Stranded(first, payload), events);
            |r.transfers| > 1 && !r.transfers[1].progress.Resolved? && |FramesOf(r.wire, 1)| <= 1
  {
    hide Run, Possible, Consecutive, Whole;
    var e := Stranded(first, payload);
    DroppedIsBounded(option, e, events, 1);
    RunFrames(c, option, e, events, 1);
    FramesOfNone([Tagged(0, Start(first).1)], 1);
    FramesOfSnoc([Tagged(0, Start(first).1)], Tagged(1, Start(payload).1), 1);
    assert e.wire == [Tagged(0, Start(first).1)] + [Tagged(1, Start(payload).1)];
    NothingUnsent(c, payload, 6, 1);
    var t := Run(option, e, events).transfers[1];
    NothingUnsent(c, t.data, t.offset, t.sn);
  }
}
