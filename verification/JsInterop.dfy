/**
 One end of a connection in JavaScript, the other in Python or in JavaScript as well. Both segment alike, but the
 JavaScript receiver answers a message with a single flow-control frame, and the JavaScript sender takes a block
 size of zero for "none given" and falls back to its own option.
 */
module JsInterop {
  import opened Common
  import opened IsoTpFrames
  import M = IsoTpMachines
  import R = IsoTpReceiving
  import S = IsoTpSending
  import L = IsoTpLink
  import J = JsIsoTp

  // ---------- Python sends, JavaScript receives ----------

  /** A Python sender that hears nothing more goes on as far as its grant reaches. */
  lemma {:induction false} SilentPeer(c: Config, s: M.Sender, trace: seq<M.Event>)
    requires M.SenderOk(c, s) && s.phase.Ready? && (s.negotiated == 0 || s.blockRemaining > 0)
    ensures var end := M.RunSend(c, s, [], trace).sender;
            if s.negotiated == 0 || |Consecutive(c, s.payload, s.index, s.sequence)| <= s.blockRemaining
            then end.phase.Finished? else end.phase == M.Failed(M.NBsTimeout)
    decreases |s.payload| - s.index
  {
    hide M.OnFlow, M.Emit, M.RunSend, Wire, Consecutive;
    var next, seen := SendsOne(c, s, trace);
    L.MoreToCome(c, next.payload, next.index, next.sequence);
    if next.phase.Ready? {
      SilentPeer(c, next, seen);
    } else if next.phase.AwaitFlow? {
      SilenceEnds(c, next, seen);
    } else {
      FinishedEnds(c, next, seen);
    }
  }

  lemma SendsOne(c: Config, s: M.Sender, trace: seq<M.Event>) returns (next: M.Sender, seen: seq<M.Event>)
    requires M.SenderOk(c, s) && s.phase.Ready? && (s.negotiated == 0 || s.blockRemaining > 0)
    ensures M.SenderOk(c, next) && next.payload == s.payload && next.negotiated == s.negotiated
    ensures s.index < next.index
    ensures M.RunSend(c, s, [], trace) == M.RunSend(c, next, [], seen)
    ensures |Consecutive(c, s.payload, s.index, s.sequence)| ==
            1 + |Consecutive(c, next.payload, next.index, next.sequence)|
    ensures next.blockRemaining == if s.blockRemaining > 0 then s.blockRemaining - 1 else 0
    ensures next.phase == if next.index == |s.payload| then M.Finished
                          else if next.blockRemaining == 0 && s.negotiated != 0 then M.AwaitFlow(0)
                          else M.Ready
  {
    hide Wire, M.Emit, Consecutive;
    next := M.Emit(c, s);
    seen := trace + [M.Sent(Wire(c, M.NextBody(c, s)))];
    assert M.RunSend(c, s, [], trace) == M.RunSend(c, next, [], seen);
    EmitsOne(c, s);
  }

  lemma EmitsOne(c: Config, s: M.Sender)
    requires M.SenderOk(c, s) && s.phase.Ready?
    ensures var next := M.Emit(c, s);
            && next.negotiated == s.negotiated
            && next.blockRemaining == (if s.blockRemaining > 0 then s.blockRemaining - 1 else 0)
            && next.phase == (if next.index == |s.payload| then M.Finished
                              else if next.blockRemaining == 0 && s.negotiated != 0 then M.AwaitFlow(0)
                              else M.Ready)
            && |Consecutive(c, s.payload, s.index, s.sequence)| ==
               1 + |Consecutive(c, next.payload, next.index, next.sequence)|
  {
    hide Consecutive;
    ConsecutiveUnfolds(c, s.payload, s.index, s.sequence);
  }

  lemma FinishedEnds(c: Config, s: M.Sender, trace: seq<M.Event>)
    requires M.SenderOk(c, s) && s.phase.Finished?
    ensures M.RunSend(c, s, [], trace).sender == s
  {
  }

  lemma SilenceEnds(c: Config, s: M.Sender, trace: seq<M.Event>)
    requires M.SenderOk(c, s) && s.phase.AwaitFlow?
    ensures M.RunSend(c, s, [], trace).sender.phase == M.Failed(M.NBsTimeout)
  {
    var next := M.OnFlow(c, s, None);
    assert M.RunSend(c, s, [], trace) == M.RunSend(c, next, [], trace + [M.Quiet]);
  }

  lemma TakesReply(c: Config, options: J.Options, s: M.Sender)
    requires M.SenderOk(c, s) && s.phase.AwaitFlow? && !c.extended
    ensures var next := M.OnFlow(c, s, Some(J.Reply(options, CONTINUE_TO_SEND)));
            && next.phase.Ready? && next.negotiated == next.blockRemaining == options.blockSize % 256
            && next.payload == s.payload && next.index == s.index && next.sequence == s.sequence
  {
  }

  /**
   A Python handler that sends to a JavaScript receiver gets its message through if and only if the receiver
   asks for no blocks or the message fits into one; otherwise it waits for flow control in vain.
   */
  lemma OneReplyMustDo(c: Config, options: J.Options, payload: Bytes, state: J.ReceiverState, negotiated: nat,
                       st: M.Statistics)
    requires J.ClassicNormal(c) && 7 < |payload| <= Min(MAX_CLASSIC_PAYLOAD, options.maxLength)
    ensures var reply := J.OnFrame(options, state, Wire(c, Frames(c, payload)[0])).1;
            var end := M.RunSend(c, M.StartSending(payload, negotiated, st), [reply], []).sender;
            var block := options.blockSize % 256;
            && reply.Some?
            && if block == 0 || L.ConsecutiveTotal(c, payload) <= block then end.phase.Finished?
               else end.phase == M.Failed(M.NBsTimeout)
  {
    hide Consecutive;
    var start := M.StartSending(payload, negotiated, st);
    var first := FirstBody(c, payload);
    J.ClassicWire(c, first);
    J.FirstAlike(c, payload);
    var reply := J.Reply(options, CONTINUE_TO_SEND);
    assert J.OnFrame(options, state, Wire(c, first)).1 == Some(reply);
    FirstTurns(c, options, start, [M.Sent(Wire(c, first)), M.Got(reply)]);
    var waiting := M.Emit(c, start);
    TakesReply(c, options, waiting);
    SilentPeer(c, M.OnFlow(c, waiting, Some(reply)), [M.Sent(Wire(c, first)), M.Got(reply)]);
  }

  lemma FirstTurns(c: Config, options: J.Options, start: M.Sender, seen: seq<M.Event>)
    requires M.SenderOk(c, start) && start.phase.Start? && !FitsSingleFrame(c, start.payload)
    requires var reply := J.Reply(options, CONTINUE_TO_SEND);
             seen == [M.Sent(Wire(c, FirstBody(c, start.payload))), M.Got(reply)]
    ensures var reply := J.Reply(options, CONTINUE_TO_SEND);
            && M.Emit(c, start).phase.AwaitFlow?
            && M.RunSend(c, start, [Some(reply)], []) ==
               M.RunSend(c, M.OnFlow(c, M.Emit(c, start), Some(reply)), [], seen)
  {
    hide M.OnFlow, Wire;
    var reply := J.Reply(options, CONTINUE_TO_SEND);
    var sent := [M.Sent(Wire(c, FirstBody(c, start.payload)))];
    assert [] + sent == sent && sent + [M.Got(reply)] == seen;
    assert M.RunSend(c, start, [Some(reply)], []) == M.RunSend(c, M.Emit(c, start), [Some(reply)], sent);
  }

  // ---------- JavaScript sends, Python receives ----------

  /** A block takes as many frames off what is unsent as it may, and resolves the transfer if that is all. */
  lemma {:induction false} BlockTakes(c: Config, t: J.Transfer, left: nat)
    requires J.ClassicNormal(c) && J.TransferOk(t) && t.progress.Pending?
    ensures var n := |Consecutive(c, t.data, t.offset, t.sn)|;
            var r := J.Block(t, left).0;
            && |Consecutive(c, r.data, r.offset, r.sn)| == Max(0, n - left)
            && (r.progress.Resolved? <==> n <= left)
    decreases left
  {
    hide Consecutive, J.NextFrame;
    J.NothingUnsent(c, t.data, t.offset, t.sn);
    if t.offset < |t.data| {
      J.NextIsBody(c, t);
      if left > 0 {
        BlockTakes(c, t.(offset := Min(t.offset + 7, |t.data|), sn := (t.sn + 1) % 16), left - 1);
      }
    }
  }

  /** Flow control that grants `block` frames. */
  predicate Grants(option: nat, fc: Bytes, block: nat) {
    J.At(fc, 0) % 16 == CONTINUE_TO_SEND && J.BlockLength(option, fc) == block
  }

  lemma {:induction false} GrantsResolve(c: Config, option: nat, t: J.Transfer, fcs: seq<Bytes>, block: nat)
    requires J.ClassicNormal(c) && J.TransferOk(t)
    requires forall k :: 0 <= k < |fcs| ==> Grants(option, fcs[k], block)
    requires !t.progress.Rejected? && (t.progress.Pending? ==> Consecutive(c, t.data, t.offset, t.sn) != [])
    ensures var n := |Consecutive(c, t.data, t.offset, t.sn)|;
            var r := J.RunTransfer(option, t, fcs).0;
            && !r.progress.Rejected?
            && (r.progress.Resolved? <==> t.progress.Resolved? || n <= |fcs| * block)
            && |Consecutive(c, r.data, r.offset, r.sn)| == Max(0, n - |fcs| * block)
    decreases |fcs|
  {
    hide Consecutive, J.Block;
    J.NothingUnsent(c, t.data, t.offset, t.sn);
    OneMore(|fcs| - 1, block);
    if fcs != [] {
      assert Grants(option, fcs[0], block);
      var next := J.OnFlowControl(option, t, fcs[0]).0;
      OneMore(|fcs| - 2, block);
      if t.progress.Pending? {
        BlockTakes(c, t.(blockLeft := block), block);
      }
      GrantsResolve(c, option, next, fcs[1..], block);
    }
  }

  /** Under equal grants a transfer transmits as many of the frames as they allow. */
  lemma GrantsSend(c: Config, option: nat, t: J.Transfer, fcs: seq<Bytes>, block: nat)
    requires J.ClassicNormal(c) && J.TransferOk(t) && t.progress.Pending?
    requires forall k :: 0 <= k < |fcs| ==> Grants(option, fcs[k], block)
    requires Consecutive(c, t.data, t.offset, t.sn) != []
    ensures var bodies := Consecutive(c, t.data, t.offset, t.sn);
            && 0 <= Min(|bodies|, |fcs| * block)
            && J.RunTransfer(option, t, fcs).1 == bodies[..Min(|bodies|, |fcs| * block)]
  {
    hide Consecutive, J.RunTransfer;
    OneMore(|fcs|, block);
    GrantsResolve(c, option, t, fcs, block);
    J.TransferCutsAlike(c, option, t, fcs);
  }

  lemma OneMore(k: int, block: nat)
    ensures (k + 1) * block == k * block + block
    ensures k >= 0 ==> k * block >= 0
  {
  }

  // ---------- what a Python receiver answers ----------

  function Repeated(frame: Bytes, k: nat): seq<Bytes> {
    seq(k, _ => frame)
  }

  /** Grants sent while `e` frames that do not end the message arrive, from `i` frames into a block on. */
  function GrantsWhile(size: nat, i: nat, e: nat): nat {
    if size == 0 then 0 else (i + e) / size
  }

  lemma GrantsStep(size: nat, i: nat, e: nat)
    requires e > 0 && (size > 0 ==> i < size)
    ensures GrantsWhile(size, i, e) ==
            if size > 0 && i + 1 >= size then 1 + GrantsWhile(size, 0, e - 1) else GrantsWhile(size, i + 1, e - 1)
  {
    if size > 0 && i + 1 >= size {
      var q, r := (e - 1) / size, (e - 1) % size;
      OneMore(q, size);
      UniqueQuotient(i + e, size, q + 1, r);
    }
  }

  lemma GrantsBegin(size: nat, i: nat)
    requires size > 0 ==> i < size
    ensures GrantsWhile(size, i, 0) == 0
  {
  }

  lemma RepeatedJoins(before: seq<Bytes>, frame: Bytes, replies: seq<Bytes>, k: nat)
    requires replies == [] || replies == [frame]
    ensures (before + replies) + Repeated(frame, k) == before + Repeated(frame, |replies| + k)
  {
  }

  /** The receiver holds the beginning of the message and is inside a block. */
  predicate InBlock(b: Config, payload: Bytes, r: M.Receiver) {
    R.Holding(payload, r) && (b.blockSize > 0 ==> r.phase.inBlock < b.blockSize)
  }

  lemma NextAnswer(a: Config, b: Config, payload: Bytes, r: M.Receiver)
    requires Usable(a) && Roomy(a) && InBlock(b, payload, r)
    ensures var (next, replies) := R.AfterNext(a, b, payload, r);
            var index := |r.buffer| + |Chunk(a, payload, |r.buffer|)|;
            && |r.buffer| < index <= |payload|
            && if index == |payload| then next.phase == M.Delivered(payload) && replies == []
               else
                 && InBlock(b, payload, next) && |next.buffer| == index && next.sequence == (r.sequence + 1) % 16
                 && if b.blockSize > 0 && r.phase.inBlock + 1 >= b.blockSize
                    then replies == [L.GrantFrame(b)] && next.phase.inBlock == 0
                    else replies == [] && next.phase.inBlock == r.phase.inBlock + 1
  {
  }

  lemma HearsOne(a: Config, b: Config, payload: Bytes, r: M.Receiver, body: Bytes, later: seq<Bytes>,
                 trace: seq<M.Event>)
    returns (seen: seq<M.Event>)
    requires Compatible(a, b) && Admissible(a) && InBlock(b, payload, r)
    requires body == ConsecutiveBody(a, payload, |r.buffer|, r.sequence)
    ensures var (next, replies) := R.AfterNext(a, b, payload, r);
            && M.RunReceive(b, r, R.Arrivals(WireAll(a, [body] + later)), trace) ==
               M.RunReceive(b, next, R.Arrivals(WireAll(a, later)), seen)
            && S.SentFrames(seen) == S.SentFrames(trace) + replies
  {
    hide M.OnFrame, M.RunReceive, Wire, R.AfterNext, Chunk;
    var frame, frames := Wire(a, body), WireAll(a, later);
    WireAllCons(a, body, later);
    R.RunStep(b, r, frame, frames, [], trace);
    assert R.Arrivals([frame] + frames) + [] == R.Arrivals([frame] + frames);
    assert R.Arrivals(frames) + [] == R.Arrivals(frames);
    R.TakesConsecutive(a, b, r, payload);
    L.AtMostOneReply(b, r, frame);
    var replies := R.AfterNext(a, b, payload, r).1;
    L.RepliesAreSent(trace, frame, replies);
    seen := trace + [M.Got(frame)] + M.SentEvents(replies);
  }

  lemma HearsNothing(b: Config, r: M.Receiver, trace: seq<M.Event>)
    requires r.phase.Collecting?
    ensures var run := M.RunReceive(b, r, [], trace);
            run.receiver.phase == M.Broken(M.NCrTimeout) && S.SentFrames(run.trace) == S.SentFrames(trace)
  {
    S.SentFramesSnoc(trace, M.Quiet);
    assert trace + [M.Quiet] + M.SentEvents([]) == trace + [M.Quiet];
  }

  /** What the receiver answers, and how the call ends, when `m` of the consecutive frames still to come arrive. */
  lemma {:induction false} HearsRest(a: Config, b: Config, payload: Bytes, r: M.Receiver, m: nat, trace: seq<M.Event>)
    requires Compatible(a, b) && Admissible(a) && InBlock(b, payload, r)
    requires m <= |Consecutive(a, payload, |r.buffer|, r.sequence)|
    ensures var bodies := Consecutive(a, payload, |r.buffer|, r.sequence);
            var run := M.RunReceive(b, r, R.Arrivals(WireAll(a, bodies[..m])), trace);
            && bodies != []
            && run.receiver.phase == (if m == |bodies| then M.Delivered(payload) else M.Broken(M.NCrTimeout))
            && S.SentFrames(run.trace) == S.SentFrames(trace) + Repeated(L.GrantFrame(b),
                 GrantsWhile(b.blockSize, r.phase.inBlock, if m == |bodies| then m - 1 else m))
    decreases m
  {
    hide M.OnFrame, M.RunReceive, Wire, R.AfterNext, Chunk, L.GrantFrame, GrantsWhile;
    hide Consecutive, ConsecutiveBody, R.Arrivals, WireAll, S.SentFrames, Repeated;
    var index := |r.buffer| + |Chunk(a, payload, |r.buffer|)|;
    NextAnswer(a, b, payload, r);
    ConsecutiveUnfolds(a, payload, |r.buffer|, r.sequence);
    var body := ConsecutiveBody(a, payload, |r.buffer|, r.sequence);
    var later := Consecutive(a, payload, index, (r.sequence + 1) % 16);
    L.MoreToCome(a, payload, index, (r.sequence + 1) % 16);
    GrantsBegin(b.blockSize, r.phase.inBlock);
    var before, grant := S.SentFrames(trace), L.GrantFrame(b);
    RepeatedNone(before, grant);
    NoArrivals(a);
    if m == 0 {
      var none: seq<Bytes> := ([body] + later)[..0];
      assert none == [];
      HearsNothing(b, r, trace);
    } else {
      assert ([body] + later)[..m] == [body] + later[..m - 1];
      var seen := HearsOne(a, b, payload, r, body, later[..m - 1], trace);
      var (next, replies) := R.AfterNext(a, b, payload, r);
      if index < |payload| {
        HearsRest(a, b, payload, next, m - 1, seen);
        var e := if m == 1 + |later| then m - 1 else m;
        GrantsStep(b.blockSize, r.phase.inBlock, e);
        RepeatedJoins(before, grant, replies, GrantsWhile(b.blockSize, next.phase.inBlock, e - 1));
      } else {
        R.RunEnds(b, next, R.Arrivals(WireAll(a, [])), seen);
        assert before + [] == before && later[..m - 1] == later == [];
      }
    }
  }

  lemma RepeatedNone(before: seq<Bytes>, frame: Bytes)
    ensures before + Repeated(frame, 0) == before
  {
  }

  lemma NoArrivals(a: Config)
    ensures |R.Arrivals(WireAll(a, []))| == 0
  {
  }

  /** The grants of a whole message, the one for the first frame included. */
  function FlowControls(b: Config, n: nat): seq<Bytes> {
    Repeated(L.GrantFrame(b), L.FlowFrames(b.blockSize, n))
  }

  lemma FlowsOf(size: nat, n: nat)
    requires n > 0
    ensures L.FlowFrames(size, n) == 1 + GrantsWhile(size, 0, n - 1)
  {
    if size > 0 {
      var q, r := (n - 1) / size, (n - 1) % size;
      OneMore(q, size);
      UniqueQuotient(n + size - 1, size, q + 1, r);
    }
  }

  /**
   A Python receiver that hears the first frame and `m` consecutive frames of a message: the grants it sends, and
   how its call ends.
   */
  lemma PythonHears(a: Config, b: Config, payload: Bytes, r: M.Receiver, m: nat)
    requires Compatible(a, b) && Admissible(a) && r.phase.Idle?
    requires |payload| <= MAX_ESCAPE_PAYLOAD && !FitsSingleFrame(a, payload)
    requires m <= L.ConsecutiveTotal(a, payload)
    ensures var n := L.ConsecutiveTotal(a, payload);
            var run := M.RunReceive(b, r, R.Arrivals(WireAll(a, Frames(a, payload)[..1 + m])), []);
            && n > 0
            && run.receiver.phase == (if m == n then M.Delivered(payload) else M.Broken(M.NCrTimeout))
            && S.SentFrames(run.trace) ==
               Repeated(L.GrantFrame(b), 1 + GrantsWhile(b.blockSize, 0, if m == n then m - 1 else m))
  {
    hide M.RunReceive, Wire, Consecutive, L.GrantFrame, GrantsWhile, Chunk;
    SegmentedIsLonger(a, payload);
    var first, bodies := FirstBody(a, payload), Consecutive(a, payload, FirstLength(a, |payload|), 1);
    assert Frames(a, payload)[..1 + m] == [first] + bodies[..m];
    var next, seen := HearsFirst(a, b, payload, r, bodies[..m]);
    HearsRest(a, b, payload, next, m, seen);
    OneMoreFrame(L.GrantFrame(b), GrantsWhile(b.blockSize, 0, if m == |bodies| then m - 1 else m));
  }

  lemma HearsFirst(a: Config, b: Config, payload: Bytes, r: M.Receiver, later: seq<Bytes>)
    returns (next: M.Receiver, seen: seq<M.Event>)
    requires Compatible(a, b) && Admissible(a) && r.phase.Idle?
    requires |payload| <= MAX_ESCAPE_PAYLOAD && !FitsSingleFrame(a, payload)
    ensures M.RunReceive(b, r, R.Arrivals(WireAll(a, [FirstBody(a, payload)] + later)), []) ==
            M.RunReceive(b, next, R.Arrivals(WireAll(a, later)), seen)
    ensures S.SentFrames(seen) == [] + [L.GrantFrame(b)]
    ensures InBlock(b, payload, next) && next.phase.inBlock == 0
    ensures |next.buffer| == FirstLength(a, |payload|) && next.sequence == 1
  {
    hide M.OnFrame, M.RunReceive, Wire;
    var frame, frames := Wire(a, FirstBody(a, payload)), WireAll(a, later);
    R.TakesFirst(a, b, r, payload);
    next := M.OnFrame(b, r, Some(frame)).0;
    WireAllCons(a, FirstBody(a, payload), later);
    R.RunStep(b, r, frame, frames, [], []);
    assert R.Arrivals([frame] + frames) + [] == R.Arrivals([frame] + frames);
    assert R.Arrivals(frames) + [] == R.Arrivals(frames);
    L.RepliesAreSent([], frame, [L.GrantFrame(b)]);
    seen := [] + [M.Got(frame)] + M.SentEvents([L.GrantFrame(b)]);
  }

  lemma OneMoreFrame(frame: Bytes, k: nat)
    ensures [] + [frame] + Repeated(frame, k) == Repeated(frame, 1 + k)
  {
  }

  /** Frames as the JavaScript sender transmits them, without padding. */
  function Bare(b: Config): Config {
    b.(txPadding := false)
  }

  lemma BareWire(c: Config, bodies: seq<Bytes>)
    requires !c.extended && !c.txPadding
    ensures WireAll(c, bodies) == bodies
  {
    forall k | 0 <= k < |bodies|
      ensures Wire(c, bodies[k]) == bodies[k]
    {
      assert Address(c) + bodies[k] == bodies[k];
    }
  }

  lemma PythonGrants(b: Config, option: nat)
    requires J.ClassicNormal(b) && b.blockSize <= 255
    ensures Grants(option, L.GrantFrame(b), if b.blockSize > 0 then b.blockSize else option % 256)
  {
    J.ClassicWire(b, M.FlowControlBody(b, CONTINUE_TO_SEND));
  }

  lemma Covers(n: nat, block: nat)
    requires block > 0
    ensures n <= (n + block - 1) / block * block
  {
    var m := n + block - 1;
    assert m == m / block * block + m % block;
  }

  /** What the JavaScript sender transmits on the grants of a Python receiver. */
  lemma JavaScriptSends(b: Config, option: nat, payload: Bytes, m: nat)
    requires J.ClassicNormal(b) && b.blockSize <= 255 && 7 < |payload| <= MAX_CLASSIC_PAYLOAD
    requires var n := L.ConsecutiveTotal(Bare(b), payload);
             m == if b.blockSize > 0 then n else Min(n, option % 256)
    ensures var n := L.ConsecutiveTotal(Bare(b), payload);
            var fcs := FlowControls(b, n);
            && J.Transmitted(option, payload, fcs) == Frames(Bare(b), payload)[..1 + m]
            && J.RunTransfer(option, J.Start(payload).0, fcs).0.progress == if m == n then J.Resolved else J.Pending
  {
    hide Consecutive, J.RunTransfer;
    var a := Bare(b);
    var n := L.ConsecutiveTotal(a, payload);
    var t, fcs := J.Start(payload).0, FlowControls(b, n);
    var block := if b.blockSize > 0 then b.blockSize else option % 256;
    J.FirstAlike(a, payload);
    J.StartsAlike(a, payload);
    PythonGrants(b, option);
    assert forall k :: 0 <= k < |fcs| ==> Grants(option, fcs[k], block);
    L.MoreToCome(a, payload, 6, 1);
    if b.blockSize > 0 {
      Covers(n, block);
    }
    GrantsResolve(a, option, t, fcs, block);
    GrantsSend(a, option, t, fcs, block);
  }

  /**
   A JavaScript sender and a Python receiver agree on all they exchange: on the frames the sender transmits, the
   receiver answers exactly the grants the sender transmits them on. The transfer resolves and the payload is
   returned if the receiver asks for blocks or the message fits into the sender's own block size. Otherwise the
   transfer stays pending, and the receiver's call ends with the N_Cr timeout.
   */
  lemma OwnBlockSizeMustDo(b: Config, option: nat, payload: Bytes, r: M.Receiver)
    requires J.ClassicNormal(b) && b.blockSize <= 255 && 7 < |payload| <= MAX_CLASSIC_PAYLOAD && r.phase.Idle?
    ensures var n := L.ConsecutiveTotal(Bare(b), payload);
            var fcs := FlowControls(b, n);
            && var run := M.RunReceive(b, r, R.Arrivals(J.Transmitted(option, payload, fcs)), []);
               var progress := J.RunTransfer(option, J.Start(payload).0, fcs).0.progress;
               && S.SentFrames(run.trace) == fcs
               && if b.blockSize > 0 || n <= option % 256
                  then progress.Resolved? && run.receiver.phase == M.Delivered(payload)
                  else progress.Pending? && run.receiver.phase == M.Broken(M.NCrTimeout)
  {
    hide Consecutive, J.RunTransfer, M.RunReceive, J.Transmitted, Frames, GrantsWhile, L.FlowFrames;
    var a := Bare(b);
    J.FirstAlike(a, payload);
    var n := L.ConsecutiveTotal(a, payload);
    var m := if b.blockSize > 0 then n else Min(n, option % 256);
    JavaScriptSends(b, option, payload, m);
    PythonHears(a, b, payload, r, m);
    BareWire(a, Frames(a, payload)[..1 + m]);
    FlowsOf(b.blockSize, n);
    NoBlocks(m);
    NoBlocks(n - 1);
  }

  lemma NoBlocks(e: nat)
    ensures GrantsWhile(0, 0, e) == 0
  {
  }

  // ---------- JavaScript at both ends ----------

  /** What a JavaScript receiver replies to the frames. */
  function Replies(options: J.Options, s: J.ReceiverState, frames: seq<Bytes>): seq<Bytes>
    decreases |frames|
  {
    if frames == [] then []
    else
      var (next, reply) := J.OnFrame(options, s, frames[0]);
      (if reply.Some? then [reply.value] else []) + Replies(options, next, frames[1..])
  }

  /** A JavaScript receiver that hears `m` of the consecutive frames still to come. */
  lemma {:induction false} FeedsSome(c: Config, options: J.Options, payload: Bytes, s: J.ReceiverState, m: nat)
    requires J.ClassicNormal(c) && !c.txPadding && J.Holding(payload, s)
    requires m <= |Consecutive(c, payload, |s.buffer|, s.expectedSn)|
    ensures var bodies := Consecutive(c, payload, |s.buffer|, s.expectedSn);
            var end := J.Feed(options, s, bodies[..m]);
            && bodies != [] && end.errors == s.errors && Replies(options, s, bodies[..m]) == []
            && if m == |bodies| then end.messages == s.messages + [payload]
               else end.messages == s.messages && end.receiving
    decreases m
  {
    hide J.OnFrame;
    var index := |s.buffer| + |Chunk(c, payload, |s.buffer|)|;
    var body := ConsecutiveBody(c, payload, |s.buffer|, s.expectedSn);
    var later := Consecutive(c, payload, index, (s.expectedSn + 1) % 16);
    assert Consecutive(c, payload, |s.buffer|, s.expectedSn) == [body] + later;
    L.MoreToCome(c, payload, index, (s.expectedSn + 1) % 16);
    if m > 0 {
      assert ([body] + later)[..m] == [body] + later[..m - 1] && ([body] + later[..m - 1])[1..] == later[..m - 1];
      BareWire(c, [body]);
      assert WireAll(c, [body])[0] == Wire(c, body);
      J.FeedsNext(c, options, payload, s);
      NoReply(options, s, body);
      var next := J.OnFrame(options, s, body).0;
      if index < |payload| {
        FeedsSome(c, options, payload, next, m - 1);
      }
    }
  }

  lemma NoReply(options: J.Options, s: J.ReceiverState, frame: Bytes)
    requires frame != [] && frame[0] / 16 == CONSECUTIVE_FRAME
    ensures J.OnFrame(options, s, frame).1 == None
  {
  }

  function ClassicBare(): Config {
    Config(false, 0, 0.0, 0, false, 0, false, 8, 0)
  }

  /** The frames a granted transfer starts with, and its first frame at the receiver. */
  lemma FirstAtReceiver(options: J.Options, payload: Bytes, state: J.ReceiverState)
    requires 7 < |payload| <= Min(MAX_CLASSIC_PAYLOAD, options.maxLength)
    ensures var (next, reply) := J.OnFrame(options, state, J.Start(payload).1);
            && reply == Some(J.Reply(options, CONTINUE_TO_SEND))
            && J.Holding(payload, next) && |next.buffer| == 6 && next.expectedSn == 1
            && next.messages == state.messages && next.errors == state.errors
  {
    var c := ClassicBare();
    J.FirstAlike(c, payload);
    BareWire(c, [FirstBody(c, payload)]);
    assert WireAll(c, [FirstBody(c, payload)])[0] == Wire(c, FirstBody(c, payload));
    J.FeedsFirst(c, options, payload, state);
  }

  /**
   With JavaScript at both ends a segmented message gets through if and only if it fits into one block, which is
   the receiver's block size or, where that is zero, the sender's own. The receiver replies once, whatever it
   hears of the message; otherwise the transfer stays pending and the receiver waits.
   */
  lemma OneBlockMustDo(options: J.Options, option: nat, payload: Bytes, state: J.ReceiverState)
    requires 7 < |payload| <= Min(MAX_CLASSIC_PAYLOAD, options.maxLength)
    ensures var n := L.FlowFrames(7, |payload| - 6);
            var block := (if options.blockSize % 256 != 0 then options.blockSize else option) % 256;
            var fc := J.Reply(options, CONTINUE_TO_SEND);
            var frames := J.Transmitted(option, payload, [fc]);
            var progress := J.RunTransfer(option, J.Start(payload).0, [fc]).0.progress;
            var end := J.Feed(options, state, frames);
            && Replies(options, state, frames) == [fc] && end.errors == state.errors
            && if n <= block then progress.Resolved? && end.messages == state.messages + [payload]
               else progress.Pending? && end.messages == state.messages && end.receiving
  {
    hide J.OnFrame, Consecutive, J.RunTransfer, L.FlowFrames;
    var c, fc, t := ClassicBare(), J.Reply(options, CONTINUE_TO_SEND), J.Start(payload).0;
    var block := (if options.blockSize % 256 != 0 then options.blockSize else option) % 256;
    var bodies := Consecutive(c, payload, 6, 1);
    J.FirstAlike(c, payload);
    L.ConsecutiveTotalIsQuotient(c, payload);
    L.MoreToCome(c, payload, 6, 1);
    assert Grants(option, fc, block);
    OneMore(0, block);
    GrantsResolve(c, option, t, [fc], block);
    GrantsSend(c, option, t, [fc], block);
    var m := Min(|bodies|, block);
    FirstAtReceiver(options, payload, state);
    var next := J.OnFrame(options, state, J.Start(payload).1).0;
    FeedsSome(c, options, payload, next, m);
    assert ([J.Start(payload).1] + bodies[..m])[1..] == bodies[..m];
  }
}
