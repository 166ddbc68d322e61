/**
 A JavaScript sender and a Python receiver joined by two lossless FIFO channels. A run is any sequence of atomic
 steps of the two sides. The block loop of the sender is suspended after every frame, and a grant that arrives
 meanwhile starts a second one. Timeouts do not fire, and the payload is segmented.
 */
module JsLink {
  import opened Common
  import opened IsoTpFrames
  import opened JsInterop
  import M = IsoTpMachines
  import R = IsoTpReceiving
  import L = IsoTpLink
  import J = JsIsoTp
  import E = JsSender

  /** `loops` are the suspended block loops, each with the frames of its block that it has transmitted. */
  datatype Link = Link(tx: J.Transfer, loops: seq<nat>, rx: M.Receiver, toRx: seq<Bytes>, toTx: seq<Bytes>)

  datatype Move = TakeFlow | TakeFrame | Resume(i: nat)

  /** The first frame is on its way to a receiver with whatever an earlier message has left in it. */
  function Initial(payload: Bytes, rx: M.Receiver): Link {
    Link(J.Start(payload).0, [], rx.(phase := M.Idle), [J.Start(payload).1], [])
  }

  predicate Enabled(l: Link, m: Move) {
    match m
    case TakeFlow => l.toTx != []
    case TakeFrame => M.Listening(l.rx) && l.toRx != []
    case Resume(i) => i < |l.loops|
  }

  /** The block loop from its head to its next `await` or its end. */
  function Turn(l: Link, t: J.Transfer, count: nat): (r: Link)
    requires J.TransferOk(t) && t.progress.Pending?
    ensures J.TransferOk(r.tx)
  {
    var (next, frame) := J.Advance(t, count);
    if frame.Some? then l.(tx := next, loops := l.loops + [count + 1], toRx := l.toRx + [frame.value])
    else l.(tx := next)
  }

  function OnFlow(option: nat, l: Link): (r: Link)
    requires J.TransferOk(l.tx) && l.toTx != []
    ensures J.TransferOk(r.tx)
  {
    var fc, heard := l.toTx[0], l.(toTx := l.toTx[1..]);
    var status := J.At(fc, 0) % 16;
    if !l.tx.progress.Pending? || status == J.FLOW_WAIT then heard
    else if status == J.FLOW_ABORT then heard.(tx := l.tx.(progress := J.Rejected))
    else Turn(heard, l.tx.(blockLeft := J.BlockLength(option, fc)), 0)
  }

  function OnResume(l: Link, i: nat): (r: Link)
    requires J.TransferOk(l.tx) && i < |l.loops|
    ensures J.TransferOk(r.tx)
  {
    var woken := l.(loops := l.loops[..i] + l.loops[i + 1..]);
    if l.tx.progress.Pending? then Turn(woken, l.tx, l.loops[i]) else woken
  }

  function Apply(b: Config, option: nat, l: Link, m: Move): (r: Link)
    requires J.TransferOk(l.tx) && Enabled(l, m)
    ensures J.TransferOk(r.tx)
  {
    match m
    case TakeFlow => OnFlow(option, l)
    case TakeFrame =>
      var (rx, replies) := M.OnFrame(b, l.rx, Some(l.toRx[0]));
      l.(rx := rx, toRx := l.toRx[1..], toTx := l.toTx + replies)
    case Resume(i) => OnResume(l, i)
  }

  predicate Possible(b: Config, option: nat, l: Link, moves: seq<Move>)
    requires J.TransferOk(l.tx)
    decreases |moves|
  {
    moves == [] || (Enabled(l, moves[0]) && Possible(b, option, Apply(b, option, l, moves[0]), moves[1..]))
  }

  function Exec(b: Config, option: nat, l: Link, moves: seq<Move>): (r: Link)
    requires J.TransferOk(l.tx) && Possible(b, option, l, moves)
    ensures J.TransferOk(r.tx)
    decreases |moves|
  {
    if moves == [] then l else Exec(b, option, Apply(b, option, l, moves[0]), moves[1..])
  }

  predicate Ends(b: Config, payload: Bytes) {
    J.ClassicNormal(b) && b.blockSize <= 255 && 7 < |payload| <= MAX_CLASSIC_PAYLOAD
  }

  // ---------- the sending side is the engine ----------

  /** The sending side as an engine with one transfer that has transmitted `sent`. */
  function AsEngine(l: Link, sent: seq<Bytes>): E.Engine {
    E.Engine([l.tx], if l.tx.progress.Pending? then Some(0) else None,
             seq(|l.loops|, i requires 0 <= i < |l.loops| => E.Loop(0, l.loops[i])), E.Tags(0, sent))
  }

  lemma TagsSnoc(sent: seq<Bytes>, frame: Bytes)
    ensures E.Tags(0, sent) + [E.Tagged(0, frame)] == E.Tags(0, sent + [frame])
  {
  }

  lemma TurnIsStep(l: Link, count: nat, sent: seq<Bytes>)
    requires J.TransferOk(l.tx) && l.tx.progress.Pending? && |l.tx.data| > 7
    ensures E.Sound(AsEngine(l, sent))
    ensures var r := Turn(l, l.tx, count);
            && l.toRx <= r.toRx
            && E.Step(AsEngine(l, sent), 0, count) == AsEngine(r, sent + r.toRx[|l.toRx|..])
  {
    var e, r := AsEngine(l, sent), Turn(l, l.tx, count);
    var fresher := r.toRx[|l.toRx|..];
    if J.Advance(l.tx, count).1.Some? {
      TagsSnoc(sent, J.Advance(l.tx, count).1.value);
      assert AsEngine(r, sent + fresher).loops == e.loops + [E.Loop(0, count + 1)];
    } else {
      assert sent + fresher == sent;
    }
  }

  /** The event of the sending engine that a move is, if it is one of its own. */
  function AsEvent(l: Link, m: Move): seq<E.Event>
    requires Enabled(l, m)
  {
    match m
    case TakeFlow => [E.Flow(l.toTx[0])]
    case TakeFrame => []
    case Resume(i) => [E.Resume(i)]
  }

  lemma MoveIsEvent(b: Config, option: nat, l: Link, m: Move, sent: seq<Bytes>) returns (more: seq<Bytes>)
    requires J.TransferOk(l.tx) && |l.tx.data| > 7 && Enabled(l, m)
    ensures E.Sound(AsEngine(l, sent)) && E.Possible(option, AsEngine(l, sent), AsEvent(l, m))
    ensures var r := Apply(b, option, l, m);
            && r.tx.data == l.tx.data
            && r.toRx == (if m.TakeFrame? then l.toRx[1..] else l.toRx) + more
            && E.Run(option, AsEngine(l, sent), AsEvent(l, m)) == AsEngine(r, sent + more)
  {
    hide Turn, E.Step, E.Run, E.Possible, M.OnFrame;
    var e := AsEngine(l, sent);
    more := [];
    assert sent + more == sent;
    match m
    case TakeFrame =>
      E.RunsNone(option, e);
    case TakeFlow =>
      var fc := l.toTx[0];
      var t := l.tx.(blockLeft := J.BlockLength(option, fc));
      var ready := l.(toTx := l.toTx[1..], tx := t);
      if l.tx.progress.Pending? && J.At(fc, 0) % 16 != J.FLOW_ABORT && J.At(fc, 0) % 16 != J.FLOW_WAIT {
        TurnIsStep(ready, 0, sent);
        TurnFrames(l.(toTx := l.toTx[1..]), t, 0);
        assert AsEngine(ready, sent) == E.Granted(e, 0, t.blockLeft);
        more := Turn(ready, t, 0).toRx[|l.toRx|..];
        SameTurn(l.(toTx := l.toTx[1..]), t, 0);
      }
      OneEvent(option, e, E.Flow(fc));
    case Resume(i) =>
      var woken := l.(loops := l.loops[..i] + l.loops[i + 1..]);
      assert AsEngine(woken, sent).loops == E.Without(e, i).loops;
      if l.tx.progress.Pending? {
        TurnIsStep(woken, l.loops[i], sent);
        TurnFrames(woken, l.tx, l.loops[i]);
        more := Turn(woken, l.tx, l.loops[i]).toRx[|l.toRx|..];
      }
      OneEvent(option, e, E.Resume(i));
  }

  lemma TurnFrames(l: Link, t: J.Transfer, count: nat)
    requires J.TransferOk(t) && t.progress.Pending?
    ensures l.toRx <= Turn(l, t, count).toRx && Turn(l, t, count).tx.data == t.data
  {
  }

  lemma SameTurn(l: Link, t: J.Transfer, count: nat)
    requires J.TransferOk(t) && t.progress.Pending?
    ensures Turn(l.(tx := t), t, count) == Turn(l, t, count)
  {
  }

  lemma OneEvent(option: nat, e: E.Engine, ev: E.Event)
    requires E.Sound(e) && E.Enabled(e, ev)
    ensures E.Possible(option, e, [ev]) && E.Run(option, e, [ev]) == E.Apply(option, e, ev)
  {
    E.RunsNone(option, E.Apply(option, e, ev));
    E.RunsOne(option, e, ev, []);
    assert [ev] + [] == [ev];
  }

  /** What the sending side does in a run is a run of the engine with this one transfer. */
  lemma {:induction false} SenderSideIsEngine(b: Config, option: nat, l: Link, moves: seq<Move>, sent: seq<Bytes>)
    returns (events: seq<E.Event>, after: seq<Bytes>)
    requires J.TransferOk(l.tx) && |l.tx.data| > 7 && Possible(b, option, l, moves)
    ensures E.Sound(AsEngine(l, sent)) && E.Possible(option, AsEngine(l, sent), events)
    ensures E.Run(option, AsEngine(l, sent), events) == AsEngine(Exec(b, option, l, moves), after)
    decreases |moves|
  {
    hide Apply, AsEngine, AsEvent, E.Run, E.Possible;
    if moves == [] {
      StartIsSound(l, sent);
      E.RunsNone(option, AsEngine(l, sent));
      events, after := [], sent;
    } else {
      var more := MoveIsEvent(b, option, l, moves[0], sent);
      var later;
      later, after := SenderSideIsEngine(b, option, Apply(b, option, l, moves[0]), moves[1..], sent + more);
      E.RunJoins(option, AsEngine(l, sent), AsEvent(l, moves[0]), later);
      events := AsEvent(l, moves[0]) + later;
    }
  }

  lemma StartIsSound(l: Link, sent: seq<Bytes>)
    requires J.TransferOk(l.tx) && |l.tx.data| > 7
    ensures E.Sound(AsEngine(l, sent))
  {
  }

  // ---------- the invariant ----------

  function Total(b: Config, payload: Bytes): nat
    requires Ends(b, payload)
  {
    L.ConsecutiveTotal(Bare(b), payload)
  }

  function Unsent(b: Config, t: J.Transfer): seq<Bytes>
    requires J.ClassicNormal(b) && J.TransferOk(t)
  {
    Consecutive(Bare(b), t.data, t.offset, t.sn)
  }

  /** The one transfer of the payload; behind its last frame a loop is still suspended. */
  predicate Carries(payload: Bytes, l: Link) {
    && J.TransferOk(l.tx) && l.tx.data == payload && !l.tx.progress.Rejected?
    && (l.tx.progress.Pending? && l.tx.offset == |payload| ==> l.loops != [])
  }

  /** At most one loop is inside its block, with `taken` frames of it transmitted; the others only have to end. */
  predicate OneAhead(loops: seq<nat>, taken: nat, size: nat) {
    && (forall i :: 0 <= i < |loops| ==> loops[i] == taken || loops[i] == size)
    && (forall i, j :: 0 <= i < j < |loops| && loops[i] == taken && loops[j] == taken ==> taken == size)
    && (taken < size ==> taken in loops)
  }

  /** A receiver that asks for blocks: the two ends agree on how far the block has got. */
  predicate BlockAgrees(b: Config, l: Link)
    requires l.rx.phase.Collecting?
  {
    var size, t := b.blockSize, l.tx;
    var taken := l.rx.phase.inBlock + |l.toRx|;
    && l.rx.phase.inBlock < size
    && (l.loops != [] ==> t.blockLeft == size)
    && if l.toTx != [] then
         && l.toTx == [L.GrantFrame(b)] && l.toRx == [] && l.rx.phase.inBlock == 0 && t.offset < |t.data|
         && OneAhead(l.loops, size, size)
       else
         taken <= size && (t.offset == |t.data| || OneAhead(l.loops, taken, size))
  }

  /** A receiver that asks for no blocks: the sender transmits its own block on the one grant. */
  predicate OwnBlock(b: Config, option: nat, payload: Bytes, l: Link)
    requires Ends(b, payload) && J.TransferOk(l.tx)
  {
    var own, sent, t := option % 256, Total(b, payload) - |Unsent(b, l.tx)|, l.tx;
    if l.toTx != [] then
      l.toTx == [L.GrantFrame(b)] && l.toRx == [] && l.loops == [] && sent == 0 && t.offset < |t.data|
    else
      && sent <= own
      && (t.offset == |t.data|
          || (l.loops == [] && sent == own)
          || (l.loops == [sent] && sent > 0 && t.blockLeft == own))
  }

  predicate Running(b: Config, option: nat, payload: Bytes, l: Link)
    requires Ends(b, payload) && Carries(payload, l)
  {
    && R.Holding(payload, l.rx)
    && l.toRx + Unsent(b, l.tx) == Consecutive(Bare(b), payload, |l.rx.buffer|, l.rx.sequence)
    && (if b.blockSize > 0 then BlockAgrees(b, l) else OwnBlock(b, option, payload, l))
  }

  predicate GetsThrough(b: Config, option: nat, payload: Bytes)
    requires Ends(b, payload)
  {
    b.blockSize > 0 || Total(b, payload) <= option % 256
  }

  /** The payload is returned; the loops that are still suspended only have to end. */
  predicate Returned(b: Config, option: nat, payload: Bytes, l: Link)
    requires Ends(b, payload)
  {
    && l.rx.phase == M.Delivered(payload) && l.tx.offset == |payload|
    && l.toRx == [] && l.toTx == [] && GetsThrough(b, option, payload)
  }

  predicate Inv(b: Config, option: nat, payload: Bytes, rx: M.Receiver, l: Link)
    requires Ends(b, payload)
  {
    && Carries(payload, l)
    && match l.rx.phase
       case Idle => l == Initial(payload, rx)
       case Collecting(_) => Running(b, option, payload, l)
       case _ => Returned(b, option, payload, l)
  }

  /** Falls with every step. */
  function Measure(b: Config, l: Link): nat
    requires J.ClassicNormal(b) && J.TransferOk(l.tx)
  {
    3 * |Unsent(b, l.tx)| + 2 * |l.toRx| + |l.toTx| + |l.loops|
  }

  // ---------- every step keeps it ----------

  /** A turn moves one frame from the unsent ones to the channel, or ends the loop. */
  lemma TurnMoves(b: Config, l: Link, t: J.Transfer, count: nat)
    requires J.ClassicNormal(b) && J.TransferOk(t) && t.progress.Pending?
    ensures var r := Turn(l, t, count);
            && r.rx == l.rx && r.toTx == l.toTx && r.tx.data == t.data && !r.tx.progress.Rejected?
            && r.toRx + Unsent(b, r.tx) == l.toRx + Unsent(b, t)
            && r.tx.blockLeft == t.blockLeft
            && (if t.offset < |t.data| && count < t.blockLeft then
                  && r.loops == l.loops + [count + 1] && r.tx.progress.Pending?
                  && |r.toRx| == |l.toRx| + 1 && |Unsent(b, r.tx)| == |Unsent(b, t)| - 1
                else
                  && r.loops == l.loops && r.toRx == l.toRx && r.tx.offset == t.offset && r.tx.sn == t.sn
                  && Unsent(b, r.tx) == Unsent(b, t)
                  && (r.tx.progress.Pending? <==> t.offset < |t.data|))
  {
    hide Consecutive, J.NextFrame;
    if t.offset < |t.data| {
      J.NextIsBody(Bare(b), t);
    }
  }

  lemma GrantStarts(loops: seq<nat>, size: nat)
    requires OneAhead(loops, size, size) && size > 0
    ensures OneAhead(loops + [1], 1, size)
  {
    assert (loops + [1])[|loops|] == 1;
  }

  /** The loop inside its block goes on by one frame, a loop at the end of its block is over. */
  lemma LoopsMove(loops: seq<nat>, i: nat, taken: nat, size: nat)
    requires i < |loops| && OneAhead(loops, taken, size) && taken <= size
    ensures var others := loops[..i] + loops[i + 1..];
            if loops[i] < size then loops[i] == taken && OneAhead(others + [taken + 1], taken + 1, size)
            else OneAhead(others, taken, size)
  {
    var others := loops[..i] + loops[i + 1..];
    assert forall j :: 0 <= j < |others| ==> others[j] == loops[if j < i then j else j + 1];
    if loops[i] < size {
      assert (others + [taken + 1])[|others|] == taken + 1;
      assert forall j :: 0 <= j < |others| ==> others[j] == size;
    } else if taken < size {
      var j :| 0 <= j < |loops| && loops[j] == taken;
      assert others[if j < i then j else j - 1] == taken;
    }
  }

  lemma SameUnsent(b: Config, t: J.Transfer, block: nat)
    requires J.ClassicNormal(b) && J.TransferOk(t)
    ensures Unsent(b, t.(blockLeft := block)) == Unsent(b, t)
  {
  }

  lemma GrantKeeps(b: Config, option: nat, payload: Bytes, rx: M.Receiver, l: Link)
    requires Ends(b, payload) && Inv(b, option, payload, rx, l) && l.toTx != []
    ensures var next := OnFlow(option, l); Inv(b, option, payload, rx, next) && Measure(b, next) < Measure(b, l)
  {
    hide Consecutive, L.GrantFrame, Turn, Unsent, OneAhead, R.Holding;
    PythonGrants(b, option);
    var block := if b.blockSize > 0 then b.blockSize else option % 256;
    var heard, t := l.(toTx := l.toTx[1..]), l.tx.(blockLeft := block);
    TurnMoves(b, heard, t, 0);
    SameUnsent(b, l.tx, block);
    if b.blockSize > 0 {
      GrantStarts(l.loops, block);
    } else {
      assert [] + [1] == [1];
    }
  }

  /** A loop at the receiver that asks for blocks. */
  lemma BlockLoopKeeps(b: Config, payload: Bytes, l: Link, i: nat)
    requires Ends(b, payload) && Carries(payload, l) && l.rx.phase.Collecting? && b.blockSize > 0
    requires BlockAgrees(b, l) && i < |l.loops|
    ensures BlockAgrees(b, OnResume(l, i))
  {
    hide Consecutive, L.GrantFrame, Turn, OneAhead;
    var woken := l.(loops := l.loops[..i] + l.loops[i + 1..]);
    if l.tx.progress.Pending? {
      TurnMoves(b, woken, l.tx, l.loops[i]);
    }
    if l.tx.offset < |l.tx.data| {
      var taken := if l.toTx != [] then b.blockSize else l.rx.phase.inBlock + |l.toRx|;
      LoopsMove(l.loops, i, taken, b.blockSize);
      AheadIsWithin(l.loops, i, taken, b.blockSize);
    }
  }

  lemma AheadIsWithin(loops: seq<nat>, i: nat, taken: nat, size: nat)
    requires i < |loops| && OneAhead(loops, taken, size)
    ensures loops[i] == taken || loops[i] == size
  {
  }

  lemma OwnLoopKeeps(b: Config, option: nat, payload: Bytes, l: Link, i: nat)
    requires Ends(b, payload) && Carries(payload, l) && OwnBlock(b, option, payload, l) && i < |l.loops|
    ensures OwnBlock(b, option, payload, OnResume(l, i))
  {
    hide Consecutive, L.GrantFrame, Turn, Unsent;
    var woken := l.(loops := l.loops[..i] + l.loops[i + 1..]);
    if l.tx.progress.Pending? {
      TurnMoves(b, woken, l.tx, l.loops[i]);
      if l.tx.offset < |l.tx.data| {
        assert woken.loops == [];
        assert [] + [l.loops[i] + 1] == [l.loops[i] + 1];
      }
    }
    SameTransfer(b, l.tx, OnResume(l, i).tx);
  }

  lemma SameTransfer(b: Config, t: J.Transfer, r: J.Transfer)
    requires J.ClassicNormal(b) && J.TransferOk(t) && J.TransferOk(r)
    ensures t.data == r.data && t.offset == r.offset && t.sn == r.sn ==> Unsent(b, t) == Unsent(b, r)
  {
  }

  lemma ResumeKeeps(b: Config, option: nat, payload: Bytes, rx: M.Receiver, l: Link, i: nat)
    requires Ends(b, payload) && Inv(b, option, payload, rx, l) && i < |l.loops|
    ensures Inv(b, option, payload, rx, OnResume(l, i)) && Measure(b, OnResume(l, i)) < Measure(b, l)
  {
    hide Consecutive, L.GrantFrame, Turn, Unsent, R.Holding, BlockAgrees, OwnBlock;
    var next := OnResume(l, i);
    var woken := l.(loops := l.loops[..i] + l.loops[i + 1..]);
    if l.tx.progress.Pending? {
      TurnMoves(b, woken, l.tx, l.loops[i]);
    }
    if l.rx.phase.Collecting? {
      if b.blockSize > 0 {
        BlockLoopKeeps(b, payload, l, i);
      } else {
        OwnLoopKeeps(b, option, payload, l, i);
      }
    }
  }

  lemma FirstFrameKeeps(b: Config, option: nat, payload: Bytes, rx: M.Receiver, l: Link)
    requires Ends(b, payload) && Inv(b, option, payload, rx, l) && l.rx.phase.Idle?
    ensures var next := Apply(b, option, l, TakeFrame);
            Inv(b, option, payload, rx, next) && Measure(b, next) < Measure(b, l)
  {
    hide M.OnFrame, Consecutive, Wire;
    var a := Bare(b);
    J.FirstAlike(a, payload);
    BareWire(a, [FirstBody(a, payload)]);
    assert WireAll(a, [FirstBody(a, payload)])[0] == Wire(a, FirstBody(a, payload));
    R.TakesFirst(a, b, l.rx, payload);
    var next := Apply(b, option, l, TakeFrame);
    assert next.toTx == [L.GrantFrame(b)] && next.toRx == [];
    assert next.toRx + Unsent(b, next.tx) == Unsent(b, next.tx);
  }

  /** What a consecutive frame does: the stream goes on behind it, and a full block is answered. */
  lemma FrameTaken(b: Config, option: nat, payload: Bytes, l: Link)
    requires Ends(b, payload) && Carries(payload, l) && Running(b, option, payload, l) && l.toRx != []
    ensures var next := Apply(b, option, l, TakeFrame);
            var left := next.toRx + Unsent(b, next.tx);
            && next.tx == l.tx && next.loops == l.loops && |next.toRx| == |l.toRx| - 1
            && if left == [] then next.rx.phase == M.Delivered(payload) && next.toTx == l.toTx
               else
                 && R.Holding(payload, next.rx)
                 && left == Consecutive(Bare(b), payload, |next.rx.buffer|, next.rx.sequence)
                 && if b.blockSize > 0 && l.rx.phase.inBlock + 1 >= b.blockSize
                    then next.toTx == l.toTx + [L.GrantFrame(b)] && next.rx.phase.inBlock == 0
                    else next.toTx == l.toTx && next.rx.phase.inBlock == l.rx.phase.inBlock + 1
  {
    hide M.OnFrame, Consecutive, L.GrantFrame, Wire, R.AfterNext, Chunk;
    var a, r := Bare(b), l.rx;
    BareWire(a, Consecutive(a, payload, |r.buffer|, r.sequence));
    L.HeadIsNext(a, b, payload, r, l.toRx, Unsent(b, l.tx));
    NextAnswer(a, b, payload, r);
    var index := |r.buffer| + |Chunk(a, payload, |r.buffer|)|;
    BareWire(a, Consecutive(a, payload, index, (r.sequence + 1) % 16));
    L.MoreToCome(a, payload, index, (r.sequence + 1) % 16);
    assert l.toTx + [] == l.toTx;
  }

  lemma FrameKeeps(b: Config, option: nat, payload: Bytes, rx: M.Receiver, l: Link)
    requires Ends(b, payload) && Inv(b, option, payload, rx, l) && l.rx.phase.Collecting? && l.toRx != []
    ensures var next := Apply(b, option, l, TakeFrame);
            Inv(b, option, payload, rx, next) && Measure(b, next) < Measure(b, l)
  {
    hide Consecutive, L.GrantFrame, Total, M.OnFrame, OneAhead;
    FrameTaken(b, option, payload, l);
    L.MoreToCome(Bare(b), payload, l.tx.offset, l.tx.sn);
    var next := Apply(b, option, l, TakeFrame);
    assert [] + [L.GrantFrame(b)] == [L.GrantFrame(b)];
  }

  lemma {:induction false} RunKeeps(b: Config, option: nat, payload: Bytes, rx: M.Receiver, l: Link, moves: seq<Move>)
    requires Ends(b, payload) && Inv(b, option, payload, rx, l) && Possible(b, option, l, moves)
    ensures var end := Exec(b, option, l, moves);
            Inv(b, option, payload, rx, end) && |moves| + Measure(b, end) <= Measure(b, l)
    decreases |moves|
  {
    hide Running, Measure, OnFlow, OnResume, M.OnFrame;
    if moves != [] {
      match moves[0] {
        case TakeFlow =>
          GrantKeeps(b, option, payload, rx, l);
        case Resume(i) =>
          ResumeKeeps(b, option, payload, rx, l, i);
        case TakeFrame =>
          if l.rx.phase.Idle? {
            FirstFrameKeeps(b, option, payload, rx, l);
          } else {
            FrameKeeps(b, option, payload, rx, l);
          }
      }
      RunKeeps(b, option, payload, rx, Apply(b, option, l, moves[0]), moves[1..]);
    }
  }

  /** No side can move: nothing can be taken, and no loop is suspended. */
  predicate Settled(l: Link) {
    !Enabled(l, TakeFlow) && !Enabled(l, TakeFrame) && l.loops == []
  }

  /** Where no side can move, the transfer is complete, or the sender waits for a grant that does not come. */
  lemma Stops(b: Config, option: nat, payload: Bytes, rx: M.Receiver, l: Link)
    requires Ends(b, payload) && Inv(b, option, payload, rx, l) && Settled(l)
    ensures if GetsThrough(b, option, payload) then l.tx.progress.Resolved? && l.rx.phase == M.Delivered(payload)
            else l.tx.progress.Pending? && l.rx.phase.Collecting? && l.toRx == [] && l.toTx == []
  {
    hide Consecutive, L.GrantFrame, Total;
    if l.rx.phase.Collecting? {
      L.MoreToCome(Bare(b), payload, |l.rx.buffer|, l.rx.sequence);
      L.MoreToCome(Bare(b), payload, l.tx.offset, l.tx.sn);
    }
  }

  /**
   For every interleaving of a JavaScript sender and a Python receiver, whenever the sender's block loops go on: the
   run is finite, nothing is raised and nothing but the payload is returned. If the receiver asks for blocks or the
   message fits into the sender's own block size, the run can stop only when the transfer has resolved and the payload
   was returned. Otherwise it stops with the transfer pending and the receiver waiting, which the N_Cr timeout ends.
   */
  lemma EveryInterleaving(b: Config, option: nat, payload: Bytes, rx: M.Receiver, moves: seq<Move>)
    requires Ends(b, payload) && Possible(b, option, Initial(payload, rx), moves)
    ensures var l := Exec(b, option, Initial(payload, rx), moves);
            && !l.rx.phase.Broken? && !l.rx.phase.Silent? && !l.tx.progress.Rejected?
            && (l.rx.phase.Delivered? ==> l.rx.phase.payload == payload && GetsThrough(b, option, payload))
            && |moves| <= 3 * Total(b, payload) + 2
            && ((forall m :: !Enabled(l, m)) ==>
                  if GetsThrough(b, option, payload)
                  then l.tx.progress.Resolved? && l.rx.phase == M.Delivered(payload)
                  else l.tx.progress.Pending? && l.rx.phase.Collecting?
                       && M.OnFrame(b, l.rx, None).0.phase == M.Broken(M.NCrTimeout))
  {
    hide Consecutive, L.GrantFrame, Running;
    var start := Initial(payload, rx);
    StartCarries(b, payload, rx);
    RunKeeps(b, option, payload, rx, start, moves);
    var l := Exec(b, option, start, moves);
    if forall m :: !Enabled(l, m) {
      assert !Enabled(l, TakeFlow) && !Enabled(l, TakeFrame) && !Enabled(l, Resume(0));
      Stops(b, option, payload, rx, l);
    }
  }

  lemma StartCarries(b: Config, payload: Bytes, rx: M.Receiver)
    requires Ends(b, payload)
    ensures Carries(payload, Initial(payload, rx)) && |Unsent(b, J.Start(payload).0)| == Total(b, payload)
  {
    J.FirstAlike(Bare(b), payload);
  }
}
