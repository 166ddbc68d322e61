/** The statistics of a handler count what crosses the driver boundary and how the calls end, each thing once. */
module IsoTpStatistics {
  import opened Common
  import opened IsoTpFrames
  import opened IsoTpMachines

  /** What a trace holds of each kind of event. */
  datatype Tally = Tally(sent: nat, got: nat, quiet: nat, flows: nat, waits: nat)

  function Counted(c: Config, e: Event): Tally {
    match e
    case Sent(_) => Tally(1, 0, 0, 0, 0)
    case Quiet => Tally(0, 0, 1, 0, 0)
    case Got(frame) =>
      var body := Strip(c, frame);
      Tally(0, 1, 0, if body != [] && 0x30 <= body[0] <= 0x3F then 1 else 0,
            if body != [] && body[0] == 0x31 then 1 else 0)
  }

  function Plus(a: Tally, b: Tally): Tally {
    Tally(a.sent + b.sent, a.got + b.got, a.quiet + b.quiet, a.flows + b.flows, a.waits + b.waits)
  }

  function CountAll(c: Config, trace: seq<Event>): Tally {
    if trace == [] then Tally(0, 0, 0, 0, 0)
    else Plus(CountAll(c, trace[..|trace| - 1]), Counted(c, trace[|trace| - 1]))
  }

  lemma CountSnoc(c: Config, trace: seq<Event>, e: Event)
    ensures CountAll(c, trace + [e]) == Plus(CountAll(c, trace), Counted(c, e))
  {
    assert (trace + [e])[..|trace|] == trace;
  }

  // ---------- sending ----------

  /** What the sending half has counted on the way from one point of a run to another. */
  predicate SenderCounts(s: Sender, before: Tally, end: Sender, after: Tally) {
    var st, to := s.statistics, end.statistics;
    && to.framesSent - st.framesSent == after.sent - before.sent
    && to.flowControlReceived - st.flowControlReceived == after.flows - before.flows
    && to.waitFrames - st.waitFrames == after.waits - before.waits
    && to.timeouts - st.timeouts == after.quiet - before.quiet
    && to.messagesSent - st.messagesSent == (if end.phase.Finished? then 1 else 0)
    && to.errors - st.errors == (if end.phase == Failed(PeerOverflow) then 1 else 0)
    && to.framesReceived == st.framesReceived && to.messagesReceived == st.messagesReceived
    && to.flowControlSent == st.flowControlSent
  }

  lemma TurnCounts(c: Config, s: Sender, inbox: Inbox)
    requires SenderOk(c, s) && !Done(s)
    ensures var (next, _, e) := Turn(c, s, inbox);
            SenderCounts(s, Tally(0, 0, 0, 0, 0), next, Counted(c, e))
  {
    hide Strip;
  }

  /**
   Every run of `send`: frames sent, flow control and WAIT frames received and timeouts are those of the trace; a
   message is counted exactly if the run finishes, an error exactly if the peer reports an overflow.
   */
  lemma {:induction false} SendCounts(c: Config, s: Sender, inbox: Inbox, trace: seq<Event>)
    requires SenderOk(c, s) && !Done(s)
    ensures var run := RunSend(c, s, inbox, trace);
            SenderCounts(s, CountAll(c, trace), run.sender, CountAll(c, run.trace))
    decreases Rank(s) + |inbox|, s.phase.AwaitFlow?
  {
    hide Turn, CountAll, Counted;
    var (next, rest, e) := Turn(c, s, inbox);
    TurnCounts(c, s, inbox);
    CountSnoc(c, trace, e);
    if !Done(next) {
      SendCounts(c, next, rest, trace + [e]);
    }
  }

  // ---------- receiving ----------

  predicate ReceiverCounts(r: Receiver, before: Tally, end: Receiver, after: Tally) {
    var st, to := r.statistics, end.statistics;
    && to.framesReceived - st.framesReceived == after.got - before.got
    && to.framesSent - st.framesSent == to.flowControlSent - st.flowControlSent == after.sent - before.sent
    && to.messagesReceived - st.messagesReceived == (if end.phase.Delivered? then 1 else 0)
    && to.timeouts - st.timeouts == (if end.phase == Broken(NCrTimeout) then 1 else 0)
    && to.errors - st.errors == (if end.phase.Broken? && end.phase.error.SequenceNumber? then 1 else 0)
    && to.messagesSent == st.messagesSent && to.flowControlReceived == st.flowControlReceived
    && to.waitFrames == st.waitFrames
  }

  lemma FrameCounts(c: Config, r: Receiver, got: Option<Bytes>)
    requires Listening(r)
    ensures var (next, replies) := OnFrame(c, r, got);
            && |replies| <= 1
            && ReceiverCounts(r, Tally(0, 0, 0, 0, 0), next, Tally(|replies|, if got.Some? then 1 else 0, 0, 0, 0))
  {
    hide Strip, Wire;
  }

  lemma RepliesCounted(c: Config, trace: seq<Event>, got: Option<Bytes>, replies: seq<Bytes>)
    requires |replies| <= 1
    ensures var before, after := CountAll(c, trace), CountAll(c, trace + [Observed(got)] + SentEvents(replies));
            after.sent == before.sent + |replies| && after.got == before.got + if got.Some? then 1 else 0
  {
    hide CountAll;
    CountSnoc(c, trace, Observed(got));
    var longer := trace + [Observed(got)];
    if replies == [] {
      assert longer + SentEvents(replies) == longer;
    } else {
      CountSnoc(c, longer, Sent(replies[0]));
      assert SentEvents(replies) == [Sent(replies[0])];
    }
  }

  /**
   Every run of `receive`: frames received are those of the trace, frames sent are the flow control it answers with; a
   message is counted exactly if one is returned, a timeout exactly for the one that is raised, and an error exactly
   for a wrong sequence number.
   */
  lemma {:induction false} ReceiveCounts(c: Config, r: Receiver, inbox: Inbox, trace: seq<Event>)
    requires Listening(r)
    ensures var run := RunReceive(c, r, inbox, trace);
            ReceiverCounts(r, CountAll(c, trace), run.receiver, CountAll(c, run.trace))
    decreases |inbox|
  {
    hide OnFrame, CountAll, SentEvents;
    var (next, replies) := OnFrame(c, r, Head(inbox));
    FrameCounts(c, r, Head(inbox));
    RepliesCounted(c, trace, Head(inbox), replies);
    var seen := trace + [Observed(Head(inbox))] + SentEvents(replies);
    if inbox != [] && Listening(next) {
      ReceiveCounts(c, next, Rest(inbox), seen);
    }
  }
}
