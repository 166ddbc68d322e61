/**
 The request cycle of the UDS client: pending responses, automatic retries, echo validation and the
 statistics. The transport is the field `replies`: what `request` and `receive` return, in order, `None`
 once it is used up; it raises nothing. `trace` records every call to it.
 */
module UdsClient {
  import opened Common

  const NEGATIVE_RESPONSE_SID := 0x7F
  const POSITIVE_RESPONSE_OFFSET := 0x40
  const RESPONSE_PENDING := 0x78
  const BUSY_REPEAT_REQUEST := 0x21
  const RETRYABLE_NRCS: set<int> := {BUSY_REPEAT_REQUEST, RESPONSE_PENDING}

  /** Services whose second byte is a sub-function. */
  const SUB_FUNCTION_SERVICES: set<int> :=
    {0x10, 0x11, 0x19, 0x27, 0x28, 0x29, 0x2A, 0x2C, 0x31, 0x3E, 0x83, 0x85, 0x86, 0x87}

  datatype Config = Config(maxPending: int, maxRetries: int, retryOnBusy: bool, suppressPositive: bool,
                           raiseOnNegative: bool)

  datatype Statistics = Statistics(
    requests: nat,
    positive: nat,
    negative: nat,
    timeouts: nat,
    retries: nat,
    pending: nat)

  /** One call to the transport and what it returned. */
  datatype Call = Request(got: Option<Bytes>) | Receive(got: Option<Bytes>)

  type Replies = seq<Option<Bytes>>

  /** `Rejected` stands for InvalidResponseError. */
  datatype Answer = Rejected | Response(raw: Bytes, timedOut: bool, suppressed: bool, pendingCount: nat)

  /** `Refused` stands for a request that is malformed or made without a connection. */
  datatype Result = Refused | Invalid | Raised(nrc: byte) | Answered(response: Answer)

  predicate IsPending(payload: Bytes) {
    |payload| >= 3 && payload[0] == NEGATIVE_RESPONSE_SID && payload[2] == RESPONSE_PENDING
  }

  predicate IsNegative(raw: Bytes) {
    |raw| >= 3 && raw[0] == NEGATIVE_RESPONSE_SID
  }

  predicate ShouldRetry(c: Config, nrc: byte, attempt: nat) {
    attempt < c.maxRetries && nrc in RETRYABLE_NRCS
  }

  predicate Retries(c: Config, raw: Bytes, attempt: nat) {
    IsNegative(raw) && c.retryOnBusy && ShouldRetry(c, raw[2], attempt) && raw[2] == BUSY_REPEAT_REQUEST
  }

  /** `_validate_echo` raises nothing. */
  predicate EchoOk(request: Bytes, raw: Bytes)
    requires request != []
  {
    raw == []
    || (if raw[0] == NEGATIVE_RESPONSE_SID then |raw| >= 3
        else raw[0] == (request[0] as int + POSITIVE_RESPONSE_OFFSET) % 256)
  }

  predicate SupportsSuppression(request: Bytes) {
    |request| >= 2 && request[0] in SUB_FUNCTION_SERVICES
  }

  function WithSuppression(request: Bytes): Bytes {
    if SupportsSuppression(request) && request[1] < 0x80 then request[1 := request[1] + 0x80] else request
  }

  predicate IsSuppressed(request: Bytes) {
    SupportsSuppression(request) && request[1] >= 0x80
  }

  // ---------- the cycle as functions ----------

  datatype Resolved = Resolved(response: Option<Bytes>, count: nat, rest: Replies, trace: seq<Call>)

  /** `PendingResponseHandler.resolve` after `count` pending responses. */
  function Resolve(c: Config, response: Option<Bytes>, count: nat, replies: Replies, trace: seq<Call>): Resolved
    decreases |replies|
  {
    if response.None? || !IsPending(response.value) then Resolved(response, count, replies, trace)
    else if count + 1 > c.maxPending then Resolved(response, count + 1, replies, trace)
    else
      var seen := trace + [Receive(Head(replies))];
      if replies == [] then Resolved(None, count + 1, [], seen)
      else Resolve(c, Head(replies), count + 1, Rest(replies), seen)
  }

  datatype Exchanged = Exchanged(answer: Answer, rest: Replies, trace: seq<Call>, statistics: Statistics)

  /** The statistics after an attempt that asks for a retry. */
  function Retried(st: Statistics, count: nat): Statistics {
    st.(requests := st.requests + 1, pending := st.pending + count, retries := st.retries + 1)
  }

  /** `_exchange` after `attempt` transmissions that asked for a retry. */
  function Exchange(c: Config, request: Bytes, suppressed: bool, attempt: nat, pending: nat, replies: Replies,
                    trace: seq<Call>, st: Statistics): Exchanged
    requires request != []
    decreases Max(0, c.maxRetries - attempt)
  {
    var r := Resolve(c, Head(replies), 0, Rest(replies), trace + [Request(Head(replies))]);
    var total := pending + r.count;
    var counted := st.(requests := st.requests + 1, pending := st.pending + r.count);
    if r.response.None? then Exchanged(Response([], !suppressed, suppressed, total), r.rest, r.trace, counted)
    else
      var raw := r.response.value;
      if Retries(c, raw, attempt + 1) then
        Exchange(c, request, suppressed, attempt + 1, total, r.rest, r.trace, Retried(st, r.count))
      else if EchoOk(request, raw) then Exchanged(Response(raw, false, false, total), r.rest, r.trace, counted)
      else Exchanged(Rejected, r.rest, r.trace, counted)
  }

  /** The client between two calls. */
  datatype State = State(replies: Replies, trace: seq<Call>, statistics: Statistics, counters: map<byte, nat>)

  function Recorded(counters: map<byte, nat>, nrc: byte): map<byte, nat> {
    counters[nrc := 1 + if nrc in counters then counters[nrc] else 0]
  }

  /** The accounting behind an exchange. */
  function Account(c: Config, e: Exchanged, counters: map<byte, nat>): (State, Result) {
    var st := e.statistics;
    if e.answer.Rejected? then (State(e.rest, e.trace, st, counters), Invalid)
    else if IsNegative(e.answer.raw) then
      (State(e.rest, e.trace, st.(negative := st.negative + 1), Recorded(counters, e.answer.raw[2])),
       if c.raiseOnNegative then Raised(e.answer.raw[2]) else Answered(e.answer))
    else if e.answer.timedOut then
      (State(e.rest, e.trace, st.(timeouts := st.timeouts + 1), counters), Answered(e.answer))
    else (State(e.rest, e.trace, st.(positive := st.positive + 1), counters), Answered(e.answer))
  }

  predicate Acceptable(payload: Bytes) {
    payload != [] && payload[0] != NEGATIVE_RESPONSE_SID
  }

  /** The request that goes out. */
  function Outgoing(c: Config, payload: Bytes, suppress: Option<bool>): Bytes {
    if (if suppress.Some? then suppress.value else c.suppressPositive) then WithSuppression(payload) else payload
  }

  function Send(c: Config, connected: bool, s: State, payload: Bytes, suppress: Option<bool>): (State, Result) {
    if !Acceptable(payload) || !connected then (s, Refused)
    else
      var request := Outgoing(c, payload, suppress);
      var e := Exchange(c, request, IsSuppressed(request), 0, 0, s.replies, s.trace, s.statistics);
      Account(c, e, s.counters)
  }

  // ---------- the client ----------

  class Client {
    const config: Config
    var connected: bool
    var replies: Replies
    var trace: seq<Call>
    var statistics: Statistics
    var counters: map<byte, nat>

    constructor (config: Config, replies: Replies)
      ensures this.config == config && connected
      ensures Snapshot() == State(replies, [], Statistics(0, 0, 0, 0, 0, 0), map[])
    {
      this.config := config;
      this.replies := replies;
      connected := true;
      trace := [];
      statistics := Statistics(0, 0, 0, 0, 0, 0);
      counters := map[];
    }

    ghost function Snapshot(): State
      reads this
    {
      State(replies, trace, statistics, counters)
    }

    method Ask() returns (reply: Option<Bytes>)
      modifies this`replies
      ensures reply == Head(old(replies)) && replies == Rest(old(replies))
    {
      reply := Head(replies);
      replies := Rest(replies);
    }

    method ResolvePending(first: Option<Bytes>) returns (response: Option<Bytes>, count: nat)
      modifies this`replies, this`trace
      ensures Resolved(response, count, replies, trace) == Resolve(config, first, 0, old(replies), old(trace))
    {
      response, count := first, 0;
      while response.Some? && IsPending(response.value)
        invariant Resolve(config, response, count, replies, trace) ==
                  Resolve(config, first, 0, old(replies), old(trace))
        decreases |replies|, response.Some?
      {
        count := count + 1;
        if count > config.maxPending {
          return;
        }
        response := Ask();
        trace := trace + [Receive(response)];
      }
    }

    method PerformExchange(request: Bytes, suppressed: bool) returns (answer: Answer)
      requires request != []
      modifies this`replies, this`trace, this`statistics
      ensures Exchanged(answer, replies, trace, statistics) ==
              Exchange(config, request, suppressed, 0, 0, old(replies), old(trace), old(statistics))
    {
      hide Resolve, EchoOk, IsPending;
      var attempt: nat, pendingTotal: nat := 0, 0;
      while true
        invariant Exchange(config, request, suppressed, attempt, pendingTotal, replies, trace, statistics) ==
                  Exchange(config, request, suppressed, 0, 0, old(replies), old(trace), old(statistics))
        decreases Max(0, config.maxRetries - attempt)
      {
        attempt := attempt + 1;
        statistics := statistics.(requests := statistics.requests + 1);
        var first := Ask();
        trace := trace + [Request(first)];
        var response, pending := ResolvePending(first);
        pendingTotal := pendingTotal + pending;
        statistics := statistics.(pending := statistics.pending + pending);
        if response.None? {
          return Response([], !suppressed, suppressed, pendingTotal);
        }
        var raw := response.value;
        if IsNegative(raw) && config.retryOnBusy && ShouldRetry(config, raw[2], attempt) &&
           raw[2] == BUSY_REPEAT_REQUEST {
          statistics := statistics.(retries := statistics.retries + 1);
          continue;
        }
        if !EchoOk(request, raw) {
          return Rejected;
        }
        return Response(raw, false, false, pendingTotal);
      }
    }

    method SendRequest(payload: Bytes, suppress: Option<bool>) returns (r: Result)
      modifies this`replies, this`trace, this`statistics, this`counters
      ensures (Snapshot(), r) == Send(config, connected, old(Snapshot()), payload, suppress)
    {
      hide Exchange, IsSuppressed;
      if |payload| == 0 || payload[0] == NEGATIVE_RESPONSE_SID {
        return Refused;
      }
      if !connected {
        return Refused;
      }
      var request := Outgoing(config, payload, suppress);
      var answer := PerformExchange(request, IsSuppressed(request));
      if answer.Rejected? {
        return Invalid;
      }
      if IsNegative(answer.raw) {
        statistics := statistics.(negative := statistics.negative + 1);
        var nrc := answer.raw[2];
        counters := counters[nrc := 1 + if nrc in counters then counters[nrc] else 0];
        if config.raiseOnNegative {
          return Raised(nrc);
        }
      } else if answer.timedOut {
        statistics := statistics.(timeouts := statistics.timeouts + 1);
      } else {
        statistics := statistics.(positive := statistics.positive + 1);
      }
      return Answered(answer);
    }
  }

  // ---------- bounds ----------

  function Transmissions(trace: seq<Call>): nat {
    if trace == [] then 0
    else Transmissions(trace[..|trace| - 1]) + if trace[|trace| - 1].Request? then 1 else 0
  }

  /** Receives since the last transmission. */
  function ReceivesSince(trace: seq<Call>): nat {
    if trace == [] || trace[|trace| - 1].Request? then 0 else 1 + ReceivesSince(trace[..|trace| - 1])
  }

  function PendingSeen(trace: seq<Call>): nat {
    if trace == [] then 0
    else
      var got := trace[|trace| - 1].got;
      PendingSeen(trace[..|trace| - 1]) + if got.Some? && IsPending(got.value) then 1 else 0
  }

  lemma CallCounts(trace: seq<Call>, call: Call)
    ensures Transmissions(trace + [call]) == Transmissions(trace) + if call.Request? then 1 else 0
    ensures ReceivesSince(trace + [call]) == if call.Request? then 0 else 1 + ReceivesSince(trace)
    ensures PendingSeen(trace + [call]) ==
            PendingSeen(trace) + if call.got.Some? && IsPending(call.got.value) then 1 else 0
  {
    assert (trace + [call])[..|trace|] == trace;
  }

  /** No transmission is followed by more than the permitted number of receives. */
  predicate FewReceives(c: Config, trace: seq<Call>) {
    forall n :: 0 <= n <= |trace| ==> ReceivesSince(trace[..n]) <= Max(0, c.maxPending)
  }

  lemma FewReceivesSnoc(c: Config, trace: seq<Call>, call: Call)
    requires FewReceives(c, trace) && (call.Request? || ReceivesSince(trace) < c.maxPending)
    ensures FewReceives(c, trace + [call])
  {
    var longer := trace + [call];
    CallCounts(trace, call);
    forall n | 0 <= n <= |longer| ensures ReceivesSince(longer[..n]) <= Max(0, c.maxPending) {
      if n <= |trace| {
        assert longer[..n] == trace[..n];
      } else {
        assert longer[..n] == longer;
      }
    }
  }

  /** `count` receives have been answered with pending; `response` is already in the trace. */
  lemma {:induction false} ResolveReceives(c: Config, response: Option<Bytes>, count: nat, replies: Replies,
                                           trace: seq<Call>)
    requires FewReceives(c, trace) && ReceivesSince(trace) == count
    ensures FewReceives(c, Resolve(c, response, count, replies, trace).trace)
    decreases |replies|
  {
    if response.Some? && IsPending(response.value) && count + 1 <= c.maxPending {
      var call := Receive(Head(replies));
      CallCounts(trace, call);
      FewReceivesSnoc(c, trace, call);
      if replies != [] {
        ResolveReceives(c, Head(replies), count + 1, Rest(replies), trace + [call]);
      }
    }
  }

  lemma {:induction false} ResolveCounts(c: Config, response: Option<Bytes>, count: nat, replies: Replies,
                                         trace: seq<Call>)
    ensures var r := Resolve(c, response, count, replies, trace);
            var first := if response.Some? && IsPending(response.value) then 1 else 0;
            && Transmissions(r.trace) == Transmissions(trace)
            && r.count == count + first + PendingSeen(r.trace) - PendingSeen(trace)
    decreases |replies|
  {
    if response.Some? && IsPending(response.value) && count + 1 <= c.maxPending {
      var call := Receive(Head(replies));
      CallCounts(trace, call);
      if replies != [] {
        ResolveCounts(c, Head(replies), count + 1, Rest(replies), trace + [call]);
      }
    }
  }

  /** One transmission and the pending responses behind it. */
  function Attempt(c: Config, replies: Replies, trace: seq<Call>): Resolved {
    Resolve(c, Head(replies), 0, Rest(replies), trace + [Request(Head(replies))])
  }

  lemma AttemptCounts(c: Config, replies: Replies, trace: seq<Call>)
    ensures var r := Attempt(c, replies, trace);
            && Transmissions(r.trace) == Transmissions(trace) + 1
            && r.count == PendingSeen(r.trace) - PendingSeen(trace)
  {
    var call := Request(Head(replies));
    CallCounts(trace, call);
    ResolveCounts(c, Head(replies), 0, Rest(replies), trace + [call]);
  }

  lemma {:induction false} ExchangeReceives(c: Config, request: Bytes, suppressed: bool, attempt: nat, pending: nat,
                                            replies: Replies, trace: seq<Call>, st: Statistics)
    requires request != [] && FewReceives(c, trace)
    ensures FewReceives(c, Exchange(c, request, suppressed, attempt, pending, replies, trace, st).trace)
    decreases Max(0, c.maxRetries - attempt)
  {
    var call := Request(Head(replies));
    FewReceivesSnoc(c, trace, call);
    CallCounts(trace, call);
    ResolveReceives(c, Head(replies), 0, Rest(replies), trace + [call]);
    var r := Attempt(c, replies, trace);
    if r.response.Some? && Retries(c, r.response.value, attempt + 1) {
      ExchangeReceives(c, request, suppressed, attempt + 1, pending + r.count, r.rest, r.trace, Retried(st, r.count));
    }
  }

  /** What the counters have beyond the trace. */
  function Ahead(st: Statistics, trace: seq<Call>): (int, int) {
    (st.requests - Transmissions(trace), st.pending - PendingSeen(trace))
  }

  lemma AttemptKeepsAhead(c: Config, replies: Replies, trace: seq<Call>, st: Statistics, retries: nat)
    ensures var r := Attempt(c, replies, trace);
            var after := st.(requests := st.requests + 1, pending := st.pending + r.count, retries := retries);
            Ahead(after, r.trace) == Ahead(st, trace)
  {
    AttemptCounts(c, replies, trace);
  }

  /** The counters move exactly with the trace. */
  lemma {:induction false} CountersFollowTrace(c: Config, request: Bytes, suppressed: bool, attempt: nat, pending: nat,
                                               replies: Replies, trace: seq<Call>, st: Statistics)
    requires request != []
    ensures var e := Exchange(c, request, suppressed, attempt, pending, replies, trace, st);
            Ahead(e.statistics, e.trace) == Ahead(st, trace)
    decreases Max(0, c.maxRetries - attempt)
  {
    hide Resolve, Transmissions, PendingSeen, IsNegative, EchoOk, Head, Rest;
    var r := Attempt(c, replies, trace);
    AttemptKeepsAhead(c, replies, trace, st, st.retries);
    if r.response.Some? && Retries(c, r.response.value, attempt + 1) {
      AttemptKeepsAhead(c, replies, trace, st, st.retries + 1);
      CountersFollowTrace(c, request, suppressed, attempt + 1, pending + r.count, r.rest, r.trace,
                          Retried(st, r.count));
    }
  }

  /**
   For every stream of replies a request is transmitted at most max(1, max_retries) times, each
   transmission is followed by at most max_pending receives, and the reported pending count is the
   number of pending responses seen.
   */
  lemma RequestIsBounded(c: Config, request: Bytes, suppressed: bool, replies: Replies, st: Statistics)
    requires request != []
    ensures var e := Exchange(c, request, suppressed, 0, 0, replies, [], st);
            && 1 <= Transmissions(e.trace) <= Max(1, c.maxRetries)
            && e.statistics.requests == st.requests + Transmissions(e.trace)
            && FewReceives(c, e.trace)
            && (e.answer.Response? ==> e.answer.pendingCount == PendingSeen(e.trace))
  {
    CountersFollowTrace(c, request, suppressed, 0, 0, replies, [], st);
    ExchangeReceives(c, request, suppressed, 0, 0, replies, [], st);
    ExchangeCounts(c, request, suppressed, 0, 0, replies, [], st);
  }

  // ---------- accounting ----------

  lemma {:induction false} ExchangeCounts(c: Config, request: Bytes, suppressed: bool, attempt: nat, pending: nat,
                                          replies: Replies, trace: seq<Call>, st: Statistics)
    requires request != []
    ensures var e := Exchange(c, request, suppressed, attempt, pending, replies, trace, st);
            && e.statistics.requests - st.requests == e.statistics.retries - st.retries + 1
            && 1 <= e.statistics.requests - st.requests <= Max(1, c.maxRetries - attempt)
            && (e.answer.Response? ==> e.answer.pendingCount - pending == e.statistics.pending - st.pending)
            && e.statistics.positive == st.positive && e.statistics.negative == st.negative
            && e.statistics.timeouts == st.timeouts
            && (e.answer.Response? ==> EchoOk(request, e.answer.raw))
            && (e.answer.Response? && e.answer.timedOut ==> e.answer.raw == [])
    decreases Max(0, c.maxRetries - attempt)
  {
    var r := Resolve(c, Head(replies), 0, Rest(replies), trace + [Request(Head(replies))]);
    if r.response.Some? && Retries(c, r.response.value, attempt + 1) {
      ExchangeCounts(c, request, suppressed, attempt + 1, pending + r.count, r.rest, r.trace, Retried(st, r.count));
    }
  }

  /** A call of `send_request`: whether the transport was connected, the payload and the suppression choice. */
  datatype Use = Use(connected: bool, payload: Bytes, suppress: Option<bool>)

  function Run(c: Config, s: State, uses: seq<Use>): (State, seq<Result>)
    decreases |uses|
  {
    if uses == [] then (s, [])
    else
      var (next, result) := Send(c, uses[0].connected, s, uses[0].payload, uses[0].suppress);
      var (end, later) := Run(c, next, uses[1..]);
      (end, [result] + later)
  }

  datatype Ending = NotSent | RejectedEcho | Negative | TimedOut | Positive

  /** How a request ended, as its caller sees it. */
  function EndingOf(result: Result): Ending {
    match result
    case Refused => NotSent
    case Invalid => RejectedEcho
    case Raised(_) => Negative
    case Answered(response) =>
      if response.Rejected? then RejectedEcho
      else if IsNegative(response.raw) then Negative
      else if response.timedOut then TimedOut
      else Positive
  }

  function Endings(results: seq<Result>, ending: Ending): nat {
    if results == [] then 0 else (if EndingOf(results[0]) == ending then 1 else 0) + Endings(results[1..], ending)
  }

  /** How often a run ended with the negative response code `nrc`. */
  function Negatives(results: seq<Result>, nrc: byte): nat {
    if results == [] then 0
    else
      var first := results[0];
      Negatives(results[1..], nrc) +
      if (first.Raised? && first.nrc == nrc)
         || (first.Answered? && first.response.Response? && IsNegative(first.response.raw)
             && first.response.raw[2] == nrc)
      then 1 else 0
  }

  function Tally(st: Statistics): int {
    st.requests - st.positive - st.negative - st.timeouts - st.retries
  }

  function CountOf(counters: map<byte, nat>, nrc: byte): nat {
    if nrc in counters then counters[nrc] else 0
  }

  /** What the counters have gained on `results`: one count for each ending, and nothing is counted twice. */
  predicate Classified(before: Statistics, after: Statistics, results: seq<Result>) {
    && after.positive == before.positive + Endings(results, Positive)
    && after.negative == before.negative + Endings(results, Negative)
    && after.timeouts == before.timeouts + Endings(results, TimedOut)
    && Tally(after) == Tally(before) + Endings(results, RejectedEcho)
  }

  lemma ClassifiedJoins(a: Statistics, b: Statistics, c: Statistics, result: Result, later: seq<Result>)
    requires Classified(a, b, [result]) && Classified(b, c, later)
    ensures Classified(a, c, [result] + later)
  {
    forall ending
      ensures Endings([result] + later, ending) == Endings([result], ending) + Endings(later, ending)
    {
      assert ([result] + later)[1..] == later;
    }
  }

  lemma OneEnding(result: Result, ending: Ending)
    ensures Endings([result], ending) == if EndingOf(result) == ending then 1 else 0
  {}

  lemma SendTallies(c: Config, connected: bool, s: State, payload: Bytes, suppress: Option<bool>, nrc: byte)
    ensures var (next, result) := Send(c, connected, s, payload, suppress);
            && Classified(s.statistics, next.statistics, [result])
            && CountOf(next.counters, nrc) == CountOf(s.counters, nrc) + Negatives([result], nrc)
  {
    var (next, result) := Send(c, connected, s, payload, suppress);
    assert [result][1..] == [] && Negatives([], nrc) == 0;
    forall ending
      ensures Endings([result], ending) == if EndingOf(result) == ending then 1 else 0
    {
      OneEnding(result, ending);
    }
    hide Endings, Exchange, IsSuppressed;
    if Acceptable(payload) && connected {
      var request := Outgoing(c, payload, suppress);
      ExchangeCounts(c, request, IsSuppressed(request), 0, 0, s.replies, s.trace, s.statistics);
    }
  }

  /**
   Over any sequence of requests: requests = positive + negative + timeouts + retries + rejected echoes,
   each of these is the number of requests that ended so, and each counter is the number of negative
   responses with its code.
   */
  lemma {:induction false} RunTallies(c: Config, s: State, uses: seq<Use>, nrc: byte)
    ensures var (end, results) := Run(c, s, uses);
            && Classified(s.statistics, end.statistics, results)
            && CountOf(end.counters, nrc) == CountOf(s.counters, nrc) + Negatives(results, nrc)
    decreases |uses|
  {
    hide Send;
    if uses != [] {
      var (next, result) := Send(c, uses[0].connected, s, uses[0].payload, uses[0].suppress);
      SendTallies(c, uses[0].connected, s, uses[0].payload, uses[0].suppress, nrc);
      RunTallies(c, next, uses[1..], nrc);
      var (end, later) := Run(c, next, uses[1..]);
      ClassifiedJoins(s.statistics, next.statistics, end.statistics, result, later);
      assert ([result] + later)[1..] == later;
    }
  }

  /**
   A returned non-empty response is a complete negative response or echoes the requested service; with
   `raise_on_negative` it is never negative.
   */
  lemma ReturnedResponseFits(c: Config, s: State, payload: Bytes, suppress: Option<bool>)
    requires Acceptable(payload)
    ensures var (_, result) := Send(c, true, s, payload, suppress);
            result.Answered? ==>
              var raw := result.response.raw;
              && result.response.Response?
              && (raw != [] ==> if raw[0] == NEGATIVE_RESPONSE_SID then |raw| >= 3 && !c.raiseOnNegative
                                else raw[0] == (payload[0] as int + POSITIVE_RESPONSE_OFFSET) % 256)
              && (result.response.timedOut ==> raw == [])
  {
    var request := Outgoing(c, payload, suppress);
    ExchangeCounts(c, request, IsSuppressed(request), 0, 0, s.replies, s.trace, s.statistics);
  }

  // ---------- what is transmitted again, and what is answered ----------

  /** What the transport returns as number `i`. */
  function ReplyAt(replies: Replies, i: nat): Option<Bytes> {
    if i < |replies| then replies[i] else None
  }

  predicate SaysPending(reply: Option<Bytes>) {
    reply.Some? && |reply.value| >= 3 && reply.value[0] == 0x7F && reply.value[2] == 0x78
  }

  predicate SaysBusy(reply: Option<Bytes>) {
    reply.Some? && |reply.value| >= 3 && reply.value[0] == 0x7F && reply.value[2] == 0x21
  }

  /** The trace is only written. */
  lemma {:induction false} ResolveIgnoresTrace(c: Config, response: Option<Bytes>, count: nat, replies: Replies,
                                               trace: seq<Call>, other: seq<Call>)
    ensures var r, o := Resolve(c, response, count, replies, trace), Resolve(c, response, count, replies, other);
            r.response == o.response && r.count == o.count && r.rest == o.rest
    decreases |replies|
  {
    if response.Some? && IsPending(response.value) && count + 1 <= c.maxPending && replies != [] {
      var call := Receive(Head(replies));
      ResolveIgnoresTrace(c, Head(replies), count + 1, Rest(replies), trace + [call], other + [call]);
    }
  }

  /** The replies with `response` before them. */
  function Nth(response: Option<Bytes>, replies: Replies, i: nat): Option<Bytes> {
    if i == 0 then response else ReplyAt(replies, i - 1)
  }

  /** `response` has come, and before it `count` pending responses. */
  lemma {:induction false} ResolvesFrom(c: Config, response: Option<Bytes>, count: nat, replies: Replies,
                                        trace: seq<Call>) returns (j: nat)
    requires count <= Max(0, c.maxPending)
    ensures var r := Resolve(c, response, count, replies, trace);
            && r.response == Nth(response, replies, j)
            && r.rest == replies[Min(|replies|, j)..]
            && (forall i: nat :: i < j ==> SaysPending(Nth(response, replies, i)))
            && r.count == count + j + (if SaysPending(r.response) then 1 else 0)
            && count + j <= Max(0, c.maxPending)
            && (SaysPending(r.response) ==> count + j == Max(0, c.maxPending))
    decreases |replies|
  {
    j := 0;
    if response.Some? && IsPending(response.value) && count + 1 <= c.maxPending {
      if replies != [] {
        hide Resolve;
        ResolveGoesOn(c, response, count, replies, trace);
        j := ResolvesFrom(c, Head(replies), count + 1, Rest(replies), trace + [Receive(Head(replies))]);
        forall i: nat | i < j + 1 ensures SaysPending(Nth(response, replies, i)) {
          assert i > 0 ==> Nth(response, replies, i) == Nth(Head(replies), Rest(replies), i - 1);
        }
      }
      j := j + 1;
    }
  }

  lemma ResolveGoesOn(c: Config, response: Option<Bytes>, count: nat, replies: Replies, trace: seq<Call>)
    requires response.Some? && IsPending(response.value) && count + 1 <= c.maxPending && replies != []
    ensures Resolve(c, response, count, replies, trace) ==
            Resolve(c, Head(replies), count + 1, Rest(replies), trace + [Receive(Head(replies))])
  {
  }

  /**
   A transmission resolves to the first reply that is not a pending response, or to the pending response behind
   `max_pending` others, whichever comes first; nothing behind it is consumed.
   */
  lemma PendingIsPassedOver(c: Config, replies: Replies, trace: seq<Call>) returns (j: nat)
    ensures var r := Attempt(c, replies, trace);
            && r.response == ReplyAt(replies, j)
            && r.rest == replies[Min(|replies|, j + 1)..]
            && (forall i: nat :: i < j ==> SaysPending(ReplyAt(replies, i)))
            && j <= Max(0, c.maxPending)
            && (SaysPending(ReplyAt(replies, j)) ==> j == Max(0, c.maxPending))
            && r.count == j + if SaysPending(ReplyAt(replies, j)) then 1 else 0
  {
    hide Resolve;
    j := ResolvesFrom(c, Head(replies), 0, Rest(replies), trace + [Request(Head(replies))]);
    forall i: nat ensures ReplyAt(replies, i) == Nth(Head(replies), Rest(replies), i) {
      assert i > 0 && replies != [] && i < |replies| ==> replies[1..][i - 1] == replies[i];
    }
  }

  /** The replies behind the first `k` transmissions. */
  function Behind(c: Config, replies: Replies, k: nat): Replies {
    if k == 0 then replies else Attempt(c, Behind(c, replies, k - 1), []).rest
  }

  /** What the transmission behind `k` others resolves to. */
  function Outcome(c: Config, replies: Replies, k: nat): Option<Bytes> {
    Attempt(c, Behind(c, replies, k), []).response
  }

  lemma {:induction false} BehindFirst(c: Config, replies: Replies, k: nat)
    ensures Behind(c, replies, k + 1) == Behind(c, Attempt(c, replies, []).rest, k)
    ensures Outcome(c, replies, k + 1) == Outcome(c, Attempt(c, replies, []).rest, k)
  {
    if k > 0 {
      BehindFirst(c, replies, k - 1);
    }
  }

  predicate Repeated(c: Config, reply: Option<Bytes>, transmissions: nat) {
    c.retryOnBusy && transmissions < c.maxRetries && SaysBusy(reply)
  }

  /** The answer to what the last transmission resolved to. */
  predicate AnswerTo(request: Bytes, suppressed: bool, reply: Option<Bytes>, answer: Answer)
    requires request != []
  {
    match reply
    case None => answer == Response([], !suppressed, suppressed, if answer.Response? then answer.pendingCount else 0)
    case Some(raw) =>
      if raw == [] || (if raw[0] == 0x7F then |raw| >= 3 else raw[0] == (request[0] as int + 0x40) % 256)
      then answer.Response? && answer == Response(raw, false, false, answer.pendingCount)
      else answer == Rejected
  }

  /** `n` transmissions are made from the one behind `attempt` others on. */
  predicate Transmits(c: Config, request: Bytes, suppressed: bool, attempt: nat, replies: Replies, e: Exchanged, n: nat)
    requires request != []
  {
    && n >= 1
    && (forall k :: 0 <= k < n - 1 ==> Repeated(c, Outcome(c, replies, k), attempt + k + 1))
    && !Repeated(c, Outcome(c, replies, n - 1), attempt + n)
    && AnswerTo(request, suppressed, Outcome(c, replies, n - 1), e.answer)
    && e.rest == Behind(c, replies, n)
  }

  lemma {:induction false} TransmitsFrom(c: Config, request: Bytes, suppressed: bool, attempt: nat, pending: nat,
                                         replies: Replies, trace: seq<Call>, st: Statistics) returns (n: nat)
    requires request != []
    ensures var e := Exchange(c, request, suppressed, attempt, pending, replies, trace, st);
            && Transmits(c, request, suppressed, attempt, replies, e, n)
            && Transmissions(e.trace) == Transmissions(trace) + n
    decreases Max(0, c.maxRetries - attempt)
  {
    hide Resolve, Transmissions, AnswerTo, EchoOk;
    var r := Attempt(c, replies, trace);
    ResolveIgnoresTrace(c, Head(replies), 0, Rest(replies), trace + [Request(Head(replies))],
                        [] + [Request(Head(replies))]);
    AttemptCounts(c, replies, trace);
    assert Outcome(c, replies, 0) == r.response && Behind(c, replies, 1) == r.rest;
    if r.response.Some? && Retries(c, r.response.value, attempt + 1) {
      n := TransmitsFrom(c, request, suppressed, attempt + 1, pending + r.count, r.rest, r.trace, Retried(st, r.count));
      MoreTransmissions(c, request, suppressed, attempt, replies, r.rest,
                        Exchange(c, request, suppressed, attempt, pending, replies, trace, st), n);
      n := n + 1;
    } else {
      n := 1;
      LastTransmission(c, request, suppressed, attempt, pending, replies, trace, st);
    }
  }

  lemma LastTransmission(c: Config, request: Bytes, suppressed: bool, attempt: nat, pending: nat, replies: Replies,
                         trace: seq<Call>, st: Statistics)
    requires request != []
    requires var r := Attempt(c, replies, trace).response; r.None? || !Retries(c, r.value, attempt + 1)
    ensures Transmits(c, request, suppressed, attempt, replies,
                      Exchange(c, request, suppressed, attempt, pending, replies, trace, st), 1)
  {
    hide Resolve;
    ResolveIgnoresTrace(c, Head(replies), 0, Rest(replies), trace + [Request(Head(replies))],
                        [] + [Request(Head(replies))]);
    assert Behind(c, replies, 0) == replies && Behind(c, replies, 1) == Attempt(c, replies, []).rest;
  }

  lemma MoreTransmissions(c: Config, request: Bytes, suppressed: bool, attempt: nat, replies: Replies, rest: Replies,
                          e: Exchanged, n: nat)
    requires request != [] && rest == Attempt(c, replies, []).rest
    requires Repeated(c, Outcome(c, replies, 0), attempt + 1)
    requires Transmits(c, request, suppressed, attempt + 1, rest, e, n)
    ensures Transmits(c, request, suppressed, attempt, replies, e, n + 1)
  {
    hide Attempt, AnswerTo;
    BehindFirst(c, replies, n);
    BehindFirst(c, replies, n - 1);
    forall k | 0 <= k < n ensures Repeated(c, Outcome(c, replies, k), attempt + k + 1) {
      if k > 0 {
        BehindFirst(c, replies, k - 1);
      }
    }
  }

  /**
   For every stream of replies: a transmission is made again if and only if it resolved to a negative response with
   code 0x21, `retry_on_busy` is set and fewer than `max_retries` were made. So the answer is what the first
   transmission resolved to that is not busy, or the last one permitted; there is no other number of transmissions.
   */
  lemma BusyIsRepeated(c: Config, request: Bytes, suppressed: bool, replies: Replies, st: Statistics, n: nat)
    requires request != []
    ensures var e := Exchange(c, request, suppressed, 0, 0, replies, [], st);
            Transmits(c, request, suppressed, 0, replies, e, n) <==> n == Transmissions(e.trace)
  {
    var m := TransmitsFrom(c, request, suppressed, 0, 0, replies, [], st);
    if n < m {
      assert n >= 1 ==> Repeated(c, Outcome(c, replies, n - 1), n);
    } else if m < n {
      assert !Repeated(c, Outcome(c, replies, m - 1), m);
      assert m - 1 < n - 1;
    }
  }

  /** Services with a sub-function, and the bit of it that asks for no positive response. */
  predicate HasSubFunction(request: Bytes) {
    |request| >= 2 && request[0] in {0x10, 0x11, 0x19, 0x27, 0x28, 0x29, 0x2A, 0x2C, 0x31, 0x3E, 0x83, 0x85, 0x86, 0x87}
  }

  /** Suppression sets the top bit of the second byte and nothing else, for services that have a sub-function. */
  lemma SuppressionIsOneBit(c: Config, payload: Bytes, suppress: Option<bool>)
    requires payload != []
    ensures var request := Outgoing(c, payload, suppress);
            var wanted := suppress == Some(true) || (suppress.None? && c.suppressPositive);
            && |request| == |payload| && request[0] == payload[0]
            && (forall i :: 2 <= i < |payload| ==> request[i] == payload[i])
            && (|payload| > 1 ==> request[1] % 128 == payload[1] % 128)
            && (|payload| > 1 ==> (request[1] >= 128 <==> payload[1] >= 128 || (wanted && HasSubFunction(payload))))
            && (IsSuppressed(request) <==> HasSubFunction(payload) && (wanted || payload[1] >= 128))
  {
  }

  /** What a caller gets for a request with the given first byte, depending on the last reply. */
  predicate ResultOf(c: Config, service: byte, suppressed: bool, reply: Option<Bytes>, result: Result) {
    var pending := if result.Answered? && result.response.Response? then result.response.pendingCount else 0;
    match reply
    case None => result == Answered(Response([], !suppressed, suppressed, pending))
    case Some(raw) =>
      if raw != [] && raw[0] == 0x7F then
        if |raw| < 3 then result == Invalid
        else if c.raiseOnNegative then result == Raised(raw[2])
        else result == Answered(Response(raw, false, false, pending))
      else if raw == [] || raw[0] == (service as int + 0x40) % 256 then
        result == Answered(Response(raw, false, false, pending))
      else result == Invalid
  }

  /**
   What `send_request` returns or raises, for every stream of replies: it refuses what is empty, starts with 0x7F or
   finds no connection, and otherwise its result is that of the last of the `n` transmissions, the ones before it
   being those that are repeated.
   */
  lemma RequestIsAnswered(c: Config, connected: bool, s: State, payload: Bytes, suppress: Option<bool>)
    returns (n: nat)
    ensures var (next, result) := Send(c, connected, s, payload, suppress);
            if payload == [] || payload[0] == 0x7F || !connected then n == 0 && result == Refused && next == s
            else
              var wanted := suppress == Some(true) || (suppress.None? && c.suppressPositive);
              var suppressed := HasSubFunction(payload) && (wanted || payload[1] >= 128);
              && n >= 1 && Transmissions(next.trace) == Transmissions(s.trace) + n
              && next.replies == Behind(c, s.replies, n)
              && (forall k :: 0 <= k < n - 1 ==> Repeated(c, Outcome(c, s.replies, k), k + 1))
              && !Repeated(c, Outcome(c, s.replies, n - 1), n)
              && ResultOf(c, payload[0], suppressed, Outcome(c, s.replies, n - 1), result)
  {
    hide Exchange, Behind, Outcome, Transmissions, IsSuppressed, Outgoing;
    if payload == [] || payload[0] == 0x7F || !connected {
      n := 0;
    } else {
      SuppressionIsOneBit(c, payload, suppress);
      var request := Outgoing(c, payload, suppress);
      n := TransmitsFrom(c, request, IsSuppressed(request), 0, 0, s.replies, s.trace, s.statistics);
    }
  }
}
