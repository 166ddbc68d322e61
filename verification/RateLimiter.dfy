/**
 The token bucket. The clock is a value that never decreases; sleeping moves it by at least the time
 asked for. Numbers are exact.
 */
module RateLimiter {
  import opened Common

  const SLEEP_CAP := 0.05

  datatype Bucket = Bucket(tokens: real, last: real)

  function RMin(a: real, b: real): real {
    if a <= b then a else b
  }

  function Refill(rate: real, capacity: real, b: Bucket, now: real): Bucket {
    Bucket(RMin(capacity, b.tokens + (now - b.last) * rate), now)
  }

  /** One pass of the acquisition loop under the lock: refill, then take the tokens if they are there. */
  function Attempt(rate: real, capacity: real, b: Bucket, now: real, amount: real): (Bucket, bool) {
    var full := Refill(rate, capacity, b, now);
    if full.tokens >= amount then (full.(tokens := full.tokens - amount), true) else (full, false)
  }

  // ---------- grants over time ----------

  /** What happens to a bucket, at increasing times. */
  datatype Event = Try(time: real, amount: real) | Reset(time: real)

  function Step(rate: real, capacity: real, b: Bucket, e: Event): (Bucket, real) {
    match e
    case Try(time, amount) =>
      var (after, granted) := Attempt(rate, capacity, b, time, amount);
      (after, if granted then amount else 0.0)
    case Reset(time) => (Bucket(capacity, time), 0.0)
  }

  /** The bucket after the events and the sum of the tokens granted. */
  function Run(rate: real, capacity: real, b: Bucket, events: seq<Event>): (Bucket, real)
    decreases |events|
  {
    if events == [] then (b, 0.0)
    else
      var (next, granted) := Step(rate, capacity, b, events[0]);
      var (end, later) := Run(rate, capacity, next, events[1..]);
      (end, granted + later)
  }

  /** Times do not decrease and nobody asks for a negative number of tokens. */
  predicate Ordered(from: real, events: seq<Event>)
    decreases |events|
  {
    events == [] ||
    (from <= events[0].time && (events[0].Try? ==> events[0].amount >= 0.0) && Ordered(events[0].time, events[1..]))
  }

  predicate BucketOk(capacity: real, b: Bucket) {
    0.0 <= b.tokens <= capacity
  }

  /** One capacity for every reset. */
  function ResetAllowance(capacity: real, events: seq<Event>): real {
    if events == [] then 0.0
    else (if events[0].Reset? then capacity else 0.0) + ResetAllowance(capacity, events[1..])
  }

  /** Tokens accrued from one time to another. */
  function Accrued(rate: real, from: real, to: real): real {
    rate * (to - from)
  }

  lemma RefillGains(rate: real, capacity: real, b: Bucket, now: real)
    requires rate > 0.0 && BucketOk(capacity, b) && b.last <= now
    ensures var r := Refill(rate, capacity, b, now);
            BucketOk(capacity, r) && b.tokens <= r.tokens <= b.tokens + Accrued(rate, b.last, now)
  {
    assert (now - b.last) * rate >= 0.0;
  }

  /** An attempt is granted exactly if what has accrued up to the capacity suffices, and costs exactly its amount. */
  lemma TryIsExact(rate: real, capacity: real, b: Bucket, time: real, amount: real)
    ensures var full := b.tokens + (time - b.last) * rate;
            var filled := if full <= capacity then full else capacity;
            Step(rate, capacity, b, Try(time, amount)) ==
            if filled >= amount then (Bucket(filled - amount, time), amount) else (Bucket(filled, time), 0.0)
  {
    var accrued := (time - b.last) * rate;
    assert Refill(rate, capacity, b, time) == Bucket(RMin(capacity, b.tokens + accrued), time);
    hide Refill;
  }

  lemma AccruedSplits(rate: real, a: real, b: real, c: real)
    ensures Accrued(rate, a, b) + Accrued(rate, b, c) == Accrued(rate, a, c)
  {
  }

  /** Tokens granted and left never exceed those at the start, those accrued and those of the resets. */
  lemma {:induction false} GrantsAreBounded(rate: real, capacity: real, b: Bucket, events: seq<Event>)
    requires rate > 0.0 && BucketOk(capacity, b) && Ordered(b.last, events)
    ensures var (end, granted) := Run(rate, capacity, b, events);
            && BucketOk(capacity, end) && b.last <= end.last && granted >= 0.0
            && granted + end.tokens <= b.tokens + Accrued(rate, b.last, end.last) + ResetAllowance(capacity, events)
    decreases |events|
  {
    if events == [] {
      AccruedSplits(rate, b.last, b.last, b.last);
    } else {
      var (next, granted) := Step(rate, capacity, b, events[0]);
      var (end, later) := Run(rate, capacity, next, events[1..]);
      StepIsBounded(rate, capacity, b, events[0]);
      GrantsAreBounded(rate, capacity, next, events[1..]);
      AccruedSplits(rate, b.last, next.last, end.last);
    }
  }

  lemma StepIsBounded(rate: real, capacity: real, b: Bucket, e: Event)
    requires rate > 0.0 && BucketOk(capacity, b) && b.last <= e.time && (e.Try? ==> e.amount >= 0.0)
    ensures var (next, granted) := Step(rate, capacity, b, e);
            && BucketOk(capacity, next) && granted >= 0.0 && next.last == e.time
            && granted + next.tokens <= capacity + (if e.Reset? then capacity else 0.0)
            && granted + next.tokens <= b.tokens + Accrued(rate, b.last, e.time) + if e.Reset? then capacity else 0.0
  {
    RefillGains(rate, capacity, b, e.time);
  }

  /**
   Over any stretch of events the tokens granted are at most capacity + rate · d, where d is the time from
   the first to the last of them; every reset in between adds one capacity.
   */
  lemma RateIsRespected(rate: real, capacity: real, before: Bucket, stretch: seq<Event>)
    requires rate > 0.0 && BucketOk(capacity, before) && stretch != [] && Ordered(before.last, stretch)
    ensures var (end, granted) := Run(rate, capacity, before, stretch);
            && BucketOk(capacity, end)
            && granted <= capacity + Accrued(rate, stretch[0].time, end.last) + ResetAllowance(capacity, stretch)
  {
    var (next, first) := Step(rate, capacity, before, stretch[0]);
    StepIsBounded(rate, capacity, before, stretch[0]);
    GrantsAreBounded(rate, capacity, next, stretch[1..]);
  }

  lemma {:induction false} RunSnoc(rate: real, capacity: real, b: Bucket, events: seq<Event>, e: Event)
    requires Ordered(b.last, events) && Run(rate, capacity, b, events).0.last <= e.time
    requires e.Try? ==> e.amount >= 0.0
    ensures Ordered(b.last, events + [e])
    ensures var (end, granted) := Run(rate, capacity, b, events);
            var (next, more) := Step(rate, capacity, end, e);
            Run(rate, capacity, b, events + [e]) == (next, granted + more)
    ensures b.last <= Run(rate, capacity, b, events).0.last
    decreases |events|
  {
    if events == [] {
      assert [] + [e] == [e] && [e][1..] == [];
    } else {
      assert (events + [e])[1..] == events[1..] + [e];
      RunSnoc(rate, capacity, Step(rate, capacity, b, events[0]).0, events[1..], e);
    }
  }

  // ---------- the limiter ----------

  /** `slept` are the times that were asked for. */
  class Clock {
    var now: real
    ghost var slept: seq<real>

    constructor ()
      ensures slept == []
    {
      now := 0.0;
      slept := [];
    }

    method Read() returns (t: real)
      modifies this`now
      ensures t == now >= old(now)
    {
      var passed: real :| passed >= 0.0;
      now := now + passed;
      t := now;
    }

    method Sleep(time: real)
      requires time >= 0.0
      modifies this
      ensures now >= old(now) + time && slept == old(slept) + [time]
    {
      var longer: real :| longer >= 0.0;
      now := now + time + longer;
      slept := slept + [time];
    }
  }

  /** `origin` is the bucket at construction and `events` what has happened since. */
  class Limiter {
    const rate: real
    const capacity: real
    const clock: Clock
    var tokens: real
    var last: real
    ghost const origin: Bucket
    ghost var events: seq<Event>

    constructor (rate: real, burst: Option<real>, clock: Clock)
      requires burst.Some? ==> burst.value >= 0.0
      ensures this.rate == rate && this.clock == clock && Valid() && events == []
      ensures capacity == if burst.Some? then burst.value else if rate > 1.0 then rate else 1.0
      ensures tokens == capacity && last == clock.now
    {
      var size := if burst.Some? then burst.value else if rate > 1.0 then rate else 1.0;
      this.rate, this.capacity, this.clock := rate, size, clock;
      tokens, last := size, clock.now;
      origin := Bucket(size, clock.now);
      events := [];
    }

    ghost predicate Valid()
      reads this, clock
    {
      && BucketOk(capacity, Bucket(tokens, last)) && last <= clock.now
      && Ordered(origin.last, events)
      && Run(rate, capacity, origin, events).0 == Bucket(tokens, last)
    }

    /** All tokens granted since construction. */
    ghost function Granted(): real
      reads this
    {
      Run(rate, capacity, origin, events).1
    }

    method Reset()
      requires Valid()
      modifies this`tokens, this`last, this`events, clock`now
      ensures Valid() && tokens == capacity && last == clock.now >= old(clock.now)
      ensures events == old(events) + [Event.Reset(last)] && Granted() == old(Granted())
    {
      tokens := capacity;
      last := clock.Read();
      RunSnoc(rate, capacity, origin, events, Event.Reset(last));
      events := events + [Event.Reset(last)];
    }

    method RefillNow()
      requires BucketOk(capacity, Bucket(tokens, last)) && rate > 0.0 && last <= clock.now
      modifies this`tokens, this`last, clock`now
      ensures last == clock.now >= old(clock.now)
      ensures Bucket(tokens, last) == Refill(rate, capacity, old(Bucket(tokens, last)), last)
      ensures BucketOk(capacity, Bucket(tokens, last))
    {
      var now := clock.Read();
      RefillGains(rate, capacity, Bucket(tokens, last), now);
      var elapsed := now - last;
      last := now;
      tokens := RMin(capacity, tokens + elapsed * rate);
    }

    /** The critical section: refill, then take the tokens if they are there. */
    method TryTake(amount: real) returns (taken: bool)
      requires Valid() && rate > 0.0 && amount >= 0.0
      modifies this`tokens, this`last, this`events, clock`now
      ensures Valid() && last == clock.now >= old(clock.now)
      ensures (Bucket(tokens, last), taken) == Attempt(rate, capacity, old(Bucket(tokens, last)), last, amount)
      ensures events == old(events) + [Try(last, amount)]
      ensures Granted() == old(Granted()) + if taken then amount else 0.0
    {
      RefillNow();
      RunSnoc(rate, capacity, origin, events, Try(last, amount));
      events := events + [Try(last, amount)];
      taken := tokens >= amount;
      if taken {
        tokens := tokens - amount;
      }
    }

    /**
     Terminates whatever the clock does. A pass that neither grants nor refuses sleeps: for the cap of
     0.05 s, for the whole deficit, after which the next pass grants, or, if more is asked for than the
     bucket holds, for at least the part that can never be there. A refusal means that the deadline would
     be passed before the deficit is made up. Without blocking there is one pass and no sleep; otherwise one sleep
     between two passes, none of them longer than the cap.
     */
    method Acquire(amount: real, blocking: bool, timeout: real) returns (granted: bool)
      requires Valid() && amount >= 0.0
      modifies this`tokens, this`last, this`events, clock
      ensures Valid() && clock.now >= old(clock.now) && old(events) <= events
      ensures rate <= 0.0 ==> granted && tokens == old(tokens)
      ensures rate > 0.0 ==> Granted() == old(Granted()) + if granted then amount else 0.0
      ensures rate > 0.0 && !granted ==>
                tokens < amount && (!blocking || clock.now + (amount - tokens) / rate > old(clock.now) + timeout)
      ensures ShortSleeps(old(clock.slept), clock.slept)
      ensures rate > 0.0 ==> |events| - |old(events)| == 1 + |clock.slept| - |old(clock.slept)|
      ensures rate <= 0.0 || !blocking ==> clock.slept == old(clock.slept)
      ensures rate <= 0.0 ==> events == old(events)
    {
      if rate <= 0.0 {
        return true;
      }
      var deadline := clock.Read();
      deadline := deadline + timeout;
      ghost var unit := Quantum(rate, capacity, amount);
      QuantumIsPositive(rate, capacity, amount);
      ghost var certain := false;
      while true
        invariant Valid() && clock.now >= old(clock.now) && old(events) <= events
        invariant deadline >= old(clock.now) + timeout
        invariant ShortSleeps(old(clock.slept), clock.slept)
        invariant |events| - |old(events)| == |clock.slept| - |old(clock.slept)|
        invariant !blocking ==> clock.slept == old(clock.slept)
        invariant Granted() == old(Granted())
        invariant certain ==> Settled(rate, capacity, Bucket(tokens, last), clock.now, amount)
        decreases !certain, UnitsLeft(deadline, clock.now, unit)
      {
        ghost var begun, before := clock.now, Bucket(tokens, last);
        granted := TryTake(amount);
        if certain {
          SettledIsGranted(rate, capacity, before, begun, last, amount);
        }
        if granted {
          return;
        }
        var wait := Wait(rate, amount - tokens);
        var now := clock.Read();
        if !blocking || now + wait > deadline {
          return;
        }
        SleepIsProgress(rate, capacity, amount, tokens);
        clock.Sleep(if wait <= SLEEP_CAP then wait else SLEEP_CAP);
        if wait <= SLEEP_CAP && amount <= capacity {
          certain := true;
          DeficitMadeUp(rate, capacity, Bucket(tokens, last), clock.now, amount);
        } else {
          FewerUnitsLeft(deadline, begun, clock.now, unit);
        }
      }
    }
  }

  /** Only sleeps of at most 0.05 s have been added. */
  predicate ShortSleeps(before: seq<real>, after: seq<real>) {
    before <= after && forall i :: |before| <= i < |after| ==> 0.0 < after[i] <= 0.05
  }

  // ---------- why it terminates ----------

  /** How long a deficit takes to make up. */
  function Wait(rate: real, deficit: real): real
    requires rate > 0.0
  {
    deficit / rate
  }

  /** Any attempt at or after `time` will be granted. */
  predicate Settled(rate: real, capacity: real, b: Bucket, time: real, amount: real) {
    amount <= capacity && b.tokens + (time - b.last) * rate >= amount
  }

  /** What a sleep that does not settle the matter lasts at least. */
  function Quantum(rate: real, capacity: real, amount: real): real
    requires rate > 0.0
  {
    if amount > capacity then RMin(Wait(rate, amount - capacity), SLEEP_CAP) else SLEEP_CAP
  }

  function UnitsLeft(deadline: real, now: real, unit: real): real
    requires unit > 0.0
  {
    (deadline - now) / unit
  }

  lemma QuotientIsPositive(x: real, y: real)
    requires x > 0.0 && y > 0.0
    ensures x / y > 0.0
  {
  }

  lemma QuotientIsMonotone(x: real, y: real, z: real)
    requires x <= y && z > 0.0
    ensures x / z <= y / z
  {
    assert (y - x) / z >= 0.0;
    assert y / z == x / z + (y - x) / z;
  }

  lemma QuantumIsPositive(rate: real, capacity: real, amount: real)
    requires rate > 0.0
    ensures Quantum(rate, capacity, amount) > 0.0
  {
    if amount > capacity {
      QuotientIsPositive(amount - capacity, rate);
    }
  }

  lemma SleepIsProgress(rate: real, capacity: real, amount: real, tokens: real)
    requires rate > 0.0 && tokens <= capacity && tokens < amount
    ensures var wait := Wait(rate, amount - tokens);
            && wait > 0.0
            && (amount > capacity || wait > SLEEP_CAP ==> RMin(wait, SLEEP_CAP) >= Quantum(rate, capacity, amount))
  {
    QuotientIsPositive(amount - tokens, rate);
    if amount > capacity {
      QuotientIsMonotone(amount - capacity, amount - tokens, rate);
    }
  }

  lemma DeficitMadeUp(rate: real, capacity: real, b: Bucket, time: real, amount: real)
    requires rate > 0.0 && amount <= capacity && time - b.last >= Wait(rate, amount - b.tokens)
    ensures Settled(rate, capacity, b, time, amount)
  {
    var wait, elapsed := Wait(rate, amount - b.tokens), time - b.last;
    assert wait * rate == amount - b.tokens;
    assert (elapsed - wait) * rate >= 0.0;
    assert elapsed * rate == wait * rate + (elapsed - wait) * rate;
  }

  lemma SettledIsGranted(rate: real, capacity: real, b: Bucket, time: real, now: real, amount: real)
    requires rate > 0.0 && time <= now && Settled(rate, capacity, b, time, amount)
    ensures Attempt(rate, capacity, b, now, amount).1
  {
    assert (now - time) * rate >= 0.0;
    assert (now - b.last) * rate == (time - b.last) * rate + (now - time) * rate;
  }

  lemma FewerUnitsLeft(deadline: real, before: real, after: real, unit: real)
    requires unit > 0.0 && before + unit <= after && before <= deadline
    ensures UnitsLeft(deadline, after, unit) <= UnitsLeft(deadline, before, unit) - 1.0
    ensures UnitsLeft(deadline, before, unit) >= 0.0
  {
    var left := deadline - before;
    QuotientIsMonotone(deadline - after, left - unit, unit);
    OneUnitLess(left, unit);
    QuotientIsMonotone(0.0, left, unit);
  }

  lemma OneUnitLess(x: real, unit: real)
    requires unit > 0.0
    ensures (x - unit) / unit == x / unit - 1.0
  {
    assert unit / unit == 1.0;
    assert (x - unit) / unit == x / unit - unit / unit;
  }
}
