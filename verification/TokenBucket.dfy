/** The token bucket that limits how much an OFT sends to a peer.  Time is the on-chain clock in
    seconds, a signed number that must convert to a u64. */
module TokenBucket {
  import opened Arithmetic
  import opened Common

  datatype Bucket = Bucket(capacity: u64, tokens: u64, refillPerSecond: u64, lastRefillTime: u64)

  const DEFAULT_BUCKET := Bucket(0, 0, 0, 0)

  // ---------- specification ----------

  /** What the rate adds by the time `now`; nothing when the clock went back. */
  function Accrued(b: Bucket, now: int): nat {
    if now > b.lastRefillTime then (now - b.lastRefillTime) * b.refillPerSecond else 0
  }

  function RefillSpec(b: Bucket, extraTokens: u64, now: int): Result<Bucket> {
    var _ :- Require(0 <= now <= U64_MAX, Abort);
    var added := Accrued(b, now);
    var _ :- Require(added <= U64_MAX && extraTokens + added <= U64_MAX, Abort);
    Ok(b.(tokens := Min(b.capacity, b.tokens + extraTokens + added), lastRefillTime := now))
  }

  function TryConsumeSpec(b: Bucket, amount: u64, now: int): Result<Bucket> {
    var c :- RefillSpec(b, 0, now);
    var _ :- Require(amount <= c.tokens, RateLimitExceeded);
    Ok(c.(tokens := c.tokens - amount))
  }

  function SetRateSpec(b: Bucket, refillPerSecond: u64, now: int): Result<Bucket> {
    var c :- RefillSpec(b, 0, now);
    Ok(c.(refillPerSecond := refillPerSecond))
  }

  function SetCapacitySpec(b: Bucket, capacity: u64, now: int): Result<Bucket> {
    var _ :- Require(0 <= now <= U64_MAX, Abort);
    Ok(b.(capacity := capacity, tokens := capacity, lastRefillTime := now))
  }

  /** The admin's instruction on a peer; disabling drops the limiter, enabling starts from the old one. */
  function SetRateLimitSpec(peer: Option<Bucket>, enabled: bool, capacity: Option<u64>,
                            refillPerSecond: Option<u64>, now: int)
    : Result<Option<Bucket>>
  {
    if !enabled then Ok(None)
    else
      var b := if peer.Some? then peer.value else DEFAULT_BUCKET;
      var c :- if capacity.Some? then SetCapacitySpec(b, capacity.value, now) else Ok(b);
      var d :- if refillPerSecond.Some? then SetRateSpec(c, refillPerSecond.value, now) else Ok(c);
      Ok(Some(d))
  }

  // ---------- the limiter, updated in place ----------

  class RateLimiter {
    var capacity: u64
    var tokens: u64
    var refillPerSecond: u64
    var lastRefillTime: u64

    constructor (b: Bucket)
      ensures View() == b
    {
      capacity, tokens, refillPerSecond, lastRefillTime := b.capacity, b.tokens, b.refillPerSecond, b.lastRefillTime;
    }

    function View(): Bucket
      reads this
    {
      Bucket(capacity, tokens, refillPerSecond, lastRefillTime)
    }

    method Refill(extraTokens: u64, now: int) returns (r: Result<()>)
      modifies this`tokens, this`lastRefillTime
      ensures Outcome(RefillSpec(old(View()), extraTokens, now), old(View()), r, View())
    {
      var newTokens: int := extraTokens;
      if now < 0 || now > U64_MAX {
        return Err(Abort);
      }
      if now > lastRefillTime {
        var timeElapsed := now - lastRefillTime;
        var added := timeElapsed * refillPerSecond;
        assert added == Accrued(View(), now);
        if added > U64_MAX || newTokens + added > U64_MAX {
          return Err(Abort);
        }
        newTokens := newTokens + added;
      }
      var saturated := Min(U64_MAX, tokens + newTokens);
      tokens := Min(capacity, saturated);
      lastRefillTime := now;
      return Ok(());
    }

    /** A refused consumption has refilled the bucket by then; the runtime undoes that with the rest of
        the instruction, which is why `TryConsumeSpec` gives no new bucket. */
    method TryConsume(amount: u64, now: int) returns (r: Result<()>)
      modifies this`tokens, this`lastRefillTime
      ensures TryConsumeSpec(old(View()), amount, now).Ok? ==>
                r == Ok(()) && View() == TryConsumeSpec(old(View()), amount, now).value
      ensures TryConsumeSpec(old(View()), amount, now).Err? ==> r == Err(TryConsumeSpec(old(View()), amount, now).error)
      ensures r.Err? ==> View() == if r.error == RateLimitExceeded then RefillSpec(old(View()), 0, now).value else old(View())
    {
      r := Refill(0, now);
      if r.Err? {
        return;
      }
      if tokens < amount {
        return Err(RateLimitExceeded);
      }
      tokens := tokens - amount;
    }

    method SetRate(newRate: u64, now: int) returns (r: Result<()>)
      modifies this
      ensures Outcome(SetRateSpec(old(View()), newRate, now), old(View()), r, View())
    {
      r := Refill(0, now);
      if r.Err? {
        return;
      }
      refillPerSecond := newRate;
    }

    method SetCapacity(newCapacity: u64, now: int) returns (r: Result<()>)
      modifies this
      ensures Outcome(SetCapacitySpec(old(View()), newCapacity, now), old(View()), r, View())
    {
      if now < 0 || now > U64_MAX {
        return Err(Abort);
      }
      capacity := newCapacity;
      tokens := newCapacity;
      lastRefillTime := now;
      return Ok(());
    }
  }

  class Peer {
    var rateLimiter: RateLimiter?

    constructor ()
      ensures rateLimiter == null
    {
      rateLimiter := null;
    }

    ghost function View(): Option<Bucket>
      reads this, rateLimiter
    {
      if rateLimiter == null then None else Some(rateLimiter.View())
    }

    method SetRateLimit(enabled: bool, capacity: Option<u64>, refillPerSecond: Option<u64>,
                        now: int) returns (r: Result<()>)
      modifies this
      ensures Outcome(SetRateLimitSpec(old(View()), enabled, capacity, refillPerSecond, now), old(View()), r, View())
    {
      if !enabled {
        rateLimiter := null;
        return Ok(());
      }
      var start := if rateLimiter == null then DEFAULT_BUCKET else rateLimiter.View();
      var limiter := new RateLimiter(start);
      if capacity.Some? {
        r := limiter.SetCapacity(capacity.value, now);
        if r.Err? {
          return;
        }
      }
      if refillPerSecond.Some? {
        r := limiter.SetRate(refillPerSecond.value, now);
        if r.Err? {
          return;
        }
      }
      rateLimiter := limiter;
      return Ok(());
    }
  }

  // ---------- the bucket never overflows its capacity ----------

  ghost predicate Within(b: Bucket) {
    b.tokens <= b.capacity
  }

  // ---------- runs with a clock that does not go back ----------

  datatype Call = Refill(extraTokens: u64) | Consume(amount: u64)

  datatype Event = Event(call: Call, now: int)

  function Apply(b: Bucket, e: Event): Result<Bucket> {
    match e.call
    case Refill(x) => RefillSpec(b, x, e.now)
    case Consume(x) => TryConsumeSpec(b, x, e.now)
  }

  /** A failed call is undone. */
  function Next(b: Bucket, e: Event): Bucket {
    var r := Apply(b, e);
    if r.Ok? then r.value else b
  }

  function After(b: Bucket, events: seq<Event>): Bucket
    decreases |events|
  {
    if events == [] then b else After(Next(b, events[0]), events[1..])
  }

  ghost predicate ClockRuns(start: int, events: seq<Event>)
    decreases |events|
  {
    events == [] || (start <= events[0].now && ClockRuns(events[0].now, events[1..]))
  }

  /** What the accepted calls of a run took out of the bucket, and what they put into it on receipt. */
  function Consumed(b: Bucket, events: seq<Event>): nat
    decreases |events|
  {
    if events == [] then 0
    else
      (if events[0].call.Consume? && Apply(b, events[0]).Ok? then events[0].call.amount else 0)
      + Consumed(Next(b, events[0]), events[1..])
  }

  function Received(b: Bucket, events: seq<Event>): nat
    decreases |events|
  {
    if events == [] then 0
    else
      (if events[0].call.Refill? && Apply(b, events[0]).Ok? then events[0].call.extraTokens else 0)
      + Received(Next(b, events[0]), events[1..])
  }

  datatype PeerCall =
    | Limited(event: Event)
    | SetRateLimit(enabled: bool, capacity: Option<u64>, refillPerSecond: Option<u64>, now: int)

  /** A peer after a sequence of sends, receipts and reconfigurations, with any clock. */
  function PeerAfter(peer: Option<Bucket>, calls: seq<PeerCall>): Option<Bucket>
    decreases |calls|
  {
    if calls == [] then peer
    else PeerAfter(NextPeer(peer, calls[0]), calls[1..])
  }

  function NextPeer(peer: Option<Bucket>, call: PeerCall): Option<Bucket> {
    match call
    case Limited(e) => if peer.Some? then Some(Next(peer.value, e)) else None
    case SetRateLimit(enabled, capacity, rate, now) =>
      var r := SetRateLimitSpec(peer, enabled, capacity, rate, now);
      if r.Ok? then r.value else peer
  }

  /** A bucket is never over its capacity, whatever is done to it. */
  lemma {:induction false} NeverOverCapacity(peer: Option<Bucket>, calls: seq<PeerCall>)
    requires peer.Some? ==> Within(peer.value)
    ensures PeerAfter(peer, calls).Some? ==> Within(PeerAfter(peer, calls).value)
    decreases |calls|
  {
    if calls != [] {
      assert NextPeer(peer, calls[0]).Some? ==> Within(NextPeer(peer, calls[0]).value);
      hide NextPeer, Within;
      NeverOverCapacity(NextPeer(peer, calls[0]), calls[1..]);
    }
  }

  lemma {:induction false} RunsConcat(b: Bucket, one: seq<Event>, two: seq<Event>)
    ensures After(b, one + two) == After(After(b, one), two)
    ensures Consumed(b, one + two) == Consumed(b, one) + Consumed(After(b, one), two)
    ensures Received(b, one + two) == Received(b, one) + Received(After(b, one), two)
    decreases |one|
  {
    hide Apply, Next;
    if one == [] {
      assert one + two == two;
    } else {
      assert (one + two)[1..] == one[1..] + two;
      RunsConcat(Next(b, one[0]), one[1..], two);
    }
  }

  lemma StepBound(b: Bucket, e: Event)
    requires Within(b) && b.lastRefillTime <= e.now
    ensures var c := Next(b, e);
            && Within(c) && c.capacity == b.capacity && c.refillPerSecond == b.refillPerSecond
            && b.lastRefillTime <= c.lastRefillTime <= e.now
            && c.tokens + (if e.call.Consume? && Apply(b, e).Ok? then e.call.amount else 0)
               <= b.tokens + b.refillPerSecond * (c.lastRefillTime - b.lastRefillTime)
                  + (if e.call.Refill? && Apply(b, e).Ok? then e.call.extraTokens else 0)
  {
    ProductIsNat(e.now - b.lastRefillTime, b.refillPerSecond);
    Commutes(e.now - b.lastRefillTime, b.refillPerSecond);
  }

  lemma {:induction false} ClockWeakens(s: int, t: int, events: seq<Event>)
    requires s <= t && ClockRuns(t, events)
    ensures ClockRuns(s, events)
  {
  }

  /** The bound the limiter is for: over any run, what goes out is at most what was in the bucket, what
      the rate adds in the time that passes, and what was received. */
  lemma {:induction false} TokenBucketBound(b: Bucket, events: seq<Event>)
    requires Within(b) && ClockRuns(b.lastRefillTime, events)
    ensures var c := After(b, events);
            && Within(c) && c.capacity == b.capacity && c.refillPerSecond == b.refillPerSecond
            && b.lastRefillTime <= c.lastRefillTime && (events != [] ==> c.lastRefillTime <= events[|events| - 1].now)
            && c.tokens + Consumed(b, events)
               <= b.tokens + b.refillPerSecond * (c.lastRefillTime - b.lastRefillTime) + Received(b, events)
    decreases |events|
  {
    if events != [] {
      hide Apply, Next;
      var c := Next(b, events[0]);
      StepBound(b, events[0]);
      ClockWeakens(c.lastRefillTime, events[0].now, events[1..]);
      TokenBucketBound(c, events[1..]);
      var d := After(b, events);
      Distributes(b.refillPerSecond, c.lastRefillTime - b.lastRefillTime, d.lastRefillTime - c.lastRefillTime);
    }
  }

  /** In any window of time at most a full bucket plus the rate goes out, besides what came in. */
  lemma WindowBound(b: Bucket, events: seq<Event>)
    requires Within(b) && ClockRuns(b.lastRefillTime, events) && events != []
    ensures Consumed(b, events)
            <= b.capacity + b.refillPerSecond * (events[|events| - 1].now - b.lastRefillTime) + Received(b, events)
  {
    hide After, Consumed, Received, ClockRuns;
    TokenBucketBound(b, events);
    TimesKeepsOrder(After(b, events).lastRefillTime - b.lastRefillTime,
                    events[|events| - 1].now - b.lastRefillTime, b.refillPerSecond);
  }

  // ---------- the bucket loses nothing but what does not fit ----------

  /** What is in the bucket or arrives by the event, before the capacity cuts it. */
  function Offered(b: Bucket, e: Event): int {
    b.tokens + b.refillPerSecond * (e.now - b.lastRefillTime) + if e.call.Refill? then e.call.extraTokens else 0
  }

  /** When a call is accepted: its time and what it adds fit a u64, and what it takes is there. */
  lemma AcceptedExactly(b: Bucket, e: Event)
    requires Within(b) && b.lastRefillTime <= e.now
    ensures Apply(b, e).Ok? <==>
            && e.now <= U64_MAX && Offered(b, e) - b.tokens <= U64_MAX
            && (e.call.Consume? ==> e.call.amount <= b.capacity && e.call.amount <= Offered(b, e))
    ensures Apply(b, e) == Err(RateLimitExceeded) <==>
            && e.now <= U64_MAX && Offered(b, e) - b.tokens <= U64_MAX
            && e.call.Consume? && (e.call.amount > b.capacity || e.call.amount > Offered(b, e))
  {
    ProductIsNat(e.now - b.lastRefillTime, b.refillPerSecond);
    Commutes(e.now - b.lastRefillTime, b.refillPerSecond);
  }

  /** What the accepted calls of a run offered beyond the capacity. */
  function Spilled(b: Bucket, events: seq<Event>): nat
    decreases |events|
  {
    if events == [] then 0
    else
      (if Apply(b, events[0]).Ok? && Offered(b, events[0]) > b.capacity then Offered(b, events[0]) - b.capacity else 0)
      + Spilled(Next(b, events[0]), events[1..])
  }

  lemma StepIsExact(b: Bucket, e: Event)
    requires Within(b) && b.lastRefillTime <= e.now && Apply(b, e).Ok?
    ensures var c := Next(b, e);
            && c.lastRefillTime == e.now
            && c.tokens + (if e.call.Consume? then e.call.amount else 0)
               == Offered(b, e) - if Offered(b, e) > b.capacity then Offered(b, e) - b.capacity else 0
  {
    ProductIsNat(e.now - b.lastRefillTime, b.refillPerSecond);
    Commutes(e.now - b.lastRefillTime, b.refillPerSecond);
  }

  /** The books of the bucket, over any run: what is left, what went out and what spilled over is exactly what
      was there, what the rate added and what was received. */
  lemma {:induction false} BucketIsExact(b: Bucket, events: seq<Event>)
    requires Within(b) && ClockRuns(b.lastRefillTime, events)
    ensures var c := After(b, events);
            c.tokens + Consumed(b, events) + Spilled(b, events)
            == b.tokens + b.refillPerSecond * (c.lastRefillTime - b.lastRefillTime) + Received(b, events)
    decreases |events|
  {
    if events != [] {
      var e, c := events[0], Next(b, events[0]);
      StepBound(b, e);
      if Apply(b, e).Ok? {
        StepIsExact(b, e);
      } else {
        assert c == b;
      }
      hide Apply, Next;
      ClockWeakens(c.lastRefillTime, e.now, events[1..]);
      BucketIsExact(c, events[1..]);
      var d := After(b, events);
      Distributes(b.refillPerSecond, c.lastRefillTime - b.lastRefillTime, d.lastRefillTime - c.lastRefillTime);
    }
  }

  // ---------- what a reconfiguration does ----------

  /** A new rate counts from its own time on: until then the old one did. */
  lemma RateCountsFromThen(b: Bucket, rate: u64, extraTokens: u64, now: int, later: int)
    requires b.lastRefillTime <= now <= later && SetRateSpec(b, rate, now).Ok?
    ensures var c := SetRateSpec(b, rate, now).value;
            var atThen := Min(b.capacity, b.tokens + b.refillPerSecond * (now - b.lastRefillTime));
            && c == Bucket(b.capacity, atThen, rate, now)
            && (RefillSpec(c, extraTokens, later).Ok? ==>
                  RefillSpec(c, extraTokens, later)
                  == Ok(Bucket(b.capacity, Min(b.capacity, atThen + rate * (later - now) + extraTokens), rate, later)))
  {
    Commutes(now - b.lastRefillTime, b.refillPerSecond);
    Commutes(later - now, rate);
  }

  /** A limiter that is switched on keeps what is not given, starting from zero if there was none: a capacity
      fills it, a rate alone first collects at the old one.  Switched off there is none. */
  lemma SwitchedOn(peer: Option<Bucket>, capacity: Option<u64>, rate: Option<u64>, now: int)
    requires SetRateLimitSpec(peer, true, capacity, rate, now).Ok?
    requires peer.Some? ==> peer.value.lastRefillTime <= now
    ensures SetRateLimitSpec(peer, false, capacity, rate, now) == Ok(None)
    ensures var before := if peer.Some? then peer.value else Bucket(0, 0, 0, 0);
            var after := SetRateLimitSpec(peer, true, capacity, rate, now).value;
            && after.Some?
            && after.value.capacity == (if capacity.Some? then capacity.value else before.capacity)
            && after.value.refillPerSecond == (if rate.Some? then rate.value else before.refillPerSecond)
            && (capacity.Some? ==> after.value.tokens == capacity.value && after.value.lastRefillTime == now)
            && (capacity.None? && rate.Some? ==>
                  && after.value.lastRefillTime == now
                  && after.value.tokens
                     == Min(before.capacity, before.tokens + before.refillPerSecond * (now - before.lastRefillTime)))
            && (capacity.None? && rate.None? ==> after.value == before)
  {
    if capacity.None? && rate.Some? {
      var before := if peer.Some? then peer.value else Bucket(0, 0, 0, 0);
      RateCountsFromThen(before, rate.value, 0, now, now);
    }
  }

  // ---------- idle refills change no later outcome ----------

  lemma AccruedAdds(b: Bucket, now: int, later: int)
    requires b.lastRefillTime <= now <= later
    ensures Accrued(b, later) == Accrued(b, now) + (later - now) * b.refillPerSecond
    ensures (later - now) * b.refillPerSecond >= 0
  {
    ProductIsNat(later - now, b.refillPerSecond);
    Distributes(b.refillPerSecond, later - now, now - b.lastRefillTime);
  }

  /** Refilling in two steps is refilling in one, as long as the one does not overflow. */
  lemma RefillComposes(b: Bucket, extraTokens: u64, now: int, later: int)
    requires b.lastRefillTime <= now <= later
    requires RefillSpec(b, extraTokens, later).Ok?
    ensures RefillSpec(b, 0, now).Ok?
    ensures RefillSpec(RefillSpec(b, 0, now).value, extraTokens, later) == RefillSpec(b, extraTokens, later)
  {
    AccruedAdds(b, now, later);
    var c := b.(tokens := Min(b.capacity, b.tokens + Accrued(b, now)), lastRefillTime := now);
    assert Accrued(c, later) == (later - now) * b.refillPerSecond;
    hide Accrued;
    assert RefillSpec(b, 0, now) == Ok(c);
  }

  /** A call, or an idle refill that somebody slipped in. */
  datatype Tick = Real(event: Event) | Idle(now: int) {
    function AsEvent(): Event {
      if Real? then event else Event(Refill(0), now)
    }
  }

  ghost predicate TicksRun(start: int, ticks: seq<Tick>)
    decreases |ticks|
  {
    ticks == [] || (start <= ticks[0].AsEvent().now && TicksRun(ticks[0].AsEvent().now, ticks[1..]))
  }

  /** The results of the real calls when the idle refills happen, and when they do not. */
  function WithIdle(b: Bucket, ticks: seq<Tick>): seq<Option<Error>>
    decreases |ticks|
  {
    if ticks == [] then []
    else
      (if ticks[0].Real? then [ResultOf(b, ticks[0].event)] else [])
      + WithIdle(Next(b, ticks[0].AsEvent()), ticks[1..])
  }

  function WithoutIdle(b: Bucket, ticks: seq<Tick>): seq<Option<Error>>
    decreases |ticks|
  {
    if ticks == [] then []
    else if ticks[0].Real? then [ResultOf(b, ticks[0].event)] + WithoutIdle(Next(b, ticks[0].event), ticks[1..])
    else WithoutIdle(b, ticks[1..])
  }

  function ResultOf(b: Bucket, e: Event): Option<Error> {
    var r := Apply(b, e);
    if r.Ok? then None else Some(r.error)
  }

  /** `dense` is `sparse` with the idle time up to some earlier refill already credited. */
  ghost predicate Ahead(sparse: Bucket, dense: Bucket) {
    sparse.lastRefillTime <= dense.lastRefillTime && RefillSpec(sparse, 0, dense.lastRefillTime) == Ok(dense)
  }

  ghost predicate Overflowing(b: Bucket, time: int) {
    b.lastRefillTime <= time && Accrued(b, time) > U64_MAX
  }

  lemma OverflowingAborts(b: Bucket, time: int, e: Event)
    requires Overflowing(b, time) && time <= e.now
    ensures Apply(b, e) == Err(Abort)
  {
    AccruedAdds(b, time, e.now);
    hide Accrued;
  }

  lemma RealCall(sparse: Bucket, dense: Bucket, e: Event)
    requires Within(sparse) && Ahead(sparse, dense) && dense.lastRefillTime <= e.now
    requires Apply(sparse, e) != Err(Abort)
    ensures ResultOf(dense, e) == ResultOf(sparse, e)
    ensures Within(Next(sparse, e)) && Ahead(Next(sparse, e), Next(dense, e))
    ensures Next(dense, e).lastRefillTime <= e.now
  {
    var extraTokens := if e.call.Refill? then e.call.extraTokens else 0;
    RefillFailsByAborting(sparse, extraTokens, e.now);
    hide RefillSpec;
    RefillComposes(sparse, extraTokens, dense.lastRefillTime, e.now);
    assert Apply(dense, e) == Apply(sparse, e);
    if Apply(sparse, e).Ok? {
      CaughtUp(sparse, e);
    }
  }

  lemma RefillFailsByAborting(b: Bucket, extraTokens: u64, now: int)
    ensures RefillSpec(b, extraTokens, now).Ok? || RefillSpec(b, extraTokens, now) == Err(Abort)
    ensures b.lastRefillTime <= now ==> (RefillSpec(b, 0, now).Ok? <==> now <= U64_MAX && !Overflowing(b, now))
  {
  }

  lemma CaughtUp(b: Bucket, e: Event)
    requires Within(b) && b.lastRefillTime <= e.now && Apply(b, e).Ok?
    ensures Within(Next(b, e)) && Ahead(Next(b, e), Next(b, e)) && Next(b, e).lastRefillTime == e.now
  {
  }

  lemma IdleRefill(sparse: Bucket, dense: Bucket, now: int)
    requires Within(sparse) && Ahead(sparse, dense) && dense.lastRefillTime <= now
    ensures var d := Next(dense, Event(Refill(0), now));
            (Ahead(sparse, d) && d.lastRefillTime <= now) || Overflowing(sparse, now)
  {
    RefillFailsByAborting(sparse, 0, now);
    hide RefillSpec, Overflowing;
    if RefillSpec(sparse, 0, now).Ok? {
      RefillComposes(sparse, 0, dense.lastRefillTime, now);
    }
  }

  ghost predicate NoAbort(results: seq<Option<Error>>) {
    Some(Abort) !in results
  }

  lemma {:induction false} IdleRefillsFrom(sparse: Bucket, dense: Bucket, time: int, ticks: seq<Tick>)
    requires Within(sparse) && TicksRun(time, ticks)
    requires (Ahead(sparse, dense) && dense.lastRefillTime <= time) || Overflowing(sparse, time)
    requires NoAbort(WithoutIdle(sparse, ticks))
    ensures WithIdle(dense, ticks) == WithoutIdle(sparse, ticks)
    decreases |ticks|
  {
    if ticks != [] {
      hide Apply, Ahead, RefillSpec, Within;
      var e := ticks[0].AsEvent();
      if Overflowing(sparse, time) {
        OverflowingAborts(sparse, time, e);
        StillOverflowing(sparse, time, e.now);
      }
      if ticks[0].Real? {
        assert ResultOf(sparse, e) == WithoutIdle(sparse, ticks)[0];
        assert Apply(sparse, e) != Err(Abort);
        RealCall(sparse, dense, e);
        NoAbortTail(sparse, ticks);
        IdleRefillsFrom(Next(sparse, e), Next(dense, e), e.now, ticks[1..]);
      } else {
        if !Overflowing(sparse, e.now) {
          IdleRefill(sparse, dense, e.now);
        }
        IdleRefillsFrom(sparse, Next(dense, e), e.now, ticks[1..]);
      }
    }
  }

  lemma StillOverflowing(b: Bucket, time: int, later: int)
    requires Overflowing(b, time) && time <= later
    ensures Overflowing(b, later)
  {
    AccruedAdds(b, time, later);
  }

  lemma NoAbortTail(b: Bucket, ticks: seq<Tick>)
    requires ticks != [] && ticks[0].Real? && NoAbort(WithoutIdle(b, ticks))
    ensures NoAbort(WithoutIdle(Next(b, ticks[0].event), ticks[1..]))
  {
  }

  /** Idle refills, wherever they are slipped in, change the result of no call, as long as the calls
      alone do not overflow. */
  lemma IdleRefillsDoNotMatter(b: Bucket, ticks: seq<Tick>)
    requires Within(b) && TicksRun(b.lastRefillTime, ticks)
    requires NoAbort(WithoutIdle(b, ticks))
    ensures WithIdle(b, ticks) == WithoutIdle(b, ticks)
  {
    IdleRefillsFrom(b, b, b.lastRefillTime, ticks);
  }
}
