/** The rate limiter does its job for a whole OFT: over any run, what leaves a chain is bounded by the
    bucket, its rate and what came in. */
module OftLimits {
  import opened Arithmetic
  import opened Common
  import opened OftMessages
  import opened Tokens
  import opened Oft
  import opened OftConservation
  import opened EndpointChannel
  import Bucket = TokenBucket

  /** A run of one chain's OFT, limited from the start and not reconfigured. */
  ghost predicate LimitedRun(states: seq<Side>, actions: seq<Action>) {
    && |states| == |actions| + 1
    && states[0].limiter.Some?
    && forall k {:trigger actions[k]} | 0 <= k < |actions| :: Allowed(states[k], actions[k], states[k + 1])
  }

  ghost predicate Allowed(s: Side, action: Action, t: Side) {
    && s.oft.rate > 0 && SideStep(s, action) == Ok(t) && !action.Limit?
    && (action.Send? || action.LzReceive? ==> ValidFee(action.fee))
  }

  /** What an accepted action asks of the limiter. */
  function EventOf(s: Side, action: Action): seq<Bucket.Event>
    requires s.oft.rate > 0
  {
    match action
    case Send(p, fee, now) =>
      var q := QuoteAmounts(s.oft, fee, p.amountLd, p.minAmountLd);
      if q.Ok? then [Bucket.Event(Bucket.Consume(q.value.sentLd), now)] else []
    case LzReceive(_, _, message, fee, now) =>
      if |message| < COMPOSE_MSG_OFFSET then []
      else
        var amountLd := Sd2Ld(s.oft, AmountSd(message));
        if amountLd.Err? || PostFee(s.oft, fee, amountLd.value).Err? then []
        else [Bucket.Event(Bucket.Refill(PostFee(s.oft, fee, amountLd.value).value), now)]
    case _ => []
  }

  ghost function Events(states: seq<Side>, actions: seq<Action>, k: nat): seq<Bucket.Event>
    requires LimitedRun(states, actions) && k <= |actions|
  {
    if k == 0 then []
    else
      assert Allowed(states[k - 1], actions[k - 1], states[k]);
      Events(states, actions, k - 1) + EventOf(states[k - 1], actions[k - 1])
  }

  /** Shared units sent, over the whole life of a chain. */
  ghost function Units(outbox: seq<Sent>): nat {
    if outbox == [] then 0 else Units(outbox[..|outbox| - 1]) + AmountOf(outbox[|outbox| - 1])
  }

  lemma OneEvent(b: Bucket.Bucket, e: Bucket.Event)
    requires Bucket.Apply(b, e).Ok?
    ensures Bucket.After(b, [e]) == Bucket.Apply(b, e).value
    ensures Bucket.Consumed(b, [e]) == if e.call.Consume? then e.call.amount else 0
    ensures Bucket.Received(b, [e]) == if e.call.Refill? then e.call.extraTokens else 0
  {
    hide Bucket.Apply;
    assert [e][1..] == [];
  }

  lemma Consumes(s: Side, action: Action)
    requires action.Send? && s.oft.rate > 0 && s.limiter.Some? && SideStep(s, action).Ok?
    ensures |EventOf(s, action)| == 1
    ensures var e := EventOf(s, action)[0];
            e.call.Consume? && SideStep(s, action).value.limiter.Some?
            && Bucket.Apply(s.limiter.value, e) == Ok(SideStep(s, action).value.limiter.value)
  {
    hide QuoteAmounts, Debit, EncodeTransfer, Ld2Sd, Bucket.TryConsumeSpec;
  }

  lemma Refills(s: Side, action: Action)
    requires action.LzReceive? && s.oft.rate > 0 && s.limiter.Some? && SideStep(s, action).Ok?
    ensures |EventOf(s, action)| == 1
    ensures var e := EventOf(s, action)[0];
            e.call.Refill? && SideStep(s, action).value.limiter.Some?
            && Bucket.Apply(s.limiter.value, e) == Ok(SideStep(s, action).value.limiter.value)
  {
    hide Credit, PostFee, ClearSpec, Bucket.RefillSpec;
  }

  /** One action: the limiter goes where the event takes it, and the units sent, in local units, are at most
      what is consumed. */
  lemma ActionIsLimited(s: Side, action: Action, t: Side)
    requires Allowed(s, action, t) && s.limiter.Some?
    ensures t.oft == s.oft && t.limiter.Some?
    ensures t.limiter.value == Bucket.After(s.limiter.value, EventOf(s, action))
    ensures Local(s.oft.rate, Units(t.outbox))
            <= Local(s.oft.rate, Units(s.outbox)) + Bucket.Consumed(s.limiter.value, EventOf(s, action))
  {
    hide Bucket.Apply, Bucket.After, Bucket.Consumed, Units, Local, EventOf, SideStep;
    match action
    case Send(_, _, _) =>
      Consumes(s, action);
      assert EventOf(s, action) == [EventOf(s, action)[0]];
      OneEvent(s.limiter.value, EventOf(s, action)[0]);
      SendIsCovered(s, action);
    case LzReceive(_, _, _, _, _) =>
      Refills(s, action);
      assert EventOf(s, action) == [EventOf(s, action)[0]];
      OneEvent(s.limiter.value, EventOf(s, action)[0]);
      OutboxStays(s, action);
    case _ =>
      Idle(s, action);
  }

  lemma Idle(s: Side, action: Action)
    requires !action.Send? && !action.LzReceive? && !action.Limit? && s.oft.rate > 0 && s.limiter.Some? && SideStep(s, action).Ok?
    ensures var t := SideStep(s, action).value;
            t.oft == s.oft && t.limiter == s.limiter && t.outbox == s.outbox
    ensures s.limiter.value == Bucket.After(s.limiter.value, EventOf(s, action))
    ensures Bucket.Consumed(s.limiter.value, EventOf(s, action)) == 0
  {
    hide Step, Transfer, Tokens.Burn, Mint;
  }

  lemma OutboxStays(s: Side, action: Action)
    requires action.LzReceive? && s.oft.rate > 0 && SideStep(s, action).Ok?
    ensures SideStep(s, action).value.outbox == s.outbox && SideStep(s, action).value.oft == s.oft
  {
    hide Credit, PostFee, ClearSpec, LimitReceive;
  }

  lemma SendIsCovered(s: Side, action: Action)
    requires action.Send? && s.oft.rate > 0 && ValidFee(action.fee) && SideStep(s, action).Ok?
    ensures |EventOf(s, action)| == 1 && EventOf(s, action)[0].call.Consume?
    ensures SideStep(s, action).value.oft == s.oft
    ensures Local(s.oft.rate, Units(SideStep(s, action).value.outbox))
            <= Local(s.oft.rate, Units(s.outbox)) + EventOf(s, action)[0].call.amount
  {
    var p, fee := action.p, action.fee;
    QuoteIsTight(s.oft, fee, p.amountLd, p.minAmountLd);
    DedustedIsFixed(s.oft, fee, p.amountLd, p.minAmountLd);
    var q := QuoteAmounts(s.oft, fee, p.amountLd, p.minAmountLd).value;
    var sd := Ld2Sd(s.oft, q.receivedLd);
    TransferRoundTrip(p.to, sd, p.signer, p.composeMsg);
    var m := Sent(p.guid, EncodeTransfer(p.to, sd, p.signer, p.composeMsg));
    hide QuoteAmounts, EncodeTransfer, Debit, LimitSend, RemoveDust, Ld2Sd, Sd2Ld, PostFee;
    assert SideStep(s, action).value.outbox == s.outbox + [m];
    UnitsAppend(s.outbox, m);
    Distributes(s.oft.rate, Units(s.outbox), sd);
  }

  lemma UnitsAppend(outbox: seq<Sent>, m: Sent)
    ensures Units(outbox + [m]) == Units(outbox) + AmountOf(m)
  {
    assert (outbox + [m])[..|outbox|] == outbox;
  }

  /** Along a run the limiter is the bucket after the run's events, and covers what was sent. */
  lemma {:induction false} LimiterCoversSends(states: seq<Side>, actions: seq<Action>, k: nat)
    requires LimitedRun(states, actions) && k <= |actions|
    ensures states[k].oft == states[0].oft && states[k].limiter.Some?
    ensures var b := states[0].limiter.value;
            && states[k].limiter.value == Bucket.After(b, Events(states, actions, k))
            && Local(states[0].oft.rate, Units(states[k].outbox))
               <= Local(states[0].oft.rate, Units(states[0].outbox)) + Bucket.Consumed(b, Events(states, actions, k))
  {
    hide Bucket.After, Bucket.Consumed, Units, Local, SideStep, EventOf;
    if k == 0 {
      NoEvents(states[0].limiter.value);
    } else {
      LimiterCoversSends(states, actions, k - 1);
      assert Allowed(states[k - 1], actions[k - 1], states[k]);
      ActionIsLimited(states[k - 1], actions[k - 1], states[k]);
      Bucket.RunsConcat(states[0].limiter.value, Events(states, actions, k - 1), EventOf(states[k - 1], actions[k - 1]));
    }
  }

  lemma NoEvents(b: Bucket.Bucket)
    ensures Bucket.After(b, []) == b && Bucket.Consumed(b, []) == 0
  {
  }

  /** The bound: over any run under a clock that does not go back, the value of the messages sent is at most
      a full bucket, the rate over the time that passed, and the value received. */
  lemma OutflowIsLimited(states: seq<Side>, actions: seq<Action>)
    requires LimitedRun(states, actions) && Bucket.Within(states[0].limiter.value)
    requires Bucket.ClockRuns(states[0].limiter.value.lastRefillTime, Events(states, actions, |actions|))
    ensures states[|actions|].limiter.Some?
    ensures var b := states[0].limiter.value;
            var elapsed := states[|actions|].limiter.value.lastRefillTime - b.lastRefillTime;
            Local(states[0].oft.rate, Units(states[|actions|].outbox)) - Local(states[0].oft.rate, Units(states[0].outbox))
            <= b.capacity + b.refillPerSecond * elapsed + Bucket.Received(b, Events(states, actions, |actions|))
  {
    hide Allowed, Bucket.After, Bucket.Consumed, Bucket.Received, Bucket.ClockRuns, Units, Local, Events;
    LimiterCoversSends(states, actions, |actions|);
    BucketCovers(states[0].limiter.value, Events(states, actions, |actions|));
  }

  lemma BucketCovers(b: Bucket.Bucket, events: seq<Bucket.Event>)
    requires Bucket.Within(b) && Bucket.ClockRuns(b.lastRefillTime, events)
    ensures Bucket.Consumed(b, events)
            <= b.capacity + b.refillPerSecond * (Bucket.After(b, events).lastRefillTime - b.lastRefillTime)
               + Bucket.Received(b, events)
  {
    hide Bucket.After, Bucket.Consumed, Bucket.Received, Bucket.ClockRuns;
    Bucket.TokenBucketBound(b, events);
  }
}
