/** One transfer from the sender's account to the receiver's: who is debited, what the message says, who is
    credited, and nobody else. */
module OftTransfers {
  import opened Arithmetic
  import opened Common
  import opened PacketCodec
  import opened OftMessages
  import opened Tokens
  import opened EndpointChannel
  import opened Oft
  import opened OftConservation
  import Bucket = TokenBucket
  import Fees = TransferFee

  // ---------- a send ----------

  /** The largest amount that the peer can express among those that `amountLd` lets arrive. */
  function Arriving(oft: OftConfig, fee: MintFee, amountLd: u64): nat
    requires oft.rate > 0 && PostFee(oft, fee, amountLd).Ok?
  {
    var post := PostFee(oft, fee, amountLd).value;
    post - post % oft.rate
  }

  /** `sent` is the least amount that lets `arrives` arrive. */
  ghost predicate IsLeast(oft: OftConfig, fee: MintFee, arrives: int, sent: u64) {
    && PostFee(oft, fee, sent).Ok? && arrives <= PostFee(oft, fee, sent).value
    && forall x: u64 :: PostFee(oft, fee, x).Ok? && arrives <= PostFee(oft, fee, x).value ==> sent <= x
  }

  /** What a limiter does with one call; without a limiter anything passes. */
  ghost predicate Limited(before: Option<Bucket.Bucket>, call: Bucket.Call, now: int, after: Option<Bucket.Bucket>) {
    if before == None then after == None
    else after.Some? && Bucket.Apply(before.value, Bucket.Event(call, now)) == Ok(after.value)
  }

  /** The tokens of an OFT when `sent` leaves `source` and `arrives` reaches the escrow, or both are burned. */
  ghost predicate Debited(oft: OftConfig, t: Token, u: Token, source: Account, sent: int, arrives: int) {
    && BalanceOf(u, source) == BalanceOf(t, source) - sent
    && (oft.kind.Native? ==>
          && arrives == sent && u.supply == t.supply - sent
          && forall x | x != source :: BalanceOf(u, x) == BalanceOf(t, x))
    && (oft.kind.Adapter? ==>
          var escrow := oft.kind.escrow;
          && source != escrow && u.supply == t.supply
          && BalanceOf(u, escrow) == BalanceOf(t, escrow) + arrives
          && forall x | x != source && x != escrow :: BalanceOf(u, x) == BalanceOf(t, x))
  }

  lemma DebitIsExact(oft: OftConfig, t: Token, fee: MintFee, source: Account, sent: u64)
    requires Sound(t) && ValidFee(fee)
    ensures Debit(oft, t, fee, source, sent).Ok? <==>
            sent <= BalanceOf(t, source) && !(oft.kind.Adapter? && source == oft.kind.escrow)
    ensures Debit(oft, t, fee, source, sent).Ok? && PostFee(oft, fee, sent).Ok? ==>
              Debited(oft, t, Debit(oft, t, fee, source, sent).value, source, sent, PostFee(oft, fee, sent).value)
  {
    hide Sound, Tokens.Burn, Transfer, Fees.PostFeeAmount;
    match oft.kind {
      case Native => BurnIsSound(t, source, sent);
      case Adapter(escrow) =>
        TransferIsSound(t, fee, source, escrow, sent);
        PostFeeIsAmountLessFee(oft, fee, sent);
    }
  }

  /** What the message of a send says. */
  ghost predicate Says(m: Sent, p: SendParams, units: int) {
    && m.guid == p.guid && COMPOSE_MSG_OFFSET <= |m.message|
    && SendTo(m.message) == p.to && AmountSd(m.message) == units
    && ComposeMsg(m.message) == if p.composeMsg.Some? then Some(p.signer + p.composeMsg.value) else None
  }

  lemma QuoteIsLeast(oft: OftConfig, fee: MintFee, amountLd: u64, minAmountLd: u64)
    requires oft.rate > 0 && ValidFee(fee)
    ensures PostFee(oft, fee, amountLd).Ok?
    ensures var arrives := Arriving(oft, fee, amountLd);
            var q := QuoteAmounts(oft, fee, amountLd, minAmountLd);
            && (q.Ok? <==> minAmountLd <= arrives)
            && (q.Ok? ==> && q.value.receivedLd == arrives && q.value.sentLd <= amountLd
                          && PostFee(oft, fee, q.value.sentLd) == Ok(arrives)
                          && arrives == oft.rate * Ld2Sd(oft, q.value.receivedLd)
                          && IsLeast(oft, fee, arrives, q.value.sentLd))
  {
    QuoteIsTight(oft, fee, amountLd, minAmountLd);
    PostFeeIsKnown(oft, fee, amountLd);
    assert Arriving(oft, fee, amountLd) == RemoveDust(oft, PostFee(oft, fee, amountLd).value);
    var q := QuoteAmounts(oft, fee, amountLd, minAmountLd);
    if q.Ok? {
      DedustedIsFixed(oft, fee, amountLd, minAmountLd);
      var units := Ld2Sd(oft, q.value.receivedLd);
      hide QuoteAmounts, RemoveDust, Ld2Sd, Sd2Ld, PostFee, Arriving;
      forall x: u64 | PostFee(oft, fee, x).Ok? && q.value.receivedLd <= PostFee(oft, fee, x).value
        ensures q.value.sentLd <= x
      {
        QuoteIsOptimal(oft, fee, amountLd, minAmountLd, x, units);
      }
    }
  }

  lemma PostFeeIsKnown(oft: OftConfig, fee: MintFee, amount: u64)
    requires ValidFee(fee)
    ensures PostFee(oft, fee, amount).Ok?
  {
  }

  /** A send, part by part. */
  lemma SendUnfolds(s: Side, p: SendParams, fee: MintFee, now: int)
    requires s.oft.rate > 0
    ensures var quote := QuoteAmounts(s.oft, fee, p.amountLd, p.minAmountLd);
            && (SendSpec(s, p, fee, now).Ok? <==>
                && quote.Ok? && LimitSend(s.limiter, quote.value.sentLd, now).Ok?
                && Debit(s.oft, s.token, fee, p.source, quote.value.sentLd).Ok? && |s.outbox| < U64_MAX)
            && (SendSpec(s, p, fee, now).Ok? ==>
                  var t := SendSpec(s, p, fee, now).value;
                  var q := quote.value;
                  && t.oft == s.oft && t.channel == s.channel
                  && LimitSend(s.limiter, q.sentLd, now) == Ok(t.limiter)
                  && Debit(s.oft, s.token, fee, p.source, q.sentLd) == Ok(t.token)
                  && t.outbox == s.outbox + [Sent(p.guid, EncodeTransfer(p.to, Ld2Sd(s.oft, q.receivedLd), p.signer, p.composeMsg))])
  {
    hide QuoteAmounts, LimitSend, Debit, EncodeTransfer, Ld2Sd;
  }

  lemma LimitSendIsOneCall(limiter: Option<Bucket.Bucket>, amount: u64, now: int)
    ensures LimitSend(limiter, amount, now).Ok? <==>
            limiter.Some? ==> Bucket.Apply(limiter.value, Bucket.Event(Bucket.Consume(amount), now)).Ok?
    ensures LimitSend(limiter, amount, now).Ok? ==>
              Limited(limiter, Bucket.Consume(amount), now, LimitSend(limiter, amount, now).value)
  {
    hide Bucket.TryConsumeSpec;
  }

  /** A send debits the least amount that lets the largest whole number of shared units below the offer arrive;
      its message names the receiver, that number, and with a compose part its author; the limiter counts what
      is debited; and nothing else changes. */
  lemma SendIsExact(s: Side, p: SendParams, fee: MintFee, now: int) returns (sent: u64, units: u64)
    requires s.oft.rate > 0 && Sound(s.token) && ValidFee(fee) && SendSpec(s, p, fee, now).Ok?
    ensures PostFee(s.oft, fee, p.amountLd).Ok?
    ensures var t := SendSpec(s, p, fee, now).value;
            var arrives := Arriving(s.oft, fee, p.amountLd);
            && arrives == s.oft.rate * units && p.minAmountLd <= arrives
            && sent <= p.amountLd && IsLeast(s.oft, fee, arrives, sent)
            && t.oft == s.oft && t.channel == s.channel
            && |t.outbox| == |s.outbox| + 1 && t.outbox[..|s.outbox|] == s.outbox && Says(t.outbox[|s.outbox|], p, units)
            && Debited(s.oft, s.token, t.token, p.source, sent, arrives)
            && Limited(s.limiter, Bucket.Consume(sent), now, t.limiter)
  {
    hide SendSpec, QuoteAmounts, EncodeTransfer, Ld2Sd, Debit, PostFee, IsLeast, Arriving, Sound, Debited, LimitSend, Limited;
    QuoteIsLeast(s.oft, fee, p.amountLd, p.minAmountLd);
    SendUnfolds(s, p, fee, now);
    var q := QuoteAmounts(s.oft, fee, p.amountLd, p.minAmountLd).value;
    sent, units := q.sentLd, Ld2Sd(s.oft, q.receivedLd);
    TransferRoundTrip(p.to, units, p.signer, p.composeMsg);
    DebitIsExact(s.oft, s.token, fee, p.source, sent);
    LimitSendIsOneCall(s.limiter, sent, now);
  }

  /** A send is accepted exactly if enough arrives, the limiter lets the least amount for it pass, and its source
      holds that and is not the escrow. */
  lemma SendAcceptedExactly(s: Side, p: SendParams, fee: MintFee, now: int, sent: u64)
    requires s.oft.rate > 0 && Sound(s.token) && ValidFee(fee) && |s.outbox| < U64_MAX
    requires PostFee(s.oft, fee, p.amountLd).Ok? && IsLeast(s.oft, fee, Arriving(s.oft, fee, p.amountLd), sent)
    ensures SendSpec(s, p, fee, now).Ok? <==>
            && p.minAmountLd <= Arriving(s.oft, fee, p.amountLd)
            && (s.limiter.Some? ==> Bucket.Apply(s.limiter.value, Bucket.Event(Bucket.Consume(sent), now)).Ok?)
            && sent <= BalanceOf(s.token, p.source) && !(s.oft.kind.Adapter? && p.source == s.oft.kind.escrow)
  {
    hide SendSpec, QuoteAmounts, EncodeTransfer, Ld2Sd, Debit, PostFee, Arriving, Sound, Debited, LimitSend;
    hide Limited, Bucket.Apply, BalanceOf;
    QuoteIsLeast(s.oft, fee, p.amountLd, p.minAmountLd);
    SendUnfolds(s, p, fee, now);
    DebitIsExact(s.oft, s.token, fee, p.source, sent);
    LimitSendIsOneCall(s.limiter, sent, now);
  }

  // ---------- a receipt ----------

  /** The tokens of an OFT when `amount` is minted to `to`, or leaves the escrow and, less the fee, reaches it. */
  ghost predicate Credited(oft: OftConfig, fee: MintFee, t: Token, u: Token, to: Account, amount: u64) {
    && (oft.kind.Native? ==>
          && u.supply == t.supply + amount && BalanceOf(u, to) == BalanceOf(t, to) + amount
          && forall x | x != to :: BalanceOf(u, x) == BalanceOf(t, x))
    && (oft.kind.Adapter? ==>
          var escrow := oft.kind.escrow;
          && u.supply == t.supply
          && (to == escrow ==> forall x :: BalanceOf(u, x) == BalanceOf(t, x))
          && (to != escrow ==>
                && BalanceOf(u, escrow) == BalanceOf(t, escrow) - amount
                && PostFee(oft, fee, amount) == Ok(BalanceOf(u, to) - BalanceOf(t, to))
                && forall x | x != to && x != escrow :: BalanceOf(u, x) == BalanceOf(t, x)))
  }

  lemma CreditIsExact(oft: OftConfig, t: Token, fee: MintFee, to: Bytes32, amount: u64)
    requires Sound(t) && ValidFee(fee)
    ensures Credit(oft, t, fee, to, amount).Ok? <==>
            if oft.kind.Native? then t.supply + amount <= U64_MAX else amount <= BalanceOf(t, oft.kind.escrow)
    ensures Credit(oft, t, fee, to, amount).Ok? ==>
              Credited(oft, fee, t, Credit(oft, t, fee, to, amount).value, Associated(to), amount)
  {
    hide Sound, Mint, Transfer, Fees.PostFeeAmount;
    match oft.kind {
      case Native => MintIsSound(t, Associated(to), amount);
      case Adapter(escrow) =>
        TransferIsSound(t, fee, escrow, Associated(to), amount);
        PostFeeIsAmountLessFee(oft, fee, amount);
    }
  }

  /** A receipt credits the account of the receiver that the message names with its number of shared units, in
      local units; the limiter counts what arrives; and nothing else changes. */
  lemma ReceiveIsExact(s: Side, n: u64, guid: Bytes32, message: seq<byte>, fee: MintFee, now: int) returns (amount: u64)
    requires Sound(s.token) && ValidFee(fee) && LzReceiveSpec(s, n, guid, message, fee, now).Ok?
    ensures COMPOSE_MSG_OFFSET <= |message| && amount == s.oft.rate * AmountSd(message) && PostFee(s.oft, fee, amount).Ok?
    ensures var t := LzReceiveSpec(s, n, guid, message, fee, now).value;
            && t.oft == s.oft && t.outbox == s.outbox && ClearSpec(s.channel, n, guid, message) == Ok(t.channel)
            && Credited(s.oft, fee, s.token, t.token, Associated(SendTo(message)), amount)
            && Limited(s.limiter, Bucket.Refill(PostFee(s.oft, fee, amount).value), now, t.limiter)
  {
    amount := Sd2Ld(s.oft, AmountSd(message)).value;
    Commutes(s.oft.rate, AmountSd(message));
    hide PostFee, Credit, ClearSpec, Sound, Credited, Bucket.RefillSpec;
    CreditIsExact(s.oft, s.token, fee, SendTo(message), amount);
  }

  // ---------- across the two chains ----------

  function SideOf(w: World, a: bool): Side {
    if a then w.a else w.b
  }

  lemma SideStepOf(w: World, m: Move, v: World)
    requires Accepted(w, m, v)
    ensures SideOf(w, m.OnA?).oft.rate > 0
    ensures SideStep(SideOf(w, m.OnA?), m.action) == Ok(SideOf(v, m.OnA?))
    ensures SideOf(v, !m.OnA?) == SideOf(w, !m.OnA?)
    ensures m.action.Send? || m.action.LzReceive? ==> ValidFee(m.action.fee)
  {
    hide SideStep;
  }

  /** Only sends on its own chain lengthen an outbox, by one message each. */
  lemma OutboxStep(w: World, m: Move, v: World, a: bool)
    requires Accepted(w, m, v)
    ensures var x, y := SideOf(w, a).outbox, SideOf(v, a).outbox;
            if m.OnA? == a && m.action.Send? then |y| == |x| + 1 && y[..|x|] == x else y == x
  {
    hide Accepted;
    SideStepOf(w, m, v);
    if m.OnA? == a {
      OutboxOfStep(SideOf(w, a), m.action);
    }
  }

  lemma OutboxOfStep(s: Side, action: Action)
    requires s.oft.rate > 0 && SideStep(s, action).Ok?
    ensures var x, y := s.outbox, SideStep(s, action).value.outbox;
            if action.Send? then |y| == |x| + 1 && y[..|x|] == x else y == x
  {
    hide QuoteAmounts, Debit, Credit, EncodeTransfer, ClearSpec, PostFee, Step, Transfer, Mint, Tokens.Burn;
  }

  lemma NothingSentYet(states: seq<World>, moves: seq<Move>, a: bool)
    requires OftConservation.Run(states, moves)
    ensures |states| == |moves| + 1 && |SideOf(states[0], a).outbox| == 0
  {
    hide Accepted, Sound;
  }

  /** The n-th message of a chain was sent by its n-th send. */
  lemma {:induction false} SentByASend(states: seq<World>, moves: seq<Move>, k: nat, a: bool, n: nat) returns (j: nat)
    requires OftConservation.Run(states, moves) && k < |states| && 1 <= n <= |SideOf(states[k], a).outbox|
    ensures j < k && moves[j].OnA? == a && moves[j].action.Send?
    ensures |SideOf(states[j], a).outbox| == n - 1
    ensures |SideOf(states[j + 1], a).outbox| == n
    ensures SideOf(states[j + 1], a).outbox[n - 1] == SideOf(states[k], a).outbox[n - 1]
    decreases k
  {
    hide OftConservation.Run, Accepted, SideOf;
    NothingSentYet(states, moves, a);
    RunAccepts(states, moves, k - 1);
    OutboxStep(states[k - 1], moves[k - 1], states[k], a);
    if n <= |SideOf(states[k - 1], a).outbox| {
      j := SentByASend(states, moves, k - 1, a, n);
      assert SideOf(states[k], a).outbox[n - 1] == SideOf(states[k - 1], a).outbox[n - 1];
    } else {
      j := k - 1;
    }
  }

  lemma ReceivedWasSent(w: World, m: Move, v: World)
    requires WorldInv(w) && Accepted(w, m, v) && m.action.LzReceive?
    ensures var outbox := SideOf(w, !m.OnA?).outbox;
            1 <= m.action.nonce <= |outbox| && outbox[m.action.nonce - 1] == Sent(m.action.guid, m.action.message)
  {
    SideStepOf(w, m, v);
    hide Accepted, Delivery, Sound, BooksOf, Issued, Books.Balanced;
    var s := SideOf(w, m.OnA?);
    ReceiveEffect(s, m.action);
    ClearedWasSent(s.channel, SideOf(w, !m.OnA?).outbox, if m.OnA? then w.creditedA else w.creditedB,
                   m.action.nonce, m.action.guid, m.action.message);
  }

  /** What the n-th send of one chain and the receipt of nonce n on the other have to do with each other: the
      receiver that the sender named is credited, with the units that the sender was debited for. */
  ghost predicate Transferred(x: Side, y: Side, send: Action, s: Side, t: Side, receipt: Action)
    requires send.Send? && receipt.LzReceive? && x.oft.rate > 0
  {
    && PostFee(x.oft, send.fee, send.p.amountLd).Ok?
    && exists sent: u64, units: u64, amount: u64 ::
         && Arriving(x.oft, send.fee, send.p.amountLd) == x.oft.rate * units && amount == s.oft.rate * units
         && IsLeast(x.oft, send.fee, x.oft.rate * units, sent)
         && Debited(x.oft, x.token, y.token, send.p.source, sent, x.oft.rate * units)
         && Credited(s.oft, receipt.fee, s.token, t.token, Associated(send.p.to), amount)
         && Says(Sent(receipt.guid, receipt.message), send.p, units)
  }

  lemma TransferParts(x: Side, send: Action, s: Side, receipt: Action)
    requires send.Send? && x.oft.rate > 0 && Sound(x.token) && ValidFee(send.fee) && SideStep(x, send).Ok?
    requires receipt.LzReceive? && s.oft.rate > 0 && Sound(s.token) && ValidFee(receipt.fee) && SideStep(s, receipt).Ok?
    requires var y := SideStep(x, send).value;
             y.outbox != [] && y.outbox[|y.outbox| - 1] == Sent(receipt.guid, receipt.message)
    ensures Transferred(x, SideStep(x, send).value, send, s, SideStep(s, receipt).value, receipt)
  {
    hide SendSpec, LzReceiveSpec, PostFee, Arriving, IsLeast, Debited, Credited, Says, Limited, Sound;
    var sent, units := SendIsExact(x, send.p, send.fee, send.now);
    var amount := ReceiveIsExact(s, receipt.nonce, receipt.guid, receipt.message, receipt.fee, receipt.now);
    SaysReceiver(Sent(receipt.guid, receipt.message), send.p, units);
  }

  lemma SaysReceiver(m: Sent, p: SendParams, units: int)
    requires Says(m, p, units)
    ensures COMPOSE_MSG_OFFSET <= |m.message| && SendTo(m.message) == p.to && AmountSd(m.message) == units
  {
  }

  lemma SoundSides(w: World, a: bool)
    requires WorldInv(w)
    ensures Sound(SideOf(w, a).token) && SideOf(w, a).oft.rate > 0
  {
    hide Sound, BooksOf, Issued, Deliveries;
  }

  /** The theorem.  In every run each receipt belongs to one earlier send on the other chain, the one whose number
      is the nonce: it credits the account of the receiver that this sender named, with exactly the shared units
      that the sender was debited for, and changes no other balance. */
  lemma DeliveredAsSent(states: seq<World>, moves: seq<Move>, k: nat) returns (j: nat)
    requires OftConservation.Run(states, moves) && k < |moves| && moves[k].action.LzReceive?
    ensures j < k && moves[j].OnA? == !moves[k].OnA? && moves[j].action.Send?
    ensures SideOf(states[j], moves[j].OnA?).oft.rate > 0
    ensures |SideOf(states[j], moves[j].OnA?).outbox| + 1 == moves[k].action.nonce
    ensures Transferred(SideOf(states[j], moves[j].OnA?), SideOf(states[j + 1], moves[j].OnA?), moves[j].action,
                        SideOf(states[k], moves[k].OnA?), SideOf(states[k + 1], moves[k].OnA?), moves[k].action)
  {
    hide OftConservation.Run, Accepted, Initial, WorldInv, SideOf, SideStep, Transferred;
    RunAccepts(states, moves, k);
    OftConservation.Reachable(states, moves, k);
    ReceivedWasSent(states[k], moves[k], states[k + 1]);
    j := SentByASend(states, moves, k, !moves[k].OnA?, moves[k].action.nonce);
    RunAccepts(states, moves, j);
    OftConservation.Reachable(states, moves, j);
    MovesTransfer(states[j], moves[j], states[j + 1], states[k], moves[k], states[k + 1]);
  }

  lemma RunAccepts(states: seq<World>, moves: seq<Move>, k: nat)
    requires OftConservation.Run(states, moves) && k < |moves|
    ensures |states| == |moves| + 1 && Accepted(states[k], moves[k], states[k + 1])
  {
    hide Accepted, Initial;
  }

  lemma MovesTransfer(w: World, m: Move, v: World, w': World, m': Move, v': World)
    requires WorldInv(w) && Accepted(w, m, v) && m.action.Send?
    requires WorldInv(w') && Accepted(w', m', v') && m'.action.LzReceive?
    requires var y := SideOf(v, m.OnA?); y.outbox != [] && y.outbox[|y.outbox| - 1] == Sent(m'.action.guid, m'.action.message)
    ensures SideOf(w, m.OnA?).oft.rate > 0
    ensures Transferred(SideOf(w, m.OnA?), SideOf(v, m.OnA?), m.action, SideOf(w', m'.OnA?), SideOf(v', m'.OnA?), m'.action)
  {
    hide Accepted, WorldInv, SideOf, SideStep, Transferred, Sound;
    SoundSides(w, m.OnA?);
    SoundSides(w', m'.OnA?);
    SideStepOf(w, m, v);
    SideStepOf(w', m', v');
    TransferParts(SideOf(w, m.OnA?), m.action, SideOf(w', m'.OnA?), m'.action);
  }
}
