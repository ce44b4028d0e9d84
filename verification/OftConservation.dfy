/** An adapter on chain A paired with a native token on chain B.  Whatever anyone does, in any order, on
    either chain, the escrow on A backs the supply on B and every message under way. */
module OftConservation {
  import opened Arithmetic
  import opened Common
  import opened PacketCodec
  import opened OftMessages
  import opened Tokens
  import opened EndpointChannel
  import opened Oft
  import Messaging = MessagingChannel
  import Bucket = TokenBucket
  import Fees = TransferFee

  // ---------- what can happen on one chain ----------

  datatype Action =
    | Send(p: SendParams, fee: MintFee, now: int)
    | LzReceive(nonce: u64, guid: Bytes32, message: seq<byte>, fee: MintFee, now: int)
    | Inbound(instr: Instruction)                 // protocol and delegate, past the OFT
    | Pay(from: Account, to: Account, amount: u64, fee: MintFee)
    | Destroy(from: Account, amount: u64)         // a holder burns their own tokens
    | Issue(to: Account, amount: u64)             // the mint of an adapted token may have an issuer
    | Limit(enabled: bool, capacity: Option<u64>, refillPerSecond: Option<u64>, now: int)

  predicate IsEscrow(s: Side, account: Account) {
    s.oft.kind.Adapter? && account == s.oft.kind.escrow
  }

  function SideStep(s: Side, action: Action): Result<Side>
    requires s.oft.rate > 0
  {
    match action
    case Send(p, fee, now) => SendSpec(s, p, fee, now)
    case LzReceive(nonce, guid, message, fee, now) => LzReceiveSpec(s, nonce, guid, message, fee, now)
    case Inbound(i) =>
      var c :- Step(s.channel, i);
      Ok(s.(channel := c))
    case Pay(from, to, amount, fee) =>
      var _ :- Require(!IsEscrow(s, from), Unauthorized);
      var t :- Transfer(s.token, fee, from, to, amount);
      Ok(s.(token := t))
    case Destroy(from, amount) =>
      var _ :- Require(!IsEscrow(s, from), Unauthorized);
      var t :- Tokens.Burn(s.token, from, amount);
      Ok(s.(token := t))
    case Issue(to, amount) =>
      var _ :- Require(s.oft.kind.Adapter?, Unauthorized);
      var t :- Mint(s.token, to, amount);
      Ok(s.(token := t))
    case Limit(enabled, capacity, rate, now) =>
      var l :- Bucket.SetRateLimitSpec(s.limiter, enabled, capacity, rate, now);
      Ok(s.(limiter := l))
  }

  // ---------- the two chains ----------

  /** The last four components are history: the nonces credited by `lz_receive` on each chain, what was
      given to the escrow beyond sends, and what holders on B burned themselves. */
  datatype World = World(a: Side, b: Side, creditedA: set<int>, creditedB: set<int>, donated: int, burned: nat)

  datatype Move = OnA(action: Action) | OnB(action: Action)

  function Escrow(s: Side): nat
    requires s.oft.kind.Adapter?
  {
    BalanceOf(s.token, s.oft.kind.escrow)
  }

  /** Unlocking to the escrow itself moves nothing. */
  function ToItself(s: Side, action: Action): nat {
    if action.LzReceive? && COMPOSE_MSG_OFFSET <= |action.message| && IsEscrow(s, Associated(SendTo(action.message)))
    then AmountSd(action.message) * s.oft.rate
    else 0
  }

  function Donation(before: Side, after: Side, action: Action): int
    requires before.oft.kind.Adapter? && after.oft.kind.Adapter?
  {
    if action.Pay? || action.Issue? then Escrow(after) - Escrow(before) else ToItself(before, action)
  }

  function NewlyCredited(action: Action): set<int> {
    if action.LzReceive? then {action.nonce as int} else {}
  }

  ghost predicate Paired(w: World) {
    && w.a.oft.kind.Adapter? && w.b.oft.kind.Native?
    && w.a.oft.rate > 0 && w.b.oft.rate > 0
  }

  function AfterA(w: World, action: Action, t: Side): World
    requires w.a.oft.kind.Adapter? && t.oft.kind.Adapter?
  {
    w.(a := t, creditedA := w.creditedA + NewlyCredited(action), donated := w.donated + Donation(w.a, t, action))
  }

  function AfterB(w: World, action: Action, t: Side): World {
    w.(b := t, creditedB := w.creditedB + NewlyCredited(action),
       burned := w.burned + if action.Destroy? then action.amount else 0)
  }

  function Next(w: World, m: Move): Result<World>
    requires w.a.oft.kind.Adapter? && w.a.oft.rate > 0 && w.b.oft.rate > 0
  {
    match m
    case OnA(action) =>
      var t :- SideStep(w.a, action);
      KeepsOft(w.a, action);
      Ok(AfterA(w, action, t))
    case OnB(action) =>
      var t :- SideStep(w.b, action);
      Ok(AfterB(w, action, t))
  }

  lemma KeepsOft(s: Side, action: Action)
    requires s.oft.rate > 0 && SideStep(s, action).Ok?
    ensures SideStep(s, action).value.oft == s.oft
  {
  }

  /** The hash of a message that the peer sent under this nonce. */
  ghost predicate IsSent(outbox: seq<Sent>, n: int, h: Hash) {
    1 <= n <= |outbox| && h == Keccak(outbox[n - 1].guid + outbox[n - 1].message)
  }

  /** The libraries verify only what was sent (the module Authenticity says what that rests on), and the
      token program keeps its fees below 100%. */
  ghost predicate Honest(w: World, m: Move) {
    && (m.action.Inbound? && m.action.instr.Verify? ==>
          IsSent(if m.OnA? then w.b.outbox else w.a.outbox, m.action.instr.nonce, m.action.instr.hash))
    && (m.action.Send? || m.action.LzReceive? || m.action.Pay? ==> ValidFee(m.action.fee))
  }

  // ---------- messages under way ----------

  function AmountOf(m: Sent): nat {
    if COMPOSE_MSG_OFFSET <= |m.message| then AmountSd(m.message) else 0
  }

  /** Shared units sent and not credited yet. */
  ghost function InFlight(outbox: seq<Sent>, credited: set<int>): nat {
    if outbox == [] then 0
    else
      var last := |outbox| - 1;
      InFlight(outbox[..last], credited) + if |outbox| in credited then 0 else AmountOf(outbox[last])
  }

  lemma SendAddsToFlight(outbox: seq<Sent>, credited: set<int>, m: Sent)
    requires |outbox| + 1 !in credited
    ensures InFlight(outbox + [m], credited) == InFlight(outbox, credited) + AmountOf(m)
  {
  }

  lemma {:induction false} CreditLeavesFlight(outbox: seq<Sent>, credited: set<int>, n: int)
    requires 1 <= n && n !in credited
    ensures InFlight(outbox, credited)
            == InFlight(outbox, credited + {n}) + if n <= |outbox| then AmountOf(outbox[n - 1]) else 0
  {
    if outbox != [] {
      var rest := outbox[..|outbox| - 1];
      assert n < |outbox| ==> rest[n - 1] == outbox[n - 1];
      CreditLeavesFlight(rest, credited, n);
    }
  }

  // ---------- each message is credited once ----------

  ghost predicate Delivery(c: Channel, outbox: seq<Sent>, credited: set<int>) {
    && Inv(c)
    && (forall n | n in c.hashes :: c.hashes[n] == Empty || c.hashes[n] == Nil || IsSent(outbox, n, c.hashes[n]))
    && (forall n | n in credited :: 1 <= n <= |outbox| && n <= U64_MAX && Closed(c, n))
    && (forall m | m in outbox :: COMPOSE_MSG_OFFSET <= |m.message|)
  }

  lemma ChannelStepKeepsDelivery(c: Channel, outbox: seq<Sent>, credited: set<int>, i: Instruction)
    requires Delivery(c, outbox, credited) && Step(c, i).Ok?
    requires i.Verify? ==> IsSent(outbox, i.nonce, i.hash)
    ensures Delivery(Step(c, i).value, outbox, credited)
  {
    StepKeepsInv(c, i);
    AccountLifeCycle(c, i);
    ClosingIsFinal(c, i);
    hide Step, Inv;
  }

  /** What `clear` accepts is the very message that was sent, and it was not credited before. */
  lemma ClearedWasSent(c: Channel, outbox: seq<Sent>, credited: set<int>, n: u64, guid: Bytes32, message: seq<byte>)
    requires Delivery(c, outbox, credited) && ClearSpec(c, n, guid, message).Ok?
    ensures 1 <= n <= |outbox| && outbox[n - 1] == Sent(guid, message) && n !in credited
  {
    ClosingIsFinal(c, Clear(n, guid, message));
    var sent := outbox[n - 1];
    assert (sent.guid + sent.message)[..32] == sent.guid && (sent.guid + sent.message)[32..] == sent.message;
    assert (guid + message)[..32] == guid && (guid + message)[32..] == message;
  }

  lemma CreditKeepsDelivery(c: Channel, outbox: seq<Sent>, credited: set<int>, n: u64, guid: Bytes32,
                            message: seq<byte>)
    requires Delivery(c, outbox, credited) && ClearSpec(c, n, guid, message).Ok?
    ensures Delivery(ClearSpec(c, n, guid, message).value, outbox, credited + {n as int})
  {
    ClearedWasSent(c, outbox, credited, n, guid, message);
    ClosingIsFinal(c, Clear(n, guid, message));
    ChannelStepKeepsDelivery(c, outbox, credited, Clear(n, guid, message));
  }

  lemma SendKeepsDelivery(c: Channel, outbox: seq<Sent>, credited: set<int>, m: Sent)
    requires Delivery(c, outbox, credited) && COMPOSE_MSG_OFFSET <= |m.message|
    ensures Delivery(c, outbox + [m], credited)
    ensures |outbox| + 1 !in credited
  {
  }

  // ---------- what each action does to the tokens ----------

  /** An amount in shared units, in the local units of a chain. */
  function Local(rate: int, amountSd: int): int {
    rate * amountSd
  }

  lemma SendEffect(s: Side, action: Action)
    requires action.Send? && s.oft.rate > 0 && Sound(s.token) && ValidFee(action.fee) && SideStep(s, action).Ok?
    ensures var t := SideStep(s, action).value;
            && t.oft == s.oft && t.channel == s.channel && Sound(t.token)
            && |t.outbox| == |s.outbox| + 1 && t.outbox == s.outbox + [t.outbox[|s.outbox|]]
            && var m := t.outbox[|s.outbox|];
               && COMPOSE_MSG_OFFSET <= |m.message|
               && (s.oft.kind.Adapter? ==> Escrow(t) == Escrow(s) + Local(s.oft.rate, AmountOf(m)))
               && (s.oft.kind.Native? ==> t.token.supply == s.token.supply - Local(s.oft.rate, AmountOf(m)))
  {
    var q := SendParts(s, action);
    hide SideStep, Sound, Local, AmountOf, Debit, PostFee;
    match s.oft.kind {
      case Native => BurnEffect(s.oft, s.token, action.fee, action.p.source, q.sentLd);
      case Adapter(_) => LockEffect(s.oft, s.token, action.fee, action.p.source, q.sentLd);
    }
  }

  /** The parts of a send: it debits what the quote says and sends a message worth what arrives. */
  lemma SendParts(s: Side, action: Action) returns (q: Amounts)
    requires action.Send? && s.oft.rate > 0 && ValidFee(action.fee) && SideStep(s, action).Ok?
    ensures var t := SideStep(s, action).value;
            && t.oft == s.oft && t.channel == s.channel
            && Debit(s.oft, s.token, action.fee, action.p.source, q.sentLd) == Ok(t.token)
            && |t.outbox| == |s.outbox| + 1 && t.outbox == s.outbox + [t.outbox[|s.outbox|]]
            && var m := t.outbox[|s.outbox|];
               && COMPOSE_MSG_OFFSET <= |m.message| && q.receivedLd == Local(s.oft.rate, AmountOf(m))
               && PostFee(s.oft, action.fee, q.sentLd) == Ok(q.receivedLd)
               && (s.oft.kind.Native? ==> q.sentLd == q.receivedLd)
  {
    var p, fee := action.p, action.fee;
    QuoteIsTight(s.oft, fee, p.amountLd, p.minAmountLd);
    q := QuoteAmounts(s.oft, fee, p.amountLd, p.minAmountLd).value;
    DedustedIsFixed(s.oft, fee, p.amountLd, p.minAmountLd);
    TransferRoundTrip(p.to, Ld2Sd(s.oft, q.receivedLd), p.signer, p.composeMsg);
    hide QuoteAmounts, EncodeTransfer, RemoveDust, Ld2Sd, Sd2Ld, PostFee, Debit, LimitSend;
  }

  lemma BurnEffect(oft: OftConfig, t: Token, fee: MintFee, source: Account, amount: u64)
    requires oft.kind.Native? && Sound(t) && Debit(oft, t, fee, source, amount).Ok?
    ensures var u := Debit(oft, t, fee, source, amount).value;
            Sound(u) && u.supply == t.supply - amount
  {
    hide Sound, Tokens.Burn;
    BurnIsSound(t, source, amount);
  }

  lemma LockEffect(oft: OftConfig, t: Token, fee: MintFee, source: Account, amount: u64)
    requires oft.kind.Adapter? && Sound(t) && ValidFee(fee) && Debit(oft, t, fee, source, amount).Ok?
    ensures var u := Debit(oft, t, fee, source, amount).value;
            var escrow := oft.kind.escrow;
            && Sound(u) && PostFee(oft, fee, amount).Ok?
            && BalanceOf(u, escrow) == BalanceOf(t, escrow) + PostFee(oft, fee, amount).value
  {
    hide Sound, Transfer;
    TransferIsSound(t, fee, source, oft.kind.escrow, amount);
    PostFeeIsAmountLessFee(oft, fee, amount);
  }

  lemma DedustedIsFixed(oft: OftConfig, fee: MintFee, amountLd: u64, minAmountLd: u64)
    requires oft.rate > 0 && ValidFee(fee) && QuoteAmounts(oft, fee, amountLd, minAmountLd).Ok?
    ensures var q := QuoteAmounts(oft, fee, amountLd, minAmountLd).value;
            q.receivedLd == oft.rate * Ld2Sd(oft, q.receivedLd) && (oft.kind.Native? ==> q.sentLd == q.receivedLd)
  {
    QuoteIsTight(oft, fee, amountLd, minAmountLd);
    DustIsLessThanRate(oft, PostFee(oft, fee, amountLd).value);
    hide RemoveDust, Ld2Sd;
  }

  lemma PostFeeIsAmountLessFee(oft: OftConfig, fee: MintFee, amount: u64)
    requires ValidFee(fee) && oft.kind.Adapter?
    ensures PostFee(oft, fee, amount) == Ok(amount - FeeOn(fee, amount))
  {
  }

  lemma ReceiveEffect(s: Side, action: Action)
    requires action.LzReceive? && s.oft.rate > 0 && Sound(s.token) && ValidFee(action.fee) && SideStep(s, action).Ok?
    ensures var t := SideStep(s, action).value;
            && COMPOSE_MSG_OFFSET <= |action.message|
            && ClearSpec(s.channel, action.nonce, action.guid, action.message) == Ok(t.channel)
            && t.oft == s.oft && t.outbox == s.outbox && Sound(t.token)
            && (s.oft.kind.Adapter? ==>
                  Escrow(t) == Escrow(s) - Local(s.oft.rate, AmountSd(action.message)) + ToItself(s, action))
            && (s.oft.kind.Native? ==> t.token.supply == s.token.supply + Local(s.oft.rate, AmountSd(action.message)))
  {
    hide Sound, Transfer, Mint, Fees.PostFeeAmount, ClearSpec;
    var amountLd := Sd2Ld(s.oft, AmountSd(action.message)).value;
    match s.oft.kind {
      case Native => MintIsSound(s.token, Associated(SendTo(action.message)), amountLd);
      case Adapter(escrow) => TransferIsSound(s.token, action.fee, escrow, Associated(SendTo(action.message)), amountLd);
    }
  }

  /** The rest leaves the escrow to its donations and the supply on B to its burners. */
  lemma OtherEffect(s: Side, action: Action)
    requires !action.Send? && !action.LzReceive?
    requires s.oft.rate > 0 && Sound(s.token) && SideStep(s, action).Ok?
    requires action.Pay? ==> ValidFee(action.fee)
    ensures var t := SideStep(s, action).value;
            && t.oft == s.oft && t.outbox == s.outbox && Sound(t.token)
            && (if action.Inbound? then Step(s.channel, action.instr) == Ok(t.channel) else t.channel == s.channel)
            && (s.oft.kind.Adapter? ==> Escrow(t) == Escrow(s) + Donation(s, t, action) && Donation(s, t, action) >= 0)
            && (s.oft.kind.Native? ==> t.token.supply == s.token.supply - if action.Destroy? then action.amount else 0)
  {
    hide Sound, Transfer, Mint, Tokens.Burn, Step, Bucket.SetRateLimitSpec;
    match action
    case Pay(from, to, amount, fee) =>
      TransferIsSound(s.token, fee, from, to, amount);
      if fee.Some? {
        Fees.FeeIsPartOfAmount(fee.value, amount);
      }
    case Destroy(from, amount) => BurnIsSound(s.token, from, amount);
    case Issue(to, amount) => MintIsSound(s.token, to, amount);
    case Inbound(_) =>
    case Limit(_, _, _, _) =>
  }

  // ---------- conservation ----------

  /** The books of the two chains, in numbers: `units` shared units are out on B, and with the messages
      under way they are exactly what the escrow holds. */
  datatype Books = Books(escrow: int, donated: int, rateA: nat, supply: int, burned: int, rateB: nat,
                         units: int, toB: int, toA: int)
  {
    ghost predicate Balanced() {
      && units >= 0 && donated >= 0 && toB >= 0 && toA >= 0 && rateA > 0 && rateB > 0
      && supply + burned == rateB * units
      && escrow - donated == rateA * (units + toB + toA)
    }
  }

  lemma LockBalances(b: Books, x: nat)
    requires b.Balanced()
    ensures b.(escrow := b.escrow + Local(b.rateA, x), toB := b.toB + x).Balanced()
  {
    Distributes(b.rateA, b.units + b.toB + b.toA, x);
  }

  lemma UnlockBalances(b: Books, x: nat, toItself: nat)
    requires b.Balanced() && x <= b.toA
    ensures b.(escrow := b.escrow - Local(b.rateA, x) + toItself, donated := b.donated + toItself, toA := b.toA - x).Balanced()
    ensures 0 <= x * b.rateA <= b.escrow
  {
    var total := b.units + b.toB + b.toA;
    Distributes(b.rateA, total, x);
    Commutes(x, b.rateA);
    MultiplesLieApart(b.rateA, 0, x);
    MultiplesLieApart(b.rateA, x, total);
  }

  lemma BurnBalances(b: Books, x: nat)
    requires b.Balanced() && 0 <= b.supply - Local(b.rateB, x) && 0 <= b.burned
    ensures b.(supply := b.supply - Local(b.rateB, x), units := b.units - x, toA := b.toA + x).Balanced()
  {
    Distributes(b.rateB, b.units, x);
    MultiplesLieApart(b.rateB, b.units, x);
  }

  lemma MintBalances(b: Books, x: nat)
    requires b.Balanced() && x <= b.toB
    ensures b.(supply := b.supply + Local(b.rateB, x), units := b.units + x, toB := b.toB - x).Balanced()
  {
    Distributes(b.rateB, b.units, x);
  }

  /** The shared units that the supply on B stands for, counting what its holders burned themselves. */
  function Issued(w: World): nat
    requires w.b.oft.rate > 0
  {
    (w.b.token.supply + w.burned) / w.b.oft.rate
  }

  ghost function BooksOf(w: World, units: int): Books
    requires Paired(w)
  {
    Books(Escrow(w.a), w.donated, w.a.oft.rate, w.b.token.supply, w.burned, w.b.oft.rate,
          units, InFlight(w.a.outbox, w.creditedB), InFlight(w.b.outbox, w.creditedA))
  }

  ghost predicate Deliveries(w: World) {
    && Delivery(w.a.channel, w.b.outbox, w.creditedA)
    && Delivery(w.b.channel, w.a.outbox, w.creditedB)
  }

  ghost predicate WorldInv(w: World) {
    && Paired(w)
    && Sound(w.a.token) && Sound(w.b.token)
    && Deliveries(w)
    && BooksOf(w, Issued(w)).Balanced()
  }

  lemma BalancedUnitsAreIssued(w: World, units: int)
    requires Paired(w) && BooksOf(w, units).Balanced()
    ensures units == Issued(w)
  {
    QuotientOfMultiple(w.b.oft.rate, units);
  }

  /** What stays the same on both chains when only A acts. */
  ghost predicate OnlyA(w: World, v: World) {
    && Paired(w) && Paired(v) && v.a.oft == w.a.oft && v.b == w.b
    && v.creditedB == w.creditedB && v.burned == w.burned
  }

  ghost predicate OnlyB(w: World, v: World) {
    && Paired(w) && Paired(v) && v.b.oft == w.b.oft && v.a == w.a
    && v.creditedA == w.creditedA && v.donated == w.donated
  }

  lemma BooksAfterLock(w: World, v: World, m: Sent)
    requires OnlyA(w, v) && BooksOf(w, Issued(w)).Balanced()
    requires v.a.outbox == w.a.outbox + [m] && |w.a.outbox| + 1 !in w.creditedB
    requires v.creditedA == w.creditedA && v.donated == w.donated
    requires Escrow(v.a) == Escrow(w.a) + Local(w.a.oft.rate, AmountOf(m))
    ensures BooksOf(v, Issued(v)).Balanced()
  {
    hide InFlight, Issued, Local, AmountOf, Books.Balanced, Escrow;
    SendAddsToFlight(w.a.outbox, w.creditedB, m);
    LockBalances(BooksOf(w, Issued(w)), AmountOf(m));
    BalancedUnitsAreIssued(v, Issued(w));
  }

  lemma BooksAfterBurn(w: World, v: World, m: Sent)
    requires OnlyB(w, v) && BooksOf(w, Issued(w)).Balanced()
    requires v.b.outbox == w.b.outbox + [m] && |w.b.outbox| + 1 !in w.creditedA
    requires v.creditedB == w.creditedB && v.burned == w.burned
    requires v.b.token.supply == w.b.token.supply - Local(w.b.oft.rate, AmountOf(m))
    ensures BooksOf(v, Issued(v)).Balanced()
  {
    hide InFlight, Issued, Local, AmountOf, Books.Balanced, Escrow;
    SendAddsToFlight(w.b.outbox, w.creditedA, m);
    BurnBalances(BooksOf(w, Issued(w)), AmountOf(m));
    BalancedUnitsAreIssued(v, Issued(w) - AmountOf(m));
  }

  lemma BooksAfterUnlock(w: World, v: World, n: int, toItself: nat)
    requires OnlyA(w, v) && BooksOf(w, Issued(w)).Balanced()
    requires v.a.outbox == w.a.outbox && 1 <= n <= |w.b.outbox| && n !in w.creditedA
    requires v.creditedA == w.creditedA + {n} && v.donated == w.donated + toItself
    requires Escrow(v.a) == Escrow(w.a) - Local(w.a.oft.rate, AmountOf(w.b.outbox[n - 1])) + toItself
    ensures BooksOf(v, Issued(v)).Balanced()
  {
    hide InFlight, Issued, Local, AmountOf, Books.Balanced, Escrow;
    CreditLeavesFlight(w.b.outbox, w.creditedA, n);
    UnlockBalances(BooksOf(w, Issued(w)), AmountOf(w.b.outbox[n - 1]), toItself);
    BalancedUnitsAreIssued(v, Issued(w));
  }

  lemma BooksAfterMint(w: World, v: World, n: int)
    requires OnlyB(w, v) && BooksOf(w, Issued(w)).Balanced()
    requires v.b.outbox == w.b.outbox && 1 <= n <= |w.a.outbox| && n !in w.creditedB
    requires v.creditedB == w.creditedB + {n} && v.burned == w.burned
    requires v.b.token.supply == w.b.token.supply + Local(w.b.oft.rate, AmountOf(w.a.outbox[n - 1]))
    ensures BooksOf(v, Issued(v)).Balanced()
  {
    hide InFlight, Issued, Local, AmountOf, Books.Balanced, Escrow;
    CreditLeavesFlight(w.a.outbox, w.creditedB, n);
    MintBalances(BooksOf(w, Issued(w)), AmountOf(w.a.outbox[n - 1]));
    BalancedUnitsAreIssued(v, Issued(w) + AmountOf(w.a.outbox[n - 1]));
  }

  lemma BooksAfterGift(w: World, v: World)
    requires OnlyA(w, v) && BooksOf(w, Issued(w)).Balanced()
    requires v.a.outbox == w.a.outbox && v.creditedA == w.creditedA
    requires v.donated - w.donated == Escrow(v.a) - Escrow(w.a) >= 0
    ensures BooksOf(v, Issued(v)).Balanced()
  {
    hide InFlight, Issued, Escrow;
    BalancedUnitsAreIssued(v, Issued(w));
  }

  lemma BooksAfterDestroy(w: World, v: World)
    requires OnlyB(w, v) && BooksOf(w, Issued(w)).Balanced()
    requires v.b.outbox == w.b.outbox && v.creditedB == w.creditedB
    requires v.b.token.supply + v.burned == w.b.token.supply + w.burned
    ensures BooksOf(v, Issued(v)).Balanced()
  {
    hide InFlight, Issued, Escrow;
    BalancedUnitsAreIssued(v, Issued(w));
  }

  lemma SendOnA(w: World, action: Action)
    requires WorldInv(w) && action.Send? && ValidFee(action.fee) && SideStep(w.a, action).Ok?
    ensures SideStep(w.a, action).value.oft == w.a.oft
    ensures WorldInv(AfterA(w, action, SideStep(w.a, action).value))
  {
    SendEffect(w.a, action);
    var v := AfterA(w, action, SideStep(w.a, action).value);
    var message := v.a.outbox[|w.a.outbox|];
    hide SideStep, Local, Issued, Sound, Delivery, BooksOf, Escrow, AmountOf;
    SendKeepsDelivery(w.b.channel, w.a.outbox, w.creditedB, message);
    assert w.creditedA + NewlyCredited(action) == w.creditedA;
    BooksAfterLock(w, v, message);
  }

  lemma SendOnB(w: World, action: Action)
    requires WorldInv(w) && action.Send? && ValidFee(action.fee) && SideStep(w.b, action).Ok?
    ensures SideStep(w.b, action).value.oft == w.b.oft
    ensures WorldInv(AfterB(w, action, SideStep(w.b, action).value))
  {
    SendEffect(w.b, action);
    var v := AfterB(w, action, SideStep(w.b, action).value);
    var message := v.b.outbox[|w.b.outbox|];
    hide SideStep, Local, Issued, Sound, Delivery, BooksOf, AmountOf;
    SendKeepsDelivery(w.a.channel, w.b.outbox, w.creditedA, message);
    assert w.creditedB + NewlyCredited(action) == w.creditedB;
    BooksAfterBurn(w, v, message);
  }

  /** A receipt credits a message that was sent, and credits it for the first time. */
  lemma ReceiveKeepsDelivery(s: Side, outbox: seq<Sent>, credited: set<int>, action: Action)
    requires action.LzReceive? && s.oft.rate > 0 && Sound(s.token) && ValidFee(action.fee) && SideStep(s, action).Ok?
    requires Delivery(s.channel, outbox, credited)
    ensures Delivery(SideStep(s, action).value.channel, outbox, credited + NewlyCredited(action))
    ensures 1 <= action.nonce <= |outbox| && action.nonce !in credited
    ensures COMPOSE_MSG_OFFSET <= |action.message| && AmountOf(outbox[action.nonce - 1]) == AmountSd(action.message)
  {
    ReceiveEffect(s, action);
    hide SideStep, ClearSpec, Delivery, Sound;
    ClearedWasSent(s.channel, outbox, credited, action.nonce, action.guid, action.message);
    CreditKeepsDelivery(s.channel, outbox, credited, action.nonce, action.guid, action.message);
  }

  lemma ReceiveOnA(w: World, action: Action)
    requires WorldInv(w) && action.LzReceive? && ValidFee(action.fee) && SideStep(w.a, action).Ok?
    ensures SideStep(w.a, action).value.oft == w.a.oft
    ensures WorldInv(AfterA(w, action, SideStep(w.a, action).value))
  {
    hide SideStep, Local, Issued, Sound, Delivery, BooksOf, Escrow, AmountOf, AmountSd, ToItself, ClearSpec;
    ReceiveEffect(w.a, action);
    ReceiveKeepsDelivery(w.a, w.b.outbox, w.creditedA, action);
    var v := AfterA(w, action, SideStep(w.a, action).value);
    BooksAfterUnlock(w, v, action.nonce, ToItself(w.a, action));
  }

  lemma ReceiveOnB(w: World, action: Action)
    requires WorldInv(w) && action.LzReceive? && ValidFee(action.fee) && SideStep(w.b, action).Ok?
    ensures SideStep(w.b, action).value.oft == w.b.oft
    ensures WorldInv(AfterB(w, action, SideStep(w.b, action).value))
  {
    hide SideStep, Local, Issued, Sound, Delivery, BooksOf, Escrow, AmountOf, AmountSd, ClearSpec;
    ReceiveEffect(w.b, action);
    ReceiveKeepsDelivery(w.b, w.a.outbox, w.creditedB, action);
    var v := AfterB(w, action, SideStep(w.b, action).value);
    BooksAfterMint(w, v, action.nonce);
  }

  lemma OtherOnA(w: World, action: Action)
    requires WorldInv(w) && !action.Send? && !action.LzReceive? && Honest(w, OnA(action)) && SideStep(w.a, action).Ok?
    ensures SideStep(w.a, action).value.oft == w.a.oft
    ensures WorldInv(AfterA(w, action, SideStep(w.a, action).value))
  {
    hide SideStep, Issued, Sound, Delivery, BooksOf, Escrow, Step, IsSent;
    OtherEffect(w.a, action);
    if action.Inbound? {
      ChannelStepKeepsDelivery(w.a.channel, w.b.outbox, w.creditedA, action.instr);
    }
    assert w.creditedA + NewlyCredited(action) == w.creditedA;
    BooksAfterGift(w, AfterA(w, action, SideStep(w.a, action).value));
  }

  lemma OtherOnB(w: World, action: Action)
    requires WorldInv(w) && !action.Send? && !action.LzReceive? && Honest(w, OnB(action)) && SideStep(w.b, action).Ok?
    ensures SideStep(w.b, action).value.oft == w.b.oft
    ensures WorldInv(AfterB(w, action, SideStep(w.b, action).value))
  {
    hide SideStep, Issued, Sound, Delivery, BooksOf, Escrow, Step, IsSent;
    OtherEffect(w.b, action);
    if action.Inbound? {
      ChannelStepKeepsDelivery(w.b.channel, w.a.outbox, w.creditedB, action.instr);
    }
    assert w.creditedB + NewlyCredited(action) == w.creditedB;
    BooksAfterDestroy(w, AfterB(w, action, SideStep(w.b, action).value));
  }

  /** Every move keeps the books balanced. */
  lemma MoveConserves(w: World, m: Move)
    requires WorldInv(w) && Honest(w, m) && Next(w, m).Ok?
    ensures WorldInv(Next(w, m).value)
  {
    hide SideStep, Sound, Deliveries, BooksOf, AfterA, AfterB;
    match m
    case OnA(action) =>
      if action.Send? { SendOnA(w, action); }
      else if action.LzReceive? { ReceiveOnA(w, action); }
      else { OtherOnA(w, action); }
    case OnB(action) =>
      if action.Send? { SendOnB(w, action); }
      else if action.LzReceive? { ReceiveOnB(w, action); }
      else { OtherOnB(w, action); }
  }

  // ---------- over whole runs ----------

  ghost predicate Untouched(c: Channel) {
    c.window == Messaging.EMPTY_WINDOW && c.hashes.Keys == {}
  }

  /** Nothing sent, nothing issued; the escrow may hold a gift already. */
  ghost predicate Initial(w: World) {
    && Paired(w) && Sound(w.a.token) && Sound(w.b.token)
    && Untouched(w.a.channel) && Untouched(w.b.channel) && w.a.outbox == [] && w.b.outbox == []
    && w.creditedA == {} && w.creditedB == {}
    && w.b.token.supply == 0 && w.burned == 0 && w.donated == Escrow(w.a)
  }

  ghost predicate Accepted(w: World, m: Move, v: World) {
    Paired(w) && Honest(w, m) && Next(w, m) == Ok(v)
  }

  ghost predicate Run(states: seq<World>, moves: seq<Move>) {
    && |states| == |moves| + 1 && Initial(states[0])
    && forall k {:trigger moves[k]} | 0 <= k < |moves| :: Accepted(states[k], moves[k], states[k + 1])
  }

  /** The statement of conservation: what the escrow holds, gifts aside, and what circulates on B are whole
      numbers of shared units, and they differ by exactly the messages under way. */
  ghost predicate Conserved(w: World) {
    && Paired(w) && 0 <= w.donated <= Escrow(w.a)
    && (Escrow(w.a) - w.donated) % w.a.oft.rate == 0
    && (w.b.token.supply + w.burned) % w.b.oft.rate == 0
    && (Escrow(w.a) - w.donated) / w.a.oft.rate
       == (w.b.token.supply + w.burned) / w.b.oft.rate
          + InFlight(w.a.outbox, w.creditedB) + InFlight(w.b.outbox, w.creditedA)
  }

  lemma InitialIsBalanced(w: World)
    requires Initial(w)
    ensures WorldInv(w)
  {
    hide Sound, BalanceOf;
    assert w.a.channel.hashes == map[] && w.b.channel.hashes == map[];
    assert Inv(NEW_CHANNEL);
    BalancedUnitsAreIssued(w, 0);
  }

  lemma AcceptedConserves(w: World, m: Move, v: World)
    requires WorldInv(w) && Accepted(w, m, v)
    ensures WorldInv(v)
  {
    hide WorldInv, Next;
    MoveConserves(w, m);
  }

  lemma {:induction false} Reachable(states: seq<World>, moves: seq<Move>, k: nat)
    requires Run(states, moves) && k < |states|
    ensures WorldInv(states[k])
  {
    hide WorldInv, Accepted, Initial;
    if k == 0 {
      InitialIsBalanced(states[0]);
    } else {
      Reachable(states, moves, k - 1);
      assert Accepted(states[k - 1], moves[k - 1], states[k]);
      AcceptedConserves(states[k - 1], moves[k - 1], states[k]);
    }
  }

  lemma BalancedMeansConserved(w: World)
    requires WorldInv(w)
    ensures Conserved(w)
  {
    var total := Issued(w) + InFlight(w.a.outbox, w.creditedB) + InFlight(w.b.outbox, w.creditedA);
    QuotientOfMultiple(w.a.oft.rate, total);
    QuotientOfMultiple(w.b.oft.rate, Issued(w));
    hide Sound, Deliveries, InFlight, BalanceOf;
    MultiplesLieApart(w.a.oft.rate, 0, total);
    assert Escrow(w.a) - w.donated == w.a.oft.rate * total;
  }

  /** Conservation over every run: whatever is done on the two chains, in whatever order. */
  lemma EscrowBacksSupply(states: seq<World>, moves: seq<Move>, k: nat)
    requires Run(states, moves) && k < |states|
    ensures Conserved(states[k])
  {
    hide WorldInv, Run, Conserved;
    Reachable(states, moves, k);
    BalancedMeansConserved(states[k]);
  }

  // ---------- each message is credited once ----------

  ghost function CreditedOn(w: World, a: bool): set<int> {
    if a then w.creditedA else w.creditedB
  }

  lemma AcceptedCredits(w: World, m: Move, v: World, a: bool)
    requires Accepted(w, m, v)
    ensures CreditedOn(w, a) <= CreditedOn(v, a)
    ensures m.action.LzReceive? && m.OnA? == a ==> m.action.nonce as int in CreditedOn(v, a)
  {
    hide SideStep;
  }

  lemma AcceptedIsFresh(w: World, m: Move, v: World)
    requires WorldInv(w) && Accepted(w, m, v) && m.action.LzReceive?
    ensures m.action.nonce as int !in CreditedOn(w, m.OnA?)
  {
    hide SideStep, Delivery, Sound, BooksOf;
    if m.OnA? {
      ReceiveKeepsDelivery(w.a, w.b.outbox, w.creditedA, m.action);
    } else {
      ReceiveKeepsDelivery(w.b, w.a.outbox, w.creditedB, m.action);
    }
  }

  lemma {:induction false} CreditedStays(states: seq<World>, moves: seq<Move>, i: nat, j: nat, a: bool)
    requires Run(states, moves) && i <= j < |states|
    ensures CreditedOn(states[i], a) <= CreditedOn(states[j], a)
    decreases j
  {
    hide Accepted, Initial;
    if i < j {
      CreditedStays(states, moves, i, j - 1, a);
      assert Accepted(states[j - 1], moves[j - 1], states[j]);
      AcceptedCredits(states[j - 1], moves[j - 1], states[j], a);
    }
  }

  /** No message is credited twice, on either chain. */
  lemma CreditedOnce(states: seq<World>, moves: seq<Move>, i: nat, j: nat)
    requires Run(states, moves) && i < j < |moves|
    requires moves[i].action.LzReceive? && moves[j].action.LzReceive? && moves[i].OnA? == moves[j].OnA?
    ensures moves[i].action.nonce != moves[j].action.nonce
  {
    hide Accepted, Initial, WorldInv, CreditedOn;
    Reachable(states, moves, j);
    CreditedStays(states, moves, i + 1, j, moves[j].OnA?);
    assert Accepted(states[i], moves[i], states[i + 1]) && Accepted(states[j], moves[j], states[j + 1]);
    AcceptedCredits(states[i], moves[i], states[i + 1], moves[j].OnA?);
    AcceptedIsFresh(states[j], moves[j], states[j + 1]);
  }

  // ---------- a message that clears is paid ----------

  lemma FlightHolds(outbox: seq<Sent>, credited: set<int>, n: int)
    requires 1 <= n <= |outbox| && n !in credited
    ensures AmountOf(outbox[n - 1]) <= InFlight(outbox, credited)
  {
  }

  lemma ClearedIsInFlight(c: Channel, outbox: seq<Sent>, credited: set<int>, n: u64, guid: Bytes32, message: seq<byte>)
    requires Delivery(c, outbox, credited) && ClearSpec(c, n, guid, message).Ok?
    ensures COMPOSE_MSG_OFFSET <= |message| && AmountSd(message) <= InFlight(outbox, credited)
  {
    ClearedWasSent(c, outbox, credited, n, guid, message);
    FlightHolds(outbox, credited, n);
    assert outbox[n - 1] in outbox;
  }

  lemma UnlockIsAffordable(w: World, nonce: u64, guid: Bytes32, message: seq<byte>)
    requires WorldInv(w) && ClearSpec(w.a.channel, nonce, guid, message).Ok?
    ensures COMPOSE_MSG_OFFSET <= |message| && 0 <= AmountSd(message) * w.a.oft.rate <= Escrow(w.a)
  {
    ClearedIsInFlight(w.a.channel, w.b.outbox, w.creditedA, nonce, guid, message);
    hide Delivery, Sound, InFlight, BalanceOf, Issued, ClearSpec, Books.Balanced, Local, AmountSd;
    UnlockBalances(BooksOf(w, Issued(w)), AmountSd(message), 0);
  }

  lemma MintIsAffordable(w: World, nonce: u64, guid: Bytes32, message: seq<byte>)
    requires WorldInv(w) && ClearSpec(w.b.channel, nonce, guid, message).Ok?
    ensures COMPOSE_MSG_OFFSET <= |message| && 0 <= AmountSd(message) * w.b.oft.rate
    ensures w.b.oft.rate <= w.a.oft.rate ==> w.b.token.supply + AmountSd(message) * w.b.oft.rate <= U64_MAX
  {
    hide Delivery, Sound, InFlight, BalanceOf, Issued, ClearSpec, Books.Balanced, AmountSd;
    ClearedIsInFlight(w.b.channel, w.a.outbox, w.creditedB, nonce, guid, message);
    ProductIsNat(AmountSd(message), w.b.oft.rate);
    SmallerRateFits(BooksOf(w, Issued(w)), AmountSd(message));
  }

  lemma SmallerRateFits(b: Books, x: nat)
    requires b.Balanced() && x <= b.toB && 0 <= b.burned && b.escrow <= U64_MAX
    ensures b.rateB <= b.rateA ==> b.supply + x * b.rateB <= U64_MAX
  {
    var total := b.units + b.toB + b.toA;
    MultiplesLieApart(b.rateB, b.units + x, total);
    if b.rateB <= b.rateA {
      TimesKeepsOrder(b.rateB, b.rateA, total);
    }
    Distributes(b.rateB, b.units, x);
    Commutes(b.rateB, x);
  }

  /** On A the unlock neither overflows nor exceeds the escrow: once the message clears, only the rate
      limiter's own arithmetic can fail. */
  lemma UnlockSucceeds(w: World, nonce: u64, guid: Bytes32, message: seq<byte>, fee: MintFee, now: int)
    requires WorldInv(w) && ValidFee(fee) && ClearSpec(w.a.channel, nonce, guid, message).Ok?
    ensures COMPOSE_MSG_OFFSET <= |message|
    ensures var amountLd := Sd2Ld(w.a.oft, AmountSd(message));
            && amountLd.Ok? && amountLd.value <= Escrow(w.a)
            && Credit(w.a.oft, w.a.token, fee, SendTo(message), amountLd.value).Ok?
            && (LzReceiveSpec(w.a, nonce, guid, message, fee, now).Ok? <==>
                LimitReceive(w.a.limiter, PostFee(w.a.oft, fee, amountLd.value).value, now).Ok?)
  {
    UnlockIsAffordable(w, nonce, guid, message);
    hide Deliveries, Sound, BooksOf, Issued, ClearSpec, LimitReceive, Transfer, Fees.PostFeeAmount;
    var amountLd := AmountSd(message) * w.a.oft.rate;
    TransferIsSound(w.a.token, fee, w.a.oft.kind.escrow, Associated(SendTo(message)), amountLd);
  }

  /** On B the mint fails exactly if the supply would leave the u64 range; with a rate no larger than A's
      it never does. */
  lemma MintSucceedsWithinU64(w: World, nonce: u64, guid: Bytes32, message: seq<byte>, fee: MintFee, now: int)
    requires WorldInv(w) && ClearSpec(w.b.channel, nonce, guid, message).Ok?
    ensures COMPOSE_MSG_OFFSET <= |message| && 0 <= AmountSd(message) * w.b.oft.rate
    ensures var amountLd := AmountSd(message) * w.b.oft.rate;
            var fits := w.b.token.supply + amountLd <= U64_MAX;
            && (w.b.oft.rate <= w.a.oft.rate ==> fits)
            && (LzReceiveSpec(w.b, nonce, guid, message, fee, now).Ok? <==> fits && LimitReceive(w.b.limiter, amountLd, now).Ok?)
  {
    MintIsAffordable(w, nonce, guid, message);
    hide Deliveries, Sound, BooksOf, Issued, ClearSpec, LimitReceive, Mint;
    var amountLd := AmountSd(message) * w.b.oft.rate;
    if amountLd <= U64_MAX {
      MintIsSound(w.b.token, Associated(SendTo(message)), amountLd);
    }
  }

  // ---------- the condition on the rates is needed ----------

  /** A holder on A, whose rate is 1, sends `amount`, and the message is verified on B, whose rate is
      `amount` as well. */
  datatype Lockup = Lockup(amount: u64, guid: Bytes32) {
    function Message(): seq<byte> {
      EncodeTransfer(guid, amount, guid, None)
    }

    function Moves(): seq<Move> {
      [OnA(Send(SendParams(Standalone(1), guid, guid, amount, 0, None, guid), None, 0)),
       OnB(Inbound(InitVerify(1))),
       OnB(Inbound(Verify(1, Keccak(guid + Message()))))]
    }

    function SideA(token: Token, outbox: seq<Sent>): Side {
      Side(OftConfig(1, Adapter(Standalone(0))), token, None, NEW_CHANNEL, outbox)
    }

    function SideB(channel: Channel): Side {
      Side(OftConfig(amount, Native), Token(map[], 0, 0), None, channel, [])
    }

    function Before(): Token {
      Token(map[Standalone(1) := amount], 0, amount)
    }

    function Locked(): Side {
      SideA(Token(map[Standalone(1) := 0, Standalone(0) := amount], 0, amount), [Sent(guid, Message())])
    }

    function States(): seq<World> {
      [World(SideA(Before(), []), SideB(NEW_CHANNEL), {}, {}, 0, 0),
       World(Locked(), SideB(NEW_CHANNEL), {}, {}, 0, 0),
       World(Locked(), SideB(Channel(Messaging.EMPTY_WINDOW, map[1 := Empty])), {}, {}, 0, 0),
       World(Locked(), SideB(Channel(Messaging.Window(1, []), map[1 := Keccak(guid + Message())])), {}, {}, 0, 0)]
    }
  }

  lemma SendLocks(l: Lockup)
    requires l.amount > 0
    ensures Accepted(l.States()[0], l.Moves()[0], l.States()[1])
  {
    var s := l.SideA(l.Before(), []);
    var oft := s.oft;
    assert RemoveDust(oft, l.amount) == l.amount && Ld2Sd(oft, l.amount) == l.amount;
    assert QuoteAmounts(oft, None, l.amount, 0) == Ok(Amounts(l.amount, l.amount));
    hide EncodeTransfer, RemoveDust, Ld2Sd, QuoteAmounts;
    assert SideStep(s, l.Moves()[0].action) == Ok(l.Locked()) by {
      assert l.Before().balances[Standalone(1) := 0][Standalone(0) := l.amount] == l.Locked().token.balances;
      assert [] + [Sent(l.guid, l.Message())] == l.Locked().outbox;
    }
    hide SideStep;
    assert {} + NewlyCredited(l.Moves()[0].action) == {};
  }

  lemma InitialisedOnB(l: Lockup)
    requires l.amount > 0
    ensures Accepted(l.States()[1], l.Moves()[1], l.States()[2])
  {
    hide Step, EncodeTransfer;
    FirstMessage(Keccak(l.guid + l.Message()));
    assert {} + NewlyCredited(l.Moves()[1].action) == {};
  }

  lemma VerifiedOnB(l: Lockup)
    requires l.amount > 0
    ensures Accepted(l.States()[2], l.Moves()[2], l.States()[3])
  {
    hide Step, EncodeTransfer;
    FirstMessage(Keccak(l.guid + l.Message()));
    assert {} + NewlyCredited(l.Moves()[2].action) == {};
  }

  lemma LockupIsStuck(l: Lockup, fee: MintFee, now: int)
    requires l.amount * l.amount > U64_MAX
    ensures var b := l.States()[3].b;
            && ClearSpec(b.channel, 1, l.guid, l.Message()).Ok?
            && LzReceiveSpec(b, 1, l.guid, l.Message(), fee, now) == Err(Abort)
  {
    TransferRoundTrip(l.guid, l.amount, l.guid, None);
    hide EncodeTransfer, AmountSd, PostFee, Credit, LimitReceive, Lockup.Locked;
  }

  lemma LockupBegins(l: Lockup)
    requires l.amount > 0
    ensures Initial(l.States()[0])
  {
    hide Total;
    TotalOfUpdate(map[], Standalone(1), l.amount);
    assert map[][Standalone(1) := l.amount] == l.Before().balances;
    NobodyHolds();
  }

  lemma NobodyHolds()
    ensures Total(map[]) == 0
  {
  }

  /** A run that honest parties can make, at whose end the message clears but can never be minted: its value
      on B is no u64. */
  lemma MintCanOverflow(l: Lockup, fee: MintFee, now: int)
    requires 0x1_0000_0000 <= l.amount
    ensures Run(l.States(), l.Moves())
    ensures var b := l.States()[3].b;
            && ClearSpec(b.channel, 1, l.guid, l.Message()).Ok?
            && LzReceiveSpec(b, 1, l.guid, l.Message(), fee, now) == Err(Abort)
  {
    LockupRuns(l);
    hide Lockup.Locked, Lockup.Message, Run, ClearSpec, LzReceiveSpec;
    TimesKeepsOrder(0x1_0000_0000, l.amount, l.amount);
    LockupIsStuck(l, fee, now);
  }

  lemma LockupRuns(l: Lockup)
    requires l.amount > 0
    ensures Run(l.States(), l.Moves())
  {
    hide Accepted, Initial, Lockup.Locked, Lockup.Message, Lockup.SideA, Lockup.SideB;
    LockupBegins(l);
    SendLocks(l);
    InitialisedOnB(l);
    VerifiedOnB(l);
  }
}
