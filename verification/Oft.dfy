/** The omnichain token: `send` locks or burns tokens and sends a message in shared decimals,
    `lz_receive` clears a delivered message and unlocks or mints. */
module Oft {
  import opened Arithmetic
  import opened Common
  import opened PacketCodec
  import opened OftMessages
  import opened Tokens
  import opened TokenBucket
  import opened EndpointChannel
  import Messaging = MessagingChannel
  import Fees = TransferFee

  /** An adapter locks an existing token in an escrow account; a native token is burned and minted. */
  datatype Kind = Native | Adapter(escrow: Account)

  /** `rate` local units make one shared unit. */
  datatype OftConfig = OftConfig(rate: u64, kind: Kind)

  /** `init`: ten to the number of decimals that the peer chains do not share. */
  function Rate(decimals: u8, sharedDecimals: u8): (r: Result<u64>)
    ensures r.Ok? ==> r.value > 0
    ensures r.Ok? <==> sharedDecimals <= decimals && Pow10(decimals - sharedDecimals) <= U64_MAX
  {
    var _ :- Require(sharedDecimals <= decimals, InvalidDecimals);
    var power := Pow10(decimals - sharedDecimals);
    var _ :- Require(power <= U64_MAX, Abort);
    Ok(power)
  }

  function Pow10(n: nat): (p: nat)
    ensures p >= 1
  {
    if n == 0 then 1 else 10 * Pow10(n - 1)
  }

  /** One for no decimals of its own, and ten times as much for every decimal more. */
  lemma RateCountsDecimals(decimals: u8, sharedDecimals: u8)
    ensures Rate(sharedDecimals, sharedDecimals) == Ok(1)
    ensures sharedDecimals <= decimals < 0xFF && Rate(decimals + 1, sharedDecimals).Ok? ==>
              && Rate(decimals, sharedDecimals).Ok?
              && Rate(decimals + 1, sharedDecimals).value == 10 * Rate(decimals, sharedDecimals).value
  {
  }

  function RemoveDust(oft: OftConfig, amountLd: u64): u64
    requires oft.rate > 0
  {
    amountLd - amountLd % oft.rate
  }

  function Ld2Sd(oft: OftConfig, amountLd: u64): u64
    requires oft.rate > 0
  {
    amountLd / oft.rate
  }

  function Sd2Ld(oft: OftConfig, amountSd: u64): Result<u64> {
    var _ :- Require(0 <= amountSd * oft.rate <= U64_MAX, Abort);
    Ok(amountSd * oft.rate)
  }

  function PostFee(oft: OftConfig, fee: MintFee, amountLd: u64): Result<u64> {
    if oft.kind.Native? || fee == None then Ok(amountLd)
    else
      var post := Fees.PostFeeAmount(fee.value, amountLd);
      if post.Some? then Ok(post.value) else Err(InvalidArgument)
  }

  function PreFee(oft: OftConfig, fee: MintFee, amountLd: u64): Result<u64> {
    if oft.kind.Native? || fee == None then Ok(amountLd)
    else
      var pre := Fees.PreFeeAmount(fee.value, amountLd);
      if pre.Some? then Ok(pre.value) else Err(InvalidArgument)
  }

  datatype Amounts = Amounts(sentLd: u64, receivedLd: u64)

  /** What `quote_oft` shows and `send` uses: the dedusted amount that arrives, and the least amount to
      send so that it does. */
  function QuoteAmounts(oft: OftConfig, fee: MintFee, amountLd: u64, minAmountLd: u64): Result<Amounts>
    requires oft.rate > 0
  {
    var post :- PostFee(oft, fee, amountLd);
    var receivedLd := RemoveDust(oft, post);
    var _ :- Require(receivedLd >= minAmountLd, SlippageExceeded);
    var sentLd :- PreFee(oft, fee, receivedLd);
    Ok(Amounts(sentLd, receivedLd))
  }

  lemma DustIsLessThanRate(oft: OftConfig, amountLd: u64)
    requires oft.rate > 0
    ensures var r := RemoveDust(oft, amountLd);
            && r == oft.rate * Ld2Sd(oft, amountLd) && r <= amountLd < r + oft.rate
            && Ld2Sd(oft, r) == Ld2Sd(oft, amountLd) && Sd2Ld(oft, Ld2Sd(oft, r)) == Ok(r)
  {
    var q := Ld2Sd(oft, amountLd);
    assert amountLd == oft.rate * q + amountLd % oft.rate;
    QuotientOfMultiple(oft.rate, q);
    Commutes(oft.rate, q);
  }

  /** The multiples of the rate up to an amount are those up to its dedusted value. */
  lemma DedustedIsLargestMultiple(oft: OftConfig, amountLd: u64, m: nat)
    requires oft.rate > 0 && oft.rate * m <= amountLd
    ensures oft.rate * m <= RemoveDust(oft, amountLd)
  {
    DustIsLessThanRate(oft, amountLd);
    var q := Ld2Sd(oft, amountLd);
    hide RemoveDust, Ld2Sd;
    MultiplesLieApart(oft.rate, q, m);
    MultiplesLieApart(oft.rate, m, q);
  }

  /** A sender never pays more than they offered, the peer can express what arrives without dust, and
      exactly that arrives.  The inverse fee never fails here: the one reason to refuse is slippage. */
  lemma QuoteIsTight(oft: OftConfig, fee: MintFee, amountLd: u64, minAmountLd: u64)
    requires oft.rate > 0 && ValidFee(fee)
    ensures var q := QuoteAmounts(oft, fee, amountLd, minAmountLd);
            var largest := RemoveDust(oft, PostFee(oft, fee, amountLd).value);
            && (q.Ok? <==> minAmountLd <= largest)
            && (q.Err? ==> q.error == SlippageExceeded)
            && (q.Ok? ==> && minAmountLd <= q.value.receivedLd == largest <= q.value.sentLd <= amountLd
                          && PostFee(oft, fee, q.value.sentLd) == Ok(q.value.receivedLd)
                          && Sd2Ld(oft, Ld2Sd(oft, q.value.receivedLd)) == Ok(q.value.receivedLd))
  {
    var post := PostFee(oft, fee, amountLd).value;
    DustIsLessThanRate(oft, post);
    var receivedLd := RemoveDust(oft, post);
    hide RemoveDust, Ld2Sd, Sd2Ld, Fees.PreFeeAmount, Fees.PostFeeAmount;
    if fee.Some? && oft.kind.Adapter? {
      Fees.PreFeeWithinAmount(fee.value, amountLd, receivedLd);
      Fees.PreFeeArrivesExactly(fee.value, receivedLd);
    }
  }

  /** Nobody can do better: no offer up to `amountLd` lets a larger whole number of shared units arrive,
      and no smaller offer lets this many arrive. */
  lemma QuoteIsOptimal(oft: OftConfig, fee: MintFee, amountLd: u64, minAmountLd: u64, other: u64, units: u64)
    requires oft.rate > 0 && ValidFee(fee) && QuoteAmounts(oft, fee, amountLd, minAmountLd).Ok?
    requires oft.rate * units <= PostFee(oft, fee, other).value
    ensures var q := QuoteAmounts(oft, fee, amountLd, minAmountLd).value;
            && (other <= amountLd ==> oft.rate * units <= q.receivedLd)
            && (q.receivedLd <= oft.rate * units ==> q.sentLd <= other)
  {
    QuoteIsTight(oft, fee, amountLd, minAmountLd);
    var q := QuoteAmounts(oft, fee, amountLd, minAmountLd).value;
    var post := PostFee(oft, fee, amountLd).value;
    hide RemoveDust, Ld2Sd, Sd2Ld, QuoteAmounts, Fees.PreFeeAmount, Fees.PostFeeAmount;
    if other <= amountLd {
      PostFeeMonotone(oft, fee, other, amountLd);
      DedustedIsLargestMultiple(oft, post, units);
    }
    if q.receivedLd <= oft.rate * units && fee.Some? && oft.kind.Adapter? {
      Fees.GaloisConnection(fee.value, other, q.receivedLd);
      QuoteInverts(oft, fee, amountLd, minAmountLd);
    }
  }

  lemma QuoteInverts(oft: OftConfig, fee: MintFee, amountLd: u64, minAmountLd: u64)
    requires oft.rate > 0 && QuoteAmounts(oft, fee, amountLd, minAmountLd).Ok?
    ensures var q := QuoteAmounts(oft, fee, amountLd, minAmountLd).value;
            PreFee(oft, fee, q.receivedLd) == Ok(q.sentLd)
  {
  }

  lemma PostFeeMonotone(oft: OftConfig, fee: MintFee, less: u64, more: u64)
    requires ValidFee(fee) && less <= more
    ensures PostFee(oft, fee, less).value <= PostFee(oft, fee, more).value
  {
    if fee.Some? && oft.kind.Adapter? {
      Fees.GaloisConnection(fee.value, less, PostFee(oft, fee, less).value);
      Fees.GaloisConnection(fee.value, more, PostFee(oft, fee, less).value);
    }
  }

  // ---------- the two instructions ----------

  /** A message on its way to the peer; the endpoint numbers them from 1. */
  datatype Sent = Sent(guid: Bytes32, message: seq<byte>)

  /** One OFT and its peer's channel: the mint, the rate limiter, the inbound channel, what was sent. */
  datatype Side = Side(oft: OftConfig, token: Token, limiter: Option<Bucket>, channel: Channel, outbox: seq<Sent>)

  datatype SendParams = SendParams(source: Account, signer: Bytes32, to: Bytes32, amountLd: u64, minAmountLd: u64,
                                   composeMsg: Option<seq<byte>>, guid: Bytes32)

  function LimitSend(limiter: Option<Bucket>, amount: u64, now: int): Result<Option<Bucket>> {
    if limiter == None then Ok(None)
    else
      var b :- TryConsumeSpec(limiter.value, amount, now);
      Ok(Some(b))
  }

  function LimitReceive(limiter: Option<Bucket>, amount: u64, now: int): Result<Option<Bucket>> {
    if limiter == None then Ok(None)
    else
      var b :- RefillSpec(limiter.value, amount, now);
      Ok(Some(b))
  }

  /** The escrow's authority is the program, so no signer sends from it. */
  function Debit(oft: OftConfig, token: Token, fee: MintFee, source: Account, amount: u64): Result<Token> {
    match oft.kind
    case Native => Tokens.Burn(token, source, amount)
    case Adapter(escrow) =>
      var _ :- Require(source != escrow, Unauthorized);
      Transfer(token, fee, source, escrow, amount)
  }

  function Credit(oft: OftConfig, token: Token, fee: MintFee, to: Bytes32, amount: u64): Result<Token> {
    match oft.kind
    case Native => Mint(token, Associated(to), amount)
    case Adapter(escrow) => Transfer(token, fee, escrow, Associated(to), amount)
  }

  function SendSpec(s: Side, p: SendParams, fee: MintFee, now: int): Result<Side>
    requires s.oft.rate > 0
  {
    var q :- QuoteAmounts(s.oft, fee, p.amountLd, p.minAmountLd);
    var limiter :- LimitSend(s.limiter, q.sentLd, now);
    var token :- Debit(s.oft, s.token, fee, p.source, q.sentLd);
    var _ :- Require(|s.outbox| < U64_MAX, Abort);
    var message := EncodeTransfer(p.to, Ld2Sd(s.oft, q.receivedLd), p.signer, p.composeMsg);
    Ok(s.(token := token, limiter := limiter, outbox := s.outbox + [Sent(p.guid, message)]))
  }

  function LzReceiveSpec(s: Side, nonce: u64, guid: Bytes32, message: seq<byte>, fee: MintFee, now: int): Result<Side>
  {
    var _ :- Require(COMPOSE_MSG_OFFSET <= |message|, Abort);
    var channel :- ClearSpec(s.channel, nonce, guid, message);
    var amountLd :- Sd2Ld(s.oft, AmountSd(message));
    var receivedLd :- PostFee(s.oft, fee, amountLd);
    var token :- Credit(s.oft, s.token, fee, SendTo(message), amountLd);
    var limiter :- LimitReceive(s.limiter, receivedLd, now);
    Ok(s.(channel := channel, token := token, limiter := limiter))
  }

  // ---------- on the accounts ----------

  class OftAccounts {
    const oft: OftConfig
    const peer: Peer
    const channel: ChannelAccounts
    var token: Token
    var outbox: seq<Sent>

    constructor (oft: OftConfig, token: Token)
      ensures View() == Side(oft, token, None, NEW_CHANNEL, [])
      ensures fresh(peer) && fresh(channel) && fresh(channel.nonce) && fresh(channel.pendingInboundNonce)
    {
      this.oft := oft;
      this.token := token;
      peer := new Peer();
      channel := new ChannelAccounts();
      outbox := [];
    }

    ghost function View(): Side
      reads this, peer, peer.rateLimiter, channel, channel.nonce, channel.pendingInboundNonce
    {
      Side(oft, token, peer.View(), channel.View(), outbox)
    }

    method Send(p: SendParams, fee: MintFee, now: int) returns (r: Result<()>)
      requires oft.rate > 0
      modifies this`token, this`outbox, peer.rateLimiter
      ensures AtomicOutcome(SendSpec(old(View()), p, fee, now), r, View())
    {
      var post := PostFee(oft, fee, p.amountLd);
      if post.Err? {
        return Err(post.error);
      }
      var amountReceivedLd := RemoveDust(oft, post.value);
      if amountReceivedLd < p.minAmountLd {
        return Err(SlippageExceeded);
      }
      var pre := PreFee(oft, fee, amountReceivedLd);
      if pre.Err? {
        return Err(pre.error);
      }
      var amountSentLd := pre.value;
      if peer.rateLimiter != null {
        r := peer.rateLimiter.TryConsume(amountSentLd, now);
        if r.Err? {
          return;
        }
      }
      var debited := Debit(oft, token, fee, p.source, amountSentLd);
      if debited.Err? {
        return Err(debited.error);
      }
      token := debited.value;
      if |outbox| >= U64_MAX {
        return Err(Abort);
      }
      var amountSd := Ld2Sd(oft, amountReceivedLd);
      var message := OftMessages.Encode(p.to, amountSd, p.signer, p.composeMsg);
      outbox := outbox + [Sent(p.guid, message)];
      return Ok(());
    }

    method LzReceive(nonce: u64, guid: Bytes32, message: seq<byte>, fee: MintFee, now: int) returns (r: Result<()>)
      modifies this`token, channel, peer.rateLimiter
      ensures AtomicOutcome(LzReceiveSpec(old(View()), nonce, guid, message, fee, now), r, View())
    {
      if |message| < COMPOSE_MSG_OFFSET {
        return Err(Abort);
      }
      r := channel.Clear(nonce, guid, message);
      if r.Err? {
        return;
      }
      var amountSd := AmountSd(message);
      var amountLd := Sd2Ld(oft, amountSd);
      if amountLd.Err? {
        return Err(amountLd.error);
      }
      var amountReceivedLd := PostFee(oft, fee, amountLd.value);
      if amountReceivedLd.Err? {
        return Err(amountReceivedLd.error);
      }
      var credited := Credit(oft, token, fee, SendTo(message), amountLd.value);
      if credited.Err? {
        return Err(credited.error);
      }
      token := credited.value;
      if peer.rateLimiter != null {
        r := peer.rateLimiter.Refill(amountReceivedLd.value, now);
        if r.Err? {
          return;
        }
      }
      return Ok(());
    }
  }
}
