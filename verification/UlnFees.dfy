/** What a message costs and who is paid: the ULN quotes the executor, every DVN and the treasury, and
    `send` pays them in the same breath.  The workers' own prices are a function of what they are asked. */
module UlnFees {
  import opened Arithmetic
  import opened Common
  import opened PacketCodec
  import opened UlnConfiguration
  import opened Options
  import opened EndpointChannel

  const BPS_DENOMINATOR: u64 := 10_000
  const ACCOUNTS_PER_WORKER := 4

  datatype ExecutorConfig = ExecutorConfig(maxMessageSize: u32, executor: Pubkey)

  datatype SendConfig = SendConfig(uln: UlnConfig, executor: ExecutorConfig)

  datatype LzTokenTreasury = LzTokenTreasury(receiver: Pubkey, fee: u64)

  datatype Treasury = Treasury(nativeReceiver: Pubkey, nativeFeeBps: u64, lzToken: Option<LzTokenTreasury>)

  datatype WorkerAccount = WorkerAccount(key: Pubkey, owner: Pubkey, isSigner: bool)

  datatype WorkerFee = WorkerFee(worker: Pubkey, fee: u64)

  datatype MessagingFee = MessagingFee(nativeFee: u64, lzTokenFee: u64)

  /** What a worker is asked. */
  datatype Request =
    | ForExecutor(msglib: Pubkey, dstEid: u32, sender: Bytes32, calldataSize: nat,
                  options: seq<LzOption>, accounts: seq<WorkerAccount>)
    | ForDvn(msglib: Pubkey, dstEid: u32, sender: Bytes32, header: seq<byte>, payloadHash: Hash, confirmations: u64,
             options: seq<LzOption>, accounts: seq<WorkerAccount>)

  type Prices = Request -> Result<u64>

  /** The ULN's accounts; an uninitialised custom config reads as all zeros. */
  datatype Env = Env(prices: Prices, uln: Pubkey, defaultConfig: SendConfig, customConfig: SendConfig, treasury: Option<Treasury>)

  datatype Params = Params(packet: Packet, options: seq<byte>, accounts: seq<WorkerAccount>)

  // ---------- what each worker asks for ----------

  function ResolveExecutor(d: ExecutorConfig, c: ExecutorConfig): ExecutorConfig {
    ExecutorConfig(if c.maxMessageSize == 0 then d.maxMessageSize else c.maxMessageSize,
                   if c.executor == 0 then d.executor else c.executor)
  }

  predicate NoSigner(accounts: seq<WorkerAccount>) {
    forall a | a in accounts :: !a.isSigner
  }

  function QuoteExecutorSpec(env: Env, config: ExecutorConfig, packet: Packet, options: seq<LzOption>,
                            accounts: seq<WorkerAccount>)
    : Result<WorkerFee>
    requires |accounts| == ACCOUNTS_PER_WORKER
  {
    var _ :- Require(|packet.message| <= config.maxMessageSize, ExceededMaxMessageSize);
    var _ :- Require(NoSigner(accounts), NonSigner);
    var _ :- Require(accounts[0].key == accounts[1].owner, InvalidExecutorProgram);
    var _ :- Require(config.executor == accounts[1].key, InvalidExecutor);
    var fee :- env.prices(ForExecutor(env.uln, packet.dstEid, packet.sender, |packet.message|, options, accounts));
    Ok(WorkerFee(config.executor, fee))
  }

  function DvnCount(config: UlnConfig): nat {
    |config.requiredDvns| + |config.optionalDvns|
  }

  function DvnAt(config: UlnConfig, i: nat): Pubkey
    requires i < DvnCount(config)
  {
    if i < |config.requiredDvns| then config.requiredDvns[i] else config.optionalDvns[i - |config.requiredDvns|]
  }

  function Chunk(accounts: seq<WorkerAccount>, i: nat): (chunk: seq<WorkerAccount>)
    requires ACCOUNTS_PER_WORKER * (i + 1) <= |accounts|
    ensures |chunk| == ACCOUNTS_PER_WORKER
  {
    accounts[ACCOUNTS_PER_WORKER * i..ACCOUNTS_PER_WORKER * (i + 1)]
  }

  function DvnFeeAt(env: Env, config: UlnConfig, packet: Packet, options: map<byte, seq<LzOption>>,
                    accounts: seq<WorkerAccount>, i: nat)
    : Result<WorkerFee>
    requires i < DvnCount(config) && |accounts| == ACCOUNTS_PER_WORKER * DvnCount(config)
  {
    var chunk := Chunk(accounts, i);
    var _ :- Require(chunk[0].key == chunk[1].owner, InvalidDvnProgram);
    var _ :- Require(DvnAt(config, i) == chunk[1].key, InvalidDvn);
    var fee :- env.prices(ForDvn(env.uln, packet.dstEid, packet.sender,
                                 EncodePacketHeader(packet.nonce, packet.srcEid, packet.sender, packet.dstEid, packet.receiver),
                                 HashPayload(packet.guid, packet.message), config.confirmations,
                                 ListAt(options, i % 0x100), chunk));
    Ok(WorkerFee(DvnAt(config, i), fee))
  }

  function DvnFeesFrom(env: Env, config: UlnConfig, packet: Packet, options: map<byte, seq<LzOption>>,
                       accounts: seq<WorkerAccount>, i: nat)
    : (r: Result<seq<WorkerFee>>)
    requires i <= DvnCount(config) && |accounts| == ACCOUNTS_PER_WORKER * DvnCount(config)
    ensures r.Ok? ==> |r.value| == DvnCount(config) - i
    decreases DvnCount(config) - i
  {
    if i == DvnCount(config) then Ok([])
    else
      var fee :- DvnFeeAt(env, config, packet, options, accounts, i);
      var rest :- DvnFeesFrom(env, config, packet, options, accounts, i + 1);
      Ok([fee] + rest)
  }

  function QuoteDvnsSpec(env: Env, config: UlnConfig, packet: Packet, options: map<byte, seq<LzOption>>,
                         accounts: seq<WorkerAccount>)
    : (r: Result<seq<WorkerFee>>)
    ensures r.Ok? ==> |r.value| == DvnCount(config) && |accounts| == ACCOUNTS_PER_WORKER * DvnCount(config)
  {
    var _ :- Require(|accounts| == ACCOUNTS_PER_WORKER * DvnCount(config), InvalidAccountLength);
    var _ :- Require(NoSigner(accounts), NonSigner);
    DvnFeesFrom(env, config, packet, options, accounts, 0)
  }

  function FeeSum(fees: seq<WorkerFee>): nat {
    if fees == [] then 0 else FeeSum(fees[..|fees| - 1]) + fees[|fees| - 1].fee
  }

  function WorkerTotal(executor: WorkerFee, dvns: seq<WorkerFee>): Result<u64> {
    var total := executor.fee + FeeSum(dvns);
    var _ :- Require(total <= U64_MAX, Abort);
    Ok(total)
  }

  function QuoteTreasury(treasury: Treasury, workerFee: u64, payInLzToken: bool): Result<u64> {
    if payInLzToken then
      var _ :- Require(treasury.lzToken.Some?, LzTokenUnavailable);
      Ok(treasury.lzToken.value.fee)
    else
      var product := workerFee * treasury.nativeFeeBps;
      var _ :- Require(0 <= product <= U64_MAX, Abort);
      Ok(product / BPS_DENOMINATOR)
  }

  // ---------- the quote ----------

  /** The resolved configs and the decoded options: the common beginning of quote and send. */
  function Prepare(env: Env, p: Params): Result<(UlnConfig, ExecutorConfig, Decoded)> {
    var uln :- Resolve(env.defaultConfig.uln, env.customConfig.uln);
    var decoded :- DecodeSpec(p.options);
    var _ :- Require(ACCOUNTS_PER_WORKER <= |p.accounts|, Abort);
    Ok((uln, ResolveExecutor(env.defaultConfig.executor, env.customConfig.executor), decoded))
  }

  function QuoteSpec(env: Env, p: Params, payInLzToken: bool): Result<MessagingFee> {
    var (uln, executorConfig, decoded) :- Prepare(env, p);
    var executor :- QuoteExecutorSpec(env, executorConfig, p.packet, decoded.executor, p.accounts[..ACCOUNTS_PER_WORKER]);
    var dvns :- QuoteDvnsSpec(env, uln, p.packet, decoded.dvn, p.accounts[ACCOUNTS_PER_WORKER..]);
    var workerFee :- WorkerTotal(executor, dvns);
    if env.treasury == None then Ok(MessagingFee(workerFee, 0))
    else
      var treasuryFee :- QuoteTreasury(env.treasury.value, workerFee, payInLzToken);
      if payInLzToken then Ok(MessagingFee(workerFee, treasuryFee))
      else
        var _ :- Require(workerFee + treasuryFee <= U64_MAX, Abort);
        Ok(MessagingFee(workerFee + treasuryFee, 0))
  }

  // ---------- payments ----------

  type Balances = map<Pubkey, nat>

  datatype Payment = Payment(to: Pubkey, amount: u64)

  function BalanceAt(b: Balances, key: Pubkey): nat {
    if key in b then b[key] else 0
  }

  function Moved(b: Balances, from: Pubkey, to: Pubkey, amount: u64): Result<Balances> {
    var _ :- Require(amount <= BalanceAt(b, from), InsufficientFunds);
    var debited := b[from := BalanceAt(b, from) - amount];
    Ok(debited[to := BalanceAt(debited, to) + amount])
  }

  /** Pays one after the other; nothing is sent for a fee of zero. */
  function PayAll(b: Balances, payer: Pubkey, payments: seq<Payment>): Result<Balances>
    decreases |payments|
  {
    if payments == [] then Ok(b)
    else
      var front :- PayAll(b, payer, payments[..|payments| - 1]);
      var last := payments[|payments| - 1];
      if last.amount == 0 then Ok(front) else Moved(front, payer, last.to, last.amount)
  }

  function PaidTotal(payments: seq<Payment>): nat {
    if payments == [] then 0 else PaidTotal(payments[..|payments| - 1]) + payments[|payments| - 1].amount
  }

  function PaidTo(payments: seq<Payment>, key: Pubkey): nat {
    if payments == [] then 0
    else
      var last := payments[|payments| - 1];
      PaidTo(payments[..|payments| - 1], key) + if last.to == key then last.amount else 0
  }

  /** Every account ends up with exactly what it is due. */
  lemma {:induction false} PayAllEffect(b: Balances, payer: Pubkey, payments: seq<Payment>, key: Pubkey)
    requires PayAll(b, payer, payments).Ok?
    ensures BalanceAt(PayAll(b, payer, payments).value, key)
            == BalanceAt(b, key) + PaidTo(payments, key) - if key == payer then PaidTotal(payments) else 0
    decreases |payments|
  {
    if payments != [] {
      PayAllEffect(b, payer, payments[..|payments| - 1], key);
      PayAllEffect(b, payer, payments[..|payments| - 1], payer);
    }
  }

  lemma {:induction false} PayAllSucceeds(b: Balances, payer: Pubkey, payments: seq<Payment>)
    requires PaidTotal(payments) <= BalanceAt(b, payer)
    ensures PayAll(b, payer, payments).Ok?
    decreases |payments|
  {
    if payments != [] {
      var front := payments[..|payments| - 1];
      PayAllSucceeds(b, payer, front);
      PayAllEffect(b, payer, front, payer);
    }
  }

  lemma {:induction false} PayAllConcat(b: Balances, payer: Pubkey, one: seq<Payment>, two: seq<Payment>)
    ensures PayAll(b, payer, one + two) ==
            if PayAll(b, payer, one).Err? then PayAll(b, payer, one) else PayAll(PayAll(b, payer, one).value, payer, two)
    ensures PaidTotal(one + two) == PaidTotal(one) + PaidTotal(two)
    decreases |two|
  {
    if two == [] {
      assert one + two == one;
    } else {
      var front := two[..|two| - 1];
      assert (one + two)[..|one + two| - 1] == one + front;
      PayAllConcat(b, payer, one, front);
    }
  }

  // ---------- sending ----------

  datatype SendParams = SendParams(params: Params, payer: Pubkey, nativeFee: u64, lzTokenFee: u64,
                                   treasury: Option<Pubkey>, lzTokenSource: Pubkey, lzTokenTreasury: Pubkey)

  /** The fees as payments to the accounts that were passed. */
  function DvnPayments(accounts: seq<WorkerAccount>, fees: seq<WorkerFee>, n: nat): (r: seq<Payment>)
    requires |accounts| == ACCOUNTS_PER_WORKER * |fees| && n <= |fees|
    ensures |r| == n && forall k | 0 <= k < n :: r[k] == Payment(Chunk(accounts, k)[1].key, fees[k].fee)
  {
    if n == 0 then [] else DvnPayments(accounts, fees, n - 1) + [Payment(Chunk(accounts, n - 1)[1].key, fees[n - 1].fee)]
  }

  function AssignSpec(env: Env, b: Balances, payer: Pubkey, p: Params): Result<(Balances, WorkerFee, seq<WorkerFee>)> {
    var (uln, executorConfig, decoded) :- Prepare(env, p);
    var executor :- QuoteExecutorSpec(env, executorConfig, p.packet, decoded.executor, p.accounts[..ACCOUNTS_PER_WORKER]);
    var paid :- PayAll(b, payer, [Payment(p.accounts[1].key, executor.fee)]);
    var dvns :- QuoteDvnsSpec(env, uln, p.packet, decoded.dvn, p.accounts[ACCOUNTS_PER_WORKER..]);
    var after :- PayAll(paid, payer, DvnPayments(p.accounts[ACCOUNTS_PER_WORKER..], dvns, |dvns|));
    Ok((after, executor, dvns))
  }

  function SendSpec(env: Env, b: Balances, s: SendParams): Result<(Balances, MessagingFee)> {
    var (paid, executor, dvns) :- AssignSpec(env, b, s.payer, s.params);
    var workerFee :- WorkerTotal(executor, dvns);
    if env.treasury == None then
      var _ :- Require(s.nativeFee >= workerFee, InsufficientFee);
      Ok((paid, MessagingFee(workerFee, 0)))
    else
      var treasury := env.treasury.value;
      var fee :- QuoteTreasury(treasury, workerFee, false);
      var _ :- Require(s.treasury == Some(treasury.nativeReceiver), InvalidTreasury);
      var after :- PayAll(paid, s.payer, [Payment(treasury.nativeReceiver, fee)]);
      var _ :- Require(workerFee + fee <= U64_MAX, Abort);
      var _ :- Require(s.nativeFee >= workerFee + fee, InsufficientFee);
      Ok((after, MessagingFee(workerFee + fee, 0)))
  }

  /** Paying the treasury in LZ tokens: the second ledger holds token accounts. */
  function SendWithLzTokenSpec(env: Env, b: Balances, tokens: Balances,
                            s: SendParams): Result<(Balances, Balances, MessagingFee)> {
    var (paid, executor, dvns) :- AssignSpec(env, b, s.payer, s.params);
    var workerFee :- WorkerTotal(executor, dvns);
    var _ :- Require(s.nativeFee >= workerFee, InsufficientFee);
    var _ :- Require(env.treasury.Some?, LzTokenUnavailable);
    var fee :- QuoteTreasury(env.treasury.value, workerFee, true);
    var _ :- Require(s.lzTokenFee >= fee, InsufficientFee);
    var receiver := env.treasury.value.lzToken.value.receiver;
    var _ :- Require(receiver == s.lzTokenTreasury, InvalidTreasury);
    var after :- PayAll(tokens, s.lzTokenSource, [Payment(receiver, fee)]);
    Ok((paid, after, MessagingFee(workerFee, fee)))
  }

  // ---------- the programs ----------

  class Ledger {
    var balances: Balances

    method Transfer(from: Pubkey, to: Pubkey, amount: u64) returns (r: Result<()>)
      modifies this
      ensures Outcome(Moved(old(balances), from, to, amount), old(balances), r, balances)
    {
      if amount > BalanceAt(balances, from) {
        return Err(InsufficientFunds);
      }
      balances := balances[from := BalanceAt(balances, from) - amount];
      balances := balances[to := BalanceAt(balances, to) + amount];
      return Ok(());
    }
  }

  method QuoteDvns(env: Env, config: UlnConfig, packet: Packet, options: map<byte, seq<LzOption>>,
                   accounts: seq<WorkerAccount>)
    returns (r: Result<seq<WorkerFee>>)
    ensures r == QuoteDvnsSpec(env, config, packet, options, accounts)
  {
    if |accounts| != ACCOUNTS_PER_WORKER * DvnCount(config) {
      return Err(InvalidAccountLength);
    }
    if !NoSigner(accounts) {
      return Err(NonSigner);
    }
    hide DvnFeeAt, NoSigner;
    var fees: seq<WorkerFee> := [];
    var i := 0;
    ghost var all := DvnFeesFrom(env, config, packet, options, accounts, 0);
    NoFeesYet(all);
    while i < DvnCount(config)
      invariant 0 <= i <= DvnCount(config)
      invariant FeesBehind(all, fees, DvnFeesFrom(env, config, packet, options, accounts, i))
    {
      var fee := DvnFeeAt(env, config, packet, options, accounts, i);
      if fee.Err? {
        return Err(fee.error);
      }
      NextFee(all, fees, fee.value, DvnFeesFrom(env, config, packet, options, accounts, i + 1));
      fees := fees + [fee.value];
      i := i + 1;
    }
    assert fees + [] == fees;
    return Ok(fees);
  }

  ghost predicate FeesBehind(all: Result<seq<WorkerFee>>, fees: seq<WorkerFee>, rest: Result<seq<WorkerFee>>) {
    match rest
    case Ok(more) => all == Ok(fees + more)
    case Err(e) => all == Err(e)
  }

  lemma NoFeesYet(all: Result<seq<WorkerFee>>)
    ensures FeesBehind(all, [], all)
  {
    assert all.Ok? ==> [] + all.value == all.value;
  }

  lemma NextFee(all: Result<seq<WorkerFee>>, fees: seq<WorkerFee>, fee: WorkerFee, rest: Result<seq<WorkerFee>>)
    requires FeesBehind(all, fees, if rest.Ok? then Ok([fee] + rest.value) else rest)
    ensures FeesBehind(all, fees + [fee], rest)
  {
    assert rest.Ok? ==> fees + ([fee] + rest.value) == fees + [fee] + rest.value;
  }

  method Quote(env: Env, p: Params, payInLzToken: bool) returns (r: Result<MessagingFee>)
    ensures r == QuoteSpec(env, p, payInLzToken)
  {
    hide QuoteExecutorSpec, QuoteDvnsSpec, Prepare, WorkerTotal, QuoteTreasury;
    var prepared := Prepare(env, p);
    if prepared.Err? {
      return Err(prepared.error);
    }
    PreparedHasAccounts(env, p);
    var (uln, executorConfig, decoded) := prepared.value;
    var executor := QuoteExecutorSpec(env, executorConfig, p.packet, decoded.executor, p.accounts[..ACCOUNTS_PER_WORKER]);
    if executor.Err? {
      return Err(executor.error);
    }
    var dvns := QuoteDvns(env, uln, p.packet, decoded.dvn, p.accounts[ACCOUNTS_PER_WORKER..]);
    if dvns.Err? {
      return Err(dvns.error);
    }
    var workerFee := WorkerTotal(executor.value, dvns.value);
    if workerFee.Err? {
      return Err(workerFee.error);
    }
    if env.treasury == None {
      return Ok(MessagingFee(workerFee.value, 0));
    }
    var treasuryFee := QuoteTreasury(env.treasury.value, workerFee.value, payInLzToken);
    if treasuryFee.Err? {
      return Err(treasuryFee.error);
    }
    if payInLzToken {
      return Ok(MessagingFee(workerFee.value, treasuryFee.value));
    }
    if workerFee.value + treasuryFee.value > U64_MAX {
      return Err(Abort);
    }
    return Ok(MessagingFee(workerFee.value + treasuryFee.value, 0));
  }

  method AssignJobToWorkers(env: Env, payer: Pubkey, p: Params,
                            ledger: Ledger) returns (r: Result<(WorkerFee, seq<WorkerFee>)>)
    modifies ledger
    ensures match AssignSpec(env, old(ledger.balances), payer, p)
            case Ok(jobs) => r == Ok((jobs.1, jobs.2)) && ledger.balances == jobs.0
            case Err(e) => r == Err(e)
  {
    hide QuoteExecutorSpec, QuoteDvnsSpec, Prepare;
    var prepared := Prepare(env, p);
    if prepared.Err? {
      return Err(prepared.error);
    }
    PreparedHasAccounts(env, p);
    var (uln, executorConfig, decoded) := prepared.value;
    var executor := QuoteExecutorSpec(env, executorConfig, p.packet, decoded.executor, p.accounts[..ACCOUNTS_PER_WORKER]);
    if executor.Err? {
      return Err(executor.error);
    }
    PayOne(ledger.balances, payer, Payment(p.accounts[1].key, executor.value.fee));
    if executor.value.fee > 0 {
      var paid := ledger.Transfer(payer, p.accounts[1].key, executor.value.fee);
      if paid.Err? {
        return Err(paid.error);
      }
    }
    var dvnAccounts := p.accounts[ACCOUNTS_PER_WORKER..];
    var dvns := QuoteDvns(env, uln, p.packet, decoded.dvn, dvnAccounts);
    if dvns.Err? {
      return Err(dvns.error);
    }
    var fees := dvns.value;
    ghost var before, payments := ledger.balances, DvnPayments(dvnAccounts, fees, |fees|);
    var i := 0;
    while i < |fees|
      invariant 0 <= i <= |fees|
      invariant PayAll(before, payer, payments[..i]) == Ok(ledger.balances)
    {
      var to := Chunk(dvnAccounts, i)[1].key;
      PayNext(before, payer, payments, i);
      if fees[i].fee > 0 {
        var paid := ledger.Transfer(payer, to, fees[i].fee);
        if paid.Err? {
          return Err(paid.error);
        }
      }
      i := i + 1;
    }
    assert payments[..i] == payments;
    return Ok((executor.value, fees));
  }

  lemma PreparedHasAccounts(env: Env, p: Params)
    requires Prepare(env, p).Ok?
    ensures ACCOUNTS_PER_WORKER <= |p.accounts|
  {
  }

  lemma PayOne(b: Balances, payer: Pubkey, payment: Payment)
    ensures PayAll(b, payer, [payment]) == if payment.amount == 0 then Ok(b) else Moved(b, payer, payment.to, payment.amount)
    ensures PaidTotal([payment]) == payment.amount
  {
  }

  lemma PayNext(b: Balances, payer: Pubkey, payments: seq<Payment>, i: nat)
    requires i < |payments| && PayAll(b, payer, payments[..i]).Ok?
    ensures var so := PayAll(b, payer, payments[..i]).value;
            var step := if payments[i].amount == 0 then Ok(so) else Moved(so, payer, payments[i].to, payments[i].amount);
            && PayAll(b, payer, payments[..i + 1]) == step
            && (step.Err? ==> PayAll(b, payer, payments) == step)
  {
    assert payments[..i + 1][..i] == payments[..i];
    assert payments == payments[..i + 1] + payments[i + 1..];
    PayAllConcat(b, payer, payments[..i + 1], payments[i + 1..]);
  }

  method Send(env: Env, s: SendParams, ledger: Ledger) returns (r: Result<MessagingFee>)
    modifies ledger
    ensures match SendSpec(env, old(ledger.balances), s)
            case Ok(sent) => r == Ok(sent.1) && ledger.balances == sent.0
            case Err(e) => r == Err(e)
  {
    hide AssignSpec;
    var jobs := AssignJobToWorkers(env, s.payer, s.params, ledger);
    if jobs.Err? {
      return Err(jobs.error);
    }
    var workerFee := WorkerTotal(jobs.value.0, jobs.value.1);
    if workerFee.Err? {
      return Err(workerFee.error);
    }
    var totalFee: int := workerFee.value;
    if env.treasury.Some? {
      var treasury := env.treasury.value;
      var fee := QuoteTreasury(treasury, workerFee.value, false);
      if fee.Err? {
        return Err(fee.error);
      }
      if s.treasury != Some(treasury.nativeReceiver) {
        return Err(InvalidTreasury);
      }
      PayOne(ledger.balances, s.payer, Payment(treasury.nativeReceiver, fee.value));
      if fee.value > 0 {
        var paid := ledger.Transfer(s.payer, treasury.nativeReceiver, fee.value);
        if paid.Err? {
          return Err(paid.error);
        }
      }
      totalFee := totalFee + fee.value;
      if totalFee > U64_MAX {
        return Err(Abort);
      }
    }
    if s.nativeFee < totalFee {
      return Err(InsufficientFee);
    }
    return Ok(MessagingFee(totalFee, 0));
  }

  method SendWithLzToken(env: Env, s: SendParams, ledger: Ledger, tokens: Ledger) returns (r: Result<MessagingFee>)
    requires ledger != tokens
    modifies ledger, tokens
    ensures match SendWithLzTokenSpec(env, old(ledger.balances), old(tokens.balances), s)
            case Ok(sent) => r == Ok(sent.2) && ledger.balances == sent.0 && tokens.balances == sent.1
            case Err(e) => r == Err(e)
  {
    hide AssignSpec;
    var jobs := AssignJobToWorkers(env, s.payer, s.params, ledger);
    if jobs.Err? {
      return Err(jobs.error);
    }
    var workerFee := WorkerTotal(jobs.value.0, jobs.value.1);
    if workerFee.Err? {
      return Err(workerFee.error);
    }
    if s.nativeFee < workerFee.value {
      return Err(InsufficientFee);
    }
    if env.treasury == None {
      return Err(LzTokenUnavailable);
    }
    var fee := QuoteTreasury(env.treasury.value, workerFee.value, true);
    if fee.Err? {
      return Err(fee.error);
    }
    if s.lzTokenFee < fee.value {
      return Err(InsufficientFee);
    }
    var receiver := env.treasury.value.lzToken.value.receiver;
    if receiver != s.lzTokenTreasury {
      return Err(InvalidTreasury);
    }
    PayOne(tokens.balances, s.lzTokenSource, Payment(receiver, fee.value));
    if fee.value > 0 {
      var paid := tokens.Transfer(s.lzTokenSource, receiver, fee.value);
      if paid.Err? {
        return Err(paid.error);
      }
    }
    return Ok(MessagingFee(workerFee.value, fee.value));
  }

  // ---------- what is paid is what was quoted ----------

  /** The fees as payments to the workers of the resolved config. */
  function WorkerPayments(executor: WorkerFee, dvns: seq<WorkerFee>): seq<Payment> {
    [Payment(executor.worker, executor.fee)] + Payments(dvns)
  }

  function Payments(fees: seq<WorkerFee>): (r: seq<Payment>)
    ensures |r| == |fees| && forall k | 0 <= k < |fees| :: r[k] == Payment(fees[k].worker, fees[k].fee)
  {
    if fees == [] then []
    else
      var last := fees[|fees| - 1];
      Payments(fees[..|fees| - 1]) + [Payment(last.worker, last.fee)]
  }

  /** The executor's and the DVNs' fees, as both quote and send compute them. */
  function WorkerFees(env: Env, p: Params): Result<(WorkerFee, seq<WorkerFee>)> {
    var (uln, executorConfig, decoded) :- Prepare(env, p);
    var executor :- QuoteExecutorSpec(env, executorConfig, p.packet, decoded.executor, p.accounts[..ACCOUNTS_PER_WORKER]);
    var dvns :- QuoteDvnsSpec(env, uln, p.packet, decoded.dvn, p.accounts[ACCOUNTS_PER_WORKER..]);
    Ok((executor, dvns))
  }

  /** Everyone who is paid for a message in native tokens, and how much. */
  function Invoice(env: Env, p: Params): Result<seq<Payment>> {
    var (executor, dvns) :- WorkerFees(env, p);
    var workerFee :- WorkerTotal(executor, dvns);
    if env.treasury == None then Ok(WorkerPayments(executor, dvns))
    else
      var fee :- QuoteTreasury(env.treasury.value, workerFee, false);
      Ok(WorkerPayments(executor, dvns) + [Payment(env.treasury.value.nativeReceiver, fee)])
  }

  /** The fee of the k-th DVN names that DVN, and the account passed for it is its own. */
  lemma {:induction false} FeeNamesDvn(env: Env, config: UlnConfig, packet: Packet, options: map<byte, seq<LzOption>>,
                                       accounts: seq<WorkerAccount>, i: nat, k: nat)
    requires i <= k < DvnCount(config) && |accounts| == ACCOUNTS_PER_WORKER * DvnCount(config)
    requires DvnFeesFrom(env, config, packet, options, accounts, i).Ok?
    ensures DvnFeesFrom(env, config, packet, options, accounts, i).value[k - i].worker == DvnAt(config, k)
    ensures DvnAt(config, k) == Chunk(accounts, k)[1].key
    decreases k - i
  {
    if i == k {
      hide DvnAt, Chunk;
    } else {
      hide DvnFeeAt, DvnAt, Chunk;
      FeeNamesDvn(env, config, packet, options, accounts, i + 1, k);
    }
  }

  /** The workers of the invoice: the executor that the custom config names or else the default one, the DVNs of
      the resolved config in its order, required before optional, and the treasury. */
  lemma InvoiceNamesConfiguredWorkers(env: Env, p: Params)
    requires Invoice(env, p).Ok?
    ensures Resolve(env.defaultConfig.uln, env.customConfig.uln).Ok?
    ensures var uln := Resolve(env.defaultConfig.uln, env.customConfig.uln).value;
            var dvns := uln.requiredDvns + uln.optionalDvns;
            var executor, otherwise := env.customConfig.executor.executor, env.defaultConfig.executor.executor;
            var invoice := Invoice(env, p).value;
            && |invoice| == 1 + |dvns| + (if env.treasury.Some? then 1 else 0)
            && invoice[0].to == (if executor == 0 then otherwise else executor)
            && (forall i | 0 <= i < |dvns| :: invoice[1 + i].to == dvns[i])
            && (env.treasury.Some? ==> invoice[|invoice| - 1].to == env.treasury.value.nativeReceiver)
  {
    hide Resolve, Prepare, WorkerFees, Invoice, DvnAt, Chunk;
    InvoiceParts(env, p);
    WorkersArePrepared(env, p);
    PreparedConfigs(env, p);
    WorkersAreConfigured(env, p);
    var uln := Resolve(env.defaultConfig.uln, env.customConfig.uln).value;
    forall i | 0 <= i < DvnCount(uln) ensures WorkerFees(env, p).value.1[i].worker == (uln.requiredDvns + uln.optionalDvns)[i] {
      DvnsInOrder(uln, i);
    }
  }

  lemma InvoiceParts(env: Env, p: Params)
    requires Invoice(env, p).Ok?
    ensures WorkerFees(env, p).Ok?
    ensures var (executor, dvns) := WorkerFees(env, p).value;
            var invoice := Invoice(env, p).value;
            && |invoice| == 1 + |dvns| + (if env.treasury.Some? then 1 else 0)
            && invoice[0].to == executor.worker
            && (forall i | 0 <= i < |dvns| :: invoice[1 + i].to == dvns[i].worker)
            && (env.treasury.Some? ==> invoice[|invoice| - 1].to == env.treasury.value.nativeReceiver)
  {
    hide WorkerFees, WorkerTotal, QuoteTreasury, Payments;
  }

  lemma DvnsInOrder(uln: UlnConfig, i: nat)
    requires i < DvnCount(uln)
    ensures DvnAt(uln, i) == (uln.requiredDvns + uln.optionalDvns)[i]
  {
  }

  lemma PreparedConfigs(env: Env, p: Params)
    requires Prepare(env, p).Ok?
    ensures Resolve(env.defaultConfig.uln, env.customConfig.uln).Ok? && DecodeSpec(p.options).Ok?
    ensures var (uln, executorConfig, decoded) := Prepare(env, p).value;
            var d, c := env.defaultConfig.executor, env.customConfig.executor;
            && uln == Resolve(env.defaultConfig.uln, env.customConfig.uln).value && decoded == DecodeSpec(p.options).value
            && executorConfig.executor == (if c.executor == 0 then d.executor else c.executor)
            && executorConfig.maxMessageSize == (if c.maxMessageSize == 0 then d.maxMessageSize else c.maxMessageSize)
  {
    hide Resolve, DecodeSpec;
  }

  lemma ExecutorIsConfigured(env: Env, config: ExecutorConfig, packet: Packet, options: seq<LzOption>,
                             accounts: seq<WorkerAccount>)
    requires |accounts| == ACCOUNTS_PER_WORKER && QuoteExecutorSpec(env, config, packet, options, accounts).Ok?
    ensures QuoteExecutorSpec(env, config, packet, options, accounts).value.worker == config.executor == accounts[1].key
  {
  }

  /** Whoever asks for a fee is the configured worker, and the account passed for it is its own. */
  lemma WorkersAreConfigured(env: Env, p: Params)
    requires WorkerFees(env, p).Ok?
    ensures var (uln, executorConfig, _) := Prepare(env, p).value;
            var (executor, dvns) := WorkerFees(env, p).value;
            && ACCOUNTS_PER_WORKER <= |p.accounts| && |dvns| == DvnCount(uln)
            && |p.accounts[ACCOUNTS_PER_WORKER..]| == ACCOUNTS_PER_WORKER * |dvns|
            && executor.worker == executorConfig.executor == p.accounts[1].key
            && (forall i | 0 <= i < |dvns| ::
                  dvns[i].worker == DvnAt(uln, i) == Chunk(p.accounts[ACCOUNTS_PER_WORKER..], i)[1].key)
  {
    WorkersArePrepared(env, p);
    PreparedHasAccounts(env, p);
    hide Prepare, QuoteExecutorSpec, QuoteDvnsSpec, DvnAt, Chunk;
    var (_, executorConfig, decoded) := Prepare(env, p).value;
    ExecutorIsConfigured(env, executorConfig, p.packet, decoded.executor, p.accounts[..ACCOUNTS_PER_WORKER]);
    assert p.accounts[..ACCOUNTS_PER_WORKER][1] == p.accounts[1];
    DvnsAreConfigured(env, Prepare(env, p).value.0, p.packet, decoded.dvn, p.accounts[ACCOUNTS_PER_WORKER..]);
  }

  lemma WorkersArePrepared(env: Env, p: Params)
    requires WorkerFees(env, p).Ok?
    ensures Prepare(env, p).Ok?
  {
    hide Prepare, QuoteExecutorSpec, QuoteDvnsSpec;
  }

  lemma DvnsAreConfigured(env: Env, config: UlnConfig, packet: Packet, options: map<byte, seq<LzOption>>,
                          accounts: seq<WorkerAccount>)
    requires QuoteDvnsSpec(env, config, packet, options, accounts).Ok?
    ensures var dvns := QuoteDvnsSpec(env, config, packet, options, accounts).value;
            forall i | 0 <= i < |dvns| :: dvns[i].worker == DvnAt(config, i) == Chunk(accounts, i)[1].key
  {
    hide DvnFeesFrom, DvnAt, Chunk, NoSigner;
    var dvns := QuoteDvnsSpec(env, config, packet, options, accounts).value;
    forall i | 0 <= i < |dvns| ensures dvns[i].worker == DvnAt(config, i) == Chunk(accounts, i)[1].key {
      FeeNamesDvn(env, config, packet, options, accounts, 0, i);
    }
  }

  lemma {:induction false} PaymentsAddUp(fees: seq<WorkerFee>)
    ensures PaidTotal(Payments(fees)) == FeeSum(fees)
  {
    if fees != [] {
      var front := fees[..|fees| - 1];
      PaymentsAddUp(front);
      assert Payments(fees)[..|fees| - 1] == Payments(front);
    }
  }

  /** What the workers are paid, when they are paid. */
  lemma AssignPaysWorkers(env: Env, b: Balances, payer: Pubkey, p: Params)
    ensures WorkerFees(env, p).Err? ==> AssignSpec(env, b, payer, p).Err?
    ensures WorkerFees(env, p).Ok? ==>
              var (executor, dvns) := WorkerFees(env, p).value;
              var paid := PayAll(b, payer, WorkerPayments(executor, dvns));
              && PaidTotal(WorkerPayments(executor, dvns)) == executor.fee + FeeSum(dvns)
              && (paid.Ok? ==> AssignSpec(env, b, payer, p) == Ok((paid.value, executor, dvns)))
              && (paid.Err? ==> AssignSpec(env, b, payer, p).Err?)
  {
    hide Prepare, QuoteExecutorSpec, QuoteDvnsSpec, Payments, DvnPayments, PayAll, Chunk, DvnAt;
    if WorkerFees(env, p).Ok? {
      var (executor, dvns) := WorkerFees(env, p).value;
      WorkersAreConfigured(env, p);
      assert DvnPayments(p.accounts[ACCOUNTS_PER_WORKER..], dvns, |dvns|) == Payments(dvns);
      PayAllConcat(b, payer, [Payment(executor.worker, executor.fee)], Payments(dvns));
      PayOne(b, payer, Payment(executor.worker, executor.fee));
      PaymentsAddUp(dvns);
    }
  }

  /** The invoice adds up to the native fee that is quoted. */
  lemma InvoiceIsQuote(env: Env, p: Params)
    ensures QuoteSpec(env, p, false).Ok? ==>
              Invoice(env, p).Ok? && PaidTotal(Invoice(env, p).value) == QuoteSpec(env, p, false).value.nativeFee
  {
    hide Prepare, QuoteExecutorSpec, QuoteDvnsSpec, Payments, PaidTotal, FeeSum;
    if QuoteSpec(env, p, false).Ok? {
      AssignPaysWorkers(env, map[], 0, p);
      if env.treasury.Some? {
        var (executor, dvns) := WorkerFees(env, p).value;
        var fee := QuoteTreasury(env.treasury.value, WorkerTotal(executor, dvns).value, false).value;
        var last := Payment(env.treasury.value.nativeReceiver, fee);
        PayAllConcat(map[], 0, WorkerPayments(executor, dvns), [last]);
        PayOne(map[], 0, last);
      }
    }
  }

  /** What `send` does to the ledger is to pay the invoice. */
  lemma SendPaysInvoice(env: Env, b: Balances, s: SendParams)
    ensures var sent := SendSpec(env, b, s);
            var quote := QuoteSpec(env, s.params, false);
            && (sent.Ok? ==> quote == Ok(sent.value.1) && Invoice(env, s.params).Ok?
                             && PayAll(b, s.payer, Invoice(env, s.params).value) == Ok(sent.value.0)
                             && sent.value.1.nativeFee <= s.nativeFee
                             && (env.treasury.Some? ==> s.treasury == Some(env.treasury.value.nativeReceiver)))
            && (quote.Ok? && Invoice(env, s.params).Ok? && PayAll(b, s.payer, Invoice(env, s.params).value).Ok?
                && quote.value.nativeFee <= s.nativeFee
                && (env.treasury.Some? ==> s.treasury == Some(env.treasury.value.nativeReceiver))
                ==> sent.Ok?)
  {
    hide Prepare, QuoteExecutorSpec, QuoteDvnsSpec, QuoteTreasury, WorkerPayments, AssignSpec, PayAll, FeeSum;
    AssignPaysWorkers(env, b, s.payer, s.params);
    if WorkerFees(env, s.params).Ok? {
      var (executor, dvns) := WorkerFees(env, s.params).value;
      if env.treasury.Some? && WorkerTotal(executor, dvns).Ok? {
        var fee := QuoteTreasury(env.treasury.value, WorkerTotal(executor, dvns).value, false);
        if fee.Ok? {
          PayAllConcat(b, s.payer, WorkerPayments(executor, dvns), [Payment(env.treasury.value.nativeReceiver, fee.value)]);
        }
      }
    }
  }

  /** Conservation and honesty of the native path: a send that succeeds charges exactly what the quote said
      and no more than the sender allowed, and every account on the ledger ends up with exactly its part of
      the invoice, the payer with all of it less. */
  lemma SendChargesItsQuote(env: Env, b: Balances, s: SendParams, key: Pubkey)
    requires SendSpec(env, b, s).Ok?
    ensures var (after, fee) := SendSpec(env, b, s).value;
            && QuoteSpec(env, s.params, false) == Ok(fee) && fee.lzTokenFee == 0 && fee.nativeFee <= s.nativeFee
            && Invoice(env, s.params).Ok?
            && PaidTotal(Invoice(env, s.params).value) == fee.nativeFee
            && BalanceAt(after, key) == BalanceAt(b, key) + PaidTo(Invoice(env, s.params).value, key)
                                        - (if key == s.payer then fee.nativeFee else 0)
  {
    hide SendSpec, Invoice, PayAll, PaidTotal, PaidTo;
    SendPaysInvoice(env, b, s);
    InvoiceIsQuote(env, s.params);
    assert QuoteSpec(env, s.params, false).value.lzTokenFee == 0;
    hide QuoteSpec;
    PayAllEffect(b, s.payer, Invoice(env, s.params).value, key);
  }

  /** The other direction: whoever allows and owns what was quoted, and names the treasury, can send. */
  lemma QuotedSendSucceeds(env: Env, b: Balances, s: SendParams)
    requires QuoteSpec(env, s.params, false).Ok?
    requires QuoteSpec(env, s.params, false).value.nativeFee <= s.nativeFee
    requires QuoteSpec(env, s.params, false).value.nativeFee <= BalanceAt(b, s.payer)
    requires env.treasury.Some? ==> s.treasury == Some(env.treasury.value.nativeReceiver)
    ensures SendSpec(env, b, s).Ok?
  {
    hide SendSpec, Invoice, PayAll, PaidTotal, QuoteSpec;
    InvoiceIsQuote(env, s.params);
    PayAllSucceeds(b, s.payer, Invoice(env, s.params).value);
    SendPaysInvoice(env, b, s);
  }

  // ---------- paying the treasury in LZ tokens ----------

  /** A send that pays in LZ tokens charges what that quote said, native tokens to the workers and LZ tokens
      to the treasury. */
  lemma LzSendChargesItsQuote(env: Env, b: Balances, tokens: Balances, s: SendParams)
    requires SendWithLzTokenSpec(env, b, tokens, s).Ok?
    ensures var (after, tokensAfter, fee) := SendWithLzTokenSpec(env, b, tokens, s).value;
            && QuoteSpec(env, s.params, true) == Ok(fee) && fee.nativeFee <= s.nativeFee && fee.lzTokenFee <= s.lzTokenFee
            && WorkerFees(env, s.params).Ok?
            && var (executor, dvns) := WorkerFees(env, s.params).value;
               && PaidTotal(WorkerPayments(executor, dvns)) == fee.nativeFee
               && PayAll(b, s.payer, WorkerPayments(executor, dvns)) == Ok(after)
               && env.treasury.Some? && env.treasury.value.lzToken.Some?
               && s.lzTokenTreasury == env.treasury.value.lzToken.value.receiver
               && PayAll(tokens, s.lzTokenSource, [Payment(env.treasury.value.lzToken.value.receiver, fee.lzTokenFee)])
                  == Ok(tokensAfter)
  {
    hide Prepare, QuoteExecutorSpec, QuoteDvnsSpec, WorkerPayments, AssignSpec, PayAll, FeeSum, PaidTotal;
    AssignPaysWorkers(env, b, s.payer, s.params);
  }

  /** The quote in LZ tokens does not promise that the send will work: without any treasury it quotes no
      treasury fee, while the send refuses.  Given what the sender has to bring, it works exactly if a
      treasury is configured. */
  lemma LzQuotedSendNeedsTreasury(env: Env, b: Balances, tokens: Balances, s: SendParams)
    requires QuoteSpec(env, s.params, true).Ok?
    requires var fee := QuoteSpec(env, s.params, true).value;
             && fee.nativeFee <= s.nativeFee && fee.lzTokenFee <= s.lzTokenFee
             && fee.nativeFee <= BalanceAt(b, s.payer) && fee.lzTokenFee <= BalanceAt(tokens, s.lzTokenSource)
    requires env.treasury.Some? && env.treasury.value.lzToken.Some? ==>
               s.lzTokenTreasury == env.treasury.value.lzToken.value.receiver
    ensures SendWithLzTokenSpec(env, b, tokens, s).Ok? <==> env.treasury.Some?
    ensures env.treasury == None ==> SendWithLzTokenSpec(env, b, tokens, s) == Err(LzTokenUnavailable)
  {
    hide Prepare, QuoteExecutorSpec, QuoteDvnsSpec, WorkerPayments, AssignSpec, PayAll, FeeSum, PaidTotal;
    AssignPaysWorkers(env, b, s.payer, s.params);
    var (executor, dvns) := WorkerFees(env, s.params).value;
    PayAllSucceeds(b, s.payer, WorkerPayments(executor, dvns));
    if env.treasury.Some? {
      var payment := Payment(env.treasury.value.lzToken.value.receiver, env.treasury.value.lzToken.value.fee);
      PayOne(tokens, s.lzTokenSource, payment);
      PayAllSucceeds(tokens, s.lzTokenSource, [payment]);
    }
  }

  // ---------- the treasury's share ----------

  /** The admin's instruction. */
  function SetTreasurySpec(treasury: Option<Treasury>): Result<Option<Treasury>> {
    var _ :- Require(treasury.Some? ==> treasury.value.nativeFeeBps <= BPS_DENOMINATOR, InvalidBps);
    Ok(treasury)
  }

  /** With any treasury that can be set, the native treasury fee is at most what the workers get. */
  lemma TreasuryTakesAtMostAsMuch(treasury: Treasury, workerFee: u64)
    requires SetTreasurySpec(Some(treasury)).Ok? && QuoteTreasury(treasury, workerFee, false).Ok?
    ensures QuoteTreasury(treasury, workerFee, false).value <= workerFee
  {
    ShareIsLess(workerFee, treasury.nativeFeeBps);
  }

  lemma ShareIsLess(fee: nat, bps: nat)
    requires bps <= BPS_DENOMINATOR
    ensures fee * bps / BPS_DENOMINATOR <= fee
  {
    var share := fee * bps / BPS_DENOMINATOR;
    TimesKeepsOrder(bps, BPS_DENOMINATOR, fee);
    ProductIsNat(fee, bps);
    MultiplesLieApart(BPS_DENOMINATOR, fee, share);
  }
}
