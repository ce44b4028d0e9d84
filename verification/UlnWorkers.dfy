/** Whom the ULN asks, what it asks them, and when an answer is taken: the workers' part of a quote or a send, in
    terms of the configs, the packet and the accounts that the caller passes. */
module UlnWorkers {
  import opened Arithmetic
  import opened Common
  import opened PacketCodec
  import opened UlnConfiguration
  import opened Options
  import opened UlnFees

  /** The executor is the one of the custom config, or else of the default; so is the longest message it takes. */
  function Executor(env: Env): Pubkey {
    if env.customConfig.executor.executor != 0 then env.customConfig.executor.executor
    else env.defaultConfig.executor.executor
  }

  function Longest(env: Env): u32 {
    if env.customConfig.executor.maxMessageSize != 0 then env.customConfig.executor.maxMessageSize
    else env.defaultConfig.executor.maxMessageSize
  }

  /** The executor's accounts are its own and no signers, the message is not too long, and its answer to the
      message's size and its own options is the fee. */
  ghost predicate ExecutorAgrees(env: Env, p: Params, decoded: Decoded, executor: WorkerFee)
    requires 4 <= |p.accounts|
  {
    && executor.worker == Executor(env) == p.accounts[1].key && p.accounts[1].owner == p.accounts[0].key
    && (forall i | 0 <= i < 4 :: !p.accounts[i].isSigner)
    && |p.packet.message| <= Longest(env)
    && env.prices(ForExecutor(env.uln, p.packet.dstEid, p.packet.sender, |p.packet.message|, decoded.executor, p.accounts[..4]))
       == Ok(executor.fee)
  }

  /** The same for the k-th DVN: it is asked about the header and the payload of the packet, the confirmations of
      the config, and the options under its index. */
  ghost predicate DvnAgrees(env: Env, p: Params, uln: UlnConfig, decoded: Decoded, k: nat, fee: WorkerFee)
    requires k < |uln.requiredDvns| + |uln.optionalDvns| && 8 + 4 * k <= |p.accounts|
  {
    var accounts := p.accounts[4 + 4 * k..8 + 4 * k];
    var packet := Encode(p.packet);
    && fee.worker == (uln.requiredDvns + uln.optionalDvns)[k] == accounts[1].key && accounts[1].owner == accounts[0].key
    && env.prices(ForDvn(env.uln, p.packet.dstEid, p.packet.sender, packet[..81], Keccak(packet[81..]),
                         uln.confirmations, ListAt(decoded.dvn, k % 256), accounts))
       == Ok(fee.fee)
  }

  lemma ExecutorAnswers(env: Env, p: Params, config: ExecutorConfig, decoded: Decoded, executor: WorkerFee)
    requires 4 <= |p.accounts| && config.executor == Executor(env) && config.maxMessageSize == Longest(env)
    ensures QuoteExecutorSpec(env, config, p.packet, decoded.executor, p.accounts[..4]) == Ok(executor)
            <==> ExecutorAgrees(env, p, decoded, executor)
  {
    var accounts := p.accounts[..4];
    assert NoSigner(accounts) <==> forall i | 0 <= i < 4 :: !p.accounts[i].isSigner by {
      assert forall i | 0 <= i < 4 :: accounts[i] == p.accounts[i] && accounts[i] in accounts;
    }
    hide NoSigner;
  }

  lemma DvnAnswers(env: Env, p: Params, uln: UlnConfig, decoded: Decoded, k: nat, fee: WorkerFee)
    requires k < DvnCount(uln) && |p.accounts| == 4 + 4 * DvnCount(uln)
    ensures DvnFeeAt(env, uln, p.packet, decoded.dvn, p.accounts[4..], k) == Ok(fee) <==> DvnAgrees(env, p, uln, decoded, k, fee)
  {
    PacketLayout(p.packet);
    AccessorsInvertEncode(p.packet);
    assert Chunk(p.accounts[4..], k) == p.accounts[4 + 4 * k..8 + 4 * k];
    hide Encode, EncodePacketHeader;
  }

  lemma {:induction false} FeeIsAnswer(env: Env, p: Params, uln: UlnConfig, decoded: Decoded, i: nat, k: nat)
    requires i <= k < DvnCount(uln) && |p.accounts| == 4 + 4 * DvnCount(uln)
    requires DvnFeesFrom(env, uln, p.packet, decoded.dvn, p.accounts[4..], i).Ok?
    ensures DvnAgrees(env, p, uln, decoded, k, DvnFeesFrom(env, uln, p.packet, decoded.dvn, p.accounts[4..], i).value[k - i])
    decreases k - i
  {
    hide DvnFeeAt, DvnAgrees;
    if i == k {
      DvnAnswers(env, p, uln, decoded, k, DvnFeeAt(env, uln, p.packet, decoded.dvn, p.accounts[4..], k).value);
    } else {
      FeeIsAnswer(env, p, uln, decoded, i + 1, k);
    }
  }

  lemma {:induction false} AnswersAreFees(env: Env, p: Params, uln: UlnConfig, decoded: Decoded, i: nat, fees: seq<WorkerFee>)
    requires i <= DvnCount(uln) == i + |fees| && |p.accounts| == 4 + 4 * DvnCount(uln)
    requires forall j | 0 <= j < |fees| :: DvnAgrees(env, p, uln, decoded, i + j, fees[j])
    ensures DvnFeesFrom(env, uln, p.packet, decoded.dvn, p.accounts[4..], i) == Ok(fees)
    decreases |fees|
  {
    hide DvnFeeAt, DvnAgrees;
    if fees != [] {
      assert DvnAgrees(env, p, uln, decoded, i + 0, fees[0]);
      DvnAnswers(env, p, uln, decoded, i, fees[0]);
      forall j | 0 <= j < |fees[1..]| ensures DvnAgrees(env, p, uln, decoded, i + 1 + j, fees[1..][j]) {
        assert DvnAgrees(env, p, uln, decoded, i + (j + 1), fees[j + 1]);
      }
      AnswersAreFees(env, p, uln, decoded, i + 1, fees[1..]);
      assert fees == [fees[0]] + fees[1..];
    }
  }

  /** The part of the DVNs. */
  lemma DvnsAnswer(env: Env, p: Params, uln: UlnConfig, decoded: Decoded, dvns: seq<WorkerFee>)
    requires 4 <= |p.accounts|
    ensures QuoteDvnsSpec(env, uln, p.packet, decoded.dvn, p.accounts[4..]) == Ok(dvns) <==>
            && |dvns| == |uln.requiredDvns| + |uln.optionalDvns| && |p.accounts| == 4 + 4 * |dvns|
            && (forall a | a in p.accounts[4..] :: !a.isSigner)
            && forall k | 0 <= k < |dvns| :: DvnAgrees(env, p, uln, decoded, k, dvns[k])
  {
    hide DvnFeesFrom, DvnAgrees;
    if QuoteDvnsSpec(env, uln, p.packet, decoded.dvn, p.accounts[4..]) == Ok(dvns) {
      forall k | 0 <= k < |dvns| ensures DvnAgrees(env, p, uln, decoded, k, dvns[k]) {
        FeeIsAnswer(env, p, uln, decoded, 0, k);
      }
    }
    if && |dvns| == DvnCount(uln) && |p.accounts| == 4 + 4 * |dvns|
       && forall k | 0 <= k < |dvns| :: DvnAgrees(env, p, uln, decoded, k, dvns[k]) {
      forall j | 0 <= j < |dvns| ensures DvnAgrees(env, p, uln, decoded, 0 + j, dvns[j]) {
        assert DvnAgrees(env, p, uln, decoded, j, dvns[j]);
      }
      AnswersAreFees(env, p, uln, decoded, 0, dvns);
    }
  }

  /** The theorem: the fees of the workers are exactly the answers of the chosen executor and of every DVN of the
      resolved config, each to its own question and with its own four accounts, none of which signs. */
  lemma WorkersAnswerExactly(env: Env, p: Params, executor: WorkerFee, dvns: seq<WorkerFee>)
    requires Resolve(env.defaultConfig.uln, env.customConfig.uln).Ok? && DecodeSpec(p.options).Ok?
    ensures var uln := Resolve(env.defaultConfig.uln, env.customConfig.uln).value;
            var decoded := DecodeSpec(p.options).value;
            WorkerFees(env, p) == Ok((executor, dvns)) <==>
            && |dvns| == |uln.requiredDvns| + |uln.optionalDvns| && |p.accounts| == 4 + 4 * |dvns|
            && (forall a | a in p.accounts[4..] :: !a.isSigner)
            && ExecutorAgrees(env, p, decoded, executor)
            && forall k | 0 <= k < |dvns| :: DvnAgrees(env, p, uln, decoded, k, dvns[k])
  {
    var uln := Resolve(env.defaultConfig.uln, env.customConfig.uln).value;
    var decoded := DecodeSpec(p.options).value;
    hide Resolve, DecodeSpec, QuoteExecutorSpec, QuoteDvnsSpec, ExecutorAgrees, DvnAgrees;
    if 4 <= |p.accounts| {
      PreparedConfigs(env, p);
      var (_, executorConfig, _) := Prepare(env, p).value;
      ExecutorAnswers(env, p, executorConfig, decoded, executor);
      DvnsAnswer(env, p, uln, decoded, dvns);
    }
  }

  /** Without the answers of all workers there is neither a quote nor a send, on either path. */
  lemma NothingWithoutWorkers(env: Env, b: Balances, tokens: Balances, s: SendParams, payInLzToken: bool)
    requires || QuoteSpec(env, s.params, payInLzToken).Ok? || SendSpec(env, b, s).Ok?
             || SendWithLzTokenSpec(env, b, tokens, s).Ok?
    ensures Resolve(env.defaultConfig.uln, env.customConfig.uln).Ok? && DecodeSpec(s.params.options).Ok?
    ensures WorkerFees(env, s.params).Ok?
  {
    hide Resolve, DecodeSpec, QuoteExecutorSpec, QuoteDvnsSpec, PayAll, WorkerTotal, QuoteTreasury;
  }

  /** The executor that is asked and paid is the custom one if there is one; a message longer than its limit is
      refused by the quote and by both sends. */
  lemma ExecutorIsChosen(env: Env, b: Balances, tokens: Balances, s: SendParams, payInLzToken: bool)
    ensures QuoteSpec(env, s.params, payInLzToken).Ok? || SendSpec(env, b, s).Ok? || SendWithLzTokenSpec(env, b, tokens, s).Ok? ==>
              && WorkerFees(env, s.params).Ok? && 4 <= |s.params.accounts|
              && WorkerFees(env, s.params).value.0.worker == Executor(env) == s.params.accounts[1].key
              && |s.params.packet.message| <= Longest(env)
    ensures Resolve(env.defaultConfig.uln, env.customConfig.uln).Ok? && DecodeSpec(s.params.options).Ok?
            && 4 <= |s.params.accounts| && |s.params.packet.message| > Longest(env) ==>
              && QuoteSpec(env, s.params, payInLzToken) == Err(ExceededMaxMessageSize)
              && SendSpec(env, b, s) == Err(ExceededMaxMessageSize)
              && SendWithLzTokenSpec(env, b, tokens, s) == Err(ExceededMaxMessageSize)
  {
    if QuoteSpec(env, s.params, payInLzToken).Ok? || SendSpec(env, b, s).Ok? || SendWithLzTokenSpec(env, b, tokens, s).Ok? {
      NothingWithoutWorkers(env, b, tokens, s, payInLzToken);
      WorkersAnswerExactly(env, s.params, WorkerFees(env, s.params).value.0, WorkerFees(env, s.params).value.1);
    }
    hide Resolve, DecodeSpec, QuoteDvnsSpec, PayAll, WorkerTotal, QuoteTreasury, WorkerFees;
  }

  // ---------- the treasury's share ----------

  /** A quote is what the workers ask, and besides the treasury's share: its part of that in basis points, rounded
      down, or its own fee in LZ tokens. */
  lemma QuoteIsExact(env: Env, p: Params, payInLzToken: bool)
    requires QuoteSpec(env, p, payInLzToken).Ok?
    ensures WorkerFees(env, p).Ok?
    ensures var (executor, dvns) := WorkerFees(env, p).value;
            var workers := executor.fee + FeeSum(dvns);
            var fee := QuoteSpec(env, p, payInLzToken).value;
            && (env.treasury == None ==> fee == MessagingFee(workers, 0))
            && (env.treasury.Some? && payInLzToken ==>
                  env.treasury.value.lzToken.Some? && fee == MessagingFee(workers, env.treasury.value.lzToken.value.fee))
            && (env.treasury.Some? && !payInLzToken ==>
                  && fee.lzTokenFee == 0
                  && 0 <= workers * env.treasury.value.nativeFeeBps - 10_000 * (fee.nativeFee - workers) < 10_000)
  {
    hide Prepare, QuoteExecutorSpec, QuoteDvnsSpec, FeeSum;
    if env.treasury.Some? && !payInLzToken {
      var (executor, dvns) := WorkerFees(env, p).value;
      var product := (executor.fee + FeeSum(dvns)) * env.treasury.value.nativeFeeBps;
      DivisionHolds(product, 10_000);
    }
  }

  /** A quote is given exactly if the workers answer and the sums fit a u64; in LZ tokens a treasury, if there is
      one, must take them. */
  lemma QuotedExactly(env: Env, p: Params, payInLzToken: bool)
    ensures QuoteSpec(env, p, payInLzToken).Ok? <==>
            && WorkerFees(env, p).Ok?
            && var (executor, dvns) := WorkerFees(env, p).value;
               var workers := executor.fee + FeeSum(dvns);
               && workers <= U64_MAX
               && (env.treasury.Some? && payInLzToken ==> env.treasury.value.lzToken.Some?)
               && (env.treasury.Some? && !payInLzToken ==>
                     var product := workers * env.treasury.value.nativeFeeBps;
                     product <= U64_MAX && workers + product / 10_000 <= U64_MAX)
  {
    hide Prepare, QuoteExecutorSpec, QuoteDvnsSpec, FeeSum;
    if WorkerFees(env, p).Ok? && env.treasury.Some? {
      var (executor, dvns) := WorkerFees(env, p).value;
      ProductIsNat(executor.fee + FeeSum(dvns), env.treasury.value.nativeFeeBps);
    }
  }

  /** A send on the native path is accepted exactly if there is a quote, the sender allows it, names the treasury, and
      can pay the invoice. */
  lemma SentExactly(env: Env, b: Balances, s: SendParams)
    ensures SendSpec(env, b, s).Ok? <==>
            && QuoteSpec(env, s.params, false).Ok? && QuoteSpec(env, s.params, false).value.nativeFee <= s.nativeFee
            && (env.treasury.Some? ==> s.treasury == Some(env.treasury.value.nativeReceiver))
            && Invoice(env, s.params).Ok? && PayAll(b, s.payer, Invoice(env, s.params).value).Ok?
  {
    hide SendSpec, QuoteSpec, Invoice, PayAll;
    SendPaysInvoice(env, b, s);
  }
}
