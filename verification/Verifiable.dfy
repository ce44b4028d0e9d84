/** The DVN's read-only view of a packet, and how far it predicts the protocol. */
module Verifiable {
  import opened Common
  import opened PacketCodec
  import opened MessagingChannel
  import opened EndpointChannel
  import opened UlnConfiguration
  import opened CheckVerifiable
  import opened Protocol
  import Channels = ProtocolChannels
  import Libs = ReceiveLibraries
  import Runs = ChannelRuns

  datatype VerificationState = Verifying | Verifiable | Verified | NotInitializable | VerifiableButCapExceeded

  /** Is there anything left for the endpoint to verify? */
  predicate EndpointVerifiable(c: Channel, n: u64, payloadHash: Hash) {
    if n in c.hashes then payloadHash != c.hashes[n] else c.window.inbound < n
  }

  function View(s: State, header: HeaderBytes, payloadHash: Hash, accounts: seq<Address>): Result<VerificationState> {
    var path := PathOf(header);
    var n := NonceOf(header);
    var _ :- Require(path.srcEid in s.defaultConfigs, AccountNotInitialized);
    if path !in s.channels then Ok(NotInitializable)
    else
      var inbound := s.channels[path].window.inbound;
      if !EndpointVerifiable(s.channels[path], n, payloadHash) then Ok(Verified)
      else if inbound < n && inbound + PENDING_INBOUND_NONCE_MAX_LEN > U64_MAX then Err(Abort)
      else if inbound < n && inbound + PENDING_INBOUND_NONCE_MAX_LEN < n then Ok(VerifiableButCapExceeded)
      else
        var config :- ReceiveConfig(s, path.Route());
        var verifiable :- CheckVerifiableSpec(config, ShowAll(s.records, accounts), Keccak(header), payloadHash);
        Ok(if verifiable then Verifiable else VerificationState.Verifying)
  }

  // ---------- what happens next ----------

  /** Creates the payload-hash account if it is absent, then commits. */
  ghost function InitAndCommit(s: State, header: HeaderBytes, payloadHash: Hash,
                            accounts: seq<Address>): Result<State> {
    var path := PathOf(header);
    var n := NonceOf(header);
    var t :- if path in s.channels && n !in s.channels[path].hashes then Next(s, OnChannel(path, InitVerify(n))) else Ok(s);
    Next(t, CommitVerification(header, payloadHash, accounts))
  }

  /** A header this endpoint accepts from the ULN, and a real payload hash: what the view leaves to its caller. */
  ghost predicate Proper(s: State, header: HeaderBytes, payloadHash: Hash) {
    && VersionOf(header) == PACKET_VERSION && DstEidOf(header) == s.eid
    && Libs.Accepted(s.libraries, PathOf(header).Route(), s.uln)
    && payloadHash != Empty
  }

  ghost function DvnsSize(s: State, route: Libs.Route): nat
    requires ReceiveConfig(s, route).Ok?
  {
    var config := ReceiveConfig(s, route).value;
    |config.requiredDvns| + |config.optionalDvns|
  }

  lemma ChannelAcceptsVerify(c: Channel, n: u64, h: Hash)
    requires Inv(c) && n in c.hashes && h != Empty
    ensures VerifySpec(c, n, h).Ok? <==>
            (n <= c.window.inbound || n <= c.window.inbound + PENDING_INBOUND_NONCE_MAX_LEN <= U64_MAX)
    ensures VerifySpec(c, n, h).Ok? ==> n in VerifySpec(c, n, h).value.hashes && VerifySpec(c, n, h).value.hashes[n] == h
  {
  }

  /** A commit, step by step, when its header and library are in order. */
  lemma CommitUnfolds(s: State, header: HeaderBytes, payloadHash: Hash, accounts: seq<Address>)
    requires Proper(s, header, payloadHash) && PathOf(header) in s.channels
    requires ReceiveConfig(s, PathOf(header).Route()).Ok?
    ensures var path := PathOf(header);
            var config := ReceiveConfig(s, path.Route()).value;
            var size := DvnsSize(s, path.Route());
            var r := Next(s, CommitVerification(header, payloadHash, accounts));
            if |accounts| < size then r == Err(Abort)
            else if CheckVerifiableSpec(config, ShowAll(s.records, accounts)[..size], Keccak(header), payloadHash) != Ok(true)
            then r.Err?
            else r == ApplyOnChannel(s, path, Verify(NonceOf(header), payloadHash))
  {
    hide EndpointChannel.Step, CheckVerifiableSpec, Libs.Accepted, Resolve;
  }

  /** The account that `init_verify` adds is the only change it makes. */
  lemma InitUnfolds(s: State, path: Path, n: u64)
    requires path in s.channels && n !in s.channels[path].hashes && s.channels[path].window.inbound < n
    ensures var c := s.channels[path];
            Next(s, OnChannel(path, InitVerify(n))) == Ok(s.(channels := s.channels[path := c.(hashes := c.hashes[n := Empty])]))
  {
  }

  /** The state once the payload-hash account is there. */
  ghost function Initialised(s: State, path: Path, n: u64): State
    requires path in s.channels
  {
    var c := s.channels[path];
    if n in c.hashes then s else s.(channels := s.channels[path := c.(hashes := c.hashes[n := Empty])])
  }

  lemma InitialisedIsReady(s: State, header: HeaderBytes, payloadHash: Hash, accounts: seq<Address>)
    requires ValidChannels(s) && PathOf(header) in s.channels && Proper(s, header, payloadHash)
    requires EndpointVerifiable(s.channels[PathOf(header)], NonceOf(header), payloadHash)
    ensures var path := PathOf(header);
            var t := Initialised(s, path, NonceOf(header));
            && InitAndCommit(s, header, payloadHash, accounts) == Next(t, CommitVerification(header, payloadHash, accounts))
            && Proper(t, header, payloadHash) && path in t.channels
            && ReceiveConfig(t, path.Route()) == ReceiveConfig(s, path.Route()) && t.records == s.records
            && EndpointChannel.Inv(t.channels[path]) && NonceOf(header) in t.channels[path].hashes
            && t.channels[path].window == s.channels[path].window
  {
    hide Next, EndpointChannel.Inv, Resolve, Libs.Accepted;
    var path := PathOf(header);
    var n := NonceOf(header);
    var c := s.channels[path];
    if n !in c.hashes {
      InitUnfolds(s, path, n);
      EndpointChannel.InitKeepsInv(c, n);
    }
  }

  /** What a view of `Verifiable` rests on. */
  lemma ViewUnfolds(s: State, header: HeaderBytes, payloadHash: Hash, accounts: seq<Address>)
    requires View(s, header, payloadHash, accounts) == Ok(Verifiable)
    ensures PathOf(header) in s.channels && EndpointVerifiable(s.channels[PathOf(header)], NonceOf(header), payloadHash)
    ensures var inbound := s.channels[PathOf(header)].window.inbound;
            NonceOf(header) <= inbound || NonceOf(header) <= inbound + PENDING_INBOUND_NONCE_MAX_LEN <= U64_MAX
    ensures var config := ReceiveConfig(s, PathOf(header).Route());
            config.Ok? && CheckVerifiableSpec(config.value, ShowAll(s.records, accounts), Keccak(header), payloadHash) == Ok(true)
  {
    hide CheckVerifiableSpec, ReceiveConfig, ShowAll, EndpointVerifiable;
  }

  /** With an account for every DVN, cutting the list to their number changes nothing. */
  lemma CommitReachesTheChannel(s: State, header: HeaderBytes, payloadHash: Hash, accounts: seq<Address>)
    requires Proper(s, header, payloadHash) && PathOf(header) in s.channels
    requires var config := ReceiveConfig(s, PathOf(header).Route());
             && config.Ok?
             && CheckVerifiableSpec(config.value, ShowAll(s.records, accounts), Keccak(header), payloadHash) == Ok(true)
    ensures var r := Next(s, CommitVerification(header, payloadHash, accounts));
            if DvnsSize(s, PathOf(header).Route()) <= |accounts|
            then r == ApplyOnChannel(s, PathOf(header), Verify(NonceOf(header), payloadHash))
            else r.Err?
  {
    hide Next, CheckVerifiableSpec, ReceiveConfig, Proper, ShowAll, ApplyOnChannel;
    var config := ReceiveConfig(s, PathOf(header).Route()).value;
    CommitUnfolds(s, header, payloadHash, accounts);
    if |config.requiredDvns| + |config.optionalDvns| <= |accounts| {
      ExtraAccountsDoNotMatter(config, ShowAll(s.records, accounts), Keccak(header), payloadHash);
    }
  }

  /** When the view says verifiable, creating the account if needed and committing with the same accounts
      succeeds and stores the hash exactly if the caller passed an account for every DVN. */
  lemma VerifiablePredictsCommit(s: State, header: HeaderBytes, payloadHash: Hash, accounts: seq<Address>)
    requires ValidChannels(s) && Proper(s, header, payloadHash)
    requires View(s, header, payloadHash, accounts) == Ok(Verifiable)
    ensures var path := PathOf(header);
            var r := InitAndCommit(s, header, payloadHash, accounts);
            && ReceiveConfig(s, path.Route()).Ok?
            && (r.Ok? <==> DvnsSize(s, path.Route()) <= |accounts|)
            && (r.Ok? ==> path in r.value.channels && NonceOf(header) in r.value.channels[path].hashes
                          && r.value.channels[path].hashes[NonceOf(header)] == payloadHash)
  {
    var path := PathOf(header);
    var n := NonceOf(header);
    hide Next, View, EndpointVerifiable, EndpointChannel.Inv, CheckVerifiableSpec, ReceiveConfig, Proper;
    hide InitAndCommit, Initialised, ShowAll, ApplyOnChannel;
    ViewUnfolds(s, header, payloadHash, accounts);
    var t := Initialised(s, path, n);
    InitialisedIsReady(s, header, payloadHash, accounts);
    CommitReachesTheChannel(t, header, payloadHash, accounts);
    ProperIsNotEmpty(t, header, payloadHash);
    VerifyOnChannel(t, path, n, payloadHash);
  }

  lemma ProperIsNotEmpty(s: State, header: HeaderBytes, payloadHash: Hash)
    requires Proper(s, header, payloadHash)
    ensures payloadHash != Empty
  {
  }

  lemma VerifyOnChannel(s: State, path: Path, n: u64, h: Hash)
    requires path in s.channels && EndpointChannel.Inv(s.channels[path]) && n in s.channels[path].hashes && h != Empty
    ensures var c := s.channels[path];
            var r := ApplyOnChannel(s, path, Verify(n, h));
            && (r.Ok? <==> (n <= c.window.inbound || n <= c.window.inbound + PENDING_INBOUND_NONCE_MAX_LEN <= U64_MAX))
            && (r.Ok? ==> path in r.value.channels && n in r.value.channels[path].hashes && r.value.channels[path].hashes[n] == h)
  {
    ChannelAcceptsVerify(s.channels[path], n, h);
    hide EndpointChannel.Inv;
  }

  /** When the view says that the window is exceeded, no library can verify the nonce, not even after its
      account has been created. */
  lemma CapExceededPredictsRefusal(s: State, header: HeaderBytes, payloadHash: Hash, accounts: seq<Address>, h: Hash)
    requires ValidChannels(s) && View(s, header, payloadHash, accounts) == Ok(VerifiableButCapExceeded)
    ensures var c := s.channels[PathOf(header)];
            var n := NonceOf(header);
            && VerifySpec(c, n, h).Err?
            && (InitVerifySpec(c, n).Ok? ==> VerifySpec(InitVerifySpec(c, n).value, n, h).Err?)
  {
    var c := s.channels[PathOf(header)];
    hide CheckVerifiableSpec;
    InsertRefinesSetInsertion(c.window, NonceOf(header));
  }

  /** Verified means exactly: this hash is stored already, or the nonce is final. */
  lemma VerifiedIsStoredOrFinal(s: State, header: HeaderBytes, payloadHash: Hash, accounts: seq<Address>)
    requires PathOf(header).srcEid in s.defaultConfigs && PathOf(header) in s.channels && 1 <= NonceOf(header)
    ensures var c := s.channels[PathOf(header)];
            var n := NonceOf(header);
            View(s, header, payloadHash, accounts) == Ok(Verified) <==>
            (n in c.hashes && c.hashes[n] == payloadHash) || Closed(c, n)
  {
    hide CheckVerifiableSpec;
  }

  /** The other two answers that do not look at the records: there is no channel yet, or the nonce lies beyond the
      256 that the window can take. */
  lemma ViewByWindow(s: State, header: HeaderBytes, payloadHash: Hash, accounts: seq<Address>)
    requires PathOf(header).srcEid in s.defaultConfigs
    ensures View(s, header, payloadHash, accounts) == Ok(NotInitializable) <==> PathOf(header) !in s.channels
    ensures View(s, header, payloadHash, accounts) == Ok(VerifiableButCapExceeded) <==>
            && PathOf(header) in s.channels && View(s, header, payloadHash, accounts) != Ok(Verified)
            && s.channels[PathOf(header)].window.inbound + 256 < NonceOf(header)
  {
    hide CheckVerifiableSpec, ReceiveConfig, ShowAll;
  }

  lemma NothingVerified(s: State, header: HeaderBytes, payloadHash: Hash, accounts: seq<Address>)
    requires PathOf(header) !in s.channels || PathOf(header).srcEid !in s.defaultConfigs
    ensures View(s, header, payloadHash, accounts) != Ok(Verified)
  {
    hide CheckVerifiableSpec;
  }

  /** Over every run: the view says verified exactly if the nonce has been cleared, burnt or skipped, or this
      hash was the last one written to it. */
  lemma VerifiedExactlyWhenHandled(states: seq<State>, steps: seq<Step>, k: nat, header: HeaderBytes, payloadHash: Hash,
                                   accounts: seq<Address>)
    requires Protocol.Run(states, steps) && k < |states| && 1 <= NonceOf(header) && payloadHash != Empty
    ensures var instrs := Channels.Instructions(steps, k, PathOf(header));
            var n := NonceOf(header);
            View(states[k], header, payloadHash, accounts) == Ok(Verified) <==>
            && PathOf(header).srcEid in states[k].defaultConfigs
            && (Runs.ClosedBefore(instrs, |instrs|, n) || Runs.LastWrote(instrs, |instrs|, n, payloadHash))
  {
    hide Protocol.Next, EndpointChannel.Step, View, Closed, Runs.ClosedBefore, Runs.LastWrote;
    var path := PathOf(header);
    var n := NonceOf(header);
    var instrs := Channels.Instructions(steps, k, path);
    if path !in states[k].channels || path.srcEid !in states[k].defaultConfigs {
      NothingVerified(states[k], header, payloadHash, accounts);
      if path !in states[k].channels {
        Channels.NoChannelNoInstructions(states, steps, k, path);
        NoHistory(n, payloadHash);
      }
    } else {
      var channels := Channels.ChannelLivesARun(states, steps, k, path);
      VerifiedIsStoredOrFinal(states[k], header, payloadHash, accounts);
      HistoryOf(channels, instrs, n, payloadHash);
    }
  }

  lemma NoHistory(n: u64, h: Hash)
    ensures !Runs.ClosedBefore([], 0, n) && !Runs.LastWrote([], 0, n, h)
  {
  }

  lemma HistoryOf(channels: seq<Channel>, instrs: seq<Instruction>, n: u64, h: Hash)
    requires Runs.Run(channels, instrs) && h != Empty
    ensures var c := channels[|instrs|];
            (n in c.hashes && c.hashes[n] == h) || Closed(c, n)
            <==> Runs.ClosedBefore(instrs, |instrs|, n) || Runs.LastWrote(instrs, |instrs|, n, h)
  {
    hide EndpointChannel.Step, Closed, Runs.ClosedBefore, Runs.LastWrote;
    Runs.FinalExactlyWhenClosed(channels, instrs, |instrs|, n);
    Runs.StoredExactlyWhenWritten(channels, instrs, |instrs|, n, h);
  }

  // ---------- with the right accounts ----------

  /** The record addresses of the DVNs of a config, in its order. */
  function DvnAddresses(config: UlnConfig, headerHash: Hash, payloadHash: Hash): (a: seq<Address>)
    ensures |a| == |config.requiredDvns| + |config.optionalDvns|
  {
    seq(|config.requiredDvns|, i requires 0 <= i < |config.requiredDvns| =>
        RecordAt(RecordKey(headerHash, payloadHash, config.requiredDvns[i])))
    + seq(|config.optionalDvns|, i requires 0 <= i < |config.optionalDvns| =>
        RecordAt(RecordKey(headerHash, payloadHash, config.optionalDvns[i])))
  }

  lemma DvnAddressesShowRecords(records: Records, config: UlnConfig, headerHash: Hash, payloadHash: Hash)
    ensures ShowAll(records, DvnAddresses(config, headerHash, payloadHash))
            == DvnAccounts(records, config, Claim(headerHash, payloadHash, config.confirmations))
  {
  }

  /** Anyone can commit what the DVNs attested: with their record addresses the view is decided by the
      records, and an attested packet inside the window goes through. */
  lemma AttestedCanBeCommitted(s: State, header: HeaderBytes, payloadHash: Hash)
    requires ValidChannels(s) && ValidConfigs(s) && Proper(s, header, payloadHash)
    requires PathOf(header) in s.channels && ReceiveConfig(s, PathOf(header).Route()).Ok?
    requires EndpointVerifiable(s.channels[PathOf(header)], NonceOf(header), payloadHash)
    requires var inbound := s.channels[PathOf(header)].window.inbound;
             NonceOf(header) <= inbound + PENDING_INBOUND_NONCE_MAX_LEN <= U64_MAX
    ensures var config := ReceiveConfig(s, PathOf(header).Route()).value;
            var accounts := DvnAddresses(config, Keccak(header), payloadHash);
            var attested := Attested(s.records, config, Keccak(header), payloadHash);
            && View(s, header, payloadHash, accounts) == Ok(if attested then Verifiable else VerificationState.Verifying)
            && (attested ==> InitAndCommit(s, header, payloadHash, accounts).Ok?)
  {
    var route := PathOf(header).Route();
    var config := ReceiveConfig(s, route).value;
    var accounts := DvnAddresses(config, Keccak(header), payloadHash);
    ReceiveConfigIsSound(s, route);
    DvnAddressesShowRecords(s.records, config, Keccak(header), payloadHash);
    CheckDecidesAttestation(config, s.records, Keccak(header), payloadHash);
    hide CheckVerifiableSpec, Next, Attested, DvnAddresses, ShowAll, Libs.Accepted, EndpointChannel.Inv, Resolve, DvnAccounts;
    assert PathOf(header).srcEid in s.defaultConfigs;
    if Attested(s.records, config, Keccak(header), payloadHash) {
      VerifiablePredictsCommit(s, header, payloadHash, accounts);
    }
  }

  lemma ReceiveConfigIsSound(s: State, route: Libs.Route)
    requires ValidConfigs(s) && ReceiveConfig(s, route).Ok?
    ensures Sound(ReceiveConfig(s, route).value)
  {
    ZeroConfigIsValid();
    hide SetConfigSpec, SetDefaultConfigSpec, Sound, Layered;
    ResolvedIsSound(s.defaultConfigs[route.eid], CustomConfig(s, route));
  }
}
