/** End-to-end authenticity over whole runs: what an OApp clears is what enough DVNs verified. */
module Authenticity {
  import opened Common
  import opened PacketCodec
  import opened EndpointChannel
  import opened UlnConfiguration
  import opened CheckVerifiable
  import opened Protocol
  import ChannelRuns
  import Libs = ReceiveLibraries

  // ---------- provenance of stored hashes ----------

  /** Does the step write the payload hash of nonce `n` on `path`? */
  ghost predicate WritesHash(step: Step, path: Path, n: u64) {
    ActsOn(step, path) && ChannelRuns.Writes(Effect(step).value.1, n)
  }

  ghost predicate LastWrite(steps: seq<Step>, i: nat, k: nat, path: Path, n: u64) {
    && i < k <= |steps| && WritesHash(steps[i], path, n)
    && forall j | i < j < k :: !WritesHash(steps[j], path, n)
  }

  /** One step backwards: a hash that the step did not write was stored before. */
  lemma UnwrittenHashStays(s: State, step: Step, path: Path, n: u64)
    requires Next(s, step).Ok?
    requires var t := Next(s, step).value; path in t.channels && Stored(t.channels[path], n)
    ensures var t := Next(s, step).value;
            if WritesHash(step, path, n) then ChannelRuns.Written(Effect(step).value.1) == t.channels[path].hashes[n]
            else path in s.channels && Stored(s.channels[path], n) && s.channels[path].hashes[n] == t.channels[path].hashes[n]
  {
    hide Next, EndpointChannel.Step;
    StepFactors(s, step, path);
    if ActsOn(step, path) {
      AccountLifeCycle(s.channels[path], Effect(step).value.1);
    }
  }

  lemma {:induction false} StoredHashIsLastWritten(states: seq<State>, steps: seq<Step>, k: nat, path: Path,
                            n: u64) returns (i: nat)
    requires Protocol.Run(states, steps) && k < |states|
    requires path in states[k].channels && Stored(states[k].channels[path], n)
    ensures LastWrite(steps, i, k, path, n)
    ensures ChannelRuns.Written(Effect(steps[i]).value.1) == states[k].channels[path].hashes[n]
    decreases k
  {
    hide Next, Stored, Effect, ActsOn;
    assert k > 0;
    UnwrittenHashStays(states[k - 1], steps[k - 1], path, n);
    if WritesHash(steps[k - 1], path, n) {
      i := k - 1;
    } else {
      i := StoredHashIsLastWritten(states, steps, k - 1, path, n);
    }
  }

  // ---------- provenance of confirmation records ----------

  /** `dvn` itself verified this header and payload hash, with these confirmations. */
  ghost predicate RecordsAt(step: Step, key: RecordKey, confirmations: u64) {
    && step.DvnVerify? && step.confirmations == confirmations
    && key == RecordKey(Keccak(step.header), step.payloadHash, step.dvn)
  }

  ghost predicate Holds(s: State, key: RecordKey, confirmations: u64) {
    key in s.records && s.records[key] == Some(confirmations)
  }

  lemma RecordStepBack(s: State, step: Step, key: RecordKey, confirmations: u64)
    requires Next(s, step).Ok? && Holds(Next(s, step).value, key, confirmations)
    ensures RecordsAt(step, key, confirmations) || Holds(s, key, confirmations)
  {
    hide EndpointChannel.Step, Libs.Apply, SetConfigSpec, SetDefaultConfigSpec, CheckVerifiableSpec, Resolve;
  }

  /** A confirmation record holds what its own DVN wrote earlier. */
  lemma {:induction false} RecordsComeFromDvns(states: seq<State>, steps: seq<Step>, k: nat, key: RecordKey,
                            confirmations: u64) returns (i: nat)
    requires Protocol.Run(states, steps) && k < |states| && Holds(states[k], key, confirmations)
    ensures i < k && RecordsAt(steps[i], key, confirmations)
    decreases k
  {
    assert k > 0;
    RecordStepBack(states[k - 1], steps[k - 1], key, confirmations);
    hide Next;
    if RecordsAt(steps[k - 1], key, confirmations) {
      i := k - 1;
    } else {
      i := RecordsComeFromDvns(states, steps, k - 1, key, confirmations);
    }
  }

  // ---------- what a successful commit means ----------

  /** A committed header is the version-1 encoding of its path and nonce towards this endpoint, and the
      records attest it under a sound config. */
  lemma CommitIsAttested(s: State, step: Step)
    requires ValidConfigs(s) && step.CommitVerification? && Next(s, step).Ok?
    ensures var path := PathOf(step.header);
            var config := ReceiveConfig(s, path.Route());
            && step.header == EncodePacketHeader(NonceOf(step.header), path.srcEid, path.sender, s.eid, path.receiver)
            && config.Ok? && Sound(config.value)
            && Attested(s.records, config.value, Keccak(step.header), step.payloadHash)
  {
    hide EndpointChannel.Step, CheckVerifiableSpec, SetConfigSpec, SetDefaultConfigSpec, Sound, Attested, Layered;
    var path := PathOf(step.header);
    var config := ReceiveConfig(s, path.Route()).value;
    EncodeInvertsAccessors(step.header);
    ZeroConfigIsValid();
    ResolvedIsSound(s.defaultConfigs[path.srcEid], CustomConfig(s, path.Route()));
    var shown := ShowAll(s.records, step.accounts)[..|config.requiredDvns| + |config.optionalDvns|];
    PositiveCheckIsAttested(config, shown, s.records, Keccak(step.header), step.payloadHash);
  }

  /** The ULN is the only library accepted for the route. */
  ghost predicate OnlyUln(s: State, route: Libs.Route) {
    forall lib | Libs.Accepted(s.libraries, route, lib) :: lib == s.uln
  }

  /** A step that verified a hash on this path is a commit, or the work of another library that was accepted
      for the path. */
  lemma VerifyHasOrigin(s: State, step: Step, path: Path, n: u64, h: Hash)
    requires Next(s, step).Ok? && Effect(step) == Some((path, Verify(n, h)))
    ensures step.CommitVerification? || step.LibraryVerify?
    ensures step.CommitVerification? ==> PathOf(step.header) == path && NonceOf(step.header) == n && step.payloadHash == h
    ensures step.LibraryVerify? ==> step.lib != s.uln && Libs.Accepted(s.libraries, path.Route(), step.lib)
  {
    hide EndpointChannel.Step, CheckVerifiableSpec, SetConfigSpec, SetDefaultConfigSpec, Libs.Accepted;
  }

  /** Every DVN that `config` requires, and at least the threshold of distinct optional ones, verified the
      header and payload hash before step `i` with enough confirmations. */
  ghost predicate SignedOff(steps: seq<Step>, i: nat, config: UlnConfig, header: HeaderBytes, payloadHash: Hash)
    requires i <= |steps|
  {
    && (forall d | d in config.requiredDvns :: SignedBy(steps, i, d, header, payloadHash, config.confirmations))
    && exists optional: set<Pubkey> ::
         && (forall d | d in optional ::
               d in config.optionalDvns && SignedBy(steps, i, d, header, payloadHash, config.confirmations))
         && config.optionalDvnThreshold <= |optional|
  }

  ghost predicate SignedBy(steps: seq<Step>, i: nat, dvn: Pubkey, header: HeaderBytes, payloadHash: Hash,
                           confirmations: u64)
    requires i <= |steps|
  {
    exists j, c: u64 :: 0 <= j < i && steps[j] == DvnVerify(dvn, header, payloadHash, c) && confirmations <= c
  }

  lemma RecordedIsSigned(states: seq<State>, steps: seq<Step>, i: nat, dvn: Pubkey, header: HeaderBytes,
                         payloadHash: Hash, confirmations: u64)
    requires Protocol.Run(states, steps) && i <= |steps|
    requires Recorded(states[i].records, Claim(Keccak(header), payloadHash, confirmations), dvn)
    ensures SignedBy(steps, i, dvn, header, payloadHash, confirmations)
  {
    hide Next;
    var key := RecordKey(Keccak(header), payloadHash, dvn);
    var c := states[i].records[key].value;
    var j := RecordsComeFromDvns(states, steps, i, key, c);
    assert steps[j] == DvnVerify(dvn, header, payloadHash, c);
  }

  lemma AttestedIsSignedOff(states: seq<State>, steps: seq<Step>, i: nat, config: UlnConfig, header: HeaderBytes,
                            payloadHash: Hash)
    requires Protocol.Run(states, steps) && i <= |steps|
    requires Attested(states[i].records, config, Keccak(header), payloadHash)
    ensures SignedOff(steps, i, config, header, payloadHash)
  {
    hide Next, SignedBy, Recorded;
    var claim := Claim(Keccak(header), payloadHash, config.confirmations);
    forall d | Recorded(states[i].records, claim, d)
      ensures SignedBy(steps, i, d, header, payloadHash, config.confirmations)
    {
      RecordedIsSigned(states, steps, i, d, header, payloadHash, config.confirmations);
    }
    var optional := RecordedAmong(states[i].records, config.optionalDvns, claim);
    assert forall d | d in optional ::
        d in config.optionalDvns && SignedBy(steps, i, d, header, payloadHash, config.confirmations);
  }

  /** The theorem.  If `clear` succeeds for (path, nonce, guid, message), the last step that wrote the nonce's
      hash verified exactly the hash of this payload: it was a commit, or another library that the path
      accepted at that moment (so a commit, if the path accepted the ULN alone).  A commit was of exactly the
      header encoding this path and nonce towards this endpoint; the config then in force was sound, and every
      DVN it requires and a threshold of distinct optional ones had themselves verified that header and hash
      with enough confirmations. */
  lemma ClearedIsAuthentic(states: seq<State>, steps: seq<Step>, k: nat, path: Path, n: u64, guid: seq<byte>,
                           message: seq<byte>)
    returns (i: nat)
    requires Protocol.Run(states, steps) && k < |steps|
    requires steps[k] == OnChannel(path, Clear(n, guid, message))
    ensures LastWrite(steps, i, k, path, n)
    ensures Effect(steps[i]) == Some((path, Verify(n, Keccak(guid + message))))
    ensures steps[i].CommitVerification? || steps[i].LibraryVerify?
    ensures steps[i].LibraryVerify? ==>
              steps[i].lib != states[i].uln && Libs.Accepted(states[i].libraries, path.Route(), steps[i].lib)
    ensures OnlyUln(states[i], path.Route()) ==> steps[i].CommitVerification?
    ensures steps[i].CommitVerification? ==>
              var config := ReceiveConfig(states[i], path.Route());
              && steps[i].header == EncodePacketHeader(n, path.srcEid, path.sender, states[0].eid, path.receiver)
              && steps[i].payloadHash == Keccak(guid + message)
              && config.Ok? && Sound(config.value)
              && SignedOff(steps, i, config.value, steps[i].header, steps[i].payloadHash)
  {
    hide Next, EndpointChannel.Step, Sound, ReceiveConfig, SignedOff, Attested, Libs.Accepted;
    StepFactors(states[k], steps[k], path);
    AccountLifeCycle(states[k].channels[path], Clear(n, guid, message));
    i := StoredHashIsLastWritten(states, steps, k, path, n);
    VerifyHasOrigin(states[i], steps[i], path, n, Keccak(guid + message));
    Protocol.Reachable(states, steps, i);
    if steps[i].CommitVerification? {
      CommitIsAttested(states[i], steps[i]);
      AttestedIsSignedOff(states, steps, i, ReceiveConfig(states[i], path.Route()).value, steps[i].header,
                          steps[i].payloadHash);
    }
  }
}
