/** The other direction of authenticity: a packet that enough DVNs have signed off can be committed and
    delivered by anyone, from the very bytes that its sender encoded. */
module Deliverability {
  import opened Common
  import opened PacketCodec
  import opened MessagingChannel
  import opened EndpointChannel
  import opened UlnConfiguration
  import opened CheckVerifiable
  import opened Protocol
  import opened Authenticity
  import opened Verifiable
  import Libs = ReceiveLibraries

  // ---------- the payload of a packet is what `clear` takes ----------

  /** The guid and the message read from an encoded packet clear its nonce exactly if the stored hash is that of
      the packet's payload, inside the prefix. */
  lemma ClearTakesThePacket(c: Channel, n: u64, p: Packet)
    ensures MESSAGE_OFFSET <= |Encode(p)|
    ensures ClearSpec(c, n, GuidOf(Encode(p)), MessageOf(Encode(p))).Ok? <==>
            n in c.hashes && n <= c.window.inbound && c.hashes[n] == Keccak(PayloadOf(Encode(p)))
  {
    AccessorsInvertEncode(p);
  }

  // ---------- the records, read off the history ----------

  /** The step's effect on a record: its new value, or that it is closed, or none. */
  datatype Touch = Untouched | Set(value: Confirmations) | Closed

  ghost function TouchOf(step: Step, key: RecordKey): Touch {
    if step.InitRecord? && key == RecordKey(Keccak(step.header), step.payloadHash, step.dvn) then Set(None)
    else if step.DvnVerify? && key == RecordKey(Keccak(step.header), step.payloadHash, step.dvn) then
      Set(Some(step.confirmations))
    else if step.CloseRecord? && key == RecordKey(step.headerHash, step.payloadHash, step.dvn) then Touch.Closed
    else Untouched
  }

  /** What the last step that touched a record left there. */
  ghost function RecordAfter(steps: seq<Step>, k: nat, key: RecordKey): Option<Confirmations>
    requires k <= |steps|
  {
    if k == 0 then None
    else
      match TouchOf(steps[k - 1], key)
      case Set(value) => Some(value)
      case Closed => None
      case Untouched => RecordAfter(steps, k - 1, key)
  }

  function RecordOf(s: State, key: RecordKey): Option<Confirmations> {
    if key in s.records then Some(s.records[key]) else None
  }

  lemma RecordStep(s: State, step: Step, key: RecordKey)
    requires Next(s, step).Ok?
    ensures RecordOf(Next(s, step).value, key) ==
            match TouchOf(step, key)
            case Set(value) => Some(value)
            case Closed => None
            case Untouched => RecordOf(s, key)
  {
    hide EndpointChannel.Step, Libs.Apply, SetConfigSpec, SetDefaultConfigSpec, CheckVerifiableSpec, ReceiveConfig, ShowAll;
  }

  /** In every reachable state a confirmation record is what the last step that touched it left. */
  lemma {:induction false} RecordsAreHistory(states: seq<State>, steps: seq<Step>, k: nat, key: RecordKey)
    requires Protocol.Run(states, steps) && k < |states|
    ensures RecordOf(states[k], key) == RecordAfter(steps, k, key)
  {
    hide Next, TouchOf;
    if k > 0 {
      RecordsAreHistory(states, steps, k - 1, key);
      RecordStep(states[k - 1], steps[k - 1], key);
    }
  }

  /** A record is created exactly where there is none, and written and closed exactly where there is one. */
  lemma RecordStepsAccepted(states: seq<State>, steps: seq<Step>, k: nat, dvn: Pubkey, header: HeaderBytes,
                            payloadHash: Hash, confirmations: u64)
    requires Protocol.Run(states, steps) && k < |states|
    ensures var isThere := RecordAfter(steps, k, RecordKey(Keccak(header), payloadHash, dvn)).Some?;
            && (Next(states[k], InitRecord(dvn, header, payloadHash)).Ok? <==> !isThere)
            && (Next(states[k], DvnVerify(dvn, header, payloadHash, confirmations)).Ok? <==> isThere)
            && (Next(states[k], CloseRecord(dvn, Keccak(header), payloadHash)).Ok? <==> isThere)
  {
    RecordsAreHistory(states, steps, k, RecordKey(Keccak(header), payloadHash, dvn));
    hide RecordAfter, Protocol.Run;
  }

  // ---------- a signature that stands ----------

  /** The DVN verified the packet with enough confirmations, and has not touched that record since. */
  ghost predicate Stands(steps: seq<Step>, k: nat, dvn: Pubkey, header: HeaderBytes, payloadHash: Hash,
                         confirmations: u64)
    requires k <= |steps|
  {
    var last := RecordAfter(steps, k, RecordKey(Keccak(header), payloadHash, dvn));
    last.Some? && last.value.Some? && confirmations <= last.value.value
  }

  lemma StandingIsRecorded(states: seq<State>, steps: seq<Step>, k: nat, dvn: Pubkey, header: HeaderBytes,
                           payloadHash: Hash, confirmations: u64)
    requires Protocol.Run(states, steps) && k <= |steps| && Stands(steps, k, dvn, header, payloadHash, confirmations)
    ensures Recorded(states[k].records, Claim(Keccak(header), payloadHash, confirmations), dvn)
  {
    hide Next, RecordAfter;
    RecordsAreHistory(states, steps, k, RecordKey(Keccak(header), payloadHash, dvn));
  }

  /** The standing signatures of every required DVN and of a threshold of distinct optional ones. */
  ghost predicate SignaturesStand(steps: seq<Step>, k: nat, config: UlnConfig, header: HeaderBytes, payloadHash: Hash)
    requires k <= |steps|
  {
    && (forall d | d in config.requiredDvns :: Stands(steps, k, d, header, payloadHash, config.confirmations))
    && exists optional: set<Pubkey> :: EnoughStand(steps, k, config, header, payloadHash, optional)
  }

  ghost predicate EnoughStand(steps: seq<Step>, k: nat, config: UlnConfig, header: HeaderBytes, payloadHash: Hash,
                              optional: set<Pubkey>)
    requires k <= |steps|
  {
    && (forall d | d in optional ::
          d in config.optionalDvns && Stands(steps, k, d, header, payloadHash, config.confirmations))
    && config.optionalDvnThreshold <= |optional|
  }

  lemma StandingIsAttested(states: seq<State>, steps: seq<Step>, k: nat, config: UlnConfig, header: HeaderBytes,
                           payloadHash: Hash)
    requires Protocol.Run(states, steps) && k <= |steps| && SignaturesStand(steps, k, config, header, payloadHash)
    ensures Attested(states[k].records, config, Keccak(header), payloadHash)
  {
    hide Next, Stands, Recorded;
    var claim := Claim(Keccak(header), payloadHash, config.confirmations);
    var optional: set<Pubkey> :| EnoughStand(steps, k, config, header, payloadHash, optional);
    forall d | d in config.requiredDvns || d in optional ensures Recorded(states[k].records, claim, d) {
      StandingIsRecorded(states, steps, k, d, header, payloadHash, config.confirmations);
    }
    SubsetIsSmaller(optional, RecordedAmong(states[k].records, config.optionalDvns, claim));
  }

  // ---------- from the sender's bytes to the receiver ----------

  /** The packet is for this endpoint, on an existing channel that expects its nonce next, and its route accepts
      the ULN under a config that resolves. */
  ghost predicate Expected(s: State, p: Packet) {
    var path := Path(p.receiver, p.srcEid, p.sender);
    && p.dstEid == s.eid && path in s.channels
    && s.channels[path].window.inbound + 1 == p.nonce <= U64_MAX - 255
    && Libs.Accepted(s.libraries, path.Route(), s.uln) && ReceiveConfig(s, path.Route()).Ok?
  }

  lemma NextNonceIsVerifiable(c: Channel, n: u64, preimage: seq<byte>)
    requires Inv(c) && n == c.window.inbound + 1
    ensures EndpointVerifiable(c, n, Keccak(preimage))
  {
    assert n in c.hashes ==> !Stored(c, n);
  }

  /** Committing the next nonce moves the prefix up to it. */
  lemma CommitReaches(c: Channel, n: u64, h: Hash)
    requires Inv(c) && n == c.window.inbound + 1 && VerifySpec(c, n, h).Ok?
    ensures var d := VerifySpec(c, n, h).value;
            n <= d.window.inbound && n in d.hashes && d.hashes[n] == h
  {
    hide Inv, Normal, Commit;
    CommitKeepsInv(c, n, h);
    var d := VerifySpec(c, n, h).value;
    NormalWindow(d);
    InboundIsFront(d.window, 0);
    assert n in Committed(d.window);
  }

  lemma CommittedCanBeCleared(s: State, header: HeaderBytes, payloadHash: Hash, accounts: seq<Address>, guid: seq<byte>,
                              message: seq<byte>)
    requires ValidChannels(s) && Proper(s, header, payloadHash) && PathOf(header) in s.channels
    requires s.channels[PathOf(header)].window.inbound + 1 == NonceOf(header) && payloadHash == Keccak(guid + message)
    requires InitAndCommit(s, header, payloadHash, accounts).Ok?
    ensures Next(InitAndCommit(s, header, payloadHash, accounts).value,
                 OnChannel(PathOf(header), Clear(NonceOf(header), guid, message))).Ok?
  {
    hide InitAndCommit, Initialised, Next, Proper, EndpointVerifiable, EndpointChannel.Inv, ReceiveConfig, VerifySpec, ValidChannels;
    hide PathOf, NonceOf;
    var path, n := PathOf(header), NonceOf(header);
    ChannelIsValid(s, path);
    NextNonceIsVerifiable(s.channels[path], n, guid + message);
    InitialisedIsReady(s, header, payloadHash, accounts);
    var t := Initialised(s, path, n);
    var commit := CommitVerification(header, payloadHash, accounts);
    var r := InitAndCommit(s, header, payloadHash, accounts).value;
    StepFactors(t, commit, path);
    CommitReaches(t.channels[path], n, payloadHash);
    ClearGoesThrough(r, path, n, guid, message);
  }

  lemma ChannelIsValid(s: State, path: Path)
    requires ValidChannels(s) && path in s.channels
    ensures EndpointChannel.Inv(s.channels[path])
  {
  }

  lemma ClearGoesThrough(s: State, path: Path, n: u64, guid: seq<byte>, message: seq<byte>)
    requires path in s.channels
    requires var c := s.channels[path]; n <= c.window.inbound && n in c.hashes && c.hashes[n] == Keccak(guid + message)
    ensures Next(s, OnChannel(path, Clear(n, guid, message))).Ok?
  {
  }

  /** The theorem.  In every reachable state, an expected packet for which the signatures of every required DVN
      and of a threshold of optional ones stand can be committed by anyone and then cleared with the guid and the
      message that its sender encoded. */
  lemma SignedOffIsDeliverable(states: seq<State>, steps: seq<Step>, k: nat, p: Packet)
    requires Protocol.Run(states, steps) && k <= |steps| && Expected(states[k], p)
    requires var config := ReceiveConfig(states[k], Libs.Route(p.receiver, p.srcEid)).value;
             SignaturesStand(steps, k, config, Header(Encode(p)), Keccak(PayloadOf(Encode(p))))
    ensures var config := ReceiveConfig(states[k], Libs.Route(p.receiver, p.srcEid)).value;
            var header, payloadHash := Header(Encode(p)), Keccak(PayloadOf(Encode(p)));
            var r := InitAndCommit(states[k], header, payloadHash, DvnAddresses(config, Keccak(header), payloadHash));
            r.Ok? && Next(r.value, OnChannel(Path(p.receiver, p.srcEid, p.sender), Clear(p.nonce, p.guid, p.message))).Ok?
  {
    var s, header, payload := states[k], Header(Encode(p)), PayloadOf(Encode(p));
    var config := ReceiveConfig(s, Libs.Route(p.receiver, p.srcEid)).value;
    AccessorsInvertEncode(p);
    AccessorsInvertEncodeHeader(p.nonce, p.srcEid, p.sender, p.dstEid, p.receiver);
    Protocol.Reachable(states, steps, k);
    hide Next, Encode, Header, PayloadOf, EncodePacketHeader, VersionOf, NonceOf, SrcEidOf, SenderOf, DstEidOf, ReceiverOf;
    hide Protocol.Run, SignaturesStand, ReceiveConfig, Libs.Accepted, ValidConfigs, EndpointChannel.Inv, InitAndCommit;
    hide DvnAddresses, Attested, View, EndpointVerifiable;
    StandingIsAttested(states, steps, k, config, header, Keccak(payload));
    NextNonceIsVerifiable(s.channels[PathOf(header)], p.nonce, payload);
    AttestedCanBeCommitted(s, header, Keccak(payload));
    CommittedCanBeCleared(s, header, Keccak(payload), DvnAddresses(config, Keccak(header), Keccak(payload)), p.guid, p.message);
  }
}
