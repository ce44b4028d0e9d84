/** The receiving side end to end: DVNs record confirmations in the ULN, anyone commits a verified packet,
    the ULN (or another accepted library) verifies it at the endpoint, the OApp clears it. */
module Protocol {
  import opened Common
  import opened PacketCodec
  import opened EndpointChannel
  import opened UlnConfiguration
  import opened CheckVerifiable
  import Libs = ReceiveLibraries

  datatype Path = Path(receiver: Bytes32, srcEid: u32, sender: Bytes32) {
    function Route(): Libs.Route {
      Libs.Route(receiver, srcEid)
    }
  }

  datatype State = State(
    eid: u32,                                      // the local endpoint
    uln: Pubkey,                                   // the address that only the ULN program can sign with
    channels: map<Path, Channel>,
    records: Records,
    defaultConfigs: map<u32, UlnConfig>,
    customConfigs: map<Libs.Route, UlnConfig>,
    libraries: Libs.Libraries)

  /** An account named by the caller of `commit_verification`. */
  datatype Address = RecordAt(key: RecordKey) | Elsewhere(ownedByUln: bool)

  datatype Step =
    | InitNonce(path: Path)
    | OnChannel(path: Path, instr: Instruction)
    | LibraryVerify(lib: Pubkey, path: Path, nonce: u64, hash: Hash)
    | InitRecord(dvn: Pubkey, header: HeaderBytes, payloadHash: Hash)
    | DvnVerify(dvn: Pubkey, header: HeaderBytes, payloadHash: Hash, confirmations: u64)
    | CloseRecord(dvn: Pubkey, headerHash: Hash, payloadHash: Hash)
    | SetDefaultConfig(eid: u32, config: UlnConfig)
    | InitConfig(route: Libs.Route)
    | SetConfig(route: Libs.Route, config: UlnConfig)
    | CommitVerification(header: HeaderBytes, payloadHash: Hash, accounts: seq<Address>)
    | ChangeLibraries(change: Libs.Change)

  function PathOf(header: HeaderBytes): Path {
    Path(ReceiverOf(header), SrcEidOf(header), SenderOf(header))
  }

  /** What the runtime shows for an address. */
  function Show(records: Records, address: Address): AccountInfo {
    match address
    case RecordAt(key) => if key in records then Record(key, records[key]) else NotOwned
    case Elsewhere(ownedByUln) => if ownedByUln then Undecodable else NotOwned
  }

  function ShowAll(records: Records, addresses: seq<Address>): (accounts: seq<AccountInfo>)
    ensures |accounts| == |addresses|
  {
    seq(|addresses|, i requires 0 <= i < |addresses| => Show(records, addresses[i]))
  }

  /** An absent custom config account reads as the zero config. */
  function CustomConfig(s: State, route: Libs.Route): UlnConfig {
    if route in s.customConfigs then s.customConfigs[route] else ZERO_CONFIG
  }

  function ReceiveConfig(s: State, route: Libs.Route): Result<UlnConfig> {
    var _ :- Require(route.eid in s.defaultConfigs, AccountNotInitialized);
    Resolve(s.defaultConfigs[route.eid], CustomConfig(s, route))
  }

  // ---------- the instructions ----------

  function ApplyOnChannel(s: State, path: Path, i: Instruction): Result<State> {
    var _ :- Require(path in s.channels, AccountNotInitialized);
    var c :- EndpointChannel.Step(s.channels[path], i);
    Ok(s.(channels := s.channels[path := c]))
  }

  function EndpointVerify(s: State, lib: Pubkey, path: Path, n: u64, h: Hash): Result<State> {
    var _ :- Require(Libs.Accepted(s.libraries, path.Route(), lib), InvalidReceiveLibrary);
    ApplyOnChannel(s, path, Verify(n, h))
  }

  function CommitVerificationSpec(s: State, header: HeaderBytes, payloadHash: Hash,
                            accounts: seq<Address>): Result<State> {
    var config :- ReceiveConfig(s, PathOf(header).Route());
    var _ :- Require(VersionOf(header) == PACKET_VERSION, InvalidPacketVersion);
    var _ :- Require(DstEidOf(header) == s.eid, InvalidEid);
    var dvnsSize := |config.requiredDvns| + |config.optionalDvns|;
    if |accounts| < dvnsSize then Err(Abort)
    else
      var verifiable :- CheckVerifiableSpec(config, ShowAll(s.records, accounts)[..dvnsSize], Keccak(header), payloadHash);
      var _ :- Require(verifiable, Verifying);
      EndpointVerify(s, s.uln, PathOf(header), NonceOf(header), payloadHash)
  }

  /** The instruction itself: it reads the configs and the confirmation accounts, and updates the channel's
      accounts in place through the endpoint. */
  method CommitPacket(s: State, header: HeaderBytes, payloadHash: Hash, accounts: seq<Address>,
                      channel: ChannelAccounts)
    returns (r: Result<()>)
    requires PathOf(header) in s.channels && channel.View() == s.channels[PathOf(header)]
    modifies channel, channel.nonce, channel.pendingInboundNonce
    ensures match CommitVerificationSpec(s, header, payloadHash, accounts)
            case Ok(t) => r == Ok(()) && t == s.(channels := s.channels[PathOf(header) := channel.View()])
            case Err(e) => r == Err(e) && channel.View() == s.channels[PathOf(header)]
  {
    hide CheckVerifiableSpec, Resolve, Libs.IsValidReceiveLibrary, VerifySpec;
    var route := PathOf(header).Route();
    if route.eid !in s.defaultConfigs {
      return Err(AccountNotInitialized);
    }
    var resolved := GetConfig(s.defaultConfigs[route.eid], CustomConfig(s, route));
    if resolved.Err? {
      return Err(resolved.error);
    }
    var config := resolved.value;
    if VersionOf(header) != PACKET_VERSION {
      return Err(InvalidPacketVersion);
    }
    if DstEidOf(header) != s.eid {
      return Err(InvalidEid);
    }
    var dvnsSize := |config.requiredDvns| + |config.optionalDvns|;
    if |accounts| < dvnsSize {
      return Err(Abort);
    }
    var shown := ShowAll(s.records, accounts)[..dvnsSize];
    var verifiable := CheckVerifiable.CheckVerifiable(config, shown, Keccak(header), payloadHash);
    if verifiable.Err? {
      return Err(verifiable.error);
    }
    if !verifiable.value {
      return Err(Verifying);
    }
    if !Libs.Accepted(s.libraries, route, s.uln) {
      return Err(InvalidReceiveLibrary);
    }
    r := channel.Verify(NonceOf(header), payloadHash);
  }

  ghost function Next(s: State, step: Step): Result<State> {
    match step
    case InitNonce(path) =>
      var _ :- Require(path !in s.channels, AccountInUse);
      Ok(s.(channels := s.channels[path := NEW_CHANNEL]))
    case OnChannel(path, i) =>
      var _ :- Require(!i.Verify?, Unauthorized);
      ApplyOnChannel(s, path, i)
    case LibraryVerify(lib, path, n, h) =>
      var _ :- Require(lib != s.uln, Unauthorized);
      EndpointVerify(s, lib, path, n, h)
    case InitRecord(dvn, header, payloadHash) =>
      var records :- InitRecordSpec(s.records, RecordKey(Keccak(header), payloadHash, dvn));
      Ok(s.(records := records))
    case DvnVerify(dvn, header, payloadHash, confirmations) =>
      var records :- DvnVerifySpec(s.records, RecordKey(Keccak(header), payloadHash, dvn), confirmations);
      Ok(s.(records := records))
    case CloseRecord(dvn, headerHash, payloadHash) =>
      var records :- CloseRecordSpec(s.records, RecordKey(headerHash, payloadHash, dvn));
      Ok(s.(records := records))
    case SetDefaultConfig(eid, config) =>
      var c :- SetDefaultConfigSpec(config);
      Ok(s.(defaultConfigs := s.defaultConfigs[eid := c]))
    case InitConfig(route) =>
      var _ :- Require(route !in s.customConfigs, AccountInUse);
      Ok(s.(customConfigs := s.customConfigs[route := ZERO_CONFIG]))
    case SetConfig(route, config) =>
      var _ :- Require(route in s.customConfigs, AccountNotInitialized);
      var c :- SetConfigSpec(config);
      var t := s.(customConfigs := s.customConfigs[route := c]);
      var _ :- ReceiveConfig(t, route);
      Ok(t)
    case CommitVerification(header, payloadHash, accounts) =>
      CommitVerificationSpec(s, header, payloadHash, accounts)
    case ChangeLibraries(change) =>
      var l :- Libs.Apply(s.libraries, change);
      Ok(s.(libraries := l))
  }

  ghost predicate Initial(s: State) {
    && s.channels == map[] && s.records == map[]
    && s.defaultConfigs == map[] && s.customConfigs == map[]
    && s.libraries == Libs.NO_LIBRARIES
  }

  ghost predicate Run(states: seq<State>, steps: seq<Step>) {
    && |states| == |steps| + 1
    && Initial(states[0])
    && forall k {:trigger steps[k]} | 0 <= k < |steps| :: Next(states[k], steps[k]) == Ok(states[k + 1])
  }

  // ---------- each step acts on at most one channel ----------

  /** The channel instruction a step performs, if any. */
  function Effect(step: Step): Option<(Path, Instruction)> {
    match step
    case OnChannel(path, i) => Some((path, i))
    case LibraryVerify(_, path, n, h) => Some((path, Verify(n, h)))
    case CommitVerification(header, payloadHash, _) => Some((PathOf(header), Verify(NonceOf(header), payloadHash)))
    case _ => None
  }

  ghost predicate ActsOn(step: Step, path: Path) {
    Effect(step).Some? && Effect(step).value.0 == path
  }

  lemma EndpointVerifyFactors(s: State, lib: Pubkey, path: Path, n: u64, h: Hash)
    requires EndpointVerify(s, lib, path, n, h).Ok?
    ensures var t := EndpointVerify(s, lib, path, n, h).value;
            && path in s.channels && EndpointChannel.Step(s.channels[path], Verify(n, h)).Ok?
            && t == s.(channels := s.channels[path := EndpointChannel.Step(s.channels[path], Verify(n, h)).value])
  {
    hide EndpointChannel.Step;
  }

  lemma StepFactors(s: State, step: Step, path: Path)
    requires Next(s, step).Ok?
    ensures var t := Next(s, step).value;
            && t.eid == s.eid && t.uln == s.uln
            && (ActsOn(step, path) ==>
                  && path in s.channels && path in t.channels
                  && EndpointChannel.Step(s.channels[path], Effect(step).value.1) == Ok(t.channels[path]))
            && (!ActsOn(step, path) && path in t.channels ==>
                  t.channels[path] == if path in s.channels then s.channels[path] else NEW_CHANNEL)
  {
    hide EndpointChannel.Step, Libs.Apply, SetConfigSpec, SetDefaultConfigSpec, CheckVerifiableSpec, ReceiveConfig, ShowAll;
    match step
    case LibraryVerify(lib, p, n, h) => EndpointVerifyFactors(s, lib, p, n, h);
    case CommitVerification(header, payloadHash, _) =>
      EndpointVerifyFactors(s, s.uln, PathOf(header), NonceOf(header), payloadHash);
    case _ =>
  }

  // ---------- what every run keeps ----------

  ghost predicate ValidConfigs(s: State) {
    && (forall eid | eid in s.defaultConfigs :: ValidDefault(s.defaultConfigs[eid]))
    && (forall route | route in s.customConfigs :: ValidCustom(s.customConfigs[route]))
  }

  ghost predicate ValidChannels(s: State) {
    forall path | path in s.channels :: EndpointChannel.Inv(s.channels[path])
  }

  lemma StepKeepsConfigs(s: State, step: Step)
    requires ValidConfigs(s) && Next(s, step).Ok?
    ensures ValidConfigs(Next(s, step).value)
  {
    hide EndpointChannel.Step, Libs.Apply, ValidDefault, ValidCustom, SetDefaultConfigSpec, SetConfigSpec;
    hide CheckVerifiableSpec, ShowAll, Libs.IsValidReceiveLibrary, Resolve;
    ZeroConfigIsValid();
    match step
    case SetDefaultConfig(_, config) => SetDefaultKeepsValid(config);
    case SetConfig(_, config) => SetKeepsValid(config);
    case _ =>
  }

  lemma SetDefaultKeepsValid(config: UlnConfig)
    ensures SetDefaultConfigSpec(config).Ok? ==> ValidDefault(SetDefaultConfigSpec(config).value)
  {
  }

  lemma SetKeepsValid(config: UlnConfig)
    ensures SetConfigSpec(config).Ok? ==> ValidCustom(SetConfigSpec(config).value)
  {
  }

  lemma ZeroConfigIsValid()
    ensures ValidCustom(ZERO_CONFIG)
  {
  }

  lemma StepKeepsChannels(s: State, step: Step)
    requires ValidChannels(s) && Next(s, step).Ok?
    ensures ValidChannels(Next(s, step).value)
  {
    hide Next, EndpointChannel.Step, EndpointChannel.Inv;
    var t := Next(s, step).value;
    forall path | path in t.channels ensures EndpointChannel.Inv(t.channels[path]) {
      StepFactors(s, step, path);
      NewChannelInv();
      if ActsOn(step, path) {
        EndpointChannel.StepKeepsInv(s.channels[path], Effect(step).value.1);
      }
    }
  }

  lemma NewChannelInv()
    ensures EndpointChannel.Inv(NEW_CHANNEL)
  {
  }

  lemma {:induction false} Reachable(states: seq<State>, steps: seq<Step>, k: nat)
    requires Run(states, steps) && k < |states|
    ensures ValidConfigs(states[k]) && ValidChannels(states[k])
    ensures states[k].eid == states[0].eid && states[k].uln == states[0].uln
  {
    hide Next, ValidConfigs, ValidChannels;
    if k == 0 {
      InitialIsValid(states[0]);
    } else {
      Reachable(states, steps, k - 1);
      StepKeepsConfigs(states[k - 1], steps[k - 1]);
      StepKeepsChannels(states[k - 1], steps[k - 1]);
      StepFactors(states[k - 1], steps[k - 1], Path(seq(32, _ => 0), 0, seq(32, _ => 0)));
    }
  }

  lemma InitialIsValid(s: State)
    requires Initial(s)
    ensures ValidConfigs(s) && ValidChannels(s)
  {
  }
}
