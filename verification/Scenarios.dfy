/** Two runs of the protocol, step by step: a complete delivery, which shows that the hypotheses of the
    authenticity theorem can be met, and a packet on which the DVN's view misleads its caller. */
module Scenarios {
  import opened Common
  import opened PacketCodec
  import opened MessagingChannel
  import opened EndpointChannel
  import opened UlnConfiguration
  import opened CheckVerifiable
  import opened Protocol
  import opened Authenticity
  import Libs = ReceiveLibraries
  import Views = Verifiable

  const ULN: Libs.LibraryKey := 9
  const DVN: Pubkey := 7
  const SRC_EID: u32 := 30101
  const LOCAL_EID: u32 := 30168

  /** A packet from and to one address, the first on its path, under some config. */
  datatype Delivery = Delivery(address: Bytes32, message: seq<byte>, config: UlnConfig) {
    function Path(): Path {
      Protocol.Path(address, SRC_EID, address)
    }

    function Header(): HeaderBytes {
      EncodePacketHeader(1, SRC_EID, address, LOCAL_EID, address)
    }

    function Payload(): Hash {
      Keccak(address + message)
    }

    function Key(): RecordKey {
      RecordKey(Keccak(Header()), Payload(), DVN)
    }

    function Registered(): Libs.Libraries {
      Libs.NO_LIBRARIES.(registered := map[ULN := Libs.Receive])
    }

    function WithDefault(): Libs.Libraries {
      Registered().(defaults := map[SRC_EID := Libs.LibraryConfig(ULN, None)])
    }

    function WithRoute(): Libs.Libraries {
      WithDefault().(oapps := map[Path().Route() := Libs.LibraryConfig(Libs.DEFAULT_MESSAGE_LIB, None)])
    }

    /** A state once the ULN is the library of the route. */
    function Ready(channels: map<Protocol.Path, Channel>, records: Records): State {
      State(LOCAL_EID, ULN, channels, records, map[SRC_EID := config], map[], WithRoute())
    }

    function Before(libraries: Libs.Libraries): State {
      State(LOCAL_EID, ULN, map[], map[], map[], map[], libraries)
    }

    /** The state after `k` steps. */
    function At(k: nat): State {
      if k == 0 then Before(Libs.NO_LIBRARIES)
      else if k == 1 then Before(Registered())
      else if k == 2 then Before(WithDefault())
      else if k == 3 then Before(WithRoute())
      else if k == 4 then Ready(map[], map[])
      else if k == 5 then Ready(map[Path() := NEW_CHANNEL], map[])
      else if k == 6 then Ready(map[Path() := NEW_CHANNEL], map[Key() := None])
      else if k == 7 then Ready(map[Path() := NEW_CHANNEL], map[Key() := Some(20)])
      else if k == 8 then Ready(map[Path() := Channel(EMPTY_WINDOW, map[1 := Empty])], map[Key() := Some(20)])
      else if k == 9 then Ready(map[Path() := Channel(Window(1, []), map[1 := Payload()])], map[Key() := Some(20)])
      else Ready(map[Path() := Channel(Window(1, []), map[])], map[Key() := Some(20)])
    }

    /** Libraries, config, channel, record, attestation; then account, commit, delivery. */
    function StepAt(k: nat): Step {
      if k == 0 then ChangeLibraries(Libs.RegisterLibrary(ULN, Libs.Receive))
      else if k == 1 then ChangeLibraries(Libs.InitDefaultReceiveLibrary(SRC_EID, ULN))
      else if k == 2 then ChangeLibraries(Libs.InitReceiveLibrary(Path().Route()))
      else if k == 3 then Step.SetDefaultConfig(SRC_EID, config)
      else if k == 4 then InitNonce(Path())
      else if k == 5 then InitRecord(DVN, Header(), Payload())
      else if k == 6 then DvnVerify(DVN, Header(), Payload(), 20)
      else if k == 7 then OnChannel(Path(), InitVerify(1))
      else if k == 8 then CommitVerification(Header(), Payload(), [RecordAt(Key())])
      else OnChannel(Path(), Clear(1, address, message))
    }

    /** The run of the first `k` steps. */
    function States(k: nat): seq<State> {
      seq(k + 1, i requires 0 <= i => At(i))
    }

    function Steps(k: nat): seq<Step> {
      seq(k, i requires 0 <= i => StepAt(i))
    }

    ghost predicate Happens(k: nat) {
      Next(At(k), StepAt(k)) == Ok(At(k + 1))
    }
  }

  lemma RunOfSteps(d: Delivery, k: nat)
    requires forall i: nat | i < k :: d.Happens(i)
    ensures Protocol.Run(d.States(k), d.Steps(k))
  {
    assert Protocol.Initial(d.At(0));
    hide Next, Delivery.At, Delivery.StepAt, Protocol.Initial;
    forall i: nat | i < k ensures Next(d.States(k)[i], d.Steps(k)[i]) == Ok(d.States(k)[i + 1]) {
      assert d.Happens(i);
    }
  }

  lemma LibrariesAreSet(d: Delivery)
    ensures d.Happens(0) && d.Happens(1) && d.Happens(2)
  {
    hide Delivery.Header, Delivery.Payload, Delivery.Ready;
    assert map[][ULN := Libs.Receive] == d.Registered().registered;
    assert map[][SRC_EID := Libs.LibraryConfig(ULN, None)] == d.WithDefault().defaults;
    assert map[][d.Path().Route() := Libs.LibraryConfig(Libs.DEFAULT_MESSAGE_LIB, None)] == d.WithRoute().oapps;
  }

  lemma ChannelIsCreated(d: Delivery)
    requires SetDefaultConfigSpec(d.config) == Ok(d.config)
    ensures d.Happens(3) && d.Happens(4)
  {
    hide Delivery.Header, Delivery.Payload, Delivery.WithRoute, SetDefaultConfigSpec;
    assert map[][SRC_EID := d.config] == map[SRC_EID := d.config];
    assert map[][d.Path() := NEW_CHANNEL] == map[d.Path() := NEW_CHANNEL];
  }

  lemma DvnAttests(d: Delivery)
    ensures d.Happens(5) && d.Happens(6)
  {
    hide Delivery.Header, Delivery.Payload, Delivery.WithRoute;
    var none: Records := map[];
    assert none[d.Key() := None] == map[d.Key() := None];
    assert map[d.Key() := None][d.Key() := Some(20)] == map[d.Key() := Some(20)];
  }

  lemma AccountIsCreated(d: Delivery)
    ensures d.Happens(7)
  {
    hide Delivery.Header, Delivery.Payload, Delivery.WithRoute, Delivery.Key, EndpointChannel.Step;
    FirstMessage(Nil);
    var created := Channel(EMPTY_WINDOW, map[1 := Empty]);
    assert map[d.Path() := NEW_CHANNEL][d.Path() := created] == map[d.Path() := created];
  }

  /** Any config that the setter accepts can be in force when the DVN has attested. */
  lemma AttestationHappens(d: Delivery)
    requires SetDefaultConfigSpec(d.config) == Ok(d.config)
    ensures Protocol.Run(d.States(7), d.Steps(7))
  {
    hide Delivery.Happens;
    LibrariesAreSet(d);
    ChannelIsCreated(d);
    DvnAttests(d);
    RunOfSteps(d, 7);
  }

  // ---------- a complete delivery ----------

  const ONE_DVN := UlnConfig(1, 1, 0, 0, [DVN], [])

  lemma OneDvnIsValid()
    ensures SetDefaultConfigSpec(ONE_DVN) == Ok(ONE_DVN)
  {
  }

  lemma OneRecordIsEnough(d: Delivery)
    ensures CheckVerifiableSpec(ONE_DVN, [Record(d.Key(), Some(20))], Keccak(d.Header()), d.Payload()) == Ok(true)
  {
    hide Delivery.Header, Delivery.Payload;
    var claim := Claim(Keccak(d.Header()), d.Payload(), 1);
    var shown := [Record(d.Key(), Some(20))];
    assert Verified(DVN, shown[0], claim) == Ok(true);
    assert ScanRequired([DVN], shown, claim, 1) == Ok(true);
    assert ScanRequired([DVN], shown, claim, 0) == Ok(true);
  }

  /** What the commit finds. */
  lemma CommitIsReady(d: Delivery)
    requires d.config == ONE_DVN
    ensures var s := d.At(8);
            && VersionOf(d.Header()) == PACKET_VERSION && DstEidOf(d.Header()) == s.eid
            && PathOf(d.Header()) == d.Path() && NonceOf(d.Header()) == 1
            && ReceiveConfig(s, d.Path().Route()) == Ok(ONE_DVN)
            && Libs.Accepted(s.libraries, d.Path().Route(), s.uln)
            && ShowAll(s.records, [RecordAt(d.Key())])[..1] == [Record(d.Key(), Some(20))]
            && s.channels == map[d.Path() := Channel(EMPTY_WINDOW, map[1 := Empty])]
            && d.At(9) == s.(channels := map[d.Path() := Channel(Window(1, []), map[1 := d.Payload()])])
  {
    AccessorsInvertEncodeHeader(1, SRC_EID, d.address, LOCAL_EID, d.address);
    hide Delivery.Header, Delivery.Payload;
  }

  lemma CommitGoesThrough(s: State, header: HeaderBytes, payloadHash: Hash, accounts: seq<Address>,
                          config: UlnConfig, c: Channel)
    requires VersionOf(header) == PACKET_VERSION && DstEidOf(header) == s.eid
    requires ReceiveConfig(s, PathOf(header).Route()) == Ok(config) && Libs.Accepted(s.libraries, PathOf(header).Route(), s.uln)
    requires var size := |config.requiredDvns| + |config.optionalDvns|;
             && size <= |accounts|
             && CheckVerifiableSpec(config, ShowAll(s.records, accounts)[..size], Keccak(header), payloadHash) == Ok(true)
    requires PathOf(header) in s.channels && VerifySpec(s.channels[PathOf(header)], NonceOf(header), payloadHash) == Ok(c)
    ensures Next(s, CommitVerification(header, payloadHash, accounts)) == Ok(s.(channels := s.channels[PathOf(header) := c]))
  {
    hide CheckVerifiableSpec, ShowAll, ReceiveConfig, Libs.Accepted, VerifySpec;
  }

  lemma Commits(d: Delivery)
    requires d.config == ONE_DVN
    ensures d.Happens(8)
  {
    hide CheckVerifiableSpec, ShowAll, ReceiveConfig, Libs.Accepted, VerifySpec, Next;
    hide Delivery.At, Delivery.Header, Delivery.Key, Delivery.Path, VersionOf, DstEidOf, PathOf, NonceOf;
    CommitIsReady(d);
    OneRecordIsEnough(d);
    FirstMessage(d.Payload());
    var c := Channel(Window(1, []), map[1 := d.Payload()]);
    CommitGoesThrough(d.At(8), d.Header(), d.Payload(), [RecordAt(d.Key())], ONE_DVN, c);
    assert d.At(8).channels[d.Path() := c] == map[d.Path() := c];
  }

  lemma Delivers(d: Delivery)
    ensures d.Happens(9)
  {
    hide Delivery.Header, Delivery.WithRoute, Delivery.Key;
    var c := Channel(Window(1, []), map[]);
    assert map[1 := d.Payload()] - {1} == map[];
    assert d.At(9).channels[d.Path() := c] == map[d.Path() := c];
  }

  lemma OnlyUlnIsAccepted(d: Delivery, k: nat)
    requires k < 11
    ensures OnlyUln(d.At(k), d.Path().Route())
  {
    hide Delivery.Header, Delivery.Payload;
  }

  /** A run of the protocol in which only the ULN is accepted and a message is cleared. */
  lemma DeliveryHappens(d: Delivery)
    requires d.config == ONE_DVN
    ensures Protocol.Run(d.States(10), d.Steps(10))
    ensures forall k | 0 <= k < 11 :: OnlyUln(d.At(k), d.Path().Route())
    ensures d.Steps(10)[9] == OnChannel(d.Path(), Clear(1, d.address, d.message))
  {
    hide Protocol.Run, Delivery.Happens, Delivery.At, OnlyUln, SetDefaultConfigSpec;
    OneDvnIsValid();
    LibrariesAreSet(d);
    ChannelIsCreated(d);
    DvnAttests(d);
    AccountIsCreated(d);
    Commits(d);
    Delivers(d);
    RunOfSteps(d, 10);
    forall k | 0 <= k < 11 ensures OnlyUln(d.At(k), d.Path().Route()) {
      OnlyUlnIsAccepted(d, k);
    }
  }

  // ---------- a view that misleads ----------

  const ONE_OF_TWO_DVNS := UlnConfig(1, 0, 2, 1, [], [DVN, 8])

  lemma OneOfTwoIsValid()
    ensures SetDefaultConfigSpec(ONE_OF_TWO_DVNS) == Ok(ONE_OF_TWO_DVNS)
  {
  }

  lemma ShortListIsEnoughForTheScan(d: Delivery)
    ensures var shown := ShowAll(map[d.Key() := Some(20)], [RecordAt(d.Key())]);
            CheckVerifiableSpec(ONE_OF_TWO_DVNS, shown, Keccak(d.Header()), d.Payload()) == Ok(true)
  {
    hide Delivery.Header, Delivery.Payload;
  }

  lemma ViewIsPositive(d: Delivery)
    requires d.config == ONE_OF_TWO_DVNS
    ensures var s := d.At(7);
            && Views.Proper(s, d.Header(), d.Payload()) && ReceiveConfig(s, PathOf(d.Header()).Route()) == Ok(ONE_OF_TWO_DVNS)
            && Views.View(s, d.Header(), d.Payload(), [RecordAt(d.Key())]) == Ok(Views.Verifiable)
  {
    AccessorsInvertEncodeHeader(1, SRC_EID, d.address, LOCAL_EID, d.address);
    ShortListIsEnoughForTheScan(d);
    hide Delivery.Header, CheckVerifiableSpec, ShowAll;
  }

  /** The condition on the number of accounts is needed: the view scans with early exits, so at the end of
      this run it says verifiable on a list that the commit, which slices it first, refuses. */
  lemma ShortAccountListMisleads(d: Delivery)
    requires d.config == ONE_OF_TWO_DVNS
    ensures Protocol.Run(d.States(7), d.Steps(7))
    ensures Views.Proper(d.At(7), d.Header(), d.Payload())
    ensures Views.View(d.At(7), d.Header(), d.Payload(), [RecordAt(d.Key())]) == Ok(Views.Verifiable)
    ensures Views.InitAndCommit(d.At(7), d.Header(), d.Payload(), [RecordAt(d.Key())]).Err?
  {
    hide Protocol.Run, SetDefaultConfigSpec, ReceiveConfig, ValidChannels, ValidConfigs, Delivery.At, Delivery.Header;
    hide Views.Proper, Views.View, Views.InitAndCommit;
    OneOfTwoIsValid();
    AttestationHappens(d);
    Protocol.Reachable(d.States(7), d.Steps(7), 7);
    ViewIsPositive(d);
    Views.VerifiablePredictsCommit(d.At(7), d.Header(), d.Payload(), [RecordAt(d.Key())]);
  }
}
