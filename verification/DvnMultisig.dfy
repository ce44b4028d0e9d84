/** A DVN's multisig: a committee signs digests, anyone may submit one, each is executed at most once, and
    the record that prevents a second execution may be closed once the digest has expired. */
module DvnMultisig {
  import opened Common

  const ADMINS_MAX_LEN := 5
  const SIGNERS_MAX_LEN := 7

  /** A committee member's secp256k1 public key. */
  type Signer = nat
  type Signature = seq<byte>

  datatype Multisig = Multisig(signers: seq<Signer>, quorum: u8)

  datatype TransactionAccount = TransactionAccount(pubkey: Pubkey, isSigner: bool, isWritable: bool)

  /** What is signed.  A digest also stands for the hash of its serialisation, which is taken as injective. */
  datatype Digest = Digest(vid: u32, programId: Pubkey, accounts: seq<TransactionAccount>, data: seq<byte>, expiration: int)

  datatype MultisigConfig =
    | Admins(admins: seq<Pubkey>)
    | Allowlist(addresses: seq<Pubkey>)
    | Denylist(addresses: seq<Pubkey>)
    | Msglibs(addresses: seq<Pubkey>)
    | Paused(paused: bool)
    | Quorum(quorum: u8)
    | Signers(signers: seq<Signer>)

  datatype Config = Config(vid: u32, multisig: Multisig, paused: bool, admins: seq<Pubkey>)

  datatype Dvn = Dvn(config: Config, executed: map<Digest, int>)

  /** What the runtime and other programs answer: the program's own id, signature recovery, the decoding of
      a config, whether the access lists take an update, whether another program accepts a call. */
  datatype Env = Env(id: Pubkey, recover: (Digest, Signature) -> Option<Signer>, deserialize: seq<byte> -> Option<MultisigConfig>,
                     listsAccept: MultisigConfig -> bool, accepts: Digest -> bool)

  // ---------- the two checks with loops ----------

  /** The signatures from `i` on, given who has signed before. */
  function VerifyFrom(env: Env, m: Multisig, sigs: seq<Signature>, digest: Digest, i: nat,
                      signed: set<Signer>): Result<()>
    requires i <= m.quorum <= |sigs|
    decreases m.quorum - i
  {
    if i == m.quorum then Ok(())
    else
      var signer := env.recover(digest, sigs[i]);
      var _ :- Require(signer.Some?, SignatureError);
      var _ :- Require(signer.value in m.signers, SignerNotInCommittee);
      var _ :- Require(signer.value !in signed, DuplicateSignature);
      VerifyFrom(env, m, sigs, digest, i + 1, signed + {signer.value})
  }

  function VerifySpec(env: Env, m: Multisig, sigs: seq<Signature>, digest: Digest): Result<()> {
    var _ :- Require(m.quorum <= |sigs|, InvalidSignatureLen);
    VerifyFrom(env, m, sigs, digest, 0, {})
  }

  method VerifySignatures(env: Env, m: Multisig, sigs: seq<Signature>, digest: Digest) returns (r: Result<()>)
    ensures r == VerifySpec(env, m, sigs, digest)
  {
    if |sigs| < m.quorum {
      return Err(InvalidSignatureLen);
    }
    var signed: set<Signer> := {};
    var i := 0;
    while i < m.quorum
      invariant 0 <= i <= m.quorum
      invariant VerifyFrom(env, m, sigs, digest, i, signed) == VerifyFrom(env, m, sigs, digest, 0, {})
    {
      var signer := env.recover(digest, sigs[i]);
      if signer == None {
        return Err(SignatureError);
      }
      if signer.value !in m.signers {
        return Err(SignerNotInCommittee);
      }
      if signer.value in signed {
        return Err(DuplicateSignature);
      }
      signed := signed + {signer.value};
      i := i + 1;
    }
    return Ok(());
  }

  ghost predicate Unique(signers: seq<Signer>) {
    forall i, j | 0 <= i < j < |signers| :: signers[i] != signers[j]
  }

  /** What every reachable multisig satisfies. */
  ghost predicate Sane(m: Multisig) {
    && 1 <= |m.signers| <= SIGNERS_MAX_LEN
    && 1 <= m.quorum <= |m.signers|
    && Unique(m.signers)
  }

  ghost function SanitySpec(m: Multisig): Result<()> {
    var _ :- Require(1 <= |m.signers| <= SIGNERS_MAX_LEN, InvalidSignersLen);
    var _ :- Require(1 <= m.quorum <= |m.signers|, InvalidQuorum);
    Require(Unique(m.signers), UniqueOwners)
  }

  method SanityCheck(m: Multisig) returns (r: Result<()>)
    ensures r == SanitySpec(m)
    ensures r.Ok? <==> Sane(m)
  {
    if |m.signers| == 0 || |m.signers| > SIGNERS_MAX_LEN {
      return Err(InvalidSignersLen);
    }
    if m.quorum == 0 || m.quorum > |m.signers| {
      return Err(InvalidQuorum);
    }
    var unique: set<Signer> := {};
    var i := 0;
    while i < |m.signers|
      invariant 0 <= i <= |m.signers|
      invariant forall s :: s in unique <==> s in m.signers[..i]
      invariant Unique(m.signers[..i])
    {
      if m.signers[i] in unique {
        assert m.signers[i] in m.signers[..i];
        return Err(UniqueOwners);
      }
      assert m.signers[..i + 1] == m.signers[..i] + [m.signers[i]];
      unique := unique + {m.signers[i]};
      i := i + 1;
    }
    assert m.signers[..i] == m.signers;
    return Ok(());
  }

  // ---------- what passing the check means ----------

  /** Who the first `n` signatures recover to. */
  ghost function SignedBy(env: Env, sigs: seq<Signature>, digest: Digest, n: nat): set<Signer>
    requires n <= |sigs|
  {
    set i | 0 <= i < n && env.recover(digest, sigs[i]).Some? :: env.recover(digest, sigs[i]).value
  }

  /** The first `n` signatures recover to committee members, no two to the same one. */
  ghost predicate DistinctMembers(env: Env, m: Multisig, sigs: seq<Signature>, digest: Digest, from: nat, n: nat)
    requires n <= |sigs|
  {
    && (forall i | from <= i < n :: env.recover(digest, sigs[i]).Some? && env.recover(digest, sigs[i]).value in m.signers)
    && (forall i, j | from <= i < j < n :: env.recover(digest, sigs[i]) != env.recover(digest, sigs[j]))
  }

  lemma {:induction false} VerifyFromExact(env: Env, m: Multisig, sigs: seq<Signature>, digest: Digest, i: nat,
                            signed: set<Signer>)
    requires i <= m.quorum <= |sigs|
    ensures VerifyFrom(env, m, sigs, digest, i, signed).Ok? <==>
            && DistinctMembers(env, m, sigs, digest, i, m.quorum)
            && (forall k | i <= k < m.quorum ::
                  env.recover(digest, sigs[k]).Some? && env.recover(digest, sigs[k]).value !in signed)
    decreases m.quorum - i
  {
    if i < m.quorum {
      var signer := env.recover(digest, sigs[i]);
      if signer.Some? {
        VerifyFromExact(env, m, sigs, digest, i + 1, signed + {signer.value});
      }
    }
  }

  /** The check passes exactly if the first `quorum` signatures are by that many different members. */
  lemma VerifyIsExact(env: Env, m: Multisig, sigs: seq<Signature>, digest: Digest)
    ensures VerifySpec(env, m, sigs, digest).Ok? <==> m.quorum <= |sigs| && DistinctMembers(env, m, sigs, digest, 0, m.quorum)
  {
    if m.quorum <= |sigs| {
      VerifyFromExact(env, m, sigs, digest, 0, {});
    }
  }

  lemma {:induction false} DistinctSignersCount(env: Env, m: Multisig, sigs: seq<Signature>, digest: Digest, n: nat)
    requires n <= |sigs| && DistinctMembers(env, m, sigs, digest, 0, n)
    ensures |SignedBy(env, sigs, digest, n)| == n && forall s | s in SignedBy(env, sigs, digest, n) :: s in m.signers
  {
    if n == 0 {
      assert SignedBy(env, sigs, digest, 0) == {};
    } else {
      DistinctSignersCount(env, m, sigs, digest, n - 1);
      var last := env.recover(digest, sigs[n - 1]).value;
      assert SignedBy(env, sigs, digest, n) == SignedBy(env, sigs, digest, n - 1) + {last};
    }
  }

  // ---------- the instructions ----------

  /** The committee's own configuration. */
  ghost function ApplySpec(env: Env, c: Config, update: MultisigConfig): Result<Config> {
    match update
    case Admins(admins) =>
      var _ :- Require(|admins| <= ADMINS_MAX_LEN, TooManyAdmins);
      Ok(c.(admins := admins))
    case Allowlist(_) | Denylist(_) | Msglibs(_) =>
      var _ :- Require(env.listsAccept(update), InvalidArgument);
      Ok(c)
    case Paused(paused) => Ok(c.(paused := paused))
    case Quorum(quorum) =>
      var m := Multisig(c.multisig.signers, quorum);
      var _ :- SanitySpec(m);
      Ok(c.(multisig := m))
    case Signers(signers) =>
      var m := Multisig(signers, c.multisig.quorum);
      var _ :- SanitySpec(m);
      Ok(c.(multisig := m))
  }

  ghost function InvokeSpec(env: Env, s: Dvn, signer: Pubkey, digest: Digest, sigs: seq<Signature>,
                            now: int): Result<Dvn> {
    var _ :- Require(digest !in s.executed, AccountInUse);
    var _ :- Require(s.config.vid == digest.vid, InvalidVid);
    var _ :- Require(digest.expiration > now, Expired);
    var _ :- VerifySpec(env, s.config.multisig, sigs, digest);
    var executed := s.executed[digest := digest.expiration];
    if digest.programId == env.id then
      var update := env.deserialize(digest.data);
      var _ :- Require(update.Some?, InvalidAccountData);
      var _ :- Require(update.value.Admins? || signer in s.config.admins, NotAdmin);
      var config :- ApplySpec(env, s.config, update.value);
      Ok(Dvn(config, executed))
    else
      var _ :- Require(signer in s.config.admins, NotAdmin);
      var _ :- Require(env.accepts(digest), Abort);
      Ok(Dvn(s.config, executed))
  }

  function CloseExecuteSpec(s: Dvn, admin: Pubkey, digest: Digest, now: int): Result<Dvn> {
    var _ :- Require(admin in s.config.admins, NotAdmin);
    var _ :- Require(digest in s.executed, AccountNotInitialized);
    var _ :- Require(s.executed[digest] <= now, UnexpiredExecuteHash);
    Ok(s.(executed := s.executed - {digest}))
  }

  /** What an admin may set without the committee. */
  function SetConfigSpec(s: Dvn, admin: Pubkey, admins: seq<Pubkey>): Result<Dvn> {
    var _ :- Require(admin in s.config.admins, NotAdmin);
    var _ :- Require(|admins| <= ADMINS_MAX_LEN, TooManyAdmins);
    Ok(s.(config := s.config.(admins := admins)))
  }

  ghost function InitDvnSpec(vid: u32, signers: seq<Signer>, quorum: u8, admins: seq<Pubkey>): Result<Dvn> {
    var _ :- SanitySpec(Multisig(signers, quorum));
    var _ :- Require(|admins| <= ADMINS_MAX_LEN, TooManyAdmins);
    Ok(Dvn(Config(vid, Multisig(signers, quorum), false, admins), map[]))
  }

  class DvnConfig {
    var vid: u32
    var multisig: Multisig
    var paused: bool
    var admins: seq<Pubkey>

    constructor (c: Config)
      ensures View() == c
    {
      vid, multisig, paused, admins := c.vid, c.multisig, c.paused, c.admins;
    }

    ghost function View(): Config
      reads this
    {
      Config(vid, multisig, paused, admins)
    }

    method SetMultisig(m: Multisig) returns (r: Result<()>)
      modifies this`multisig
      ensures r == SanitySpec(m)
      ensures multisig == if r.Ok? then m else old(multisig)
    {
      r := SanityCheck(m);
      if r.Ok? {
        multisig := m;
      }
    }

    method SetAdmins(newAdmins: seq<Pubkey>) returns (r: Result<()>)
      modifies this`admins
      ensures r == Require(|newAdmins| <= ADMINS_MAX_LEN, TooManyAdmins)
      ensures admins == if r.Ok? then newAdmins else old(admins)
    {
      if |newAdmins| > ADMINS_MAX_LEN {
        return Err(TooManyAdmins);
      }
      admins := newAdmins;
      return Ok(());
    }

    method Apply(env: Env, update: MultisigConfig) returns (r: Result<()>)
      modifies this
      ensures Outcome(ApplySpec(env, old(View()), update), old(View()), r, View())
    {
      match update {
        case Admins(newAdmins) => r := SetAdmins(newAdmins);
        case Allowlist(_) | Denylist(_) | Msglibs(_) => r := if env.listsAccept(update) then Ok(()) else Err(InvalidArgument);
        case Paused(value) =>
          paused := value;
          r := Ok(());
        case Quorum(quorum) => r := SetMultisig(Multisig(multisig.signers, quorum));
        case Signers(signers) => r := SetMultisig(Multisig(signers, multisig.quorum));
      }
    }
  }

  class DvnAccounts {
    const config: DvnConfig
    var executeHashes: map<Digest, int>

    constructor (c: Config)
      ensures View() == Dvn(c, map[])
      ensures fresh(config)
    {
      config := new DvnConfig(c);
      executeHashes := map[];
    }

    ghost function View(): Dvn
      reads this, config
    {
      Dvn(config.View(), executeHashes)
    }

    method Invoke(env: Env, signer: Pubkey, digest: Digest, sigs: seq<Signature>, now: int) returns (r: Result<()>)
      modifies this, config
      ensures AtomicOutcome(InvokeSpec(env, old(View()), signer, digest, sigs, now), r, View())
    {
      if digest in executeHashes {
        return Err(AccountInUse);
      }
      if config.vid != digest.vid {
        return Err(InvalidVid);
      }
      if digest.expiration <= now {
        return Err(Expired);
      }
      r := VerifySignatures(env, config.multisig, sigs, digest);
      if r.Err? {
        return;
      }
      executeHashes := executeHashes[digest := digest.expiration];
      if digest.programId == env.id {
        var update := env.deserialize(digest.data);
        if update == None {
          return Err(InvalidAccountData);
        }
        if !update.value.Admins? && signer !in config.admins {
          return Err(NotAdmin);
        }
        r := config.Apply(env, update.value);
      } else {
        if signer !in config.admins {
          return Err(NotAdmin);
        }
        r := if env.accepts(digest) then Ok(()) else Err(Abort);
      }
    }

    method CloseExecute(admin: Pubkey, digest: Digest, now: int) returns (r: Result<()>)
      modifies this
      ensures Outcome(CloseExecuteSpec(old(View()), admin, digest, now), old(View()), r, View())
    {
      if admin !in config.admins {
        return Err(NotAdmin);
      }
      if digest !in executeHashes {
        return Err(AccountNotInitialized);
      }
      if executeHashes[digest] > now {
        return Err(UnexpiredExecuteHash);
      }
      executeHashes := executeHashes - {digest};
      return Ok(());
    }

    method SetConfig(admin: Pubkey, admins: seq<Pubkey>) returns (r: Result<()>)
      modifies config
      ensures Outcome(SetConfigSpec(old(View()), admin, admins), old(View()), r, View())
    {
      if admin !in config.admins {
        return Err(NotAdmin);
      }
      r := config.SetAdmins(admins);
    }
  }

  // ---------- runs ----------

  datatype Call =
    | Invoke(signer: Pubkey, digest: Digest, sigs: seq<Signature>, now: int)
    | CloseExecute(admin: Pubkey, digest: Digest, now: int)
    | SetConfig(admin: Pubkey, admins: seq<Pubkey>, now: int)

  ghost function Step(env: Env, s: Dvn, call: Call): Result<Dvn> {
    match call
    case Invoke(signer, digest, sigs, now) => InvokeSpec(env, s, signer, digest, sigs, now)
    case CloseExecute(admin, digest, now) => CloseExecuteSpec(s, admin, digest, now)
    case SetConfig(admin, admins, _) => SetConfigSpec(s, admin, admins)
  }

  /** Accepted calls under a clock that does not go back, from any initialised DVN. */
  ghost predicate Run(env: Env, states: seq<Dvn>, calls: seq<Call>) {
    && |states| == |calls| + 1
    && Sane(states[0].config.multisig) && states[0].executed == map[]
    && (forall k {:trigger calls[k]} | 0 <= k < |calls| :: Step(env, states[k], calls[k]) == Ok(states[k + 1]))
    && (forall j, k | 0 <= j < k < |calls| :: calls[j].now <= calls[k].now)
  }

  lemma InitIsSane(vid: u32, signers: seq<Signer>, quorum: u8, admins: seq<Pubkey>)
    ensures InitDvnSpec(vid, signers, quorum, admins).Ok? <==> Sane(Multisig(signers, quorum)) && |admins| <= 5
    ensures InitDvnSpec(vid, signers, quorum, admins).Ok? ==>
              var s := InitDvnSpec(vid, signers, quorum, admins).value;
              && Sane(s.config.multisig) && s.executed == map[]
              && s.config == Config(vid, Multisig(signers, quorum), false, admins)
  {
  }

  /** A call that changes the committee or its quorum is a digest that the committee of before signed. */
  lemma OnlyTheCommitteeChangesItself(env: Env, s: Dvn, call: Call)
    requires Step(env, s, call).Ok? && Step(env, s, call).value.config.multisig != s.config.multisig
    ensures call.Invoke? && call.digest.programId == env.id
    ensures VerifySpec(env, s.config.multisig, call.sigs, call.digest).Ok?
  {
  }

  /** Whatever is reconfigured, the committee stays sound: distinct members, at most seven, and a quorum
      between one and their number. */
  lemma {:induction false} CommitteeStaysSane(env: Env, states: seq<Dvn>, calls: seq<Call>, k: nat)
    requires Run(env, states, calls) && k < |states|
    ensures Sane(states[k].config.multisig)
  {
    if k > 0 {
      CommitteeStaysSane(env, states, calls, k - 1);
      StepKeepsSane(env, states[k - 1], calls[k - 1]);
    }
  }

  lemma StepKeepsSane(env: Env, s: Dvn, call: Call)
    requires Sane(s.config.multisig) && Step(env, s, call).Ok?
    ensures Sane(Step(env, s, call).value.config.multisig)
  {
    hide VerifySpec, Unique;
  }

  /** Every execution carries the signatures of `quorum` different members of the committee at that time. */
  lemma ExecutionHasQuorum(env: Env, states: seq<Dvn>, calls: seq<Call>, k: nat)
    requires Run(env, states, calls) && k < |calls| && calls[k].Invoke?
    ensures var m := states[k].config.multisig;
            && Sane(m) && m.quorum <= |calls[k].sigs|
            && var signers := SignedBy(env, calls[k].sigs, calls[k].digest, m.quorum);
               |signers| == m.quorum >= 1 && forall s | s in signers :: s in m.signers
  {
    CommitteeStaysSane(env, states, calls, k);
    assert Step(env, states[k], calls[k]) == Ok(states[k + 1]);
    var m := states[k].config.multisig;
    assert VerifySpec(env, m, calls[k].sigs, calls[k].digest).Ok?;
    hide Step, VerifySpec;
    VerifyIsExact(env, m, calls[k].sigs, calls[k].digest);
    DistinctSignersCount(env, m, calls[k].sigs, calls[k].digest, m.quorum);
  }

  /** Once executed, a digest is on record until it has expired. */
  ghost predicate Barred(s: Dvn, digest: Digest, time: int) {
    (digest in s.executed && s.executed[digest] == digest.expiration) || digest.expiration <= time
  }

  lemma StepKeepsBarred(env: Env, s: Dvn, call: Call, digest: Digest, time: int)
    requires Barred(s, digest, time) && time <= call.now && Step(env, s, call).Ok?
    ensures Barred(Step(env, s, call).value, digest, call.now)
    ensures call.Invoke? ==> call.digest != digest
  {
    hide VerifySpec, ApplySpec;
  }

  lemma InvokeBars(env: Env, s: Dvn, call: Call)
    requires call.Invoke? && Step(env, s, call).Ok?
    ensures Barred(Step(env, s, call).value, call.digest, call.now)
  {
    hide VerifySpec, ApplySpec;
  }

  lemma {:induction false} BarredStays(env: Env, states: seq<Dvn>, calls: seq<Call>, i: nat, k: nat)
    requires Run(env, states, calls) && i < k <= |calls| && calls[i].Invoke?
    ensures Barred(states[k], calls[i].digest, calls[k - 1].now)
    decreases k
  {
    hide Step, Barred;
    assert Step(env, states[i], calls[i]) == Ok(states[i + 1]);
    if k == i + 1 {
      InvokeBars(env, states[i], calls[i]);
    } else {
      BarredStays(env, states, calls, i, k - 1);
      assert Step(env, states[k - 1], calls[k - 1]) == Ok(states[k]);
      StepKeepsBarred(env, states[k - 1], calls[k - 1], calls[i].digest, calls[k - 2].now);
    }
  }

  /** No digest is executed twice, not even after its record was closed. */
  lemma ExecutedAtMostOnce(env: Env, states: seq<Dvn>, calls: seq<Call>, i: nat, j: nat)
    requires Run(env, states, calls) && i < j < |calls|
    requires calls[i].Invoke? && calls[j].Invoke?
    ensures calls[i].digest != calls[j].digest
  {
    BarredStays(env, states, calls, i, j);
    assert Step(env, states[j], calls[j]) == Ok(states[j + 1]);
    hide Step, Barred;
    StepKeepsBarred(env, states[j], calls[j], calls[i].digest, calls[j - 1].now);
  }

  // ---------- the state, read off the history ----------

  /** The configuration that a call executes, if it executes one. */
  ghost function UpdateOf(env: Env, call: Call): Option<MultisigConfig> {
    if call.Invoke? && call.digest.programId == env.id then env.deserialize(call.digest.data) else None
  }

  /** What the last executed update of each kind set, or else what the DVN was initialised with. */
  ghost function QuorumAfter(env: Env, initial: u8, calls: seq<Call>, k: nat): u8
    requires k <= |calls|
  {
    if k == 0 then initial
    else if UpdateOf(env, calls[k - 1]).Some? && UpdateOf(env, calls[k - 1]).value.Quorum?
    then UpdateOf(env, calls[k - 1]).value.quorum
    else QuorumAfter(env, initial, calls, k - 1)
  }

  ghost function SignersAfter(env: Env, initial: seq<Signer>, calls: seq<Call>, k: nat): seq<Signer>
    requires k <= |calls|
  {
    if k == 0 then initial
    else if UpdateOf(env, calls[k - 1]).Some? && UpdateOf(env, calls[k - 1]).value.Signers?
    then UpdateOf(env, calls[k - 1]).value.signers
    else SignersAfter(env, initial, calls, k - 1)
  }

  ghost function PausedAfter(env: Env, initial: bool, calls: seq<Call>, k: nat): bool
    requires k <= |calls|
  {
    if k == 0 then initial
    else if UpdateOf(env, calls[k - 1]).Some? && UpdateOf(env, calls[k - 1]).value.Paused?
    then UpdateOf(env, calls[k - 1]).value.paused
    else PausedAfter(env, initial, calls, k - 1)
  }

  /** The admins may also replace themselves. */
  ghost function AdminsAfter(env: Env, initial: seq<Pubkey>, calls: seq<Call>, k: nat): seq<Pubkey>
    requires k <= |calls|
  {
    if k == 0 then initial
    else if calls[k - 1].SetConfig? then calls[k - 1].admins
    else if UpdateOf(env, calls[k - 1]).Some? && UpdateOf(env, calls[k - 1]).value.Admins?
    then UpdateOf(env, calls[k - 1]).value.admins
    else AdminsAfter(env, initial, calls, k - 1)
  }

  /** Every field of the configuration in force is what the last executed update of that field set; no call
      changes a field that it does not name, and the id never changes. */
  lemma {:induction false} ConfigIsHistory(env: Env, states: seq<Dvn>, calls: seq<Call>, k: nat)
    requires Run(env, states, calls) && k < |states|
    ensures var c := states[0].config;
            states[k].config == Config(c.vid,
                                       Multisig(SignersAfter(env, c.multisig.signers, calls, k),
                                                QuorumAfter(env, c.multisig.quorum, calls, k)),
                                       PausedAfter(env, c.paused, calls, k), AdminsAfter(env, c.admins, calls, k))
  {
    if k > 0 {
      ConfigIsHistory(env, states, calls, k - 1);
      assert Step(env, states[k - 1], calls[k - 1]) == Ok(states[k]);
      hide Step, UpdateOf;
      StepSets(env, states[k - 1], calls[k - 1]);
    }
  }

  /** One call sets the field that it names and no other. */
  lemma StepSets(env: Env, s: Dvn, call: Call)
    requires Step(env, s, call).Ok?
    ensures var c, d, update := s.config, Step(env, s, call).value.config, UpdateOf(env, call);
            && d.vid == c.vid
            && d.multisig.quorum == (if update.Some? && update.value.Quorum? then update.value.quorum else c.multisig.quorum)
            && d.multisig.signers == (if update.Some? && update.value.Signers? then update.value.signers else c.multisig.signers)
            && d.paused == (if update.Some? && update.value.Paused? then update.value.paused else c.paused)
            && d.admins == if call.SetConfig? then call.admins
                           else if update.Some? && update.value.Admins? then update.value.admins else c.admins
  {
    hide VerifySpec, SanitySpec;
  }

  ghost predicate ExecutedBefore(calls: seq<Call>, k: nat, digest: Digest)
    requires k <= |calls|
  {
    exists i | 0 <= i < k :: calls[i].Invoke? && calls[i].digest == digest
  }

  /** A digest on record was executed earlier, and the record holds its expiration. */
  lemma {:induction false} OnRecordWasExecuted(env: Env, states: seq<Dvn>, calls: seq<Call>, k: nat, digest: Digest)
    requires Run(env, states, calls) && k < |states| && digest in states[k].executed
    ensures ExecutedBefore(calls, k, digest) && states[k].executed[digest] == digest.expiration
  {
    if k > 0 {
      assert Step(env, states[k - 1], calls[k - 1]) == Ok(states[k]);
      RecordStepBack(env, states[k - 1], calls[k - 1], digest);
      hide Step;
      if digest in states[k - 1].executed {
        OnRecordWasExecuted(env, states, calls, k - 1, digest);
      }
    }
  }

  lemma RecordStepBack(env: Env, s: Dvn, call: Call, digest: Digest)
    requires Step(env, s, call).Ok? && digest in Step(env, s, call).value.executed
    ensures var t := Step(env, s, call).value;
            || (digest in s.executed && s.executed[digest] == t.executed[digest])
            || (call.Invoke? && call.digest == digest && t.executed[digest] == digest.expiration)
  {
    hide VerifySpec, ApplySpec;
  }

  /** Which updates of its own configuration the committee can make. */
  ghost predicate Permitted(env: Env, m: Multisig, update: MultisigConfig) {
    match update
    case Admins(admins) => |admins| <= 5
    case Quorum(quorum) => 1 <= quorum <= |m.signers|
    case Signers(signers) => 1 <= |signers| <= 7 && m.quorum <= |signers| && Unique(signers)
    case Paused(_) => true
    case _ => env.listsAccept(update)
  }

  /** In every reachable state a digest is executed exactly if it names this DVN, has not expired, has never
      been executed, and carries the signatures of `quorum` different members; and besides, an admin submits
      it (anyone may submit a change of the admins) and what it asks for can be done. */
  lemma ExecutedExactlyWhenSigned(env: Env, states: seq<Dvn>, calls: seq<Call>, k: nat, call: Call)
    requires Run(env, states, calls) && k < |states| && call.Invoke?
    requires forall j | 0 <= j < k :: calls[j].now <= call.now
    ensures var c := states[k].config;
            Step(env, states[k], call).Ok? <==>
            && call.digest.vid == c.vid && call.now < call.digest.expiration
            && !ExecutedBefore(calls, k, call.digest)
            && c.multisig.quorum <= |call.sigs|
            && DistinctMembers(env, c.multisig, call.sigs, call.digest, 0, c.multisig.quorum)
            && (call.digest.programId != env.id ==> call.signer in c.admins && env.accepts(call.digest))
            && (call.digest.programId == env.id ==>
                  && UpdateOf(env, call).Some?
                  && (UpdateOf(env, call).value.Admins? || call.signer in c.admins)
                  && Permitted(env, c.multisig, UpdateOf(env, call).value))
  {
    RecordedExactlyWhenExecuted(env, states, calls, k, call.digest, call.now);
    VerifyIsExact(env, states[k].config.multisig, call.sigs, call.digest);
    CommitteeStaysSane(env, states, calls, k);
    hide VerifySpec, ExecutedBefore, DistinctMembers, ApplySpec;
    if UpdateOf(env, call).Some? {
      AppliedExactlyWhenPermitted(env, states[k].config, UpdateOf(env, call).value);
    }
  }

  lemma AppliedExactlyWhenPermitted(env: Env, c: Config, update: MultisigConfig)
    requires Sane(c.multisig)
    ensures ApplySpec(env, c, update).Ok? <==> Permitted(env, c.multisig, update)
  {
    hide Unique;
  }

  /** As long as it has not expired, a digest is on record exactly if it was executed. */
  lemma RecordedExactlyWhenExecuted(env: Env, states: seq<Dvn>, calls: seq<Call>, k: nat, digest: Digest, now: int)
    requires Run(env, states, calls) && k < |states|
    requires forall j | 0 <= j < k :: calls[j].now <= now
    ensures now < digest.expiration ==> (digest in states[k].executed <==> ExecutedBefore(calls, k, digest))
  {
    hide Step;
    if digest in states[k].executed {
      OnRecordWasExecuted(env, states, calls, k, digest);
    }
    if i :| 0 <= i < k && calls[i].Invoke? && calls[i].digest == digest {
      BarredStays(env, states, calls, i, k);
    }
  }

  ghost predicate ClosedAfter(calls: seq<Call>, i: nat, k: nat, digest: Digest)
    requires k <= |calls|
  {
    exists j | i < j < k :: calls[j].CloseExecute? && calls[j].digest == digest
  }

  /** An executed digest stays on record until it is closed. */
  lemma {:induction false} RecordStays(env: Env, states: seq<Dvn>, calls: seq<Call>, i: nat, k: nat)
    requires Run(env, states, calls) && i < k <= |calls| && calls[i].Invoke?
    ensures calls[i].digest in states[k].executed <==> !ClosedAfter(calls, i, k, calls[i].digest)
    decreases k
  {
    var digest := calls[i].digest;
    assert Step(env, states[k - 1], calls[k - 1]) == Ok(states[k]);
    RecordStep(env, states[k - 1], calls[k - 1], digest);
    hide Step;
    if i < k - 1 {
      RecordStays(env, states, calls, i, k - 1);
      ExecutedAtMostOnceHere(env, states, calls, i, k - 1);
    }
  }

  lemma RecordStep(env: Env, s: Dvn, call: Call, digest: Digest)
    requires Step(env, s, call).Ok?
    ensures var t := Step(env, s, call).value;
            digest in t.executed <==>
            || (call.Invoke? && call.digest == digest)
            || (digest in s.executed && !(call.CloseExecute? && call.digest == digest))
  {
    hide VerifySpec, ApplySpec;
  }

  lemma ExecutedAtMostOnceHere(env: Env, states: seq<Dvn>, calls: seq<Call>, i: nat, j: nat)
    requires Run(env, states, calls) && i < j < |calls| && calls[i].Invoke?
    ensures calls[j].Invoke? ==> calls[i].digest != calls[j].digest
  {
    hide Step;
    if calls[j].Invoke? {
      ExecutedAtMostOnce(env, states, calls, i, j);
    }
  }

  /** A record is closed exactly by an admin, for a digest that was executed, not closed since, and has
      expired. */
  lemma ClosedExactlyAfterExpiry(env: Env, states: seq<Dvn>, calls: seq<Call>, k: nat, call: Call)
    requires Run(env, states, calls) && k < |states| && call.CloseExecute?
    ensures Step(env, states[k], call).Ok? <==>
            && call.admin in states[k].config.admins && call.digest.expiration <= call.now
            && exists i | 0 <= i < k ::
                 calls[i].Invoke? && calls[i].digest == call.digest && !ClosedAfter(calls, i, k, call.digest)
  {
    hide ClosedAfter, InvokeSpec;
    if call.digest in states[k].executed {
      OnRecordWasExecuted(env, states, calls, k, call.digest);
      var i :| 0 <= i < k && calls[i].Invoke? && calls[i].digest == call.digest;
      RecordStays(env, states, calls, i, k);
    }
    if i :| 0 <= i < k && calls[i].Invoke? && calls[i].digest == call.digest && !ClosedAfter(calls, i, k, call.digest) {
      RecordStays(env, states, calls, i, k);
    }
  }

  /** Besides the committee, whoever is an admin by the history may replace the admins, by at most five. */
  lemma AdminsReplaceThemselves(env: Env, states: seq<Dvn>, calls: seq<Call>, k: nat, call: Call)
    requires Run(env, states, calls) && k < |states| && call.SetConfig?
    ensures Step(env, states[k], call).Ok? <==>
            call.admin in AdminsAfter(env, states[0].config.admins, calls, k) && |call.admins| <= 5
  {
    hide InvokeSpec, Run;
    ConfigIsHistory(env, states, calls, k);
  }
}
