/** The ULN's decision whether enough DVNs have verified a packet: a scan with early exits over
    confirmation accounts that the caller supplies, and its exact meaning. */
module CheckVerifiable {
  import opened Common
  import opened UlnConfiguration

  /** The seeds of a confirmation record; the derived address is injective in them. */
  datatype RecordKey = RecordKey(headerHash: Hash, payloadHash: Hash, dvn: Pubkey)

  /** The value of a confirmation record: nothing until its DVN has verified. */
  type Confirmations = Option<u64>

  /** An account as the scan sees it. */
  datatype AccountInfo =
    | NotOwned                                            // not an account of the ULN program
    | Undecodable                                         // of the ULN, but not a confirmation record
    | Record(key: RecordKey, value: Confirmations)

  /** What a caller asks the scan to prove. */
  datatype Claim = Claim(headerHash: Hash, payloadHash: Hash, confirmations: u64)

  function KeyOf(claim: Claim, dvn: Pubkey): RecordKey {
    RecordKey(claim.headerHash, claim.payloadHash, dvn)
  }

  function Verified(dvn: Pubkey, account: AccountInfo, claim: Claim): Result<bool> {
    match account
    case NotOwned => Ok(false)
    case Undecodable => Err(InvalidAccountData)
    case Record(key, value) =>
      if key != KeyOf(claim, dvn) then Err(InvalidConfirmation)
      else Ok(value.Some? && value.value >= claim.confirmations)
  }

  // ---------- specification of the scan ----------

  /** The required DVNs from index `i` on: false at the first that has not verified. */
  function ScanRequired(dvns: seq<Pubkey>, accounts: seq<AccountInfo>, claim: Claim, i: nat): Result<bool>
    requires i <= |dvns|
    decreases |dvns| - i
  {
    if i == |dvns| then Ok(true)
    else if |accounts| <= i then Err(Abort)
    else
      var verified :- Verified(dvns[i], accounts[i], claim);
      if verified then ScanRequired(dvns, accounts, claim, i + 1) else Ok(false)
  }

  /** The optional DVNs from index `i` on: true as soon as `threshold` more have verified. */
  function ScanOptional(dvns: seq<Pubkey>, accounts: seq<AccountInfo>, offset: nat, claim: Claim, i: nat,
                        threshold: nat): Result<bool>
    requires i <= |dvns|
    decreases |dvns| - i
  {
    if i == |dvns| then Ok(false)
    else if |accounts| <= offset + i then Err(Abort)
    else
      var verified :- Verified(dvns[i], accounts[offset + i], claim);
      if !verified then ScanOptional(dvns, accounts, offset, claim, i + 1, threshold)
      else if threshold == 0 then Err(Abort)
      else if threshold == 1 then Ok(true)
      else ScanOptional(dvns, accounts, offset, claim, i + 1, threshold - 1)
  }

  function CheckVerifiableSpec(config: UlnConfig, accounts: seq<AccountInfo>, headerHash: Hash,
                            payloadHash: Hash): Result<bool> {
    var claim := Claim(headerHash, payloadHash, config.confirmations);
    var required :- if config.requiredDvnCount > 0 then ScanRequired(config.requiredDvns, accounts, claim, 0) else Ok(true);
    if !required then Ok(false)
    else if config.requiredDvnCount > 0 && config.optionalDvnThreshold == 0 then Ok(true)
    else ScanOptional(config.optionalDvns, accounts, |config.requiredDvns|, claim, 0, config.optionalDvnThreshold)
  }

  method CheckVerifiable(config: UlnConfig, accounts: seq<AccountInfo>, headerHash: Hash, payloadHash: Hash)
    returns (r: Result<bool>)
    ensures r == CheckVerifiableSpec(config, accounts, headerHash, payloadHash)
  {
    var claim := Claim(headerHash, payloadHash, config.confirmations);
    if config.requiredDvnCount > 0 {
      var i := 0;
      while i < |config.requiredDvns|
        invariant 0 <= i <= |config.requiredDvns|
        invariant ScanRequired(config.requiredDvns, accounts, claim, 0) == ScanRequired(config.requiredDvns, accounts, claim, i)
      {
        if |accounts| <= i {
          return Err(Abort);
        }
        var verified := Verified(config.requiredDvns[i], accounts[i], claim);
        if verified.Err? {
          return verified;
        }
        if !verified.value {
          return Ok(false);
        }
        i := i + 1;
      }
      if config.optionalDvnThreshold == 0 {
        return Ok(true);
      }
    }
    var threshold: nat := config.optionalDvnThreshold;
    var offset := |config.requiredDvns|;
    var i := 0;
    while i < |config.optionalDvns|
      invariant 0 <= i <= |config.optionalDvns|
      invariant CheckVerifiableSpec(config, accounts, headerHash, payloadHash)
                == ScanOptional(config.optionalDvns, accounts, offset, claim, i, threshold)
    {
      if |accounts| <= offset + i {
        return Err(Abort);
      }
      var verified := Verified(config.optionalDvns[i], accounts[offset + i], claim);
      if verified.Err? {
        return verified;
      }
      if verified.value {
        if threshold == 0 {
          return Err(Abort);
        }
        threshold := threshold - 1;
        if threshold == 0 {
          return Ok(true);
        }
      }
      i := i + 1;
    }
    return Ok(false);
  }

  // ---------- the meaning of the scan ----------

  predicate VerifiedAt(dvns: seq<Pubkey>, accounts: seq<AccountInfo>, offset: nat, claim: Claim, i: nat)
    requires i < |dvns|
  {
    offset + i < |accounts| && Verified(dvns[i], accounts[offset + i], claim) == Ok(true)
  }

  predicate AllVerified(config: UlnConfig, accounts: seq<AccountInfo>, claim: Claim) {
    forall i | 0 <= i < |config.requiredDvns| :: VerifiedAt(config.requiredDvns, accounts, 0, claim, i)
  }

  /** The DVNs from index `i` on that the accounts show as verified. */
  function VerifiedDvns(dvns: seq<Pubkey>, accounts: seq<AccountInfo>, offset: nat, claim: Claim, i: nat): set<Pubkey>
    requires i <= |dvns|
    decreases |dvns| - i
  {
    if i == |dvns| then {}
    else if VerifiedAt(dvns, accounts, offset, claim, i) then {dvns[i]} + VerifiedDvns(dvns, accounts, offset, claim, i + 1)
    else VerifiedDvns(dvns, accounts, offset, claim, i + 1)
  }

  lemma {:induction false} ScanRequiredExact(dvns: seq<Pubkey>, accounts: seq<AccountInfo>, claim: Claim, i: nat)
    requires i <= |dvns|
    ensures var r := ScanRequired(dvns, accounts, claim, i);
            r.Ok? ==> (r.value <==> forall k | i <= k < |dvns| :: VerifiedAt(dvns, accounts, 0, claim, k))
    decreases |dvns| - i
  {
    if i < |dvns| {
      assert VerifiedAt(dvns, accounts, 0, claim, i) <==> i < |accounts| && Verified(dvns[i], accounts[i], claim) == Ok(true);
      ScanRequiredExact(dvns, accounts, claim, i + 1);
    }
  }

  lemma {:induction false} VerifiedDvnsMember(dvns: seq<Pubkey>, accounts: seq<AccountInfo>, offset: nat,
                            claim: Claim, i: nat, d: Pubkey)
    requires i <= |dvns|
    ensures d in VerifiedDvns(dvns, accounts, offset, claim, i) <==>
            exists k | i <= k < |dvns| :: dvns[k] == d && VerifiedAt(dvns, accounts, offset, claim, k)
    decreases |dvns| - i
  {
    if i < |dvns| {
      VerifiedDvnsMember(dvns, accounts, offset, claim, i + 1, d);
    }
  }

  function CountVerified(dvns: seq<Pubkey>, accounts: seq<AccountInfo>, offset: nat, claim: Claim, i: nat): nat
    requires i <= |dvns|
    decreases |dvns| - i
  {
    if i == |dvns| then 0
    else (if VerifiedAt(dvns, accounts, offset, claim, i) then 1 else 0) + CountVerified(dvns, accounts, offset, claim, i + 1)
  }

  /** Distinct DVNs are counted once each. */
  lemma {:induction false} CountIsCardinality(dvns: seq<Pubkey>, accounts: seq<AccountInfo>, offset: nat,
                            claim: Claim, i: nat)
    requires i <= |dvns| && StrictlySorted(dvns)
    ensures CountVerified(dvns, accounts, offset, claim, i) == |VerifiedDvns(dvns, accounts, offset, claim, i)|
    decreases |dvns| - i
  {
    if i < |dvns| {
      CountIsCardinality(dvns, accounts, offset, claim, i + 1);
      VerifiedDvnsMember(dvns, accounts, offset, claim, i + 1, dvns[i]);
      assert forall k | i < k < |dvns| :: dvns[k] != dvns[i];
    }
  }

  /** The optional scan compares the count with the threshold, which does not run below zero. */
  lemma {:induction false} ScanOptionalCounts(dvns: seq<Pubkey>, accounts: seq<AccountInfo>, offset: nat,
                            claim: Claim, i: nat, threshold: nat)
    requires i <= |dvns| && 0 < threshold
    ensures var r := ScanOptional(dvns, accounts, offset, claim, i, threshold);
            r.Ok? ==> (r.value <==> threshold <= CountVerified(dvns, accounts, offset, claim, i))
    decreases |dvns| - i
  {
    if i < |dvns| {
      ScanOptionalCounts(dvns, accounts, offset, claim, i + 1, threshold);
      if threshold > 1 {
        ScanOptionalCounts(dvns, accounts, offset, claim, i + 1, threshold - 1);
      }
    }
  }

  /** On a sound config the answer, when there is one, is exact. */
  lemma CheckIsExact(config: UlnConfig, accounts: seq<AccountInfo>, headerHash: Hash, payloadHash: Hash)
    requires Sound(config)
    ensures var claim := Claim(headerHash, payloadHash, config.confirmations);
            var r := CheckVerifiableSpec(config, accounts, headerHash, payloadHash);
            r.Ok? ==>
              (r.value <==>
               && AllVerified(config, accounts, claim)
               && config.optionalDvnThreshold <= |VerifiedDvns(config.optionalDvns, accounts, |config.requiredDvns|, claim, 0)|)
  {
    var claim := Claim(headerHash, payloadHash, config.confirmations);
    ScanRequiredExact(config.requiredDvns, accounts, claim, 0);
    if config.optionalDvnThreshold > 0 {
      ScanOptionalCounts(config.optionalDvns, accounts, |config.requiredDvns|, claim, 0, config.optionalDvnThreshold);
      CountIsCardinality(config.optionalDvns, accounts, |config.requiredDvns|, claim, 0);
    }
  }

  lemma {:induction false} RequiredNeverAborts(dvns: seq<Pubkey>, accounts: seq<AccountInfo>, claim: Claim, i: nat)
    requires i <= |dvns| <= |accounts|
    ensures ScanRequired(dvns, accounts, claim, i) != Err(Abort)
    decreases |dvns| - i
  {
    if i < |dvns| {
      RequiredNeverAborts(dvns, accounts, claim, i + 1);
    }
  }

  lemma {:induction false} OptionalNeverAborts(dvns: seq<Pubkey>, accounts: seq<AccountInfo>, offset: nat,
                            claim: Claim, i: nat, threshold: nat)
    requires i <= |dvns| && offset + |dvns| <= |accounts| && 0 < threshold
    ensures ScanOptional(dvns, accounts, offset, claim, i, threshold) != Err(Abort)
    decreases |dvns| - i
  {
    if i < |dvns| {
      OptionalNeverAborts(dvns, accounts, offset, claim, i + 1, threshold);
      if threshold > 1 {
        OptionalNeverAborts(dvns, accounts, offset, claim, i + 1, threshold - 1);
      }
    }
  }

  /** On a sound config the threshold never runs below zero, and no account is indexed beyond a list of one
      account per DVN, whatever those accounts are. */
  lemma CheckNeverAborts(config: UlnConfig, accounts: seq<AccountInfo>, headerHash: Hash, payloadHash: Hash)
    requires Sound(config) && |config.requiredDvns| + |config.optionalDvns| <= |accounts|
    ensures CheckVerifiableSpec(config, accounts, headerHash, payloadHash) != Err(Abort)
  {
    var claim := Claim(headerHash, payloadHash, config.confirmations);
    RequiredNeverAborts(config.requiredDvns, accounts, claim, 0);
    if config.optionalDvnThreshold > 0 {
      OptionalNeverAborts(config.optionalDvns, accounts, |config.requiredDvns|, claim, 0, config.optionalDvnThreshold);
    }
  }

  // ---------- the records of the ULN ----------

  type Records = map<RecordKey, Confirmations>

  function InitRecordSpec(records: Records, key: RecordKey): Result<Records> {
    var _ :- Require(key !in records, AccountInUse);
    Ok(records[key := None])
  }

  /** Only the DVN in the key can sign this. */
  function DvnVerifySpec(records: Records, key: RecordKey, confirmations: u64): Result<Records> {
    var _ :- Require(key in records, AccountNotInitialized);
    Ok(records[key := Some(confirmations)])
  }

  function CloseRecordSpec(records: Records, key: RecordKey): Result<Records> {
    var _ :- Require(key in records, AccountNotInitialized);
    Ok(records - {key})
  }

  class ConfirmationAccounts {
    var records: Records

    constructor ()
      ensures records == map[]
    {
      records := map[];
    }

    method InitVerify(key: RecordKey) returns (r: Result<()>)
      modifies this
      ensures Outcome(InitRecordSpec(old(records), key), old(records), r, records)
    {
      if key in records {
        return Err(AccountInUse);
      }
      records := records[key := None];
      return Ok(());
    }

    method Verify(key: RecordKey, confirmations: u64) returns (r: Result<()>)
      modifies this
      ensures Outcome(DvnVerifySpec(old(records), key, confirmations), old(records), r, records)
    {
      if key !in records {
        return Err(AccountNotInitialized);
      }
      records := records[key := Some(confirmations)];
      return Ok(());
    }

    method CloseVerify(key: RecordKey) returns (r: Result<()>)
      modifies this
      ensures Outcome(CloseRecordSpec(old(records), key), old(records), r, records)
    {
      if key !in records {
        return Err(AccountNotInitialized);
      }
      records := records - {key};
      return Ok(());
    }
  }

  predicate Recorded(records: Records, claim: Claim, dvn: Pubkey) {
    var key := KeyOf(claim, dvn);
    key in records && records[key].Some? && records[key].value >= claim.confirmations
  }

  /** Enough DVNs have recorded enough confirmations for the claim. */
  ghost predicate Attested(records: Records, config: UlnConfig, headerHash: Hash, payloadHash: Hash) {
    var claim := Claim(headerHash, payloadHash, config.confirmations);
    && (forall d | d in config.requiredDvns :: Recorded(records, claim, d))
    && config.optionalDvnThreshold <= |RecordedAmong(records, config.optionalDvns, claim)|
  }

  ghost function RecordedAmong(records: Records, dvns: seq<Pubkey>, claim: Claim): (s: set<Pubkey>)
    ensures forall d :: d in s <==> d in dvns && Recorded(records, claim, d)
  {
    set d | d in dvns && Recorded(records, claim, d)
  }

  /** The runtime hands over accounts as they are: a record account shows the stored value. */
  ghost predicate Genuine(accounts: seq<AccountInfo>, records: Records) {
    forall i | 0 <= i < |accounts| && accounts[i].Record? ::
      accounts[i].key in records && records[accounts[i].key] == accounts[i].value
  }

  lemma SubsetIsSmaller(a: set<Pubkey>, b: set<Pubkey>)
    requires a <= b
    ensures |a| <= |b|
  {
    var rest := b - a;
    assert b == a + rest;
  }

  /** Whatever genuine accounts a caller picks, a positive answer means the records attest the claim. */
  lemma PositiveCheckIsAttested(config: UlnConfig, accounts: seq<AccountInfo>, records: Records, headerHash: Hash,
                            payloadHash: Hash)
    requires Sound(config) && Genuine(accounts, records)
    requires CheckVerifiableSpec(config, accounts, headerHash, payloadHash) == Ok(true)
    ensures Attested(records, config, headerHash, payloadHash)
  {
    hide CheckVerifiableSpec, Distinct, VerifiedDvns;
    CheckIsExact(config, accounts, headerHash, payloadHash);
    var claim := Claim(headerHash, payloadHash, config.confirmations);
    var offset := |config.requiredDvns|;
    forall d | d in config.requiredDvns ensures Recorded(records, claim, d) {
      var i :| 0 <= i < |config.requiredDvns| && config.requiredDvns[i] == d;
      assert VerifiedAt(config.requiredDvns, accounts, 0, claim, i);
    }
    var shown := VerifiedDvns(config.optionalDvns, accounts, offset, claim, 0);
    forall d | d in shown ensures d in RecordedAmong(records, config.optionalDvns, claim) {
      VerifiedDvnsMember(config.optionalDvns, accounts, offset, claim, 0, d);
      var k :| 0 <= k < |config.optionalDvns| && config.optionalDvns[k] == d
               && VerifiedAt(config.optionalDvns, accounts, offset, claim, k);
    }
    SubsetIsSmaller(shown, RecordedAmong(records, config.optionalDvns, claim));
  }

  /** The account of a DVN's record, as the runtime shows it. */
  function AccountOf(records: Records, claim: Claim, dvn: Pubkey): AccountInfo {
    var key := KeyOf(claim, dvn);
    if key in records then Record(key, records[key]) else NotOwned
  }

  /** The accounts a caller should pass: one per DVN, in the order of the config. */
  function DvnAccounts(records: Records, config: UlnConfig, claim: Claim): (accounts: seq<AccountInfo>)
    ensures |accounts| == |config.requiredDvns| + |config.optionalDvns|
  {
    seq(|config.requiredDvns|, i requires 0 <= i < |config.requiredDvns| => AccountOf(records, claim, config.requiredDvns[i]))
    + seq(|config.optionalDvns|, i requires 0 <= i < |config.optionalDvns| => AccountOf(records, claim, config.optionalDvns[i]))
  }

  lemma {:induction false} ScanRequiredPrefix(dvns: seq<Pubkey>, accounts: seq<AccountInfo>, size: nat,
                            claim: Claim, i: nat)
    requires i <= |dvns| <= size <= |accounts|
    ensures ScanRequired(dvns, accounts[..size], claim, i) == ScanRequired(dvns, accounts, claim, i)
    decreases |dvns| - i
  {
    if i < |dvns| {
      ScanRequiredPrefix(dvns, accounts, size, claim, i + 1);
    }
  }

  lemma {:induction false} ScanOptionalPrefix(dvns: seq<Pubkey>, accounts: seq<AccountInfo>, size: nat, offset: nat,
                            claim: Claim, i: nat, threshold: nat)
    requires i <= |dvns| && offset + |dvns| <= size <= |accounts|
    ensures ScanOptional(dvns, accounts[..size], offset, claim, i, threshold)
            == ScanOptional(dvns, accounts, offset, claim, i, threshold)
    decreases |dvns| - i
  {
    if i < |dvns| {
      ScanOptionalPrefix(dvns, accounts, size, offset, claim, i + 1, threshold);
      if threshold > 1 {
        ScanOptionalPrefix(dvns, accounts, size, offset, claim, i + 1, threshold - 1);
      }
    }
  }

  /** Accounts beyond one per DVN do not matter. */
  lemma ExtraAccountsDoNotMatter(config: UlnConfig, accounts: seq<AccountInfo>, headerHash: Hash, payloadHash: Hash)
    requires |config.requiredDvns| + |config.optionalDvns| <= |accounts|
    ensures var size := |config.requiredDvns| + |config.optionalDvns|;
            CheckVerifiableSpec(config, accounts[..size], headerHash, payloadHash)
            == CheckVerifiableSpec(config, accounts, headerHash, payloadHash)
  {
    var size := |config.requiredDvns| + |config.optionalDvns|;
    var claim := Claim(headerHash, payloadHash, config.confirmations);
    ScanRequiredPrefix(config.requiredDvns, accounts, size, claim, 0);
    ScanOptionalPrefix(config.optionalDvns, accounts, size, |config.requiredDvns|, claim, 0, config.optionalDvnThreshold);
  }

  lemma {:induction false} ScanRequiredAnswers(dvns: seq<Pubkey>, accounts: seq<AccountInfo>, claim: Claim, i: nat)
    requires i <= |dvns| <= |accounts|
    requires forall k | 0 <= k < |dvns| :: Verified(dvns[k], accounts[k], claim).Ok?
    ensures ScanRequired(dvns, accounts, claim, i).Ok?
    decreases |dvns| - i
  {
    if i < |dvns| {
      ScanRequiredAnswers(dvns, accounts, claim, i + 1);
    }
  }

  lemma {:induction false} ScanOptionalAnswers(dvns: seq<Pubkey>, accounts: seq<AccountInfo>, offset: nat,
                            claim: Claim, i: nat, threshold: nat)
    requires i <= |dvns| && offset + |dvns| <= |accounts| && 0 < threshold
    requires forall k | 0 <= k < |dvns| :: Verified(dvns[k], accounts[offset + k], claim).Ok?
    ensures ScanOptional(dvns, accounts, offset, claim, i, threshold).Ok?
    decreases |dvns| - i
  {
    if i < |dvns| {
      ScanOptionalAnswers(dvns, accounts, offset, claim, i + 1, threshold);
      if threshold > 1 {
        ScanOptionalAnswers(dvns, accounts, offset, claim, i + 1, threshold - 1);
      }
    }
  }

  lemma AccountShowsRecord(records: Records, claim: Claim, dvn: Pubkey)
    ensures Verified(dvn, AccountOf(records, claim, dvn), claim) == Ok(Recorded(records, claim, dvn))
  {
  }

  /** On the right accounts, what the scan sees is what the records say. */
  lemma DvnAccountsShowRecords(config: UlnConfig, records: Records, claim: Claim)
    ensures var accounts := DvnAccounts(records, config, claim);
            && (forall k | 0 <= k < |config.requiredDvns| ::
                  && Verified(config.requiredDvns[k], accounts[k], claim).Ok?
                  && (VerifiedAt(config.requiredDvns, accounts, 0, claim, k)
                      <==> Recorded(records, claim, config.requiredDvns[k])))
            && (forall k | 0 <= k < |config.optionalDvns| ::
                  && Verified(config.optionalDvns[k], accounts[|config.requiredDvns| + k], claim).Ok?
                  && (VerifiedAt(config.optionalDvns, accounts, |config.requiredDvns|, claim, k)
                      <==> Recorded(records, claim, config.optionalDvns[k])))
  {
    var accounts := DvnAccounts(records, config, claim);
    forall k | 0 <= k < |config.requiredDvns|
      ensures Verified(config.requiredDvns[k], accounts[k], claim).Ok?
      ensures VerifiedAt(config.requiredDvns, accounts, 0, claim, k) <==> Recorded(records, claim, config.requiredDvns[k])
    {
      assert accounts[0 + k] == AccountOf(records, claim, config.requiredDvns[k]);
      AccountShowsRecord(records, claim, config.requiredDvns[k]);
    }
    forall k | 0 <= k < |config.optionalDvns|
      ensures Verified(config.optionalDvns[k], accounts[|config.requiredDvns| + k], claim).Ok?
      ensures VerifiedAt(config.optionalDvns, accounts, |config.requiredDvns|, claim, k)
              <==> Recorded(records, claim, config.optionalDvns[k])
    {
      assert accounts[|config.requiredDvns| + k] == AccountOf(records, claim, config.optionalDvns[k]);
      AccountShowsRecord(records, claim, config.optionalDvns[k]);
    }
  }

  lemma DvnAccountsAttest(config: UlnConfig, records: Records, claim: Claim)
    ensures var accounts := DvnAccounts(records, config, claim);
            && (AllVerified(config, accounts, claim) <==> forall d | d in config.requiredDvns :: Recorded(records, claim, d))
            && VerifiedDvns(config.optionalDvns, accounts, |config.requiredDvns|, claim, 0)
               == RecordedAmong(records, config.optionalDvns, claim)
  {
    hide Recorded, Verified, VerifiedAt, DvnAccounts;
    DvnAccountsShowRecords(config, records, claim);
    assert forall k | 0 <= k < |config.requiredDvns| :: config.requiredDvns[k] in config.requiredDvns;
    forall d
      ensures d in VerifiedDvns(config.optionalDvns, DvnAccounts(records, config, claim), |config.requiredDvns|, claim, 0)
              <==> d in RecordedAmong(records, config.optionalDvns, claim)
    {
      VerifiedDvnsMember(config.optionalDvns, DvnAccounts(records, config, claim), |config.requiredDvns|, claim, 0, d);
    }
  }

  /** With the right accounts the scan always answers, and the answer is whether the claim is attested. */
  lemma CheckDecidesAttestation(config: UlnConfig, records: Records, headerHash: Hash, payloadHash: Hash)
    requires Sound(config)
    ensures var claim := Claim(headerHash, payloadHash, config.confirmations);
            CheckVerifiableSpec(config, DvnAccounts(records, config, claim), headerHash, payloadHash)
            == Ok(Attested(records, config, headerHash, payloadHash))
  {
    hide Recorded, Verified, VerifiedAt, DvnAccounts, VerifiedDvns, AllVerified, Distinct;
    var claim := Claim(headerHash, payloadHash, config.confirmations);
    var accounts := DvnAccounts(records, config, claim);
    DvnAccountsShowRecords(config, records, claim);
    DvnAccountsAttest(config, records, claim);
    ScanRequiredAnswers(config.requiredDvns, accounts, claim, 0);
    if config.optionalDvnThreshold > 0 {
      ScanOptionalAnswers(config.optionalDvns, accounts, |config.requiredDvns|, claim, 0, config.optionalDvnThreshold);
    }
    CheckIsExact(config, accounts, headerHash, payloadHash);
  }
}
