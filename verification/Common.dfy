/** Machine integers, results and hashes shared by every part of the model.

    Integers are unbounded in Dafny, so the widths of the programs are written out as subset types.
    The programs are built with overflow checks on, hence an operation that leaves its width aborts;
    it is modelled as the error `Abort`.  A Solana transaction is atomic: an instruction that fails
    leaves every account as it was. */
module Common {

  const U64_MAX: int := 0xFFFF_FFFF_FFFF_FFFF
  const U128_MAX: int := 0xFFFF_FFFF_FFFF_FFFF_FFFF_FFFF_FFFF_FFFF

  type u8 = x: int | 0 <= x <= 0xFF
  type u16 = x: int | 0 <= x <= 0xFFFF
  type u32 = x: int | 0 <= x <= 0xFFFF_FFFF
  type u64 = x: int | 0 <= x <= U64_MAX
  type u128 = x: int | 0 <= x <= U128_MAX
  type byte = u8

  /** A 32-byte public key, read as a big-endian number: `<` is then the byte order of keys. */
  type Pubkey = nat

  datatype Option<+T> = None | Some(value: T)

  datatype Error =
    | Abort                    // overflow, out-of-bounds slice, failed unwrap
    | AccountNotInitialized
    | AccountInUse
    | Unauthorized
    // endpoint
    | InvalidNonce
    | InvalidPayloadHash
    | PayloadHashNotFound
    | InvalidReceiveLibrary
    | SameValue
    | OnlyReceiveLib
    | OnlyNonDefaultLib
    | AccountNotFound
    | InvalidExpiry
    // ULN
    | InvalidPacketVersion
    | InvalidEid
    | Verifying
    | InvalidConfirmation
    | InvalidAccountData
    | InvalidRequiredDVNCount
    | InvalidOptionalDVNCount
    | InvalidOptionalDVNThreshold
    | InvalidConfirmations
    | Unsorted
    | AtLeastOneDVN
    | InvalidWorkerId
    | InvalidOptionType
    | InvalidType1Size
    | InvalidType2Size
    | ExceededU128
    | InvalidAccountLength
    | InsufficientFee
    | InsufficientFunds
    | InvalidTreasury
    | LzTokenUnavailable
    | ExceededMaxMessageSize
    | NonSigner
    | InvalidExecutorProgram
    | InvalidExecutor
    | InvalidDvnProgram
    | InvalidDvn
    | InvalidBps
    // OApp library, OFT, executor, DVN
    | InvalidOptions
    | InvalidDecimals
    | EidNotSupported
    | SlippageExceeded
    | RateLimitExceeded
    | InvalidArgument
    | InvalidSize
    | UnsupportedOptionType
    | NativeAmountExceedsCap
    | ZeroLzReceiveGasProvided
    | ZeroLzComposeGasProvided
    | NoOptions
    | InvalidVid
    | Expired
    | UnexpiredExecuteHash
    | NotAdmin
    | InvalidSignatureLen
    | SignatureError
    | SignerNotInCommittee
    | DuplicateSignature
    | InvalidSignersLen
    | InvalidQuorum
    | UniqueOwners
    | TooManyAdmins

  /** What an instruction returns: a value, or the error that undid it. */
  datatype Result<+T> = Ok(value: T) | Err(error: Error) {
    predicate IsFailure() {
      Err?
    }

    function PropagateFailure<U>(): Result<U>
      requires Err?
    {
      Err(error)
    }

    function Extract(): T
      requires Ok?
    {
      value
    }
  }

  /** The checks that the programs write as `require!`. */
  function Require(condition: bool, error: Error): Result<()> {
    if condition then Ok(()) else Err(error)
  }

  /** How a method that updates accounts relates to its specification, a function from the old state to
      the new one: it makes the specified change, or reports the specified error and changes nothing. */
  ghost predicate Outcome<S>(spec: Result<S>, before: S, r: Result<()>, after: S) {
    match spec
    case Ok(s) => r == Ok(()) && after == s
    case Err(e) => r == Err(e) && after == before
  }

  /** The same for a method that may have begun its updates when it fails: the runtime undoes them. */
  ghost predicate AtomicOutcome<S>(spec: Result<S>, r: Result<()>, after: S) {
    match spec
    case Ok(s) => r == Ok(()) && after == s
    case Err(e) => r == Err(e)
  }

  /** 32-byte hashes.  Keccak is idealised as a free constructor, so it is injective and never yields
      the two reserved values.  `Other` stands for bytes that are no known Keccak image. */
  datatype Hash =
    | Empty                            // 32 zero bytes
    | Nil                              // 32 bytes 0xff
    | Keccak(preimage: seq<byte>)
    | Other(tag: nat)

  ghost predicate StrictlySorted(s: seq<int>) {
    forall i, j | 0 <= i < j < |s| :: s[i] < s[j]
  }

  /** Strictly sorted lists with the same elements are the same list. */
  lemma {:induction false} SortedListUnique(s: seq<int>, t: seq<int>)
    requires StrictlySorted(s) && StrictlySorted(t)
    requires forall x :: x in s <==> x in t
    ensures s == t
  {
    assert s != [] ==> s[0] in s;
    assert t != [] ==> t[0] in t;
    if s != [] && t != [] {
      assert s[0] in s && t[0] in t;
      assert s[0] in t && t[0] in s;
      assert s[0] == t[0];
      forall x ensures x in s[1..] <==> x in t[1..] {
        if x in s[1..] { assert x in s && x != s[0]; }
        if x in t[1..] { assert x in t && x != t[0]; }
      }
      SortedListUnique(s[1..], t[1..]);
    }
  }
}
