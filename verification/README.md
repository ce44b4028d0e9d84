# LayerZero V2 on Solana: a verified model

This project models the receiving side of LayerZero V2 on Solana (endpoint, ULN, DVN and executor), the
OFT token application, and the options and fees of the sending side, and proves what these programs promise
together. Each module follows one source file or one question that spans several.

**Conventions.** A transaction is atomic, so an instruction that fails leaves every account as it was; a run
lists accepted instructions only. Integer widths are explicit, and arithmetic that leaves its width aborts, as
the programs are built with overflow checks. Keccak is a free constructor, hence injective and never EMPTY or
NIL. An address derived from seeds is identified with its seeds. Code that updates accounts in place is a class
whose methods are proved against a specification function from old state to new; loops are loops. The lemmas are
about those functions and about runs of them.

**The inbound channel** (`MessagingChannel`, `EndpointChannel`, `ChannelRuns`, `Executable`). A channel keeps
the last nonce of its gap-free prefix, a sorted list of at most 256 nonces beyond it, and a payload hash per
nonce. Prefix and list together are a compressed form of one set, the nonces ever committed: every insertion is
a set insertion, and any two schedules of the same nonces end in the same window. An invariant ties the three
structures together and is kept by all six instructions. Over any run a nonce is delivered at most once, never
before every earlier one has been dealt with, and only with the payload verified last. The executor's view
agrees with all this exactly, and each instruction is accepted exactly when it is due by the history.

**Verification** (`UlnConfiguration`, `CheckVerifiable`, `ReceiveLibraries`, `PacketCodec`, `Protocol`,
`ProtocolChannels`, `Authenticity`, `Deliverability`, `Verifiable`, `Scenarios`). Layered DVN configuration,
confirmation records, the threshold scan, the commit, and the receive libraries with their grace periods form
one state machine, in which any caller may take any step. The main theorem, `Authenticity.ClearedIsAuthentic`,
says what a successful `clear` proves: its payload hash was written by a commit, or by another library accepted
at that moment, and before a commit every required DVN and a threshold of distinct optional ones had themselves
verified exactly this header and payload hash with enough confirmations, under the config then in force.
`Deliverability.SignedOffIsDeliverable` is the converse: what stands signed off can be committed and cleared,
from the bytes that its sender encoded. The DVN's `verifiable` view is proved to predict the protocol, up to one
exact condition on the accounts that are passed.

**Tokens** (`TransferFee`, `TokenBucket`, `OftMessages`, `Tokens`, `Oft`, `OftTransfers`, `OftConservation`,
`OftLimits`). The inverse of the capped, rounded transfer fee forms a Galois connection with the fee, so a
sender never pays more than the offer and exactly the dedusted amount arrives. The rate limiter obeys its bound
over every run, and with it the value that an OFT sends. For an adapter on one chain and a native token on
another, with any number of users, donations, fee changes, nilified, skipped or burnt messages, the escrow backs
the supply and everything under way, to the unit; and each receipt credits the receiver that the sender of that
very message named. `Arithmetic` holds the few facts about products and quotients that these modules use.

**Options and fees** (`Bytes`, `Options`, `ExecutorQuote`, `EvmExecutorFee`, `UlnFees`, `UlnWorkers`). Parsing
and encoding options are inverse; combining enforced and extra options preserves their meaning; legacy strings
mean their type-3 forms. The executor's gas total has a closed form that does not depend on the order of the
options, and the EVM total differs from it by an exact amount. A quote is exactly what the configured workers
answer and the treasury's share; a ULN send charges exactly its quote, and every account on the ledger ends up
with exactly its share.

**The DVN multisig** (`DvnMultisig`). No digest is executed twice, a digest is executed exactly if it carries a
quorum of distinct members and meets the stated conditions, every field of the configuration is what the last
executed update of it set, and the committee stays sound under every change of its members or quorum, which only
the committee itself can make.

**Properties that fail, with their exact conditions.**

- The `verifiable` view scans with early exits, while `commit_verification` first slices its accounts to the
  number of DVNs; a view of `Verifiable` predicts the commit exactly if at least that many accounts are
  passed (`Verifiable.VerifiablePredictsCommit`, `Scenarios.ShortAccountListMisleads`).
- A custom ULN config is checked against the default of its time only; a later default can leave it without
  any DVN (`UlnConfiguration.DefaultChangeCanUnresolve`; `UlnConfiguration.ResolvedIsSound` gives the condition).
- Minting on the native side can overflow when its rate is larger than the adapter's; it succeeds exactly if
  the supply stays a u64 (`OftConservation.MintSucceedsWithinU64`, `OftConservation.MintCanOverflow`).
- The option encoders cut the length to 16 bits; the round trip holds exactly if every option fits
  (`Options.RoundTrip`). Type-2 strings of 67 to 97 bytes pass the size check and abort (`Options.LegacySizes`).
- A quote in LZ tokens without any treasury asks for no treasury fee, while the send refuses
  (`UlnFees.LzQuotedSendNeedsTreasury`).

## Model

| member | source | states |
|---|---|---|
| MessagingChannel.Nonce.UpdateInboundNonce | packages/layerzero-v2/solana/programs/programs/endpoint/src/state/messaging_channel.rs:19-34 | The scanning loop moves the nonce over the consecutive head of the list and drains exactly that head |
| MessagingChannel.PendingInboundNonce.InsertPendingInboundNonce | packages/layerzero-v2/solana/programs/programs/endpoint/src/state/messaging_channel.rs:47-66 | Accepts, refuses or aborts as specified; on acceptance the two accounts hold the window after the insertion, on refusal they are unchanged |
| MessagingChannel.AdvanceHead | packages/layerzero-v2/solana/programs/programs/endpoint/src/state/messaging_channel.rs:19-34 | What is drained is exactly the range of nonces the prefix moves over |
| MessagingChannel.AdvanceTail | packages/layerzero-v2/solana/programs/programs/endpoint/src/state/messaging_channel.rs:19-34 | What stays in the list is sorted and starts beyond a gap |
| MessagingChannel.AdvanceKeepsSet | packages/layerzero-v2/solana/programs/programs/endpoint/src/state/messaging_channel.rs:19-34 | Draining changes the representation and not the set of committed nonces |
| MessagingChannel.InsertRefinesSetInsertion | packages/layerzero-v2/solana/programs/programs/endpoint/src/state/messaging_channel.rs:47-66 | One insertion adds exactly one nonce to the represented set, keeps the invariant, and is accepted exactly for the 256 nonces after the prefix |
| MessagingChannel.InboundIsFront | packages/layerzero-v2/solana/programs/programs/endpoint/src/state/messaging_channel.rs:10-34 | The inbound nonce is the one largest k with {1..k} committed |
| MessagingChannel.WindowDeterminedBySet | packages/layerzero-v2/solana/programs/programs/endpoint/src/state/messaging_channel.rs:39-66 | Two normal windows that stand for the same set are equal |
| MessagingChannel.PendingFitsItsAccount | packages/layerzero-v2/solana/programs/programs/endpoint/src/state/messaging_channel.rs:6-66 | At most 255 nonces rest in the list, so an insertion fits the 256-slot account |
| MessagingChannel.InsertAllRefines | packages/layerzero-v2/solana/programs/programs/endpoint/src/state/messaging_channel.rs:47-66 | An accepted schedule of insertions represents the set of its nonces |
| MessagingChannel.OrderIndependence | packages/layerzero-v2/solana/programs/programs/endpoint/src/state/messaging_channel.rs:19-66 | Accepted schedules with the same nonces end in the same window, whatever the order and the repeats; its prefix is the largest gap-free one, its list the sorted rest |
| EndpointChannel.ChannelAccounts.InitVerify | packages/layerzero-v2/solana/programs/programs/endpoint/src/instructions/init_verify.rs:5-43 | Creates the payload-hash account, empty, for a nonce ahead of the prefix that has none |
| EndpointChannel.ChannelAccounts.Verify | packages/layerzero-v2/solana/programs/programs/endpoint/src/instructions/verify.rs:60-90 | Commits a nonce ahead of the prefix and stores a hash other than EMPTY; refusals change nothing |
| EndpointChannel.ChannelAccounts.Nilify | packages/layerzero-v2/solana/programs/programs/endpoint/src/instructions/oapp/nilify.rs:40-75 | Given the stored hash, commits a nonce ahead of the prefix and overwrites the hash with NIL |
| EndpointChannel.ChannelAccounts.Skip | packages/layerzero-v2/solana/programs/programs/endpoint/src/instructions/oapp/skip.rs:20-73 | Only for the nonce after the prefix: commits it and closes its account |
| EndpointChannel.ChannelAccounts.Burn | packages/layerzero-v2/solana/programs/programs/endpoint/src/instructions/oapp/burn.rs:20-61 | Inside the prefix and given the stored hash, closes the account |
| EndpointChannel.ChannelAccounts.Clear | packages/layerzero-v2/solana/programs/programs/endpoint/src/instructions/oapp/clear.rs:24-70 | Inside the prefix and given the preimage of the stored hash, closes the account |
| EndpointChannel.CommitRefines | packages/layerzero-v2/solana/programs/programs/endpoint/src/instructions/verify.rs:69-79 | Committing a nonce adds it to the set, or finds it there |
| EndpointChannel.WindowMoves | packages/layerzero-v2/solana/programs/programs/endpoint/src/state/messaging_channel.rs:19-66 | The accounts and the list still match after the set has grown by one nonce and only its account has changed |
| EndpointChannel.SkipAdvances | packages/layerzero-v2/solana/programs/programs/endpoint/src/instructions/oapp/skip.rs:20-73 | A skip always strictly advances the prefix |
| EndpointChannel.StepKeepsInv | packages/layerzero-v2/solana/programs/programs/endpoint/src/state/messaging_channel.rs:19-66 | Every instruction keeps the invariant (hashes inside the prefix are never EMPTY, beyond it pending means a non-EMPTY hash), adds its nonce exactly if it commits, and touches no other account |
| EndpointChannel.ClosingIsFinal | packages/layerzero-v2/solana/programs/programs/endpoint/src/instructions/oapp/clear.rs:24-66 | A closing instruction makes its nonce final, and a final nonce refuses every instruction |
| ChannelRuns.ReachableRefinesCommittedSet | packages/layerzero-v2/solana/programs/programs/endpoint/src/state/messaging_channel.rs:19-66 | In every reachable state the window stands for the set of all nonces committed so far |
| ChannelRuns.WindowsAgree | packages/layerzero-v2/solana/programs/programs/endpoint/src/state/messaging_channel.rs:19-66 | Runs that committed the same nonces have the same window |
| ChannelRuns.ClosedForever | packages/layerzero-v2/solana/programs/programs/endpoint/src/instructions/oapp/clear.rs:24-66 | A final nonce stays final |
| ChannelRuns.NothingAfterClosing | packages/layerzero-v2/solana/programs/programs/endpoint/src/instructions/oapp/clear.rs:24-66 | After clear, burn or skip of a nonce every instruction on it fails |
| ChannelRuns.AtMostOnce | packages/layerzero-v2/solana/programs/programs/endpoint/src/instructions/oapp/clear.rs:24-66 | In a run no instruction follows a closing one on the same nonce, so each nonce is cleared at most once |
| ChannelRuns.ClearedWithoutGap | packages/layerzero-v2/solana/programs/programs/endpoint/src/instructions/oapp/clear.rs:24-66 | When a nonce is cleared, every nonce before it was verified, nilified or skipped |
| ChannelRuns.StoredHashIsLastWritten | packages/layerzero-v2/solana/programs/programs/endpoint/src/instructions/verify.rs:69-90 | A stored hash is what the last verify or nilify of its nonce wrote |
| ChannelRuns.ClearedWasLastVerified | packages/layerzero-v2/solana/programs/programs/endpoint/src/instructions/oapp/clear.rs:50-66 | What is cleared is the payload of the last verify, with no nilify since |
| ChannelRuns.NilifiedNeedsReverification | packages/layerzero-v2/solana/programs/programs/endpoint/src/instructions/oapp/nilify.rs:55-75 | A nilified nonce cannot be cleared before it is verified again |
| ChannelRuns.FinalExactlyWhenClosed | packages/layerzero-v2/solana/programs/programs/endpoint/src/instructions/oapp/clear.rs:24-66 | A nonce is final exactly if an earlier instruction cleared, burnt or skipped it |
| ChannelRuns.StoredExactlyWhenWritten | packages/layerzero-v2/solana/programs/programs/endpoint/src/instructions/verify.rs:69-90 | A hash is stored exactly if it was the last one written to its nonce and the nonce has not been closed |
| ChannelRuns.ClearableExactlyWhenInOrder | packages/layerzero-v2/solana/programs/programs/endpoint/src/instructions/oapp/clear.rs:24-66 | A payload can be cleared exactly if every nonce up to its own has been committed, the last hash written is that of the guid and the message, and the nonce has not been closed |
| ChannelRuns.OpenExactlyWhenCreated | packages/layerzero-v2/solana/programs/programs/endpoint/src/instructions/init_verify.rs:5-43 | The account of a nonce exists exactly if init_verify created it and nothing has closed it |
| ChannelRuns.AcceptedExactlyWhenDue | packages/layerzero-v2/solana/programs/programs/endpoint/src/instructions/verify.rs:60-90 | Each of the six instructions is accepted exactly if it is due by the history: who was created, committed, written and closed before, and how far the front has come |
| Executable.ExecutedExactlyWhenClosed | packages/layerzero-v2/solana/programs/programs/executor/src/instructions/executable.rs:44-66 | The view says executed exactly if the nonce was cleared, burnt or skipped |
| Executable.ExecutedForever | packages/layerzero-v2/solana/programs/programs/executor/src/instructions/executable.rs:44-66 | Executed stays executed |
| Executable.ExecutableExactlyWhenInOrder | packages/layerzero-v2/solana/programs/programs/executor/src/instructions/executable.rs:44-66 | The view says executable exactly if every nonce up to this one has been committed, this one has not been closed, and its last write was no nilification |
| Executable.VerifiedExactlyWhenPending | packages/layerzero-v2/solana/programs/programs/executor/src/instructions/executable.rs:44-66 | Verified but not executable means pending and not nilified |
| Bytes.FromToBytes | packages/layerzero-v2/solana/programs/libs/messagelib-helper/src/packet_v1_codec.rs:36-46 | A big-endian field is read back as it was written |
| Bytes.ToFromBytes | packages/layerzero-v2/solana/programs/libs/messagelib-helper/src/packet_v1_codec.rs:56-82 | The bytes of a field are written back as they were read |
| Bytes.BigEndian | packages/layerzero-v2/solana/programs/libs/messagelib-helper/src/packet_v1_codec.rs:36-46 | Each byte of a field is the digit of the power of 256 that counts the bytes behind it |
| PacketCodec.AccessorsInvertEncodeHeader | packages/layerzero-v2/solana/programs/libs/messagelib-helper/src/packet_v1_codec.rs:36-82 | Every header accessor reads the field that the encoder wrote |
| PacketCodec.HeaderLayout | packages/layerzero-v2/solana/programs/libs/messagelib-helper/src/packet_v1_codec.rs:5-20 | The six fields of a header lie at bytes 0, 1, 9, 13, 45 and 49 |
| PacketCodec.PacketLayout | packages/layerzero-v2/solana/programs/libs/messagelib-helper/src/packet_v1_codec.rs:22-34 | The guid and the message follow the 81 bytes of the header |
| PacketCodec.EncodeInvertsAccessors | packages/layerzero-v2/solana/programs/libs/messagelib-helper/src/packet_v1_codec.rs:36-82 | A version-1 header is the encoding of the fields read from it |
| PacketCodec.AccessorsInvertEncode | packages/layerzero-v2/solana/programs/libs/messagelib-helper/src/packet_v1_codec.rs:22-94 | A whole packet splits into header and payload and every field is read back |
| PacketCodec.HeaderInjective | packages/layerzero-v2/solana/programs/libs/messagelib-helper/src/packet_v1_codec.rs:36-46 | Equal headers name the same nonce on the same path |
| UlnConfiguration.AssertNoDuplicates | packages/layerzero-v2/solana/programs/programs/uln/src/state/uln.rs:192-199 | The loop passes exactly the strictly sorted lists without the zero key |
| UlnConfiguration.UlnConfigAccount.SetConfig | packages/layerzero-v2/solana/programs/programs/uln/src/state/uln.rs:109-164 | Stores the config or refuses it, by the sentinel rules |
| UlnConfiguration.UlnConfigAccount.SetDefaultConfig | packages/layerzero-v2/solana/programs/programs/uln/src/state/uln.rs:172-190 | A default refuses NIL values and must leave at least one DVN |
| UlnConfiguration.GetConfig | packages/layerzero-v2/solana/programs/programs/uln/src/state/uln.rs:209-249 | The step-by-step resolution is the field-by-field layering |
| UlnConfiguration.ResolvedIsSound | packages/layerzero-v2/solana/programs/programs/uln/src/state/uln.rs:209-249 | A resolved config is sound; resolution fails exactly if the layers leave no DVN |
| UlnConfiguration.LayersAtTheirExtremes | packages/layerzero-v2/solana/programs/programs/uln/src/state/uln.rs:209-249 | An absent custom config resolves to the default, a complete one ignores the default |
| UlnConfiguration.CompleteCustomIsInForce | packages/layerzero-v2/solana/programs/programs/uln/src/state/uln.rs:209-249 | A custom config that inherits nothing and says NIL nowhere resolves to itself |
| UlnConfiguration.GroupsResolveAlone | packages/layerzero-v2/solana/programs/programs/uln/src/state/uln.rs:209-249 | Confirmations, required and optional DVNs (with their threshold) are each the default's, empty, or the custom ones, by their own sentinel alone |
| UlnConfiguration.GroupsAreIndependent | packages/layerzero-v2/solana/programs/programs/uln/src/state/uln.rs:209-249 | Replacing one group of a custom config changes only that group of the result |
| UlnConfiguration.SettersAcceptExactly | packages/layerzero-v2/solana/programs/programs/uln/src/state/uln.rs:109-190 | Which configs the two setters store, and that they store them as given |
| UlnConfiguration.LayersStayValid | packages/layerzero-v2/solana/programs/programs/uln/src/state/uln.rs:109-190 | Setters keep both layers well-formed |
| UlnConfiguration.EveryResolvedConfigIsSound | packages/layerzero-v2/solana/programs/programs/uln/src/state/uln.rs:109-249 | After any run of setters resolution gives a sound config or reports that no DVN is left |
| UlnConfiguration.DefaultChangeCanUnresolve | packages/layerzero-v2/solana/programs/programs/uln/src/instructions/admin/set_default_config.rs:25-50 | A later, accepted default can leave an accepted custom config without any DVN (a concrete run) |
| CheckVerifiable.CheckVerifiable | packages/layerzero-v2/solana/programs/programs/uln/src/instructions/dvn/commit_verification.rs:80-122 | The two loops with early exits and the decreasing counter compute the scan, error by error |
| CheckVerifiable.CheckNeverAborts | packages/layerzero-v2/solana/programs/programs/uln/src/instructions/dvn/commit_verification.rs:80-122 | On a sound config and any list of at least one account per DVN the threshold counter never underflows and no account is indexed out of bounds |
| CheckVerifiable.CheckIsExact | packages/layerzero-v2/solana/programs/programs/uln/src/instructions/dvn/commit_verification.rs:80-122 | On a sound config an answer is true exactly if all required DVNs and at least threshold distinct optional ones have verified |
| CheckVerifiable.ConfirmationAccounts.InitVerify | packages/layerzero-v2/solana/programs/programs/uln/src/instructions/dvn/init_verify.rs:7-32 | Creates an empty confirmation record for one DVN, header hash and payload hash |
| CheckVerifiable.ConfirmationAccounts.Verify | packages/layerzero-v2/solana/programs/programs/uln/src/instructions/dvn/verify.rs:8-36 | The DVN overwrites the confirmations of its own record and nothing else |
| CheckVerifiable.ConfirmationAccounts.CloseVerify | packages/layerzero-v2/solana/programs/programs/uln/src/instructions/dvn/close_verify.rs:5-28 | Removes the record |
| CheckVerifiable.PositiveCheckIsAttested | packages/layerzero-v2/solana/programs/programs/uln/src/instructions/dvn/commit_verification.rs:80-154 | Whatever genuine accounts a caller passes, a positive answer means that the records attest the claim |
| CheckVerifiable.ExtraAccountsDoNotMatter | packages/layerzero-v2/solana/programs/programs/uln/src/instructions/dvn/commit_verification.rs:50-62 | Accounts after the last DVN do not change the answer |
| CheckVerifiable.CheckDecidesAttestation | packages/layerzero-v2/solana/programs/programs/uln/src/instructions/dvn/commit_verification.rs:80-154 | With the record addresses of the DVNs the scan always answers, and the answer is whether the claim is attested |
| ReceiveLibraries.LibraryConfigAccount.SetReceiveLibrary | packages/layerzero-v2/solana/programs/programs/endpoint/src/instructions/oapp/set_receive_library.rs:7-72 | Switches the library and leaves the old one a grace period, or refuses |
| ReceiveLibraries.LibraryConfigAccount.SetReceiveLibraryTimeout | packages/layerzero-v2/solana/programs/programs/endpoint/src/instructions/oapp/set_receive_library_timeout.rs:7-50 | Sets or removes the timeout of an OApp that is not on the default |
| ReceiveLibraries.LibraryConfigAccount.SetDefaultReceiveLibrary | packages/layerzero-v2/solana/programs/programs/endpoint/src/instructions/admin/set_default_receive_library.rs:6-45 | Switches the default library |
| ReceiveLibraries.LibraryConfigAccount.SetDefaultReceiveLibraryTimeout | packages/layerzero-v2/solana/programs/programs/endpoint/src/instructions/admin/set_default_receive_library_timeout.rs:6-40 | Sets or removes the default timeout |
| ReceiveLibraries.AcceptedLibrariesAreSafe | packages/layerzero-v2/solana/programs/programs/endpoint/src/instructions/verify.rs:102-138 | Over all configuration runs and slots an accepted library is registered and not send-only, at most two are accepted at once, and no OApp on the default has a timeout of its own, whether or not anything is accepted for it |
| ReceiveLibraries.GracePeriodIsExact | packages/layerzero-v2/solana/programs/programs/endpoint/src/instructions/oapp/set_receive_library.rs:33-72 | After a switch with grace g at slot s the new library is accepted always, the old one exactly before slot s+g, no other ever |
| ReceiveLibraries.DefaultGracePeriodIsExact | packages/layerzero-v2/solana/programs/programs/endpoint/src/instructions/admin/set_default_receive_library.rs:26-45 | The same for the default library, as seen by an OApp that follows it |
| ReceiveLibraries.TimeoutIsExact | packages/layerzero-v2/solana/programs/programs/endpoint/src/instructions/oapp/set_receive_library_timeout.rs:7-50 | After an explicit timeout the OApp's own library is accepted always, the named one exactly before the expiry, no other ever |
| ReceiveLibraries.DefaultTimeoutIsExact | packages/layerzero-v2/solana/programs/programs/endpoint/src/instructions/admin/set_default_receive_library_timeout.rs:6-40 | The same for the default, as seen by an OApp that follows it |
| ReceiveLibraries.FollowersAgree | packages/layerzero-v2/solana/programs/programs/endpoint/src/instructions/oapp/init_receive_library.rs:27-35 | An OApp that is new or has gone back to the default accepts what every other follower of the default accepts |
| ReceiveLibraries.FirstDefaultIsAlone | packages/layerzero-v2/solana/programs/programs/endpoint/src/instructions/admin/init_default_receive_library.rs:29-38 | The first default library is accepted alone |
| ReceiveLibraries.SwitchAcceptedExactly | packages/layerzero-v2/solana/programs/programs/endpoint/src/instructions/oapp/set_receive_library.rs:33-72 | Over all runs, exactly which switches are accepted: to another library that may receive, with a grace period that fits and only between two libraries of its own |
| ReceiveLibraries.TimeoutAcceptedExactly | packages/layerzero-v2/solana/programs/programs/endpoint/src/instructions/oapp/set_receive_library_timeout.rs:7-50 | Exactly which timeouts are accepted: for a library that may receive, with no expiry or one to come, off the default |
| Protocol.CommitPacket | packages/layerzero-v2/solana/programs/programs/uln/src/instructions/dvn/commit_verification.rs:31-69 | The instruction, with the threshold loops and the in-place channel update, makes exactly the protocol step, or reports the specified error and changes nothing |
| Protocol.StepFactors | packages/layerzero-v2/solana/programs/libs/messagelib-helper/src/endpoint_verify.rs:6-27 | Every protocol step performs at most one channel instruction, on the path its header names |
| Protocol.Reachable | packages/layerzero-v2/solana/programs/programs/uln/src/instructions/dvn/commit_verification.rs:31-69 | Over all protocol runs every stored config is well-formed and every channel keeps its invariant |
| ProtocolChannels.ChannelLivesARun | packages/layerzero-v2/solana/programs/programs/endpoint/src/instructions/verify.rs:69-90 | Along a protocol run each channel goes through a channel run of exactly the instructions performed on it |
| ProtocolChannels.DeliveredAtMostOnce | packages/layerzero-v2/solana/programs/programs/endpoint/src/instructions/oapp/clear.rs:24-66 | End to end no step acts on a nonce after it was cleared, burnt or skipped |
| ProtocolChannels.DeliveredWithoutGap | packages/layerzero-v2/solana/programs/programs/endpoint/src/instructions/oapp/clear.rs:24-66 | End to end a message is cleared only when every earlier nonce of its path was verified, nilified or skipped |
| ProtocolChannels.ConfigInForce | packages/layerzero-v2/solana/programs/programs/uln/src/state/uln.rs:209-249 | In every reachable state the config in force for a route resolves the default set last for its endpoint and the custom config that its OApp set last |
| ProtocolChannels.CreatedExactly | packages/layerzero-v2/solana/programs/programs/endpoint/src/instructions/oapp/init_nonce.rs:15-49 | A channel and a custom config exist exactly once they have been created |
| ProtocolChannels.ConfigurationAccepted | packages/layerzero-v2/solana/programs/programs/uln/src/instructions/endpoint/set_config.rs:34-62 | By the history: what is created once, and that a custom config is stored exactly if it is well-formed and resolves against the default set last |
| ProtocolChannels.LibrariesLiveARun | packages/layerzero-v2/solana/programs/programs/endpoint/src/instructions/verify.rs:102-138 | The libraries of an endpoint live a run of their own, so grace periods and timeouts hold end to end |
| Authenticity.StoredHashIsLastWritten | packages/layerzero-v2/solana/programs/programs/endpoint/src/instructions/verify.rs:69-90 | In a protocol run a stored hash is what the last step that wrote it wrote |
| Authenticity.RecordsComeFromDvns | packages/layerzero-v2/solana/programs/programs/uln/src/instructions/dvn/verify.rs:8-36 | A confirmation record holds what its own DVN wrote |
| Authenticity.CommitIsAttested | packages/layerzero-v2/solana/programs/programs/uln/src/instructions/dvn/commit_verification.rs:31-69 | A successful commit had a version-1 header for this endpoint and records that attest it under a sound config |
| Authenticity.AttestedIsSignedOff | packages/layerzero-v2/solana/programs/programs/uln/src/instructions/dvn/verify.rs:8-36 | Records that attest a packet were written by the DVNs themselves earlier in the run |
| Authenticity.ClearedIsAuthentic | packages/layerzero-v2/solana/programs/programs/uln/src/instructions/dvn/commit_verification.rs:31-154 | The last write before a clear verified exactly the Keccak hash of the cleared guid and message, as a commit or through another library accepted at that moment (never if only the ULN was accepted then); a commit was of exactly the header of this nonce and path, signed off by every required DVN and threshold distinct optional ones of the sound config then in force |
| Deliverability.ClearTakesThePacket | packages/layerzero-v2/solana/programs/programs/endpoint/src/instructions/oapp/clear.rs:50-70 | The guid and message read from any encoded packet clear a nonce exactly if, inside the prefix, the stored hash is that of the packet's payload |
| Deliverability.RecordsAreHistory | packages/layerzero-v2/solana/programs/programs/uln/src/instructions/dvn/verify.rs:8-36 | In every reachable state a confirmation record is what the last step that touched it left: empty, the confirmations, or closed |
| Deliverability.RecordStepsAccepted | packages/layerzero-v2/solana/programs/programs/uln/src/instructions/dvn/close_verify.rs:5-28 | A record is created exactly where there is none, and written and closed exactly where there is one |
| Deliverability.SignedOffIsDeliverable | packages/layerzero-v2/solana/programs/programs/uln/src/instructions/dvn/commit_verification.rs:31-154 | The converse of authenticity: a packet that is next on its channel and for which the records of every required DVN and a threshold of optional ones stand can be committed by anyone and then cleared with the guid and message its sender encoded |
| Scenarios.DeliveryHappens | packages/layerzero-v2/solana/programs/programs/uln/src/instructions/dvn/commit_verification.rs:31-69 | A complete run from empty state to a cleared message in which only the ULN is ever accepted: the hypotheses of the theorem can be met |
| Verifiable.VerifiablePredictsCommit | packages/layerzero-v2/solana/programs/programs/dvn/src/instructions/verifiable.rs:70-114 | A view of verifiable means that init_verify (if needed) and commit succeed and store the hash, exactly if an account was passed for every DVN |
| Verifiable.CapExceededPredictsRefusal | packages/layerzero-v2/solana/programs/programs/dvn/src/instructions/verifiable.rs:90-98 | A view of cap exceeded means that no verify of the nonce can succeed, with or without its account |
| Verifiable.VerifiedExactlyWhenHandled | packages/layerzero-v2/solana/programs/programs/dvn/src/instructions/verifiable.rs:141-163 | Over every run the view says verified exactly if the nonce was cleared, burnt or skipped, or this hash was the last one written to it |
| Verifiable.ViewByWindow | packages/layerzero-v2/solana/programs/programs/dvn/src/instructions/verifiable.rs:70-98 | Not initializable means that there is no channel, cap exceeded that the nonce is not settled and lies more than 256 beyond the prefix |
| Verifiable.AttestedCanBeCommitted | packages/layerzero-v2/solana/programs/programs/dvn/src/instructions/verifiable.rs:70-114 | With the record addresses of the DVNs the view is decided by the records, and an attested packet inside the window can be committed |
| Scenarios.ShortAccountListMisleads | packages/layerzero-v2/solana/programs/programs/dvn/src/instructions/verifiable.rs:101-111 | A run at whose end the view says verifiable on a short account list and the commit refuses it |
| TransferFee.PostFeeAmount | packages/layerzero-v2/solana/programs/programs/oft/src/instructions/quote.rs:76-102 | With a rate of at most 100% some amount arrives, never more than was sent |
| TransferFee.PreFeeIsExact | packages/layerzero-v2/solana/programs/programs/oft/src/instructions/quote.rs:134-161 | No checked intermediate fails: the program computes the exact inverse, or that it is no u64 |
| TransferFee.PostFeeClosedForm | packages/layerzero-v2/solana/programs/programs/oft/src/instructions/quote.rs:76-102 | At least p arrives exactly if the percentage or the cap leaves p |
| TransferFee.GaloisConnection | packages/layerzero-v2/solana/programs/programs/oft/src/instructions/quote.rs:134-161 | post(a) >= p exactly if pre(p) <= a, for every rate up to 100% and every cap |
| TransferFee.PreFeeArrivesExactly | packages/layerzero-v2/solana/programs/programs/oft/src/instructions/quote.rs:134-161 | post(pre(p)) is exactly p |
| TransferFee.PreFeeFailsExactlyWhenUnreachable | packages/layerzero-v2/solana/programs/programs/oft/src/instructions/quote.rs:134-161 | The inverse fails exactly if no u64 amount lets p arrive |
| TransferFee.PreFeeWithinAmount | packages/layerzero-v2/solana/programs/programs/oft/src/instructions/quote.rs:134-161 | On anything up to post(a) the inverse succeeds and asks for at most a |
| TokenBucket.RateLimiter.Refill | packages/layerzero-v2/solana/programs/programs/oft/src/state/peer.rs:33-44 | Adds what the rate accrued and the extra tokens, up to the capacity; an overflow aborts |
| TokenBucket.RateLimiter.TryConsume | packages/layerzero-v2/solana/programs/programs/oft/src/state/peer.rs:46-55 | Refills, then takes the amount or refuses |
| TokenBucket.RateLimiter.SetRate | packages/layerzero-v2/solana/programs/programs/oft/src/state/peer.rs:20-24 | Refills at the old rate before the new one applies |
| TokenBucket.RateLimiter.SetCapacity | packages/layerzero-v2/solana/programs/programs/oft/src/state/peer.rs:26-31 | Fills the bucket to the new capacity |
| TokenBucket.Peer.SetRateLimit | packages/layerzero-v2/solana/programs/programs/oft/src/instructions/set_rate_limit.rs:22-39 | Disables, or updates a copy of the limiter and writes it back |
| TokenBucket.NeverOverCapacity | packages/layerzero-v2/solana/programs/programs/oft/src/state/peer.rs:19-56 | Over any run of sends, receipts and reconfigurations, with any clock, tokens never exceed the capacity |
| TokenBucket.TokenBucketBound | packages/layerzero-v2/solana/programs/programs/oft/src/state/peer.rs:33-55 | Over any run with a clock that does not go back: tokens left plus consumed are at most starting tokens plus rate times elapsed time plus receipts |
| TokenBucket.WindowBound | packages/layerzero-v2/solana/programs/programs/oft/src/state/peer.rs:33-55 | In any window of time at most a full bucket plus the rate plus receipts goes out |
| TokenBucket.AcceptedExactly | packages/layerzero-v2/solana/programs/programs/oft/src/state/peer.rs:33-55 | A call is accepted exactly if its time and what it adds fit a u64 and what it takes is there |
| TokenBucket.BucketIsExact | packages/layerzero-v2/solana/programs/programs/oft/src/state/peer.rs:33-55 | Over any run the books balance exactly: tokens left, consumed and spilled over are tokens before, rate times elapsed time and receipts |
| TokenBucket.RateCountsFromThen | packages/layerzero-v2/solana/programs/programs/oft/src/state/peer.rs:20-24 | A new rate counts from its own time on; until then the old one did |
| TokenBucket.SwitchedOn | packages/layerzero-v2/solana/programs/programs/oft/src/instructions/set_rate_limit.rs:22-39 | What is given is set, what is not given stays; a capacity fills the bucket, a rate alone first collects at the old rate |
| TokenBucket.RefillComposes | packages/layerzero-v2/solana/programs/programs/oft/src/state/peer.rs:33-44 | Refilling in two steps is refilling in one |
| TokenBucket.IdleRefillsDoNotMatter | packages/layerzero-v2/solana/programs/programs/oft/src/state/peer.rs:33-55 | Idle refills slipped in anywhere change the result of no call, as long as the calls alone do not overflow |
| OftMessages.Encode | packages/layerzero-v2/solana/programs/programs/oft/src/msg_codec.rs:7-26 | The buffer that is appended to holds the message layout |
| OftMessages.TransferRoundTrip | packages/layerzero-v2/solana/programs/programs/oft/src/msg_codec.rs:7-46 | Receiver, amount and compose part are read back; the compose part arrives behind its sender and is absent exactly if none was given |
| OftMessages.TransferLayout | packages/layerzero-v2/solana/programs/programs/oft/src/msg_codec.rs:7-46 | The receiver takes bytes 0 to 31, the amount 32 to 39, the sender 40 to 71, and the text the rest |
| OftMessages.TransferInjective | packages/layerzero-v2/solana/programs/programs/oft/src/msg_codec.rs:7-46 | A message determines its receiver, amount and compose part |
| OftMessages.ComposedRoundTrip | packages/layerzero-v2/solana/programs/programs/oft/src/compose_msg_codec.rs:7-51 | The composer reads back nonce, source, amount credited, sender and text |
| Tokens.TransferIsSound | packages/layerzero-v2/solana/programs/programs/oft/src/instructions/send.rs:82-103 | A sound token pays every transfer its sender can afford, and nothing is made or lost |
| Tokens.BurnIsSound | packages/layerzero-v2/solana/programs/programs/oft/src/instructions/send.rs:104-113 | Burning takes the amount from the holder and the supply |
| Tokens.MintIsSound | packages/layerzero-v2/solana/programs/programs/oft/src/instructions/lz_receive.rs:115-126 | Minting fails only when the supply would leave the u64 range |
| Oft.Rate | packages/layerzero-v2/solana/programs/programs/oft/src/state/oft.rs:42-43 | The rate exists exactly if the decimals allow it, and is positive |
| Oft.RateCountsDecimals | packages/layerzero-v2/solana/programs/programs/oft/src/state/oft.rs:42-43 | The rate is one without decimals of its own, and ten times as much for every decimal more |
| Oft.DustIsLessThanRate | packages/layerzero-v2/solana/programs/programs/oft/src/state/oft.rs:55-65 | Dedusting gives the multiple of the rate below the amount, which survives the trip through shared decimals |
| Oft.DedustedIsLargestMultiple | packages/layerzero-v2/solana/programs/programs/oft/src/state/oft.rs:63-65 | No larger multiple of the rate fits the amount |
| Oft.QuoteIsTight | packages/layerzero-v2/solana/programs/programs/oft/src/instructions/send.rs:61-80 | A sender pays at most the offer, exactly the dedusted amount arrives, and slippage is the only reason to refuse |
| Oft.QuoteIsOptimal | packages/layerzero-v2/solana/programs/programs/oft/src/instructions/quote_oft.rs:27-44 | No offer up to the given one lets a larger whole number of shared units arrive, and no smaller offer lets this many arrive |
| Oft.OftAccounts.Send | packages/layerzero-v2/solana/programs/programs/oft/src/instructions/send.rs:61-142 | Dedusts, consumes the limiter, locks or burns and queues the message, or fails as specified |
| Oft.OftAccounts.LzReceive | packages/layerzero-v2/solana/programs/programs/oft/src/instructions/lz_receive.rs:65-164 | Clears, unlocks or mints and refills, in that order, or fails as specified |
| OftTransfers.SendIsExact | packages/layerzero-v2/solana/programs/programs/oft/src/instructions/send.rs:61-142 | A send debits its source by the least amount that lets the largest whole number of shared units below the offer arrive; the message names the receiver, that number and the author of a compose part; the limiter counts the debit; nothing else changes |
| OftTransfers.SendAcceptedExactly | packages/layerzero-v2/solana/programs/programs/oft/src/instructions/send.rs:61-115 | A send is accepted exactly if enough arrives, the limiter lets it pass, and the source holds it and is not the escrow |
| OftTransfers.CreditIsExact | packages/layerzero-v2/solana/programs/programs/oft/src/instructions/lz_receive.rs:86-128 | A credit is possible exactly within the escrow or the u64 supply; it goes to the account of the named receiver, and no other balance changes |
| OftTransfers.ReceiveIsExact | packages/layerzero-v2/solana/programs/programs/oft/src/instructions/lz_receive.rs:65-164 | A receipt credits the receiver that the message names with its shared units in local units, refills the limiter by what arrives, and changes nothing else |
| OftTransfers.DeliveredAsSent | packages/layerzero-v2/solana/programs/programs/oft/src/instructions/lz_receive.rs:65-164 | Over every run each receipt belongs to the one send on the other chain whose number is the nonce: it credits the receiver that this sender named with exactly the units the sender was debited for |
| OftConservation.CreditLeavesFlight | packages/layerzero-v2/solana/programs/programs/oft/src/instructions/lz_receive.rs:65-93 | Crediting a message takes exactly its amount out of what is under way |
| OftConservation.ClearedWasSent | packages/layerzero-v2/solana/programs/programs/oft/src/instructions/lz_receive.rs:70-84 | What clear accepts is the very message that was sent, and it was not credited before |
| OftConservation.SendEffect | packages/layerzero-v2/solana/programs/programs/oft/src/instructions/send.rs:61-115 | A send moves exactly the local value of the amount in its message into the escrow or out of the supply |
| OftConservation.ReceiveEffect | packages/layerzero-v2/solana/programs/programs/oft/src/instructions/lz_receive.rs:86-128 | A receipt moves exactly the local value of the amount in its message out of the escrow or into the supply |
| OftConservation.MoveConserves | packages/layerzero-v2/solana/programs/programs/oft/src/instructions/send.rs:61-142 | Every move on either chain keeps the books of the two chains balanced |
| OftConservation.EscrowBacksSupply | packages/layerzero-v2/solana/programs/programs/oft/src/instructions/send.rs:61-142 | Over every run, in shared units: escrow less gifts equals supply (with what holders burned) plus the messages under way in both directions, without remainder |
| OftConservation.CreditedOnce | packages/layerzero-v2/solana/programs/programs/oft/src/instructions/lz_receive.rs:65-93 | No message is credited twice on either chain |
| OftConservation.UnlockSucceeds | packages/layerzero-v2/solana/programs/programs/oft/src/instructions/lz_receive.rs:86-114 | Once a message clears on A, the conversion does not overflow and the escrow pays; only the limiter can still fail |
| OftConservation.MintSucceedsWithinU64 | packages/layerzero-v2/solana/programs/programs/oft/src/instructions/lz_receive.rs:86-126 | Once a message clears on B, it is minted exactly if the supply stays in the u64 range, which is certain if B has no larger rate than A |
| OftConservation.MintCanOverflow | packages/layerzero-v2/solana/programs/programs/oft/src/instructions/lz_receive.rs:86-126 | A run of honest moves, for every locked amount from 2^32 on with that amount as the rate of B, at whose end the message clears but can never be minted |
| OftLimits.LimiterCoversSends | packages/layerzero-v2/solana/programs/programs/oft/src/instructions/send.rs:78-80 | Along a run of one chain the limiter is the bucket after the run, and covers the value of every message sent |
| OftLimits.OutflowIsLimited | packages/layerzero-v2/solana/programs/programs/oft/src/instructions/send.rs:61-142 | Over any run of a limited OFT the value of the messages sent is at most a full bucket, the rate over the time that passed, and the value received |
| Options.DecodeOptions | packages/layerzero-v2/solana/programs/programs/uln/src/options_codec.rs:18-68 | The cursor loop with its vector and its map computes the recursive parse, error by error |
| Options.OptionsUtil.AddOption | packages/layerzero-v2/solana/programs/programs/uln/tests/utils/options_util.rs:46-56 | Appends the bytes of one entry, the length cut to 16 bits before the head is added; with the id of the executor the builder still encodes its list, one entry longer |
| Options.OptionsUtil.AddDvnOption | packages/layerzero-v2/solana/programs/programs/uln/tests/utils/options_util.rs:62-73 | The builder encodes its list with one more DVN entry |
| Options.OptionsUtil.AddExecutorOption | packages/layerzero-v2/solana/programs/programs/uln/tests/utils/options_util.rs:58-60 | The builder encodes its list with one more executor entry |
| Options.OptionsUtil.AddExecutorLzReceiveOption | packages/layerzero-v2/solana/programs/programs/uln/tests/utils/options_util.rs:16-21 | Always adds a receive entry, with a value only if there is one |
| Options.OptionsUtil.AddExecutorNativeDropOption | packages/layerzero-v2/solana/programs/programs/uln/tests/utils/options_util.rs:23-28 | Always adds a native drop |
| Options.OptionsUtil.AddDvnPrecrimeOption | packages/layerzero-v2/solana/programs/programs/uln/tests/utils/options_util.rs:30-32 | Always adds a precrime entry of a DVN |
| Options.RoundTrip | packages/layerzero-v2/solana/programs/programs/uln/tests/utils/options_util.rs:46-73 | Encoded options are decoded in order, exactly if every option fits its size field |
| Options.ParsedIsEncoded | packages/layerzero-v2/solana/programs/programs/uln/src/options_codec.rs:27-64 | A string that parses is the encoding of what was parsed: the parser stops exactly at its end |
| Options.ParseConcat | packages/layerzero-v2/solana/programs/programs/uln/src/options_codec.rs:27-64 | Behind a string that parses, parsing goes on as if it started afresh |
| Options.DvnMapHolds | packages/layerzero-v2/solana/programs/programs/uln/src/options_codec.rs:46-60 | The map holds, under each index that occurs, that DVN's options in order |
| Options.CombineOptions | packages/layerzero-v2/solana/programs/libs/oapp/src/options.rs:3-27 | Extending the enforced vector in place computes the combination |
| Options.CombinePreservesMeaning | packages/layerzero-v2/solana/programs/libs/oapp/src/options.rs:3-27 | The combination gives the executor and every DVN the enforced options and then the extra ones, and decodes exactly if the extra options do |
| Options.CombineAtTheEdges | packages/layerzero-v2/solana/programs/libs/oapp/src/options.rs:3-37 | Without enforced options anything passes, without extra ones the enforced pass, only type-3 options can be added, and added to legacy options that decode they give bytes that do not |
| Options.EncodeAppend | packages/layerzero-v2/solana/programs/programs/uln/tests/utils/options_util.rs:46-73 | Appending an entry to the bytes is encoding the longer list |
| Options.BuilderIsDecoded | packages/layerzero-v2/solana/programs/programs/uln/tests/utils/options_util.rs:12-73 | After any series of calls that kept the builder valid its bytes are decoded to the entries that were added, grouped by worker |
| Options.ExecutorOnTheWire | packages/layerzero-v2/solana/programs/programs/uln/tests/utils/options_util.rs:46-56 | The bytes of an executor entry, encoded and parsed: worker 1, size, type, parameters |
| Options.DvnOnTheWire | packages/layerzero-v2/solana/programs/programs/uln/tests/utils/options_util.rs:62-73 | The bytes of a DVN entry, encoded and parsed: worker 2, size, index, type, parameters |
| Options.FormatsOnTheWire | packages/layerzero-v2/solana/programs/programs/uln/tests/utils/options_util.rs:75-98 | The three formats begin with 0 and 1, 2 or 3 |
| Options.Legacy1IsType3 | packages/layerzero-v2/solana/programs/programs/uln/src/options_codec.rs:79-87 | A type-1 string means the type-3 string with the same receive option, or exceeds 128 bits |
| Options.Legacy2IsType3 | packages/layerzero-v2/solana/programs/programs/uln/src/options_codec.rs:88-111 | A type-2 string means the type-3 string with a receive option and a native drop, or exceeds 128 bits |
| Options.LegacySizes | packages/layerzero-v2/solana/programs/programs/uln/src/options_codec.rs:77-114 | Exactly the 34-byte and 98-byte strings decode; 67 to 97 bytes pass the size check of type 2 and abort |
| ExecutorQuote.AggregateOptions | packages/layerzero-v2/solana/programs/programs/executor/src/instructions/quote.rs:35-88 | The two loops succeed exactly on acceptable options and give the closed form; an error names a fault that the options have |
| ExecutorQuote.BuiltOptionsAreRead | packages/layerzero-v2/solana/programs/programs/executor/src/options_codec.rs:9-21 | The executor reads from a built option the numbers that it was built from |
| ExecutorQuote.ComposeIsRead | packages/layerzero-v2/solana/programs/programs/executor/src/options_codec.rs:23-29 | A compose option is read back as index, gas and value |
| ExecutorQuote.ReadableExactly | packages/layerzero-v2/solana/programs/programs/executor/src/options_codec.rs:9-29 | Which types and lengths can be read, and the error of the others |
| ExecutorQuote.OptionAdds | packages/layerzero-v2/solana/programs/programs/executor/src/instructions/quote.rs:42-84 | One more option adds its own value and gas, and one compose base cost only at an index that is new |
| ExecutorQuote.CostsNothingElse | packages/layerzero-v2/solana/programs/programs/executor/src/instructions/quote.rs:75-90 | Without options only the base gas is charged; ordered execution takes two percent more, rounded down |
| ExecutorQuote.OrderFree | packages/layerzero-v2/solana/programs/programs/executor/src/instructions/quote.rs:35-88 | Success, amount and gas depend on which options there are and not on their order |
| ExecutorQuote.SumOfPermutation | packages/layerzero-v2/solana/programs/programs/executor/src/instructions/quote.rs:42-73 | A sum over options does not depend on their order |
| ExecutorQuote.GasByIndex | packages/layerzero-v2/solana/programs/programs/executor/src/instructions/quote.rs:80-84 | Adding compose gas index by index is adding it option by option |
| ExecutorQuote.CollectCompose | packages/layerzero-v2/solana/programs/programs/executor/src/instructions/quote.rs:55-66 | A compose option adds to the gas of its index and enters the list of indices once |
| EvmExecutorFee.ParseExecutorOptions | packages/layerzero-v2/evm/messagelib/contracts/ExecutorFeeLib.sol:139-201 | The cursor loop over the bytes succeeds exactly on readable, permitted options and gives their sums |
| EvmExecutorFee.BothReadTheSame | packages/layerzero-v2/evm/messagelib/contracts/libs/ExecutorOptions.sol:32-53 | On entries for the executor both chains read the same options from the same bytes |
| EvmExecutorFee.EvmChargesRepeats | packages/layerzero-v2/evm/messagelib/contracts/ExecutorFeeLib.sol:109-136 | The EVM gas before the uplift exceeds the Solana gas by one compose base cost for every compose option that repeats an index |
| EvmExecutorFee.AcceptanceCompared | packages/layerzero-v2/evm/messagelib/contracts/ExecutorFeeLib.sol:139-201 | The chains accept the same options, except that the EVM wants gas in every compose option and Solana cuts off at 128 bits |
| EvmExecutorFee.EvmOptionAdds | packages/layerzero-v2/evm/messagelib/contracts/ExecutorFeeLib.sol:109-136 | On the EVM one more option adds its own value and gas, and one compose base cost at every index |
| EvmExecutorFee.EvmAcceptsExactly | packages/layerzero-v2/evm/messagelib/contracts/ExecutorFeeLib.sol:139-201 | What a version-2 endpoint accepts, and the two things that a version-1 endpoint does not |
| EvmExecutorFee.EvmOrderFree | packages/layerzero-v2/evm/messagelib/contracts/ExecutorFeeLib.sol:139-201 | The order of the options does not matter on the EVM either |
| UlnFees.QuoteDvns | packages/layerzero-v2/solana/programs/programs/uln/src/instructions/endpoint/quote.rs:117-173 | The loop over chunks of four accounts asks each configured DVN in turn and fails at the first refusal |
| UlnFees.Quote | packages/layerzero-v2/solana/programs/programs/uln/src/instructions/endpoint/quote.rs:27-72 | The quote: workers, then the treasury in native or LZ tokens |
| UlnFees.AssignJobToWorkers | packages/layerzero-v2/solana/programs/programs/uln/src/instructions/endpoint/send.rs:90-147 | Quotes and pays the executor, then quotes and pays the DVNs |
| UlnFees.Send | packages/layerzero-v2/solana/programs/programs/uln/src/instructions/endpoint/send.rs:41-87 | Pays workers and treasury in native tokens and returns the total, or fails as specified |
| UlnFees.SendWithLzToken | packages/layerzero-v2/solana/programs/programs/uln/src/instructions/endpoint/send_with_lz_token.rs:55-111 | Pays workers in native and the treasury in LZ tokens, or fails as specified |
| UlnFees.PayAllEffect | packages/layerzero-v2/solana/programs/programs/uln/src/instructions/endpoint/send.rs:90-147 | After a series of payments every account holds exactly what it is due |
| UlnFees.InvoiceNamesConfiguredWorkers | packages/layerzero-v2/solana/programs/programs/uln/src/instructions/endpoint/quote.rs:75-173 | Those who are paid are the custom executor or else the default one, the required and then the optional DVNs of the resolved config, and the treasury |
| UlnWorkers.WorkersAnswerExactly | packages/layerzero-v2/solana/programs/programs/uln/src/instructions/endpoint/quote.rs:75-173 | The workers' fees are exactly the answers of the chosen executor and of every DVN of the resolved config, each asked about this packet with its own options and its own four accounts, none of which signs |
| UlnWorkers.NothingWithoutWorkers | packages/layerzero-v2/solana/programs/programs/uln/src/instructions/endpoint/send.rs:90-147 | Without the answers of all workers there is neither a quote nor a send |
| UlnWorkers.ExecutorIsChosen | packages/layerzero-v2/solana/programs/programs/uln/src/state/uln.rs:50-70 | Quotes and sends ask and pay the custom executor if there is one, else the default, and refuse a message longer than its limit |
| UlnWorkers.QuoteIsExact | packages/layerzero-v2/solana/programs/programs/uln/src/instructions/endpoint/quote.rs:27-72 | A quote is what the workers ask and the treasury's part in basis points, rounded down, or its own fee in LZ tokens |
| UlnWorkers.QuotedExactly | packages/layerzero-v2/solana/programs/programs/uln/src/instructions/endpoint/quote.rs:27-72 | A quote is given exactly if the workers answer, the sums fit a u64 and a treasury, if any, takes the currency |
| UlnWorkers.SentExactly | packages/layerzero-v2/solana/programs/programs/uln/src/instructions/endpoint/send.rs:41-87 | A native send is accepted exactly if there is a quote, the sender allows it, names the treasury and can pay the invoice |
| UlnFees.InvoiceIsQuote | packages/layerzero-v2/solana/programs/programs/uln/src/instructions/endpoint/quote.rs:27-72 | The invoice adds up to the quoted native fee |
| UlnFees.SendChargesItsQuote | packages/layerzero-v2/solana/programs/programs/uln/src/instructions/endpoint/send.rs:41-147 | A send that succeeds returns exactly the quote, within the sender's limit, and moves exactly its invoice on the ledger |
| UlnFees.QuotedSendSucceeds | packages/layerzero-v2/solana/programs/programs/uln/src/instructions/endpoint/send.rs:41-147 | Whoever allows and owns what was quoted, and names the treasury, can send |
| UlnFees.LzSendChargesItsQuote | packages/layerzero-v2/solana/programs/programs/uln/src/instructions/endpoint/send_with_lz_token.rs:55-111 | The same for the LZ-token path |
| UlnFees.LzQuotedSendNeedsTreasury | packages/layerzero-v2/solana/programs/programs/uln/src/instructions/endpoint/send_with_lz_token.rs:71-74 | Given what the sender must bring, a quoted LZ-token send succeeds exactly if a treasury is configured: without one the quote asks for no treasury fee and the send refuses |
| UlnFees.TreasuryTakesAtMostAsMuch | packages/layerzero-v2/solana/programs/programs/uln/src/instructions/admin/set_treasury.rs:21-24 | With any treasury that can be set its native fee is at most the worker fee |
| DvnMultisig.VerifySignatures | packages/layerzero-v2/solana/programs/programs/dvn/src/state/dvn_config.rs:109-128 | The loop with its hash set computes the check, error by error |
| DvnMultisig.VerifyIsExact | packages/layerzero-v2/solana/programs/programs/dvn/src/state/dvn_config.rs:109-128 | The check passes exactly if the first quorum signatures recover to that many different committee members |
| DvnMultisig.SanityCheck | packages/layerzero-v2/solana/programs/programs/dvn/src/state/dvn_config.rs:130-145 | Passes exactly one to seven distinct signers with a quorum between one and their number |
| DvnMultisig.DvnConfig.SetMultisig | packages/layerzero-v2/solana/programs/programs/dvn/src/state/dvn_config.rs:49-53 | Replaces the multisig only by a sane one |
| DvnMultisig.DvnConfig.SetAdmins | packages/layerzero-v2/solana/programs/programs/dvn/src/state/dvn_config.rs:55-59 | At most five admins |
| DvnMultisig.DvnConfig.Apply | packages/layerzero-v2/solana/programs/programs/dvn/src/instructions/admin/invoke.rs:163-196 | Applies the committee's own configuration, or refuses it |
| DvnMultisig.DvnAccounts.Invoke | packages/layerzero-v2/solana/programs/programs/dvn/src/instructions/admin/invoke.rs:11-86 | Records and executes a signed, unexpired digest that is not on record, or fails as specified |
| DvnMultisig.DvnAccounts.CloseExecute | packages/layerzero-v2/solana/programs/programs/dvn/src/instructions/admin/close_execute.rs:5-28 | Only an admin, only after expiry, closes a record |
| DvnMultisig.DvnAccounts.SetConfig | packages/layerzero-v2/solana/programs/programs/dvn/src/instructions/admin/set_config.rs:5-50 | Admins may replace the admins |
| DvnMultisig.InitIsSane | packages/layerzero-v2/solana/programs/programs/dvn/src/instructions/init_dvn.rs:19-35 | A DVN is created exactly with a sane multisig and at most five admins, and has then the given fields, no records, and is not paused |
| DvnMultisig.OnlyTheCommitteeChangesItself | packages/layerzero-v2/solana/programs/programs/dvn/src/instructions/admin/invoke.rs:48-60 | The multisig changes only by a digest that the committee of before signed |
| DvnMultisig.CommitteeStaysSane | packages/layerzero-v2/solana/programs/programs/dvn/src/state/dvn_config.rs:49-53 | Over all runs the quorum stays between one and the number of distinct signers |
| DvnMultisig.ConfigIsHistory | packages/layerzero-v2/solana/programs/programs/dvn/src/instructions/admin/invoke.rs:163-196 | In every reachable state quorum, signers, pause and admins are each what the last executed update of that field set; no call changes a field that it does not name |
| DvnMultisig.ExecutionHasQuorum | packages/layerzero-v2/solana/programs/programs/dvn/src/instructions/admin/invoke.rs:27-37 | Every execution carries the signatures of quorum different members of the committee at that time |
| DvnMultisig.ExecutedAtMostOnce | packages/layerzero-v2/solana/programs/programs/dvn/src/instructions/admin/invoke.rs:15-37 | With a clock that does not go back no digest is executed twice, not even after its record was closed |
| DvnMultisig.ExecutedExactlyWhenSigned | packages/layerzero-v2/solana/programs/programs/dvn/src/instructions/admin/invoke.rs:11-86 | In every reachable state a digest is executed exactly if it names this DVN, has not expired, was never executed, carries quorum signatures of different members, is submitted by an admin (a change of admins by anyone), and asks for what can be done |
| DvnMultisig.ClosedExactlyAfterExpiry | packages/layerzero-v2/solana/programs/programs/dvn/src/instructions/admin/close_execute.rs:5-28 | A record is closed exactly by an admin, for an expired digest that was executed and not closed since |
| DvnMultisig.AdminsReplaceThemselves | packages/layerzero-v2/solana/programs/programs/dvn/src/instructions/admin/set_config.rs:5-50 | Whoever is an admin by the history may replace the admins, by at most five |

## Left out

- Signers and roles: that an OApp or its delegate signs `skip`, `nilify`, `burn` and `clear`, that an admin signs the setters, and that each DVN signs its own `verify`, is part of who may take a step, not of the model; only the DVN multisig models its admins. The protocol lets anyone take any step, which is the weaker assumption for every safety result.
- The order in which Anchor evaluates account constraints, and hence which of two errors is reported when both apply.
- keccak256, secp256k1 recovery, program-derived addresses, Borsh layout and discriminators: idealised as stated above. The digest of `Invoke` stands for the hash of its serialisation.
- Events, rent, account sizes beyond the 256-slot list, compute limits, and lamport movements when accounts are closed.
- Nonce 0 in the two views: it is never created, and both report it as finished.
- Overflow of the scanning loop at nonce `u64::MAX`: unreachable for sorted lists, and not modelled as a separate error.
- Unregistered or blocked message libraries other than through the four receive-library configs; send libraries; the endpoint's outbound nonce beyond a counter; compose and `lz_receive_types`.
- The zero key as a registered library: a library's address is a derived address and is assumed not to be zero.
- Token-2022 itself: transfer, burn, mint and the forward fee are modelled as that program documents them; freezing, permanent delegates, transfer hooks and withdrawal of withheld fees are not.
- OftConservation.EscrowBacksSupply: assumes that the libraries of the two OFTs verify only messages that the peer sent, which is what `Authenticity.ClearedIsAuthentic` reduces to honest DVNs where only the ULN is accepted; the two are not joined in one state machine because the peer chain is not modelled below the OFT. The native token has no minter besides `lz_receive`, and peers and rates are not reconfigured.
- Oft.OftAccounts.Send: does not model the options and fees of the endpoint's own `send` behind it (see `Options` and `UlnFees`), nor the message's guid, which is a parameter.
- Oft.OftAccounts.LzReceive: does not model the compose message that is stored for a composer, only its content (`OftMessages.ComposedRoundTrip`).
- TokenBucket.IdleRefillsDoNotMatter: supposes that the calls without the idle refills do not overflow u64; with an overflow an idle refill can rescue a later call.
- The executor's price computation after the gas total, the price feed, multipliers and margins; access lists and pausing of workers.
- ExecutorQuote.AggregateOptions: does not state which of several faults is reported, because that depends on the order of the options.
- EvmExecutorFee.ParseExecutorOptions: does not model 256-bit overflow of the totals, which no calldata can reach, nor the read variant of the function.
- UlnFees.Send: takes the workers' prices as a function of what they are asked, unchanged by the payments made meanwhile; the default send config is assumed to exist; lamport balances have no upper bound.
- Overlong DVN lists in fees: an index is cut to 8 bits as in the program, which a resolved config never reaches.
- DvnMultisig.DvnConfig.Apply: does not model the access lists and message libraries of a DVN; whether they take an update is a parameter.
- ProtocolChannels.ConfigurationAccepted: the creation of a default config and its later changes are one step, so it does not say that a default is created once.
- DvnMultisig.DvnAccounts.SetConfig: models the admins only, not the price feed, the default multiplier and the destination settings, which price a DVN's work.
- Clocks: unix time and slots do not go back in the run results that say so; `TokenBucket.NeverOverCapacity` needs no such assumption.
- `Execute`, `Compose` and `NativeDrop` of the executor, which call arbitrary programs; the simple and blocked message libraries; the Aptos, Initia, Sui, IOTA and TON code; the copy of the programs under `anchor-latest`.
