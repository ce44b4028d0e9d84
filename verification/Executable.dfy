/** The executor's read-only view of a nonce, and its agreement with the channel. */
module Executable {
  import opened Common
  import opened MessagingChannel
  import opened EndpointChannel
  import opened ChannelRuns

  datatype ExecutionState = NotExecutable | VerifiedButNotExecutable | Executable | Executed

  function InboundPayloadHash(c: Channel, n: u64): Hash {
    if n in c.hashes then c.hashes[n] else Empty
  }

  function View(c: Channel, n: u64): ExecutionState {
    var payloadHash := InboundPayloadHash(c, n);
    if n <= c.window.inbound && payloadHash == Empty then Executed
    else if n <= c.window.inbound && payloadHash != Nil then Executable
    else if payloadHash != Empty && payloadHash != Nil then VerifiedButNotExecutable
    else NotExecutable
  }

  lemma ExecutedIsFinal(c: Channel, n: u64)
    requires Inv(c) && 1 <= n
    ensures View(c, n) == Executed <==> Closed(c, n)
  {
    assert n in c.hashes && n <= c.window.inbound ==> Stored(c, n);
  }

  /** In a reachable state a nonce is reported executed exactly if an earlier instruction cleared, burnt
      or skipped it. */
  lemma ExecutedExactlyWhenClosed(states: seq<Channel>, instrs: seq<Instruction>, k: nat, n: u64)
    requires Run(states, instrs) && k < |states| && 1 <= n
    ensures View(states[k], n) == Executed <==>
            exists i | 0 <= i < k :: instrs[i].Closes() && instrs[i].nonce == n
  {
    hide Step, View, Closed, Inv;
    ReachableRefinesCommittedSet(states, instrs, k);
    ExecutedIsFinal(states[k], n);
    FinalExactlyWhenClosed(states, instrs, k, n);
  }

  /** Executed is for ever. */
  lemma ExecutedForever(states: seq<Channel>, instrs: seq<Instruction>, i: nat, k: nat, n: u64)
    requires Run(states, instrs) && i <= k < |states| && 1 <= n && View(states[i], n) == Executed
    ensures View(states[k], n) == Executed
  {
    hide Step, View, Closed, Inv;
    ReachableRefinesCommittedSet(states, instrs, i);
    ReachableRefinesCommittedSet(states, instrs, k);
    ExecutedIsFinal(states[i], n);
    ExecutedIsFinal(states[k], n);
    ClosedForever(states, instrs, i, k, n);
  }

  /** A nonce is reported executable exactly if some payload can be delivered: every nonce up to it has been
      committed, it has not been closed, and its last write was no nilification. */
  lemma ExecutableExactlyWhenInOrder(states: seq<Channel>, instrs: seq<Instruction>, k: nat, n: u64)
    requires Run(states, instrs) && k < |states| && 1 <= n
    ensures View(states[k], n) == Executable <==>
            && (forall m | 1 <= m <= n :: m in CommittedBy(instrs, k)) && !ClosedBefore(instrs, k, n)
            && exists h | h != Nil && h != Empty :: LastWrote(instrs, k, n, h)
  {
    hide Step, ClosedBefore, LastWrote, Inv, Closed;
    ReachableRefinesCommittedSet(states, instrs, k);
    FinalExactlyWhenClosed(states, instrs, k, n);
    ExecutedIsFinal(states[k], n);
    var stored := InboundPayloadHash(states[k], n);
    if stored != Empty {
      StoredExactlyWhenWritten(states, instrs, k, n, stored);
    }
    if h :| h != Nil && h != Empty && LastWrote(instrs, k, n, h) {
      StoredExactlyWhenWritten(states, instrs, k, n, h);
    }
  }

  /** Verified but not executable: out of order in the window, and not nilified. */
  lemma VerifiedExactlyWhenPending(states: seq<Channel>, instrs: seq<Instruction>, k: nat, n: u64)
    requires Run(states, instrs) && k < |states| && 1 <= n
    ensures View(states[k], n) == VerifiedButNotExecutable <==>
            n in states[k].window.pending && InboundPayloadHash(states[k], n) != Nil
  {
    ReachableRefinesCommittedSet(states, instrs, k);
    assert states[k].window.inbound < n ==> (n in states[k].window.pending <==> Stored(states[k], n));
  }
}
