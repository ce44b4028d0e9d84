/** Safety of the inbound channel over whole runs: what holds after any sequence of accepted
    instructions, starting from a new channel.  A refused instruction changes nothing, so a run lists
    only the accepted ones. */
module ChannelRuns {
  import opened Common
  import opened MessagingChannel
  import opened EndpointChannel

  ghost predicate Run(states: seq<Channel>, instrs: seq<Instruction>) {
    && |states| == |instrs| + 1
    && states[0] == NEW_CHANNEL
    && forall k {:trigger instrs[k]} | 0 <= k < |instrs| :: Step(states[k], instrs[k]) == Ok(states[k + 1])
  }

  /** The nonces that the first `k` instructions verified, nilified or skipped. */
  ghost function CommittedBy(instrs: seq<Instruction>, k: nat): (s: set<int>)
    requires k <= |instrs|
    ensures forall n :: n in s <==> exists i | 0 <= i < k :: instrs[i].Commits() && instrs[i].nonce == n
  {
    if k == 0 then {}
    else if instrs[k - 1].Commits() then CommittedBy(instrs, k - 1) + {instrs[k - 1].nonce as int}
    else CommittedBy(instrs, k - 1)
  }

  /** In every reachable state the invariant holds and the window is the set of all nonces committed so
      far: its prefix is the largest k with {1..k} committed, its list the sorted rest. */
  lemma {:induction false} ReachableRefinesCommittedSet(states: seq<Channel>, instrs: seq<Instruction>, k: nat)
    requires Run(states, instrs) && k < |states|
    ensures Inv(states[k])
    ensures Committed(states[k].window) == CommittedBy(instrs, k)
    ensures IsFront(CommittedBy(instrs, k), states[k].window.inbound)
  {
    hide Step;
    if k > 0 {
      ReachableRefinesCommittedSet(states, instrs, k - 1);
      StepKeepsInv(states[k - 1], instrs[k - 1]);
    }
    InboundIsFront(states[k].window, 0);
  }

  /** Two runs that committed the same nonces have the same window, whatever the order, the repeats and
      the other instructions between. */
  lemma WindowsAgree(s: seq<Channel>, i: seq<Instruction>, t: seq<Channel>, j: seq<Instruction>)
    requires Run(s, i) && Run(t, j)
    requires CommittedBy(i, |i|) == CommittedBy(j, |j|)
    ensures s[|i|].window == t[|j|].window
  {
    ReachableRefinesCommittedSet(s, i, |i|);
    ReachableRefinesCommittedSet(t, j, |j|);
    WindowDeterminedBySet(s[|i|].window, t[|j|].window);
  }

  // ---------- exactly once ----------

  lemma {:induction false} ClosedForever(states: seq<Channel>, instrs: seq<Instruction>, i: nat, k: nat, n: u64)
    requires Run(states, instrs) && i <= k < |states| && Closed(states[i], n)
    ensures Closed(states[k], n)
    decreases k
  {
    hide Step;
    if i < k {
      ClosedForever(states, instrs, i, k - 1, n);
      ReachableRefinesCommittedSet(states, instrs, k - 1);
      StepKeepsInv(states[k - 1], instrs[k - 1]);
      ClosingIsFinal(states[k - 1], instrs[k - 1]);
    }
  }

  /** After `clear`, `burn` or `skip` of a nonce, every later instruction on that nonce is refused. */
  lemma NothingAfterClosing(states: seq<Channel>, instrs: seq<Instruction>, i: nat, k: nat, next: Instruction)
    requires Run(states, instrs) && i < k < |states|
    requires instrs[i].Closes() && next.nonce == instrs[i].nonce
    ensures Closed(states[k], next.nonce) && Step(states[k], next).Err?
  {
    hide Step;
    ReachableRefinesCommittedSet(states, instrs, i);
    ClosingIsFinal(states[i], instrs[i]);
    ClosedForever(states, instrs, i + 1, k, next.nonce);
    ReachableRefinesCommittedSet(states, instrs, k);
    ClosingIsFinal(states[k], next);
  }

  /** Each nonce is cleared, burnt or skipped at most once in a run, and is not touched afterwards. */
  lemma AtMostOnce(states: seq<Channel>, instrs: seq<Instruction>)
    requires Run(states, instrs)
    ensures forall i, k | 0 <= i < k < |instrs| :: instrs[i].Closes() ==> instrs[k].nonce != instrs[i].nonce
  {
    hide Step;
    forall i, k | 0 <= i < k < |instrs| && instrs[i].Closes()
      ensures instrs[k].nonce != instrs[i].nonce
    {
      assert Step(states[k], instrs[k]).Ok?;
      if instrs[k].nonce == instrs[i].nonce {
        NothingAfterClosing(states, instrs, i, k, instrs[k]);
      }
    }
  }

  /** Delivery is gap free: when n is cleared, every nonce up to n was verified, nilified or skipped. */
  lemma ClearedWithoutGap(states: seq<Channel>, instrs: seq<Instruction>, k: nat, m: int)
    requires Run(states, instrs) && k < |instrs| && instrs[k].Clear? && 1 <= m <= instrs[k].nonce
    ensures exists i | 0 <= i < k :: instrs[i].Commits() && instrs[i].nonce == m
  {
    hide Step;
    ReachableRefinesCommittedSet(states, instrs, k);
    AccountLifeCycle(states[k], instrs[k]);
    assert m in CommittedBy(instrs, k);
  }

  // ---------- where a stored hash comes from ----------

  /** Instructions that write the hash of `n`. */
  predicate Writes(i: Instruction, n: u64) {
    (i.Verify? || i.Nilify?) && i.nonce == n
  }

  function Written(i: Instruction): Hash
    requires i.Verify? || i.Nilify?
  {
    if i.Verify? then i.hash else Nil
  }

  ghost predicate LastWrite(instrs: seq<Instruction>, i: nat, k: nat, n: u64) {
    && i < k <= |instrs| && Writes(instrs[i], n)
    && forall j | i < j < k :: !Writes(instrs[j], n)
  }

  /** A stored hash is what the last `verify` or `nilify` of that nonce wrote. */
  lemma {:induction false} StoredHashIsLastWritten(states: seq<Channel>, instrs: seq<Instruction>, k: nat, n: u64)
    returns (i: nat)
    requires Run(states, instrs) && k < |states| && Stored(states[k], n)
    ensures LastWrite(instrs, i, k, n) && Written(instrs[i]) == states[k].hashes[n]
    decreases k
  {
    hide Step;
    AccountLifeCycle(states[k - 1], instrs[k - 1]);
    if Writes(instrs[k - 1], n) {
      i := k - 1;
    } else {
      i := StoredHashIsLastWritten(states, instrs, k - 1, n);
    }
  }

  /** What is cleared is what was last verified: the last write to a cleared nonce is a `verify` of
      exactly the hash of the delivered payload. */
  lemma ClearedWasLastVerified(states: seq<Channel>, instrs: seq<Instruction>, k: nat) returns (i: nat)
    requires Run(states, instrs) && k < |instrs| && instrs[k].Clear?
    ensures var n := instrs[k].nonce;
            && LastWrite(instrs, i, k, n)
            && instrs[i] == Verify(n, Keccak(instrs[k].guid + instrs[k].message))
  {
    hide Step;
    AccountLifeCycle(states[k], instrs[k]);
    i := StoredHashIsLastWritten(states, instrs, k, instrs[k].nonce);
  }

  /** A nilified nonce cannot be cleared until it is verified again. */
  lemma NilifiedNeedsReverification(states: seq<Channel>, instrs: seq<Instruction>, i: nat, k: nat,
                                    guid: seq<byte>, message: seq<byte>)
    requires Run(states, instrs) && i < k < |states| && instrs[i].Nilify?
    requires forall j | i < j < k :: !(instrs[j].Verify? && instrs[j].nonce == instrs[i].nonce)
    ensures ClearSpec(states[k], instrs[i].nonce, guid, message).Err?
  {
    var n := instrs[i].nonce;
    if ClearSpec(states[k], n, guid, message).Ok? {
      var last := StoredHashIsLastWritten(states, instrs, k, n);
      assert Writes(instrs[i], n);
    }
  }

  /** One step backwards: a nonce becomes final only by an instruction that closes it. */
  lemma OpenAccountStays(c: Channel, i: Instruction, n: u64)
    requires Inv(c) && Step(c, i).Ok? && Closed(Step(c, i).value, n)
    ensures (i.Closes() && i.nonce == n) || Closed(c, n)
  {
    hide Step;
    AccountLifeCycle(c, i);
    StepKeepsInv(c, i);
    var d := Step(c, i).value;
    assert n in Committed(d.window);
    if !(i.Closes() && i.nonce == n) {
      assert n !in c.hashes;
      assert n in Committed(c.window);
      assert !Stored(c, n);
    }
  }

  lemma ClosedStepBack(states: seq<Channel>, instrs: seq<Instruction>, k: nat, n: u64)
    requires Run(states, instrs) && k < |instrs| && Closed(states[k + 1], n)
    ensures (instrs[k].Closes() && instrs[k].nonce == n) || Closed(states[k], n)
  {
    hide Step, Inv, Closed, IsFront;
    ReachableRefinesCommittedSet(states, instrs, k);
    OpenAccountStays(states[k], instrs[k], n);
  }

  /** A nonce that was committed and whose account is gone was closed by some earlier instruction. */
  lemma {:induction false} FinalWasClosed(states: seq<Channel>, instrs: seq<Instruction>, k: nat,
                            n: u64) returns (i: nat)
    requires Run(states, instrs) && k < |states| && Closed(states[k], n)
    ensures i < k && instrs[i].Closes() && instrs[i].nonce == n
    decreases k
  {
    hide Step;
    assert k > 0;
    ClosedStepBack(states, instrs, k - 1, n);
    if instrs[k - 1].Closes() && instrs[k - 1].nonce == n {
      i := k - 1;
    } else {
      i := FinalWasClosed(states, instrs, k - 1, n);
    }
  }

  // ---------- the state of a nonce, read off the history ----------

  ghost predicate ClosedBefore(instrs: seq<Instruction>, k: nat, n: u64)
    requires k <= |instrs|
  {
    exists i | 0 <= i < k :: instrs[i].Closes() && instrs[i].nonce == n
  }

  /** The last `verify` or `nilify` of the nonce wrote `h`. */
  ghost predicate LastWrote(instrs: seq<Instruction>, k: nat, n: u64, h: Hash) {
    exists i: nat :: LastWrite(instrs, i, k, n) && Written(instrs[i]) == h
  }

  /** A nonce is final exactly if an earlier instruction closed it. */
  lemma FinalExactlyWhenClosed(states: seq<Channel>, instrs: seq<Instruction>, k: nat, n: u64)
    requires Run(states, instrs) && k < |states|
    ensures Closed(states[k], n) <==> ClosedBefore(instrs, k, n)
  {
    hide Step, Closed, Inv;
    if Closed(states[k], n) {
      var i := FinalWasClosed(states, instrs, k, n);
    }
    if i :| 0 <= i < k && instrs[i].Closes() && instrs[i].nonce == n {
      NothingAfterClosing(states, instrs, i, k, instrs[i]);
    }
  }

  lemma OpenIsStored(c: Channel, n: u64)
    requires Inv(c)
    ensures Stored(c, n) <==> n in Committed(c.window) && !Closed(c, n)
  {
  }

  /** What was written last is stored until the nonce is closed. */
  lemma WrittenIsStored(states: seq<Channel>, instrs: seq<Instruction>, i: nat, k: nat, n: u64)
    requires Run(states, instrs) && k < |states| && LastWrite(instrs, i, k, n) && !Closed(states[k], n)
    ensures Stored(states[k], n) && states[k].hashes[n] == Written(instrs[i])
  {
    hide Step, Closed, Inv, IsFront, Written, Stored;
    ReachableRefinesCommittedSet(states, instrs, k);
    assert instrs[i].Commits() && instrs[i].nonce == n;
    assert n in Committed(states[k].window);
    OpenIsStored(states[k], n);
    var j := StoredHashIsLastWritten(states, instrs, k, n);
    assert i == j;
  }

  /** A hash is stored exactly if it was the last one written and the nonce has not been closed. */
  lemma StoredExactlyWhenWritten(states: seq<Channel>, instrs: seq<Instruction>, k: nat, n: u64, h: Hash)
    requires Run(states, instrs) && k < |states| && h != Empty
    ensures n in states[k].hashes && states[k].hashes[n] == h <==> LastWrote(instrs, k, n, h) && !ClosedBefore(instrs, k, n)
  {
    hide Step, ClosedBefore, Inv, Closed, IsFront, Written;
    FinalExactlyWhenClosed(states, instrs, k, n);
    if Stored(states[k], n) {
      ReachableRefinesCommittedSet(states, instrs, k);
      OpenIsStored(states[k], n);
      var j := StoredHashIsLastWritten(states, instrs, k, n);
    }
    if i: nat :| LastWrite(instrs, i, k, n) && !Closed(states[k], n) && Written(instrs[i]) == h {
      WrittenIsStored(states, instrs, i, k, n);
    }
  }

  /** A payload can be cleared exactly if every nonce up to its own has been committed, its hash was the last
      one written to the nonce, and the nonce has not been closed. */
  lemma ClearableExactlyWhenInOrder(states: seq<Channel>, instrs: seq<Instruction>, k: nat, n: u64,
                                    guid: seq<byte>, message: seq<byte>)
    requires Run(states, instrs) && k < |states| && 1 <= n
    ensures ClearSpec(states[k], n, guid, message).Ok? <==>
            && (forall m | 1 <= m <= n :: m in CommittedBy(instrs, k))
            && LastWrote(instrs, k, n, Keccak(guid + message)) && !ClosedBefore(instrs, k, n)
  {
    hide Step, ClosedBefore, LastWrote, Inv;
    ReachableRefinesCommittedSet(states, instrs, k);
    StoredExactlyWhenWritten(states, instrs, k, n, Keccak(guid + message));
  }

  // ---------- which instructions are accepted ----------

  ghost predicate CreatedBefore(instrs: seq<Instruction>, k: nat, n: u64)
    requires k <= |instrs|
  {
    exists i | 0 <= i < k :: instrs[i] == InitVerify(n)
  }

  /** The account of a nonce exists exactly if it was created and has not been closed. */
  lemma {:induction false} OpenExactlyWhenCreated(states: seq<Channel>, instrs: seq<Instruction>, k: nat, n: u64)
    requires Run(states, instrs) && k < |states|
    ensures n in states[k].hashes <==> CreatedBefore(instrs, k, n) && !ClosedBefore(instrs, k, n)
  {
    hide Step, Inv, Closed;
    if k > 0 {
      var i := instrs[k - 1];
      OpenExactlyWhenCreated(states, instrs, k - 1, n);
      AccountLifeCycle(states[k - 1], i);
      FinalExactlyWhenClosed(states, instrs, k - 1, i.nonce);
      ReachableRefinesCommittedSet(states, instrs, k - 1);
      ClosingIsFinal(states[k - 1], i);
    }
  }

  /** What an instruction needs, in terms of the instructions before it and of the front, the largest number up
      to which every nonce has been committed. */
  ghost predicate Due(instrs: seq<Instruction>, k: nat, front: int, next: Instruction)
    requires k <= |instrs|
  {
    var n := next.nonce;
    var isOpen := CreatedBefore(instrs, k, n) && !ClosedBefore(instrs, k, n);
    var fits := n <= front || n <= front + 256 <= U64_MAX;
    match next
    case InitVerify(_) => front < n && !CreatedBefore(instrs, k, n)
    case Verify(_, h) => isOpen && fits && h != Empty
    case Nilify(_, h) => isOpen && fits && (if h == Empty then n !in CommittedBy(instrs, k) else LastWrote(instrs, k, n, h))
    case Skip(_) => isOpen && n == front + 1 && front + 256 <= U64_MAX
    case Burn(_, h) => isOpen && n <= front && h != Empty && LastWrote(instrs, k, n, h)
    case Clear(_, guid, message) => isOpen && n <= front && LastWrote(instrs, k, n, Keccak(guid + message))
  }

  /** In every reachable state each of the six instructions is accepted exactly if it is due by the history. */
  lemma AcceptedExactlyWhenDue(states: seq<Channel>, instrs: seq<Instruction>, k: nat, front: int, next: Instruction)
    requires Run(states, instrs) && k < |states| && 0 <= front && IsFront(CommittedBy(instrs, k), front)
    ensures Step(states[k], next).Ok? <==> Due(instrs, k, front, next)
  {
    var c, n := states[k], next.nonce;
    hide Step, Inv, Closed, Normal, ClosedBefore, CreatedBefore, LastWrote;
    ReachableRefinesCommittedSet(states, instrs, k);
    NormalWindow(c);
    InboundIsFront(c.window, front);
    OpenExactlyWhenCreated(states, instrs, k, n);
    FinalExactlyWhenClosed(states, instrs, k, n);
    AcceptedByState(c, next);
    if n in c.hashes {
      StoredHashByHistory(states, instrs, k, n, c.hashes[n]);
      match next
      case Nilify(_, h) => StoredHashByHistory(states, instrs, k, n, h);
      case Burn(_, h) => StoredHashByHistory(states, instrs, k, n, h);
      case Clear(_, guid, message) => StoredHashByHistory(states, instrs, k, n, Keccak(guid + message));
      case _ =>
    }
  }

  /** Whether a hash is the stored one, in terms of the history: none has been written, or it was written last. */
  lemma StoredHashByHistory(states: seq<Channel>, instrs: seq<Instruction>, k: nat, n: u64, h: Hash)
    requires Run(states, instrs) && k < |states| && n in states[k].hashes
    ensures states[k].hashes[n] == h <==> if h == Empty then n !in CommittedBy(instrs, k) else LastWrote(instrs, k, n, h)
  {
    hide Step, Inv, ClosedBefore, LastWrote;
    ReachableRefinesCommittedSet(states, instrs, k);
    FinalExactlyWhenClosed(states, instrs, k, n);
    if h == Empty {
      OpenIsStored(states[k], n);
    } else {
      StoredExactlyWhenWritten(states, instrs, k, n, h);
    }
  }
}
