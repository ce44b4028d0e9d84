/** The six instructions of the endpoint that act on one inbound channel (receiver, source eid, sender):
    they drive the nonce window of MessagingChannel and a partial map from nonces to payload hashes. */
module EndpointChannel {
  import opened Common
  import opened MessagingChannel

  datatype Channel = Channel(window: Window, hashes: map<u64, Hash>)

  const NEW_CHANNEL := Channel(EMPTY_WINDOW, map[])

  datatype Instruction =
    | InitVerify(nonce: u64)
    | Verify(nonce: u64, hash: Hash)
    | Nilify(nonce: u64, hash: Hash)
    | Skip(nonce: u64)
    | Burn(nonce: u64, hash: Hash)
    | Clear(nonce: u64, guid: seq<byte>, message: seq<byte>)
  {
    /** Does the instruction put its nonce into the window? */
    predicate Commits() {
      Verify? || Nilify? || Skip?
    }

    /** Does the instruction close the payload-hash account for good? */
    predicate Closes() {
      Skip? || Burn? || Clear?
    }
  }

  function HashPayload(guid: seq<byte>, message: seq<byte>): Hash {
    Keccak(guid + message)
  }

  // ---------- specification: one function per instruction ----------

  function InitVerifySpec(c: Channel, n: u64): Result<Channel> {
    var _ :- Require(c.window.inbound < n, InvalidNonce);
    var _ :- Require(n !in c.hashes, AccountInUse);
    Ok(c.(hashes := c.hashes[n := Empty]))
  }

  /** Commits a nonce that lies ahead of the prefix; a nonce inside the prefix is committed already. */
  function Commit(w: Window, n: u64): Result<Window> {
    if n > w.inbound then Insert(w, n) else Ok(w)
  }

  function VerifySpec(c: Channel, n: u64, h: Hash): Result<Channel> {
    var _ :- Require(n in c.hashes, AccountNotInitialized);
    var _ :- Require(h != Empty, InvalidPayloadHash);
    var w :- Commit(c.window, n);
    Ok(Channel(w, c.hashes[n := h]))
  }

  function NilifySpec(c: Channel, n: u64, h: Hash): Result<Channel> {
    var _ :- Require(n in c.hashes, AccountNotInitialized);
    var _ :- Require(c.hashes[n] == h, PayloadHashNotFound);
    var w :- Commit(c.window, n);
    Ok(Channel(w, c.hashes[n := Nil]))
  }

  function SkipSpec(c: Channel, n: u64): Result<Channel> {
    var _ :- Require(n in c.hashes, AccountNotInitialized);
    var _ :- Require(c.window.inbound < U64_MAX, Abort);
    var _ :- Require(n == c.window.inbound + 1, InvalidNonce);
    var w :- Insert(c.window, n);
    Ok(Channel(w, c.hashes - {n}))
  }

  function BurnSpec(c: Channel, n: u64, h: Hash): Result<Channel> {
    var _ :- Require(n in c.hashes, AccountNotInitialized);
    var _ :- Require(n <= c.window.inbound, InvalidNonce);
    var _ :- Require(c.hashes[n] == h, PayloadHashNotFound);
    Ok(c.(hashes := c.hashes - {n}))
  }

  function ClearSpec(c: Channel, n: u64, guid: seq<byte>, message: seq<byte>): Result<Channel> {
    var _ :- Require(n in c.hashes, AccountNotInitialized);
    var _ :- Require(n <= c.window.inbound, InvalidNonce);
    var _ :- Require(c.hashes[n] == HashPayload(guid, message), PayloadHashNotFound);
    Ok(c.(hashes := c.hashes - {n}))
  }

  function Step(c: Channel, i: Instruction): Result<Channel> {
    match i
    case InitVerify(n) => InitVerifySpec(c, n)
    case Verify(n, h) => VerifySpec(c, n, h)
    case Nilify(n, h) => NilifySpec(c, n, h)
    case Skip(n) => SkipSpec(c, n)
    case Burn(n, h) => BurnSpec(c, n, h)
    case Clear(n, guid, message) => ClearSpec(c, n, guid, message)
  }

  // ---------- the instructions, on the accounts ----------

  class ChannelAccounts {
    const nonce: Nonce
    const pendingInboundNonce: PendingInboundNonce
    var payloadHashes: map<u64, Hash>

    constructor ()
      ensures fresh(nonce) && fresh(pendingInboundNonce)
      ensures View() == NEW_CHANNEL
    {
      nonce := new Nonce();
      pendingInboundNonce := new PendingInboundNonce();
      payloadHashes := map[];
    }

    ghost function View(): Channel
      reads this, nonce, pendingInboundNonce
    {
      Channel(pendingInboundNonce.View(nonce), payloadHashes)
    }

    method InitVerify(n: u64) returns (r: Result<()>)
      modifies this
      ensures Outcome(InitVerifySpec(old(View()), n), old(View()), r, View())
    {
      if n <= nonce.inboundNonce {
        return Err(InvalidNonce);
      }
      if n in payloadHashes {
        return Err(AccountInUse);
      }
      payloadHashes := payloadHashes[n := Empty];
      return Ok(());
    }

    method Verify(n: u64, payloadHash: Hash) returns (r: Result<()>)
      modifies this, nonce, pendingInboundNonce
      ensures Outcome(VerifySpec(old(View()), n, payloadHash), old(View()), r, View())
    {
      if n !in payloadHashes {
        return Err(AccountNotInitialized);
      }
      if payloadHash == Empty {
        return Err(InvalidPayloadHash);
      }
      if n > nonce.inboundNonce {
        r := pendingInboundNonce.InsertPendingInboundNonce(n, nonce);
        if r.Err? {
          return;
        }
      }
      payloadHashes := payloadHashes[n := payloadHash];
      return Ok(());
    }

    method Nilify(n: u64, payloadHash: Hash) returns (r: Result<()>)
      modifies this, nonce, pendingInboundNonce
      ensures Outcome(NilifySpec(old(View()), n, payloadHash), old(View()), r, View())
    {
      if n !in payloadHashes {
        return Err(AccountNotInitialized);
      }
      if payloadHashes[n] != payloadHash {
        return Err(PayloadHashNotFound);
      }
      if n > nonce.inboundNonce {
        r := pendingInboundNonce.InsertPendingInboundNonce(n, nonce);
        if r.Err? {
          return;
        }
      }
      payloadHashes := payloadHashes[n := Nil];
      return Ok(());
    }

    method Skip(n: u64) returns (r: Result<()>)
      modifies this, nonce, pendingInboundNonce
      ensures Outcome(SkipSpec(old(View()), n), old(View()), r, View())
    {
      if n !in payloadHashes {
        return Err(AccountNotInitialized);
      }
      if nonce.inboundNonce == U64_MAX {
        return Err(Abort);
      }
      if n != nonce.inboundNonce + 1 {
        return Err(InvalidNonce);
      }
      r := pendingInboundNonce.InsertPendingInboundNonce(n, nonce);
      if r.Err? {
        return;
      }
      payloadHashes := payloadHashes - {n};
    }

    method Burn(n: u64, payloadHash: Hash) returns (r: Result<()>)
      modifies this
      ensures Outcome(BurnSpec(old(View()), n, payloadHash), old(View()), r, View())
    {
      if n !in payloadHashes {
        return Err(AccountNotInitialized);
      }
      if n > nonce.inboundNonce {
        return Err(InvalidNonce);
      }
      if payloadHashes[n] != payloadHash {
        return Err(PayloadHashNotFound);
      }
      payloadHashes := payloadHashes - {n};
      return Ok(());
    }

    method Clear(n: u64, guid: seq<byte>, message: seq<byte>) returns (r: Result<()>)
      modifies this
      ensures Outcome(ClearSpec(old(View()), n, guid, message), old(View()), r, View())
    {
      if n !in payloadHashes {
        return Err(AccountNotInitialized);
      }
      if n > nonce.inboundNonce {
        return Err(InvalidNonce);
      }
      if payloadHashes[n] != HashPayload(guid, message) {
        return Err(PayloadHashNotFound);
      }
      payloadHashes := payloadHashes - {n};
      return Ok(());
    }
  }

  /** The first message of a new channel is verified in two steps. */
  lemma FirstMessage(h: Hash)
    requires h != Empty
    ensures Step(NEW_CHANNEL, InitVerify(1)) == Ok(Channel(EMPTY_WINDOW, map[1 := Empty]))
    ensures Step(Channel(EMPTY_WINDOW, map[1 := Empty]), Verify(1, h)) == Ok(Channel(Window(1, []), map[1 := h]))
  {
    assert Insert(EMPTY_WINDOW, 1) == Ok(Window(1, []));
    assert map[][1 := Empty] == map[1 := Empty] && map[1 := Empty][1 := h] == map[1 := h];
  }

  // ---------- the invariant that ties the three structures together ----------

  ghost predicate Stored(c: Channel, n: u64) {
    n in c.hashes && c.hashes[n] != Empty
  }

  ghost predicate Inv(c: Channel) {
    && Normal(c.window)
    && (forall n | n in c.hashes :: 1 <= n)
    && (forall n | n in c.hashes && n <= c.window.inbound :: Stored(c, n))
    && (forall n: u64 {:trigger Stored(c, n)} | c.window.inbound < n :: n in c.window.pending <==> Stored(c, n))
  }

  /** A nonce that is final: inside the prefix, its account closed. */
  ghost predicate Closed(c: Channel, n: u64) {
    1 <= n <= c.window.inbound && n !in c.hashes
  }

  lemma CommitRefines(c: Channel, n: u64)
    requires Inv(c) && n in c.hashes && Commit(c.window, n).Ok?
    ensures var w := Commit(c.window, n).value;
            Normal(w) && Committed(w) == Committed(c.window) + {n} && c.window.inbound <= w.inbound
  {
    if n > c.window.inbound {
      InsertRefinesSetInsertion(c.window, n);
    } else {
      assert n in Committed(c.window);
    }
  }

  /** When the committed set grows by `n` and only the account of `n` changes, the accounts still match. */
  lemma WindowMoves(c: Channel, d: Channel, n: u64)
    requires Inv(c) && Normal(d.window)
    requires Committed(d.window) == Committed(c.window) + {n} && c.window.inbound <= d.window.inbound
    requires forall m | m != n :: m in d.hashes <==> m in c.hashes
    requires forall m | m != n && m in c.hashes :: d.hashes[m] == c.hashes[m]
    requires 1 <= n && (Stored(d, n) || (n !in d.hashes && n <= d.window.inbound))
    ensures Inv(d)
  {
    forall m: u64 | m in d.hashes && m <= d.window.inbound ensures Stored(d, m) {
      assert 1 <= m;
      assert m in Committed(d.window);
      assert m != n ==> m in Committed(c.window) && (Stored(c, m) <==> Stored(d, m));
    }
    forall m: u64 | d.window.inbound < m ensures m in d.window.pending <==> Stored(d, m) {
      assert m in d.window.pending <==> m in Committed(d.window);
      assert m in c.window.pending <==> m in Committed(c.window);
      assert m != n ==> (Stored(c, m) <==> Stored(d, m));
    }
  }

  /** The account of no nonce but `n` changed. */
  ghost predicate OnlyAccount(c: Channel, d: Channel, n: u64) {
    && (forall m | m != n :: m in d.hashes <==> m in c.hashes)
    && (forall m | m != n && m in c.hashes :: d.hashes[m] == c.hashes[m])
  }

  lemma InitKeepsInv(c: Channel, n: u64)
    requires Inv(c) && InitVerifySpec(c, n).Ok?
    ensures var d := InitVerifySpec(c, n).value;
            Inv(d) && d.window == c.window && OnlyAccount(c, d, n)
  {
    var d := InitVerifySpec(c, n).value;
    assert forall m: u64 | m != n :: Stored(c, m) <==> Stored(d, m);
    assert !Stored(c, n) && !Stored(d, n);
  }

  /** The shape shared by `Verify` and `Nilify`: commit the nonce and overwrite its hash. */
  lemma CommitKeepsInv(c: Channel, n: u64, h: Hash)
    requires Inv(c) && n in c.hashes && h != Empty && Commit(c.window, n).Ok?
    ensures var d := Channel(Commit(c.window, n).value, c.hashes[n := h]);
            && Inv(d) && OnlyAccount(c, d, n)
            && Committed(d.window) == Committed(c.window) + {n as int} && c.window.inbound <= d.window.inbound
  {
    CommitRefines(c, n);
    WindowMoves(c, Channel(Commit(c.window, n).value, c.hashes[n := h]), n);
  }

  lemma SkipAdvances(c: Channel, n: u64)
    requires Inv(c) && Step(c, Skip(n)).Ok?
    ensures c.window.inbound < n <= Step(c, Skip(n)).value.window.inbound
  {
    InsertRefinesSetInsertion(c.window, n);
    var w := Insert(c.window, n).value;
    InboundIsFront(w, 0);
    assert n in Committed(w);
    assert w.inbound == c.window.inbound ==> w.inbound + 1 in Committed(w);
  }

  lemma NormalWindow(c: Channel)
    requires Inv(c)
    ensures Normal(c.window) && forall n | n in c.hashes :: 1 <= n
  {
  }

  lemma SkipKeepsInv(c: Channel, n: u64)
    requires Inv(c) && SkipSpec(c, n).Ok?
    ensures var d := SkipSpec(c, n).value;
            && Inv(d) && OnlyAccount(c, d, n)
            && Committed(d.window) == Committed(c.window) + {n as int} && c.window.inbound <= d.window.inbound
  {
    hide Insert, Normal, Inv;
    SkipAdvances(c, n);
    NormalWindow(c);
    InsertRefinesSetInsertion(c.window, n);
    WindowMoves(c, SkipSpec(c, n).value, n);
  }

  /** The shape shared by `Burn` and `Clear`: close an account inside the prefix. */
  lemma CloseKeepsInv(c: Channel, n: u64)
    requires Inv(c) && n <= c.window.inbound
    ensures var d := c.(hashes := c.hashes - {n});
            Inv(d) && OnlyAccount(c, d, n)
  {
    assert forall m: u64 | m != n :: Stored(c, m) <==> Stored(c.(hashes := c.hashes - {n}), m);
  }

  /** Every instruction keeps the invariant, adds exactly its nonce to the committed set when it commits,
      never moves the prefix back, and does not touch the account of any other nonce. */
  lemma StepKeepsInv(c: Channel, i: Instruction)
    requires Inv(c) && Step(c, i).Ok?
    ensures var d := Step(c, i).value;
            && Inv(d) && OnlyAccount(c, d, i.nonce) && c.window.inbound <= d.window.inbound
            && Committed(d.window) == (if i.Commits() then Committed(c.window) + {i.nonce as int} else Committed(c.window))
  {
    hide Inv, OnlyAccount, Insert;
    match i
    case InitVerify(n) => InitKeepsInv(c, n);
    case Verify(n, h) => CommitKeepsInv(c, n, h);
    case Nilify(n, h) => CommitKeepsInv(c, n, Nil);
    case Skip(n) => SkipKeepsInv(c, n);
    case Burn(n, h) => CloseKeepsInv(c, n);
    case Clear(n, guid, message) => CloseKeepsInv(c, n);
  }

  /** The life of a payload-hash account: created empty, overwritten by `verify` and `nilify` while it
      exists, closed once; `nilify`, `burn` and `clear` must know the hash they act on. */
  lemma AccountLifeCycle(c: Channel, i: Instruction)
    requires Step(c, i).Ok?
    ensures i.InitVerify? <==> i.nonce !in c.hashes
    ensures (i.Nilify? || i.Burn?) ==> c.hashes[i.nonce] == i.hash
    ensures i.Clear? ==> c.hashes[i.nonce] == HashPayload(i.guid, i.message)
    ensures i.Burn? || i.Clear? ==> i.nonce <= c.window.inbound
    ensures Step(c, i).value.hashes ==
            if i.Closes() then c.hashes - {i.nonce}
            else c.hashes[i.nonce := if i.InitVerify? then Empty else if i.Verify? then i.hash else Nil]
  {
  }

  /** What each instruction needs of the state. */
  lemma AcceptedByState(c: Channel, i: Instruction)
    requires Inv(c)
    ensures var n, front := i.nonce, c.window.inbound;
            var fits := n <= front || n <= front + 256 <= U64_MAX;
            Step(c, i).Ok? <==>
            match i
            case InitVerify(_) => front < n && n !in c.hashes
            case Verify(_, h) => n in c.hashes && h != Empty && fits
            case Nilify(_, h) => n in c.hashes && c.hashes[n] == h && fits
            case Skip(_) => n in c.hashes && n == front + 1 && front + 256 <= U64_MAX
            case Burn(_, h) => n in c.hashes && n <= front && c.hashes[n] == h && h != Empty
            case Clear(_, guid, message) => n in c.hashes && n <= front && c.hashes[n] == Keccak(guid + message)
  {
    InsertRefinesSetInsertion(c.window, i.nonce);
    assert i.nonce in c.hashes && i.nonce <= c.window.inbound ==> Stored(c, i.nonce);
    hide Insert;
  }

  /** A closing instruction makes its nonce final, and a final nonce refuses every instruction. */
  lemma ClosingIsFinal(c: Channel, i: Instruction)
    requires Inv(c)
    ensures Step(c, i).Ok? && i.Closes() ==> Closed(Step(c, i).value, i.nonce)
    ensures Closed(c, i.nonce) ==> Step(c, i).Err?
  {
    if Step(c, i).Ok? && i.Skip? {
      SkipAdvances(c, i.nonce);
    }
  }
}
