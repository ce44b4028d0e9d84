/** The nonce window of an inbound channel: the last nonce of the gap-free prefix, and the sorted list
    of the nonces committed ahead of it.  The two structures together are a compressed form of one set,
    the set of all nonces ever inserted; the lemmas below make that a refinement. */
module MessagingChannel {
  import opened Common

  const PENDING_INBOUND_NONCE_MAX_LEN := 256

  datatype Window = Window(inbound: u64, pending: seq<u64>)

  const EMPTY_WINDOW := Window(0, [])

  // ---------- specification of the two operations ----------

  /** How many leading entries of `pending` continue `inbound` without a gap. */
  function Consecutive(inbound: int, pending: seq<u64>): (k: nat)
    ensures k <= |pending|
    ensures forall i | 0 <= i < k :: pending[i] == inbound + 1 + i
    ensures k < |pending| ==> pending[k] != inbound + 1 + k
    decreases |pending|
  {
    if pending != [] && pending[0] == inbound + 1 then 1 + Consecutive(inbound + 1, pending[1..]) else 0
  }

  function Advance(w: Window): Window {
    var k := Consecutive(w.inbound, w.pending);
    if k == 0 then w else Window(w.pending[k - 1], w.pending[k..])
  }

  /** Where a binary search places a nonce that is not in a sorted list. */
  function InsertionIndex(s: seq<u64>, n: u64): (i: nat)
    ensures i <= |s|
    ensures forall j | 0 <= j < i :: s[j] < n
    ensures i < |s| ==> n <= s[i]
  {
    if s == [] || n <= s[0] then 0 else 1 + InsertionIndex(s[1..], n)
  }

  function InsertSorted(s: seq<u64>, n: u64): seq<u64> {
    var i := InsertionIndex(s, n);
    s[..i] + [n] + s[i..]
  }

  function Insert(w: Window, n: u64): Result<Window> {
    if n <= w.inbound then Err(InvalidNonce)
    else if w.inbound + PENDING_INBOUND_NONCE_MAX_LEN > U64_MAX then Err(Abort)
    else if w.inbound + PENDING_INBOUND_NONCE_MAX_LEN < n then Err(InvalidNonce)
    else if n in w.pending then Ok(w)
    else Ok(Advance(Window(w.inbound, InsertSorted(w.pending, n))))
  }

  // ---------- the accounts, updated in place ----------

  class Nonce {
    var inboundNonce: u64

    constructor ()
      ensures inboundNonce == 0
    {
      inboundNonce := 0;
    }

    method UpdateInboundNonce(pendingInboundNonce: PendingInboundNonce)
      modifies this`inboundNonce, pendingInboundNonce`nonces
      ensures pendingInboundNonce.View(this) == Advance(old(pendingInboundNonce.View(this)))
    {
      var newInboundNonce: u64 := inboundNonce;
      ghost var nonces := pendingInboundNonce.nonces;
      var i := 0;
      while i < |pendingInboundNonce.nonces|
        invariant 0 <= i <= |nonces|
        invariant newInboundNonce == inboundNonce + i <= U64_MAX
        invariant Consecutive(inboundNonce, nonces) == i + Consecutive(newInboundNonce, nonces[i..])
      {
        if pendingInboundNonce.nonces[i] != newInboundNonce + 1 {
          break;
        }
        newInboundNonce := pendingInboundNonce.nonces[i];
        i := i + 1;
      }
      if newInboundNonce > inboundNonce {
        var diff := newInboundNonce - inboundNonce;
        inboundNonce := newInboundNonce;
        pendingInboundNonce.nonces := pendingInboundNonce.nonces[diff..];
      }
    }
  }

  class PendingInboundNonce {
    var nonces: seq<u64>

    constructor ()
      ensures nonces == []
    {
      nonces := [];
    }

    ghost function View(nonce: Nonce): Window
      reads this, nonce
    {
      Window(nonce.inboundNonce, nonces)
    }

    method InsertPendingInboundNonce(newInboundNonce: u64, nonce: Nonce) returns (r: Result<()>)
      modifies this`nonces, nonce`inboundNonce
      ensures Outcome(Insert(old(View(nonce)), newInboundNonce), old(View(nonce)), r, View(nonce))
    {
      if newInboundNonce <= nonce.inboundNonce {
        return Err(InvalidNonce);
      }
      if nonce.inboundNonce + PENDING_INBOUND_NONCE_MAX_LEN > U64_MAX {
        return Err(Abort);
      }
      if nonce.inboundNonce + PENDING_INBOUND_NONCE_MAX_LEN < newInboundNonce {
        return Err(InvalidNonce);
      }
      if newInboundNonce !in nonces {
        var index := InsertionIndex(nonces, newInboundNonce);
        nonces := nonces[..index] + [newInboundNonce] + nonces[index..];
        nonce.UpdateInboundNonce(this);
      }
      return Ok(());
    }
  }

  // ---------- refinement: the window is the set of committed nonces ----------

  /** The set the window stands for. */
  ghost function Committed(w: Window): (s: set<int>)
    ensures forall n :: n in s <==> 1 <= n <= w.inbound || n in w.pending
  {
    Prefix(w.inbound) + Elements(w.pending)
  }

  ghost function Prefix(k: nat): (s: set<int>)
    ensures forall n :: n in s <==> 1 <= n <= k
  {
    if k == 0 then {} else Prefix(k - 1) + {k}
  }

  ghost function Elements(s: seq<int>): (r: set<int>)
    ensures forall n :: n in r <==> n in s
  {
    set n | n in s
  }

  /** The invariant: the pending list is strictly sorted, starts beyond a gap, and fits the window. */
  ghost predicate Normal(w: Window) {
    && StrictlySorted(w.pending)
    && forall n | n in w.pending :: w.inbound + 1 < n <= w.inbound + PENDING_INBOUND_NONCE_MAX_LEN
  }

  /** `k` is the largest number with {1..k} inside `s`. */
  ghost predicate IsFront(s: set<int>, k: int) {
    k + 1 !in s && forall n | 1 <= n <= k :: n in s
  }

  lemma InsertSortedKeepsElements(s: seq<u64>, n: u64)
    ensures Elements(InsertSorted(s, n)) == Elements(s) + {n}
  {
  }

  lemma InsertSortedKeepsOrder(s: seq<u64>, n: u64)
    requires StrictlySorted(s) && n !in s
    ensures StrictlySorted(InsertSorted(s, n))
  {
  }

  lemma AdvanceShape(w: Window)
    ensures var k := Consecutive(w.inbound, w.pending);
            Advance(w).inbound == w.inbound + k && Advance(w).pending == w.pending[k..]
  {
  }

  /** What `Advance` drains is exactly the range it moves the prefix over. */
  lemma AdvanceHead(w: Window)
    ensures var head := w.pending[..Consecutive(w.inbound, w.pending)];
            forall n :: n in head <==> w.inbound < n <= Advance(w).inbound
  {
    AdvanceShape(w);
    var head := w.pending[..Consecutive(w.inbound, w.pending)];
    forall n ensures n in head <==> w.inbound < n <= Advance(w).inbound {
      if w.inbound < n <= Advance(w).inbound {
        assert head[n - w.inbound - 1] == n;
      }
    }
  }

  lemma SortedSuffix(s: seq<int>, k: nat, lo: int)
    requires StrictlySorted(s) && k <= |s|
    requires k < |s| ==> lo < s[k]
    ensures StrictlySorted(s[k..])
    ensures forall n | n in s[k..] :: lo < n && n in s
  {
  }

  /** What `Advance` leaves is sorted and starts beyond a gap. */
  lemma AdvanceTail(w: Window)
    requires StrictlySorted(w.pending)
    requires forall n | n in w.pending :: w.inbound < n
    ensures StrictlySorted(Advance(w).pending)
    ensures forall n | n in Advance(w).pending :: n in w.pending && Advance(w).inbound + 1 < n
  {
    AdvanceShape(w);
    var k := Consecutive(w.inbound, w.pending);
    assert k < |w.pending| ==> w.pending[k] in w.pending;
    assert 0 < k < |w.pending| ==> w.pending[k - 1] < w.pending[k];
    SortedSuffix(w.pending, k, Advance(w).inbound + 1);
  }

  /** Draining the consecutive head changes the representation, not the set. */
  lemma AdvanceKeepsSet(w: Window)
    ensures Committed(Advance(w)) == Committed(w)
  {
    AdvanceShape(w);
    AdvanceHead(w);
    var k := Consecutive(w.inbound, w.pending);
    assert w.pending == w.pending[..k] + w.pending[k..];
  }

  lemma FreshInsertion(w: Window, n: u64)
    requires Normal(w) && w.inbound < n <= w.inbound + PENDING_INBOUND_NONCE_MAX_LEN && n !in w.pending
    ensures var v := Advance(Window(w.inbound, InsertSorted(w.pending, n)));
            Normal(v) && w.inbound <= v.inbound
  {
    var u := Window(w.inbound, InsertSorted(w.pending, n));
    InsertSortedKeepsOrder(w.pending, n);
    InsertSortedKeepsElements(w.pending, n);
    forall m | m in u.pending ensures w.inbound < m <= w.inbound + PENDING_INBOUND_NONCE_MAX_LEN {
      assert m in Elements(w.pending) + {n};
    }
    AdvanceTail(u);
    AdvanceShape(u);
  }

  lemma FreshInsertionSet(w: Window, n: u64)
    requires w.inbound < n
    ensures Committed(Advance(Window(w.inbound, InsertSorted(w.pending, n)))) == Committed(w) + {n}
  {
    InsertSortedKeepsElements(w.pending, n);
    AdvanceKeepsSet(Window(w.inbound, InsertSorted(w.pending, n)));
  }

  /** One insertion adds exactly one nonce to the set, keeps the invariant, and is accepted exactly for
      the 256 nonces after the prefix (unless the window would leave the u64 range). */
  lemma InsertRefinesSetInsertion(w: Window, n: u64)
    requires Normal(w)
    ensures Insert(w, n).Ok? <==>
            w.inbound < n <= w.inbound + PENDING_INBOUND_NONCE_MAX_LEN <= U64_MAX
    ensures Insert(w, n).Ok? ==>
              var v := Insert(w, n).value;
              Normal(v) && Committed(v) == Committed(w) + {n} && w.inbound <= v.inbound
  {
    if Insert(w, n).Ok? && n !in w.pending {
      FreshInsertion(w, n);
      FreshInsertionSet(w, n);
    }
  }

  /** The prefix is always the largest k with {1..k} committed. */
  lemma InboundIsFront(w: Window, k: int)
    requires Normal(w) && 0 <= k
    ensures IsFront(Committed(w), w.inbound)
    ensures IsFront(Committed(w), k) ==> k == w.inbound
  {
  }

  /** A normal window is determined by the set it stands for. */
  lemma WindowDeterminedBySet(v: Window, w: Window)
    requires Normal(v) && Normal(w) && Committed(v) == Committed(w)
    ensures v == w
  {
    InboundIsFront(v, w.inbound);
    InboundIsFront(w, w.inbound);
    forall n: int ensures n in v.pending <==> n in w.pending {
      if n in v.pending { assert n in Committed(w); }
      if n in w.pending { assert n in Committed(v); }
    }
    SortedListUnique(v.pending, w.pending);
  }

  /** The nonces of a strictly sorted list inside a range are no more than the range. */
  lemma {:induction false} SortedListFits(s: seq<int>, lo: int, hi: int)
    requires StrictlySorted(s) && lo <= hi
    requires forall i | 0 <= i < |s| :: lo < s[i] <= hi
    ensures |s| <= hi - lo
  {
    if s != [] {
      SortedListFits(s[..|s| - 1], lo, s[|s| - 1] - 1);
    }
  }

  /** The 256-slot account always has room: at most 255 nonces rest in it, so an insertion fits. */
  lemma PendingFitsItsAccount(w: Window)
    requires Normal(w)
    ensures |w.pending| <= PENDING_INBOUND_NONCE_MAX_LEN - 1
  {
    assert forall i | 0 <= i < |w.pending| :: w.pending[i] in w.pending;
    SortedListFits(w.pending, w.inbound + 1, w.inbound + PENDING_INBOUND_NONCE_MAX_LEN);
  }

  // ---------- schedules ----------

  /** Inserts the nonces of a schedule one after the other, failing at the first refusal. */
  function InsertAll(w: Window, schedule: seq<u64>): Result<Window>
    decreases |schedule|
  {
    if schedule == [] then Ok(w)
    else
      var v :- Insert(w, schedule[0]);
      InsertAll(v, schedule[1..])
  }

  lemma {:induction false} InsertAllRefines(w: Window, schedule: seq<u64>)
    requires Normal(w) && InsertAll(w, schedule).Ok?
    ensures Normal(InsertAll(w, schedule).value)
    ensures Committed(InsertAll(w, schedule).value) == Committed(w) + Elements(schedule)
    decreases |schedule|
  {
    if schedule != [] {
      InsertRefinesSetInsertion(w, schedule[0]);
      InsertAllRefines(Insert(w, schedule[0]).value, schedule[1..]);
      assert Elements(schedule) == {schedule[0]} + Elements(schedule[1..]);
    }
  }

  /** Order and repetition do not matter: accepted schedules of the same nonces end in the same window,
      whose prefix is the largest k with {1..k} scheduled and whose list is the sorted rest. */
  lemma OrderIndependence(one: seq<u64>, two: seq<u64>)
    requires InsertAll(EMPTY_WINDOW, one).Ok? && InsertAll(EMPTY_WINDOW, two).Ok?
    requires Elements(one) == Elements(two)
    ensures InsertAll(EMPTY_WINDOW, one) == InsertAll(EMPTY_WINDOW, two)
    ensures var w := InsertAll(EMPTY_WINDOW, one).value;
            && IsFront(Elements(one), w.inbound)
            && StrictlySorted(w.pending)
            && forall n :: n in w.pending <==> n in Elements(one) && w.inbound < n
  {
    InsertAllRefines(EMPTY_WINDOW, one);
    InsertAllRefines(EMPTY_WINDOW, two);
    var w := InsertAll(EMPTY_WINDOW, one).value;
    assert Committed(EMPTY_WINDOW) == {};
    WindowDeterminedBySet(w, InsertAll(EMPTY_WINDOW, two).value);
    InboundIsFront(w, 0);
    forall n ensures n in w.pending <==> n in Elements(one) && w.inbound < n {
      assert n in Committed(w) <==> n in Elements(one);
    }
  }
}
