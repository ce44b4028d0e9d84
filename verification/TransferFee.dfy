/** The Token-2022 transfer fee and its inverse: how much to send so that a given amount arrives.
    The fee is a percentage in basis points, rounded up and capped. */
module TransferFee {
  import opened Arithmetic
  import opened Common

  const ONE_IN_BASIS_POINTS := 10_000

  /** The fee of a mint in the current epoch; the token program keeps the rate at or below 100%. */
  datatype FeeConfig = FeeConfig(basisPoints: u16, maximumFee: u64)

  ghost predicate Valid(fee: FeeConfig) {
    fee.basisPoints <= ONE_IN_BASIS_POINTS
  }

  function CeilDiv(numerator: nat, denominator: nat): nat
    requires denominator > 0
  {
    (numerator + denominator - 1) / denominator
  }

  // ---------- what the token program does to a transfer ----------

  /** The fee that the token program withholds from a transfer of `amount`. */
  function Fee(fee: FeeConfig, amount: u64): nat {
    if fee.basisPoints == 0 || amount == 0 then 0
    else Min(CeilDiv(amount * fee.basisPoints, ONE_IN_BASIS_POINTS), fee.maximumFee)
  }

  /** The amount that arrives; with a rate of at most 100% the subtraction does not fail. */
  function PostFeeAmount(fee: FeeConfig, amount: u64): (r: Option<u64>)
    ensures Valid(fee) ==> r.Some? && r.value <= amount
  {
    var f := Fee(fee, amount);
    assert Valid(fee) ==> f <= amount by {
      if Valid(fee) {
        FeeIsPartOfAmount(fee, amount);
      }
    }
    if f <= amount then Some(amount - f) else None
  }

  lemma FeeIsPartOfAmount(fee: FeeConfig, amount: u64)
    requires Valid(fee)
    ensures Fee(fee, amount) <= amount
  {
    ProductIsNat(amount, fee.basisPoints);
    TimesKeepsOrder(fee.basisPoints, ONE_IN_BASIS_POINTS, amount);
    CeilDivIsLeast(amount * fee.basisPoints, ONE_IN_BASIS_POINTS, amount);
  }

  // ---------- the inverse, as the program computes it ----------

  function CheckedU128(x: int): Option<u128> {
    if 0 <= x <= U128_MAX then Some(x) else None
  }

  function CheckedU64(x: int): Option<u64> {
    if 0 <= x <= U64_MAX then Some(x) else None
  }

  /** The program's `ceil_div`, with its checked u128 operations. */
  function CheckedCeilDiv(numerator: u128, denominator: u128): Option<u128> {
    match CheckedU128(numerator + denominator)
    case None => None
    case Some(sum) =>
      if sum == 0 || denominator == 0 then None else Some((sum - 1) / denominator)
  }

  /** The program's `calculate_pre_fee_amount`, every checked operation spelled out. */
  function PreFeeAmount(fee: FeeConfig, postFeeAmount: u64): Option<u64> {
    if fee.basisPoints == 0 then Some(postFeeAmount)
    else if postFeeAmount == 0 then Some(0)
    else if fee.basisPoints == ONE_IN_BASIS_POINTS then CheckedU64(fee.maximumFee + postFeeAmount)
    else
      match (CheckedU128(postFeeAmount * ONE_IN_BASIS_POINTS), CheckedU128(ONE_IN_BASIS_POINTS - fee.basisPoints))
      case (Some(numerator), Some(denominator)) =>
        (match CheckedCeilDiv(numerator, denominator)
         case None => None
         case Some(raw) =>
           if raw < postFeeAmount then None
           else if raw - postFeeAmount >= fee.maximumFee then CheckedU64(postFeeAmount + fee.maximumFee)
           else CheckedU64(raw))
      case _ => None
  }

  // ---------- the inverse as one closed form ----------

  /** The least amount whose uncapped percentage fee leaves `post`. */
  function RawPreFee(fee: FeeConfig, post: nat): nat
    requires fee.basisPoints < ONE_IN_BASIS_POINTS
  {
    CeilDiv(post * ONE_IN_BASIS_POINTS, ONE_IN_BASIS_POINTS - fee.basisPoints)
  }

  /** The exact inverse over unbounded numbers: the fee is either the percentage or the cap. */
  function ExactPreFee(fee: FeeConfig, post: nat): nat
    requires Valid(fee)
  {
    if fee.basisPoints == 0 || post == 0 then post
    else if fee.basisPoints == ONE_IN_BASIS_POINTS then post + fee.maximumFee
    else Min(RawPreFee(fee, post), post + fee.maximumFee)
  }

  /** The rounded-up quotient is the least number with `q * d >= n`. */
  lemma CeilDivIsLeast(n: nat, d: nat, q: nat)
    requires d > 0
    ensures CeilDiv(n, d) <= q <==> n <= q * d
    ensures n <= CeilDiv(n, d) * d < n + d
  {
    var c := CeilDiv(n, d);
    assert n + d - 1 == d * c + (n + d - 1) % d;
    Commutes(d, c);
    Distributes(d, c, 1);
    if q < c {
      TimesKeepsOrder(q, c - 1, d);
    } else {
      TimesKeepsOrder(c, q, d);
    }
  }

  lemma CheckedCeilDivSucceeds(numerator: u128, denominator: u128)
    requires denominator > 0 && numerator + denominator <= U128_MAX
    ensures CheckedCeilDiv(numerator, denominator) == Some(CeilDiv(numerator, denominator))
  {
  }

  lemma RawPreFeeIsLarger(fee: FeeConfig, post: nat)
    requires fee.basisPoints < ONE_IN_BASIS_POINTS
    ensures post <= RawPreFee(fee, post)
  {
    var d := ONE_IN_BASIS_POINTS - fee.basisPoints;
    var raw := RawPreFee(fee, post);
    CeilDivIsLeast(post * ONE_IN_BASIS_POINTS, d, raw);
    hide CeilDiv, RawPreFee;
    TimesKeepsOrder(d, ONE_IN_BASIS_POINTS, raw);
  }

  /** No intermediate of the program overflows: it answers the exact inverse, or that the exact inverse
      is no u64. */
  lemma PreFeeIsExact(fee: FeeConfig, post: u64)
    requires Valid(fee)
    ensures PreFeeAmount(fee, post) == CheckedU64(ExactPreFee(fee, post))
  {
    hide CeilDiv, CheckedCeilDiv;
    if 0 < fee.basisPoints < ONE_IN_BASIS_POINTS && post > 0 {
      CheckedCeilDivSucceeds(post * ONE_IN_BASIS_POINTS, ONE_IN_BASIS_POINTS - fee.basisPoints);
      RawPreFeeIsLarger(fee, post);
    }
  }

  /** The amount that arrives, in closed form. */
  lemma PostFeeClosedForm(fee: FeeConfig, amount: u64, post: nat)
    requires 0 < fee.basisPoints < ONE_IN_BASIS_POINTS
    ensures PostFeeAmount(fee, amount).value >= post <==>
            || post * ONE_IN_BASIS_POINTS <= amount * (ONE_IN_BASIS_POINTS - fee.basisPoints)
            || post + fee.maximumFee <= amount
            || post == 0
  {
    var d := ONE_IN_BASIS_POINTS - fee.basisPoints;
    ProductIsNat(amount, fee.basisPoints);
    Distributes(amount, ONE_IN_BASIS_POINTS, fee.basisPoints);
    if post <= amount {
      CeilDivIsLeast(amount * fee.basisPoints, ONE_IN_BASIS_POINTS, amount - post);
    } else {
      TimesKeepsOrder(d, ONE_IN_BASIS_POINTS, amount);
    }
    hide CeilDiv;
  }

  // ---------- the Galois connection ----------

  /** Sending `amount` lets at least `post` arrive exactly if `amount` reaches the inverse of `post`. */
  lemma GaloisConnection(fee: FeeConfig, amount: u64, post: u64)
    requires Valid(fee)
    ensures PostFeeAmount(fee, amount).value >= post <==> ExactPreFee(fee, post) <= amount
    ensures PostFeeAmount(fee, amount).value >= post <==>
            PreFeeAmount(fee, post).Some? && PreFeeAmount(fee, post).value <= amount
  {
    PreFeeIsExact(fee, post);
    if 0 < fee.basisPoints < ONE_IN_BASIS_POINTS {
      PostFeeClosedForm(fee, amount, post);
      CeilDivIsLeast(post * ONE_IN_BASIS_POINTS, ONE_IN_BASIS_POINTS - fee.basisPoints, amount);
    } else if fee.basisPoints == ONE_IN_BASIS_POINTS {
      assert CeilDiv(amount * ONE_IN_BASIS_POINTS, ONE_IN_BASIS_POINTS) == amount;
    }
  }

  /** The inverse lets exactly `post` arrive, never more. */
  lemma PreFeeArrivesExactly(fee: FeeConfig, post: u64)
    requires Valid(fee) && PreFeeAmount(fee, post).Some?
    ensures PostFeeAmount(fee, PreFeeAmount(fee, post).value) == Some(post)
  {
    PreFeeIsExact(fee, post);
    var amount := PreFeeAmount(fee, post).value;
    GaloisConnection(fee, amount, post);
    if 0 < fee.basisPoints < ONE_IN_BASIS_POINTS && post > 0 {
      var d := ONE_IN_BASIS_POINTS - fee.basisPoints;
      PostFeeClosedForm(fee, amount, post + 1);
      CeilDivIsLeast(post * ONE_IN_BASIS_POINTS, d, amount);
      assert amount * d <= RawPreFee(fee, post) * d;
    } else if fee.basisPoints == ONE_IN_BASIS_POINTS {
      assert CeilDiv(amount * ONE_IN_BASIS_POINTS, ONE_IN_BASIS_POINTS) == amount;
    }
  }

  /** The inverse fails exactly if no u64 amount lets `post` arrive. */
  lemma PreFeeFailsExactlyWhenUnreachable(fee: FeeConfig, post: u64)
    requires Valid(fee)
    ensures PreFeeAmount(fee, post) == None <==> forall amount: u64 :: PostFeeAmount(fee, amount).value < post
  {
    PreFeeIsExact(fee, post);
    if PreFeeAmount(fee, post) == None {
      forall amount: u64 ensures PostFeeAmount(fee, amount).value < post {
        GaloisConnection(fee, amount, post);
      }
    } else {
      PreFeeArrivesExactly(fee, post);
    }
  }

  /** On anything up to what a transfer of `amount` lets arrive, the inverse succeeds and asks for no
      more than `amount`. */
  lemma PreFeeWithinAmount(fee: FeeConfig, amount: u64, post: u64)
    requires Valid(fee) && post <= PostFeeAmount(fee, amount).value
    ensures PreFeeAmount(fee, post).Some? && post <= PreFeeAmount(fee, post).value <= amount
  {
    GaloisConnection(fee, amount, post);
    PreFeeArrivesExactly(fee, post);
  }
}
