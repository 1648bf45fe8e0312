/**
 * The liquidity gate run on the chosen subnet just before staking: the pool
 * must hold a readable, positive amount of TAO, at least the stake times the
 * configured ratio.
 */
module Validation {
  import opened Wrappers
  import opened Subnets

  /** Why the gate passed or failed; `Sufficient` is the source's "OK". */
  datatype LiquidityReason =
    | Unreadable                       // float(subnet.tao_in) raised
    | ZeroLiquidity                    // pool depth <= 0
    | BelowRequired(required: real)    // pool depth < stake * ratio
    | Sufficient

  /** The gate's answer: whether to stake, the pool depth it read and why. */
  datatype LiquidityCheck = LiquidityCheck(ok: bool, pool: real, reason: LiquidityReason)

  function CheckLiquidity(subnet: Subnet, stakeAmount: real, minRatio: real): (r: LiquidityCheck)
    ensures r.ok <==> subnet.taoIn.Some? && subnet.taoIn.value > 0.0 && subnet.taoIn.value >= stakeAmount * minRatio
    ensures r.ok <==> r.reason == Sufficient
    ensures r.reason == Unreadable <==> subnet.taoIn.None?
    ensures r.pool == if subnet.taoIn.Some? then subnet.taoIn.value else 0.0
    ensures r.reason == ZeroLiquidity <==> subnet.taoIn.Some? && subnet.taoIn.value <= 0.0
    ensures r.reason.BelowRequired? ==> r.reason.required == stakeAmount * minRatio && r.pool < r.reason.required
  {
    match subnet.taoIn
    case None => LiquidityCheck(false, 0.0, Unreadable)
    case Some(pool) =>
      if pool <= 0.0 then LiquidityCheck(false, pool, ZeroLiquidity)
      else
        var required := stakeAmount * minRatio;
        if pool < required then LiquidityCheck(false, pool, BelowRequired(required))
        else LiquidityCheck(true, pool, Sufficient)
  }

  /**
   * The whitelist selector already filters on pool depth, so a subnet it
   * finds eligible passes the gate whenever the required depth is positive.
   */
  lemma EligibleSubnetPassesGate(s: Subnet, whitelist: seq<int>, stakeAmount: real, minRatio: real)
    requires Eligible(s, whitelist, stakeAmount, minRatio)
    requires stakeAmount * minRatio > 0.0
    ensures CheckLiquidity(s, stakeAmount, minRatio).ok
  {
  }

  /**
   * With a zero stake the two filters differ: the selector admits an empty
   * pool of any whitelisted, positively priced subnet (0 >= 0 * ratio), the
   * gate refuses it as zero liquidity.
   */
  lemma EmptyPoolAdmittedBySelectorOnly(s: Subnet, whitelist: seq<int>, minRatio: real)
    requires s.netuid in whitelist && PricePositive(s) && s.taoIn == Some(0.0)
    ensures Eligible(s, whitelist, 0.0, minRatio)
    ensures CheckLiquidity(s, 0.0, minRatio) == LiquidityCheck(false, 0.0, ZeroLiquidity)
  {
  }

  /**
   * The threshold is inclusive: when the required depth is positive, a pool
   * of exactly stake * ratio passes.
   */
  lemma ThresholdIsInclusive(s: Subnet, stakeAmount: real, minRatio: real)
    requires stakeAmount * minRatio > 0.0 && s.taoIn == Some(stakeAmount * minRatio)
    ensures CheckLiquidity(s, stakeAmount, minRatio).ok
  {
  }

  /** Lowering the stake never turns a passing gate into a failing one. */
  lemma SmallerStakeStillPasses(s: Subnet, stakeAmount: real, smaller: real, minRatio: real)
    requires CheckLiquidity(s, stakeAmount, minRatio).ok
    requires smaller <= stakeAmount && minRatio >= 0.0
    ensures CheckLiquidity(s, smaller, minRatio).ok
  {
  }
}
