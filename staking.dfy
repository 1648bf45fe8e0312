/**
 * One staking run: connect, unlock the wallet, check the balance, choose the
 * subnet (a configured target first, else the best of the whitelist), read
 * its price, run the liquidity gate, then stake or report a dry run. Every
 * step maps to an outcome and an exit code, and once a connection exists it
 * is closed exactly once on every path.
 *
 * The ledger is an environment of answers: the connection probe, whether the
 * wallet unlocks, the balance read (None when reading it raised), the subnet
 * list, and the reply to the stake transaction.
 */
module Staking {
  import opened Wrappers
  import opened Subnets
  import opened Validation
  import opened Connection
  import opened Settings

  /** Kept on top of the stake for transaction fees. */
  const Fee: real := 0.01

  /** What `add_stake` does: returns a truthy value, a falsy one, or raises. */
  datatype StakeReply = Accepted | Refused | Raised(error: string)

  datatype Env = Env(
    probe: (string, nat) -> Probe,
    walletUnlocks: bool,
    balance: Option<real>,
    snapshot: seq<Subnet>,
    stakeReply: StakeReply
  )

  /** How a run ends. */
  datatype Outcome =
    | ConnectionFailed(lastError: string)
    | WalletUnlockFailed
    | BalanceUnavailable
    | InsufficientBalance(balance: real)
    | TargetNotFound(target: int)
    | NoEligibleSubnet(reason: string)
    | NoSelectionMode
    | InvalidPrice(netuid: int)
    | LiquiditySkipped(netuid: int, check: LiquidityCheck)
    | DryRun(netuid: int)
    | Staked(netuid: int)
    | StakeRefused(netuid: int)
    | StakeFailed(netuid: int, error: string)
  {
    /** The endings the script treats as a graceful exit (code 0). */
    predicate Graceful() {
      NoEligibleSubnet? || LiquiditySkipped? || DryRun? || Staked?
    }

    /** The endings reached after a subnet was chosen. */
    predicate SubnetChosen() {
      InvalidPrice? || LiquiditySkipped? || DryRun? || Staked? || StakeRefused? || StakeFailed?
    }
  }

  /** Connected, wallet unlocked, and the balance covers the stake plus fees. */
  ghost predicate Funded(config: Config, env: Env) {
    !AllUnreachable(config.network, env.probe) && env.walletUnlocks &&
    env.balance.Some? && env.balance.value >= config.stakeAmount + Fee
  }

  /**
   * `s` is the subnet the run goes on with: with a target netuid, the first
   * subnet carrying it (the whitelist is not consulted); otherwise, with a
   * non-empty whitelist, the selector's choice.
   */
  ghost predicate ChosenSubnet(config: Config, env: Env, s: Subnet) {
    Funded(config, env) &&
    match config.targetNetuid
    case Some(t) =>
      exists k :: FirstWithNetuid(env.snapshot, t, k) && env.snapshot[k] == s
    case None =>
      config.whitelist != [] &&
      exists k :: IsSelectedAt(env.snapshot, config.whitelist, config.stakeAmount, config.minLiquidityRatio, k) &&
                  env.snapshot[k] == s
  }

  /** The chosen subnet has a readable price and passes the liquidity gate. */
  predicate Cleared(config: Config, chosen: Option<Subnet>) {
    chosen.Some? && chosen.value.price.Some? &&
    CheckLiquidity(chosen.value, config.stakeAmount, config.minLiquidityRatio).ok
  }

  method Run(config: Config, env: Env) returns (outcome: Outcome, code: int, closeCalls: nat, chosen: Option<Subnet>)
    ensures code == if outcome.Graceful() then 0 else 1
    ensures closeCalls == if outcome.ConnectionFailed? then 0 else 1
    ensures outcome.ConnectionFailed? <==> AllUnreachable(config.network, env.probe)
    ensures outcome == WalletUnlockFailed <==> !AllUnreachable(config.network, env.probe) && !env.walletUnlocks
    ensures outcome == BalanceUnavailable <==>
              !AllUnreachable(config.network, env.probe) && env.walletUnlocks && env.balance.None?
    ensures outcome.InsufficientBalance? <==>
              !AllUnreachable(config.network, env.probe) && env.walletUnlocks &&
              env.balance.Some? && env.balance.value < config.stakeAmount + Fee
    ensures outcome.TargetNotFound? <==>
              Funded(config, env) && config.targetNetuid.Some? &&
              forall j :: 0 <= j < |env.snapshot| ==> env.snapshot[j].netuid != config.targetNetuid.value
    ensures outcome == NoSelectionMode <==> Funded(config, env) && config.targetNetuid.None? && config.whitelist == []
    ensures outcome.NoEligibleSubnet? <==>
              Funded(config, env) && config.targetNetuid.None? && config.whitelist != [] &&
              NothingToSelect(env.snapshot, config.whitelist, config.stakeAmount, config.minLiquidityRatio)
    ensures outcome.NoEligibleSubnet? ==> outcome.reason == NoEligibleReason
    ensures outcome.ConnectionFailed? ==>
              var networks := NetworksToTry(config.network);
              outcome.lastError == env.probe(networks[|networks| - 1], RetryAttempts).reason
    ensures outcome.InsufficientBalance? ==> outcome.balance == env.balance.value
    ensures outcome.TargetNotFound? ==> outcome.target == config.targetNetuid.value
    ensures outcome.StakeFailed? ==> env.stakeReply == Raised(outcome.error)
    ensures chosen.Some? <==> outcome.SubnetChosen()
    ensures chosen.Some? ==> ChosenSubnet(config, env, chosen.value) && outcome.netuid == chosen.value.netuid
    ensures chosen.Some? ==> (outcome.InvalidPrice? <==> chosen.value.price.None?)
    ensures chosen.Some? ==>
              (outcome.LiquiditySkipped? <==>
                 chosen.value.price.Some? && !CheckLiquidity(chosen.value, config.stakeAmount, config.minLiquidityRatio).ok)
    ensures outcome.LiquiditySkipped? ==>
              outcome.check == CheckLiquidity(chosen.value, config.stakeAmount, config.minLiquidityRatio)
    ensures outcome.DryRun? <==> Cleared(config, chosen) && config.dryRun
    ensures outcome.Staked? <==> Cleared(config, chosen) && !config.dryRun && env.stakeReply == Accepted
    ensures outcome.StakeRefused? <==> Cleared(config, chosen) && !config.dryRun && env.stakeReply == Refused
    ensures outcome.StakeFailed? <==> Cleared(config, chosen) && !config.dryRun && env.stakeReply.Raised?
  {
    chosen := None;
    closeCalls := 0;
    var connection, _ := ConnectToBittensor(config.network, env.probe);
    if connection.ConnectionError? {
      return ConnectionFailed(connection.lastError), 1, closeCalls, chosen;
    }

    // The try-block: every way out of it breaks to the close below.
    label session: {
      if !env.walletUnlocks {
        outcome, code := WalletUnlockFailed, 1;
        break session;
      }
      if env.balance.None? {
        outcome, code := BalanceUnavailable, 1;
        break session;
      }
      var balance := env.balance.value;
      if balance < config.stakeAmount + Fee {
        outcome, code := InsufficientBalance(balance), 1;
        break session;
      }

      var subnet: Subnet;
      if config.targetNetuid.Some? {
        var found := GetSubnetByNetuid(env.snapshot, config.targetNetuid.value);
        if found.None? {
          outcome, code := TargetNotFound(config.targetNetuid.value), 1;
          break session;
        }
        subnet := found.value;
      } else if config.whitelist != [] {
        var best, error := SelectBestFromWhitelist(env.snapshot, config.whitelist,
                                                   config.stakeAmount, config.minLiquidityRatio);
        if best.None? {
          outcome, code := NoEligibleSubnet(error.value), 0;
          break session;
        }
        subnet := best.value;
      } else {
        outcome, code := NoSelectionMode, 1;
        break session;
      }
      chosen := Some(subnet);

      if subnet.price.None? {
        outcome, code := InvalidPrice(subnet.netuid), 1;
        break session;
      }

      var liquidity := CheckLiquidity(subnet, config.stakeAmount, config.minLiquidityRatio);
      if !liquidity.ok {
        outcome, code := LiquiditySkipped(subnet.netuid, liquidity), 0;
        break session;
      }

      if config.dryRun {
        outcome, code := DryRun(subnet.netuid), 0;
        break session;
      }

      match env.stakeReply
      case Accepted =>
        outcome, code := Staked(subnet.netuid), 0;
      case Refused =>
        outcome, code := StakeRefused(subnet.netuid), 1;
      case Raised(e) =>
        outcome, code := StakeFailed(subnet.netuid, e), 1;
    }
    // The finally-block: subtensor.close().
    closeCalls := closeCalls + 1;
  }

  /**
   * In whitelist mode with a positive required depth, the chosen subnet has a
   * readable price and passes the liquidity gate, so the run cannot end on
   * an invalid price or a liquidity skip.
   */
  lemma WhitelistChoiceIsCleared(config: Config, env: Env, s: Subnet)
    requires ChosenSubnet(config, env, s) && config.targetNetuid.None?
    requires config.stakeAmount * config.minLiquidityRatio > 0.0
    ensures Cleared(config, Some(s))
  {
  }

  /**
   * A target netuid wins over the whitelist: the chosen subnet carries the
   * target even when the target is not whitelisted.
   */
  lemma TargetTakesPrecedence(config: Config, env: Env, s: Subnet)
    requires ChosenSubnet(config, env, s) && config.targetNetuid.Some?
    ensures s.netuid == config.targetNetuid.value
    ensures exists k :: FirstWithNetuid(env.snapshot, s.netuid, k) && env.snapshot[k] == s
  {
  }

  /** In whitelist mode the chosen subnet is whitelisted and positively priced. */
  lemma WhitelistChoiceIsWhitelisted(config: Config, env: Env, s: Subnet)
    requires ChosenSubnet(config, env, s) && config.targetNetuid.None?
    ensures s.netuid in config.whitelist
    ensures s.price.Some? && s.price.value > 0.0
  {
  }

  /**
   * Target mode applies no price filter: once funded, the first subnet
   * carrying the target is chosen and, with a deep enough pool, cleared for
   * staking even when its price reads as zero or negative.
   */
  lemma TargetModeSkipsPriceFilter(config: Config, env: Env, k: int)
    requires Funded(config, env) && config.targetNetuid.Some?
    requires FirstWithNetuid(env.snapshot, config.targetNetuid.value, k)
    requires env.snapshot[k].price.Some? && env.snapshot[k].price.value <= 0.0
    requires env.snapshot[k].taoIn.Some? && env.snapshot[k].taoIn.value >= config.stakeAmount * config.minLiquidityRatio
    requires config.stakeAmount * config.minLiquidityRatio > 0.0
    ensures ChosenSubnet(config, env, env.snapshot[k]) && Cleared(config, Some(env.snapshot[k]))
  {
  }
}
