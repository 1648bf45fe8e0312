# DCA staking decision logic, modelled in Dafny

This project models the decision logic of `dca_stake.py`. That script is run from cron to stake a fixed amount of TAO into one Bittensor subnet. Each invocation:

- connects to the network, falling back through a fixed list of endpoints with three attempts each;
- unlocks the wallet and checks that the balance covers the stake plus 0.01 TAO of fees;
- chooses a subnet: the configured `target_netuid` if set, otherwise the best-scoring subnet of the whitelist;
- runs a liquidity gate on that subnet;
- stakes, or reports a dry run, and exits with code 0 (success or graceful skip) or 1 (error).

Every network and SDK call is an input:

- a probe oracle answers each connection attempt;
- a flag says whether the wallet unlocks;
- the balance read is an `Option<real>`;
- the subnet list is a sequence;
- the reply to the stake transaction is a three-way datatype.

Subnet fields are `Option<real>`, where `None` means the source's `float(...)` conversion raised. Prices, pool depths and thresholds are `real`.

Modules:

- `wrappers.dfy`: `Option`, `Result`.
- `subnets.dfy`: the `Subnet` record, the target lookup and the whitelist selector.
- `validation.dfy`: the liquidity gate.
- `connection.dfy`: the failover order and the retry loops.
- `settings.dfy`: required keys, numeric conversions and defaults of the configuration.
- `staking.dfy`: the run itself, its outcomes and exit codes, and the close on every path.

`dca_stake.py` does not exclude netuid 0. It has no include/exclude sets, no preference multipliers, no slippage gate, no lowest-netuid tie-breaking and no endpoint health state, and neither does the model. So netuid 0 can be chosen if it is whitelisted or targeted. Ties go to the earliest subnet in list order (`Subnets.TieGoesToEarliest`). Target mode applies no price-positivity filter; only an unreadable price stops the run (`Staking.TargetModeSkipsPriceFilter`).

## Model

| member | source | states |
|---|---|---|
| `Subnets.Eligible` | dca_stake.py:196-219 | The selector's filters: whitelisted, price readable and > 0, pool depth readable and at least stake × ratio. An eligible subnet has a positive price and is whitelisted. An unreadable depth or one below stake × ratio makes a subnet ineligible. |
| `Subnets.Score` | dca_stake.py:222-225 | The score is 0.0 when the emission cannot be read. Otherwise, multiplied by the price, it gives back the emission. It is positive exactly when the emission is readable and positive. |
| `Subnets.GetSubnetByNetuid` | dca_stake.py:173-179 | Returns None exactly when no subnet has the netuid; otherwise returns the subnet at the first index carrying it. |
| `Subnets.FirstMatchIsUnique` | dca_stake.py:176-178 | The "first index with this netuid" characterisation picks one index, so the lookup's answer is determined by the list. |
| `Subnets.SelectBestFromWhitelist` | dca_stake.py:182-233 | Returns no subnet (with reason "No eligible subnets in whitelist") exactly when no subnet passes the filters with a positive score. Otherwise it returns the subnet at an index that is eligible and has a positive score. That score is strictly above every earlier eligible score and at least every later one. The error is None when a subnet is returned. |
| `Subnets.SelectionIsUnique` | dca_stake.py:227-229 | The argmax-with-earliest-tie characterisation determines the chosen index uniquely. |
| `Subnets.SelectionExcludesNothing` | dca_stake.py:231-233 | A choice and the "nothing eligible" outcome exclude each other. |
| `Subnets.SelectedPassesFilters` | dca_stake.py:195-229 | The chosen subnet is whitelisted, has a readable positive price and pool depth at least stake × ratio, and its emission is readable and positive (score > 0). |
| `Subnets.TieGoesToEarliest` | dca_stake.py:227-229 | For any list and any two eligible subnets with equal scores, the later one is never chosen, whatever their netuids. |
| `Validation.CheckLiquidity` | dca_stake.py:238-256 | Passes exactly when `tao_in` is readable, positive and at least stake × ratio, and then the reason is "OK". Unreadable depth reports 0.0 and the "unable to determine" reason. Depth ≤ 0 gives the zero-liquidity reason. Depth below the requirement reports the required amount. |
| `Validation.EligibleSubnetPassesGate` | dca_stake.py:244-256 | Any subnet the whitelist selector considers eligible passes the gate whenever stake × ratio > 0. |
| `Validation.EmptyPoolAdmittedBySelectorOnly` | dca_stake.py:249-250 | With a zero stake and any ratio, every whitelisted, positively priced subnet with an empty pool is admitted by the selector (0 ≥ 0) but rejected by the gate as zero liquidity. |
| `Validation.ThresholdIsInclusive` | dca_stake.py:252-256 | When stake × ratio > 0, a pool of exactly stake × ratio passes the gate. |
| `Validation.SmallerStakeStillPasses` | dca_stake.py:252-254 | With a non-negative ratio, lowering the stake never turns a passing gate into a failing one. |
| `Connection.Without` | dca_stake.py:123 | The comprehension keeps exactly the elements other than the removed one and never grows the list. |
| `Connection.WithoutCounts` | dca_stake.py:123 | The comprehension drops every copy of the removed element and keeps every other element exactly as often as before. |
| `Connection.NetworksToTry` | dca_stake.py:123 | The list starts with the primary network and holds exactly the primary and the fallback networks. |
| `Connection.WithoutKeepsDistinct` | dca_stake.py:123 | Filtering a duplicate-free list leaves it duplicate-free. |
| `Connection.NetworksToTryOrder` | dca_stake.py:108-123 | Gives the exact order for every primary. A fallback name is moved to the front and the others keep their order ("subvortex" gives subvortex, finney, archive). Any other name is prepended to finney, subvortex, archive. |
| `Connection.NetworksToTryShape` | dca_stake.py:108-123 | No network appears twice. The list has 3 entries when the primary is a fallback name and 4 otherwise. |
| `Connection.ConnectWithRetry` | dca_stake.py:111-117 | Makes 1 to 3 attempts and stops at the first success. It connects exactly when one of the 3 attempts succeeds, and every earlier attempt failed. On failure it made exactly 3 attempts and carries the last attempt's error. |
| `Connection.ConnectToBittensor` | dca_stake.py:120-137 | Returns a connection to the first reachable network of the failover order, when that network is at position k. It has then made exactly 3k + i attempts, where attempt i is the first to reach that network. It raises exactly when every network is unreachable. It then has made exactly 3 × the number of networks attempts (9 or 12) and carries the last network's last error. |
| `Settings.FloatOr` | dca_stake.py:69 | A missing key gives the default. A present key gives `AsFloat` of its value, or a not-a-number error naming the key. A numeric string is rejected (see `Settings.AsFloat` under Left out). |
| `Settings.TextOr` | dca_stake.py:70-71 | A missing key gives the default; a string value gives that string. |
| `Settings.AsFloat` | dca_stake.py:66 | Python's `float` on a non-string YAML value: a number is kept, an integer is converted, a boolean becomes 1.0 or 0.0, and null or a list fails. A string fails too, although Python's `float` parses a numeric one. |
| `Settings.Truthy` | dca_stake.py:72 | Python truthiness of the `dry_run` value, which `run` tests at dca_stake.py:359. A value is true exactly when it is not null, false, 0, 0.0, "" or []. |
| `Settings.TargetNetuid` | dca_stake.py:67 | A missing or null `target_netuid` means no target, and an integer means that target. Any other value is reported as unsupported. |
| `Settings.Whitelist` | dca_stake.py:68 | A missing or null whitelist is empty, and a list of integers is kept as is. Any other value is reported as unsupported. |
| `Settings.LoadConfig` | dca_stake.py:55-73 | Missing required keys are reported in source order: wallet_name, validator_hotkey, stake_amount. A non-numeric stake is an error. Loading succeeds exactly when the three keys are present, the stake converts and every optional value is accepted. On success it keeps wallet and hotkey as given and converts stake and ratio with `float`. A present target, whitelist, network or log file is kept. Missing ones default to ratio 10.0, network "finney", log file "logs/dca.log", no target and an empty whitelist. The dry-run flag is the truthiness of `dry_run`. |
| `Settings.LoadConfigRoundTrip` | dca_stake.py:63-73 | Loading the document that writes out a configuration gives that configuration back. |
| `Settings.RequiredKeysOnly` | dca_stake.py:63-73 | A document with only the three required keys loads with every default. |
| `Staking.Run` | dca_stake.py:286-383 | Gives the full exit-code table. Code 1: connection failure, wallet unlock failure, unreadable balance, balance below stake + 0.01, target not found, neither target nor whitelist, unreadable price, and a stake that is refused or raises. Code 0: nothing eligible, liquidity skip, dry run, and stake accepted. Each ending is stated as an if-and-only-if over the inputs. The target, when set, decides the subnet over the whitelist. `close` is called 0 times when the connection failed and exactly once otherwise. The outcome carries the inputs behind it: the last network's last error, the balance read, the missing target and the error the stake raised. |
| `Staking.WhitelistChoiceIsCleared` | dca_stake.py:324-356 | In whitelist mode with stake × ratio > 0, the chosen subnet has a readable price and passes the liquidity gate. |
| `Staking.TargetTakesPrecedence` | dca_stake.py:316-324 | With a target set, the chosen subnet carries the target netuid and is the first subnet in the list with that netuid, whatever the whitelist holds. |
| `Staking.WhitelistChoiceIsWhitelisted` | dca_stake.py:324-336 | In whitelist mode, the chosen subnet is whitelisted and has a positive price. |
| `Staking.TargetModeSkipsPriceFilter` | dca_stake.py:317-356 | In target mode, for any funded run, the first subnet with the target netuid is chosen and cleared for staking even when its price reads ≤ 0. This holds whenever its pool holds at least stake × ratio and stake × ratio > 0. |

## Left out

- Reading the YAML file, the missing-file error, logging setup, argument parsing and `main` are not modelled. `Config.dryRun` stands for the effective flag after the `--dry-run` override.
- Wallet password lookup and unlocking are not modelled; the `walletUnlocks` input stands for their result.
- The bodies of the SDK calls are inputs: client creation, `get_current_block`, `all_subnets`, `get_balance`, `add_stake` and `close`.
- Tenacity's exponential backoff sleeps are not modelled; only the number of attempts is.
- async/await scheduling is not modelled; nothing in the decision logic depends on it.
- Python floats are modelled as `real`, so there is no rounding, NaN or infinity. For example, a NaN price would pass the `price <= 0` test in the source.
- Subnets.Subnet: `float(s.tao_in)` raising `ValueError` is not modelled. Only `AttributeError`/`TypeError` are caught there (dca_stake.py:213, 246); `ValueError` would propagate out of `run`. `None` stands for the caught kinds.
- An exception from `all_subnets` propagates out of `run` uncaught. This is not modelled: the subnet list is a given sequence.
- The price check in `run` also reads `subnet.subnet_name` (dca_stake.py:344). A missing name, which would also give exit code 1, is not modelled.
- An exception raised by `close` in the `finally` block is not modelled.
- Connection.ConnectToBittensor: the error carries the reason of the last attempt, not tenacity's `RetryError` wrapper text or the formatted `ConnectionError` message.
- Settings.AsFloat: every string is treated as not a number, although Python's `float("2.5")` succeeds. `Settings.FloatOr` and `Settings.LoadConfig` inherit this, so a quoted numeric `stake_amount` or `min_liquidity_ratio` gives a not-a-number error in the model.
- Settings.LoadConfig: a `target_netuid` that is not an integer, a `whitelist` that is not an integer list, or a `network`/`log_file` that is not a string is reported as `Unsupported`. The source keeps such values unchecked.
- Settings.LoadConfig: an empty YAML document, which the source cannot index, is not modelled.
- Settings.Whitelist: a null `whitelist` becomes `[]`, where the source keeps `None`. Only its truthiness is read afterwards (dca_stake.py:324), so the run behaves the same.
- Staking.Run: the outcome records the netuid staked into. The wallet, hotkey and amount passed to `add_stake` are not recorded; the amount is always `stakeAmount`.
- Log message texts are not modelled.
