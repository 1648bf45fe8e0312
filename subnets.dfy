/**
 * Subnet records as read from the ledger, the lookup of the target subnet by
 * its netuid, and the whitelist selector that picks the subnet with the best
 * emission-to-price score.
 */
module Subnets {
  import opened Wrappers

  /**
   * One entry of the subnet list. Each numeric field is the result of
   * converting the SDK attribute with `float(...)`: `None` when that
   * conversion raised.
   */
  datatype Subnet = Subnet(
    netuid: int,
    price: Option<real>,     // float(s.price)
    taoIn: Option<real>,     // float(s.tao_in), the TAO side of the pool
    emission: Option<real>   // float(s.tao_in_emission)
  )

  /** The reason the selector returns when it finds nothing. */
  const NoEligibleReason: string := "No eligible subnets in whitelist"

  /** The price has been read and is strictly positive. */
  predicate PricePositive(s: Subnet) {
    s.price.Some? && s.price.value > 0.0
  }

  /**
   * A subnet survives every filter of the whitelist selector: it is
   * whitelisted, its price is readable and positive, its pool depth is
   * readable and at least `amount * ratio`.
   */
  predicate Eligible(s: Subnet, whitelist: seq<int>, amount: real, ratio: real)
    ensures Eligible(s, whitelist, amount, ratio) ==> PricePositive(s) && s.netuid in whitelist
    ensures s.taoIn.None? || s.taoIn.value < amount * ratio ==> !Eligible(s, whitelist, amount, ratio)
  {
    s.netuid in whitelist && PricePositive(s) &&
    s.taoIn.Some? && s.taoIn.value >= amount * ratio
  }

  /** Emission per unit of price; 0.0 when the emission cannot be read. */
  function Score(s: Subnet): (r: real)
    requires PricePositive(s)
    ensures s.emission.None? ==> r == 0.0
    ensures s.emission.Some? ==> r * s.price.value == s.emission.value
    ensures r > 0.0 <==> s.emission.Some? && s.emission.value > 0.0
  {
    match s.emission
    case Some(e) => e / s.price.value
    case None => 0.0
  }

  /**
   * Index `k` is the selector's choice: an eligible subnet with a positive
   * score, strictly better than every eligible subnet before it and at least
   * as good as every eligible subnet after it (ties go to the earliest).
   */
  ghost predicate IsSelectedAt(subnets: seq<Subnet>, whitelist: seq<int>, amount: real, ratio: real, k: int) {
    0 <= k < |subnets| &&
    Eligible(subnets[k], whitelist, amount, ratio) && Score(subnets[k]) > 0.0 &&
    (forall j :: 0 <= j < k && Eligible(subnets[j], whitelist, amount, ratio) ==>
      Score(subnets[j]) < Score(subnets[k])) &&
    (forall j :: k < j < |subnets| && Eligible(subnets[j], whitelist, amount, ratio) ==>
      Score(subnets[j]) <= Score(subnets[k]))
  }

  /** No eligible subnet has a positive score, so nothing can be chosen. */
  ghost predicate NothingToSelect(subnets: seq<Subnet>, whitelist: seq<int>, amount: real, ratio: real) {
    forall j :: 0 <= j < |subnets| && Eligible(subnets[j], whitelist, amount, ratio) ==>
      Score(subnets[j]) <= 0.0
  }

  /** Index `k` holds the first subnet of the list whose netuid is `netuid`. */
  ghost predicate FirstWithNetuid(subnets: seq<Subnet>, netuid: int, k: int) {
    0 <= k < |subnets| && subnets[k].netuid == netuid &&
    forall j :: 0 <= j < k ==> subnets[j].netuid != netuid
  }

  /** Linear search of the subnet list for `netuid`; the first match wins. */
  method GetSubnetByNetuid(subnets: seq<Subnet>, netuid: int) returns (r: Option<Subnet>)
    ensures r.None? <==> forall j :: 0 <= j < |subnets| ==> subnets[j].netuid != netuid
    ensures r.Some? ==> exists k :: FirstWithNetuid(subnets, netuid, k) && subnets[k] == r.value
  {
    for i := 0 to |subnets|
      invariant forall j :: 0 <= j < i ==> subnets[j].netuid != netuid
    {
      if subnets[i].netuid == netuid {
        assert FirstWithNetuid(subnets, netuid, i);
        return Some(subnets[i]);
      }
    }
    return None;
  }

  /**
   * One pass over the subnet list keeping the strictly best score, starting
   * from 0.0. Returns the chosen subnet, or no subnet and the reason.
   */
  method SelectBestFromWhitelist(subnets: seq<Subnet>, whitelist: seq<int>, stakeAmount: real, minLiquidityRatio: real)
    returns (best: Option<Subnet>, error: Option<string>)
    ensures best.None? <==> NothingToSelect(subnets, whitelist, stakeAmount, minLiquidityRatio)
    ensures best.Some? ==> exists k :: IsSelectedAt(subnets, whitelist, stakeAmount, minLiquidityRatio, k) && subnets[k] == best.value
    ensures error == if best.None? then Some(NoEligibleReason) else None
  {
    best := None;
    var bestScore := 0.0;
    ghost var bestIndex := -1;
    for i := 0 to |subnets|
      invariant best.None? ==> bestIndex == -1 && bestScore == 0.0
      invariant best.None? ==> forall j :: 0 <= j < i && Eligible(subnets[j], whitelist, stakeAmount, minLiquidityRatio) ==>
        Score(subnets[j]) <= 0.0
      invariant best.Some? ==> 0 <= bestIndex < i && subnets[bestIndex] == best.value
      invariant best.Some? ==> Eligible(best.value, whitelist, stakeAmount, minLiquidityRatio) && Score(best.value) == bestScore > 0.0
      invariant best.Some? ==> forall j :: 0 <= j < bestIndex && Eligible(subnets[j], whitelist, stakeAmount, minLiquidityRatio) ==>
        Score(subnets[j]) < bestScore
      invariant best.Some? ==> forall j :: bestIndex < j < i && Eligible(subnets[j], whitelist, stakeAmount, minLiquidityRatio) ==>
        Score(subnets[j]) <= bestScore
    {
      var s := subnets[i];
      if s.netuid !in whitelist {
        continue;
      }
      if s.price.None? {
        continue;  // float(s.price) raised
      }
      var price := s.price.value;
      if price <= 0.0 {
        continue;
      }
      if s.taoIn.None? {
        continue;  // pool depth unreadable
      }
      if s.taoIn.value < stakeAmount * minLiquidityRatio {
        continue;
      }
      var score := Score(s);
      if score > bestScore {
        bestScore := score;
        best := Some(s);
        bestIndex := i;
      }
    }
    if best.Some? {
      assert IsSelectedAt(subnets, whitelist, stakeAmount, minLiquidityRatio, bestIndex);
      error := None;
    } else {
      error := Some(NoEligibleReason);
    }
  }

  /** The selector's characterisation determines the chosen index uniquely. */
  lemma SelectionIsUnique(subnets: seq<Subnet>, whitelist: seq<int>, amount: real, ratio: real, k1: int, k2: int)
    requires IsSelectedAt(subnets, whitelist, amount, ratio, k1)
    requires IsSelectedAt(subnets, whitelist, amount, ratio, k2)
    ensures k1 == k2
  {
  }

  /** A choice and "nothing to select" exclude each other. */
  lemma SelectionExcludesNothing(subnets: seq<Subnet>, whitelist: seq<int>, amount: real, ratio: real, k: int)
    requires IsSelectedAt(subnets, whitelist, amount, ratio, k)
    ensures !NothingToSelect(subnets, whitelist, amount, ratio)
  {
  }

  /** Whatever is selected is whitelisted, positively priced and deep enough. */
  lemma SelectedPassesFilters(subnets: seq<Subnet>, whitelist: seq<int>, amount: real, ratio: real, k: int)
    requires IsSelectedAt(subnets, whitelist, amount, ratio, k)
    ensures subnets[k].netuid in whitelist
    ensures subnets[k].price.Some? && subnets[k].price.value > 0.0
    ensures subnets[k].taoIn.Some? && subnets[k].taoIn.value >= amount * ratio
    ensures subnets[k].emission.Some? && subnets[k].emission.value > 0.0
  {
  }

  /** The first match is unique: the lookup's answer is determined by the list. */
  lemma FirstMatchIsUnique(subnets: seq<Subnet>, netuid: int, k1: int, k2: int)
    requires FirstWithNetuid(subnets, netuid, k1)
    requires FirstWithNetuid(subnets, netuid, k2)
    ensures k1 == k2
  {
  }

  /**
   * Of two eligible subnets with the same score, the later one is never
   * chosen, whatever their netuids: ties go to the earlier in list order.
   */
  lemma TieGoesToEarliest(subnets: seq<Subnet>, whitelist: seq<int>, amount: real, ratio: real, i: int, j: int)
    requires 0 <= i < j < |subnets|
    requires Eligible(subnets[i], whitelist, amount, ratio) && Eligible(subnets[j], whitelist, amount, ratio)
    requires Score(subnets[i]) == Score(subnets[j])
    ensures !IsSelectedAt(subnets, whitelist, amount, ratio, j)
  {
  }
}
