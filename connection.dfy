/**
 * Endpoint failover: the order in which networks are tried, the fixed retry
 * budget per network and the error raised when every network has failed.
 * Each connection attempt (creating the client and reading the current
 * block) is an oracle `probe(network, attempt)`; the backoff sleeps between
 * attempts are not modelled.
 */
module Connection {

  /** The networks tried after the configured one, in this order. */
  const FallbackNetworks: seq<string> := ["finney", "subvortex", "archive"]

  /** Attempts per network before the retry wrapper gives up on it. */
  const RetryAttempts: nat := 3

  /** Outcome of one attempt to open a client and read the current block. */
  datatype Probe = Reachable | Unreachable(reason: string)

  /** A live client on `network`, or the error left by the last attempt. */
  datatype Connection = Connected(network: string) | ConnectionError(lastError: string)

  /** `xs` with every occurrence of `x` removed (the list comprehension). */
  function Without(xs: seq<string>, x: string): (r: seq<string>)
    ensures forall y :: y in r <==> y in xs && y != x
    ensures |r| <= |xs|
  {
    if xs == [] then []
    else if xs[0] == x then Without(xs[1..], x)
    else [xs[0]] + Without(xs[1..], x)
  }

  /** Removal drops every copy of `x` and keeps every other element as often as before. */
  lemma {:induction false} WithoutCounts(xs: seq<string>, x: string)
    ensures multiset(Without(xs, x)) == multiset(xs)[x := 0]
  {
    if xs != [] {
      WithoutCounts(xs[1..], x);
      assert xs == [xs[0]] + xs[1..];
    }
  }

  /** The configured network first, then the fallbacks other than it. */
  function NetworksToTry(primary: string): (r: seq<string>)
    ensures |r| >= 1 && r[0] == primary
    ensures forall n :: n in r <==> n == primary || n in FallbackNetworks
  {
    [primary] + Without(FallbackNetworks, primary)
  }

  predicate Distinct(xs: seq<string>) {
    forall i, j :: 0 <= i < j < |xs| ==> xs[i] != xs[j]
  }

  /** Removing an element from a duplicate-free list leaves it duplicate-free. */
  lemma {:induction false} WithoutKeepsDistinct(xs: seq<string>, x: string)
    requires Distinct(xs)
    ensures Distinct(Without(xs, x))
  {
    if xs != [] {
      assert Distinct(xs[1..]);
      WithoutKeepsDistinct(xs[1..], x);
      if xs[0] != x {
        var r := Without(xs, x);
        assert r == [xs[0]] + Without(xs[1..], x);
        assert xs[0] !in xs[1..];
        forall i, j | 0 <= i < j < |r| ensures r[i] != r[j] {
          if i == 0 {
            assert r[j] in Without(xs[1..], x);
          }
        }
      }
    }
  }

  /**
   * The full failover order for every primary: a fallback name is moved to
   * the front, any other name is prepended to the three fallbacks.
   */
  lemma NetworksToTryOrder(primary: string)
    ensures primary == "finney" ==> NetworksToTry(primary) == ["finney", "subvortex", "archive"]
    ensures primary == "subvortex" ==> NetworksToTry(primary) == ["subvortex", "finney", "archive"]
    ensures primary == "archive" ==> NetworksToTry(primary) == ["archive", "finney", "subvortex"]
    ensures primary !in FallbackNetworks ==> NetworksToTry(primary) == [primary] + FallbackNetworks
  {
    var f := FallbackNetworks;
    assert f[1..] == ["subvortex", "archive"] && f[2..] == ["archive"] && f[3..] == [];
    if primary !in f {
      assert Without(f[2..], primary) == f[2..];
      assert Without(f[1..], primary) == f[1..];
    }
  }

  /** No network is tried twice, and there are three or four of them. */
  lemma NetworksToTryShape(primary: string)
    ensures Distinct(NetworksToTry(primary))
    ensures |NetworksToTry(primary)| == if primary in FallbackNetworks then 3 else 4
  {
    NetworksToTryOrder(primary);
    var rest := Without(FallbackNetworks, primary);
    assert Distinct(FallbackNetworks);
    WithoutKeepsDistinct(FallbackNetworks, primary);
    assert primary !in rest;
  }

  /** Some attempt within the budget reaches `network`. */
  ghost predicate ReachableWithin(probe: (string, nat) -> Probe, network: string) {
    exists i :: 1 <= i <= RetryAttempts && probe(network, i).Reachable?
  }

  /** Every network of the failover order is unreachable within the budget. */
  ghost predicate AllUnreachable(primary: string, probe: (string, nat) -> Probe) {
    var networks := NetworksToTry(primary);
    forall k :: 0 <= k < |networks| ==> !ReachableWithin(probe, networks[k])
  }

  /** `networks[k]` is the first network of the order that can be reached. */
  ghost predicate FirstReachableAt(primary: string, probe: (string, nat) -> Probe, k: int) {
    var networks := NetworksToTry(primary);
    0 <= k < |networks| && ReachableWithin(probe, networks[k]) &&
    forall j :: 0 <= j < k ==> !ReachableWithin(probe, networks[j])
  }

  /**
   * Up to three attempts on one network, stopping at the first success; on
   * failure the last attempt's error is what is raised.
   */
  method ConnectWithRetry(network: string, probe: (string, nat) -> Probe) returns (r: Connection, attempts: nat)
    ensures 1 <= attempts <= RetryAttempts
    ensures r.Connected? <==> ReachableWithin(probe, network)
    ensures r.Connected? ==> r.network == network && probe(network, attempts).Reachable?
    ensures r.Connected? ==> forall i :: 1 <= i < attempts ==> probe(network, i).Unreachable?
    ensures r.ConnectionError? ==> attempts == RetryAttempts && r.lastError == probe(network, RetryAttempts).reason
  {
    attempts := 0;
    while true
      invariant 0 <= attempts < RetryAttempts
      invariant forall i :: 1 <= i <= attempts ==> probe(network, i).Unreachable?
      decreases RetryAttempts - attempts
    {
      attempts := attempts + 1;
      var outcome := probe(network, attempts);
      if outcome.Reachable? {
        return Connected(network), attempts;
      }
      if attempts == RetryAttempts {
        return ConnectionError(outcome.reason), attempts;
      }
    }
  }

  /**
   * Tries the networks in failover order and returns the first connection;
   * raises only once every network has used its whole retry budget.
   */
  method ConnectToBittensor(primary: string, probe: (string, nat) -> Probe) returns (r: Connection, attempts: nat)
    ensures r.Connected? ==> exists k :: (FirstReachableAt(primary, probe, k) &&
                                          NetworksToTry(primary)[k] == r.network &&
                                          RetryAttempts * k < attempts <= RetryAttempts * (k + 1))
    ensures r.Connected? ==> exists k, i :: (FirstReachableAt(primary, probe, k) &&
                                             NetworksToTry(primary)[k] == r.network &&
                                             1 <= i <= RetryAttempts && probe(r.network, i).Reachable? &&
                                             (forall j :: 1 <= j < i ==> probe(r.network, j).Unreachable?) &&
                                             attempts == RetryAttempts * k + i)
    ensures r.ConnectionError? <==> AllUnreachable(primary, probe)
    ensures r.ConnectionError? ==> attempts == RetryAttempts * |NetworksToTry(primary)|
    ensures r.ConnectionError? ==> attempts == if primary in FallbackNetworks then 9 else 12
    ensures r.ConnectionError? ==> r.lastError == probe(NetworksToTry(primary)[|NetworksToTry(primary)| - 1], RetryAttempts).reason
  {
    var networks := NetworksToTry(primary);
    NetworksToTryShape(primary);
    attempts := 0;
    var lastError := "";
    for k := 0 to |networks|
      invariant attempts == RetryAttempts * k
      invariant forall j :: 0 <= j < k ==> !ReachableWithin(probe, networks[j])
      invariant k > 0 ==> lastError == probe(networks[k - 1], RetryAttempts).reason
    {
      var c, n := ConnectWithRetry(networks[k], probe);
      attempts := attempts + n;
      if c.Connected? {
        assert FirstReachableAt(primary, probe, k);
        assert attempts == RetryAttempts * k + n && probe(c.network, n).Reachable?;
        return c, attempts;
      }
      lastError := c.lastError;
    }
    r := ConnectionError(lastError);
  }
}
