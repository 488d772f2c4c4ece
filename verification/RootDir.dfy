/** The size of the root directory is nowhere recorded: it is found by following its chain, which may be broken. */
module RootDir {
  import opened Clusters

  /** From `start` the chain runs through `n` clusters that can hold data and then ends. */
  ghost predicate EndsAfter(fat: seq<u32>, start: u32, n: nat) {
    && n > 0
    && (forall k :: 0 <= k < n ==> !Invalid(Nth(fat, false, start, k)))
    && Nth(fat, false, start, n) == END
  }

  /** While only valid clusters have been met, the chain has not ended. */
  lemma NotYet(fat: seq<u32>, start: u32, met: nat, n: nat)
    requires forall k :: 0 <= k < met ==> !Invalid(Nth(fat, false, start, k))
    requires met > 0 ==> Nth(fat, false, start, met) != END
    ensures EndsAfter(fat, start, n) ==> n > met && !Invalid(Nth(fat, false, start, met))
  {
  }

  lemma EndsOnce(fat: seq<u32>, start: u32, n: nat, m: nat)
    requires EndsAfter(fat, start, n) && EndsAfter(fat, start, m)
    ensures n == m
  {
    NotYet(fat, start, n - 1, m);
    NotYet(fat, start, m - 1, n);
  }

  /** A chain that comes back to a cluster it has been at stays among valid clusters, and never ends. */
  lemma {:induction false} CycleGoesOn(fat: seq<u32>, start: u32, i: nat, j: nat, k: nat)
    requires i < j && Nth(fat, false, start, i) == Nth(fat, false, start, j)
    requires forall l :: 0 <= l <= j ==> !Invalid(Nth(fat, false, start, l))
    ensures !Invalid(Nth(fat, false, start, k))
    ensures k > j ==> Nth(fat, false, start, k) == Nth(fat, false, start, k - (j - i))
    decreases k
  {
    if k > j {
      CycleGoesOn(fat, start, i, j, k - 1);
      CycleGoesOn(fat, start, i, j, k - (j - i));
    }
  }

  lemma CycleNeverEnds(fat: seq<u32>, start: u32, i: nat, j: nat, n: nat)
    requires i < j && Nth(fat, false, start, i) == Nth(fat, false, start, j)
    requires forall l :: 0 <= l <= j ==> !Invalid(Nth(fat, false, start, l))
    ensures !EndsAfter(fat, start, n)
  {
    CycleGoesOn(fat, start, i, j, n);
  }

  /** Follows the chain of the root directory, giving up after as many clusters as there are. */
  method RootdirSize(fat: seq<u32>, start: u32, clustersMax: u32, clusterSize: nat) returns (size: nat)
    requires clusterSize > 0
    ensures forall n: nat :: EndsAfter(fat, start, n) && n <= clustersMax ==> size == n * clusterSize
    ensures size > 0 ==> exists n: nat :: EndsAfter(fat, start, n) && n <= clustersMax && size == n * clusterSize
  {
    var clusters: nat := 0;
    var cluster := start;
    while true
      invariant clusters <= clustersMax
      invariant cluster == Nth(fat, false, start, clusters)
      invariant forall k :: 0 <= k < clusters ==> !Invalid(Nth(fat, false, start, k))
      invariant clusters > 0 ==> cluster != END
      decreases clustersMax - clusters
    {
      if clusters == clustersMax {
        forall n: nat
          ensures EndsAfter(fat, start, n) ==> n > clustersMax
        {
          NotYet(fat, start, clusters, n);
        }
        return 0;
      }
      if Invalid(cluster) {
        forall n: nat
          ensures !EndsAfter(fat, start, n)
        {
          NotYet(fat, start, clusters, n);
        }
        return 0;
      }
      cluster := Next(fat, false, cluster);
      clusters := clusters + 1;
      if cluster == END {
        break;
      }
    }
    assert EndsAfter(fat, start, clusters);
    forall n: nat | EndsAfter(fat, start, n)
      ensures n == clusters
    {
      EndsOnce(fat, start, n, clusters);
    }
    size := clusters * clusterSize;
  }
}
