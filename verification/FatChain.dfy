/** Cluster chains: paths through the graph that the allocation table describes. */
module FatChain {
  import opened Bytes
  import opened BlockDevice
  import opened FatLayout

  const MAX_ITERATIONS := 10000

  /** `p` starts at `start` and every cluster but the last names the next one. */
  ghost predicate IsPath(b: BootSector, d: Disk, start: u32, p: seq<u32>) {
    |p| > 0 && p[0] == start && forall i :: 0 <= i < |p| - 1 ==> LinkedAt(b, d, p, i)
  }

  ghost predicate LinkedAt(b: BootSector, d: Disk, p: seq<u32>, i: nat)
    requires i < |p| - 1
  {
    b.Entry(d, p[i]) == p[i + 1] && b.Entry(d, p[i]) < END_OF_CHAIN
  }

  /** A path whose last cluster carries an end-of-chain mark. */
  ghost predicate IsChain(b: BootSector, d: Disk, start: u32, p: seq<u32>) {
    IsPath(b, d, start, p) && b.Entry(d, p[|p| - 1]) >= END_OF_CHAIN
  }

  /** What `follow_cluster_chain` returns: the chain, if it is short enough. */
  ghost function ChainOf(b: BootSector, d: Disk, start: u32): Result<seq<u32>> {
    if exists p :: IsChain(b, d, start, p) && |p| <= MAX_ITERATIONS
    then var p :| IsChain(b, d, start, p) && |p| <= MAX_ITERATIONS; Ok(p)
    else Err(ChainTooLong)
  }

  /** A chain made only of data clusters of the volume: the start of a sound file or directory. */
  ghost predicate SoundChain(b: BootSector, d: Disk, start: u32) {
    ChainOf(b, d, start).Ok? && forall c :: c in ChainOf(b, d, start).value ==> b.InRange(c)
  }

  /** A path never leaves the chain with the same start. */
  lemma {:induction false} PathWithinChain(b: BootSector, d: Disk, start: u32, p: seq<u32>, chain: seq<u32>)
    requires IsPath(b, d, start, p) && IsChain(b, d, start, chain)
    ensures |p| <= |chain| && p == chain[..|p|]
    decreases |p|
  {
    if |p| > 1 {
      var q := p[..|p| - 1];
      PathPrefix(b, d, start, p, |q|);
      PathWithinChain(b, d, start, q, chain);
      assert LinkedAt(b, d, p, |q| - 1);
      assert q[|q| - 1] == chain[|q| - 1];
      assert |q| < |chain| && LinkedAt(b, d, chain, |q| - 1);
    }
  }

  lemma PathPrefix(b: BootSector, d: Disk, start: u32, p: seq<u32>, n: nat)
    requires IsPath(b, d, start, p) && 0 < n <= |p|
    ensures IsPath(b, d, start, p[..n])
  {
    forall i | 0 <= i < n - 1 ensures LinkedAt(b, d, p[..n], i) {
      assert LinkedAt(b, d, p, i);
    }
  }

  lemma PathInit(b: BootSector, d: Disk, start: u32, p: seq<u32>)
    requires IsPath(b, d, start, p) && |p| > 1
    ensures var init, last := p[..|p| - 1], p[|p| - 1];
            IsPath(b, d, start, init) && b.Entry(d, init[|init| - 1]) == last && last < END_OF_CHAIN
  {
    PathPrefix(b, d, start, p, |p| - 1);
    assert LinkedAt(b, d, p, |p| - 2);
  }

  lemma ChainSuffix(b: BootSector, d: Disk, start: u32, p: seq<u32>, n: nat)
    requires IsChain(b, d, start, p) && n < |p|
    ensures IsChain(b, d, p[n], p[n..])
  {
    forall i | 0 <= i < |p| - n - 1 ensures LinkedAt(b, d, p[n..], i) {
      assert LinkedAt(b, d, p, n + i);
    }
  }

  lemma ChainUnique(b: BootSector, d: Disk, start: u32, p: seq<u32>, q: seq<u32>)
    requires IsChain(b, d, start, p) && IsChain(b, d, start, q)
    ensures p == q
  {
    PathWithinChain(b, d, start, p, q);
    PathWithinChain(b, d, start, q, p);
  }

  /** `follow_cluster_chain` succeeds exactly on chains of at most 10000 clusters, and returns them. */
  lemma ChainOfIff(b: BootSector, d: Disk, start: u32, p: seq<u32>)
    ensures ChainOf(b, d, start) == Ok(p) <==> IsChain(b, d, start, p) && |p| <= MAX_ITERATIONS
  {
    if IsChain(b, d, start, p) && |p| <= MAX_ITERATIONS {
      ChainUnique(b, d, start, p, ChainOf(b, d, start).value);
    }
  }

  /** Chains do not repeat a cluster. */
  lemma ChainNoDuplicates(b: BootSector, d: Disk, start: u32, p: seq<u32>, i: nat, j: nat)
    requires IsChain(b, d, start, p)
    requires i < j < |p|
    ensures p[i] != p[j]
  {
    if p[i] == p[j] {
      ChainSuffix(b, d, start, p, i);
      ChainSuffix(b, d, start, p, j);
      ChainUnique(b, d, p[i], p[i..], p[j..]);
      assert false;
    }
  }

  lemma ChainSplit(b: BootSector, d: Disk, start: u32, p: seq<u32>, i: nat)
    requires ChainOf(b, d, start) == Ok(p) && i < |p|
    ensures p[i] !in p[..i] && p[i] !in p[i + 1..]
  {
    ChainOfIff(b, d, start, p);
    forall k: nat | k < |p| && k != i ensures p[k] != p[i] {
      ChainNoDuplicates(b, d, start, p, if k < i then k else i, if k < i then i else k);
    }
  }

  lemma PathExtends(b: BootSector, d: Disk, start: u32, p: seq<u32>)
    requires IsPath(b, d, start, p)
    requires b.Entry(d, p[|p| - 1]) < END_OF_CHAIN
    ensures IsPath(b, d, start, p + [b.Entry(d, p[|p| - 1])])
  {
    var q := p + [b.Entry(d, p[|p| - 1])];
    forall i | 0 <= i < |q| - 1 ensures LinkedAt(b, d, q, i) {
      assert i < |p| - 1 ==> LinkedAt(b, d, p, i);
    }
  }

  /** A path that returns to one of its own clusters makes `follow_cluster_chain` fail. */
  lemma CycleIsRejected(b: BootSector, d: Disk, start: u32, p: seq<u32>)
    requires IsPath(b, d, start, p)
    requires b.Entry(d, p[|p| - 1]) in p && b.Entry(d, p[|p| - 1]) < END_OF_CHAIN
    ensures ChainOf(b, d, start) == Err(ChainTooLong)
  {
    if ChainOf(b, d, start).Ok? {
      var chain := ChainOf(b, d, start).value;
      var next := b.Entry(d, p[|p| - 1]);
      var lasso := p + [next];
      PathWithinChain(b, d, start, lasso, chain) by { PathExtends(b, d, start, p); }
      var i :| 0 <= i < |p| && p[i] == next;
      assert chain[i] == lasso[i] && chain[|p|] == lasso[|p|];
      ChainNoDuplicates(b, d, start, chain, i, |p|);
      assert false;
    }
  }

  lemma LongPath(b: BootSector, d: Disk, start: u32, p: seq<u32>)
    requires IsPath(b, d, start, p) && |p| > MAX_ITERATIONS
    ensures ChainOf(b, d, start) == Err(ChainTooLong)
  {
    if ChainOf(b, d, start).Ok? {
      PathWithinChain(b, d, start, p, ChainOf(b, d, start).value);
      assert false;
    }
  }

  /** A chain made only of data clusters of the volume, of any length. */
  ghost predicate ChainAt(b: BootSector, d: Disk, start: u32, p: seq<u32>) {
    IsChain(b, d, start, p) && forall c :: c in p ==> b.InRange(c)
  }

  /** A chain, and what following it returns, depends only on the table entries of its own clusters. */
  lemma ChainFrame(b: BootSector, d: Disk, d': Disk, start: u32, p: seq<u32>)
    requires IsChain(b, d, start, p)
    requires forall c :: c in p ==> b.Entry(d', c) == b.Entry(d, c)
    ensures IsChain(b, d', start, p) && ChainOf(b, d', start) == ChainOf(b, d, start)
  {
    forall i | 0 <= i < |p| - 1 ensures LinkedAt(b, d', p, i) {
      assert LinkedAt(b, d, p, i);
    }
    FollowKnown(b, d, start, p);
    FollowKnown(b, d', start, p);
  }

  /** What following a known chain returns. */
  lemma FollowKnown(b: BootSector, d: Disk, start: u32, p: seq<u32>)
    requires IsChain(b, d, start, p)
    ensures ChainOf(b, d, start) == if |p| <= MAX_ITERATIONS then Ok(p) else Err(ChainTooLong)
  {
    if |p| <= MAX_ITERATIONS {
      ChainOfIff(b, d, start, p);
    } else {
      LongPath(b, d, start, p);
    }
  }

  /** A sound chain is one of data clusters and not too long. */
  lemma SoundIff(b: BootSector, d: Disk, start: u32, p: seq<u32>)
    ensures SoundChain(b, d, start) && ChainOf(b, d, start).value == p
            <==> ChainAt(b, d, start, p) && |p| <= MAX_ITERATIONS
  {
    ChainOfIff(b, d, start, p);
  }

  /** No cluster of such a chain is free. */
  lemma ChainInUse(b: BootSector, d: Disk, start: u32, p: seq<u32>, c: u32)
    requires ChainAt(b, d, start, p) && c in p
    ensures b.Entry(d, c) != 0
  {
    var i :| 0 <= i < |p| && p[i] == c;
    if i < |p| - 1 {
      assert LinkedAt(b, d, p, i) && p[i + 1] in p;
    }
  }
}
