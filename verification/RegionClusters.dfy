/** Greedy clustering of boxes into detection regions
    (docker/ai-detector/regions.py:88-172). A cluster is a sequence of box
    indices; the specification functions below describe the two nested scans,
    and RegionMethods holds the program's loops. */
module RegionClusters {
  import opened RegionGeometry

  type Cluster = seq<nat>

  /** The arguments every function of the clusterer shares. */
  datatype Scene = Scene(frame: Frame, minRegion: nat, boxes: seq<Box>)

  // -------------------------------------------------------- one cluster

  ghost predicate Indices(s: Scene, c: Cluster) {
    forall i | 0 <= i < |c| :: c[i] < |s.boxes|
  }

  function Extend(hull: Box, b: Box): Box {
    Box(Min(b.x0, hull.x0), Min(b.y0, hull.y0), Max(b.x1, hull.x1), Max(b.y1, hull.y1))
  }

  /** The scan of get_cluster_region starts from the far corner and the origin. */
  ghost function Hull(s: Scene, c: Cluster): Box
    requires Indices(s, c)
  {
    if c == [] then Box(s.frame.width, s.frame.height, 0, 0)
    else
      var n := |c| - 1;
      Extend(Hull(s, c[..n]), s.boxes[c[n]])
  }

  ghost function ClusterRegion(s: Scene, c: Cluster): Box
    requires Indices(s, c)
  {
    CalculateRegion(s.frame, Hull(s, c), s.minRegion)
  }

  lemma {:induction false} HullContains(s: Scene, c: Cluster, i: nat)
    requires Indices(s, c)
    requires i < |c|
    ensures BoxInside(Hull(s, c), s.boxes[c[i]])
  {
    var n := |c| - 1;
    if i < n {
      HullContains(s, c[..n], i);
    }
  }

  lemma {:induction false} HullInFrame(s: Scene, c: Cluster)
    requires Indices(s, c)
    requires c != []
    requires forall i | 0 <= i < |c| :: InFrame(s.frame, s.boxes[c[i]])
    ensures InFrame(s.frame, Hull(s, c))
  {
    var n := |c| - 1;
    assert InFrame(s.frame, s.boxes[c[n]]);
    if n == 0 {
      assert c[..n] == [];
    } else {
      HullInFrame(s, c[..n]);
    }
  }

  /** The hull also holds the values its scan starts from. */
  lemma {:induction false} HullContainsStart(s: Scene, c: Cluster)
    requires Indices(s, c)
    ensures BoxInside(Hull(s, c), Hull(s, []))
  {
    if c != [] {
      HullContainsStart(s, c[..|c| - 1]);
    }
  }

  /** And it is the least box that does. */
  lemma {:induction false} HullLeast(s: Scene, c: Cluster, outer: Box)
    requires Indices(s, c) && BoxInside(outer, Hull(s, []))
    requires forall i | 0 <= i < |c| :: BoxInside(outer, s.boxes[c[i]])
    ensures BoxInside(outer, Hull(s, c))
  {
    if c != [] {
      HullLeast(s, c[..|c| - 1], outer);
    }
  }

  /** So a cluster's region does not depend on the order of its members: sorting
      them afterwards does not change it. */
  lemma RegionOrderFree(s: Scene, c: Cluster, d: Cluster)
    requires Indices(s, c) && Indices(s, d)
    requires forall k :: k in c <==> k in d
    ensures ClusterRegion(s, c) == ClusterRegion(s, d)
  {
    HullWithin(s, c, d);
    HullWithin(s, d, c);
  }

  lemma HullWithin(s: Scene, c: Cluster, d: Cluster)
    requires Indices(s, c) && Indices(s, d)
    requires forall k | k in c :: k in d
    ensures BoxInside(Hull(s, d), Hull(s, c))
  {
    forall i | 0 <= i < |c| ensures BoxInside(Hull(s, d), s.boxes[c[i]]) {
      assert c[i] in d;
      var j :| 0 <= j < |d| && d[j] == c[i];
      HullContains(s, d, j);
    }
    HullContainsStart(s, d);
    HullLeast(s, c, Hull(s, d));
  }

  /** A box is too small for a region when it covers less than 5% of it. */
  predicate TooSmall(b: Box, region: Box) { 20 * Area(b) < Area(region) }

  /** should_cluster of get_cluster_candidates. */
  ghost predicate Fits(s: Scene, c: Cluster)
    requires Indices(s, c)
  {
    var region := ClusterRegion(s, c);
    region.x1 - region.x0 > s.minRegion ==>
      forall i | 0 <= i < |c| :: !TooSmall(s.boxes[c[i]], region)
  }

  /** Box k may join the cluster grown so far from its first member. */
  ghost predicate Joins(s: Scene, c: Cluster, k: nat)
    requires Indices(s, c)
    requires c != [] && k < |s.boxes|
  {
    BoxInside(ClusterBoundary(s.boxes[c[0]], s.minRegion), s.boxes[k]) && Fits(s, c + [k])
  }

  // ------------------------------------------------------- specification

  /** The inner scan's state: the cluster being grown and the indices taken. */
  datatype Growth = Growth(cluster: Cluster, used: set<nat>)

  ghost predicate Seeded(s: Scene, g: Growth) { Indices(s, g.cluster) && g.cluster != [] }

  /** One iteration of the inner scan. */
  ghost function Offer(s: Scene, k: nat, g: Growth): Growth
    requires Seeded(s, g) && k < |s.boxes|
  {
    if k !in g.used && Joins(s, g.cluster, k) then Growth(g.cluster + [k], g.used + {k}) else g
  }

  /** The inner scan, from index k on. */
  ghost function Grow(s: Scene, k: nat, g: Growth): (g': Growth)
    requires k <= |s.boxes| && Seeded(s, g)
    ensures Seeded(s, g') && g.cluster <= g'.cluster
    decreases |s.boxes| - k
  {
    if k == |s.boxes| then g else Grow(s, k + 1, Offer(s, k, g))
  }

  ghost predicate Members(s: Scene, cs: seq<Cluster>) {
    forall j | 0 <= j < |cs| :: Indices(s, cs[j]) && cs[j] != []
  }

  /** The outer scan, from index i on. */
  ghost function Candidates(s: Scene, i: nat, used: set<nat>): (cs: seq<Cluster>)
    requires i <= |s.boxes|
    ensures Members(s, cs)
    decreases |s.boxes| - i
  {
    if i == |s.boxes| then []
    else if i in used then Candidates(s, i + 1, used)
    else
      var g := Grow(s, 0, Growth([i], used + {i}));
      [g.cluster] + Candidates(s, i + 1, g.used)
  }

  ghost function AllCandidates(s: Scene): (cs: seq<Cluster>)
    ensures Members(s, cs)
  {
    Candidates(s, 0, {})
  }

  // ------------------------------------------- what a grown cluster is

  ghost predicate Increasing(c: seq<nat>) {
    forall a, b | 0 <= a < b < |c| :: c[a] < c[b]
  }

  /** Box k reaches out of the boundary around the seed on some side. */
  ghost predicate Outside(s: Scene, seed: nat, k: nat)
    requires seed < |s.boxes| && k < |s.boxes|
  {
    var boundary, b := ClusterBoundary(s.boxes[seed], s.minRegion), s.boxes[k];
    b.x0 < boundary.x0 || b.y0 < boundary.y0 || b.x1 > boundary.x1 || b.y1 > boundary.y1
  }

  /** The region of these boxes is wider than the minimum, and one of them covers
      less than a twentieth of it. */
  ghost predicate Oversized(s: Scene, c: Cluster)
    requires Indices(s, c)
  {
    var r := CalculateRegion(s.frame, Hull(s, c), s.minRegion);
    r.x1 - r.x0 > s.minRegion && exists i | 0 <= i < |c| :: Sliver(s.boxes[c[i]], r)
  }

  predicate Sliver(b: Box, r: Box) { 20 * ((b.x1 - b.x0) * (b.y1 - b.y0)) < (r.x1 - r.x0) * (r.y1 - r.y0) }

  /** Why box k is not added to these members. */
  ghost predicate TurnedDown(s: Scene, c: Cluster, k: nat)
    requires Indices(s, c) && c != [] && k < |s.boxes|
  {
    Outside(s, c[0], k) || Oversized(s, c + [k])
  }

  lemma JoinsUnlessTurnedDown(s: Scene, c: Cluster, k: nat)
    requires Indices(s, c) && c != [] && k < |s.boxes|
    ensures Joins(s, c, k) <==> !TurnedDown(s, c, k)
  {
    var r, d := ClusterRegion(s, c + [k]), c + [k];
    forall i | 0 <= i < |d| ensures TooSmall(s.boxes[d[i]], r) <==> Sliver(s.boxes[d[i]], r) {}
  }

  /** Every member but the seed was added to the ones before it: it lies in the
      seed's boundary, and with it the region was minimal or no member too small. */
  ghost predicate Sound(s: Scene, c: Cluster)
    requires Indices(s, c) && c != []
  {
    forall n | 1 <= n < |c| :: AddedTo(s, c, n)
  }

  ghost predicate AddedTo(s: Scene, c: Cluster, n: nat)
    requires Indices(s, c) && 1 <= n < |c|
  {
    !Outside(s, c[0], c[n]) && !Oversized(s, c[..n + 1])
  }

  /** Box k was offered to cluster c when just its members below k were in it,
      and reaches out of the boundary or would have made it oversized. */
  ghost predicate Rejected(s: Scene, c: Cluster, k: nat)
    requires Indices(s, c)
  {
    k < |s.boxes| && exists p | 1 <= p <= |c| :: RejectedAt(s, c, k, p)
  }

  ghost predicate RejectedAt(s: Scene, c: Cluster, k: nat, p: nat)
    requires Indices(s, c) && 1 <= p <= |c| && k < |s.boxes|
  {
    (forall q | 0 <= q < |c| :: q < p <==> c[q] < k) && TurnedDown(s, c[..p], k)
  }

  /** Invariant of the inner scan: ascending, sound, and complete below k. */
  ghost predicate Scanned(s: Scene, k: nat, g: Growth) {
    && Seeded(s, g)
    && Sound(s, g.cluster)
    && Increasing(g.cluster)
    && (forall j | 0 <= j <= g.cluster[0] :: j in g.used)
    && (forall j | 1 <= j < |g.cluster| :: g.cluster[j] < k)
    && (forall j | 0 <= j < k && j !in g.used :: Rejected(s, g.cluster, j))
  }

  lemma RejectedAfterJoin(s: Scene, c: Cluster, k: nat, j: nat)
    requires Indices(s, c) && j < k < |s.boxes|
    requires Rejected(s, c, j)
    ensures Rejected(s, c + [k], j)
  {
    var p :| 1 <= p <= |c| && RejectedAt(s, c, j, p);
    assert (c + [k])[..p] == c[..p];
    assert RejectedAt(s, c + [k], j, p);
  }

  lemma JoinIsScanned(s: Scene, k: nat, g: Growth)
    requires k < |s.boxes|
    requires Scanned(s, k, g)
    requires k !in g.used && Joins(s, g.cluster, k)
    ensures Scanned(s, k + 1, Growth(g.cluster + [k], g.used + {k}))
  {
    var c := g.cluster + [k];
    assert Sound(s, c) by { SoundExtended(s, g.cluster, k); }
    forall j | 0 <= j < k && j !in g.used ensures Rejected(s, c, j) {
      RejectedAfterJoin(s, g.cluster, k, j);
    }
  }

  lemma SoundExtended(s: Scene, c: Cluster, k: nat)
    requires Indices(s, c) && c != [] && k < |s.boxes|
    requires Sound(s, c) && Joins(s, c, k)
    ensures Sound(s, c + [k])
  {
    var d := c + [k];
    JoinsUnlessTurnedDown(s, c, k);
    forall n | 1 <= n < |d| ensures AddedTo(s, d, n) {
      if n < |c| {
        assert AddedTo(s, c, n);
        assert d[..n + 1] == c[..n + 1];
      } else {
        assert d[..n + 1] == d;
      }
    }
  }

  lemma OfferIsScanned(s: Scene, k: nat, g: Growth)
    requires k < |s.boxes|
    requires Scanned(s, k, g)
    ensures Scanned(s, k + 1, Offer(s, k, g))
  {
    var c := g.cluster;
    if k in g.used {
    } else if Joins(s, c, k) {
      JoinIsScanned(s, k, g);
    } else {
      assert Rejected(s, c, k) by {
        assert c[..|c|] == c;
        JoinsUnlessTurnedDown(s, c, k);
        assert RejectedAt(s, c, k, |c|);
      }
    }
  }

  lemma {:induction false} GrowIsScanned(s: Scene, k: nat, g: Growth)
    requires k <= |s.boxes|
    requires Scanned(s, k, g)
    ensures Scanned(s, |s.boxes|, Grow(s, k, g))
    decreases |s.boxes| - k
  {
    if k < |s.boxes| {
      OfferIsScanned(s, k, g);
      GrowIsScanned(s, k + 1, Offer(s, k, g));
    }
  }

  /** The members added are exactly the indices newly used. */
  ghost predicate Added(g: Growth, g': Growth)
    requires g.cluster <= g'.cluster
  {
    var new' := g'.cluster[|g.cluster|..];
    forall j: nat :: (j in g'.used <==> j in g.used || j in new') && !(j in g.used && j in new')
  }

  lemma AddedStep(g: Growth, k: nat, g': Growth)
    requires k !in g.used && g.cluster + [k] <= g'.cluster
    requires Added(Growth(g.cluster + [k], g.used + {k}), g')
    ensures Added(g, g')
  {
    var n := |g.cluster|;
    assert g'.cluster[n] == (g.cluster + [k])[n];
    assert g'.cluster[n..] == [k] + g'.cluster[n + 1..];
  }

  lemma {:induction false} GrowAdds(s: Scene, k: nat, g: Growth)
    requires k <= |s.boxes| && Seeded(s, g)
    ensures Added(g, Grow(s, k, g))
    decreases |s.boxes| - k
  {
    if k < |s.boxes| {
      GrowAdds(s, k + 1, Offer(s, k, g));
      if Offer(s, k, g) != g {
        AddedStep(g, k, Grow(s, k, g));
      }
    }
  }

  // ----------------------------------------------- what the list of clusters is

  ghost predicate Covers(cs: seq<Cluster>, k: nat) {
    exists j | 0 <= j < |cs| :: k in cs[j]
  }

  /** The clusters are a partition of the indices outside used. */
  ghost predicate Partition(s: Scene, used: set<nat>, cs: seq<Cluster>) {
    && (forall k | 0 <= k < |s.boxes| && k !in used :: Covers(cs, k))
    && (forall j, k | 0 <= j < |cs| && k in cs[j] :: k !in used)
    && (forall a, b, k | 0 <= a < b < |cs| && k in cs[a] :: k !in cs[b])
  }

  ghost predicate Good(s: Scene, c: Cluster) {
    Indices(s, c) && c != [] && Sound(s, c) && Increasing(c)
  }

  /** Seeds ascend, and every member of a later cluster was turned down by each
      earlier one. */
  ghost predicate Greedy(s: Scene, cs: seq<Cluster>)
    requires Members(s, cs)
  {
    forall a, b | 0 <= a < b < |cs| :: cs[a][0] < cs[b][0] && AllRejected(s, cs[a], cs[b])
  }

  ghost predicate AllRejected(s: Scene, c: Cluster, later: Cluster)
    requires Indices(s, c)
  {
    forall i | 0 <= i < |later| :: Rejected(s, c, later[i])
  }

  /** What the outer scan lists from index i on. */
  ghost predicate Listed(s: Scene, i: nat, used: set<nat>, cs: seq<Cluster>)
    requires Members(s, cs)
  {
    (forall j | 0 <= j < |cs| :: Good(s, cs[j]) && cs[j][0] >= i) && Partition(s, used, cs) && Greedy(s, cs)
  }

  lemma {:induction false} CandidatesCorrect(s: Scene, i: nat, used: set<nat>)
    requires i <= |s.boxes|
    requires forall j | 0 <= j < i :: j in used
    ensures Listed(s, i, used, Candidates(s, i, used))
    decreases |s.boxes| - i
  {
    if i == |s.boxes| {
    } else if i in used {
      CandidatesCorrect(s, i + 1, used);
    } else {
      var g := Grow(s, 0, Growth([i], used + {i}));
      GrowIsScanned(s, 0, Growth([i], used + {i}));
      GrowAdds(s, 0, Growth([i], used + {i}));
      CandidatesCorrect(s, i + 1, g.used);
      ListedCons(s, i, used, g, Candidates(s, i + 1, g.used));
    }
  }

  lemma ListedCons(s: Scene, i: nat, used: set<nat>, g: Growth, rest: seq<Cluster>)
    requires i !in used && [i] <= g.cluster && Added(Growth([i], used + {i}), g)
    requires Scanned(s, |s.boxes|, g)
    requires Members(s, rest) && Listed(s, i + 1, g.used, rest)
    ensures Listed(s, i, used, [g.cluster] + rest)
  {
    var cs := [g.cluster] + rest;
    assert Partition(s, used, cs) by { PartitionCons(s, i, used, g, rest); }
    assert Greedy(s, cs) by { GreedyCons(s, g, rest); }
    forall j | 0 <= j < |cs| ensures Good(s, cs[j]) && cs[j][0] >= i {
      assert j > 0 ==> cs[j] == rest[j - 1];
    }
  }

  lemma PartitionCons(s: Scene, i: nat, used: set<nat>, g: Growth, rest: seq<Cluster>)
    requires i !in used
    requires [i] <= g.cluster && Added(Growth([i], used + {i}), g)
    requires Partition(s, g.used, rest)
    ensures Partition(s, used, [g.cluster] + rest)
  {
    var cs := [g.cluster] + rest;
    assert g.cluster == [i] + g.cluster[1..];
    forall k | 0 <= k < |s.boxes| && k !in used ensures Covers(cs, k) {
      if k in g.used {
        assert k in cs[0];
      } else {
        var j :| 0 <= j < |rest| && k in rest[j];
        assert cs[j + 1] == rest[j];
      }
    }
  }

  lemma FirstRejects(s: Scene, g: Growth, later: Cluster)
    requires Indices(s, later)
    requires Scanned(s, |s.boxes|, g)
    requires forall k | k in later :: k !in g.used
    ensures AllRejected(s, g.cluster, later)
  {
    forall n | 0 <= n < |later| ensures Rejected(s, g.cluster, later[n]) {
      assert later[n] in later;
    }
  }

  lemma GreedyCons(s: Scene, g: Growth, rest: seq<Cluster>)
    requires Members(s, rest)
    requires Scanned(s, |s.boxes|, g)
    requires forall j | 0 <= j < |rest| :: rest[j][0] > g.cluster[0]
    requires forall j, k | 0 <= j < |rest| && k in rest[j] :: k !in g.used
    requires Greedy(s, rest)
    ensures Greedy(s, [g.cluster] + rest)
  {
    forall j | 0 <= j < |rest| ensures AllRejected(s, g.cluster, rest[j]) {
      FirstRejects(s, g, rest[j]);
    }
  }

  /** The rules of the clusterer: the clusters are a partition of all box
      indices, ascending and sound, with ascending seeds, and each box is in the
      first cluster that did not turn it down. */
  ghost predicate Clustering(s: Scene, cs: seq<Cluster>) {
    && Members(s, cs)
    && (forall j | 0 <= j < |cs| :: Good(s, cs[j]))
    && Partition(s, {}, cs)
    && Greedy(s, cs)
  }

  /** The clusterer's list obeys them. */
  lemma ClustersCorrect(s: Scene)
    ensures Clustering(s, AllCandidates(s))
  {
    CandidatesCorrect(s, 0, {});
  }

  // ------------------------------------------------- the only such list

  /** What one clustering has in its n-th cluster, the other has there or later. */
  lemma FoundLater(s: Scene, cs: seq<Cluster>, ds: seq<Cluster>, n: nat, k: nat) returns (j: nat)
    requires Clustering(s, cs) && Clustering(s, ds)
    requires n < |cs| && n <= |ds| && cs[..n] == ds[..n] && k in cs[n]
    ensures n <= j < |ds| && k in ds[j]
  {
    assert forall i | 0 <= i < n :: cs[i] == cs[..n][i] == ds[..n][i] == ds[i];
    assert Covers(ds, k);
    j :| 0 <= j < |ds| && k in ds[j];
  }

  lemma NotTurnedDown(s: Scene, c: Cluster, m: nat)
    requires Indices(s, c) && c != [] && Sound(s, c) && 1 <= m < |c|
    ensures !TurnedDown(s, c[..m], c[m])
  {
    assert AddedTo(s, c, m);
    assert c[..m + 1] == c[..m] + [c[m]];
  }

  lemma RejectedByPrefix(s: Scene, c: Cluster, k: nat, m: nat)
    requires Indices(s, c) && Rejected(s, c, k) && 1 <= m <= |c|
    requires forall q | 0 <= q < |c| :: q < m <==> c[q] < k
    ensures TurnedDown(s, c[..m], k)
  {
    var p :| 1 <= p <= |c| && RejectedAt(s, c, k, p);
    SamePrefix(c, k, p, m);
  }

  lemma SamePrefix(c: seq<nat>, k: nat, p: nat, m: nat)
    requires p <= |c| && forall q | 0 <= q < |c| :: q < p <==> c[q] < k
    requires m <= |c| && forall q | 0 <= q < |c| :: q < m <==> c[q] < k
    ensures p == m
  {
    assert p < |c| ==> !(c[p] < k);
    assert m < |c| ==> !(c[m] < k);
  }

  /** A member of the n-th cluster of one, not of the other's n-th, was turned
      down there. */
  lemma InLaterCluster(s: Scene, cs: seq<Cluster>, ds: seq<Cluster>, n: nat, k: nat)
    requires Clustering(s, cs) && Clustering(s, ds)
    requires n < |cs| && n < |ds| && cs[..n] == ds[..n]
    requires k in cs[n] && k !in ds[n]
    ensures Rejected(s, ds[n], k)
  {
    var j := FoundLater(s, cs, ds, n, k);
    var i :| 0 <= i < |ds[j]| && ds[j][i] == k;
    assert AllRejected(s, ds[n], ds[j]);
  }

  /** Two clusterings that agree on the first n clusters, and on m members of the
      next, cannot part with a lesser index in one of them. */
  lemma NoLesserMember(s: Scene, cs: seq<Cluster>, ds: seq<Cluster>, n: nat, m: nat)
    requires Clustering(s, cs) && Clustering(s, ds)
    requires n < |cs| && n < |ds| && cs[..n] == ds[..n]
    requires 1 <= m < |cs[n]| && m <= |ds[n]| && cs[n][..m] == ds[n][..m]
    ensures m < |ds[n]| && ds[n][m] <= cs[n][m]
  {
    var c, d, k := cs[n], ds[n], cs[n][m];
    NotTurnedDown(s, c, m);
    if m == |d| || d[m] > k {
      assert forall q | 0 <= q < m :: d[q] == d[..m][q] == c[..m][q] < k;
      assert forall q | m <= q < |d| :: d[q] > k;
      assert k in c && k !in d;
      InLaterCluster(s, cs, ds, n, k);
      RejectedByPrefix(s, d, k, m);
    }
  }

  lemma {:induction false} SameMembers(s: Scene, cs: seq<Cluster>, ds: seq<Cluster>, n: nat, m: nat)
    requires Clustering(s, cs) && Clustering(s, ds)
    requires n < |cs| && n < |ds| && cs[..n] == ds[..n]
    requires 1 <= m <= |cs[n]| && m <= |ds[n]| && cs[n][..m] == ds[n][..m]
    ensures cs[n] == ds[n]
    decreases |cs[n]| - m
  {
    if m < |cs[n]| {
      NoLesserMember(s, cs, ds, n, m);
      NoLesserMember(s, ds, cs, n, m);
      assert cs[n][..m + 1] == cs[n][..m] + [cs[n][m]];
      assert ds[n][..m + 1] == ds[n][..m] + [ds[n][m]];
      SameMembers(s, cs, ds, n, m + 1);
    } else {
      if m < |ds[n]| {
        NoLesserMember(s, ds, cs, n, m);
      }
      assert cs[n][..m] == cs[n] && ds[n][..m] == ds[n];
    }
  }

  /** The next seed is the least index left. */
  lemma NoLesserSeed(s: Scene, cs: seq<Cluster>, ds: seq<Cluster>, n: nat)
    requires Clustering(s, cs) && Clustering(s, ds)
    requires n < |cs| && n <= |ds| && cs[..n] == ds[..n]
    ensures n < |ds| && ds[n][0] <= cs[n][0]
  {
    var j := FoundLater(s, cs, ds, n, cs[n][0]);
    var i :| 0 <= i < |ds[j]| && ds[j][i] == cs[n][0];
    assert i > 0 ==> ds[j][0] < ds[j][i];
    assert n < j ==> ds[n][0] < ds[j][0];
  }

  /** The rules leave no choice: whatever list of clusters obeys them is the one
      the two scans find. */
  lemma {:induction false} SameClusters(s: Scene, cs: seq<Cluster>, ds: seq<Cluster>, n: nat)
    requires Clustering(s, cs) && Clustering(s, ds)
    requires n <= |cs| && n <= |ds| && cs[..n] == ds[..n]
    ensures cs == ds
    decreases |cs| - n
  {
    if n < |cs| {
      NoLesserSeed(s, cs, ds, n);
      NoLesserSeed(s, ds, cs, n);
      assert cs[n][..1] == [cs[n][0]] && ds[n][..1] == [ds[n][0]];
      SameMembers(s, cs, ds, n, 1);
      assert cs[..n + 1] == cs[..n] + [cs[n]] && ds[..n + 1] == ds[..n] + [ds[n]];
      SameClusters(s, cs, ds, n + 1);
    } else {
      if n < |ds| {
        NoLesserSeed(s, ds, cs, n);
      }
      assert cs[..n] == cs && ds[..n] == ds;
    }
  }

  lemma ClusteringIff(s: Scene, cs: seq<Cluster>)
    ensures Clustering(s, cs) <==> cs == AllCandidates(s)
  {
    ClustersCorrect(s);
    if Clustering(s, cs) {
      SameClusters(s, cs, AllCandidates(s), 0);
    }
  }
}
