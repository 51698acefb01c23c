/** The clusterer's loops (docker/ai-detector/regions.py:88-172), each proved
    against RegionClusters, and what compute_regions promises. */
module RegionMethods {
  import opened RegionGeometry
  import opened RegionClusters

  method GetClusterRegion(s: Scene, cluster: Cluster) returns (region: Box)
    requires Indices(s, cluster)
    ensures region == ClusterRegion(s, cluster)
  {
    var minX, minY, maxX, maxY := s.frame.width, s.frame.height, 0, 0;
    for i := 0 to |cluster|
      invariant Box(minX, minY, maxX, maxY) == Hull(s, cluster[..i])
    {
      var b := s.boxes[cluster[i]];
      minX, minY := Min(b.x0, minX), Min(b.y0, minY);
      maxX, maxY := Max(b.x1, maxX), Max(b.y1, maxY);
      assert cluster[..i + 1][..i] == cluster[..i];
    }
    assert cluster[..|cluster|] == cluster;
    region := CalculateRegion(s.frame, Box(minX, minY, maxX, maxY), s.minRegion);
  }

  /** The should_cluster test of the inner loop. */
  method ShouldCluster(s: Scene, potential: Cluster) returns (ok: bool)
    requires Indices(s, potential)
    ensures ok <==> Fits(s, potential)
  {
    var region := GetClusterRegion(s, potential);
    ok := true;
    if region.x1 - region.x0 > s.minRegion {
      for i := 0 to |potential|
        invariant ok && forall j | 0 <= j < i :: !TooSmall(s.boxes[potential[j]], region)
      {
        if TooSmall(s.boxes[potential[i]], region) {
          return false;
        }
      }
    }
  }

  function Insert(x: nat, c: seq<nat>): seq<nat> {
    if c == [] || x <= c[0] then [x] + c else [c[0]] + Insert(x, c[1..])
  }

  function Sorted(c: seq<nat>): seq<nat> {
    if c == [] then [] else Insert(c[0], Sorted(c[1..]))
  }

  /** Sorting a cluster changes nothing: the scan already lists it ascending. */
  lemma {:induction false} SortedIncreasing(c: seq<nat>)
    requires Increasing(c)
    ensures Sorted(c) == c
  {
    if c != [] {
      SortedIncreasing(c[1..]);
    }
  }

  /** Distinct clusters of a partition are disjoint and non-empty, so no two are equal. */
  lemma CandidatesDistinct(s: Scene)
    ensures var cs := AllCandidates(s);
      && (forall a, b | 0 <= a < b < |cs| :: cs[a] != cs[b])
      && (forall j | 0 <= j < |cs| :: Increasing(cs[j]))
  {
    var cs := AllCandidates(s);
    assert Partition(s, {}, cs) && forall j | 0 <= j < |cs| :: Good(s, cs[j]) by {
      ClustersCorrect(s);
    }
    forall a, b | 0 <= a < b < |cs| ensures cs[a] != cs[b] {
      assert cs[a][0] in cs[a];
    }
  }

  /** The result lists the clusters in an order of the hash table's choosing. */
  method GetClusterCandidates(s: Scene) returns (clusters: seq<Cluster>)
    ensures multiset(clusters) == multiset(AllCandidates(s))
  {
    var candidates: seq<Cluster> := [];
    var usedBoxes: set<nat> := {};
    for current := 0 to |s.boxes|
      invariant candidates + Candidates(s, current, usedBoxes) == AllCandidates(s)
    {
      if current in usedBoxes {
        continue;
      }
      var cluster;
      cluster, usedBoxes := GrowCluster(s, current, usedBoxes);
      candidates := candidates + [cluster];
    }
    assert candidates == AllCandidates(s);
    CandidatesDistinct(s);
    clusters := UniqueSorted(candidates);
  }

  method GrowCluster(s: Scene, current: nat, used: set<nat>) returns (cluster: Cluster, usedBoxes: set<nat>)
    requires current < |s.boxes|
    ensures Growth(cluster, usedBoxes) == Grow(s, 0, Growth([current], used + {current}))
  {
    cluster, usedBoxes := [current], used + {current};
    var boundary := ClusterBoundary(s.boxes[current], s.minRegion);
    for compare := 0 to |s.boxes|
      invariant Indices(s, cluster) && cluster != [] && cluster[0] == current
      invariant Grow(s, compare, Growth(cluster, usedBoxes)) == Grow(s, 0, Growth([current], used + {current}))
    {
      if compare in usedBoxes || !BoxInside(boundary, s.boxes[compare]) {
        continue;
      }
      var should := ShouldCluster(s, cluster + [compare]);
      if should {
        cluster, usedBoxes := cluster + [compare], usedBoxes + {compare};
      }
    }
  }

  /** The set of sorted tuples, listed in an arbitrary order: nothing is merged or dropped. */
  method UniqueSorted(candidates: seq<Cluster>) returns (clusters: seq<Cluster>)
    requires forall a, b | 0 <= a < b < |candidates| :: candidates[a] != candidates[b]
    requires forall j | 0 <= j < |candidates| :: Increasing(candidates[j])
    ensures multiset(clusters) == multiset(candidates)
  {
    var unique: set<Cluster> := {};
    for i := 0 to |candidates|
      invariant multiset(unique) == multiset(candidates[..i])
    {
      SortedIncreasing(candidates[i]);
      assert candidates[..i + 1] == candidates[..i] + [candidates[i]];
      assert candidates[i] !in multiset(candidates[..i]);
      unique := unique + {Sorted(candidates[i])};
    }
    assert candidates[..|candidates|] == candidates;
    clusters := ListOf(unique);
  }

  method ListOf(unique: set<Cluster>) returns (clusters: seq<Cluster>)
    ensures multiset(clusters) == multiset(unique)
  {
    clusters := [];
    var rest := unique;
    while rest != {}
      invariant multiset(clusters) + multiset(rest) == multiset(unique)
      decreases rest
    {
      var c :| c in rest;
      clusters, rest := clusters + [c], rest - {c};
    }
  }

  // ------------------------------------------------------ compute_regions

  ghost function Crop(s: Scene, c: Cluster): Box
    requires Indices(s, c)
  {
    Clamp(s.frame, ClusterRegion(s, c))
  }

  ghost predicate IsCrop(s: Scene, r: Box) {
    exists j | 0 <= j < |AllCandidates(s)| :: r == Crop(s, AllCandidates(s)[j])
  }

  /** The regions are the distinct clamped crops of the clusters. */
  ghost predicate RegionList(s: Scene, regions: seq<Box>) {
    && (forall a, b | 0 <= a < b < |regions| :: regions[a] != regions[b])
    && (forall r :: r in regions <==> IsCrop(s, r))
    && |regions| <= |AllCandidates(s)|
  }

  method ComputeRegions(s: Scene) returns (regions: seq<Box>)
    ensures RegionList(s, regions)
  {
    regions := [];
    if s.boxes == [] {
      return;
    }
    var clusters := GetClusterCandidates(s);
    ghost var all := AllCandidates(s);
    assert |clusters| == |multiset(clusters)| == |all|;
    for i := 0 to |clusters|
      invariant |regions| <= i
      invariant forall a, b | 0 <= a < b < |regions| :: regions[a] != regions[b]
      invariant forall r | r in regions :: IsCrop(s, r)
      invariant forall j | 0 <= j < i :: Indices(s, clusters[j]) && Crop(s, clusters[j]) in regions
    {
      assert clusters[i] in multiset(clusters);
      assert clusters[i] in all;
      var region := GetClusterRegion(s, clusters[i]);
      var clamped := Clamp(s.frame, region);
      if clamped !in regions {
        regions := regions + [clamped];
      }
    }
    forall r | IsCrop(s, r) ensures r in regions {
      var j :| 0 <= j < |all| && r == Crop(s, all[j]);
      assert all[j] in multiset(all);
      assert all[j] in clusters;
    }
  }

  /** This region is the square around the hull of this cluster, cut at the four
      sides of the frame. */
  ghost predicate CutSquare(s: Scene, c: Cluster, r: Box)
    requires Indices(s, c)
  {
    var square := CalculateRegion(s.frame, Hull(s, c), s.minRegion);
    && r.x0 == (if square.x0 < 0 then 0 else square.x0)
    && r.y0 == (if square.y0 < 0 then 0 else square.y0)
    && r.x1 == (if square.x1 > s.frame.width then s.frame.width else square.x1)
    && r.y1 == (if square.y1 > s.frame.height then s.frame.height else square.y1)
  }

  /** For the one clustering that obeys the rules, the regions are the cut squares
      of its clusters, each listed once. */
  lemma RegionsOfClustering(s: Scene, cs: seq<Cluster>, regions: seq<Box>)
    requires RegionList(s, regions) && Clustering(s, cs)
    ensures forall r :: r in regions <==> exists j | 0 <= j < |cs| :: CutSquare(s, cs[j], r)
    ensures forall a, b | 0 <= a < b < |regions| :: regions[a] != regions[b]
  {
    ClusteringIff(s, cs);
    forall j, r | 0 <= j < |cs| ensures CutSquare(s, cs[j], r) <==> r == Crop(s, cs[j]) {}
  }

  ghost predicate AllInFrame(s: Scene) {
    forall k | 0 <= k < |s.boxes| :: InFrame(s.frame, s.boxes[k])
  }

  ghost predicate BoxCovered(regions: seq<Box>, b: Box) {
    exists r :: r in regions && BoxInside(r, b)
  }

  lemma MemberCovered(s: Scene, c: Cluster, i: nat)
    requires Indices(s, c) && i < |c|
    requires AllInFrame(s)
    requires s.minRegion >= 5
    ensures BoxInside(Crop(s, c), s.boxes[c[i]])
  {
    HullContains(s, c, i);
    HullInFrame(s, c);
    CalculateRegionCovers(s.frame, Hull(s, c), s.minRegion);
  }

  /** No box is lost: whatever the clustering did, every box lies wholly inside
      one of the regions sent to the detector. */
  lemma EveryBoxCovered(s: Scene, regions: seq<Box>)
    requires RegionList(s, regions)
    requires AllInFrame(s)
    requires s.minRegion >= 5
    ensures forall k | 0 <= k < |s.boxes| :: BoxCovered(regions, s.boxes[k])
  {
    var cs := AllCandidates(s);
    forall k | 0 <= k < |s.boxes| ensures BoxCovered(regions, s.boxes[k]) {
      assert Covers(cs, k) by { ClustersCorrect(s); }
      var j :| 0 <= j < |cs| && k in cs[j];
      var i :| 0 <= i < |cs[j]| && cs[j][i] == k;
      MemberCovered(s, cs[j], i);
      assert IsCrop(s, Crop(s, cs[j]));
    }
  }

  /** Every region is one square cut to the frame, at least min_region wide
      before the cut; it is non-empty as soon as the frame and min_region are. */
  lemma RegionsAreCroppedSquares(s: Scene, regions: seq<Box>)
    requires RegionList(s, regions)
    ensures forall r | r in regions :: CroppedSquare(s.frame, s.minRegion, r)
    ensures s.minRegion >= 1 && s.frame.width >= 1 && s.frame.height >= 1 ==>
              forall r | r in regions :: r.x0 < r.x1 && r.y0 < r.y1
  {
    forall r | r in regions ensures CroppedSquare(s.frame, s.minRegion, r) {
      var cs := AllCandidates(s);
      var j :| 0 <= j < |cs| && r == Crop(s, cs[j]);
      CalculateRegionIsCroppedSquare(s.frame, Hull(s, cs[j]), s.minRegion);
    }
  }

  /** compute_regions with this min_region loses no box of any frame. */
  ghost predicate LosesNothing(minRegion: nat) {
    forall frame, boxes, regions ::
      var s := Scene(frame, minRegion, boxes);
      AllInFrame(s) && RegionList(s, regions) ==> forall k | 0 <= k < |boxes| :: BoxCovered(regions, boxes[k])
  }

  /** Five is the exact bound: below it a 5x5 box in a 5x5 frame gets a 4x4 crop. */
  lemma LosesNothingIff(minRegion: nat)
    ensures LosesNothing(minRegion) <==> minRegion >= 5
  {
    if minRegion >= 5 {
      forall frame, boxes, regions
        | AllInFrame(Scene(frame, minRegion, boxes)) && RegionList(Scene(frame, minRegion, boxes), regions)
        ensures forall k | 0 <= k < |boxes| :: BoxCovered(regions, boxes[k])
      {
        EveryBoxCovered(Scene(frame, minRegion, boxes), regions);
      }
    } else {
      var s := Scene(Frame(5, 5), minRegion, [Box(0, 0, 5, 5)]);
      var regions := [Box(0, 0, 4, 4)];
      SingleBoxRegions(s);
      assert RegionList(s, regions) && AllInFrame(s) && !BoxCovered(regions, s.boxes[0]);
    }
  }

  lemma SingleBoxRegions(s: Scene)
    requires s.frame == Frame(5, 5) && s.minRegion < 5 && s.boxes == [Box(0, 0, 5, 5)]
    ensures RegionList(s, [Box(0, 0, 4, 4)])
  {
    var g := Growth([0], {0});
    assert Grow(s, 0, g) == Grow(s, 1, g) == g;
    var none: set<nat> := {};
    assert none + {0} == {0};
    assert Candidates(s, 1, g.used) == [];
    assert AllCandidates(s) == [g.cluster];
    assert g.cluster[..0] == [];
    assert Hull(s, g.cluster) == Box(0, 0, 5, 5);
    assert Crop(s, AllCandidates(s)[0]) == Box(0, 0, 4, 4);
  }
}
