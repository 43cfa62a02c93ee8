/** The per-cluster quality descriptor of the background-hit flagging stage
    (`FlagBkgHits::countHits`, `countPlanes` and `fillBkgQual`).  Clusters are
    taken as given; the weighted radial and temporal statistics and the
    trained classifier enter as function-valued parameters. */
module BkgQuality {
  import opened HitFlags

  /** Number of tracker planes, `StrawId::_nplanes` (18 stations of 2 planes). */
  const NPlanes: nat := 36

  /** The fields of a `ComboHit` that this stage reads. */
  datatype ComboHit = ComboHit(plane: nat, nStrawHits: nat, z: real, time: real, flag: HitFlag)

  /** A cluster member: an index into the combo-hit collection and a snapshot
      of that hit's flag taken when the cluster was built. */
  datatype ClusterMember = ClusterMember(index: nat, flag: HitFlag)

  /** Bits of `BkgClusterFlag`. */
  datatype ClusterBit = Iso | BkgBit

  /** `BkgCluster`: transverse radius of the cluster position, cluster time,
      members and the cluster's own flag. */
  datatype BkgCluster = BkgCluster(rho: real, time: real, members: seq<ClusterMember>, cflag: set<ClusterBit>)

  /** `BkgQual` MVA status: unset, filled, calculated. */
  datatype MvaStatus = Unset | Filled | Calculated

  /** `BkgQual`: the named descriptor variables, the status and the classifier output. */
  datatype BkgQual = BkgQual(
    nhits: real, sfrac: real, crho: real,
    np: real, npexp: real, npfrac: real, nphits: real,
    hrho: real, shrho: real, sdt: real,
    zmin: real, zmax: real, zgap: real,
    status: MvaStatus, mvaOut: real)

  /** Weighted-mean hit radius, its spread and the time spread of a cluster. */
  datatype Spread = Spread(hrho: real, shrho: real, sdt: real)

  /** The thresholds `fillBkgQual` reads. */
  datatype QualConfig = QualConfig(minNHits: nat, minNStereo: nat, minNP: nat, useMVA: bool)

  /** Result of the plane scan: first and last occupied plane and the counts. */
  datatype PlaneCount = PlaneCount(ipmin: nat, ipmax: nat, np: nat, npexp: nat, nphits: nat)

  predicate IsActive(m: ClusterMember)
  {
    HasAll(m.flag, {Active})
  }

  predicate IsStereo(m: ClusterMember)
  {
    IsActive(m) && HasAll(m.flag, {Stereo})
  }

  /** Every member indexes the hit collection (the source dereferences without a check). */
  predicate MembersIn(ms: seq<ClusterMember>, n: nat)
  {
    forall i :: 0 <= i < |ms| ==> ms[i].index < n
  }

  /** Every active member's hit lies on a real plane (the plane histogram's index). */
  predicate PlanesInRange(ms: seq<ClusterMember>, hits: seq<ComboHit>)
    requires MembersIn(ms, |hits|)
  {
    forall i :: 0 <= i < |ms| && IsActive(ms[i]) ==> hits[ms[i].index].plane < NPlanes
  }

  /** Reference sum of multiplicities over the active members. */
  function ActiveSum(ms: seq<ClusterMember>, hits: seq<ComboHit>): nat
    requires MembersIn(ms, |hits|)
  {
    if |ms| == 0 then 0
    else
      var m := ms[|ms| - 1];
      ActiveSum(ms[..|ms| - 1], hits) + (if IsActive(m) then hits[m.index].nStrawHits else 0)
  }

  /** Reference sum of multiplicities over the members that are active and stereo. */
  function StereoSum(ms: seq<ClusterMember>, hits: seq<ComboHit>): nat
    requires MembersIn(ms, |hits|)
  {
    if |ms| == 0 then 0
    else
      var m := ms[|ms| - 1];
      StereoSum(ms[..|ms| - 1], hits) + (if IsStereo(m) then hits[m.index].nStrawHits else 0)
  }

  /** The combo hits of the active members, in member order. */
  function ActiveHits(ms: seq<ClusterMember>, hits: seq<ComboHit>): seq<ComboHit>
    requires MembersIn(ms, |hits|)
  {
    if |ms| == 0 then []
    else
      var m := ms[|ms| - 1];
      ActiveHits(ms[..|ms| - 1], hits) + (if IsActive(m) then [hits[m.index]] else [])
  }

  /** The z positions of the active members' hits, in member order. */
  function ZValues(ms: seq<ClusterMember>, hits: seq<ComboHit>): (zs: seq<real>)
    requires MembersIn(ms, |hits|)
  {
    var ah := ActiveHits(ms, hits);
    seq(|ah|, i requires 0 <= i < |ah| => ah[i].z)
  }

  lemma {:induction false} StereoWithinActive(ms: seq<ClusterMember>, hits: seq<ComboHit>)
    requires MembersIn(ms, |hits|)
    ensures StereoSum(ms, hits) <= ActiveSum(ms, hits)
  {
    if |ms| > 0 {
      StereoWithinActive(ms[..|ms| - 1], hits);
    }
  }

  /** A cluster with active multiplicity has at least one active hit. */
  lemma {:induction false} ActiveHitsNonEmpty(ms: seq<ClusterMember>, hits: seq<ComboHit>)
    requires MembersIn(ms, |hits|)
    ensures ActiveSum(ms, hits) > 0 ==> |ActiveHits(ms, hits)| > 0
  {
    if |ms| > 0 {
      ActiveHitsNonEmpty(ms[..|ms| - 1], hits);
    }
  }

  /** `countHits`: multiplicity-weighted counts of active and of active stereo members. */
  method CountHits(ms: seq<ClusterMember>, hits: seq<ComboHit>) returns (nactive: nat, nstereo: nat)
    requires MembersIn(ms, |hits|)
    ensures nactive == ActiveSum(ms, hits)
    ensures nstereo == StereoSum(ms, hits)
    ensures nstereo <= nactive
  {
    nactive, nstereo := 0, 0;
    var i := 0;
    while i < |ms|
      invariant 0 <= i <= |ms|
      invariant nactive == ActiveSum(ms[..i], hits)
      invariant nstereo == StereoSum(ms[..i], hits)
    {
      assert ms[..i + 1][..i] == ms[..i];
      var ch := hits[ms[i].index];
      if HasAll(ms[i].flag, {Active}) {
        nactive := nactive + ch.nStrawHits;
        if HasAll(ms[i].flag, {Stereo}) {
          nstereo := nstereo + ch.nStrawHits;
        }
      }
      i := i + 1;
    }
    assert ms[..|ms|] == ms;
    StereoWithinActive(ms, hits);
  }

  // ---------------------------------------------------------------------------
  // Plane histogram and its sums

  /** Sum of `s[lo..hi]`. */
  function SumRange(s: seq<nat>, lo: nat, hi: nat): nat
    requires lo <= hi <= |s|
    decreases hi
  {
    if hi == lo then 0 else SumRange(s, lo, hi - 1) + s[hi - 1]
  }

  /** 1 where a plane is occupied, 0 where it is empty. */
  function Indicator(h: seq<nat>): (ind: seq<nat>)
    ensures |ind| == |h|
  {
    seq(|h|, i requires 0 <= i < |h| => if h[i] > 0 then 1 else 0)
  }

  /** Number of occupied planes. */
  function Occupied(h: seq<nat>): nat
  {
    SumRange(Indicator(h), 0, |h|)
  }

  /** Multiplicity-weighted plane histogram of the active members (`hitplanes`). */
  function PlaneHistogram(ms: seq<ClusterMember>, hits: seq<ComboHit>): (h: seq<nat>)
    requires MembersIn(ms, |hits|) && PlanesInRange(ms, hits)
    ensures |h| == NPlanes
  {
    if |ms| == 0 then seq(NPlanes, _ => 0)
    else
      var h := PlaneHistogram(ms[..|ms| - 1], hits);
      var m := ms[|ms| - 1];
      if IsActive(m) then
        var p := hits[m.index].plane;
        h[p := h[p] + hits[m.index].nStrawHits]
      else h
  }

  /** `lo` and `hi` are the first and last occupied planes of `h`. */
  predicate Span(h: seq<nat>, lo: nat, hi: nat)
  {
    && lo <= hi < |h|
    && h[lo] > 0 && h[hi] > 0
    && (forall p :: 0 <= p < lo ==> h[p] == 0)
    && (forall p :: hi < p < |h| ==> h[p] == 0)
  }

  lemma {:induction false} SumSplit(s: seq<nat>, a: nat, b: nat, c: nat)
    requires a <= b <= c <= |s|
    ensures SumRange(s, a, c) == SumRange(s, a, b) + SumRange(s, b, c)
    decreases c
  {
    if c > b {
      SumSplit(s, a, b, c - 1);
    }
  }

  lemma {:induction false} SumZero(s: seq<nat>, lo: nat, hi: nat)
    requires lo <= hi <= |s|
    requires forall p :: lo <= p < hi ==> s[p] == 0
    ensures SumRange(s, lo, hi) == 0
    decreases hi
  {
    if hi > lo {
      SumZero(s, lo, hi - 1);
    }
  }

  lemma {:induction false} SumPositive(s: seq<nat>, lo: nat, hi: nat)
    requires lo <= hi <= |s|
    requires SumRange(s, lo, hi) > 0
    ensures exists p :: lo <= p < hi && s[p] > 0
    decreases hi
  {
    if s[hi - 1] == 0 {
      SumPositive(s, lo, hi - 1);
    }
  }

  lemma {:induction false} IndicatorBound(h: seq<nat>, lo: nat, hi: nat)
    requires lo <= hi <= |h|
    ensures SumRange(Indicator(h), lo, hi) <= hi - lo
    decreases hi
  {
    if hi > lo {
      IndicatorBound(h, lo, hi - 1);
    }
  }

  /** With everything outside `[lo, hi)` empty, the whole sum is the sum over the range. */
  lemma SumOverSupport(s: seq<nat>, lo: nat, hi: nat)
    requires lo <= hi <= |s|
    requires forall p :: 0 <= p < lo ==> s[p] == 0
    requires forall p :: hi <= p < |s| ==> s[p] == 0
    ensures SumRange(s, 0, |s|) == SumRange(s, lo, hi)
  {
    SumSplit(s, 0, lo, |s|);
    SumSplit(s, lo, hi, |s|);
    SumZero(s, 0, lo);
    SumZero(s, hi, |s|);
  }

  lemma {:induction false} SumUpdate(s: seq<nat>, p: nat, v: nat, lo: nat, hi: nat)
    requires p < |s| && lo <= hi <= |s|
    ensures SumRange(s[p := v], lo, hi) + (if lo <= p < hi then s[p] else 0)
         == SumRange(s, lo, hi) + (if lo <= p < hi then v else 0)
    decreases hi
  {
    if hi > lo {
      SumUpdate(s, p, v, lo, hi - 1);
    }
  }

  /** Adding `n` to one plane of a histogram adds `n` to its total. */
  lemma AddToPlane(h: seq<nat>, p: nat, n: nat)
    requires p < |h|
    ensures SumRange(h[p := h[p] + n], 0, |h|) == SumRange(h, 0, |h|) + n
  {
    SumUpdate(h, p, h[p] + n, 0, |h|);
  }

  /** The histogram's total is the active multiplicity: no active hit is lost. */
  lemma {:induction false} HistogramTotal(ms: seq<ClusterMember>, hits: seq<ComboHit>)
    requires MembersIn(ms, |hits|) && PlanesInRange(ms, hits)
    ensures SumRange(PlaneHistogram(ms, hits), 0, NPlanes) == ActiveSum(ms, hits)
  {
    var h := PlaneHistogram(ms, hits);
    if |ms| == 0 {
      assert forall p :: 0 <= p < NPlanes ==> h[p] == 0;
      SumZero(h, 0, NPlanes);
    } else {
      var pre := ms[..|ms| - 1];
      var m := ms[|ms| - 1];
      assert MembersIn(pre, |hits|) && PlanesInRange(pre, hits);
      var hp := PlaneHistogram(pre, hits);
      HistogramTotal(pre, hits);
      if IsActive(m) {
        var p := hits[m.index].plane;
        assert h == hp[p := hp[p] + hits[m.index].nStrawHits];
        AddToPlane(hp, p, hits[m.index].nStrawHits);
      } else {
        assert h == hp;
      }
    }
  }

  /** Over a span, the range sums are the whole-histogram sums, and the
      number of occupied planes is between 1 and the span's width. */
  lemma SpanCounts(h: seq<nat>, lo: nat, hi: nat)
    requires Span(h, lo, hi)
    ensures SumRange(h, 0, |h|) == SumRange(h, lo, hi + 1)
    ensures Occupied(h) == SumRange(Indicator(h), lo, hi + 1)
    ensures 1 <= Occupied(h) <= hi - lo + 1
  {
    var ind := Indicator(h);
    SumOverSupport(h, lo, hi + 1);
    SumOverSupport(ind, lo, hi + 1);
    IndicatorBound(h, lo, hi + 1);
    SumSplit(ind, lo, lo + 1, hi + 1);
  }

  /** The two scans of `countPlanes`: the first and the last occupied plane. */
  method FindSpan(h: seq<nat>) returns (ipmin: nat, ipmax: nat)
    requires exists p :: 0 <= p < |h| && h[p] > 0
    ensures Span(h, ipmin, ipmax)
  {
    ipmin := 0;
    while h[ipmin] == 0
      invariant ipmin < |h|
      invariant forall p :: 0 <= p < ipmin ==> h[p] == 0
      invariant exists p :: ipmin <= p < |h| && h[p] > 0
      decreases |h| - ipmin
    {
      ipmin := ipmin + 1;
    }
    ipmax := |h| - 1;
    while h[ipmax] == 0
      invariant ipmin <= ipmax < |h|
      invariant forall p :: ipmax < p < |h| ==> h[p] == 0
      decreases ipmax
    {
      ipmax := ipmax - 1;
    }
  }

  /** The counting loop of `countPlanes` over the span `[ipmin, ipmax]`. */
  method CountSpan(h: seq<nat>, ipmin: nat, ipmax: nat) returns (pc: PlaneCount)
    requires Span(h, ipmin, ipmax)
    ensures pc.ipmin == ipmin && pc.ipmax == ipmax
    ensures pc.npexp == ipmax - ipmin + 1
    ensures pc.np == Occupied(h)
    ensures 1 <= pc.np <= pc.npexp
    ensures pc.nphits == SumRange(h, 0, |h|)
  {
    var npexp, np, nphits := 0, 0, 0;
    var ip := ipmin;
    var ind := Indicator(h);
    while ip <= ipmax
      invariant ipmin <= ip <= ipmax + 1
      invariant npexp == ip - ipmin
      invariant np == SumRange(ind, ipmin, ip)
      invariant nphits == SumRange(h, ipmin, ip)
    {
      npexp := npexp + 1;
      if h[ip] > 0 {
        np := np + 1;
      }
      nphits := nphits + h[ip];
      ip := ip + 1;
    }
    SpanCounts(h, ipmin, ipmax);
    pc := PlaneCount(ipmin, ipmax, np, npexp, nphits);
  }

  /** `countPlanes`: scans for the first and last occupied planes and counts
      occupied planes, spanned planes and the multiplicity inside the span.
      The scans run past the histogram unless some active member has
      multiplicity, which the source takes for granted. */
  method CountPlanes(ms: seq<ClusterMember>, hits: seq<ComboHit>) returns (pc: PlaneCount)
    requires MembersIn(ms, |hits|) && PlanesInRange(ms, hits)
    requires ActiveSum(ms, hits) > 0
    ensures Span(PlaneHistogram(ms, hits), pc.ipmin, pc.ipmax)
    ensures pc.npexp == pc.ipmax - pc.ipmin + 1
    ensures pc.np == Occupied(PlaneHistogram(ms, hits))
    ensures 1 <= pc.np <= pc.npexp
    ensures pc.nphits == ActiveSum(ms, hits)
  {
    var h := PlaneHistogram(ms, hits);
    HistogramTotal(ms, hits);
    SumPositive(h, 0, NPlanes);
    var ipmin, ipmax := FindSpan(h);
    pc := CountSpan(h, ipmin, ipmax);
  }

  // ---------------------------------------------------------------------------
  // Sorted z list and the largest gap

  predicate Sorted(s: seq<real>)
  {
    forall i, j :: 0 <= i < j < |s| ==> s[i] <= s[j]
  }

  function Insert(x: real, s: seq<real>): (r: seq<real>)
    requires Sorted(s)
    ensures Sorted(r)
    ensures multiset(r) == multiset(s) + multiset{x}
    ensures |r| == |s| + 1
    ensures r[0] == if |s| == 0 || x <= s[0] then x else s[0]
  {
    if |s| == 0 then [x]
    else if x <= s[0] then [x] + s
    else
      var t := Insert(x, s[1..]);
      assert s == [s[0]] + s[1..];
      [s[0]] + t
  }

  /** The z list in ascending order (`std::sort`; for numbers the sorted
      permutation is unique, so stability does not matter). */
  function SortReals(s: seq<real>): (r: seq<real>)
    ensures Sorted(r)
    ensures multiset(r) == multiset(s)
  {
    if |s| == 0 then []
    else
      assert s == s[..|s| - 1] + [s[|s| - 1]];
      Insert(s[|s| - 1], SortReals(s[..|s| - 1]))
  }

  /** In a non-empty sorted list the first element is the least and the last the greatest. */
  lemma SortedBounds(r: seq<real>)
    requires Sorted(r) && |r| > 0
    ensures forall k :: 0 <= k < |r| ==> r[0] <= r[k] <= r[|r| - 1]
  {
  }

  /** The first element of a sorted permutation is the minimum and the last the maximum. */
  lemma SortedExtremes(s: seq<real>)
    requires |s| > 0
    ensures |SortReals(s)| == |s|
    ensures SortReals(s)[0] in s && SortReals(s)[|s| - 1] in s
    ensures forall z :: z in s ==> SortReals(s)[0] <= z <= SortReals(s)[|s| - 1]
  {
    var r := SortReals(s);
    assert |r| == |multiset(r)| == |multiset(s)| == |s|;
    assert r[0] in multiset(r);
    assert r[|r| - 1] in multiset(r);
    SortedBounds(r);
    forall z | z in s
      ensures r[0] <= z <= r[|s| - 1]
    {
      assert z in multiset(r);
    }
  }

  /** The largest difference between consecutive entries (the `zgap` loop). */
  method MaxGap(s: seq<real>) returns (gap: real)
    ensures gap >= 0.0
    ensures forall i :: 1 <= i < |s| ==> s[i] - s[i - 1] <= gap
    ensures gap == 0.0 || exists i :: 1 <= i < |s| && gap == s[i] - s[i - 1]
    ensures Sorted(s) && |s| >= 2 ==> exists i :: 1 <= i < |s| && gap == s[i] - s[i - 1]
    ensures Sorted(s) && |s| >= 1 ==> gap <= s[|s| - 1] - s[0]
  {
    gap := 0.0;
    var iz := 1;
    while iz < |s|
      invariant 1 <= iz <= |s| || |s| == 0
      invariant gap >= 0.0
      invariant forall i :: 1 <= i < iz && i < |s| ==> s[i] - s[i - 1] <= gap
      invariant gap == 0.0 || exists i :: 1 <= i < iz && i < |s| && gap == s[i] - s[i - 1]
    {
      if s[iz] - s[iz - 1] > gap {
        gap := s[iz] - s[iz - 1];
      }
      iz := iz + 1;
    }
    if Sorted(s) && |s| >= 2 && gap == 0.0 {
      assert s[1] - s[0] <= gap;
    }
  }

  /** The z summary of `fillBkgQual`: sort, take both ends, find the largest gap. */
  method ZStatistics(zs: seq<real>) returns (zmin: real, zmax: real, zgap: real)
    requires |zs| > 0
    ensures zmin in zs && zmax in zs
    ensures forall z :: z in zs ==> zmin <= z <= zmax
    ensures 0.0 <= zgap <= zmax - zmin
    ensures forall i :: 1 <= i < |SortReals(zs)| ==> SortReals(zs)[i] - SortReals(zs)[i - 1] <= zgap
    ensures |zs| >= 2 ==> exists i :: 1 <= i < |SortReals(zs)| && zgap == SortReals(zs)[i] - SortReals(zs)[i - 1]
  {
    SortedExtremes(zs);
    var hz := SortReals(zs);
    zmin := hz[0];
    zmax := hz[|hz| - 1];
    zgap := MaxGap(hz);
  }

  // ---------------------------------------------------------------------------
  // fillBkgQual

  /** The early-reject test: enough active and enough stereo multiplicity. */
  predicate PassesCounts(cfg: QualConfig, ms: seq<ClusterMember>, hits: seq<ComboHit>)
    requires MembersIn(ms, |hits|)
  {
    ActiveSum(ms, hits) >= cfg.minNHits && StereoSum(ms, hits) >= cfg.minNStereo
  }

  /** The classifier's input vector, in the order the reader declares it. */
  function MvaInputs(q: BkgQual): seq<real>
  {
    [q.hrho, q.shrho, q.crho, q.zmin, q.zmax, q.zgap, q.np, q.npfrac, q.nhits]
  }

  /** The count-based fields written once the early-reject test passes. */
  ghost predicate CountFields(q: BkgQual, c: BkgCluster, hits: seq<ComboHit>)
    requires MembersIn(c.members, |hits|) && PlanesInRange(c.members, hits)
  {
    var na := ActiveSum(c.members, hits);
    var h := PlaneHistogram(c.members, hits);
    && q.nhits == na as real
    && na > 0
    && q.sfrac == StereoSum(c.members, hits) as real / na as real
    && q.crho == c.rho
    && q.np == Occupied(h) as real
    && (exists lo: nat, hi: nat :: Span(h, lo, hi) && q.npexp == (hi - lo + 1) as real)
    && 1.0 <= q.np <= q.npexp
    && q.npfrac == q.np / q.npexp
    && q.nphits == na as real / q.np
  }

  /** The "too sparse" marking: every spread and z field is -1. */
  predicate Sentinels(q: BkgQual)
  {
    && q.hrho == -1.0 && q.shrho == -1.0 && q.sdt == -1.0
    && q.zmin == -1.0 && q.zmax == -1.0 && q.zgap == -1.0
  }

  /** The z fields summarise the z list: its minimum, maximum and largest
      step between neighbours in ascending order. */
  ghost predicate ZFields(q: BkgQual, zs: seq<real>)
  {
    var sz := SortReals(zs);
    && q.zmin in zs && q.zmax in zs
    && (forall z :: z in zs ==> q.zmin <= z <= q.zmax)
    && 0.0 <= q.zgap <= q.zmax - q.zmin
    && (forall i :: 1 <= i < |sz| ==> sz[i] - sz[i - 1] <= q.zgap)
    && (|zs| >= 2 ==> exists i :: 1 <= i < |sz| && q.zgap == sz[i] - sz[i - 1])
  }

  /** What `fillBkgQual` leaves in the descriptor `q`, starting from the fresh
      descriptor `q0`, case by case. */
  ghost predicate Described(cfg: QualConfig, c: BkgCluster, hits: seq<ComboHit>, q0: BkgQual,
                            stats: (BkgCluster, seq<ComboHit>) -> Spread,
                            classifier: seq<real> -> real, q: BkgQual)
    requires MembersIn(c.members, |hits|) && PlanesInRange(c.members, hits)
  {
    var passes := PassesCounts(cfg, c.members, hits);
    var np := Occupied(PlaneHistogram(c.members, hits));
    var sp := stats(c, ActiveHits(c.members, hits));
    // early reject: only the status is written
    && (!passes ==> q == q0.(status := Unset))
    // count-based fields, written whenever the counts pass
    && (passes ==> CountFields(q, c, hits))
    // too few planes: sentinels, status stays unset, no score
    && (passes && np < cfg.minNP ==> Sentinels(q) && q.status == Unset && q.mvaOut == q0.mvaOut)
    // enough planes: spreads, z summary, then filled or calculated
    && (passes && np >= cfg.minNP ==>
          && q.hrho == sp.hrho && q.shrho == sp.shrho && q.sdt == sp.sdt
          && |ZValues(c.members, hits)| > 0
          && ZFields(q, ZValues(c.members, hits))
          && (cfg.useMVA ==> q.status == Calculated && q.mvaOut == classifier(MvaInputs(q)))
          && (!cfg.useMVA ==> q.status == Filled && q.mvaOut == q0.mvaOut))
  }

  /** `fillBkgQual`.  `q0` is the freshly constructed descriptor; `stats`
      stands for the weighted radial and temporal accumulators over the active
      hits, `classifier` for the trained network.  The status only moves
      forward: calculated implies the plane test and the counts passed, and
      an unset descriptor carries no score. */
  method FillBkgQual(cfg: QualConfig, c: BkgCluster, hits: seq<ComboHit>, q0: BkgQual,
                     stats: (BkgCluster, seq<ComboHit>) -> Spread,
                     classifier: seq<real> -> real)
    returns (q: BkgQual)
    requires MembersIn(c.members, |hits|) && PlanesInRange(c.members, hits)
    requires PassesCounts(cfg, c.members, hits) ==> ActiveSum(c.members, hits) > 0
    ensures Described(cfg, c, hits, q0, stats, classifier, q)
    ensures q.status != Unset ==>
      PassesCounts(cfg, c.members, hits) && Occupied(PlaneHistogram(c.members, hits)) >= cfg.minNP
    ensures q.status == Calculated <==> q.status != Unset && cfg.useMVA
    ensures q.status == Unset ==> q.mvaOut == q0.mvaOut
  {
    var nactive, nstereo := CountHits(c.members, hits);
    q := q0.(status := Unset);
    if nactive >= cfg.minNHits && nstereo >= cfg.minNStereo {
      q := q.(nhits := nactive as real,
              sfrac := nstereo as real / nactive as real,
              crho := c.rho);
      var pc := CountPlanes(c.members, hits);
      q := q.(np := pc.np as real, npexp := pc.npexp as real,
              npfrac := pc.np as real / pc.npexp as real,
              nphits := pc.nphits as real / pc.np as real);
      assert Span(PlaneHistogram(c.members, hits), pc.ipmin, pc.ipmax);
      assert CountFields(q, c, hits);
      if pc.np >= cfg.minNP {
        q := FillSpreads(cfg, c, hits, q, stats, classifier);
      } else {
        q := q.(hrho := -1.0, shrho := -1.0, sdt := -1.0,
                zmin := -1.0, zmax := -1.0, zgap := -1.0);
      }
    }
  }

  /** The count-based fields of two descriptors agree. */
  predicate SameCounts(q: BkgQual, q1: BkgQual)
  {
    && q.nhits == q1.nhits && q.sfrac == q1.sfrac && q.crho == q1.crho
    && q.np == q1.np && q.npexp == q1.npexp && q.npfrac == q1.npfrac && q.nphits == q1.nphits
  }

  /** The part of `fillBkgQual` past the plane test: radial and temporal
      spreads, the z summary, then the status and, when enabled, the score.
      The count-based fields are left as they are. */
  method FillSpreads(cfg: QualConfig, c: BkgCluster, hits: seq<ComboHit>, q1: BkgQual,
                     stats: (BkgCluster, seq<ComboHit>) -> Spread,
                     classifier: seq<real> -> real)
    returns (q: BkgQual)
    requires MembersIn(c.members, |hits|)
    requires ActiveSum(c.members, hits) > 0
    ensures SameCounts(q, q1)
    ensures q.hrho == stats(c, ActiveHits(c.members, hits)).hrho
    ensures q.shrho == stats(c, ActiveHits(c.members, hits)).shrho
    ensures q.sdt == stats(c, ActiveHits(c.members, hits)).sdt
    ensures |ZValues(c.members, hits)| > 0
    ensures ZFields(q, ZValues(c.members, hits))
    ensures cfg.useMVA ==> q.status == Calculated && q.mvaOut == classifier(MvaInputs(q))
    ensures !cfg.useMVA ==> q.status == Filled && q.mvaOut == q1.mvaOut
  {
    var sp := stats(c, ActiveHits(c.members, hits));
    q := q1.(hrho := sp.hrho, shrho := sp.shrho, sdt := sp.sdt);
    ActiveHitsNonEmpty(c.members, hits);
    var zs := ZValues(c.members, hits);
    var zmin, zmax, zgap := ZStatistics(zs);
    q := q.(zmin := zmin, zmax := zmax, zgap := zgap);
    q := q.(status := Filled);
    if cfg.useMVA {
      var readerout := classifier(MvaInputs(q));
      q := q.(mvaOut := readerout, status := Calculated);
    }
  }
}
