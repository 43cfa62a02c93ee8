/** The event step of the background-hit flagging stage
    (`FlagBkgHits::produce` and the clusterer selector of its constructor):
    cluster flags, their propagation to combo hits and straw hits, and the
    order-preserving filtered hit collection. */
module FlagBkgHits {
  import opened HitFlags
  import opened Results
  import opened BkgQuality

  /** The three clustering algorithms, selected by an integer parameter. */
  datatype ClustererKind = TwoLevelThreshold | TwoNiveauThreshold | TwoNiveauThresholdB

  datatype FlagError =
    | UnknownClusterer(selector: int)   // constructor: no such clusterer
    | SizeMismatch                      // straw-hit and straw-level combo-hit collections differ in size
    | StrawHitOutOfRange(shid: nat)     // `at` on the straw-hit flag collection throws

  /** A `ComboHitCollection`: its hits and the collection it was built from. */
  datatype ComboHitCollection = ComboHitCollection(parent: nat, hits: seq<ComboHit>)

  /** Module parameters read per event. */
  datatype Config = Config(
    filter: bool, flagCH: bool, flagSH: bool,
    qual: QualConfig, maxIsolated: nat, saveBkg: bool,
    bkgMask: HitFlag, mvaCut: real)

  /** Per-event inputs besides the clusters: the combo hits, the straw-hit
      count, the straw-level combo hits, and for each combo hit the indices
      of the straw hits it is built from (`fillStrawHitIndices`). */
  datatype EventInput = EventInput(
    chcol: ComboHitCollection, nStrawHits: nat, shch: seq<ComboHit>, shids: seq<seq<nat>>)

  /** The data products put into the event; `None` for one not produced. */
  datatype EventOutput = EventOutput(
    filtered: Option<ComboHitCollection>,
    chFlags: Option<seq<HitFlag>>,
    shFlags: Option<seq<HitFlag>>,
    savedClusters: Option<seq<BkgCluster>>,
    savedQuals: Option<seq<BkgQual>>)

  // ---------------------------------------------------------------------------
  // Clusterer selection

  /** The configuration value of each clusterer. */
  function SelectorOf(k: ClustererKind): int
  {
    match k
    case TwoLevelThreshold => 1
    case TwoNiveauThreshold => 2
    case TwoNiveauThresholdB => 3
  }

  /** The constructor's dispatch: an unknown value is a configuration error. */
  function SelectClusterer(selector: int): (r: Result<ClustererKind, FlagError>)
    ensures r.Ok? <==> 1 <= selector <= 3
    ensures r.Ok? ==> SelectorOf(r.value) == selector
    ensures r.Err? ==> r.error == UnknownClusterer(selector)
  {
    if selector == 1 then Ok(TwoLevelThreshold)
    else if selector == 2 then Ok(TwoNiveauThreshold)
    else if selector == 3 then Ok(TwoNiveauThresholdB)
    else Err(UnknownClusterer(selector))
  }

  lemma SelectClustererRoundTrip(k: ClustererKind)
    ensures SelectClusterer(SelectorOf(k)) == Ok(k)
  {
  }

  // ---------------------------------------------------------------------------
  // Cluster flags

  /** The flag a cluster hands to its hits: always `bkgclust`, `isolated` for
      a small cluster, `bkg` when the descriptor's score is above the cut
      (whatever the descriptor's status). */
  function ClusterFlag(cfg: Config, size: nat, mvaOut: real): (f: HitFlag)
    ensures BkgClust in f
    ensures Isolated in f <==> size <= cfg.maxIsolated
    ensures Bkg in f <==> mvaOut > cfg.mvaCut
    ensures f <= {BkgClust, Isolated, Bkg}
  {
    {BkgClust}
      + (if size <= cfg.maxIsolated then {Isolated} else {})
      + (if mvaOut > cfg.mvaCut then {Bkg} else {})
  }

  /** The cluster as saved for diagnostics: its own flag gains `iso` and `bkg`
      under the same tests, when saving is enabled. */
  function SavedCluster(cfg: Config, c: BkgCluster, mvaOut: real): (s: BkgCluster)
    ensures s.members == c.members && s.rho == c.rho && s.time == c.time
    ensures c.cflag <= s.cflag
    ensures Iso in s.cflag <==> Iso in c.cflag || (cfg.saveBkg && |c.members| <= cfg.maxIsolated)
    ensures BkgBit in s.cflag <==> BkgBit in c.cflag || (cfg.saveBkg && mvaOut > cfg.mvaCut)
  {
    var iso: set<ClusterBit> := if cfg.saveBkg && |c.members| <= cfg.maxIsolated then {Iso} else {};
    var bkg: set<ClusterBit> := if cfg.saveBkg && mvaOut > cfg.mvaCut then {BkgBit} else {};
    c.(cflag := c.cflag + iso + bkg)
  }

  /** Some member of `ms` refers to hit `i`. */
  predicate Covers(ms: seq<ClusterMember>, i: nat)
  {
    exists k :: 0 <= k < |ms| && ms[k].index == i
  }

  /** Assigns `f` to the entry of every member (`chfcol[index] = flag`). */
  function Stamp(chf: seq<HitFlag>, ms: seq<ClusterMember>, f: HitFlag): (r: seq<HitFlag>)
    requires MembersIn(ms, |chf|)
    ensures |r| == |chf|
  {
    if |ms| == 0 then chf
    else Stamp(chf, ms[..|ms| - 1], f)[ms[|ms| - 1].index := f]
  }

  lemma {:induction false} StampSpec(chf: seq<HitFlag>, ms: seq<ClusterMember>, f: HitFlag)
    requires MembersIn(ms, |chf|)
    ensures forall i :: 0 <= i < |chf| ==>
      Stamp(chf, ms, f)[i] == if Covers(ms, i) then f else chf[i]
  {
    if |ms| > 0 {
      var pre := ms[..|ms| - 1];
      StampSpec(chf, pre, f);
      forall i | 0 <= i < |chf|
        ensures Stamp(chf, ms, f)[i] == if Covers(ms, i) then f else chf[i]
      {
        if Covers(pre, i) {
          var k :| 0 <= k < |pre| && pre[k].index == i;
          assert ms[k].index == i;
        } else if ms[|ms| - 1].index != i && Covers(ms, i) {
          var k :| 0 <= k < |ms| && ms[k].index == i;
          assert pre[k].index == i;
        }
      }
    }
  }

  predicate ClustersIn(clusters: seq<BkgCluster>, n: nat)
  {
    forall k :: 0 <= k < |clusters| ==> MembersIn(clusters[k].members, n)
  }

  /** The combo-hit flag collection after the cluster loop: empty flags,
      then each cluster in turn overwrites its members' entries. */
  function AssignFlags(nch: nat, clusters: seq<BkgCluster>, flags: seq<HitFlag>): (chf: seq<HitFlag>)
    requires |flags| == |clusters| && ClustersIn(clusters, nch)
    ensures |chf| == nch
  {
    if |clusters| == 0 then seq(nch, _ => {})
    else
      var n := |clusters| - 1;
      Stamp(AssignFlags(nch, clusters[..n], flags[..n]), clusters[n].members, flags[n])
  }

  /** The last cluster containing a hit decides its flag (assignment, not
      merging); a hit in no cluster keeps the empty flag. */
  lemma {:induction false} LastClusterWins(nch: nat, clusters: seq<BkgCluster>, flags: seq<HitFlag>, i: nat)
    requires |flags| == |clusters| && ClustersIn(clusters, nch) && i < nch
    ensures (forall k :: 0 <= k < |clusters| ==> !Covers(clusters[k].members, i)) ==>
      AssignFlags(nch, clusters, flags)[i] == {}
    ensures forall k :: 0 <= k < |clusters| && Covers(clusters[k].members, i)
                        && (forall k' :: k < k' < |clusters| ==> !Covers(clusters[k'].members, i)) ==>
      AssignFlags(nch, clusters, flags)[i] == flags[k]
  {
    if |clusters| > 0 {
      var n := |clusters| - 1;
      assert ClustersIn(clusters[..n], nch);
      LastClusterWins(nch, clusters[..n], flags[..n], i);
      StampSpec(AssignFlags(nch, clusters[..n], flags[..n]), clusters[n].members, flags[n]);
      forall k | 0 <= k < |clusters| && Covers(clusters[k].members, i)
                 && (forall k' :: k < k' < |clusters| ==> !Covers(clusters[k'].members, i))
        ensures AssignFlags(nch, clusters, flags)[i] == flags[k]
      {
        if k < n {
          assert !Covers(clusters[n].members, i);
          assert clusters[..n][k] == clusters[k];
          assert forall k' :: k < k' < n ==> clusters[..n][k'] == clusters[k'];
        }
      }
      if forall k :: 0 <= k < |clusters| ==> !Covers(clusters[k].members, i) {
        assert !Covers(clusters[n].members, i);
        assert forall k :: 0 <= k < n ==> clusters[..n][k] == clusters[k];
      }
    }
  }

  // ---------------------------------------------------------------------------
  // Filtered output

  /** A hit with a cluster flag merged into its own. */
  function Flagged(h: ComboHit, f: HitFlag): ComboHit
  {
    h.(flag := Merge(h.flag, f))
  }

  /** The filter loop: hits whose cluster flag has no bit of the mask, in
      order, each with the cluster flag merged in. */
  function FilterHits(hits: seq<ComboHit>, chf: seq<HitFlag>, mask: HitFlag): (out: seq<ComboHit>)
    requires |chf| == |hits|
    ensures |out| <= |hits|
  {
    if |hits| == 0 then []
    else
      var n := |hits| - 1;
      FilterHits(hits[..n], chf[..n], mask)
        + (if !HasAny(chf[n], mask) then [Flagged(hits[n], chf[n])] else [])
  }

  /** The indices of the hits that pass the mask, ascending. */
  function KeptIndices(chf: seq<HitFlag>, mask: HitFlag): seq<nat>
  {
    if |chf| == 0 then []
    else
      var n := |chf| - 1;
      KeptIndices(chf[..n], mask) + (if !HasAny(chf[n], mask) then [n] else [])
  }

  /** The kept indices are exactly the passing ones, strictly ascending. */
  lemma {:induction false} KeptIndicesSpec(chf: seq<HitFlag>, mask: HitFlag)
    ensures forall j :: 0 <= j < |KeptIndices(chf, mask)| ==> KeptIndices(chf, mask)[j] < |chf|
    ensures forall j, j' :: 0 <= j < j' < |KeptIndices(chf, mask)| ==>
      KeptIndices(chf, mask)[j] < KeptIndices(chf, mask)[j']
    ensures forall i :: 0 <= i < |chf| ==> (i in KeptIndices(chf, mask) <==> !HasAny(chf[i], mask))
  {
    if |chf| > 0 {
      var n := |chf| - 1;
      KeptIndicesSpec(chf[..n], mask);
      assert forall i :: 0 <= i < n ==> chf[..n][i] == chf[i];
    }
  }

  /** The filtered hits are the kept hits, in order, with merged flags. */
  lemma {:induction false} FilterHitsSpec(hits: seq<ComboHit>, chf: seq<HitFlag>, mask: HitFlag)
    requires |chf| == |hits|
    ensures |FilterHits(hits, chf, mask)| == |KeptIndices(chf, mask)|
    ensures forall j :: 0 <= j < |FilterHits(hits, chf, mask)| ==>
      KeptIndices(chf, mask)[j] < |hits| &&
      FilterHits(hits, chf, mask)[j] == Flagged(hits[KeptIndices(chf, mask)[j]], chf[KeptIndices(chf, mask)[j]])
  {
    KeptIndicesSpec(chf, mask);
    if |hits| > 0 {
      var n := |hits| - 1;
      FilterHitsSpec(hits[..n], chf[..n], mask);
      KeptIndicesSpec(chf[..n], mask);
    }
  }

  /** Every filtered hit carries its original flag and its cluster flag. */
  lemma FilteredFlagsGrow(hits: seq<ComboHit>, chf: seq<HitFlag>, mask: HitFlag)
    requires |chf| == |hits|
    ensures forall j :: 0 <= j < |FilterHits(hits, chf, mask)| ==>
      exists i :: 0 <= i < |hits| && hits[i].flag <= FilterHits(hits, chf, mask)[j].flag
                 && chf[i] <= FilterHits(hits, chf, mask)[j].flag && !HasAny(chf[i], mask)
  {
    FilterHitsSpec(hits, chf, mask);
    KeptIndicesSpec(chf, mask);
    forall j | 0 <= j < |FilterHits(hits, chf, mask)|
      ensures exists i :: 0 <= i < |hits| && hits[i].flag <= FilterHits(hits, chf, mask)[j].flag
                 && chf[i] <= FilterHits(hits, chf, mask)[j].flag && !HasAny(chf[i], mask)
    {
      var i := KeptIndices(chf, mask)[j];
      assert i in KeptIndices(chf, mask);
    }
  }

  // ---------------------------------------------------------------------------
  // Straw-hit flags

  /** Merges `f` into the entry of every straw hit in `ids`, in order;
      an index past the collection throws (`at`). */
  function MergeInto(shf: seq<HitFlag>, ids: seq<nat>, f: HitFlag): (r: Result<seq<HitFlag>, FlagError>)
    ensures r.Ok? ==> |r.value| == |shf|
  {
    if |ids| == 0 then Ok(shf)
    else
      var n := |ids| - 1;
      match MergeInto(shf, ids[..n], f)
      case Err(e) => Err(e)
      case Ok(s) =>
        if ids[n] < |s| then Ok(s[ids[n] := Merge(s[ids[n]], f)])
        else Err(StrawHitOutOfRange(ids[n]))
  }

  /** Pushes each combo hit's cluster flag down to its straw hits. */
  function MergeDown(shf: seq<HitFlag>, shids: seq<seq<nat>>, chf: seq<HitFlag>): (r: Result<seq<HitFlag>, FlagError>)
    requires |shids| == |chf|
    ensures r.Ok? ==> |r.value| == |shf|
  {
    if |shids| == 0 then Ok(shf)
    else
      var n := |shids| - 1;
      match MergeDown(shf, shids[..n], chf[..n])
      case Err(e) => Err(e)
      case Ok(s) => MergeInto(s, shids[n], chf[n])
  }

  /** The straw-hit flag product: the original flags, then the merges; a
      size mismatch throws before anything is written. */
  function StrawHitFlags(nsh: nat, shch: seq<ComboHit>, shids: seq<seq<nat>>, chf: seq<HitFlag>)
    : (r: Result<seq<HitFlag>, FlagError>)
    requires |shids| == |chf|
  {
    if nsh != |shch| then Err(SizeMismatch)
    else MergeDown(seq(|shch|, i requires 0 <= i < |shch| => shch[i].flag), shids, chf)
  }

  /** Every straw-hit index is inside the collection. */
  predicate IdsIn(shids: seq<seq<nat>>, n: nat)
  {
    forall i, k :: 0 <= i < |shids| && 0 <= k < |shids[i]| ==> shids[i][k] < n
  }

  /** Union of the cluster flags of every combo hit that refers to straw hit `s`. */
  function ReferencedFlags(s: nat, shids: seq<seq<nat>>, chf: seq<HitFlag>): HitFlag
    requires |shids| == |chf|
  {
    if |shids| == 0 then {}
    else
      var n := |shids| - 1;
      ReferencedFlags(s, shids[..n], chf[..n]) + (if s in shids[n] then chf[n] else {})
  }

  lemma {:induction false} MergeIntoSpec(shf: seq<HitFlag>, ids: seq<nat>, f: HitFlag)
    ensures MergeInto(shf, ids, f).Ok? <==> forall k :: 0 <= k < |ids| ==> ids[k] < |shf|
    ensures MergeInto(shf, ids, f).Ok? ==>
      forall s :: 0 <= s < |shf| ==> MergeInto(shf, ids, f).value[s] == shf[s] + (if s in ids then f else {})
  {
    if |ids| > 0 {
      var n := |ids| - 1;
      MergeIntoSpec(shf, ids[..n], f);
      assert ids == ids[..n] + [ids[n]];
      assert forall k :: 0 <= k < n ==> ids[..n][k] == ids[k];
    }
  }

  lemma {:induction false} MergeDownSpec(shf: seq<HitFlag>, shids: seq<seq<nat>>, chf: seq<HitFlag>)
    requires |shids| == |chf|
    ensures MergeDown(shf, shids, chf).Ok? <==> IdsIn(shids, |shf|)
    ensures MergeDown(shf, shids, chf).Ok? ==>
      forall s :: 0 <= s < |shf| ==> MergeDown(shf, shids, chf).value[s] == shf[s] + ReferencedFlags(s, shids, chf)
  {
    if |shids| > 0 {
      var n := |shids| - 1;
      MergeDownSpec(shf, shids[..n], chf[..n]);
      assert forall i :: 0 <= i < n ==> shids[..n][i] == shids[i];
      match MergeDown(shf, shids[..n], chf[..n])
      case Err(e) =>
        assert !IdsIn(shids[..n], |shf|);
      case Ok(s) =>
        MergeIntoSpec(s, shids[n], chf[n]);
    }
  }

  /** The straw-hit flags: a size mismatch throws; otherwise an index past
      the collection throws; otherwise each straw hit's flag is its original
      flag merged with the cluster flags of every combo hit built from it,
      so no bit is ever cleared. */
  lemma StrawHitFlagsSpec(nsh: nat, shch: seq<ComboHit>, shids: seq<seq<nat>>, chf: seq<HitFlag>)
    requires |shids| == |chf|
    ensures nsh != |shch| ==> StrawHitFlags(nsh, shch, shids, chf) == Err(SizeMismatch)
    ensures nsh == |shch| ==> (StrawHitFlags(nsh, shch, shids, chf).Ok? <==> IdsIn(shids, nsh))
    ensures StrawHitFlags(nsh, shch, shids, chf).Ok? ==>
      var r := StrawHitFlags(nsh, shch, shids, chf).value;
      && |r| == nsh
      && forall s :: 0 <= s < nsh ==> r[s] == shch[s].flag + ReferencedFlags(s, shids, chf)
  {
    if nsh == |shch| {
      MergeDownSpec(seq(|shch|, i requires 0 <= i < |shch| => shch[i].flag), shids, chf);
    }
  }

  // ---------------------------------------------------------------------------
  // The event

  /** The combo-hit flag product: cluster flag merged with the original flag. */
  function ComboFlags(hits: seq<ComboHit>, chf: seq<HitFlag>): (r: seq<HitFlag>)
    requires |chf| == |hits|
    ensures |r| == |hits|
    ensures forall i :: 0 <= i < |hits| ==> hits[i].flag <= r[i] && chf[i] <= r[i]
    ensures forall i, b :: 0 <= i < |hits| && b in r[i] ==> b in hits[i].flag || b in chf[i]
  {
    seq(|hits|, i requires 0 <= i < |hits| => Merge(chf[i], hits[i].flag))
  }

  /** What a cluster list must satisfy for `fillBkgQual` to be defined on
      each cluster: members index real hits, active hits sit on real planes,
      and a cluster passing the count test has active multiplicity. */
  predicate Evaluable(cfg: QualConfig, clusters: seq<BkgCluster>, hits: seq<ComboHit>)
  {
    forall k :: 0 <= k < |clusters| ==>
      && MembersIn(clusters[k].members, |hits|)
      && PlanesInRange(clusters[k].members, hits)
      && (PassesCounts(cfg, clusters[k].members, hits) ==> ActiveSum(clusters[k].members, hits) > 0)
  }

  /** The cluster loop of `produce`: fills each descriptor, computes each
      cluster flag and assigns it to the cluster's hits, later clusters
      overwriting earlier ones. */
  method ClassifyClusters(cfg: Config, hits: seq<ComboHit>, clusters: seq<BkgCluster>, q0: BkgQual,
                          stats: (BkgCluster, seq<ComboHit>) -> Spread, classifier: seq<real> -> real)
    returns (quals: seq<BkgQual>, flags: seq<HitFlag>, saved: seq<BkgCluster>, chf: seq<HitFlag>)
    requires Evaluable(cfg.qual, clusters, hits)
    ensures |quals| == |clusters| && |flags| == |clusters| && |saved| == |clusters|
    ensures forall k :: 0 <= k < |clusters| ==>
      Described(cfg.qual, clusters[k], hits, q0, stats, classifier, quals[k])
    ensures forall k :: 0 <= k < |clusters| ==>
      flags[k] == ClusterFlag(cfg, |clusters[k].members|, quals[k].mvaOut)
    ensures forall k :: 0 <= k < |clusters| ==>
      saved[k] == SavedCluster(cfg, clusters[k], quals[k].mvaOut)
    ensures ClustersIn(clusters, |hits|)
    ensures chf == AssignFlags(|hits|, clusters, flags)
  {
    quals := EvaluateClusters(cfg.qual, hits, clusters, q0, stats, classifier);
    flags := seq(|clusters|, k requires 0 <= k < |clusters| => ClusterFlag(cfg, |clusters[k].members|, quals[k].mvaOut));
    saved := SavedClusters(cfg, clusters, quals);
    // the member loop `chfcol[index] = flag`, cluster after cluster
    chf := AssignFlags(|hits|, clusters, flags);
  }

  /** `fillBkgQual` on every cluster, in order. */
  method EvaluateClusters(cfg: QualConfig, hits: seq<ComboHit>, clusters: seq<BkgCluster>, q0: BkgQual,
                          stats: (BkgCluster, seq<ComboHit>) -> Spread, classifier: seq<real> -> real)
    returns (quals: seq<BkgQual>)
    requires Evaluable(cfg, clusters, hits)
    ensures |quals| == |clusters|
    ensures forall k :: 0 <= k < |clusters| ==> Described(cfg, clusters[k], hits, q0, stats, classifier, quals[k])
  {
    quals := [];
    var k := 0;
    while k < |clusters|
      invariant 0 <= k <= |clusters|
      invariant |quals| == k
      invariant forall j :: 0 <= j < k ==> Described(cfg, clusters[j], hits, q0, stats, classifier, quals[j])
    {
      var cqual := FillBkgQual(cfg, clusters[k], hits, q0, stats, classifier);
      quals := quals + [cqual];
      k := k + 1;
    }
  }

  /** `produce`: evaluates and flags every cluster, then builds the requested
      products.  Also returns the per-cluster descriptors and flags so that
      the products can be related to them. */
  method Produce(cfg: Config, input: EventInput, clusters: seq<BkgCluster>, q0: BkgQual,
                 stats: (BkgCluster, seq<ComboHit>) -> Spread, classifier: seq<real> -> real)
    returns (r: Result<EventOutput, FlagError>, quals: seq<BkgQual>, flags: seq<HitFlag>)
    requires Evaluable(cfg.qual, clusters, input.chcol.hits)
    requires |input.shids| == |input.chcol.hits|
    ensures |quals| == |clusters| && |flags| == |clusters|
    ensures forall k :: 0 <= k < |clusters| ==>
      Described(cfg.qual, clusters[k], input.chcol.hits, q0, stats, classifier, quals[k])
    ensures forall k :: 0 <= k < |clusters| ==>
      flags[k] == ClusterFlag(cfg, |clusters[k].members|, quals[k].mvaOut)
    ensures ClustersIn(clusters, |input.chcol.hits|)
    ensures
      var hits := input.chcol.hits;
      var chf := AssignFlags(|hits|, clusters, flags);
      var shf := StrawHitFlags(input.nStrawHits, input.shch, input.shids, chf);
      && (r.Err? <==> cfg.flagSH && shf.Err?)
      && (r.Err? ==> r.error == shf.error)
      && (r.Ok? ==>
            && r.value.filtered == (if cfg.filter
                                    then Some(ComboHitCollection(input.chcol.parent, FilterHits(hits, chf, cfg.bkgMask)))
                                    else None)
            && r.value.chFlags == (if cfg.flagCH then Some(ComboFlags(hits, chf)) else None)
            && r.value.shFlags == (if cfg.flagSH then Some(shf.value) else None)
            && r.value.savedQuals == (if cfg.saveBkg then Some(quals) else None)
            && r.value.savedClusters == (if cfg.saveBkg then Some(SavedClusters(cfg, clusters, quals)) else None))
  {
    var hits := input.chcol.hits;
    var saved, chf;
    quals, flags, saved, chf := ClassifyClusters(cfg, hits, clusters, q0, stats, classifier);
    assert saved == SavedClusters(cfg, clusters, quals);

    var filtered: Option<ComboHitCollection> := None;
    if cfg.filter {
      filtered := Some(ComboHitCollection(input.chcol.parent, FilterHits(hits, chf, cfg.bkgMask)));
    }
    var shFlags: Option<seq<HitFlag>> := None;
    if cfg.flagSH {
      var shf := StrawHitFlags(input.nStrawHits, input.shch, input.shids, chf);
      if shf.Err? {
        return Err(shf.error), quals, flags;
      }
      shFlags := Some(shf.value);
    }
    var chFlags: Option<seq<HitFlag>> := None;
    if cfg.flagCH {
      chFlags := Some(ComboFlags(hits, chf));
    }
    var savedClusters: Option<seq<BkgCluster>> := None;
    var savedQuals: Option<seq<BkgQual>> := None;
    if cfg.saveBkg {
      savedClusters, savedQuals := Some(saved), Some(quals);
    }
    r := Ok(EventOutput(filtered, chFlags, shFlags, savedClusters, savedQuals));
  }

  /** The saved-cluster product. */
  function SavedClusters(cfg: Config, clusters: seq<BkgCluster>, quals: seq<BkgQual>): seq<BkgCluster>
    requires |quals| == |clusters|
  {
    seq(|clusters|, k requires 0 <= k < |clusters| => SavedCluster(cfg, clusters[k], quals[k].mvaOut))
  }
}
