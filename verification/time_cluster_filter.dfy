/** The time-cluster trigger filter (`TimeClusterFilter`): an event passes
    when any of its time clusters passes the cut, the trigger record lists
    every passing cluster, and two unsigned 32-bit counters keep the number
    of events seen and of passing clusters. */
module TimeClusterFilter {

  /** The range of the C++ `unsigned` counters. */
  const CounterRange: int := 0x1_0000_0000

  newtype uint32 = x: int | 0 <= x < 0x1_0000_0000

  /** `++` on an `unsigned`: wraps to 0 after the largest value. */
  function Increment(c: uint32): (r: uint32)
    ensures r as int == (c as int + 1) % CounterRange
    ensures c as int < CounterRange - 1 ==> r == c + 1
    ensures c as int == CounterRange - 1 ==> r == 0
  {
    if c as int == CounterRange - 1 then 0 else c + 1
  }

  /** What the filter reads of a `TimeCluster`. */
  datatype TimeCluster = TimeCluster(hasCaloCluster: bool, nHits: nat, t0: real)

  datatype FilterConfig = FilterConfig(requireCaloCluster: bool, minNHits: nat, minTime: real, maxTime: real)

  /** The configuration defaults. */
  const DefaultConfig := FilterConfig(false, 11, 500.0, 1695.0)

  /** `_nevt` and `_npass`. */
  datatype Counters = Counters(nevt: uint32, npass: uint32)

  const InitialCounters := Counters(0, 0)

  /** `TriggerInfo`: the indices of the clusters that passed. */
  datatype TriggerInfo = TriggerInfo(hitClusters: seq<nat>)

  /** The per-cluster cut: a calorimeter cluster when required, enough hits,
      and a t0 strictly inside the time window. */
  predicate Passes(cfg: FilterConfig, tc: TimeCluster)
  {
    && (!cfg.requireCaloCluster || tc.hasCaloCluster)
    && tc.nHits >= cfg.minNHits
    && cfg.minTime < tc.t0 < cfg.maxTime
  }

  /** The indices of the passing clusters, in collection order. */
  function PassingIndices(cfg: FilterConfig, tcs: seq<TimeCluster>): (ix: seq<nat>)
  {
    if |tcs| == 0 then []
    else PassingIndices(cfg, tcs[..|tcs| - 1]) + (if Passes(cfg, tcs[|tcs| - 1]) then [|tcs| - 1] else [])
  }

  /** The passing indices are ascending, in range, and name exactly the
      passing clusters. */
  lemma {:induction false} PassingIndicesSpec(cfg: FilterConfig, tcs: seq<TimeCluster>)
    ensures forall j :: 0 <= j < |PassingIndices(cfg, tcs)| ==> PassingIndices(cfg, tcs)[j] < |tcs|
    ensures forall j, k :: 0 <= j < k < |PassingIndices(cfg, tcs)| ==>
      PassingIndices(cfg, tcs)[j] < PassingIndices(cfg, tcs)[k]
    ensures forall i :: 0 <= i < |tcs| ==> (i in PassingIndices(cfg, tcs) <==> Passes(cfg, tcs[i]))
    ensures |PassingIndices(cfg, tcs)| <= |tcs|
  {
    if |tcs| > 0 {
      var n := |tcs| - 1;
      PassingIndicesSpec(cfg, tcs[..n]);
      assert forall i :: 0 <= i < n ==> tcs[..n][i] == tcs[i];
    }
  }

  /** `filter`: counts the event, scans the clusters in order, counts and
      records every passing one, and passes the event when any did.  The
      trigger record is produced on both outcomes. */
  method Filter(cfg: FilterConfig, counters: Counters, tcs: seq<TimeCluster>)
    returns (pass: bool, info: TriggerInfo, next: Counters)
    ensures pass <==> exists i :: 0 <= i < |tcs| && Passes(cfg, tcs[i])
    ensures info.hitClusters == PassingIndices(cfg, tcs)
    ensures next.nevt as int == (counters.nevt as int + 1) % CounterRange
    ensures next.npass as int == (counters.npass as int + |info.hitClusters|) % CounterRange
  {
    next := counters.(nevt := Increment(counters.nevt));
    pass := false;
    var hits: seq<nat> := [];
    var i := 0;
    while i < |tcs|
      invariant 0 <= i <= |tcs|
      invariant hits == PassingIndices(cfg, tcs[..i])
      invariant pass <==> exists j :: 0 <= j < i && Passes(cfg, tcs[j])
      invariant next.nevt as int == (counters.nevt as int + 1) % CounterRange
      invariant next.npass as int == (counters.npass as int + |hits|) % CounterRange
    {
      assert tcs[..i + 1][..i] == tcs[..i];
      if Passes(cfg, tcs[i]) {
        pass := true;
        next := next.(npass := Increment(next.npass));
        hits := hits + [i];
      }
      i := i + 1;
    }
    assert tcs[..i] == tcs;
    info := TriggerInfo(hits);
  }

  /** Folds `Filter` over a run of events. */
  method FilterRun(cfg: FilterConfig, events: seq<seq<TimeCluster>>) returns (next: Counters)
    ensures next.nevt as int == |events| % CounterRange
    ensures next.npass as int == TotalPassing(cfg, events) % CounterRange
  {
    next := InitialCounters;
    var k := 0;
    while k < |events|
      invariant 0 <= k <= |events|
      invariant next.nevt as int == k % CounterRange
      invariant next.npass as int == TotalPassing(cfg, events[..k]) % CounterRange
    {
      assert events[..k + 1][..k] == events[..k];
      var pass, info;
      pass, info, next := Filter(cfg, next, events[k]);
      k := k + 1;
    }
    assert events[..k] == events;
  }

  /** The number of passing clusters over a run of events. */
  function TotalPassing(cfg: FilterConfig, events: seq<seq<TimeCluster>>): nat
  {
    if |events| == 0 then 0
    else TotalPassing(cfg, events[..|events| - 1]) + |PassingIndices(cfg, events[|events| - 1])|
  }

  /** `_npass` counts passing clusters, not passing events: after a run of
      one event with two passing clusters it stands above `_nevt`. */
  lemma PassCountCanExceedEventCount()
    ensures var tc := TimeCluster(false, 11, 1000.0);
      var events := [[tc, tc]];
      TotalPassing(DefaultConfig, events) % CounterRange > |events| % CounterRange
  {
    var tc := TimeCluster(false, 11, 1000.0);
    var events := [[tc, tc]];
    assert events[..0] == [];
    assert [tc, tc][..1] == [tc] && [tc][..0] == [];
    assert Passes(DefaultConfig, tc);
    assert PassingIndices(DefaultConfig, []) == [];
    assert PassingIndices(DefaultConfig, [tc]) == [0];
    assert PassingIndices(DefaultConfig, [tc, tc]) == [0, 1];
  }
}
