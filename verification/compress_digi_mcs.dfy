/** Monte-Carlo truth compression (`CompressDigiMCs`): keeping SimParticles
    together with their ancestry, copying the steps that straw and CRV digis
    point to, selecting digis through an optional index map, and moving the
    time maps, trajectories and CRV digi pointers onto the kept particles.
    Every framework pointer is an abstract key; a pointer "is available"
    exactly when it appears in the table of objects it can resolve to. */
module CompressDigiMCs {
  import opened Results

  /** `art::Ptr<SimParticle>`: product id and key. */
  datatype SimPtr = SimPtr(pid: nat, key: nat)

  /** `art::Ptr` to a `StrawGasStep` or a `CrvStep`: product id and index. */
  datatype StepPtr = StepPtr(pid: nat, idx: nat)

  /** The parent links of the resolvable SimParticles (a particle missing
      from `parent` has a null parent).  `depth` witnesses that the chains are
      finite: every parent sits strictly closer to a root. */
  datatype Genealogy = Genealogy(parent: map<SimPtr, SimPtr>, depth: map<SimPtr, nat>)

  predicate WellFormed(g: Genealogy)
  {
    forall p :: p in g.parent ==> p in g.depth && g.parent[p] in g.depth && g.depth[g.parent[p]] < g.depth[p]
  }

  /** `_simParticlesToKeep`: a set of kept particles per product id. */
  type KeepSets = map<nat, set<SimPtr>>

  function KeptIn(keep: KeepSets, pid: nat): set<SimPtr>
  {
    if pid in keep then keep[pid] else {}
  }

  /** A particle and all its ancestors. */
  function Chain(g: Genealogy, p: SimPtr): set<SimPtr>
    requires WellFormed(g) && p in g.depth
    decreases g.depth[p]
  {
    {p} + (if p in g.parent then Chain(g, g.parent[p]) else {})
  }

  /** Every parent of a member is a member. */
  predicate ParentClosed(g: Genealogy, s: set<SimPtr>)
  {
    forall q :: q in s && q in g.parent ==> g.parent[q] in s
  }

  /** The chain holds the particle and is closed under parents. */
  lemma {:induction false} ChainClosed(g: Genealogy, p: SimPtr)
    requires WellFormed(g) && p in g.depth
    ensures p in Chain(g, p)
    ensures ParentClosed(g, Chain(g, p))
    decreases g.depth[p]
  {
    if p in g.parent {
      ChainClosed(g, g.parent[p]);
    }
  }

  /** ... and it is the smallest such set: nothing but ancestors is kept. */
  lemma {:induction false} ChainSmallest(g: Genealogy, p: SimPtr, s: set<SimPtr>)
    requires WellFormed(g) && p in g.depth
    requires p in s && ParentClosed(g, s)
    ensures Chain(g, p) <= s
    decreases g.depth[p]
  {
    if p in g.parent {
      ChainSmallest(g, g.parent[p], s);
    }
  }

  /** The effect of `keepSimParticle(p)`: `p`'s chain joins the set of `p`'s product. */
  function KeepChain(keep: KeepSets, g: Genealogy, p: SimPtr): KeepSets
    requires WellFormed(g) && p in g.depth
  {
    keep[p.pid := KeptIn(keep, p.pid) + Chain(g, p)]
  }

  /** `keepSimParticle`: walks the parent chain, inserting every particle
      into the set of the starting particle's product.  Sets only grow, and
      other products' sets are untouched. */
  method KeepSimParticle(keep: KeepSets, g: Genealogy, p: SimPtr) returns (kept: KeepSets)
    requires WellFormed(g) && p in g.depth
    ensures kept == KeepChain(keep, g, p)
    ensures p in KeptIn(kept, p.pid)
    ensures forall pid :: KeptIn(keep, pid) <= KeptIn(kept, pid)
    ensures forall pid :: pid != p.pid ==> KeptIn(kept, pid) == KeptIn(keep, pid)
  {
    kept := keep[p.pid := KeptIn(keep, p.pid) + {p}];
    var parent: Option<SimPtr> := if p in g.parent then Some(g.parent[p]) else None;
    while parent.Some?
      invariant parent.Some? ==> parent.value in g.depth
      invariant kept == keep[p.pid := KeptIn(kept, p.pid)]
      invariant KeptIn(kept, p.pid) + (if parent.Some? then Chain(g, parent.value) else {})
             == KeptIn(keep, p.pid) + Chain(g, p)
      decreases if parent.Some? then g.depth[parent.value] + 1 else 0
    {
      kept := kept[p.pid := KeptIn(kept, p.pid) + {parent.value}];
      parent := if parent.value in g.parent then Some(g.parent[parent.value]) else None;
    }
    assert KeptIn(kept, p.pid) == KeptIn(keep, p.pid) + Chain(g, p);
  }

  // ---------------------------------------------------------------------------
  // Steps and digis

  /** A step (`StrawGasStep` or `CrvStep`): the particle that made it and the
      rest of its content. */
  datatype Step = Step(sim: SimPtr, data: int)

  /** `StrawDigiMC`: the steps at the two straw ends and the rest. */
  datatype StrawDigiMC = StrawDigiMC(end0: StepPtr, end1: StepPtr, data: int)

  /** `CrvDigiMC`: its steps, its particle (null as `None`) and the rest. */
  datatype CrvDigiMC = CrvDigiMC(steps: seq<StepPtr>, sim: Option<SimPtr>, data: int)

  /** The old objects pointers can resolve to, and the ids of the new step products. */
  datatype Env = Env(g: Genealogy, gasSteps: map<StepPtr, Step>, crvSteps: map<StepPtr, Step>, gasPid: nat, crvPid: nat)

  predicate EnvOk(env: Env)
  {
    && WellFormed(env.g)
    && (forall s :: s in env.gasSteps ==> env.gasSteps[s].sim in env.g.depth)
    && (forall s :: s in env.crvSteps ==> env.crvSteps[s].sim in env.g.depth)
  }

  /** The module's per-event state: kept particles, new collections, and the
      CRV step map (`_crvStepsMap`; its key set is `_crvStepsSeen`). */
  datatype State = State(
    keep: KeepSets,
    newGasSteps: seq<Step>, newCrvSteps: seq<Step>,
    crvMap: map<StepPtr, StepPtr>,
    newStrawDigis: seq<StrawDigiMC>, newCrvDigis: seq<CrvDigiMC>)

  /** Every new step's particle is kept under its own product. */
  predicate StepsKept(st: State)
  {
    && (forall i :: 0 <= i < |st.newGasSteps| ==> st.newGasSteps[i].sim in KeptIn(st.keep, st.newGasSteps[i].sim.pid))
    && (forall i :: 0 <= i < |st.newCrvSteps| ==> st.newCrvSteps[i].sim in KeptIn(st.keep, st.newCrvSteps[i].sim.pid))
  }

  lemma KeepChainGrows(keep: KeepSets, g: Genealogy, p: SimPtr)
    requires WellFormed(g) && p in g.depth
    ensures forall pid :: KeptIn(keep, pid) <= KeptIn(KeepChain(keep, g, p), pid)
    ensures p in KeptIn(KeepChain(keep, g, p), p.pid)
  {
    ChainClosed(g, p);
  }

  /** `copyStrawGasStep`: keeps the step's particle and appends a copy. */
  function CopyGasStep(env: Env, st: State, ptr: StepPtr): (res: (State, StepPtr))
    requires EnvOk(env) && ptr in env.gasSteps
    ensures res.0.newGasSteps == st.newGasSteps + [env.gasSteps[ptr]]
    ensures res.1 == StepPtr(env.gasPid, |st.newGasSteps|)
    ensures res.0.newCrvSteps == st.newCrvSteps && res.0.crvMap == st.crvMap
    ensures res.0.newStrawDigis == st.newStrawDigis && res.0.newCrvDigis == st.newCrvDigis
    ensures StepsKept(st) ==> StepsKept(res.0)
  {
    var step := env.gasSteps[ptr];
    KeepChainGrows(st.keep, env.g, step.sim);
    (st.(keep := KeepChain(st.keep, env.g, step.sim), newGasSteps := st.newGasSteps + [step]),
     StepPtr(env.gasPid, |st.newGasSteps|))
  }

  /** `q` points to a copy of the available gas step `p`. */
  predicate CopiedGas(env: Env, st: State, p: StepPtr, q: StepPtr)
    requires p in env.gasSteps
  {
    q.pid == env.gasPid && q.idx < |st.newGasSteps| && st.newGasSteps[q.idx] == env.gasSteps[p]
  }

  /** The new pointer for one straw end: a copy when the step is available,
      the old pointer otherwise. */
  function CopyEnd(env: Env, st: State, ptr: StepPtr): (res: (State, StepPtr))
    requires EnvOk(env)
  {
    if ptr in env.gasSteps then CopyGasStep(env, st, ptr) else (st, ptr)
  }

  /** `copyStrawDigiMC`: one digi out per call; the second end reuses the
      first end's copy when both point to the same step. */
  function CopyStrawDigi(env: Env, st: State, d: StrawDigiMC): (st': State)
    requires EnvOk(env)
    ensures |st'.newStrawDigis| == |st.newStrawDigis| + 1
    ensures st'.newStrawDigis[..|st.newStrawDigis|] == st.newStrawDigis
    ensures st'.newStrawDigis[|st.newStrawDigis|].data == d.data
    ensures st'.newCrvSteps == st.newCrvSteps && st'.crvMap == st.crvMap && st'.newCrvDigis == st.newCrvDigis
    ensures st.newGasSteps <= st'.newGasSteps
    ensures |st'.newGasSteps| == |st.newGasSteps| + (if d.end0 in env.gasSteps then 1 else 0)
                                 + (if d.end1 != d.end0 && d.end1 in env.gasSteps then 1 else 0)
    ensures StepsKept(st) ==> StepsKept(st')
    ensures
      var out := st'.newStrawDigis[|st.newStrawDigis|];
      && (d.end0 in env.gasSteps ==> CopiedGas(env, st', d.end0, out.end0))
      && (d.end1 in env.gasSteps ==> CopiedGas(env, st', d.end1, out.end1))
      && (d.end0 !in env.gasSteps ==> out.end0 == d.end0)
      && (d.end1 !in env.gasSteps ==> out.end1 == d.end1)
      && (d.end0 == d.end1 ==> out.end0 == out.end1)
  {
    var (st1, p0) := CopyEnd(env, st, d.end0);
    var (st2, p1) := if d.end1 == d.end0 then (st1, p0) else CopyEnd(env, st1, d.end1);
    st2.(newStrawDigis := st2.newStrawDigis + [StrawDigiMC(p0, p1, d.data)])
  }

  /** The CRV step map is a bijection between the old steps seen so far and
      the new step collection: each seen step was copied exactly once. */
  predicate CrvMapOk(env: Env, st: State)
  {
    && |st.crvMap| == |st.newCrvSteps|
    && (forall s :: s in st.crvMap ==> CopiedCrv(env, st, s, st.crvMap[s]))
    && (forall s, s' :: s in st.crvMap && s' in st.crvMap && s != s' ==> st.crvMap[s] != st.crvMap[s'])
  }

  /** `q` points to a copy of the available CRV step `p`. */
  predicate CopiedCrv(env: Env, st: State, p: StepPtr, q: StepPtr)
  {
    p in env.crvSteps && q.pid == env.crvPid && q.idx < |st.newCrvSteps| && st.newCrvSteps[q.idx] == env.crvSteps[p]
  }

  /** The fields a CRV step copy leaves alone, and the map entries it keeps. */
  predicate CrvFrame(st: State, st': State)
  {
    && st'.newGasSteps == st.newGasSteps
    && st'.newStrawDigis == st.newStrawDigis
    && st'.newCrvDigis == st.newCrvDigis
    && st.newCrvSteps <= st'.newCrvSteps
    && st.crvMap.Keys <= st'.crvMap.Keys
    && (forall s :: s in st.crvMap ==> st'.crvMap[s] == st.crvMap[s])
  }

  /** One pass of the step loop of `copyCrvDigiMC`: an available step not
      seen before is copied (`copyCrvStep`) and remembered, a seen one reuses
      its new pointer, an unavailable one passes through. */
  function CopyCrvStep(env: Env, st: State, s: StepPtr): (res: (State, StepPtr))
    requires EnvOk(env)
    ensures CrvFrame(st, res.0)
    ensures res.0.crvMap.Keys == st.crvMap.Keys + (if s in env.crvSteps then {s} else {})
    ensures s in env.crvSteps ==> res.1 == res.0.crvMap[s]
    ensures s !in env.crvSteps ==> res.1 == s
    ensures StepsKept(st) ==> StepsKept(res.0)
  {
    if s in env.crvSteps then
      if s !in st.crvMap then
        var step := env.crvSteps[s];
        var np := StepPtr(env.crvPid, |st.newCrvSteps|);
        KeepChainGrows(st.keep, env.g, step.sim);
        (st.(keep := KeepChain(st.keep, env.g, step.sim),
             newCrvSteps := st.newCrvSteps + [step],
             crvMap := st.crvMap[s := np]),
         np)
      else (st, st.crvMap[s])
    else (st, s)
  }

  lemma CopyCrvStepMapOk(env: Env, st: State, s: StepPtr)
    requires EnvOk(env) && CrvMapOk(env, st)
    ensures CrvMapOk(env, CopyCrvStep(env, st, s).0)
  {
    if s in env.crvSteps && s !in st.crvMap {
      var np := StepPtr(env.crvPid, |st.newCrvSteps|);
      var steps := st.newCrvSteps + [env.crvSteps[s]];
      var m := st.crvMap[s := np];
      assert |m| == |steps|;
      forall k | k in m
        ensures k in env.crvSteps && m[k].pid == env.crvPid && m[k].idx < |steps| && steps[m[k].idx] == env.crvSteps[k]
      {
        if k != s {
          assert CopiedCrv(env, st, k, st.crvMap[k]);
        }
      }
      forall k, k' | k in m && k' in m && k != k'
        ensures m[k] != m[k']
      {
        if k != s && k' != s {
        } else if k == s {
          assert CopiedCrv(env, st, k', st.crvMap[k']);
        } else {
          assert CopiedCrv(env, st, k, st.crvMap[k]);
        }
      }
      assert CopyCrvStep(env, st, s).0 == st.(keep := KeepChain(st.keep, env.g, env.crvSteps[s].sim),
                                              newCrvSteps := steps, crvMap := m);
    }
  }

  /** The step loop of `copyCrvDigiMC`. */
  function CopyCrvSteps(env: Env, st: State, steps: seq<StepPtr>): (res: (State, seq<StepPtr>))
    requires EnvOk(env)
    ensures |res.1| == |steps|
  {
    if |steps| == 0 then (st, [])
    else
      var n := |steps| - 1;
      var prefix := CopyCrvSteps(env, st, steps[..n]);
      var last := CopyCrvStep(env, prefix.0, steps[n]);
      (last.0, prefix.1 + [last.1])
  }

  /** The available steps among `steps`. */
  function AvailableIn(env: Env, steps: seq<StepPtr>): set<StepPtr>
  {
    set j | 0 <= j < |steps| && steps[j] in env.crvSteps :: steps[j]
  }

  lemma CrvFrameTrans(a: State, b: State, c: State)
    requires CrvFrame(a, b) && CrvFrame(b, c)
    ensures CrvFrame(a, c)
  {
  }

  lemma AvailableInSnoc(env: Env, steps: seq<StepPtr>)
    requires |steps| > 0
    ensures AvailableIn(env, steps)
         == AvailableIn(env, steps[..|steps| - 1]) + (if steps[|steps| - 1] in env.crvSteps then {steps[|steps| - 1]} else {})
  {
    var n := |steps| - 1;
    assert forall j :: 0 <= j < n ==> steps[..n][j] == steps[j];
  }

  lemma {:induction false} CopyCrvStepsFrame(env: Env, st: State, steps: seq<StepPtr>)
    requires EnvOk(env)
    ensures CrvFrame(st, CopyCrvSteps(env, st, steps).0)
    ensures CopyCrvSteps(env, st, steps).0.crvMap.Keys == st.crvMap.Keys + AvailableIn(env, steps)
  {
    if |steps| > 0 {
      var n := |steps| - 1;
      CopyCrvStepsFrame(env, st, steps[..n]);
      var st1 := CopyCrvSteps(env, st, steps[..n]).0;
      CrvFrameTrans(st, st1, CopyCrvStep(env, st1, steps[n]).0);
      AvailableInSnoc(env, steps);
    }
  }

  lemma {:induction false} CopyCrvStepsKept(env: Env, st: State, steps: seq<StepPtr>)
    requires EnvOk(env)
    ensures StepsKept(st) ==> StepsKept(CopyCrvSteps(env, st, steps).0)
  {
    if |steps| > 0 {
      CopyCrvStepsKept(env, st, steps[..|steps| - 1]);
    }
  }

  lemma {:induction false} CopyCrvStepsMapOk(env: Env, st: State, steps: seq<StepPtr>)
    requires EnvOk(env)
    ensures CrvMapOk(env, st) ==> CrvMapOk(env, CopyCrvSteps(env, st, steps).0)
  {
    if |steps| > 0 {
      var n := |steps| - 1;
      CopyCrvStepsMapOk(env, st, steps[..n]);
      if CrvMapOk(env, st) {
        CopyCrvStepMapOk(env, CopyCrvSteps(env, st, steps[..n]).0, steps[n]);
      }
    }
  }

  /** Every available step's new pointer is its map entry after the loop;
      every unavailable one is unchanged. */
  lemma {:induction false} CopyCrvStepsPointers(env: Env, st: State, steps: seq<StepPtr>)
    requires EnvOk(env)
    ensures var res := CopyCrvSteps(env, st, steps);
      forall j :: 0 <= j < |steps| ==>
        if steps[j] in env.crvSteps then steps[j] in res.0.crvMap && res.1[j] == res.0.crvMap[steps[j]]
        else res.1[j] == steps[j]
  {
    if |steps| > 0 {
      var n := |steps| - 1;
      CopyCrvStepsPointers(env, st, steps[..n]);
      CopyCrvStepsFrame(env, st, steps[..n]);
      assert forall j :: 0 <= j < n ==> steps[..n][j] == steps[j];
    }
  }

  /** `out` is `d` with every available step pointer replaced by its map
      entry in `st` and every other one unchanged. */
  predicate CrvDigiCopied(env: Env, st: State, d: CrvDigiMC, out: CrvDigiMC)
  {
    && out.sim == d.sim && out.data == d.data
    && |out.steps| == |d.steps|
    && forall j :: 0 <= j < |d.steps| ==>
         if d.steps[j] in env.crvSteps then d.steps[j] in st.crvMap && out.steps[j] == st.crvMap[d.steps[j]]
         else out.steps[j] == d.steps[j]
  }

  /** `copyCrvDigiMC`: appends the digi with its step pointers replaced. */
  function CopyCrvDigi(env: Env, st: State, d: CrvDigiMC): (st': State)
    requires EnvOk(env)
    ensures |st'.newCrvDigis| == |st.newCrvDigis| + 1
    ensures st'.newCrvDigis[..|st.newCrvDigis|] == st.newCrvDigis
    ensures CrvDigiCopied(env, st', d, st'.newCrvDigis[|st.newCrvDigis|])
    ensures st'.crvMap.Keys == st.crvMap.Keys + AvailableIn(env, d.steps)
    ensures st'.newGasSteps == st.newGasSteps && st'.newStrawDigis == st.newStrawDigis
    ensures StepsKept(st) ==> StepsKept(st')
    ensures CrvMapOk(env, st) ==> CrvMapOk(env, st')
  {
    var res := CopyCrvSteps(env, st, d.steps);
    CopyCrvStepsFrame(env, st, d.steps);
    CopyCrvStepsPointers(env, st, d.steps);
    CopyCrvStepsKept(env, st, d.steps);
    CopyCrvStepsMapOk(env, st, d.steps);
    res.0.(newCrvDigis := res.0.newCrvDigis + [d.(steps := res.1)])
  }

  // ---------------------------------------------------------------------------
  // Digi selection

  /** A digi is copied when no index map is configured, when the map holds
      its index, or when compression is off. */
  predicate Selected(i: nat, indexMap: Option<set<nat>>, noCompression: bool)
  {
    indexMap.None? || i in indexMap.value || noCompression
  }

  /** The indices of the copied digis, ascending. */
  function SelectedIndices(n: nat, indexMap: Option<set<nat>>, noCompression: bool): (ix: seq<nat>)
    ensures |ix| <= n
    ensures forall j :: 0 <= j < |ix| ==> ix[j] < n
  {
    if n == 0 then []
    else SelectedIndices(n - 1, indexMap, noCompression)
           + (if Selected(n - 1, indexMap, noCompression) then [n - 1] else [])
  }

  lemma {:induction false} SelectedIndicesSpec(n: nat, indexMap: Option<set<nat>>, noCompression: bool)
    ensures forall j, j' :: 0 <= j < j' < |SelectedIndices(n, indexMap, noCompression)| ==>
      SelectedIndices(n, indexMap, noCompression)[j] < SelectedIndices(n, indexMap, noCompression)[j']
    ensures forall i :: 0 <= i < n ==>
      (i in SelectedIndices(n, indexMap, noCompression) <==> Selected(i, indexMap, noCompression))
  {
    if n > 0 {
      SelectedIndicesSpec(n - 1, indexMap, noCompression);
      var ix1 := SelectedIndices(n - 1, indexMap, noCompression);
      var ix := SelectedIndices(n, indexMap, noCompression);
      assert ix == ix1 + (if Selected(n - 1, indexMap, noCompression) then [n - 1] else []);
      assert n - 1 !in ix1;
    }
  }

  /** With no index map, or compression off, every digi is copied. */
  lemma {:induction false} SelectedIndicesAll(n: nat, indexMap: Option<set<nat>>, noCompression: bool)
    requires indexMap.None? || noCompression
    ensures |SelectedIndices(n, indexMap, noCompression)| == n
  {
    if n > 0 {
      SelectedIndicesAll(n - 1, indexMap, noCompression);
    }
  }

  /** The straw-digi loop of `produce`. */
  function CopyStrawDigis(env: Env, st: State, digis: seq<StrawDigiMC>,
                          indexMap: Option<set<nat>>, noCompression: bool): State
    requires EnvOk(env)
  {
    if |digis| == 0 then st
    else
      var n := |digis| - 1;
      var st1 := CopyStrawDigis(env, st, digis[..n], indexMap, noCompression);
      if Selected(n, indexMap, noCompression) then CopyStrawDigi(env, st1, digis[n]) else st1
  }

  /** `after` is `before` followed by one copy of each digi `ix` names, in
      order, each with the original's payload. */
  predicate StrawAppended(before: seq<StrawDigiMC>, after: seq<StrawDigiMC>, digis: seq<StrawDigiMC>, ix: seq<nat>)
  {
    && |after| == |before| + |ix|
    && after[..|before|] == before
    && forall j :: 0 <= j < |ix| ==> ix[j] < |digis| && after[|before| + j].data == digis[ix[j]].data
  }

  /** One more digi of the loop: appended when selected, skipped otherwise. */
  lemma StrawAppendedStep(before: seq<StrawDigiMC>, mid: seq<StrawDigiMC>, after: seq<StrawDigiMC>,
                          digis: seq<StrawDigiMC>, ix: seq<nat>, sel: bool)
    requires |digis| > 0
    requires StrawAppended(before, mid, digis[..|digis| - 1], ix)
    requires sel ==> |after| == |mid| + 1 && after[..|mid|] == mid && after[|mid|].data == digis[|digis| - 1].data
    requires !sel ==> after == mid
    ensures StrawAppended(before, after, digis, ix + (if sel then [|digis| - 1] else []))
  {
    var n := |digis| - 1;
    assert forall j :: 0 <= j < |ix| ==> digis[..n][ix[j]] == digis[ix[j]];
    if sel {
      assert after[..|before|] == mid[..|before|];
      assert forall k :: |before| <= k < |mid| ==> after[k] == mid[k];
    }
  }

  /** The copied straw digis are the selected ones, in input order. */
  lemma {:induction false} CopyStrawDigisSpec(env: Env, st: State, digis: seq<StrawDigiMC>,
                                              indexMap: Option<set<nat>>, noCompression: bool)
    requires EnvOk(env)
    ensures StrawAppended(st.newStrawDigis, CopyStrawDigis(env, st, digis, indexMap, noCompression).newStrawDigis,
                          digis, SelectedIndices(|digis|, indexMap, noCompression))
  {
    if |digis| > 0 {
      var n := |digis| - 1;
      CopyStrawDigisSpec(env, st, digis[..n], indexMap, noCompression);
      var st1 := CopyStrawDigis(env, st, digis[..n], indexMap, noCompression);
      StrawAppendedStep(st.newStrawDigis, st1.newStrawDigis,
                        CopyStrawDigis(env, st, digis, indexMap, noCompression).newStrawDigis,
                        digis, SelectedIndices(n, indexMap, noCompression), Selected(n, indexMap, noCompression));
    }
  }

  /** The straw-digi loop keeps every copied step's particle kept and leaves
      the CRV steps alone. */
  lemma {:induction false} CopyStrawDigisKept(env: Env, st: State, digis: seq<StrawDigiMC>,
                                              indexMap: Option<set<nat>>, noCompression: bool)
    requires EnvOk(env)
    ensures
      var st' := CopyStrawDigis(env, st, digis, indexMap, noCompression);
      && (StepsKept(st) ==> StepsKept(st'))
      && st'.newCrvSteps == st.newCrvSteps && st'.crvMap == st.crvMap
  {
    if |digis| > 0 {
      CopyStrawDigisKept(env, st, digis[..|digis| - 1], indexMap, noCompression);
    }
  }

  /** The CRV-digi loop of `produce`. */
  function CopyCrvDigis(env: Env, st: State, digis: seq<CrvDigiMC>,
                        indexMap: Option<set<nat>>, noCompression: bool): State
    requires EnvOk(env)
  {
    if |digis| == 0 then st
    else
      var n := |digis| - 1;
      var st1 := CopyCrvDigis(env, st, digis[..n], indexMap, noCompression);
      if Selected(n, indexMap, noCompression) then CopyCrvDigi(env, st1, digis[n]) else st1
  }

  /** All available steps referred to by the selected digis. */
  function AvailableInDigis(env: Env, digis: seq<CrvDigiMC>, indexMap: Option<set<nat>>, noCompression: bool)
    : set<StepPtr>
  {
    if |digis| == 0 then {}
    else
      var n := |digis| - 1;
      AvailableInDigis(env, digis[..n], indexMap, noCompression)
        + (if Selected(n, indexMap, noCompression) then AvailableIn(env, digis[n].steps) else {})
  }

  lemma UnionStep<T>(a: set<T>, b: set<T>, c: set<T>, x: set<T>, y: set<T>)
    requires b == a + x && c == b + y
    ensures c == a + (x + y)
  {
  }

  /** Over the CRV digi loop the step map's key set gains exactly the
      available steps of the selected digis. */
  lemma {:induction false} CopyCrvDigisKeys(env: Env, st: State, digis: seq<CrvDigiMC>,
                                            indexMap: Option<set<nat>>, noCompression: bool)
    requires EnvOk(env)
    ensures CopyCrvDigis(env, st, digis, indexMap, noCompression).crvMap.Keys
         == st.crvMap.Keys + AvailableInDigis(env, digis, indexMap, noCompression)
  {
    if |digis| > 0 {
      var n := |digis| - 1;
      CopyCrvDigisKeys(env, st, digis[..n], indexMap, noCompression);
      var st1 := CopyCrvDigis(env, st, digis[..n], indexMap, noCompression);
      var st2 := CopyCrvDigis(env, st, digis, indexMap, noCompression);
      var added := if Selected(n, indexMap, noCompression) then AvailableIn(env, digis[n].steps) else {};
      assert st2.crvMap.Keys == st1.crvMap.Keys + added;
      UnionStep(st.crvMap.Keys, st1.crvMap.Keys, st2.crvMap.Keys,
                AvailableInDigis(env, digis[..n], indexMap, noCompression), added);
    }
  }

  /** The CRV digi loop leaves the straw outputs alone. */
  lemma {:induction false} CopyCrvDigisFrame(env: Env, st: State, digis: seq<CrvDigiMC>,
                                             indexMap: Option<set<nat>>, noCompression: bool)
    requires EnvOk(env)
    ensures var st' := CopyCrvDigis(env, st, digis, indexMap, noCompression);
      st'.newGasSteps == st.newGasSteps && st'.newStrawDigis == st.newStrawDigis
  {
    if |digis| > 0 {
      CopyCrvDigisFrame(env, st, digis[..|digis| - 1], indexMap, noCompression);
    }
  }

  /** ... the map stays a bijection onto the new steps ... */
  lemma {:induction false} CopyCrvDigisMapOk(env: Env, st: State, digis: seq<CrvDigiMC>,
                                             indexMap: Option<set<nat>>, noCompression: bool)
    requires EnvOk(env) && CrvMapOk(env, st)
    ensures CrvMapOk(env, CopyCrvDigis(env, st, digis, indexMap, noCompression))
  {
    if |digis| > 0 {
      CopyCrvDigisMapOk(env, st, digis[..|digis| - 1], indexMap, noCompression);
    }
  }

  /** ... and every new step's particle is kept. */
  lemma {:induction false} CopyCrvDigisKept(env: Env, st: State, digis: seq<CrvDigiMC>,
                                            indexMap: Option<set<nat>>, noCompression: bool)
    requires EnvOk(env) && StepsKept(st)
    ensures StepsKept(CopyCrvDigis(env, st, digis, indexMap, noCompression))
  {
    if |digis| > 0 {
      CopyCrvDigisKept(env, st, digis[..|digis| - 1], indexMap, noCompression);
    }
  }

  /** `after` is `before` followed by one copy of each digi `ix` names, in
      order, each with the original's particle, payload and step count. */
  predicate CrvAppended(before: seq<CrvDigiMC>, after: seq<CrvDigiMC>, digis: seq<CrvDigiMC>, ix: seq<nat>)
  {
    && |after| == |before| + |ix|
    && after[..|before|] == before
    && forall j :: 0 <= j < |ix| ==>
         && ix[j] < |digis|
         && after[|before| + j].data == digis[ix[j]].data
         && after[|before| + j].sim == digis[ix[j]].sim
         && |after[|before| + j].steps| == |digis[ix[j]].steps|
  }

  /** One more digi of the loop: appended when selected, skipped otherwise. */
  lemma CrvAppendedStep(before: seq<CrvDigiMC>, mid: seq<CrvDigiMC>, after: seq<CrvDigiMC>,
                        digis: seq<CrvDigiMC>, ix: seq<nat>, sel: bool)
    requires |digis| > 0
    requires CrvAppended(before, mid, digis[..|digis| - 1], ix)
    requires sel ==>
      && |after| == |mid| + 1 && after[..|mid|] == mid
      && after[|mid|].data == digis[|digis| - 1].data && after[|mid|].sim == digis[|digis| - 1].sim
      && |after[|mid|].steps| == |digis[|digis| - 1].steps|
    requires !sel ==> after == mid
    ensures CrvAppended(before, after, digis, ix + (if sel then [|digis| - 1] else []))
  {
    var n := |digis| - 1;
    assert forall j :: 0 <= j < |ix| ==> digis[..n][ix[j]] == digis[ix[j]];
    if sel {
      assert after[..|before|] == mid[..|before|];
      assert forall k :: |before| <= k < |mid| ==> after[k] == mid[k];
    }
  }

  /** The copied CRV digis are the selected ones, in input order. */
  lemma {:induction false} CopyCrvDigisOrder(env: Env, st: State, digis: seq<CrvDigiMC>,
                                             indexMap: Option<set<nat>>, noCompression: bool)
    requires EnvOk(env)
    ensures CrvAppended(st.newCrvDigis, CopyCrvDigis(env, st, digis, indexMap, noCompression).newCrvDigis,
                        digis, SelectedIndices(|digis|, indexMap, noCompression))
  {
    if |digis| > 0 {
      var n := |digis| - 1;
      CopyCrvDigisOrder(env, st, digis[..n], indexMap, noCompression);
      var st1 := CopyCrvDigis(env, st, digis[..n], indexMap, noCompression);
      CrvAppendedStep(st.newCrvDigis, st1.newCrvDigis,
                      CopyCrvDigis(env, st, digis, indexMap, noCompression).newCrvDigis,
                      digis, SelectedIndices(n, indexMap, noCompression), Selected(n, indexMap, noCompression));
    }
  }

  /** Exactly once: from a cleared step map and an empty new step collection,
      the new CRV steps are as many as the distinct available steps referred
      to by the copied digis. */
  lemma CrvStepsCopiedOnce(env: Env, st: State, digis: seq<CrvDigiMC>,
                           indexMap: Option<set<nat>>, noCompression: bool)
    requires EnvOk(env) && st.crvMap == map[] && st.newCrvSteps == []
    ensures |CopyCrvDigis(env, st, digis, indexMap, noCompression).newCrvSteps|
         == |AvailableInDigis(env, digis, indexMap, noCompression)|
  {
    CopyCrvDigisKeys(env, st, digis, indexMap, noCompression);
    CopyCrvDigisMapOk(env, st, digis, indexMap, noCompression);
    var st' := CopyCrvDigis(env, st, digis, indexMap, noCompression);
    assert |st'.crvMap| == |st'.crvMap.Keys|;
  }

  datatype CompressError =
    | StrawDigiCountMismatch(before: nat, after: nat)
    | CrvDigiCountMismatch(before: nat, after: nat)
    | SimParticleCountMismatch(kept: nat, written: nat)
    | GenParticleCountMismatch(wanted: nat, written: nat)
    | MissingRemap(sim: SimPtr)

  /** The count check after a digi loop: only when nothing was meant to be dropped. */
  function CheckDigiCount(nIn: nat, nOut: nat, indexMap: Option<set<nat>>, noCompression: bool): (r: Outcome<(nat, nat)>)
    ensures r.Fail? <==> (indexMap.None? || noCompression) && nIn != nOut
  {
    Check(!((indexMap.None? || noCompression) && nIn != nOut), (nIn, nOut))
  }

  /** The straw-digi step of `produce`: the output collection starts empty,
      the selected digis are copied and the count is checked. */
  function ProcessStrawDigis(env: Env, st: State, digis: seq<StrawDigiMC>,
                             indexMap: Option<set<nat>>, noCompression: bool): Result<State, CompressError>
    requires EnvOk(env)
  {
    var st1 := CopyStrawDigis(env, st.(newStrawDigis := []), digis, indexMap, noCompression);
    match CheckDigiCount(|digis|, |st1.newStrawDigis|, indexMap, noCompression)
    case Fail(e) => Err(StrawDigiCountMismatch(e.0, e.1))
    case Pass => Ok(st1)
  }

  /** The CRV-digi step of `produce` (when a CRV tag is configured): the seen
      set and step map are cleared first. */
  function ProcessCrvDigis(env: Env, st: State, digis: seq<CrvDigiMC>,
                           indexMap: Option<set<nat>>, noCompression: bool): Result<State, CompressError>
    requires EnvOk(env)
  {
    var st1 := CopyCrvDigis(env, st.(crvMap := map[], newCrvDigis := []), digis, indexMap, noCompression);
    match CheckDigiCount(|digis|, |st1.newCrvDigis|, indexMap, noCompression)
    case Fail(e) => Err(CrvDigiCountMismatch(e.0, e.1))
    case Pass => Ok(st1)
  }

  /** Because every copy appends exactly one digi, the count checks can
      never fire: the output holds exactly the selected digis. */
  lemma DigiCountChecksPass(env: Env, st: State, straw: seq<StrawDigiMC>, crv: seq<CrvDigiMC>,
                            indexMap: Option<set<nat>>, noCompression: bool)
    requires EnvOk(env) && st.newCrvSteps == []
    ensures ProcessStrawDigis(env, st, straw, indexMap, noCompression).Ok?
    ensures |ProcessStrawDigis(env, st, straw, indexMap, noCompression).value.newStrawDigis|
         == |SelectedIndices(|straw|, indexMap, noCompression)|
    ensures ProcessCrvDigis(env, st, crv, indexMap, noCompression).Ok?
    ensures |ProcessCrvDigis(env, st, crv, indexMap, noCompression).value.newCrvDigis|
         == |SelectedIndices(|crv|, indexMap, noCompression)|
  {
    CopyStrawDigisSpec(env, st.(newStrawDigis := []), straw, indexMap, noCompression);
    if indexMap.None? || noCompression {
      SelectedIndicesAll(|straw|, indexMap, noCompression);
    }
    CopyCrvDigisOrder(env, st.(crvMap := map[], newCrvDigis := []), crv, indexMap, noCompression);
    if indexMap.None? || noCompression {
      SelectedIndicesAll(|crv|, indexMap, noCompression);
    }
  }

  // ---------------------------------------------------------------------------
  // The initial keep sets

  /** One `SimParticle` of an input collection: its key and whether it has a
      `GenParticle`. */
  datatype SimRecord = SimRecord(key: nat, hasGen: bool)

  /** One input `SimParticleCollection`: its product id and its particles in
      key order. */
  datatype SimProduct = SimProduct(pid: nat, sims: seq<SimRecord>)

  predicate ProductResolvable(g: Genealogy, prod: SimProduct)
  {
    forall i :: 0 <= i < |prod.sims| ==> SimPtr(prod.pid, prod.sims[i].key) in g.depth
  }

  /** The number of particles with a `GenParticle`. */
  function GenCount(sims: seq<SimRecord>): nat
  {
    if |sims| == 0 then 0
    else GenCount(sims[..|sims| - 1]) + (if sims[|sims| - 1].hasGen then 1 else 0)
  }

  /** The particle loop over one collection, run only when all
      `GenParticle`s are kept or compression is off: a particle with a
      `GenParticle` is kept and counted, and without compression every
      particle is kept. */
  function KeepProduct(g: Genealogy, keep: KeepSets, prod: SimProduct, sims: seq<SimRecord>, noCompression: bool)
    : (res: (KeepSets, nat))
    requires WellFormed(g) && ProductResolvable(g, prod) && sims <= prod.sims
  {
    if |sims| == 0 then (keep, 0)
    else
      var n := |sims| - 1;
      assert sims[n] == prod.sims[n];
      var (k1, c1) := KeepProduct(g, keep, prod, sims[..n], noCompression);
      var p := SimPtr(prod.pid, sims[n].key);
      var k2 := if sims[n].hasGen then KeepChain(k1, g, p) else k1;
      var k3 := if noCompression then KeepChain(k2, g, p) else k2;
      (k3, c1 + (if sims[n].hasGen then 1 else 0))
  }

  /** The loop over the collections: each one's set is cleared and then
      refilled by `KeepProduct` when all `GenParticle`s are kept or
      compression is off; the second result is `n_gen_particles_to_keep`. */
  function InitialKeep(g: Genealogy, keep: KeepSets, prods: seq<SimProduct>, keepAllGen: bool, noCompression: bool)
    : (res: (KeepSets, nat))
    requires WellFormed(g) && forall i :: 0 <= i < |prods| ==> ProductResolvable(g, prods[i])
  {
    if |prods| == 0 then (keep, 0)
    else
      var n := |prods| - 1;
      var (k1, c1) := InitialKeep(g, keep, prods[..n], keepAllGen, noCompression);
      var cleared := k1[prods[n].pid := {}];
      if keepAllGen || noCompression then
        var (k2, c2) := KeepProduct(g, cleared, prods[n], prods[n].sims, noCompression);
        (k2, c1 + c2)
      else (cleared, c1)
  }

  /** A collection's loop counts its `GenParticle`s, keeps those particles
      (every particle, without compression) and only touches its own set. */
  lemma {:induction false} KeepProductSpec(g: Genealogy, keep: KeepSets, prod: SimProduct, sims: seq<SimRecord>,
                                           noCompression: bool)
    requires WellFormed(g) && ProductResolvable(g, prod) && sims <= prod.sims
    ensures var (k, c) := KeepProduct(g, keep, prod, sims, noCompression);
      && c == GenCount(sims)
      && (forall i :: 0 <= i < |sims| && (sims[i].hasGen || noCompression) ==>
            SimPtr(prod.pid, sims[i].key) in KeptIn(k, prod.pid))
      && (forall pid :: pid != prod.pid ==> KeptIn(k, pid) == KeptIn(keep, pid))
      && KeptIn(keep, prod.pid) <= KeptIn(k, prod.pid)
  {
    if |sims| > 0 {
      var n := |sims| - 1;
      assert sims[..n] <= prod.sims;
      KeepProductSpec(g, keep, prod, sims[..n], noCompression);
      var (k1, c1) := KeepProduct(g, keep, prod, sims[..n], noCompression);
      var p := SimPtr(prod.pid, sims[n].key);
      assert sims[n] == prod.sims[n];
      var k2 := if sims[n].hasGen then KeepChain(k1, g, p) else k1;
      KeepChainGrows(k1, g, p);
      KeepChainGrows(k2, g, p);
      assert forall i :: 0 <= i < n ==> sims[..n][i] == sims[i];
    }
  }

  /** The sum of `GenCount` over the collections. */
  function TotalGenCount(prods: seq<SimProduct>): nat
  {
    if |prods| == 0 then 0 else TotalGenCount(prods[..|prods| - 1]) + GenCount(prods[|prods| - 1].sims)
  }

  /** `n_gen_particles_to_keep` counts every `GenParticle` when they are all
      kept or compression is off, and is zero otherwise. */
  lemma {:induction false} InitialKeepCount(g: Genealogy, keep: KeepSets, prods: seq<SimProduct>,
                                            keepAllGen: bool, noCompression: bool)
    requires WellFormed(g) && forall i :: 0 <= i < |prods| ==> ProductResolvable(g, prods[i])
    ensures InitialKeep(g, keep, prods, keepAllGen, noCompression).1
         == if keepAllGen || noCompression then TotalGenCount(prods) else 0
  {
    if |prods| > 0 {
      var n := |prods| - 1;
      InitialKeepCount(g, keep, prods[..n], keepAllGen, noCompression);
      if keepAllGen || noCompression {
        var cleared := InitialKeep(g, keep, prods[..n], keepAllGen, noCompression).0[prods[n].pid := {}];
        KeepProductSpec(g, cleared, prods[n], prods[n].sims, noCompression);
      }
    }
  }

  /** The last collection's set is refilled by its own loop: it contains its
      particles with a `GenParticle` (all of them without compression), and
      when neither option is set it is empty. */
  lemma InitialKeepLast(g: Genealogy, keep: KeepSets, prods: seq<SimProduct>, keepAllGen: bool, noCompression: bool)
    requires WellFormed(g) && forall i :: 0 <= i < |prods| ==> ProductResolvable(g, prods[i])
    requires |prods| > 0
    ensures var k := InitialKeep(g, keep, prods, keepAllGen, noCompression).0;
      var last := prods[|prods| - 1];
      && (forall i :: 0 <= i < |last.sims| && ((last.sims[i].hasGen && keepAllGen) || noCompression) ==>
            SimPtr(last.pid, last.sims[i].key) in KeptIn(k, last.pid))
      && (!keepAllGen && !noCompression ==> KeptIn(k, last.pid) == {})
  {
    var n := |prods| - 1;
    if keepAllGen || noCompression {
      var cleared := InitialKeep(g, keep, prods[..n], keepAllGen, noCompression).0[prods[n].pid := {}];
      KeepProductSpec(g, cleared, prods[n], prods[n].sims, noCompression);
    }
  }

  // ---------------------------------------------------------------------------
  // Remapping onto the new SimParticle collection

  /** The SimParticle remapping: every kept particle of every listed
      collection goes to the new collection under its old key, or under
      `newKey` when rekeying (`newKey` stands for the key map that
      `compressSimParticleCollection` fills). */
  function BuildRemap(keep: KeepSets, pids: seq<nat>, newPid: nat, rekey: bool, newKey: SimPtr -> nat)
    : (remap: map<SimPtr, SimPtr>)
    ensures forall p :: p in remap ==> remap[p] == SimPtr(newPid, if rekey then newKey(p) else p.key)
  {
    if |pids| == 0 then map[]
    else
      BuildRemap(keep, pids[..|pids| - 1], newPid, rekey, newKey)
        + map p | p in KeptIn(keep, pids[|pids| - 1]) :: SimPtr(newPid, if rekey then newKey(p) else p.key)
  }

  /** The particles kept under any of the listed collections. */
  function KeptUnder(keep: KeepSets, pids: seq<nat>): set<SimPtr>
  {
    if |pids| == 0 then {} else KeptUnder(keep, pids[..|pids| - 1]) + KeptIn(keep, pids[|pids| - 1])
  }

  /** The remapping is defined on exactly the kept particles. */
  lemma {:induction false} BuildRemapKeys(keep: KeepSets, pids: seq<nat>, newPid: nat, rekey: bool, newKey: SimPtr -> nat)
    ensures BuildRemap(keep, pids, newPid, rekey, newKey).Keys == KeptUnder(keep, pids)
    ensures forall i :: 0 <= i < |pids| ==> KeptIn(keep, pids[i]) <= KeptUnder(keep, pids)
  {
    if |pids| > 0 {
      var n := |pids| - 1;
      BuildRemapKeys(keep, pids[..n], newPid, rekey, newKey);
      assert forall i :: 0 <= i < n ==> pids[..n][i] == pids[i];
    }
  }

  /** `keep_size`: the sizes of the listed collections' sets, added up. */
  function KeepSize(keep: KeepSets, pids: seq<nat>): nat
  {
    if |pids| == 0 then 0 else KeepSize(keep, pids[..|pids| - 1]) + |KeptIn(keep, pids[|pids| - 1])|
  }

  /** With distinct collections whose sets hold only their own particles,
      `keep_size` is the number of kept particles ... */
  lemma {:induction false} KeepSizeIsKeptSize(keep: KeepSets, pids: seq<nat>)
    requires forall i, j :: 0 <= i < j < |pids| ==> pids[i] != pids[j]
    requires forall i :: 0 <= i < |pids| ==> forall p :: p in KeptIn(keep, pids[i]) ==> p.pid == pids[i]
    ensures KeepSize(keep, pids) == |KeptUnder(keep, pids)|
  {
    if |pids| > 0 {
      var n := |pids| - 1;
      KeepSizeIsKeptSize(keep, pids[..n]);
      KeptUnderPids(keep, pids[..n]);
      assert KeptUnder(keep, pids[..n]) * KeptIn(keep, pids[n]) == {};
    }
  }

  /** ... and so the number of remapped particles. */
  lemma KeepSizeIsRemapSize(keep: KeepSets, pids: seq<nat>, newPid: nat, rekey: bool, newKey: SimPtr -> nat)
    requires forall i, j :: 0 <= i < j < |pids| ==> pids[i] != pids[j]
    requires forall i :: 0 <= i < |pids| ==> forall p :: p in KeptIn(keep, pids[i]) ==> p.pid == pids[i]
    ensures KeepSize(keep, pids) == |BuildRemap(keep, pids, newPid, rekey, newKey)|
  {
    KeepSizeIsKeptSize(keep, pids);
    BuildRemapKeys(keep, pids, newPid, rekey, newKey);
    assert |BuildRemap(keep, pids, newPid, rekey, newKey)| == |BuildRemap(keep, pids, newPid, rekey, newKey).Keys|;
  }

  /** A one-to-one map has as many values as keys. */
  lemma {:induction false} InjectiveValues<K, V>(m: map<K, V>)
    requires forall a, b :: a in m && b in m && a != b ==> m[a] != m[b]
    ensures |m.Values| == |m.Keys|
    decreases |m.Keys|
  {
    if |m.Keys| > 0 {
      var k :| k in m;
      var m' := m - {k};
      assert m'.Keys == m.Keys - {k};
      InjectiveValues(m');
      forall v | v in m.Values
        ensures v in m'.Values + {m[k]}
      {
        var j :| j in m && m[j] == v;
        if j != k {
          assert j in m' && m'[j] == v;
        }
      }
      forall v | v in m'.Values
        ensures v in m.Values
      {
        var j :| j in m' && m'[j] == v;
        assert j in m && m[j] == v;
      }
      assert m.Values == m'.Values + {m[k]};
    }
  }

  /** The SimParticle check compares `keep_size` with the number of particles
      written, which is the size of the remapping's image.  When rekeying
      with a key map that is one-to-one on the kept particles, the image is
      as large as the domain, so with the conditions above the check passes. */
  lemma RekeyedRemapImage(keep: KeepSets, pids: seq<nat>, newPid: nat, newKey: SimPtr -> nat)
    requires forall p, q :: p in KeptUnder(keep, pids) && q in KeptUnder(keep, pids) && p != q ==> newKey(p) != newKey(q)
    ensures |BuildRemap(keep, pids, newPid, true, newKey).Values| == |KeptUnder(keep, pids)|
  {
    var m := BuildRemap(keep, pids, newPid, true, newKey);
    BuildRemapKeys(keep, pids, newPid, true, newKey);
    InjectiveValues(m);
    assert |m.Keys| == |KeptUnder(keep, pids)|;
  }

  /** Two collections, 1 and 2, each keeping its particle with key 5. */
  const CollidingKeep: KeepSets := map[1 := {SimPtr(1, 5)}, 2 := {SimPtr(2, 5)}]

  lemma CollidingRemap()
    ensures BuildRemap(CollidingKeep, [1, 2], 9, false, (p: SimPtr) => p.key)
         == map[SimPtr(1, 5) := SimPtr(9, 5), SimPtr(2, 5) := SimPtr(9, 5)]
  {
    var key := (p: SimPtr) => p.key;
    var a, b := SimPtr(1, 5), SimPtr(2, 5);
    assert [1, 2][..1] == [1] && [1][..0] == [];
    assert KeptIn(CollidingKeep, 1) == {a} && KeptIn(CollidingKeep, 2) == {b};
    var r1 := BuildRemap(CollidingKeep, [1], 9, false, key);
    assert r1 == map[a := SimPtr(9, 5)] by {
      assert r1 == BuildRemap(CollidingKeep, [], 9, false, key) + map p | p in {a} :: SimPtr(9, p.key);
    }
    assert BuildRemap(CollidingKeep, [1, 2], 9, false, key) == r1 + map p | p in {b} :: SimPtr(9, p.key);
  }

  lemma CollidingKeepSize()
    ensures KeepSize(CollidingKeep, [1, 2]) == 2
  {
    assert [1, 2][..1] == [1] && [1][..0] == [];
    assert KeptIn(CollidingKeep, 1) == {SimPtr(1, 5)} && KeptIn(CollidingKeep, 2) == {SimPtr(2, 5)};
  }

  /** Without rekeying, particles keep their old keys, so two collections
      that each keep a particle with the same key land on one new particle:
      the image is smaller than `keep_size` and the SimParticle check fails. */
  lemma UnrekeyedRemapCollision()
    ensures var remap := BuildRemap(CollidingKeep, [1, 2], 9, false, (p: SimPtr) => p.key);
      && KeepSize(CollidingKeep, [1, 2]) == 2
      && |remap| == 2
      && remap.Values == {SimPtr(9, 5)}
      && |remap.Values| < KeepSize(CollidingKeep, [1, 2])
  {
    CollidingRemap();
    CollidingKeepSize();
    var remap := BuildRemap(CollidingKeep, [1, 2], 9, false, (p: SimPtr) => p.key);
    assert remap.Keys == {SimPtr(1, 5), SimPtr(2, 5)};
    assert remap.Values == {SimPtr(9, 5)};
  }

  lemma {:induction false} KeptUnderPids(keep: KeepSets, pids: seq<nat>)
    requires forall i :: 0 <= i < |pids| ==> forall p :: p in KeptIn(keep, pids[i]) ==> p.pid == pids[i]
    ensures forall p :: p in KeptUnder(keep, pids) ==> p.pid in pids
  {
    if |pids| > 0 {
      var n := |pids| - 1;
      KeptUnderPids(keep, pids[..n]);
    }
  }

  /** The check against the size of the new SimParticle collection. */
  function CheckSimCount(keep: KeepSets, pids: seq<nat>, written: nat): (r: Outcome<CompressError>)
    ensures r.Fail? <==> KeepSize(keep, pids) != written
    ensures r.Fail? ==> r.error == SimParticleCountMismatch(KeepSize(keep, pids), written)
  {
    Check(KeepSize(keep, pids) == written, SimParticleCountMismatch(KeepSize(keep, pids), written))
  }

  /** `remap.at` over the new steps' particles: a particle without an entry
      is an error. */
  function RemapSteps(steps: seq<Step>, remap: map<SimPtr, SimPtr>): (r: Result<seq<Step>, CompressError>)
    ensures r.Ok? <==> forall i :: 0 <= i < |steps| ==> steps[i].sim in remap
    ensures r.Ok? ==> |r.value| == |steps|
    ensures r.Ok? ==> forall i :: 0 <= i < |steps| ==> r.value[i] == steps[i].(sim := remap[steps[i].sim])
  {
    if |steps| == 0 then Ok([])
    else
      var n := |steps| - 1;
      match RemapSteps(steps[..n], remap)
      case Err(e) =>
        assert !(steps[..n][n - 1].sim in remap) || exists i :: 0 <= i < n && steps[..n][i].sim !in remap;
        Err(e)
      case Ok(prefix) =>
        assert forall i :: 0 <= i < n ==> steps[..n][i] == steps[i];
        if steps[n].sim in remap then Ok(prefix + [steps[n].(sim := remap[steps[n].sim])])
        else Err(MissingRemap(steps[n].sim))
  }

  /** Every step copied this event can be remapped, provided the collection
      each copied particle came from is among the listed ones. */
  lemma StepsRemapDefined(st: State, pids: seq<nat>, newPid: nat, rekey: bool, newKey: SimPtr -> nat)
    requires StepsKept(st)
    requires forall i :: 0 <= i < |st.newGasSteps| ==> st.newGasSteps[i].sim.pid in pids
    requires forall i :: 0 <= i < |st.newCrvSteps| ==> st.newCrvSteps[i].sim.pid in pids
    ensures RemapSteps(st.newGasSteps, BuildRemap(st.keep, pids, newPid, rekey, newKey)).Ok?
    ensures RemapSteps(st.newCrvSteps, BuildRemap(st.keep, pids, newPid, rekey, newKey)).Ok?
  {
    BuildRemapKeys(st.keep, pids, newPid, rekey, newKey);
    forall i | 0 <= i < |st.newGasSteps|
      ensures st.newGasSteps[i].sim in BuildRemap(st.keep, pids, newPid, rekey, newKey)
    {
      var k :| 0 <= k < |pids| && pids[k] == st.newGasSteps[i].sim.pid;
    }
    forall i | 0 <= i < |st.newCrvSteps|
      ensures st.newCrvSteps[i].sim in BuildRemap(st.keep, pids, newPid, rekey, newKey)
    {
      var k :| 0 <= k < |pids| && pids[k] == st.newCrvSteps[i].sim.pid;
    }
  }

  /** The particle of a CRV digi: null stays null, anything else goes
      through `remap.at`. */
  function RemapDigiSim(sim: Option<SimPtr>, remap: map<SimPtr, SimPtr>): (r: Result<Option<SimPtr>, CompressError>)
    ensures sim.None? ==> r == Ok(None)
    ensures sim.Some? && sim.value in remap ==> r == Ok(Some(remap[sim.value]))
    ensures sim.Some? && sim.value !in remap ==> r == Err(MissingRemap(sim.value))
  {
    match sim
    case None => Ok(None)
    case Some(p) => if p in remap then Ok(Some(remap[p])) else Err(MissingRemap(p))
  }

  /** The CRV-digi update loop. */
  function RemapCrvDigis(digis: seq<CrvDigiMC>, remap: map<SimPtr, SimPtr>): (r: Result<seq<CrvDigiMC>, CompressError>)
  {
    if |digis| == 0 then Ok([])
    else
      var n := |digis| - 1;
      var prefix :- RemapCrvDigis(digis[..n], remap);
      var sim :- RemapDigiSim(digis[n].sim, remap);
      Ok(prefix + [digis[n].(sim := sim)])
  }

  /** The update succeeds exactly when every non-null particle has an
      entry; it then changes only the particles. */
  lemma {:induction false} RemapCrvDigisSpec(digis: seq<CrvDigiMC>, remap: map<SimPtr, SimPtr>)
    ensures RemapCrvDigis(digis, remap).Ok? <==>
      forall i :: 0 <= i < |digis| && digis[i].sim.Some? ==> digis[i].sim.value in remap
    ensures RemapCrvDigis(digis, remap).Ok? ==>
      var out := RemapCrvDigis(digis, remap).value;
      && |out| == |digis|
      && forall i :: 0 <= i < |digis| ==>
           && out[i].steps == digis[i].steps && out[i].data == digis[i].data
           && out[i].sim == (if digis[i].sim.Some? then Some(remap[digis[i].sim.value]) else None)
  {
    if |digis| > 0 {
      var n := |digis| - 1;
      RemapCrvDigisSpec(digis[..n], remap);
      assert forall i :: 0 <= i < n ==> digis[..n][i] == digis[i];
    }
  }

  /** Moving a map keyed by old particles onto the new ones.  Entries whose
      particle was not kept are dropped; when two entries land on the same
      new particle, `overwrite` chooses between the later one (`map[k] = v`,
      the time maps) and the earlier one (`insert`, the trajectories).
      `entries` are the source map's pairs in its (key) iteration order, so
      "later" and "earlier" refer to that order. */
  function Reindex<V>(entries: seq<(SimPtr, V)>, remap: map<SimPtr, SimPtr>, overwrite: bool): map<SimPtr, V>
  {
    if |entries| == 0 then map[]
    else
      var n := |entries| - 1;
      var acc := Reindex(entries[..n], remap, overwrite);
      var k := entries[n].0;
      if k in remap && (overwrite || remap[k] !in acc) then acc[remap[k] := entries[n].1] else acc
  }

  /** The time-map update (`map[k] = v`). */
  function RemapTimeMap(entries: seq<(SimPtr, real)>, remap: map<SimPtr, SimPtr>): map<SimPtr, real>
  {
    Reindex(entries, remap, true)
  }

  /** The trajectory update (`insert`). */
  function RemapTrajectories<T>(entries: seq<(SimPtr, T)>, remap: map<SimPtr, SimPtr>): map<SimPtr, T>
  {
    Reindex(entries, remap, false)
  }

  /** The new keys are the images of the kept old keys. */
  lemma {:induction false} ReindexKeys<V>(entries: seq<(SimPtr, V)>, remap: map<SimPtr, SimPtr>, overwrite: bool)
    ensures Reindex(entries, remap, overwrite).Keys
         == set j | 0 <= j < |entries| && entries[j].0 in remap :: remap[entries[j].0]
  {
    if |entries| > 0 {
      var n := |entries| - 1;
      ReindexKeys(entries[..n], remap, overwrite);
      assert forall j :: 0 <= j < n ==> entries[..n][j] == entries[j];
    }
  }

  /** Every value of `m` comes from an entry whose particle maps to its key. */
  ghost predicate FromEntries<V>(entries: seq<(SimPtr, V)>, remap: map<SimPtr, SimPtr>, m: map<SimPtr, V>)
  {
    forall q :: q in m ==>
      exists j :: 0 <= j < |entries| && entries[j].0 in remap && remap[entries[j].0] == q && m[q] == entries[j].1
  }

  lemma {:induction false} ReindexValues<V>(entries: seq<(SimPtr, V)>, remap: map<SimPtr, SimPtr>, overwrite: bool)
    ensures FromEntries(entries, remap, Reindex(entries, remap, overwrite))
  {
    if |entries| > 0 {
      var n := |entries| - 1;
      var prefix := entries[..n];
      ReindexValues(prefix, remap, overwrite);
      var m := Reindex(entries, remap, overwrite);
      var acc := Reindex(prefix, remap, overwrite);
      forall q | q in m
        ensures exists j :: 0 <= j < |entries| && entries[j].0 in remap && remap[entries[j].0] == q
                            && m[q] == entries[j].1
      {
        if entries[n].0 in remap && remap[entries[n].0] == q && m[q] == entries[n].1 {
        } else {
          assert q in acc && m[q] == acc[q];
          var j :| 0 <= j < |prefix| && prefix[j].0 in remap && remap[prefix[j].0] == q && acc[q] == prefix[j].1;
          assert entries[j] == prefix[j];
        }
      }
    }
  }

  /** When the old keys are distinct and the remapping is one-to-one on
      them, nothing collides: each kept entry arrives unchanged, whichever
      way collisions would be resolved. */
  lemma {:induction false} ReindexExact<V>(entries: seq<(SimPtr, V)>, remap: map<SimPtr, SimPtr>, overwrite: bool)
    requires forall i, j :: 0 <= i < j < |entries| ==> entries[i].0 != entries[j].0
    requires forall p, q :: p in remap && q in remap && p != q ==> remap[p] != remap[q]
    ensures var m := Reindex(entries, remap, overwrite);
      forall j :: 0 <= j < |entries| && entries[j].0 in remap ==> remap[entries[j].0] in m && m[remap[entries[j].0]] == entries[j].1
  {
    if |entries| > 0 {
      var n := |entries| - 1;
      ReindexExact(entries[..n], remap, overwrite);
      ReindexKeys(entries[..n], remap, overwrite);
      assert forall j :: 0 <= j < n ==> entries[..n][j] == entries[j];
      var k := entries[n].0;
      if k in remap {
        assert remap[k] !in Reindex(entries[..n], remap, overwrite);
      }
    }
  }

  /** Collisions: with `overwrite` the last entry landing on a key wins,
      without it the first one does. */
  lemma {:induction false} ReindexCollision<V>(entries: seq<(SimPtr, V)>, remap: map<SimPtr, SimPtr>, overwrite: bool, j: nat)
    requires j < |entries| && entries[j].0 in remap
    ensures var m := Reindex(entries, remap, overwrite);
      var q := remap[entries[j].0];
      && q in m
      && ((overwrite && forall i :: j < i < |entries| && entries[i].0 in remap ==> remap[entries[i].0] != q) ==>
            m[q] == entries[j].1)
      && ((!overwrite && forall i :: 0 <= i < j && entries[i].0 in remap ==> remap[entries[i].0] != q) ==>
            m[q] == entries[j].1)
  {
    var n := |entries| - 1;
    var q := remap[entries[j].0];
    ReindexKeys(entries, remap, overwrite);
    assert q in Reindex(entries, remap, overwrite);
    assert forall i :: 0 <= i < n ==> entries[..n][i] == entries[i];
    if j < n {
      ReindexCollision(entries[..n], remap, overwrite, j);
      ReindexKeys(entries[..n], remap, overwrite);
    } else if !overwrite {
      ReindexKeys(entries[..n], remap, overwrite);
      if q in Reindex(entries[..n], remap, overwrite) {
        var i :| 0 <= i < n && entries[..n][i].0 in remap && remap[entries[..n][i].0] == q;
        assert entries[i] == entries[..n][i];
        if (forall i :: 0 <= i < j && entries[i].0 in remap ==> remap[entries[i].0] != q) {
          assert false;
        }
      }
    }
  }

  // ---------------------------------------------------------------------------
  // GenParticles

  /** The `GenParticle` loop over the new SimParticles: each non-null
      `GenParticle` is appended to the new collection and the particle's
      pointer becomes its index there. */
  function RelinkGens<G>(gens: seq<Option<G>>): (res: (seq<G>, seq<Option<nat>>))
    ensures |res.1| == |gens|
  {
    if |gens| == 0 then ([], [])
    else
      var n := |gens| - 1;
      var (newGens, links) := RelinkGens(gens[..n]);
      match gens[n]
      case None => (newGens, links + [None])
      case Some(gp) => (newGens + [gp], links + [Some(|newGens|)])
  }

  /** The number of non-null entries. */
  function CountSome<G>(gens: seq<Option<G>>): nat
  {
    if |gens| == 0 then 0 else CountSome(gens[..|gens| - 1]) + (if gens[|gens| - 1].Some? then 1 else 0)
  }

  /** Relinking copies each `GenParticle` once, in order, and every new
      pointer resolves to the particle's old `GenParticle`. */
  lemma {:induction false} RelinkGensSpec<G>(gens: seq<Option<G>>)
    ensures var (newGens, links) := RelinkGens(gens);
      && |newGens| == CountSome(gens)
      && (forall i :: 0 <= i < |gens| ==> (links[i].Some? <==> gens[i].Some?))
      && (forall i :: 0 <= i < |gens| && gens[i].Some? ==>
            links[i].value < |newGens| && newGens[links[i].value] == gens[i].value)
      && (forall i, j :: 0 <= i < j < |gens| && links[i].Some? && links[j].Some? ==> links[i].value < links[j].value)
  {
    if |gens| > 0 {
      var n := |gens| - 1;
      RelinkGensSpec(gens[..n]);
      assert forall i :: 0 <= i < n ==> gens[..n][i] == gens[i];
    }
  }

  /** The check on the new `GenParticle` count, made only when every
      `GenParticle` was meant to be kept. */
  function CheckGenCount(keepAllGen: bool, noCompression: bool, written: nat, wanted: nat): (r: Outcome<CompressError>)
    ensures r.Fail? <==> (keepAllGen || noCompression) && written != wanted
    ensures r.Fail? ==> r.error == GenParticleCountMismatch(wanted, written)
  {
    Check(!((keepAllGen || noCompression) && written != wanted), GenParticleCountMismatch(wanted, written))
  }
}
