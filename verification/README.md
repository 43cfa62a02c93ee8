# Mu2e background-hit flagging and neighbouring cores, modelled in Dafny

This project models, as pure Dafny functions and methods, the event logic of
the Mu2e tracker's background-hit flagging stage (`FlagBkgHits`), and proves
what that logic promises. It also models five smaller pieces of the same
repository: Monte-Carlo truth compression (`CompressDigiMCs`), the
time-cluster trigger filter (`TimeClusterFilter`), the persistable product
index (`DPIndex`), the Geant4 gamma-daughter kill process
(`Mu2eGammaDaughterProcess`) and the track t0 arithmetic
(`TrkTimeCalculator`).

Files and modules:

- `results.dfy` (`Results`) holds `Option`, `Result` and `Outcome`, which model the source's exceptions as values.
- `hit_flags.dfy` (`HitFlags`) models a `StrawHitFlag` as a set of bits. Merge is union, `hasAllProperties` is subset and `hasAnyProperty` is a non-empty intersection.
- `bkg_qual.dfy` (`BkgQuality`) covers `countHits`, `countPlanes` and `fillBkgQual`:
  - the counts;
  - the plane histogram and its span;
  - the sorted z summary and its largest gap;
  - the status steps from unset to filled to calculated.
- `flag_bkg_hits.dfy` (`FlagBkgHits`) covers the clusterer selector, the per-cluster flag, flag assignment to combo hits, the filtered hit collection, straw-hit flag propagation and `produce` as a whole.
- `compress_digi_mcs.dfy` (`CompressDigiMCs`) covers:
  - `keepSimParticle`;
  - straw and CRV digi copying with step de-duplication;
  - digi selection and the count checks;
  - the initial keep sets;
  - the SimParticle remapping of steps, time maps, trajectories and CRV digis;
  - GenParticle relinking.
- `time_cluster_filter.dfy` (`TimeClusterFilter`) models `filter` together with its 32-bit counters.
- `dp_index.dfy` (`DataProductIndex`) models the `DPIndex` constructors and comparisons.
- `gamma_daughter_process.dfy` (`GammaDaughterProcess`) models the accept/kill state machine.
- `trk_time_calculator.dfy` (`TrkTimeCalculator`) models the time offsets and time estimates, using real arithmetic.

Inputs that come from code outside the model are parameters:

- The cluster list: the clusterers are only dispatched, not shown.
- The classifier (`classifier: seq<real> -> real`).
- The weighted radial and temporal statistics (`stats`).
- The freshly constructed `BkgQual` (`q0`).
- The straw-hit references of every combo hit (`shids`).
- The SimParticle genealogy, with a depth map that witnesses it is acyclic.
- The key map produced by `compressSimParticleCollection` (`newKey`).
- `minDaughterEnergy_`.
- The fit direction's `dzdt`.

Where the module's documented intent and its code differ, the model follows the code:

- A cluster is isolated when its size is at most `MaxIsolated` (`<=`), not strictly below it.
- The `bkg` bit is set whenever the classifier output exceeds the cut, whatever the MVA status. For an unscored cluster, the descriptor's initial output value is compared with the cut.
- Each cluster assigns its flag to its hits' entries rather than merging it. When clusters share a hit, the last cluster decides that hit's flag. Only afterwards are the original flags merged in.
- The filter tests the cluster flag alone against the mask, not the merged flag.

## Model

| member | source | states |
|---|---|---|
| BkgQuality.CountHits | TrkHitReco/src/FlagBkgHits_module.cc:378-390 | nactive is the multiplicity summed over active members, nstereo the same over active-and-stereo members, so nstereo <= nactive |
| BkgQuality.StereoWithinActive | TrkHitReco/src/FlagBkgHits_module.cc:383-388 | the stereo sum never exceeds the active sum, for every cluster |
| BkgQuality.PlaneHistogram | TrkHitReco/src/FlagBkgHits_module.cc:347-355 | the multiplicity histogram has one bin per tracker plane (36) |
| BkgQuality.HistogramTotal | TrkHitReco/src/FlagBkgHits_module.cc:347-355 | the histogram's total equals the active multiplicity: no active hit is lost or double-counted |
| BkgQuality.FindSpan | TrkHitReco/src/FlagBkgHits_module.cc:357-360 | when some plane is occupied, the two scans stop at the first and the last occupied plane, with every plane outside them empty |
| BkgQuality.CountSpan | TrkHitReco/src/FlagBkgHits_module.cc:362-371 | over a span, npexp is its width, np the number of occupied planes (between 1 and npexp) and nphits the whole histogram's total |
| BkgQuality.CountPlanes | TrkHitReco/src/FlagBkgHits_module.cc:345-376 | with some active multiplicity, ipmin/ipmax are the first and last occupied planes, npexp = ipmax-ipmin+1, np is the number of occupied planes with 1 <= np <= npexp, and the range total is the whole active multiplicity |
| BkgQuality.SortReals | TrkHitReco/src/FlagBkgHits_module.cc:298 | the sorted z list is ascending and a permutation of the input |
| BkgQuality.SortedExtremes | TrkHitReco/src/FlagBkgHits_module.cc:297-300 | the front of the sorted list is the minimum and the back the maximum of the z values |
| BkgQuality.MaxGap | TrkHitReco/src/FlagBkgHits_module.cc:302-306 | the gap is non-negative, bounds every consecutive difference, equals one of them on a sorted list of two or more, and is at most last minus first |
| BkgQuality.ZStatistics | TrkHitReco/src/FlagBkgHits_module.cc:297-306 | zmin and zmax are the least and greatest z, 0 <= zgap <= zmax-zmin, and zgap is the largest consecutive difference of the sorted list |
| BkgQuality.FillBkgQual | TrkHitReco/src/FlagBkgHits_module.cc:254-343 | early reject leaves the descriptor untouched and unset; otherwise nhits, sfrac, crho and the plane fields are set; a sparse cluster gets -1 in all six spread and z fields and stays unset; a dense one gets the statistics and z summary, status filled, and calculated with the classifier's output exactly when the MVA is enabled |
| BkgQuality.FillSpreads | TrkHitReco/src/FlagBkgHits_module.cc:267-333 | past the plane test the count fields are kept, the spreads come from the statistics, the z fields summarise the active z list, and the status/output follow the MVA switch |
| FlagBkgHits.SelectClusterer | TrkHitReco/src/FlagBkgHits_module.cc:128-141 | selector values 1, 2, 3 choose the three clusterers and every other value is an "unknown clusterer" error |
| FlagBkgHits.SelectClustererRoundTrip | TrkHitReco/src/FlagBkgHits_module.cc:128-141 | selecting by a clusterer's own configuration value returns that clusterer |
| FlagBkgHits.ClusterFlag | TrkHitReco/src/FlagBkgHits_module.cc:189-197 | the flag always holds bkgclust, holds isolated iff size <= MaxIsolated, holds bkg iff the classifier output exceeds the cut, and nothing else |
| FlagBkgHits.SavedCluster | TrkHitReco/src/FlagBkgHits_module.cc:190-197 | a saved cluster keeps its members and position and gains iso/bkg exactly on the same tests, only when saving is on |
| FlagBkgHits.StampSpec | TrkHitReco/src/FlagBkgHits_module.cc:198-199 | assigning a cluster's flag replaces the entry of every member hit and leaves every other entry alone |
| FlagBkgHits.LastClusterWins | TrkHitReco/src/FlagBkgHits_module.cc:181-201 | a hit in no cluster keeps the empty flag; otherwise its flag is that of the last cluster containing it |
| FlagBkgHits.KeptIndicesSpec | TrkHitReco/src/FlagBkgHits_module.cc:208-214 | the kept indices are strictly ascending and are exactly the hits whose cluster flag has no bit of the mask |
| FlagBkgHits.FilterHitsSpec | TrkHitReco/src/FlagBkgHits_module.cc:203-214 | the filtered collection is the kept hits in input order, each with its cluster flag merged into its own |
| FlagBkgHits.FilteredFlagsGrow | TrkHitReco/src/FlagBkgHits_module.cc:211-212 | every filtered hit keeps all bits of some input hit's flag |
| FlagBkgHits.MergeIntoSpec | TrkHitReco/src/FlagBkgHits_module.cc:237-238 | merging into straw hits succeeds iff every index is in range (`at`), and then each entry gains the flag exactly when listed |
| FlagBkgHits.MergeDownSpec | TrkHitReco/src/FlagBkgHits_module.cc:232-239 | pushing cluster flags down succeeds iff every straw-hit reference is in range, and each straw hit then gains exactly the union of its referencing combo hits' flags |
| FlagBkgHits.StrawHitFlagsSpec | TrkHitReco/src/FlagBkgHits_module.cc:217-241 | a straw/combo size mismatch is an error before anything else; otherwise each straw-hit flag is its original flag united with every referencing cluster flag, so no bit is cleared |
| FlagBkgHits.ComboFlags | TrkHitReco/src/FlagBkgHits_module.cc:242-247 | each combo-hit output flag is exactly the union of its cluster flag and its original flag |
| FlagBkgHits.EvaluateClusters | TrkHitReco/src/FlagBkgHits_module.cc:186-188 | every cluster's descriptor is what fillBkgQual leaves for it |
| FlagBkgHits.ClassifyClusters | TrkHitReco/src/FlagBkgHits_module.cc:186-201 | the cluster loop fills one descriptor, one flag and one saved cluster per cluster, and the combo-hit flags are the last-cluster-wins assignment |
| FlagBkgHits.Produce | TrkHitReco/src/FlagBkgHits_module.cc:168-252 | the event fails only on the straw-hit size/range errors when straw-hit flagging is on; otherwise each requested product is present and equals its reference definition, and each unrequested one is absent |
| CompressDigiMCs.ChainClosed | Compression/src/CompressDigiMCs_module.cc:908-920 | a particle's chain contains it and is closed under the parent link |
| CompressDigiMCs.ChainSmallest | Compression/src/CompressDigiMCs_module.cc:908-920 | the chain is contained in every parent-closed set holding the particle: only ancestors are kept |
| CompressDigiMCs.KeepSimParticle | Compression/src/CompressDigiMCs_module.cc:908-920 | the parent walk adds exactly the particle's chain to its product's set; sets only grow and other products' sets are unchanged |
| CompressDigiMCs.CopyGasStep | Compression/src/CompressDigiMCs_module.cc:888-896 | a step copy appends exactly the old step, returns a pointer to the new entry and keeps the step's particle |
| CompressDigiMCs.CopyStrawDigi | Compression/src/CompressDigiMCs_module.cc:738-762 | exactly one digi is appended; an available end points to a copy of its step, an unavailable end is kept as is, and an end shared by both sides is copied once |
| CompressDigiMCs.CopyCrvStep | Compression/src/CompressDigiMCs_module.cc:768-781 | an available step gets a map entry that is the returned pointer; an unavailable one passes through; earlier entries and other collections are untouched |
| CompressDigiMCs.CopyCrvStepMapOk | Compression/src/CompressDigiMCs_module.cc:770-777 | one step keeps the CRV step map a one-to-one correspondence between seen steps and new-step entries holding their copies |
| CompressDigiMCs.CopyCrvStepsFrame | Compression/src/CompressDigiMCs_module.cc:767-782 | a digi's step loop adds exactly its available steps to the seen set and never changes an existing mapping |
| CompressDigiMCs.CopyCrvStepsKept | Compression/src/CompressDigiMCs_module.cc:898-906 | every copied CRV step's particle is in the kept set of its product |
| CompressDigiMCs.CopyCrvStepsMapOk | Compression/src/CompressDigiMCs_module.cc:767-782 | the step loop preserves the one-to-one map between seen steps and their copies |
| CompressDigiMCs.CopyCrvStepsPointers | Compression/src/CompressDigiMCs_module.cc:767-782 | each available step's new pointer is its map entry, so repeated references reuse one copy; unavailable pointers pass through unchanged |
| CompressDigiMCs.CopyCrvDigi | Compression/src/CompressDigiMCs_module.cc:764-788 | one digi is appended with the same particle, payload and step count, its steps re-pointed as above |
| CompressDigiMCs.SelectedIndicesSpec | Compression/src/CompressDigiMCs_module.cc:421-431 | digi i is copied iff there is no index map, i is in the map, or compression is off; selected indices are ascending |
| CompressDigiMCs.SelectedIndicesAll | Compression/src/CompressDigiMCs_module.cc:421-431 | with no index map or with compression off every digi is copied |
| CompressDigiMCs.CopyStrawDigisSpec | Compression/src/CompressDigiMCs_module.cc:421-431 | the new straw digis are the earlier ones followed by one copy of each selected digi, in input order, with its payload |
| CompressDigiMCs.CopyStrawDigisKept | Compression/src/CompressDigiMCs_module.cc:421-431 | the straw loop keeps every copied step's particle kept and leaves the CRV steps and step map alone |
| CompressDigiMCs.CopyCrvDigisKeys | Compression/src/CompressDigiMCs_module.cc:446-456 | over the CRV loop the seen set gains exactly the available steps of the selected digis |
| CompressDigiMCs.CopyCrvDigisFrame | Compression/src/CompressDigiMCs_module.cc:446-456 | the CRV loop leaves the straw digis and gas steps alone |
| CompressDigiMCs.CopyCrvDigisMapOk | Compression/src/CompressDigiMCs_module.cc:446-456 | over the CRV loop the step map stays one-to-one onto the new steps |
| CompressDigiMCs.CopyCrvDigisKept | Compression/src/CompressDigiMCs_module.cc:446-456 | over the CRV loop every new step's particle stays kept |
| CompressDigiMCs.CopyCrvDigisOrder | Compression/src/CompressDigiMCs_module.cc:446-456 | the new CRV digis are the earlier ones followed by one copy of each selected digi, in input order, with its particle, payload and step count |
| CompressDigiMCs.CrvStepsCopiedOnce | Compression/src/CompressDigiMCs_module.cc:440-456 | from the cleared map, the number of new CRV steps equals the number of distinct available steps referred to: each is copied exactly once per event |
| CompressDigiMCs.CheckDigiCount | Compression/src/CompressDigiMCs_module.cc:433-437 | the count check fails iff no map is used (or compression is off) and the counts differ |
| CompressDigiMCs.DigiCountChecksPass | Compression/src/CompressDigiMCs_module.cc:433-461 | both digi count checks always pass, and the outputs hold exactly the selected digis |
| CompressDigiMCs.KeepProductSpec | Compression/src/CompressDigiMCs_module.cc:349-361 | a collection's particle loop counts its GenParticles and keeps those particles (all, without compression), touching only its own set |
| CompressDigiMCs.InitialKeepCount | Compression/src/CompressDigiMCs_module.cc:342-362 | n_gen_particles_to_keep counts every gen-linked particle when keeping all GenParticles or not compressing, and is 0 otherwise |
| CompressDigiMCs.InitialKeepLast | Compression/src/CompressDigiMCs_module.cc:343-363 | after the loop the last collection's set holds its selected particles, and is empty when neither option is set |
| CompressDigiMCs.BuildRemap | Compression/src/CompressDigiMCs_module.cc:563-571 | every remapped particle goes into the new collection under its old key, or its new key when rekeying |
| CompressDigiMCs.BuildRemapKeys | Compression/src/CompressDigiMCs_module.cc:545-571 | the remapping is defined on exactly the particles kept under the listed collections |
| CompressDigiMCs.KeepSizeIsKeptSize | Compression/src/CompressDigiMCs_module.cc:545-553 | for distinct collections holding their own particles, keep_size equals the number of kept particles |
| CompressDigiMCs.KeepSizeIsRemapSize | Compression/src/CompressDigiMCs_module.cc:545-571 | for distinct collections whose sets hold only their own particles, keep_size equals the size of the remapping's domain. The SimParticle check compares it instead with the number of particles written, the remapping's image. The two agree only when the remapping is one-to-one. The own-particles hypothesis fails whenever a kept particle's ancestor belongs to another product, because `keepSimParticle` files ancestors under the starting particle's product |
| CompressDigiMCs.RekeyedRemapImage | Compression/src/CompressDigiMCs_module.cc:563-578 | when rekeying with a key map that is one-to-one on the kept particles, the remapping's image is as large as the set of kept particles |
| CompressDigiMCs.UnrekeyedRemapCollision | Compression/src/CompressDigiMCs_module.cc:563-578 | without rekeying, two collections that each keep a particle with key 5 map onto one new particle: the image (1) is smaller than keep_size (2), so the count check would fail |
| CompressDigiMCs.CheckSimCount | Compression/src/CompressDigiMCs_module.cc:573-578 | the SimParticle check fails iff keep_size differs from the new collection's size |
| CompressDigiMCs.RemapSteps | Compression/src/CompressDigiMCs_module.cc:620-632 | re-pointing steps succeeds iff every step's particle is remapped, and then changes only the particle |
| CompressDigiMCs.StepsRemapDefined | Compression/src/CompressDigiMCs_module.cc:620-632 | every step copied this event can be re-pointed: its particle was kept and so is remapped |
| CompressDigiMCs.RemapDigiSim | Compression/src/CompressDigiMCs_module.cc:652-663 | a null CRV digi particle stays null, a remapped one is replaced, a missing one is an error |
| CompressDigiMCs.RemapCrvDigisSpec | Compression/src/CompressDigiMCs_module.cc:652-663 | the CRV digi update succeeds iff every non-null particle is remapped, and changes nothing but the particles |
| CompressDigiMCs.ReindexKeys | Compression/src/CompressDigiMCs_module.cc:596-610 | the new time map's (and trajectory map's) keys are exactly the images of the old keys that are remapped |
| CompressDigiMCs.ReindexValues | Compression/src/CompressDigiMCs_module.cc:596-610 | every new value is an old entry's value whose particle maps to the new key: values are never altered |
| CompressDigiMCs.ReindexExact | Compression/src/CompressDigiMCs_module.cc:684-692 | with distinct old keys and a one-to-one remapping every kept entry arrives at its new key with its value |
| CompressDigiMCs.ReindexCollision | Compression/src/CompressDigiMCs_module.cc:604-608 | on a collision the time map keeps the last entry (assignment) and the trajectory map the first (insert) |
| CompressDigiMCs.RelinkGensSpec | Compression/src/CompressDigiMCs_module.cc:580-589 | each non-null GenParticle is copied once, in order, and its particle's new pointer resolves to a copy of the old one; null stays null |
| CompressDigiMCs.CheckGenCount | Compression/src/CompressDigiMCs_module.cc:590-592 | the GenParticle check fails iff all GenParticles were to be kept and the counts differ |
| TimeClusterFilter.Increment | TrkFilters/src/TimeClusterFilter_module.cc:54 | an unsigned counter increment wraps modulo 2^32 |
| TimeClusterFilter.PassingIndicesSpec | TrkFilters/src/TimeClusterFilter_module.cc:60-79 | the recorded indices are ascending, in range, and name exactly the passing clusters |
| TimeClusterFilter.Filter | TrkFilters/src/TimeClusterFilter_module.cc:51-82 | the event passes iff some cluster has the calorimeter cluster if required, enough hits and minTime < t0 < maxTime; the trigger record lists the passing clusters; nevt grows by 1 and npass by the number of passing clusters, modulo 2^32 |
| TimeClusterFilter.FilterRun | TrkFilters/src/TimeClusterFilter_module.cc:38-82 | from zero counters, after a run nevt is the number of events and npass the number of passing clusters, modulo 2^32 |
| TimeClusterFilter.PassCountCanExceedEventCount | TrkFilters/src/TimeClusterFilter_module.cc:54-69 | one event with two passing clusters leaves npass above nevt |
| DataProductIndex.Make | ToyDP/inc/DPIndex.hh:29-32 | the signed index is stored as unsigned: unchanged when non-negative, plus 2^32 when negative |
| DataProductIndex.MakeInjective | ToyDP/inc/DPIndex.hh:25-32 | distinct signed indices give distinct DPIndex values, and the default constructor equals the two-argument one with index 0 |
| DataProductIndex.EqualityLaws | ToyDP/inc/DPIndex.hh:39-47 | `==` holds iff both fields agree and `!=` is its negation |
| DataProductIndex.LtStrictTotal | ToyDP/inc/DPIndex.hh:50-54 | if the product id's `<` is a strict total order, DPIndex's lexicographic `<` is irreflexive, transitive and trichotomous |
| GammaDaughterProcess.IsApplicable | Mu2eG4/src/Mu2eGammaDaughterProcess.cc:32-40 | applicable iff the particle is gamma, e+ or e- |
| GammaDaughterProcess.PostStep | Mu2eG4/src/Mu2eGammaDaughterProcess.cc:42-85 | every step returns 0 or DBL_MAX; only track 1 changes the photon energy, which becomes the track energy iff it was negative or the track energy exceeds 1 |
| GammaDaughterProcess.PostStepVerdict | Mu2eG4/src/Mu2eGammaDaughterProcess.cc:42-90 | the step length undercuts the mean free path (DBL_MAX) iff a low-energy daughter also leaves the photon below threshold, which is also the only way to reach the kill verdict; passing daughters accept; a low-energy daughter that does not fail resets the verdict to 0, as does any track that is neither track 1 nor its daughter; track 1 resets it only when the photon energy is above threshold |
| GammaDaughterProcess.RunInvariant | Mu2eG4/src/Mu2eGammaDaughterProcess.cc:17-85 | from the constructed state the verdict is always -1, 0 or 1, and the photon energy is -1 or some track-1 energy |
| GammaDaughterProcess.NoKillBeforePhoton | Mu2eG4/src/Mu2eGammaDaughterProcess.cc:17-85 | before any track-1 step the photon energy stays -1 and no event is killed |
| TrkTimeCalculator.DirectionReversal | TrkReco/src/TrkTimeCalculator.cc:58-89 | reversing the fit direction negates the flight time and the disk offset, so the straw, combo and cluster estimates for the two directions average to the measured time less only the direction-independent drift correction |
| TrkTimeCalculator.DefaultCalibration | TrkReco/src/TrkTimeCalculator.cc:32-47 | with the configured defaults and downstream flight both disks have a real error below the no-disk value, disk 1's offset exceeds disk 0's, and combo hits are timed from the TOT-corrected time |
| TrkTimeCalculator.CaloClusterTimeOffset | TrkReco/src/TrkTimeCalculator.cc:62-67 | the offset is the disk's offset times dz/dt for disks 0 and 1 and 0 for any other id |
| TrkTimeCalculator.CaloClusterTimeErr | TrkReco/src/TrkTimeCalculator.cc:69-74 | the error is the disk's error for disks 0 and 1 and 1e10 for any other id |
| TrkTimeCalculator.TimesRoundTrip | TrkReco/src/TrkTimeCalculator.cc:76-89 | adding the flight time, drift time or disk offset back to an estimate gives the measured time; an unknown disk leaves the cluster time unchanged |
| TrkTimeCalculator.ComboMatchesStraw | TrkReco/src/TrkTimeCalculator.cc:76-85 | without TOT drift a combo hit is timed as a straw hit at the same time and z; with it, the drift is not subtracted |
| TrkTimeCalculator.StrawTimeDecreasesAlongFlight | TrkReco/src/TrkTimeCalculator.cc:58-78 | for downstream flight a hit further along z at the same time gives an earlier t0 |

## Left out

- The three clusterer algorithms are not modelled: they are separate classes outside the flagging module, which only selects one and calls it. The cluster list is an input. Only the selector dispatch is modelled.
- The TMVA reader and the weighted radial and temporal statistics are uninterpreted parameters. These are the boost accumulators, the `sqrtf` calls and `PerpVector`. The classifier input vector is still built in the source's order.
- Floating point is not modelled. Every `float` and `double` is a `real`, so rounding and the `float` casts of the descriptor fields are absent.
- BkgQuality.CountHits: the `unsigned` sums are unbounded naturals, so 32-bit wrap-around is not modelled. Reaching it would need more than 4·10^9 straw hits in one cluster.
- BkgQuality.CountPlanes: its requires excludes clusters with no active multiplicity. On such clusters the source's scans run past the plane array. `FillBkgQual` needs this only when the early-reject test passes.
- BkgQuality.FillBkgQual: the fresh descriptor's field values come from the `BkgQual` constructor, a separate data-product class, so they are the input `q0`. `NPlanes` is 36, the tracker geometry's `StrawId::_nplanes` (18 stations of 2 planes), which is defined in the tracker's identifier class rather than in these modules.
- FlagBkgHits.Produce: `fillStrawHitIndices` is replaced by the input `shids`. The event store, handles and `put` are outputs of type `Option`. Debug printing is omitted.
- CompressDigiMCs.BuildRemap: the key map of `compressSimParticleCollection` is the parameter `newKey`, so its `at` cannot fail here. The new SimParticle count is an input to `CheckSimCount`.
- CompressDigiMCs.CheckSimCount: the model does not prove that this check passes. The written count is the size of the remapping's image only if `compressSimParticleCollection` writes one particle per distinct new key.
  - `KeepSizeIsRemapSize` equates keep_size with the remapping's domain, and `RekeyedRemapImage` equates domain and image under a one-to-one rekeying.
  - Without rekeying, two collections can keep the same key (`UnrekeyedRemapCollision`), and then the source's check throws.
- The calorimeter, CaloClusterMC, CrvCoincidenceClusterMC, PrimaryParticle and extra StepPointMC copy and remap paths of `CompressDigiMCs` are not modelled.
  - Each of these paths also calls `keepSimParticle` for the particles it references, so it grows the kept sets.
  - The kept sets given to `BuildRemap`, `KeepSize` and the time-map and trajectory reindexing are therefore an input. They may hold particles kept by these paths as well as by the modelled straw and CRV loops.
  - The extra StepPointMC loop copies a step only under compression and only when its particle is already in the kept set of its product. Without compression it copies every step whose particle's product has a kept set.
- `compressSimParticleCollection` and the SimParticle and GenParticle payloads are not modelled. That function is a shared helper defined outside this module. The model keeps only the keys it assigns, through `newKey`.
- Framework pointer resolution is modelled by table membership: "available" means the pointer is in the table.
- The time maps and trajectory maps are `std::map`s. The source iterates them in key order, and the model's `Reindex` takes their (key, value) pairs as a sequence in that order. "Last entry wins" and "first entry wins" in `ReindexCollision` are relative to that key order.
- `PostStepDoIt` of the gamma-daughter process is not modelled. It only tells Geant4 to stop and kill the track.
- Verbose printing throughout, and `endRun` of the time-cluster filter, are not modelled: they only print.
- `TrkTimeCalculator::updateT0` is not modelled: both overloads have empty bodies, so there is nothing to model.
- `TrkFitDirection::dzdt` is the config field `dzdt`. It comes from a separate fit-direction class and is only a sign and scale for the calculator. `StrawHitBeta` and `StrawHitTimeErr` are not modelled, because no modelled operation reads them.
- `ProductID` is a type parameter. Its `<` is a function parameter, because `ProductID` is defined by the event framework and `DPIndex` only compares it.
