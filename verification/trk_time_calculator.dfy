/** `TrkTimeCalculator`: converts straw-hit, combo-hit and calorimeter
    cluster times into track t0 estimates by removing the time of flight
    along z, the average drift time, or the per-disk calorimeter offset. */
module TrkTimeCalculator {

  /** The configuration; `dzdt` is the fit direction's sign of dz/dt. */
  datatype TimeConfig = TimeConfig(
    avgDriftTime: real, useTOTDrift: bool, shDtDz: real,
    caloT0Offset0: real, caloT0Offset1: real, caloT0Err0: real, caloT0Err1: real,
    dzdt: real)

  /** The configuration defaults for a given fit direction. */
  function DefaultConfig(dzdt: real): TimeConfig
  {
    TimeConfig(24.0, true, 0.00535, 12.4, 15.7, 0.8, 1.7, dzdt)
  }

  /** The error returned for a disk id outside {0, 1}. */
  const NoDiskErr: real := 10000000000.0

  datatype StrawHit = StrawHit(time: real, z: real)
  datatype ComboHit = ComboHit(time: real, correctedTime: real, z: real)
  datatype CaloCluster = CaloCluster(time: real, diskId: int)

  predicate ValidDisk(diskId: int)
  {
    -1 < diskId < 2
  }

  /** `timeOfFlightTimeOffset`. */
  function TimeOfFlight(c: TimeConfig, z: real): real
  {
    z * c.shDtDz * c.dzdt
  }

  /** Reversing the fit direction reverses every direction-dependent
      correction: the flight time and the disk offset change sign, so the
      estimates for the two directions lie symmetrically about the
      direction-independent part of the correction. */
  lemma DirectionReversal(c: TimeConfig, sh: StrawHit, ch: ComboHit, cc: CaloCluster)
    ensures var r := c.(dzdt := -c.dzdt);
      && TimeOfFlight(r, sh.z) == -TimeOfFlight(c, sh.z)
      && StrawHitTime(c, sh) + StrawHitTime(r, sh) == 2.0 * (sh.time - c.avgDriftTime)
      && (c.useTOTDrift ==> ComboHitTime(c, ch) + ComboHitTime(r, ch) == 2.0 * ch.correctedTime)
      && (!c.useTOTDrift ==> ComboHitTime(c, ch) + ComboHitTime(r, ch) == 2.0 * (ch.time - c.avgDriftTime))
      && CaloClusterTime(c, cc) + CaloClusterTime(r, cc) == 2.0 * cc.time
  {
  }

  /** With the configured defaults, both disks report a real error (well
      below the no-disk value), the downstream offset of disk 1 exceeds that
      of disk 0, and combo hits are timed from the TOT-corrected time. */
  lemma DefaultCalibration(dzdt: real, ch: ComboHit)
    requires dzdt > 0.0
    ensures var c := DefaultConfig(dzdt);
      && CaloClusterTimeErr(c, 0) < NoDiskErr && CaloClusterTimeErr(c, 1) < NoDiskErr
      && CaloClusterTimeOffset(c, 0) < CaloClusterTimeOffset(c, 1)
      && ComboHitTime(c, ch) == ch.correctedTime - TimeOfFlight(c, ch.z)
  {
  }

  /** `caloClusterTimeOffset`: the disk's offset times dz/dt, or 0 for a
      disk id outside {0, 1}. */
  function CaloClusterTimeOffset(c: TimeConfig, diskId: int): (r: real)
    ensures !ValidDisk(diskId) ==> r == 0.0
    ensures diskId == 0 ==> r == c.caloT0Offset0 * c.dzdt
    ensures diskId == 1 ==> r == c.caloT0Offset1 * c.dzdt
  {
    if ValidDisk(diskId) then (if diskId == 0 then c.caloT0Offset0 else c.caloT0Offset1) * c.dzdt else 0.0
  }

  /** `caloClusterTimeErr`: the disk's error, or 1e10 for a disk id outside
      {0, 1}. */
  function CaloClusterTimeErr(c: TimeConfig, diskId: int): (r: real)
    ensures !ValidDisk(diskId) ==> r == NoDiskErr
    ensures diskId == 0 ==> r == c.caloT0Err0
    ensures diskId == 1 ==> r == c.caloT0Err1
  {
    if ValidDisk(diskId) then (if diskId == 0 then c.caloT0Err0 else c.caloT0Err1) else NoDiskErr
  }

  /** `strawHitTime`. */
  function StrawHitTime(c: TimeConfig, sh: StrawHit): real
  {
    sh.time - TimeOfFlight(c, sh.z) - c.avgDriftTime
  }

  /** `comboHitTime`: the TOT-corrected time less the flight time, or the
      raw time less flight and average drift. */
  function ComboHitTime(c: TimeConfig, ch: ComboHit): real
  {
    if c.useTOTDrift then ch.correctedTime - TimeOfFlight(c, ch.z)
    else ch.time - TimeOfFlight(c, ch.z) - c.avgDriftTime
  }

  /** `caloClusterTime`. */
  function CaloClusterTime(c: TimeConfig, cc: CaloCluster): real
  {
    cc.time - CaloClusterTimeOffset(c, cc.diskId)
  }

  /** Each estimate undoes its correction: adding the flight time, drift
      time or disk offset back gives the measured time. */
  lemma TimesRoundTrip(c: TimeConfig, sh: StrawHit, ch: ComboHit, cc: CaloCluster)
    ensures StrawHitTime(c, sh) + TimeOfFlight(c, sh.z) + c.avgDriftTime == sh.time
    ensures c.useTOTDrift ==> ComboHitTime(c, ch) + TimeOfFlight(c, ch.z) == ch.correctedTime
    ensures CaloClusterTime(c, cc) + CaloClusterTimeOffset(c, cc.diskId) == cc.time
    ensures !ValidDisk(cc.diskId) ==> CaloClusterTime(c, cc) == cc.time
  {
  }

  /** Without TOT drift a combo hit is timed exactly like a straw hit at the
      same time and z; with it, the average drift is not subtracted. */
  lemma ComboMatchesStraw(c: TimeConfig, ch: ComboHit)
    ensures !c.useTOTDrift ==> ComboHitTime(c, ch) == StrawHitTime(c, StrawHit(ch.time, ch.z))
    ensures c.useTOTDrift ==>
      ComboHitTime(c, ch) == StrawHitTime(c, StrawHit(ch.correctedTime, ch.z)) + c.avgDriftTime
  {
  }

  /** With downstream flight (positive dz/dt and inverse velocity) a hit
      further along z at the same measured time gives an earlier t0. */
  lemma StrawTimeDecreasesAlongFlight(c: TimeConfig, t: real, z1: real, z2: real)
    requires c.shDtDz > 0.0 && c.dzdt > 0.0 && z1 < z2
    ensures StrawHitTime(c, StrawHit(t, z2)) < StrawHitTime(c, StrawHit(t, z1))
  {
    assert (z2 - z1) * c.shDtDz > 0.0;
    assert (z2 - z1) * c.shDtDz * c.dzdt > 0.0;
  }
}
