/** Hit flags (`StrawHitFlag`) are small bit sets.  Each bit becomes a `Flag`
    value and a flag word becomes a `set<Flag>`: merging is union, testing for
    all properties is the subset test and testing for any property is a
    non-empty intersection. */
module HitFlags {

  /** The bits that the background-flagging stage reads or writes, plus the
      other commonly set ones; the full bit list lives in StrawHitFlag.hh,
      which is not part of this model. */
  datatype Flag =
    | Stereo | EnergySel | RadSel | TimeSel | Bkg | Isolated | Outlier
    | Active | Doublet | Track | Dead | Noisy | BkgClust

  type HitFlag = set<Flag>

  /** `StrawHitFlag::merge`: sets every bit of `other`, clears none. */
  function Merge(f: HitFlag, other: HitFlag): (r: HitFlag)
    ensures f <= r && other <= r
    ensures forall b :: b in r ==> b in f || b in other
  {
    f + other
  }

  /** `StrawHitFlag::hasAllProperties`. */
  predicate HasAll(f: HitFlag, props: HitFlag)
  {
    props <= f
  }

  /** `StrawHitFlag::hasAnyProperty`. */
  predicate HasAny(f: HitFlag, props: HitFlag)
  {
    f * props != {}
  }
}
