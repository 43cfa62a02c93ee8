/** `Mu2eGammaDaughterProcess`: a Geant4 process that kills an event whose
    generated photon (track 1) produced only low-energy daughters.  It keeps
    a three-valued verdict (`accepted`: -1 kill, 0 undecided, 1 pass) and
    the generated photon's energy, and forces an interaction (step length 0)
    exactly when a daughter fails the test. */
module GammaDaughterProcess {

  /** `DBL_MAX`, the largest finite double. */
  const DblMax: real := 179769313486231570814527423731704356798070567525844996598917476803157260780028538760589558632766878171540458953514382464234321326889464182768467546703537516986049910576551282076245490090389328944075868508455133942304583236903222948165808559332123348274797826204144723168738177180919299881250404026184124858368.0

  /** The names of the particles the process attaches to. */
  const ApplicableParticles: set<string> := {"gamma", "e+", "e-"}

  datatype State = State(accepted: int, photonEnergy: real)

  /** What a step reads of a `G4Track`. */
  datatype Track = Track(trackId: int, parentId: int, totalEnergy: real)

  /** The constructor's state: undecided, no photon energy yet. */
  const Initial := State(0, -1.0)

  /** `IsApplicable`. */
  function IsApplicable(name: string): (r: bool)
    ensures r <==> name in ApplicableParticles
  {
    name == "gamma" || name == "e+" || name == "e-"
  }

  /** `GetMeanFreePath`: the process never fires on its own. */
  function MeanFreePath(): real
  {
    DblMax
  }

  /** `PostStepGetPhysicalInteractionLength` with `minDaughterEnergy_` as
      `minE`: the new state and the proposed step length. */
  function PostStep(minE: real, s: State, t: Track): (r: (State, real))
    ensures r.1 == 0.0 || r.1 == DblMax
    ensures t.trackId != 1 ==> r.0.photonEnergy == s.photonEnergy
    ensures t.trackId == 1 ==>
      r.0.photonEnergy == (if s.photonEnergy < 0.0 || t.totalEnergy > 1.0 then t.totalEnergy else s.photonEnergy)
  {
    if t.trackId == 1 then
      var e := if s.photonEnergy < 0.0 || t.totalEnergy > 1.0 then t.totalEnergy else s.photonEnergy;
      (State(if e > minE then 0 else s.accepted, e), DblMax)
    else if t.parentId == 1 then
      if t.totalEnergy > minE then (s.(accepted := 1), DblMax)
      else if s.photonEnergy > 0.0 && s.photonEnergy - t.totalEnergy < minE then (s.(accepted := -1), 0.0)
      else (s.(accepted := 0), DblMax)
    else (s.(accepted := 0), DblMax)
  }

  /** A daughter of the generated photon whose energy, and the energy the
      photon has left after it, are both below the threshold. */
  predicate FailingDaughter(minE: real, s: State, t: Track)
  {
    t.trackId != 1 && t.parentId == 1 && t.totalEnergy <= minE
    && s.photonEnergy > 0.0 && s.photonEnergy - t.totalEnergy < minE
  }

  /** The step length undercuts the mean free path (the process fires) on
      the failing-daughter path only, and that path is also the only one
      that sets the kill verdict; a passing daughter sets the pass verdict,
      a low-energy daughter that does not fail leaves the test open and
      resets it, and so does every track outside the photon's family. */
  lemma PostStepVerdict(minE: real, s: State, t: Track)
    ensures PostStep(minE, s, t).1 < MeanFreePath() <==> FailingDaughter(minE, s, t)
    ensures t.trackId != 1 ==> (PostStep(minE, s, t).0.accepted == -1 <==> FailingDaughter(minE, s, t))
    ensures t.trackId != 1 && t.parentId == 1 && t.totalEnergy > minE ==> PostStep(minE, s, t).0.accepted == 1
    ensures t.trackId != 1 && t.parentId == 1 && t.totalEnergy <= minE && !FailingDaughter(minE, s, t) ==>
      PostStep(minE, s, t).0.accepted == 0
    ensures t.trackId != 1 && t.parentId != 1 ==> PostStep(minE, s, t).0.accepted == 0
    ensures t.trackId == 1 ==>
      PostStep(minE, s, t).0.accepted == (if PostStep(minE, s, t).0.photonEnergy > minE then 0 else s.accepted)
  {
  }

  /** The state after a sequence of steps. */
  function Run(minE: real, s: State, tracks: seq<Track>): State
  {
    if |tracks| == 0 then s
    else PostStep(minE, Run(minE, s, tracks[..|tracks| - 1]), tracks[|tracks| - 1]).0
  }

  /** The state invariant: the verdict is three-valued, and the photon
      energy is either the initial -1 or the energy of some track-1 step. */
  lemma {:induction false} RunInvariant(minE: real, tracks: seq<Track>)
    ensures Run(minE, Initial, tracks).accepted in {-1, 0, 1}
    ensures var e := Run(minE, Initial, tracks).photonEnergy;
      e == -1.0 || exists i :: 0 <= i < |tracks| && tracks[i].trackId == 1 && tracks[i].totalEnergy == e
  {
    if |tracks| > 0 {
      var n := |tracks| - 1;
      RunInvariant(minE, tracks[..n]);
      var e := Run(minE, Initial, tracks[..n]).photonEnergy;
      if e != -1.0 && tracks[n].trackId != 1 {
        var i :| 0 <= i < n && tracks[..n][i].trackId == 1 && tracks[..n][i].totalEnergy == e;
        assert tracks[i] == tracks[..n][i];
      } else if e != -1.0 && Run(minE, Initial, tracks).photonEnergy == e {
        var i :| 0 <= i < n && tracks[..n][i].trackId == 1 && tracks[..n][i].totalEnergy == e;
        assert tracks[i] == tracks[..n][i];
      }
    }
  }

  /** No event can be killed before the generated photon has been seen with
      a positive energy. */
  lemma {:induction false} NoKillBeforePhoton(minE: real, tracks: seq<Track>)
    requires forall i :: 0 <= i < |tracks| ==> tracks[i].trackId != 1
    ensures Run(minE, Initial, tracks).photonEnergy == -1.0
    ensures Run(minE, Initial, tracks).accepted != -1
  {
    if |tracks| > 0 {
      NoKillBeforePhoton(minE, tracks[..|tracks| - 1]);
    }
  }
}
