/** Site and management parameters of the stand, fixed for the whole process (rodal.py lines 7-15). */
module Site {
  /** RCG: width of a basal-area class, in m^2/ha. */
  const BasalAreaClassWidth: int := 6
  /** RCE: width of an age class, in years; also the length of one decision period. */
  const AgeClassWidth: int := 5
  /** S: site index; with Survival and InitialAge, a fixed argument of the formulas that
      Growth.Biometrics keeps uninterpreted. */
  const SiteIndex: int := 20
  /** s: fraction of planted trees surviving to the initial age. */
  const Survival: real := 0.95
  /** EI: initial age, in years. */
  const InitialAge: int := 4
  /** PER: age of the first thinning, in years. */
  const FirstThinningAge: int := 5
  /** UEC: last harvest age (maximum rotation), in years. */
  const MaxRotationAge: int := 30
  /** The planting densities (trees/ha) one of which starts an episode. */
  const InitialDensities: seq<int> := [625, 816, 1111, 1600, 2500]
}
