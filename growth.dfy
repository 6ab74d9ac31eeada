/** The growth-and-yield equations of the Pinus taeda stand, as uninterpreted positive functions
    guarded by the conditions under which Python evaluates them without raising. */
module Growth {
  import opened Outcome

  /** A strictly positive real: every formula of the growth model is `exp` of an expression. */
  type Positive = r: real | r > 0.0 witness 1.0

  /** The three regression formulas for the fixed site (site index Site.SiteIndex, survival
      Site.Survival, initial age Site.InitialAge).  Their exp/log numerics are not modelled. */
  datatype Biometrics = Biometrics(
    initialBasalArea: int -> Positive,      // basal area at the initial age, from the planting density
    annualGrowth: (int, real) -> Positive,  // basal area at the end of a one-year period, from its ending age and starting basal area
    totalVolume: (int, real) -> Positive)   // total volume over bark, from age and basal area

  /** crecer_GEI: the formula takes the logarithm of the surviving density. */
  function InitialBasalArea(bio: Biometrics, density: int): (r: Result<real>)
    ensures r.Ok? <==> density > 0
    ensures r.Err? ==> r.fault == MathDomain
    ensures r.Ok? ==> r.value > 0.0 && r.value == bio.initialBasalArea(density)
  {
    if density <= 0 then Err(MathDomain) else Ok(bio.initialBasalArea(density))
  }

  /** crecer_G2: the formula divides by the ending age first, then takes the logarithm of the
      starting basal area. */
  function AnnualGrowth(bio: Biometrics, endAge: int, basalArea: real): (r: Result<real>)
    ensures r.Ok? <==> endAge != 0 && basalArea > 0.0
    ensures r.Err? ==> r.fault == (if endAge == 0 then ZeroDivision else MathDomain)
    ensures r.Ok? ==> r.value > 0.0 && r.value == bio.annualGrowth(endAge, basalArea)
  {
    if endAge == 0 then Err(ZeroDivision)
    else if basalArea <= 0.0 then Err(MathDomain)
    else Ok(bio.annualGrowth(endAge, basalArea))
  }

  /** calcular_V: the formula divides by the age first, then takes the logarithm of the basal area. */
  function Volume(bio: Biometrics, age: int, basalArea: real): (r: Result<real>)
    ensures r.Ok? <==> age != 0 && basalArea > 0.0
    ensures r.Err? ==> r.fault == (if age == 0 then ZeroDivision else MathDomain)
    ensures r.Ok? ==> r.value > 0.0 && r.value == bio.totalVolume(age, basalArea)
  {
    if age == 0 then Err(ZeroDivision)
    else if basalArea <= 0.0 then Err(MathDomain)
    else Ok(bio.totalVolume(age, basalArea))
  }
}
