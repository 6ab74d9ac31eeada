/** One decision period of the stand: thinning, the annual growth loop, and the reward rule. */
module Transition {
  import opened Outcome
  import opened Site
  import opened Growth

  /** Continuous stand state: basal area (m^2/ha) and age (years). */
  datatype Stand = Stand(basalArea: real, age: int)

  /** Fraction of basal area an action leaves standing: action 1 removes 15%, action 2 removes 30%,
      every other action removes nothing before growth. */
  function Retained(action: int): real
  {
    if action == 1 then 1.0 - 0.15
    else if action == 2 then 1.0 - 0.30
    else 1.0
  }

  /** Basal area after `years` successive one-year growth calls starting from `basalArea` at
      `age`; the call for year k (1 <= k <= years) has ending age age + k and starts from the result
      of year k - 1.  The first call that raises decides the fault. */
  function Grown(bio: Biometrics, basalArea: real, age: int, years: nat): (r: Result<real>)
    ensures r.Err? ==> r.fault == ZeroDivision || r.fault == MathDomain
    ensures years > 0 && r.Ok? ==> r.value > 0.0
  {
    if years == 0 then Ok(basalArea)
    else
      var previous :- Grown(bio, basalArea, age, years - 1);
      AnnualGrowth(bio, age + years, previous)
  }

  /** The stand after one decision period: thinned by `action`, then grown AgeClassWidth years. */
  function Advanced(bio: Biometrics, basalArea: real, age: int, action: int): (r: Result<Stand>)
    ensures r.Err? ==> r.fault == ZeroDivision || r.fault == MathDomain
    ensures r.Ok? ==> r.value.basalArea > 0.0
  {
    var grown :- Grown(bio, basalArea * Retained(action), age, AgeClassWidth);
    Ok(Stand(grown, age + AgeClassWidth))
  }

  /** actualizar_estado. */
  method AdvanceStand(bio: Biometrics, basalArea: real, age: int, action: int) returns (r: Result<Stand>)
    ensures r == Advanced(bio, basalArea, age, action)
    ensures r.Ok? ==> r.value.age == age + AgeClassWidth
  {
    var g := basalArea;
    if action == 1 {
      g := g * (1.0 - 0.15);
    } else if action == 2 {
      g := g * (1.0 - 0.30);
    }
    ghost var thinned := g;
    // The Python loop variable reuses the name of the age parameter, so after the loop that name
    // holds the last year of the period; `last` stands for it.
    var last := age;
    for year := age to age + AgeClassWidth
      invariant Grown(bio, thinned, age, year - age) == Ok(g)
      invariant last == if year == age then age else year - 1
    {
      var next := AnnualGrowth(bio, year + 1, g);
      if next.Err? {
        GrownStaysFailed(bio, thinned, age, year + 1 - age, AgeClassWidth);
        return Err(next.fault);
      }
      g := next.value;
      last := year;
    }
    return Ok(Stand(g, last + 1));
  }

  /** The reward rule: the volume removed by a thinning, or the whole volume at harvest.  The
      volume before the action is computed first; any other action reaches the final subtraction
      with the volume after the action unassigned. */
  function Reward(bio: Biometrics, basalArea: real, age: int, action: int): (r: Result<real>)
    ensures r.Ok? <==> age != 0 && basalArea > 0.0 && 1 <= action <= 3
    ensures r == Err(UnboundLocal) <==> age != 0 && basalArea > 0.0 && !(1 <= action <= 3)
    ensures r.Err? ==> r.fault != AssertionFailed
  {
    var before :- Volume(bio, age, basalArea);
    if action == 1 || action == 2 then
      // The thinned basal area is still positive, so this second volume cannot raise.
      Ok(before - Volume(bio, age, basalArea * Retained(action)).value)
    else if action == 3 then Ok(before)
    else Err(UnboundLocal)
  }

  /** calcular_recompensa. */
  method ComputeReward(bio: Biometrics, basalArea: real, age: int, action: int) returns (r: Result<real>)
    ensures r == Reward(bio, basalArea, age, action)
  {
    var before :- Volume(bio, age, basalArea);
    var g := basalArea;
    var after: real;
    // The thinned basal area is still positive, so the second volume cannot raise.
    if action == 1 {
      g := g * (1.0 - 0.15);
      after := Volume(bio, age, g).value;
    } else if action == 2 {
      g := g * (1.0 - 0.30);
      after := Volume(bio, age, g).value;
    } else if action == 3 {
      return Ok(before);
    } else {
      // V_despues was never assigned.
      return Err(UnboundLocal);
    }
    return Ok(before - after);
  }

  /** Growth is defined exactly when the starting basal area is positive and no call of the
      period has ending age 0. */
  lemma {:induction false} GrownOkIff(bio: Biometrics, basalArea: real, age: int, years: nat)
    ensures Grown(bio, basalArea, age, years).Ok? <==>
      years == 0 || (basalArea > 0.0 && !(1 <= -age <= years))
  {
    if years > 0 {
      GrownOkIff(bio, basalArea, age, years - 1);
    }
  }

  /** Once a growth call has raised, the rest of the period is never run. */
  lemma {:induction false} GrownStaysFailed(bio: Biometrics, basalArea: real, age: int, failed: nat, years: nat)
    requires failed <= years
    requires Grown(bio, basalArea, age, failed).Err?
    ensures Grown(bio, basalArea, age, years) == Grown(bio, basalArea, age, failed)
  {
    if failed < years {
      GrownStaysFailed(bio, basalArea, age, failed, years - 1);
    }
  }

  /** The growth calls run in increasing order of ending age: the period is the call ending at
      age + 1 followed by the remaining years starting from age + 1. */
  lemma {:induction false} GrownFirstYear(bio: Biometrics, basalArea: real, age: int, years: nat)
    requires years > 0
    ensures Grown(bio, basalArea, age, years) ==
      match AnnualGrowth(bio, age + 1, basalArea)
      case Err(f) => Err(f)
      case Ok(g1) => Grown(bio, g1, age + 1, years - 1)
  {
    if years > 1 {
      GrownFirstYear(bio, basalArea, age, years - 1);
    }
  }

  /** A period of growth from a positive basal area at a non-negative age never raises. */
  lemma AdvancedOk(bio: Biometrics, basalArea: real, age: int, action: int)
    requires basalArea > 0.0 && age >= 0
    ensures Advanced(bio, basalArea, age, action).Ok?
  {
    GrownOkIff(bio, basalArea * Retained(action), age, AgeClassWidth);
  }

  /** Thinning is applied before growth: thinning by 15% or 30% is the same as growing the
      reduced stand, and harvesting or doing nothing grows the stand as it is. */
  lemma ThinningThenGrowth(bio: Biometrics, basalArea: real, age: int)
    ensures Advanced(bio, basalArea, age, 1) == Advanced(bio, 0.85 * basalArea, age, 0)
    ensures Advanced(bio, basalArea, age, 2) == Advanced(bio, 0.70 * basalArea, age, 0)
    ensures Advanced(bio, basalArea, age, 3) == Advanced(bio, basalArea, age, 0)
  {
    assert basalArea * Retained(1) == 0.85 * basalArea * Retained(0);
    assert basalArea * Retained(2) == 0.70 * basalArea * Retained(0);
    assert Retained(3) == Retained(0);
  }

  /** The reward rule in terms of the volume formula, where that formula is defined. */
  lemma RewardRules(bio: Biometrics, basalArea: real, age: int, action: int)
    requires age != 0 && basalArea > 0.0
    ensures action == 3 ==> Reward(bio, basalArea, age, action) == Ok(bio.totalVolume(age, basalArea))
    ensures action == 1 ==>
      (Reward(bio, basalArea, age, action) ==
       Ok(bio.totalVolume(age, basalArea) - bio.totalVolume(age, 0.85 * basalArea)))
    ensures action == 2 ==>
      (Reward(bio, basalArea, age, action) ==
       Ok(bio.totalVolume(age, basalArea) - bio.totalVolume(age, 0.70 * basalArea)))
    ensures !(1 <= action <= 3) ==> Reward(bio, basalArea, age, action) == Err(UnboundLocal)
  {
  }

  /** Where the volume formula is non-decreasing in basal area, a thinning never earns a negative
      reward. */
  lemma ThinningRewardNonNegative(bio: Biometrics, basalArea: real, age: int, action: int)
    requires forall a: int, g1: real, g2: real
      :: 0.0 < g1 <= g2 ==> bio.totalVolume(a, g1) <= bio.totalVolume(a, g2)
    requires action == 1 || action == 2
    ensures Reward(bio, basalArea, age, action).Ok? ==> Reward(bio, basalArea, age, action).value >= 0.0
  {
    var r := Reward(bio, basalArea, age, action);
    if r.Ok? {
      assert bio.totalVolume(age, basalArea * Retained(action)) <= bio.totalVolume(age, basalArea);
    }
  }
}
