/** The episode state machine: the environment object that keeps the discrete observation of
    the stand, starts an episode and takes one management action per step. */
module Episode {
  import opened Outcome
  import opened Site
  import opened Growth
  import opened Discretizer
  import opened Transition

  /** Declared sizes of the observation space: Discrete(10) basal-area classes, Discrete(6) age
      classes.  Neither is enforced by the encoding. */
  const DeclaredBasalAreaClasses: int := 10
  const DeclaredAgeClasses: int := 6

  /** The number of management actions (Discrete(4)): 0 nothing, 1 thin 15%, 2 thin 30%, 3 harvest. */
  const ActionCount: int := 4

  /** The persisted state: a basal-area class index and an age class index. */
  datatype Observation = Observation(basalAreaClass: int, ageClass: int)

  /** What a step returns besides the empty info mapping. */
  datatype StepResult = StepResult(observation: Observation, reward: real, done: bool)

  /** set_observation: encode a continuous stand state. */
  function SetObservation(basalArea: real, age: int): Observation
  {
    Observation(BasalAreaClass(basalArea, BasalAreaClassWidth), AgeClass(age, AgeClassWidth))
  }

  /** get_observation: decode an observation to its class marks. */
  function GetObservation(obs: Observation): Stand
  {
    Stand(BasalAreaMark(obs.basalAreaClass, BasalAreaClassWidth), AgeMark(obs.ageClass, AgeClassWidth))
  }

  /** The observations the environment can hold: a non-negative basal-area class (with no upper
      bound), and an age class between the terminal -1 and the last declared class. */
  predicate ValidObservation(obs: Observation)
  {
    0 <= obs.basalAreaClass && -1 <= obs.ageClass < DeclaredAgeClasses
  }

  /** The observation reset stores for a drawn planting density: the basal area at the initial age,
      grown one year to the first thinning age, then encoded. */
  function InitialObservation(bio: Biometrics, density: int): (obs: Observation)
    requires density in InitialDensities
    ensures obs.ageClass == 0 && ValidObservation(obs)
  {
    var initial := InitialBasalArea(bio, density).value;
    var grown := AnnualGrowth(bio, FirstThinningAge, initial).value;
    SetObservation(grown, FirstThinningAge)
  }

  /** step: validate the action, decode, force a harvest at the maximum rotation age, then thin,
      grow and reward, or harvest and end the episode. */
  function StepSpec(bio: Biometrics, obs: Observation, action: int): (r: Result<StepResult>)
    ensures r == Err(AssertionFailed) <==> !(0 <= action < ActionCount)
    ensures r != Err(UnboundLocal)
    ensures r.Ok? && r.value.done ==> r.value.observation == Observation(0, -1)
  {
    if !(0 <= action < ActionCount) then Err(AssertionFailed)
    else
      var stand := GetObservation(obs);
      var a := if stand.age == MaxRotationAge then 3 else action;
      if a == 0 then
        var next :- Advanced(bio, stand.basalArea, stand.age, a);
        Ok(StepResult(SetObservation(next.basalArea, next.age), 0.0, false))
      else if a != 3 then
        var reward :- Reward(bio, stand.basalArea, stand.age, a);
        var next :- Advanced(bio, stand.basalArea, stand.age, a);
        Ok(StepResult(SetObservation(next.basalArea, next.age), reward, false))
      else
        var reward :- Reward(bio, stand.basalArea, stand.age, a);
        Ok(StepResult(SetObservation(0.0, 0), reward, true))
  }

  /** The environment PtDiscreto6x5: a Pinus taeda stand with 10 basal-area classes of 6 m^2/ha
      and 6 age classes of 5 years. */
  class PtDiscreto6x5 {
    /** The growth formulas, fixed for the life of the object. */
    const bio: Biometrics
    /** The current observation, the only state kept between steps. */
    var observation: Observation

    ghost predicate Valid()
      reads this
    {
      ValidObservation(observation)
    }

    /** Construction ends with a reset; `density` is the planting density that reset draws. */
    constructor (bio: Biometrics, density: int)
      requires density in InitialDensities
      ensures this.bio == bio
      ensures observation == InitialObservation(bio, density) && Valid()
    {
      this.bio := bio;
      new;
      var obs := Reset(density);
    }

    /** reset: the drawn planting density `density` is one of InitialDensities. */
    method Reset(density: int) returns (obs: Observation)
      requires density in InitialDensities
      modifies this
      ensures obs == observation == InitialObservation(bio, density)
      ensures obs.ageClass == 0 && Valid()
    {
      observation := InitialObservation(bio, density);
      obs := observation;
    }

    /** step: a failed assertion or a raising formula leaves the observation as it was. */
    method Step(action: int) returns (r: Result<StepResult>)
      modifies this
      ensures r == StepSpec(bio, old(observation), action)
      ensures observation == if r.Ok? then r.value.observation else old(observation)
      ensures old(Valid()) ==> Valid()
    {
      StepKeepsValid(bio, observation, action);
      if !(0 <= action < ActionCount) {
        return Err(AssertionFailed);
      }
      var stand := GetObservation(observation);
      var a := action;
      if stand.age == MaxRotationAge {
        a := 3;
      }
      var next: Stand;
      var reward: real;
      var done: bool;
      if a == 0 {
        done := false;
        reward := 0.0;
        next :- AdvanceStand(bio, stand.basalArea, stand.age, a);
      } else if a != 3 {
        done := false;
        reward :- ComputeReward(bio, stand.basalArea, stand.age, a);
        next :- AdvanceStand(bio, stand.basalArea, stand.age, a);
      } else {
        done := true;
        reward :- ComputeReward(bio, stand.basalArea, stand.age, a);
        next := Stand(0.0, 0);
      }
      observation := SetObservation(next.basalArea, next.age);
      r := Ok(StepResult(observation, reward, done));
    }
  }

  /** Decoding an observation and encoding the class marks again gives back the observation. */
  lemma ObservationRoundTrip(obs: Observation)
    ensures var stand := GetObservation(obs); SetObservation(stand.basalArea, stand.age) == obs
  {
    BasalAreaRoundTrip(obs.basalAreaClass, BasalAreaClassWidth);
    AgeRoundTrip(obs.ageClass, AgeClassWidth);
  }

  /** The encoding does not clamp: any basal area of 60 m^2/ha or more lands at or beyond the
      declared number of basal-area classes. */
  lemma SetObservationUnclamped(basalArea: real, age: int)
    requires basalArea >= (DeclaredBasalAreaClasses * BasalAreaClassWidth) as real
    ensures SetObservation(basalArea, age).basalAreaClass >= DeclaredBasalAreaClasses
  {
  }

  /** With a valid action other than harvest before the maximum age, the step neither ends the
      episode nor raises, moves to the next age class, and rewards the volume thinned. */
  lemma NonHarvestStep(bio: Biometrics, obs: Observation, action: int)
    requires 0 <= obs.basalAreaClass && 0 <= obs.ageClass < DeclaredAgeClasses - 1
    requires 0 <= action <= 2
    ensures var r := StepSpec(bio, obs, action);
      && r.Ok? && !r.value.done
      && r.value.observation.ageClass == obs.ageClass + 1
      && r.value.observation.basalAreaClass >= 0
      && (action == 0 ==> r.value.reward == 0.0)
      && (action != 0 ==>
            var stand := GetObservation(obs);
            r.value.reward == bio.totalVolume(stand.age, stand.basalArea)
              - bio.totalVolume(stand.age, Retained(action) * stand.basalArea))
  {
    var stand := GetObservation(obs);
    var g, age := stand.basalArea, stand.age;
    NextPeriod(bio, obs, action);
    var encoded := NextObservation(bio, stand, action);
    if action == 0 {
      assert StepSpec(bio, obs, action) == Ok(StepResult(encoded, 0.0, false));
    } else {
      RewardRules(bio, g, age, action);
      var reward := Reward(bio, g, age, action).value;
      assert StepSpec(bio, obs, action) == Ok(StepResult(encoded, reward, false));
    }
  }

  /** The observation a non-harvest step stores, where growth succeeds.  It names, for the lemmas
      below, the value StepSpec's non-harvest branches compute inline. */
  function NextObservation(bio: Biometrics, stand: Stand, action: int): Observation
    requires Advanced(bio, stand.basalArea, stand.age, action).Ok?
  {
    var next := Advanced(bio, stand.basalArea, stand.age, action).value;
    SetObservation(next.basalArea, next.age)
  }

  /** Growing a decoded observation of age class e < 5 succeeds and lands in age class e + 1. */
  lemma NextPeriod(bio: Biometrics, obs: Observation, action: int)
    requires 0 <= obs.basalAreaClass && 0 <= obs.ageClass < DeclaredAgeClasses - 1
    ensures var stand := GetObservation(obs);
      && stand.basalArea > 0.0 && 0 < stand.age != MaxRotationAge
      && Advanced(bio, stand.basalArea, stand.age, action).Ok?
      && NextObservation(bio, stand, action).ageClass == obs.ageClass + 1
      && NextObservation(bio, stand, action).basalAreaClass >= 0
  {
    var stand := GetObservation(obs);
    AdvancedOk(bio, stand.basalArea, stand.age, action);
    var next := Advanced(bio, stand.basalArea, stand.age, action).value;
    assert next.age == AgeMark(obs.ageClass + 1, AgeClassWidth);
    AgeRoundTrip(obs.ageClass + 1, AgeClassWidth);
  }

  /** A harvest, requested or forced at age class 5 (age 30), ends the episode with the whole
      standing volume as reward and the terminal observation (0, -1). */
  lemma HarvestStep(bio: Biometrics, obs: Observation, action: int)
    requires 0 <= obs.basalAreaClass && 0 <= obs.ageClass < DeclaredAgeClasses
    requires action == 3 || (obs.ageClass == DeclaredAgeClasses - 1 && 0 <= action < ActionCount)
    ensures var stand := GetObservation(obs);
      StepSpec(bio, obs, action) ==
        Ok(StepResult(Observation(0, -1), bio.totalVolume(stand.age, stand.basalArea), true))
  {
    var stand := GetObservation(obs);
    assert stand.basalArea > 0.0;
    RewardRules(bio, stand.basalArea, stand.age, 3);
  }

  /** At age class 5 the decoded age is the maximum rotation age, and every valid action is
      replaced by harvest. */
  lemma ForcedHarvest(bio: Biometrics, obs: Observation, action: int)
    requires 0 <= obs.basalAreaClass && obs.ageClass == DeclaredAgeClasses - 1
    requires 0 <= action < ActionCount
    ensures GetObservation(obs).age == MaxRotationAge
    ensures StepSpec(bio, obs, action) ==
      Ok(StepResult(Observation(0, -1),
        bio.totalVolume(MaxRotationAge, BasalAreaMark(obs.basalAreaClass, BasalAreaClassWidth)), true))
  {
    HarvestStep(bio, obs, action);
  }

  /** Stepping from the terminal age class -1 (decoded age 0): doing nothing restarts growth and
      lands in age class 0, while thinning or harvesting divides by the age and raises. */
  lemma StepAfterDone(bio: Biometrics, obs: Observation, action: int)
    requires 0 <= obs.basalAreaClass && obs.ageClass == -1
    requires 0 <= action < ActionCount
    ensures var r := StepSpec(bio, obs, action);
      && (action == 0 ==> r.Ok? && !r.value.done && r.value.reward == 0.0
                          && r.value.observation.ageClass == 0 && r.value.observation.basalAreaClass >= 0)
      && (action != 0 ==> r == Err(ZeroDivision))
  {
    var stand := GetObservation(obs);
    assert stand.basalArea > 0.0 && stand.age == 0;
    AdvancedOk(bio, stand.basalArea, stand.age, action);
    AgeRoundTrip(0, AgeClassWidth);
  }

  /** The override replaces the requested action exactly at the maximum rotation age: for a valid
      observation, every valid action behaves as harvest if and only if the age class is 5. */
  lemma OverrideExactlyAtMaxAge(bio: Biometrics, obs: Observation)
    requires ValidObservation(obs)
    ensures (forall a :: 0 <= a < ActionCount ==> StepSpec(bio, obs, a) == StepSpec(bio, obs, 3))
      <==> obs.ageClass == DeclaredAgeClasses - 1
  {
    if obs.ageClass == DeclaredAgeClasses - 1 {
      forall a | 0 <= a < ActionCount
        ensures StepSpec(bio, obs, a) == StepSpec(bio, obs, 3)
      {
        ForcedHarvest(bio, obs, a);
        ForcedHarvest(bio, obs, 3);
      }
    } else if obs.ageClass == -1 {
      StepAfterDone(bio, obs, 0);
      StepAfterDone(bio, obs, 3);
    } else {
      NonHarvestStep(bio, obs, 0);
      HarvestStep(bio, obs, 3);
    }
  }

  /** Every step that succeeds from a valid observation stores a valid observation. */
  lemma StepKeepsValid(bio: Biometrics, obs: Observation, action: int)
    ensures ValidObservation(obs) && StepSpec(bio, obs, action).Ok? ==>
      ValidObservation(StepSpec(bio, obs, action).value.observation)
  {
    if ValidObservation(obs) && 0 <= action < ActionCount {
      if obs.ageClass == -1 {
        StepAfterDone(bio, obs, action);
      } else if action == 3 || obs.ageClass == DeclaredAgeClasses - 1 {
        HarvestStep(bio, obs, action);
      } else {
        NonHarvestStep(bio, obs, action);
      }
    }
  }

  /** Whether taking `actions` in turn from `obs` ends the episode, at the last action or before,
      with no step raising. */
  predicate EndsWithin(bio: Biometrics, obs: Observation, actions: seq<int>)
    decreases |actions|
  {
    |actions| > 0 &&
    match StepSpec(bio, obs, actions[0])
    case Err(_) => false
    case Ok(s) => s.done || EndsWithin(bio, s.observation, actions[1..])
  }

  /** From age class e, any 6 - e valid actions end the episode. */
  lemma {:induction false} EndsWithinRemainingClasses(bio: Biometrics, obs: Observation, actions: seq<int>)
    requires 0 <= obs.basalAreaClass && 0 <= obs.ageClass < DeclaredAgeClasses
    requires |actions| == DeclaredAgeClasses - obs.ageClass
    requires forall i :: 0 <= i < |actions| ==> 0 <= actions[i] < ActionCount
    ensures EndsWithin(bio, obs, actions)
    decreases |actions|
  {
    if actions[0] == 3 || obs.ageClass == DeclaredAgeClasses - 1 {
      HarvestStep(bio, obs, actions[0]);
    } else {
      NonHarvestStep(bio, obs, actions[0]);
      var s := StepSpec(bio, obs, actions[0]).value;
      EndsWithinRemainingClasses(bio, s.observation, actions[1..]);
    }
  }

  /** After reset, every sequence of six valid actions ends the episode, at the sixth step or before. */
  lemma EpisodeHorizon(bio: Biometrics, density: int, actions: seq<int>)
    requires density in InitialDensities
    requires |actions| == DeclaredAgeClasses
    requires forall i :: 0 <= i < |actions| ==> 0 <= actions[i] < ActionCount
    ensures EndsWithin(bio, InitialObservation(bio, density), actions)
  {
    EndsWithinRemainingClasses(bio, InitialObservation(bio, density), actions);
  }

  /** Doing nothing never ends the episode before the forced harvest: from age class e, the first
      5 - e steps of a run of no-actions leave it open. */
  lemma {:induction false} IdleStandStaysOpen(bio: Biometrics, obs: Observation, n: nat)
    requires 0 <= obs.basalAreaClass && 0 <= obs.ageClass
    requires obs.ageClass + n < DeclaredAgeClasses
    ensures !EndsWithin(bio, obs, seq(n, i => 0))
    decreases n
  {
    if n > 0 {
      NonHarvestStep(bio, obs, 0);
      var s := StepSpec(bio, obs, 0).value;
      assert seq(n, i => 0)[1..] == seq(n - 1, i => 0);
      IdleStandStaysOpen(bio, s.observation, n - 1);
    }
  }

  /** The horizon of six steps is reached: after reset, five no-actions leave the episode open. */
  lemma EpisodeHorizonIsTight(bio: Biometrics, density: int)
    requires density in InitialDensities
    ensures !EndsWithin(bio, InitialObservation(bio, density), [0, 0, 0, 0, 0])
  {
    IdleStandStaysOpen(bio, InitialObservation(bio, density), 5);
    assert seq(5, i => 0) == [0, 0, 0, 0, 0];
  }
}
