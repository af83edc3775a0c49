/** The Dixon-Coles scoring kernel of `dc_probability` and the `log(0)`
    safeguard of `dc_log_likelihood`. The Poisson mass is a parameter: its
    body (scipy's `poisson.pmf`) is not part of this model. */
module DixonColes {

  /** `poisson.pmf(k, lambda)`. */
  type Pmf = (nat, real) -> real

  /** Expected goals of one fixture. */
  datatype Rates = Rates(home: real, away: real)

  /** `lambda_home = attack[home] * defense[away] * home_advantage`,
      `lambda_away = attack[away] * defense[home]`: the home side's rate carries
      the home advantage, the away side's does not. */
  function ExpectedGoals(attackHome: real, defenseHome: real, attackAway: real, defenseAway: real,
                         homeAdvantage: real): (r: Rates)
    ensures homeAdvantage == 1.0 ==>
      r == Rates(attackHome * defenseAway, attackAway * defenseHome)
    ensures attackHome > 0.0 && defenseHome > 0.0 && attackAway > 0.0 && defenseAway > 0.0 && homeAdvantage > 0.0
      ==> r.home > 0.0 && r.away > 0.0
  {
    Rates(attackHome * defenseAway * homeAdvantage, attackAway * defenseHome)
  }

  /** The home advantage scales the home rate and leaves the away rate alone. */
  lemma HomeAdvantageScalesHomeRate(attackHome: real, defenseHome: real, attackAway: real, defenseAway: real,
                                    homeAdvantage: real)
    ensures var r, neutral := ExpectedGoals(attackHome, defenseHome, attackAway, defenseAway, homeAdvantage),
                              ExpectedGoals(attackHome, defenseHome, attackAway, defenseAway, 1.0);
      r.home == homeAdvantage * neutral.home && r.away == neutral.away
  {
  }

  /** The low-score correction factor tau. */
  function Tau(homeGoals: nat, awayGoals: nat, lambdaHome: real, lambdaAway: real, rho: real): real {
    if homeGoals == 0 && awayGoals == 0 then 1.0 - rho
    else if homeGoals == 0 && awayGoals == 1 then 1.0 + rho * lambdaHome
    else if homeGoals == 1 && awayGoals == 0 then 1.0 + rho * lambdaAway
    else if homeGoals == 1 && awayGoals == 1 then 1.0 - rho * lambdaHome * lambdaAway
    else 1.0
  }

  /** Probability mass of the exact score under Dixon-Coles: tau times the two
      independent Poisson masses. Without correlation, or away from the four
      low-score cells, it is the plain product. */
  function Probability(pmf: Pmf, homeGoals: nat, awayGoals: nat, lambdaHome: real, lambdaAway: real,
                       rho: real): (p: real)
    ensures rho == 0.0 ==> p == pmf(homeGoals, lambdaHome) * pmf(awayGoals, lambdaAway)
    ensures homeGoals >= 2 || awayGoals >= 2 ==> p == pmf(homeGoals, lambdaHome) * pmf(awayGoals, lambdaAway)
  {
    Tau(homeGoals, awayGoals, lambdaHome, lambdaAway, rho) * pmf(homeGoals, lambdaHome) * pmf(awayGoals, lambdaAway)
  }

  /** The correction is linear in rho: tau - 1 = rho * (tau at rho = 1, minus 1). */
  lemma TauLinearInRho(homeGoals: nat, awayGoals: nat, lambdaHome: real, lambdaAway: real, rho: real)
    ensures Tau(homeGoals, awayGoals, lambdaHome, lambdaAway, rho) - 1.0
         == rho * (Tau(homeGoals, awayGoals, lambdaHome, lambdaAway, 1.0) - 1.0)
  {
  }

  /** Swapping the sides (goals and rates together) leaves tau unchanged. */
  lemma TauMirror(homeGoals: nat, awayGoals: nat, lambdaHome: real, lambdaAway: real, rho: real)
    ensures Tau(homeGoals, awayGoals, lambdaHome, lambdaAway, rho)
         == Tau(awayGoals, homeGoals, lambdaAway, lambdaHome, rho)
  {
  }

  /** Inside the optimizer's bounds tau, and so the probability, can be
      negative: (1,1) with both rates 2 and rho = 0.3 gives tau = -0.2. */
  lemma TauCanBeNegative()
    ensures Tau(1, 1, 2.0, 2.0, 0.3) < 0.0
  {
  }

  /** `1e-10`, the value a non-positive probability is replaced with. */
  const ProbabilityFloor: real := 0.0000000001

  /** The argument handed to `log`: a probability `<= 0` becomes the floor,
      a positive one is kept. */
  function Floored(p: real): (r: real)
    ensures r > 0.0
    ensures p > 0.0 ==> r == p
    ensures p <= 0.0 ==> r == ProbabilityFloor
  {
    if p <= 0.0 then ProbabilityFloor else p
  }

  /** Flooring twice is flooring once, and flooring never lowers a value. */
  lemma FlooredIdempotent(p: real)
    ensures Floored(Floored(p)) == Floored(p)
    ensures Floored(p) >= p
  {
  }
}
