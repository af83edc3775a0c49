/** The fitted state of `PSxGShotsTeamModel` / `TeamModel` and what is done
    with it: setting up the fit, writing the optimizer's answer back,
    `predict_match` and the table `print_team_strengths` returns. The
    optimizer itself (`scipy.optimize.minimize`) is not part of this model:
    a fit is split into the problem handed to it and the write-back of the
    vector it returns. */
module TeamModel {
  import opened Wrappers
  import opened Records
  import opened Teams
  import opened DixonColes
  import opened ParamLayout
  import opened Objective
  import opened MatchWeights
  import opened Preprocess
  import opened Resimulation

  /** The four fitted attributes. */
  datatype Model = Model(attack: map<string, real>, defense: map<string, real>, homeAdvantage: real, rho: real)

  /** The model right after `__init__`. */
  function Unfitted(): (m: Model)
    ensures WellFormed(m) && |m.attack| == 0
  {
    Model(map[], map[], 0.0, 0.0)
  }

  /** Every fit writes an attack and a defense rating for the same teams, so
      the two maps always share their keys. */
  predicate WellFormed(m: Model) {
    m.attack.Keys == m.defense.Keys
  }

  // ---------------------------------------------------------------------
  // Fitting

  /** What `_optimize_dc_parameters` hands to `minimize`: the matches, the
      sorted team list, the metadata, the initial vector and the box, and the
      objective's weighting, decay rate and season penalty. */
  datatype Problem = Problem(matches: seq<Match>, teams: seq<string>, meta: Metadata,
                             initial: seq<real>, bounds: seq<Bound>,
                             mode: Weighting, eps: real, penalty: real)

  /** The objective is defined on every vector of the right length: the team
      list is sorted and duplicate-free and names every team of every match,
      and the initial guess lies in the box. */
  predicate Ready(p: Problem) {
    && StrictlySorted(p.teams) && Distinct(p.teams)
    && (forall m :: m in p.matches ==> m.home in p.teams && m.away in p.teams)
    && |p.initial| == 2 + 2 * |p.teams|
    && WithinBounds(p.initial, p.bounds)
  }

  function ProblemFor(ms: seq<Match>, teamsOf: seq<Match>, meta: Metadata,
                      mode: Weighting, eps: real, penalty: real): (p: Problem)
    requires TeamSet(ms) <= TeamSet(teamsOf)
    ensures Ready(p) && p.matches == ms && p.meta == meta
    ensures p.mode == mode && p.eps == eps && p.penalty == penalty
    ensures Elements(p.teams) == TeamSet(teamsOf)
    ensures p.initial == Flatten(Initial(|p.teams|)) && p.bounds == Bounds(|p.teams|)
  {
    var teams := SortedTeams(teamsOf);
    assert forall m :: m in ms ==> m.home in TeamSet(ms) && m.away in TeamSet(ms);
    InitialWithinBounds(|teams|);
    Problem(ms, teams, meta, Flatten(Initial(|teams|)), Bounds(|teams|), mode, eps, penalty)
  }

  /** `PSxGShotsTeamModel.fit_models` up to the optimizer: the windowed
      preprocessing (in its corrected form, which yields an empty window
      instead of raising when no match is dated), then the resimulation of
      the kept matches, whose teams form the team list. Wherever the code's
      preprocessing succeeds the problem is built from its result. The
      objective weighs each match by time, season and its record weight;
      `fit_models` never passes `days_ago`, so the window is 365 days. */
  function ShotsProblem(ms: seq<Match>, shots: seq<Shot>, n: nat, draws: Draws,
                        now: real, daysAgo: int := 365, eps: real := 0.0065, penalty: real := 0.75): (p: Problem)
    ensures Ready(p)
    ensures p.mode == TimeSeasonAndRecord && p.eps == eps && p.penalty == penalty
    ensures p.matches == Resimulate(PreprocessWindowTotal(ms, now, daysAgo).matches, shots, n, draws)
    ensures p.meta == PreprocessWindowTotal(ms, now, daysAgo).meta
    ensures Elements(p.teams) == TeamSet(PreprocessWindowTotal(ms, now, daysAgo).matches)
    ensures PreprocessWindow(ms, now, daysAgo).Success? ==>
      && p.meta == PreprocessWindow(ms, now, daysAgo).value.meta
      && Elements(p.teams) == TeamSet(PreprocessWindow(ms, now, daysAgo).value.matches)
    ensures (forall m :: m in ms ==> !Dated(m)) ==> p.teams == [] && p.matches == []
  {
    var pre := PreprocessWindowTotal(ms, now, daysAgo);
    var resim := Resimulate(pre.matches, shots, n, draws);
    ResimulateKeepsTeams(pre.matches, shots, n, draws);
    assert |pre.matches| == 0 ==> |resim| == 0 by {
      ResimulateLength(pre.matches, shots, n, draws);
    }
    ProblemFor(resim, resim, pre.meta, TimeSeasonAndRecord, eps, penalty)
  }

  /** `TeamModel.fit_models` up to the optimizer: every match annotated in
      place, the teams of all of them; the objective weighs each match by
      time and season only. */
  function TotalsProblem(ms: seq<Match>, eps: real := 0.0065, penalty: real := 0.75): (p: Problem)
    ensures p.mode == TimeSeasonOnly && p.eps == eps && p.penalty == penalty
    ensures Ready(p) && |p.matches| == |ms|
    ensures p.matches == PreprocessInPlace(ms).matches
    ensures p.meta == MetadataOf(ms)
    ensures Elements(p.teams) == TeamSet(ms)
  {
    var pre := PreprocessInPlace(ms);
    assert TeamSet(pre.matches) == TeamSet(ms) by {
      forall m | m in pre.matches ensures m.home in TeamSet(ms) && m.away in TeamSet(ms) {
        var i :| 0 <= i < |pre.matches| && pre.matches[i] == m;
        assert ms[i] in ms;
      }
      forall m | m in ms ensures m.home in TeamSet(pre.matches) && m.away in TeamSet(pre.matches) {
        var i :| 0 <= i < |ms| && ms[i] == m;
        assert pre.matches[i] in pre.matches;
      }
    }
    ProblemFor(pre.matches, ms, pre.meta, TimeSeasonOnly, eps, penalty)
  }

  /** The write-back loop of `fit_models`: home advantage and rho replaced,
      each listed team's ratings overwritten, every other team's ratings
      left as they were. */
  function ApplyFit(model: Model, teams: seq<string>, x: seq<real>): (r: Model)
    requires Distinct(teams) && |x| == 2 + 2 * |teams|
    ensures r.homeAdvantage == x[0] && r.rho == x[1]
    ensures r.attack.Keys == model.attack.Keys + Elements(teams)
    ensures r.defense.Keys == model.defense.Keys + Elements(teams)
    ensures forall i :: 0 <= i < |teams| ==>
      r.attack[teams[i]] == x[2 + i] && r.defense[teams[i]] == x[2 + |teams| + i]
    ensures forall t :: t in model.attack && t !in teams ==> r.attack[t] == model.attack[t]
    ensures forall t :: t in model.defense && t !in teams ==> r.defense[t] == model.defense[t]
  {
    var p := Unflatten(x, |teams|);
    Model(model.attack + RatingMap(teams, p.attack), model.defense + RatingMap(teams, p.defense),
          p.homeAdvantage, p.rho)
  }

  /** A fit keeps the attack and defense maps in step. */
  lemma ApplyFitWellFormed(model: Model, teams: seq<string>, x: seq<real>)
    requires WellFormed(model) && Distinct(teams) && |x| == 2 + 2 * |teams|
    ensures WellFormed(ApplyFit(model, teams, x))
  {
  }

  /** Writing back a flattened parameter set recovers its ratings, so the
      fitted model is the vector the objective scored. */
  lemma ApplyFitFlatten(model: Model, teams: seq<string>, p: Params)
    requires Distinct(teams) && Shaped(p, |teams|)
    ensures var r := ApplyFit(model, teams, Flatten(p));
      && r.homeAdvantage == p.homeAdvantage && r.rho == p.rho
      && forall i :: 0 <= i < |teams| ==> r.attack[teams[i]] == p.attack[i] && r.defense[teams[i]] == p.defense[i]
  {
    var x := Flatten(p);
    var r := ApplyFit(model, teams, x);
    forall i | 0 <= i < |teams| ensures r.attack[teams[i]] == p.attack[i] && r.defense[teams[i]] == p.defense[i] {
      assert r.attack[teams[i]] == x[2 + i];
      assert r.defense[teams[i]] == x[2 + |teams| + i];
    }
  }

  /** A re-fit leaves the ratings of a team missing from the new team list
      in place: the model does not forget teams. */
  lemma RefitKeepsStaleTeams(model: Model, teams: seq<string>, x: seq<real>, t: string)
    requires Distinct(teams) && |x| == 2 + 2 * |teams|
    requires t in model.attack && t !in teams
    ensures t in ApplyFit(model, teams, x).attack
    ensures ApplyFit(model, teams, x).attack[t] == model.attack[t]
  {
  }

  // ---------------------------------------------------------------------
  // predict_match

  /** `sorted(self.team_attack.keys())`. */
  function SortedKeys(keys: set<string>): (r: seq<string>)
    ensures StrictlySorted(r) && Elements(r) == keys
  {
    SortedListingExists(keys);
    SortedListingsAgree();
    var r :| StrictlySorted(r) && Elements(r) == keys;
    r
  }

  lemma {:induction false} SortedListingExists(keys: set<string>)
    ensures exists r :: StrictlySorted(r) && Elements(r) == keys
    decreases keys
  {
    if keys != {} {
      var t :| t in keys;
      SortedListingExists(keys - {t});
      var rest :| StrictlySorted(rest) && Elements(rest) == keys - {t};
      var r := Insert(t, rest);
      assert StrictlySorted(r) && Elements(r) == keys;
    } else {
      var empty: seq<string> := [];
      assert StrictlySorted(empty) && Elements(empty) == keys;
    }
  }

  lemma SortedListingsAgree()
    ensures forall a: seq<string>, b: seq<string> ::
      StrictlySorted(a) && StrictlySorted(b) && Elements(a) == Elements(b) ==> a == b
  {
    forall a: seq<string>, b: seq<string> | StrictlySorted(a) && StrictlySorted(b) && Elements(a) == Elements(b)
      ensures a == b
    {
      SortedListingUnique(a, b);
    }
  }

  datatype Prediction = Prediction(homeTeam: string, awayTeam: string, homeGoals: real, awayGoals: real)

  datatype PredictError =
    | TeamsNotFound(available: seq<string>)   // the `ValueError`
    | MissingDefense(team: string)            // the `KeyError` of `self.team_defense[...]`

  /** `predict_match(home, away)`: the two expected-goals rates, or an error
      listing the known teams when either team has no attack rating. */
  function PredictMatch(model: Model, home: string, away: string): (r: Result<Prediction, PredictError>)
    ensures r.Failure? && r.error.TeamsNotFound? <==> home !in model.attack || away !in model.attack
    ensures r.Failure? && r.error.TeamsNotFound? ==>
      StrictlySorted(r.error.available) && Elements(r.error.available) == model.attack.Keys
    ensures WellFormed(model) ==> r.Success? || r.error.TeamsNotFound?
    ensures r.Success? ==> && home in model.attack && away in model.attack
                           && home in model.defense && away in model.defense
                           && r.value.homeTeam == home && r.value.awayTeam == away
                           && r.value.homeGoals == model.attack[home] * model.defense[away] * model.homeAdvantage
                           && r.value.awayGoals == model.attack[away] * model.defense[home]
  {
    if home !in model.attack || away !in model.attack then Failure(TeamsNotFound(SortedKeys(model.attack.Keys)))
    else if away !in model.defense then Failure(MissingDefense(away))
    else if home !in model.defense then Failure(MissingDefense(home))
    else
      var rates := ExpectedGoals(model.attack[home], model.defense[home], model.attack[away], model.defense[away],
                                 model.homeAdvantage);
      Success(Prediction(home, away, rates.home, rates.away))
  }

  /** After a fit whose vector lies in the optimizer's box, every pair of
      fitted teams gets a prediction, and both expected-goals rates are
      positive. */
  lemma BoxedFitPredictsPositiveRates(model: Model, teams: seq<string>, x: seq<real>, home: string, away: string)
    requires Distinct(teams) && WithinBounds(x, Bounds(|teams|))
    requires home in teams && away in teams
    ensures var r := PredictMatch(ApplyFit(model, teams, x), home, away);
      r.Success? && r.value.homeGoals > 0.0 && r.value.awayGoals > 0.0
  {
    var fitted := ApplyFit(model, teams, x);
    FittedRatingsPositive(model, teams, x, home);
    FittedRatingsPositive(model, teams, x, away);
    var rates := ExpectedGoals(fitted.attack[home], fitted.defense[home], fitted.attack[away],
                               fitted.defense[away], fitted.homeAdvantage);
  }

  /** A boxed fit gives every fitted team positive ratings and a positive
      home advantage. */
  lemma FittedRatingsPositive(model: Model, teams: seq<string>, x: seq<real>, t: string)
    requires Distinct(teams) && WithinBounds(x, Bounds(|teams|)) && t in teams
    ensures var fitted := ApplyFit(model, teams, x);
      && t in fitted.attack && t in fitted.defense
      && fitted.attack[t] > 0.0 && fitted.defense[t] > 0.0 && fitted.homeAdvantage > 0.0
  {
    BoxedParamsPositive(x, |teams|);
    var p := Unflatten(x, |teams|);
    var i :| 0 <= i < |teams| && teams[i] == t;
    assert p.attack[i] >= 0.1 && p.defense[i] >= 0.1;
  }
}
