/** The function the optimizer minimises, `dc_log_likelihood`, in both
    variants: the resimulated-shots model weights each log-term by
    time x season x record weight, the totals model by time x season only.
    `log` is a parameter (numpy's `np.log` is not part of this model). */
module Objective {
  import opened Wrappers
  import opened Records
  import opened Teams
  import opened DixonColes
  import opened MatchWeights
  import opened ParamLayout

  /** `{team: values[i] for i, team in enumerate(teams)}`. */
  function RatingMap(teams: seq<string>, values: seq<real>): (m: map<string, real>)
    requires Distinct(teams) && |values| == |teams|
    ensures m.Keys == Elements(teams)
    ensures forall i :: 0 <= i < |teams| ==> m[teams[i]] == values[i]
  {
    map i | 0 <= i < |teams| :: teams[i] := values[i]
  }

  /** Every match's two teams have a rating. */
  predicate Covers(ratings: map<string, real>, ms: seq<Match>) {
    forall m :: m in ms ==> m.home in ratings && m.away in ratings
  }

  /** The objective's fixed inputs besides the matches. */
  datatype Setting = Setting(pmf: Pmf, log: real -> real, meta: Metadata, eps: real, penalty: real, mode: Weighting)

  predicate ValidSetting(s: Setting) {
    s.eps >= 0.0
  }

  /** One match's contribution: `log(max-floored probability) * weight`. */
  function Term(s: Setting, homeAdvantage: real, rho: real, attack: map<string, real>,
                defense: map<string, real>, m: Match): real
    requires ValidSetting(s)
    requires m.home in attack && m.away in attack && m.home in defense && m.away in defense
  {
    var rates := ExpectedGoals(attack[m.home], defense[m.home], attack[m.away], defense[m.away], homeAdvantage);
    var p := Probability(s.pmf, m.homeGoals, m.awayGoals, rates.home, rates.away, rho);
    s.log(Floored(p)) * TermWeight(s.mode, m, s.meta, s.eps, s.penalty)
  }

  /** The weighted log-likelihood, accumulated over the matches in order. */
  function LogLikelihood(s: Setting, homeAdvantage: real, rho: real, attack: map<string, real>,
                         defense: map<string, real>, ms: seq<Match>): real
    requires ValidSetting(s) && Covers(attack, ms) && Covers(defense, ms)
  {
    if |ms| == 0 then 0.0
    else
      LogLikelihood(s, homeAdvantage, rho, attack, defense, ms[..|ms| - 1])
      + Term(s, homeAdvantage, rho, attack, defense, ms[|ms| - 1])
  }

  /** The square of a real is never negative and is zero only at zero
      (stated for `x * y` with `x == y`, the form the solver handles). */
  lemma SquareSign(x: real, y: real)
    requires x == y
    ensures x * y >= 0.0
    ensures x * y == 0.0 <==> x == 0.0
  {
    if x > 0.0 {
      assert x * y > 0.0;
    } else if x < 0.0 {
      assert (-x) * (-y) > 0.0;
    }
  }

  /** `(sum(attack) - n) ** 2 + (sum(defense) - n) ** 2`: never negative, and
      zero exactly when both rating sums equal the number of teams. */
  function ConstraintPenalty(attack: seq<real>, defense: seq<real>, n: nat): (c: real)
    ensures c >= 0.0
    ensures c == 0.0 <==> Sum(attack) == n as real && Sum(defense) == n as real
  {
    var a := Sum(attack) - n as real;
    var d := Sum(defense) - n as real;
    SquareSign(a, a);
    SquareSign(d, d);
    a * a + d * d
  }

  /** `dc_log_likelihood(params, matches, teams, metadata, ...)`: the
      negative weighted log-likelihood plus the constraint penalty. */
  function NegLogLikelihood(s: Setting, v: seq<real>, ms: seq<Match>, teams: seq<string>): (r: real)
    requires ValidSetting(s) && Distinct(teams) && |v| == 2 + 2 * |teams|
    requires forall m :: m in ms ==> m.home in teams && m.away in teams
    ensures var p := Unflatten(v, |teams|);
      var ll := LogLikelihood(s, p.homeAdvantage, p.rho, RatingMap(teams, p.attack), RatingMap(teams, p.defense), ms);
      && r + ll == ConstraintPenalty(p.attack, p.defense, |teams|)
      && r >= -ll
      && (r == -ll <==> Sum(p.attack) == |teams| as real && Sum(p.defense) == |teams| as real)
  {
    var p := Unflatten(v, |teams|);
    var attack := RatingMap(teams, p.attack);
    var defense := RatingMap(teams, p.defense);
    -LogLikelihood(s, p.homeAdvantage, p.rho, attack, defense, ms) + ConstraintPenalty(p.attack, p.defense, |teams|)
  }

  /** The log-likelihood of a concatenation is the sum of the parts: each
      match contributes independently of the others. */
  lemma {:induction false} LogLikelihoodAppend(s: Setting, homeAdvantage: real, rho: real,
                                               attack: map<string, real>, defense: map<string, real>,
                                               a: seq<Match>, b: seq<Match>)
    requires ValidSetting(s) && Covers(attack, a + b) && Covers(defense, a + b)
    ensures Covers(attack, a) && Covers(defense, a) && Covers(attack, b) && Covers(defense, b)
    ensures LogLikelihood(s, homeAdvantage, rho, attack, defense, a + b)
         == LogLikelihood(s, homeAdvantage, rho, attack, defense, a)
          + LogLikelihood(s, homeAdvantage, rho, attack, defense, b)
    decreases |b|
  {
    assert forall m :: m in a ==> m in a + b;
    assert forall m :: m in b ==> m in a + b;
    if |b| > 0 {
      var b' := b[..|b| - 1];
      assert (a + b)[..|a + b| - 1] == a + b';
      assert forall m :: m in a + b' ==> m in a + b;
      LogLikelihoodAppend(s, homeAdvantage, rho, attack, defense, a, b');
    } else {
      assert a + b == a;
    }
  }

  /** Two match lists that differ only in their records' `weight` fields. */
  predicate SameButWeights(ms: seq<Match>, ns: seq<Match>) {
    |ms| == |ns| && forall i :: 0 <= i < |ms| ==> ns[i] == ms[i].(weight := ns[i].weight)
  }

  lemma TermIgnoresWeight(s: Setting, homeAdvantage: real, rho: real, attack: map<string, real>,
                          defense: map<string, real>, m: Match, n: Match)
    requires ValidSetting(s) && s.mode == TimeSeasonOnly && n == m.(weight := n.weight)
    requires m.home in attack && m.away in attack && m.home in defense && m.away in defense
    ensures Term(s, homeAdvantage, rho, attack, defense, m) == Term(s, homeAdvantage, rho, attack, defense, n)
  {
    TimeSeasonOnlyIgnoresRecordWeight(m, n.weight, s.meta, s.eps, s.penalty);
  }

  lemma TermUnitWeightAgrees(s: Setting, homeAdvantage: real, rho: real, attack: map<string, real>,
                             defense: map<string, real>, m: Match)
    requires ValidSetting(s) && RecordWeight(m) == 1.0
    requires m.home in attack && m.away in attack && m.home in defense && m.away in defense
    ensures Term(s.(mode := TimeSeasonAndRecord), homeAdvantage, rho, attack, defense, m)
         == Term(s.(mode := TimeSeasonOnly), homeAdvantage, rho, attack, defense, m)
  {
    UnitRecordWeightAgrees(m, s.meta, s.eps, s.penalty);
  }

  /** Two objectives over equally long match lists agree when they agree on
      the lists without their last match and on that match's term. */
  lemma LogLikelihoodStep(s: Setting, t: Setting, homeAdvantage: real, rho: real,
                          attack: map<string, real>, defense: map<string, real>,
                          ms: seq<Match>, ns: seq<Match>)
    requires ValidSetting(s) && ValidSetting(t) && |ms| == |ns| > 0
    requires Covers(attack, ms) && Covers(defense, ms) && Covers(attack, ns) && Covers(defense, ns)
    requires Covers(attack, ms[..|ms| - 1]) && Covers(defense, ms[..|ms| - 1])
    requires Covers(attack, ns[..|ns| - 1]) && Covers(defense, ns[..|ns| - 1])
    requires LogLikelihood(s, homeAdvantage, rho, attack, defense, ms[..|ms| - 1])
          == LogLikelihood(t, homeAdvantage, rho, attack, defense, ns[..|ns| - 1])
    requires Term(s, homeAdvantage, rho, attack, defense, ms[|ms| - 1])
          == Term(t, homeAdvantage, rho, attack, defense, ns[|ns| - 1])
    ensures LogLikelihood(s, homeAdvantage, rho, attack, defense, ms)
         == LogLikelihood(t, homeAdvantage, rho, attack, defense, ns)
  {
  }

  /** A prefix of a covered match list is covered. */
  lemma CoversPrefix(ratings: map<string, real>, ms: seq<Match>, k: nat)
    requires Covers(ratings, ms) && k <= |ms|
    ensures Covers(ratings, ms[..k])
  {
    assert forall m :: m in ms[..k] ==> m in ms;
  }

  /** Under the totals weighting a record's `weight` has no effect on the
      log-likelihood. */
  lemma {:induction false} TimeSeasonOnlyIgnoresWeights(s: Setting, homeAdvantage: real, rho: real,
                                                        attack: map<string, real>, defense: map<string, real>,
                                                        ms: seq<Match>, ns: seq<Match>)
    requires ValidSetting(s) && s.mode == TimeSeasonOnly
    requires Covers(attack, ms) && Covers(defense, ms) && SameButWeights(ms, ns)
    ensures Covers(attack, ns) && Covers(defense, ns)
    ensures LogLikelihood(s, homeAdvantage, rho, attack, defense, ms)
         == LogLikelihood(s, homeAdvantage, rho, attack, defense, ns)
    decreases |ms|
  {
    assert Covers(attack, ns) && Covers(defense, ns) by {
      forall m | m in ns ensures m.home in attack && m.away in attack && m.home in defense && m.away in defense {
        var i :| 0 <= i < |ns| && ns[i] == m;
        assert ms[i] in ms;
      }
    }
    if |ms| > 0 {
      var k := |ms| - 1;
      CoversPrefix(attack, ms, k);
      CoversPrefix(defense, ms, k);
      CoversPrefix(attack, ns, k);
      CoversPrefix(defense, ns, k);
      assert SameButWeights(ms[..k], ns[..k]);
      TimeSeasonOnlyIgnoresWeights(s, homeAdvantage, rho, attack, defense, ms[..k], ns[..k]);
      assert ms[k] in ms;
      TermIgnoresWeight(s, homeAdvantage, rho, attack, defense, ms[k], ns[k]);
      LogLikelihoodStep(s, s, homeAdvantage, rho, attack, defense, ms, ns);
    }
  }

  /** When every record weighs 1.0 (real matches only), the two variants
      of the objective coincide. */
  lemma {:induction false} UnitWeightsVariantsAgree(s: Setting, homeAdvantage: real, rho: real,
                                                    attack: map<string, real>, defense: map<string, real>,
                                                    ms: seq<Match>)
    requires ValidSetting(s) && Covers(attack, ms) && Covers(defense, ms)
    requires forall m :: m in ms ==> RecordWeight(m) == 1.0
    ensures LogLikelihood(s.(mode := TimeSeasonAndRecord), homeAdvantage, rho, attack, defense, ms)
         == LogLikelihood(s.(mode := TimeSeasonOnly), homeAdvantage, rho, attack, defense, ms)
    decreases |ms|
  {
    if |ms| > 0 {
      var k := |ms| - 1;
      CoversPrefix(attack, ms, k);
      CoversPrefix(defense, ms, k);
      assert forall m :: m in ms[..k] ==> m in ms;
      UnitWeightsVariantsAgree(s, homeAdvantage, rho, attack, defense, ms[..k]);
      assert ms[k] in ms;
      TermUnitWeightAgrees(s, homeAdvantage, rho, attack, defense, ms[k]);
      LogLikelihoodStep(s.(mode := TimeSeasonAndRecord), s.(mode := TimeSeasonOnly), homeAdvantage, rho, attack, defense, ms, ms);
    }
  }
}
