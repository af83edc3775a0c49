/** The per-match weight of `dc_log_likelihood`: a recency decay
    `1 / (1 + eps * days)`, a season penalty `penalty ^ seasonsAgo`, and the
    record's own resimulation weight. */
module MatchWeights {
  import opened Wrappers
  import opened Records

  /** `max(0, x)`. */
  function Max0(x: int): (r: nat)
    ensures r >= x && (r == x || r == 0)
  {
    if x > 0 then x else 0
  }

  /** Recency decay for a match `days` old. */
  function Decay(eps: real, days: nat): (w: real)
    requires eps >= 0.0
    ensures 0.0 < w <= 1.0
    ensures w * (1.0 + eps * days as real) == 1.0
  {
    1.0 / (1.0 + eps * days as real)
  }

  /** An older match never weighs more than a newer one. */
  lemma DecayNonIncreasing(eps: real, newer: nat, older: nat)
    requires eps >= 0.0 && newer <= older
    ensures Decay(eps, older) <= Decay(eps, newer)
  {
    var a, b := 1.0 + eps * newer as real, 1.0 + eps * older as real;
    assert eps * newer as real <= eps * older as real by {
      MulMonotone(eps, newer as real, older as real);
    }
    ReciprocalAntitone(a, b);
  }

  lemma MulMonotone(x: real, a: real, b: real)
    requires 0.0 <= x && a <= b
    ensures x * a <= x * b
  {
    assert x * b - x * a == x * (b - a);
  }

  lemma ReciprocalAntitone(a: real, b: real)
    requires 0.0 < a <= b
    ensures 1.0 / b <= 1.0 / a
  {
    var p, q := 1.0 / b, 1.0 / a;
    assert p * b == 1.0 && q * a == 1.0;
    MulMonotone(p, a, b);
    assert p * a <= q * a;
  }

  /** With a positive rate, the decay is 1 exactly for a match 0 days old. */
  lemma DecayIsOneOnlyAtZero(eps: real, days: nat)
    requires eps >= 0.0
    ensures eps > 0.0 ==> (Decay(eps, days) == 1.0 <==> days == 0)
  {
    if eps > 0.0 && Decay(eps, days) == 1.0 {
      assert 1.0 + eps * days as real == 1.0;
      assert eps * days as real == 0.0;
    }
  }

  /** The `days_ago` the decay is applied to, from the first applicable case:
      a precomputed `days_from_ref`; else `max(0, reference - date)` when both
      dates exist; else none (and the decay is skipped). */
  function DaysAgo(m: Match, referenceDate: Option<int>): Option<nat> {
    if m.daysFromRef.Some? then m.daysFromRef
    else if referenceDate.Some? && m.date.Some? then Some(Max0(referenceDate.value - m.date.value))
    else None
  }

  /** The recency part of the weight. It lies in (0, 1]; with a positive rate
      it is 1 exactly when there is no age to decay or the age is 0. */
  function TimeWeight(m: Match, referenceDate: Option<int>, eps: real): (w: real)
    requires eps >= 0.0
    ensures 0.0 < w <= 1.0
    ensures eps > 0.0 ==> (w == 1.0 <==> DaysAgo(m, referenceDate) in {None, Some(0)})
  {
    match DaysAgo(m, referenceDate)
    case None => 1.0
    case Some(d) => DecayIsOneOnlyAtZero(eps, d); Decay(eps, d)
  }

  /** Whether a precomputed `days_from_ref` or the on-the-fly computation
      supplies the age, a match annotated the way the preprocessors annotate it
      gets the same time weight. */
  lemma AnnotatedAgreesWithOnTheFly(m: Match, referenceDate: int, eps: real)
    requires eps >= 0.0 && m.date.Some?
    ensures TimeWeight(m.(daysFromRef := Some(Max0(referenceDate - m.date.value))), Some(referenceDate), eps)
         == TimeWeight(m.(daysFromRef := None), Some(referenceDate), eps)
  {
  }

  /** Python truthiness of an optional season: present and non-zero. */
  predicate Truthy(s: Option<int>) {
    s.Some? && s.value != 0
  }

  /** `current_season - match.get('season', current_season)` when both are
      truthy, else 0. A record without a season is never penalised. */
  function SeasonsAgo(currentSeason: Option<int>, matchSeason: Option<int>): (k: int)
    ensures matchSeason.None? ==> k == 0
    ensures !Truthy(currentSeason) || !Truthy(matchSeason) ==> k == 0
    ensures Truthy(currentSeason) && Truthy(matchSeason) ==> k + matchSeason.value == currentSeason.value
  {
    var season := if matchSeason.Some? then matchSeason else currentSeason;
    if Truthy(currentSeason) && Truthy(season) then currentSeason.value - season.value else 0
  }

  /** `x ** k` for a natural exponent. */
  function Pow(x: real, k: nat): (r: real)
    ensures 0.0 < x ==> 0.0 < r
    ensures 0.0 < x <= 1.0 ==> r <= 1.0
  {
    if k == 0 then 1.0
    else
      var p := Pow(x, k - 1);
      assert 0.0 < x <= 1.0 ==> x * p <= 1.0 by {
        if 0.0 < x <= 1.0 {
          ScaleDown(x, p);
        }
      }
      x * p
  }

  /** Scaling by a factor in [0, 1] does not increase a non-negative value. */
  lemma ScaleDown(x: real, a: real)
    requires 0.0 <= x <= 1.0 && 0.0 <= a
    ensures x * a <= a
  {
    assert (1.0 - x) * a >= 0.0;
  }

  /** Scaling a positive value by a factor in (0, 1] keeps it positive and
      does not increase it. */
  lemma ScalePositive(x: real, a: real)
    requires 0.0 < x <= 1.0 && 0.0 < a
    ensures 0.0 < x * a <= a
  {
    ScaleDown(x, a);
  }

  /** `x * a`: a factor in (0, 1] keeps a positive value positive and does
      not increase it. */
  function Scale(x: real, a: real): (r: real)
    ensures 0.0 < x <= 1.0 && 0.0 < a ==> 0.0 < r <= a
  {
    assert 0.0 < x <= 1.0 && 0.0 < a ==> 0.0 < x * a <= a by {
      if 0.0 < x <= 1.0 && 0.0 < a {
        ScalePositive(x, a);
      }
    }
    x * a
  }

  /** A higher power of a factor in (0, 1] is no larger. */
  lemma {:induction false} PowNonIncreasing(x: real, j: nat, k: nat)
    requires 0.0 < x <= 1.0 && j <= k
    ensures Pow(x, k) <= Pow(x, j)
    decreases k - j
  {
    if j < k {
      PowNonIncreasing(x, j, k - 1);
      ScaleDown(x, Pow(x, k - 1));
    }
  }

  /** The season part of the weight: `penalty ^ seasonsAgo` when
      `seasonsAgo > 0`, else 1. */
  function SeasonFactor(penalty: real, seasonsAgo: int): (f: real)
    ensures seasonsAgo <= 0 ==> f == 1.0
    ensures 0.0 < penalty <= 1.0 ==> 0.0 < f <= 1.0
  {
    if seasonsAgo > 0 then Pow(penalty, seasonsAgo) else 1.0
  }

  /** A record's `weight`, defaulting to 1.0. */
  function RecordWeight(m: Match): real {
    m.weight.GetOr(1.0)
  }

  /** Which weight multiplies a match's log-term: the resimulated-shots model
      uses time x season x record weight, the totals model only time x season. */
  datatype Weighting = TimeSeasonAndRecord | TimeSeasonOnly

  /** The weight a match's log-term is multiplied by. For a penalty in (0, 1]
      and a positive record weight it is positive and at most the record
      weight; the totals weighting never looks at the record weight. */
  function TermWeight(mode: Weighting, m: Match, meta: Metadata, eps: real, penalty: real): (w: real)
    requires eps >= 0.0
    ensures 0.0 < penalty <= 1.0 && mode == TimeSeasonOnly ==> 0.0 < w <= 1.0
    ensures 0.0 < penalty <= 1.0 && mode == TimeSeasonAndRecord && RecordWeight(m) > 0.0
      ==> 0.0 < w <= RecordWeight(m)
  {
    var timeWeight := Scale(TimeWeight(m, meta.referenceDate, eps),
                            SeasonFactor(penalty, SeasonsAgo(meta.currentSeason, m.season)));
    match mode
    case TimeSeasonOnly => timeWeight
    case TimeSeasonAndRecord => Scale(timeWeight, RecordWeight(m))
  }

  /** For a record whose weight is 1.0 (or absent) the two weightings agree. */
  lemma UnitRecordWeightAgrees(m: Match, meta: Metadata, eps: real, penalty: real)
    requires eps >= 0.0 && RecordWeight(m) == 1.0
    ensures TermWeight(TimeSeasonAndRecord, m, meta, eps, penalty) == TermWeight(TimeSeasonOnly, m, meta, eps, penalty)
  {
  }

  /** The totals weighting does not depend on the record's `weight` field. */
  lemma TimeSeasonOnlyIgnoresRecordWeight(m: Match, w: Option<real>, meta: Metadata, eps: real, penalty: real)
    requires eps >= 0.0
    ensures TermWeight(TimeSeasonOnly, m, meta, eps, penalty) == TermWeight(TimeSeasonOnly, m.(weight := w), meta, eps, penalty)
  {
  }
}
