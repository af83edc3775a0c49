/** The parameter vector the optimizer works on:
    `[home_advantage, rho, attack_1..attack_n, defense_1..defense_n]`, teams
    in sorted order, with the initial guess and the box bounds of
    `_optimize_dc_parameters`. */
module ParamLayout {

  datatype Params = Params(homeAdvantage: real, rho: real, attack: seq<real>, defense: seq<real>)

  /** Parameters for `n` teams. */
  predicate Shaped(p: Params, n: nat) {
    |p.attack| == n && |p.defense| == n
  }

  /** The flat vector handed to the optimizer. */
  function Flatten(p: Params): (v: seq<real>)
    requires |p.attack| == |p.defense|
    ensures |v| == 2 + 2 * |p.attack|
    ensures v[0] == p.homeAdvantage && v[1] == p.rho
    ensures forall i :: 0 <= i < |p.attack| ==> v[2 + i] == p.attack[i]
    ensures forall i :: 0 <= i < |p.defense| ==> v[2 + |p.attack| + i] == p.defense[i]
  {
    [p.homeAdvantage, p.rho] + p.attack + p.defense
  }

  /** `params[0]`, `params[1]`, `params[2:2+n]`, `params[2+n:]`. */
  function Unflatten(v: seq<real>, n: nat): (p: Params)
    requires |v| == 2 + 2 * n
    ensures Shaped(p, n)
  {
    Params(v[0], v[1], v[2..2 + n], v[2 + n..])
  }

  lemma UnflattenFlatten(p: Params)
    requires |p.attack| == |p.defense|
    ensures Unflatten(Flatten(p), |p.attack|) == p
  {
    var v := Flatten(p);
    var n := |p.attack|;
    assert v[2..2 + n] == p.attack;
    assert v[2 + n..] == p.defense;
  }

  lemma FlattenUnflatten(v: seq<real>, n: nat)
    requires |v| == 2 + 2 * n
    ensures Flatten(Unflatten(v, n)) == v
  {
    assert v == [v[0], v[1]] + v[2..2 + n] + v[2 + n..];
  }

  function Fill<T>(x: T, n: nat): (s: seq<T>)
    ensures |s| == n && forall i :: 0 <= i < n ==> s[i] == x
  {
    seq(n, _ => x)
  }

  function Sum(s: seq<real>): real {
    if |s| == 0 then 0.0 else Sum(s[..|s| - 1]) + s[|s| - 1]
  }

  /** `[1.2, 0.1] + [1.0] * n + [1.0] * n`. */
  function Initial(n: nat): (p: Params)
    ensures Shaped(p, n)
  {
    Params(1.2, 0.1, Fill(1.0, n), Fill(1.0, n))
  }

  datatype Bound = Bound(lo: real, hi: real)

  /** `[(0.5, 2.0), (-0.3, 0.3)] + [(0.1, 3.0)] * n + [(0.1, 3.0)] * n`. */
  function Bounds(n: nat): (b: seq<Bound>)
    ensures |b| == 2 + 2 * n
  {
    [Bound(0.5, 2.0), Bound(-0.3, 0.3)] + Fill(Bound(0.1, 3.0), 2 * n)
  }

  predicate WithinBounds(v: seq<real>, b: seq<Bound>) {
    |v| == |b| && forall i :: 0 <= i < |v| ==> b[i].lo <= v[i] <= b[i].hi
  }

  /** The initial guess is a point of the box the optimizer searches, and
      every interval of the box is non-empty. */
  lemma InitialWithinBounds(n: nat)
    ensures WithinBounds(Flatten(Initial(n)), Bounds(n))
    ensures forall i :: 0 <= i < |Bounds(n)| ==> Bounds(n)[i].lo < Bounds(n)[i].hi
  {
    var v, b := Flatten(Initial(n)), Bounds(n);
    forall i | 0 <= i < |v| ensures b[i].lo <= v[i] <= b[i].hi {
      if i >= 2 {
        if i < 2 + n {
          assert v[i] == Initial(n).attack[i - 2];
        } else {
          assert v[i] == Initial(n).defense[i - 2 - n];
        }
      }
    }
  }

  /** Every point of the box has a home advantage of at least 0.5 and
      ratings of at least 0.1, so every expected-goals rate built from it is
      positive. */
  lemma BoxedParamsPositive(v: seq<real>, n: nat)
    requires WithinBounds(v, Bounds(n))
    ensures var p := Unflatten(v, n);
      && p.homeAdvantage >= 0.5
      && -0.3 <= p.rho <= 0.3
      && (forall i :: 0 <= i < n ==> p.attack[i] >= 0.1 && p.defense[i] >= 0.1)
  {
    var p := Unflatten(v, n);
    forall i | 0 <= i < n ensures p.attack[i] >= 0.1 && p.defense[i] >= 0.1 {
      assert p.attack[i] == v[2 + i];
      assert p.defense[i] == v[2 + n + i];
    }
  }
}
