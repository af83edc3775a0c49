/** `load_data`: the shot rows of `prem_data` turned into one summary per
    match. A shot is a goal when its outcome is `Goal`; shots by the home
    team and by the away team are summed per match key; a match gets a
    summary only when both sides have at least one shot. The sqlite read is
    not modelled: the rows are the input. */
module MatchSummaries {
  import opened Wrappers

  /** A row of `prem_data`. A `NULL` cell is `None`. */
  datatype ShotRow = ShotRow(
    url: Option<string>, date: Option<string>, home: Option<string>, away: Option<string>,
    season: Option<int>, team: Option<string>, outcome: Option<string>,
    xg: Option<real>, psxg: Option<real>)

  /** The grouping key `(match_url, match_date, home_team, away_team, season)`. */
  datatype Key = Key(url: Option<string>, date: Option<string>, home: Option<string>,
                     away: Option<string>, season: Option<int>)

  function KeyOf(r: ShotRow): Key {
    Key(r.url, r.date, r.home, r.away, r.season)
  }

  /** `groupby` drops every row with a missing key value. */
  predicate Complete(k: Key) {
    k.url.Some? && k.date.Some? && k.home.Some? && k.away.Some? && k.season.Some?
  }

  /** Line 19: `1 if x == 'Goal' else 0`. */
  function IsGoal(outcome: Option<string>): (g: nat)
    ensures g <= 1 && (g == 1 <==> outcome == Some("Goal"))
  {
    if outcome == Some("Goal") then 1 else 0
  }

  datatype Side = Home | Away

  /** Lines 22-23: the shooting team equals the row's home (or away) team;
      a missing team equals nothing, as `NaN == NaN` is false. */
  predicate OnSide(r: ShotRow, side: Side) {
    r.team.Some? && r.team == (if side == Home then r.home else r.away)
  }

  predicate Belongs(r: ShotRow, k: Key, side: Side) {
    OnSide(r, side) && KeyOf(r) == k
  }

  /** The shots of one side of one match, in row order. */
  function SideRows(rows: seq<ShotRow>, k: Key, side: Side): (r: seq<ShotRow>)
    ensures |r| <= |rows|
    ensures forall s :: s in r <==> s in rows && Belongs(s, k, side)
  {
    if |rows| == 0 then []
    else
      var n := |rows| - 1;
      var rest := SideRows(rows[..n], k, side);
      assert rows == rows[..n] + [rows[n]];
      if Belongs(rows[n], k, side) then rest + [rows[n]] else rest
  }

  /** The shots among `rows` that went in. */
  function Goals(rows: seq<ShotRow>): (r: seq<ShotRow>)
    ensures |r| <= |rows|
    ensures forall s :: s in r <==> s in rows && s.outcome == Some("Goal")
  {
    if |rows| == 0 then []
    else
      var n := |rows| - 1;
      var rest := Goals(rows[..n]);
      assert rows == rows[..n] + [rows[n]];
      if rows[n].outcome == Some("Goal") then rest + [rows[n]] else rest
  }

  /** `sum` skips missing values, and an all-missing group sums to zero. */
  function OrZero(x: Option<real>): real {
    x.GetOr(0.0)
  }

  /** The three sums of lines 26-37 for one side of one match. */
  datatype Totals = Totals(goals: nat, xg: real, psxg: real)

  function SideTotals(rows: seq<ShotRow>, k: Key, side: Side): (t: Totals)
  {
    if |rows| == 0 then Totals(0, 0.0, 0.0)
    else
      var n := |rows| - 1;
      var rest := SideTotals(rows[..n], k, side);
      var r := rows[n];
      if Belongs(r, k, side) then Totals(rest.goals + IsGoal(r.outcome), rest.xg + OrZero(r.xg), rest.psxg + OrZero(r.psxg))
      else rest
  }

  /** A side's goal total counts that side's goal shots, so it never exceeds
      the side's shots. */
  lemma {:induction false} SideGoalsCountGoals(rows: seq<ShotRow>, k: Key, side: Side)
    ensures SideTotals(rows, k, side).goals == |Goals(SideRows(rows, k, side))|
    ensures SideTotals(rows, k, side).goals <= |SideRows(rows, k, side)|
    decreases |rows|
  {
    if |rows| > 0 {
      var n := |rows| - 1;
      SideGoalsCountGoals(rows[..n], k, side);
      if Belongs(rows[n], k, side) {
        GoalsSnoc(SideRows(rows[..n], k, side), rows[n]);
      }
    }
  }

  /** The `xG` column summed over some shots, a missing value counting zero. */
  function SumXg(rows: seq<ShotRow>): real {
    if |rows| == 0 then 0.0 else SumXg(rows[..|rows| - 1]) + OrZero(rows[|rows| - 1].xg)
  }

  /** The `PSxG` column summed over some shots, a missing value counting zero. */
  function SumPsxg(rows: seq<ShotRow>): real {
    if |rows| == 0 then 0.0 else SumPsxg(rows[..|rows| - 1]) + OrZero(rows[|rows| - 1].psxg)
  }

  /** A side's xG and PSxG totals are the column sums over that side's shots. */
  lemma {:induction false} SideSumsOverSideRows(rows: seq<ShotRow>, k: Key, side: Side)
    ensures SideTotals(rows, k, side).xg == SumXg(SideRows(rows, k, side))
    ensures SideTotals(rows, k, side).psxg == SumPsxg(SideRows(rows, k, side))
    decreases |rows|
  {
    if |rows| > 0 {
      var n := |rows| - 1;
      SideSumsOverSideRows(rows[..n], k, side);
      var rest := SideRows(rows[..n], k, side);
      if Belongs(rows[n], k, side) {
        assert (rest + [rows[n]])[..|rest|] == rest;
      }
    }
  }

  lemma GoalsSnoc(rows: seq<ShotRow>, x: ShotRow)
    ensures |Goals(rows + [x])| == |Goals(rows)| + IsGoal(x.outcome)
  {
    assert (rows + [x])[..|rows|] == rows;
  }

  /** The sums add up over a split of the rows: the totals do not depend on
      how the table is cut into pieces. */
  lemma {:induction false} SideTotalsAppend(a: seq<ShotRow>, b: seq<ShotRow>, k: Key, side: Side)
    ensures var x, y, z := SideTotals(a + b, k, side), SideTotals(a, k, side), SideTotals(b, k, side);
      x.goals == y.goals + z.goals && x.xg == y.xg + z.xg && x.psxg == y.psxg + z.psxg
    decreases |b|
  {
    if |b| > 0 {
      var n := |b| - 1;
      assert (a + b)[..|a + b| - 1] == a + b[..n];
      assert (a + b)[|a + b| - 1] == b[n];
      SideTotalsAppend(a, b[..n], k, side);
    } else {
      assert a + b == a;
    }
  }

  /** One row of `match_summaries`. */
  datatype Summary = Summary(homeGoals: nat, homeXg: real, homePsxg: real,
                             awayGoals: nat, awayXg: real, awayPsxg: real)

  /** The keys of the groups one side forms. */
  function SideKeys(rows: seq<ShotRow>, side: Side): set<Key> {
    set r | r in rows && OnSide(r, side) && Complete(KeyOf(r)) :: KeyOf(r)
  }

  /** Lines 26-58: the home and away groups, joined on their key. A match
      gets a summary exactly when its key is complete and both sides have a
      shot; its columns are the sums of its home and away shots, and each
      side's goals are at most that side's shots. */
  function Summaries(rows: seq<ShotRow>): (r: map<Key, Summary>)
    ensures forall k :: k in r <==> Complete(k) && |SideRows(rows, k, Home)| > 0 && |SideRows(rows, k, Away)| > 0
    ensures forall k :: k in r ==>
      && r[k].homeGoals <= |SideRows(rows, k, Home)|
      && r[k].awayGoals <= |SideRows(rows, k, Away)|
  {
    forall k ensures k in SideKeys(rows, Home) <==> Complete(k) && |SideRows(rows, k, Home)| > 0 {
      SideKeyHasRows(rows, k, Home);
    }
    forall k ensures k in SideKeys(rows, Away) <==> Complete(k) && |SideRows(rows, k, Away)| > 0 {
      SideKeyHasRows(rows, k, Away);
    }
    forall k ensures SideTotals(rows, k, Home).goals <= |SideRows(rows, k, Home)|
                  && SideTotals(rows, k, Away).goals <= |SideRows(rows, k, Away)| {
      SideGoalsCountGoals(rows, k, Home);
      SideGoalsCountGoals(rows, k, Away);
    }
    map k | k in SideKeys(rows, Home) * SideKeys(rows, Away) ::
      var h, a := SideTotals(rows, k, Home), SideTotals(rows, k, Away);
      Summary(h.goals, h.xg, h.psxg, a.goals, a.xg, a.psxg)
  }

  lemma SideKeyHasRows(rows: seq<ShotRow>, k: Key, side: Side)
    ensures k in SideKeys(rows, side) <==> Complete(k) && |SideRows(rows, k, side)| > 0
  {
    var sr := SideRows(rows, k, side);
    if Complete(k) && |sr| > 0 {
      assert sr[0] in sr;
      assert KeyOf(sr[0]) == k;
    }
  }

  /** A shot by neither the home nor the away team changes no summary. */
  lemma {:induction false} NeutralShotIgnored(rows: seq<ShotRow>, r: ShotRow)
    requires !OnSide(r, Home) && !OnSide(r, Away)
    ensures Summaries(rows + [r]) == Summaries(rows)
  {
    var more := rows + [r];
    assert more[..|rows|] == rows;
    forall k, side ensures SideTotals(more, k, side) == SideTotals(rows, k, side)
                       && SideRows(more, k, side) == SideRows(rows, k, side) {
    }
    assert SideKeys(more, Home) == SideKeys(rows, Home) by {
      forall k ensures k in SideKeys(more, Home) <==> k in SideKeys(rows, Home) {
        SideKeyHasRows(more, k, Home);
        SideKeyHasRows(rows, k, Home);
      }
    }
    assert SideKeys(more, Away) == SideKeys(rows, Away) by {
      forall k ensures k in SideKeys(more, Away) <==> k in SideKeys(rows, Away) {
        SideKeyHasRows(more, k, Away);
        SideKeyHasRows(rows, k, Away);
      }
    }
  }

  /** A match's xG and PSxG columns are the sums over its home and its away
      shots. */
  lemma SummaryColumnsAreSums(rows: seq<ShotRow>, k: Key)
    requires k in Summaries(rows)
    ensures var home, away := SideRows(rows, k, Home), SideRows(rows, k, Away);
      && Summaries(rows)[k].homeXg == SumXg(home) && Summaries(rows)[k].homePsxg == SumPsxg(home)
      && Summaries(rows)[k].awayXg == SumXg(away) && Summaries(rows)[k].awayPsxg == SumPsxg(away)
  {
    SideSumsOverSideRows(rows, k, Home);
    SideSumsOverSideRows(rows, k, Away);
  }

  /** A match's home goals are the number of its home shots that went in. */
  lemma HomeGoalsCountGoalShots(rows: seq<ShotRow>, k: Key)
    requires k in Summaries(rows)
    ensures Summaries(rows)[k].homeGoals == |Goals(SideRows(rows, k, Home))|
    ensures Summaries(rows)[k].awayGoals == |Goals(SideRows(rows, k, Away))|
  {
    SideGoalsCountGoals(rows, k, Home);
    SideGoalsCountGoals(rows, k, Away);
  }
}
