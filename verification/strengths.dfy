/** The table `print_team_strengths` builds and returns (the printing itself
    is not part of this model). Every fitted team not excluded gets a row:
    its ratings, their log and plain differences, and its expected goals for
    and against a league-average opponent; the rows come sorted by that
    goal difference, largest first. `all_teams` is built from a Python set,
    so its order is a parameter here: any listing of the fitted teams. */
module Strengths {
  import opened Teams
  import opened TeamModel

  datatype Strength = Strength(team: string, attack: real, defense: real, logStrength: real, absStrength: real,
                               xgVsAvg: real, xgaVsAvg: real, goalDiffVsAvg: real)

  /** `[team for team in all_teams if team not in exclude_teams]`. */
  function Remaining(order: seq<string>, exclude: seq<string>): (r: seq<string>)
    ensures |r| <= |order|
    ensures forall t :: t in r <==> t in order && t !in exclude
    ensures Distinct(order) ==> Distinct(r)
  {
    if |order| == 0 then []
    else
      var rest := Remaining(order[1..], exclude);
      assert forall t :: t in order <==> t == order[0] || t in order[1..];
      if order[0] in exclude then rest
      else
        assert Distinct(order) ==> order[0] !in order[1..];
        [order[0]] + rest
  }

  /** `sum(ratings.get(team, 0) for team in teams)`. */
  function Total(teams: seq<string>, ratings: map<string, real>): real {
    if |teams| == 0 then 0.0 else (if teams[0] in ratings then ratings[teams[0]] else 0.0) + Total(teams[1..], ratings)
  }

  /** `total / num_teams if num_teams > 0 else 1.0`. */
  function Average(teams: seq<string>, ratings: map<string, real>): (avg: real)
    ensures |teams| > 0 ==> avg * |teams| as real == Total(teams, ratings)
    ensures |teams| == 0 ==> avg == 1.0
  {
    if |teams| > 0 then Total(teams, ratings) / |teams| as real else 1.0
  }

  /** One team's row against averages `avgAttack` and `avgDefense`. */
  function Row(t: string, attack: real, defense: real, avgAttack: real, avgDefense: real,
               log: real -> real): (row: Strength)
    ensures row.team == t && row.attack == attack && row.defense == defense
    ensures row.xgVsAvg == attack * avgDefense && row.xgaVsAvg == avgAttack * defense
    ensures row.absStrength == attack - defense && row.logStrength == log(attack) - log(defense)
    ensures row.goalDiffVsAvg == row.xgVsAvg - row.xgaVsAvg
  {
    var xg := attack * avgDefense;
    var xga := avgAttack * defense;
    Strength(t, attack, defense, log(attack) - log(defense), attack - defense, xg, xga, xg - xga)
  }

  /** The rows of `teams`, in the order of `teams`. */
  function Rows(teams: seq<string>, model: Model, avgAttack: real, avgDefense: real, log: real -> real): (r: seq<Strength>)
    requires forall t :: t in teams ==> t in model.attack && t in model.defense
    ensures |r| == |teams|
  {
    if |teams| == 0 then []
    else
      [Row(teams[0], model.attack[teams[0]], model.defense[teams[0]], avgAttack, avgDefense, log)]
      + Rows(teams[1..], model, avgAttack, avgDefense, log)
  }

  /** Row `i` is the row of `teams[i]`. */
  lemma {:induction false} RowsAt(teams: seq<string>, model: Model, avgAttack: real, avgDefense: real, log: real -> real)
    requires forall t :: t in teams ==> t in model.attack && t in model.defense
    ensures forall i :: 0 <= i < |teams| ==>
      Rows(teams, model, avgAttack, avgDefense, log)[i]
        == Row(teams[i], model.attack[teams[i]], model.defense[teams[i]], avgAttack, avgDefense, log)
    decreases |teams|
  {
    if |teams| > 0 {
      RowsAt(teams[1..], model, avgAttack, avgDefense, log);
    }
  }

  /** Every row is the row of its own team. */
  lemma RowsOfOwnTeams(teams: seq<string>, model: Model, avgAttack: real, avgDefense: real, log: real -> real)
    requires forall t :: t in teams ==> t in model.attack && t in model.defense
    ensures forall row :: row in Rows(teams, model, avgAttack, avgDefense, log) ==>
      row.team in teams
      && row == Row(row.team, model.attack[row.team], model.defense[row.team], avgAttack, avgDefense, log)
  {
    var rows := Rows(teams, model, avgAttack, avgDefense, log);
    RowsAt(teams, model, avgAttack, avgDefense, log);
    forall row | row in rows
      ensures row.team in teams
      ensures row == Row(row.team, model.attack[row.team], model.defense[row.team], avgAttack, avgDefense, log)
    {
      var i :| 0 <= i < |rows| && rows[i] == row;
    }
  }

  predicate NonIncreasing(rows: seq<Strength>) {
    forall i, j :: 0 <= i < j < |rows| ==> rows[i].goalDiffVsAvg >= rows[j].goalDiffVsAvg
  }

  /** Puts `x` in front of the first row whose goal difference is not larger. */
  function InsertByDiff(x: Strength, rows: seq<Strength>): (r: seq<Strength>)
    requires NonIncreasing(rows)
    ensures NonIncreasing(r)
    ensures multiset(r) == multiset(rows) + multiset{x}
    ensures r[0] == x || r[0] == rows[0]
  {
    if |rows| == 0 then [x]
    else if rows[0].goalDiffVsAvg <= x.goalDiffVsAvg then
      ConsNonIncreasing(x, rows);
      [x] + rows
    else
      var rest := InsertByDiff(x, rows[1..]);
      assert rows == [rows[0]] + rows[1..];
      ConsNonIncreasing(rows[0], rest);
      [rows[0]] + rest
  }

  /** A row no smaller than the head of a non-increasing list can go in
      front of it. */
  lemma ConsNonIncreasing(x: Strength, rows: seq<Strength>)
    requires NonIncreasing(rows)
    requires |rows| > 0 ==> rows[0].goalDiffVsAvg <= x.goalDiffVsAvg
    ensures NonIncreasing([x] + rows)
  {
    var r := [x] + rows;
    forall i, j | 0 <= i < j < |r| ensures r[i].goalDiffVsAvg >= r[j].goalDiffVsAvg {
      assert r[j] == rows[j - 1];
      if i > 0 {
        assert r[i] == rows[i - 1];
      } else if j > 1 {
        assert rows[0].goalDiffVsAvg >= rows[j - 1].goalDiffVsAvg;
      }
    }
  }

  /** `sorted(rows, key=goal_diff_vs_avg, reverse=True)`: a permutation of
      the rows, largest goal difference first; rows with equal goal
      difference keep their order. */
  function SortByDiff(rows: seq<Strength>): (r: seq<Strength>)
    ensures NonIncreasing(r)
    ensures multiset(r) == multiset(rows)
  {
    if |rows| == 0 then []
    else
      assert rows == [rows[0]] + rows[1..];
      InsertByDiff(rows[0], SortByDiff(rows[1..]))
  }

  /** The teams a table lists. */
  function TeamsOf(rows: seq<Strength>): set<string> {
    set row | row in rows :: row.team
  }

  /** The sorted table of `teams`, measured against their own averages. */
  function Table(model: Model, teams: seq<string>, log: real -> real): (r: seq<Strength>)
    requires forall t :: t in teams ==> t in model.attack && t in model.defense
    ensures |r| == |teams|
    ensures NonIncreasing(r)
    ensures forall t :: t in TeamsOf(r) <==> t in teams
    ensures forall row :: row in r ==>
      row == Row(row.team, model.attack[row.team], model.defense[row.team],
                 Average(teams, model.attack), Average(teams, model.defense), log)
  {
    var rows := Rows(teams, model, Average(teams, model.attack), Average(teams, model.defense), log);
    RowsAt(teams, model, Average(teams, model.attack), Average(teams, model.defense), log);
    RowsOfOwnTeams(teams, model, Average(teams, model.attack), Average(teams, model.defense), log);
    var r := SortByDiff(rows);
    assert |r| == |multiset(r)| == |multiset(rows)|;
    assert forall row :: row in r <==> row in rows by {
      forall row ensures row in r <==> row in rows {
        assert row in r <==> row in multiset(r);
        assert row in rows <==> row in multiset(rows);
      }
    }
    assert forall t :: t in TeamsOf(rows) <==> t in teams by {
      forall t ensures t in TeamsOf(rows) <==> t in teams {
        if t in teams {
          var i :| 0 <= i < |teams| && teams[i] == t;
          assert rows[i] in rows;
        }
      }
    }
    assert TeamsOf(r) == TeamsOf(rows);
    r
  }

  /** `print_team_strengths(exclude_teams)` on a fitted model, the keys of
      `team_attack` listed in the order `order`. */
  function TeamStrengths(model: Model, order: seq<string>, exclude: seq<string>, log: real -> real): (r: seq<Strength>)
    requires WellFormed(model) && Distinct(order) && Elements(order) == model.attack.Keys
    ensures |r| == |Remaining(order, exclude)|
    ensures NonIncreasing(r)
    ensures forall t :: t in TeamsOf(r) <==> t in model.attack && t !in exclude
    ensures forall row :: row in r ==>
      var teams := Remaining(order, exclude);
      row == Row(row.team, model.attack[row.team], model.defense[row.team],
                 Average(teams, model.attack), Average(teams, model.defense), log)
  {
    Table(model, Remaining(order, exclude), log)
  }

  // ---------------------------------------------------------------------
  // Properties

  function DiffSum(rows: seq<Strength>): real {
    if |rows| == 0 then 0.0 else rows[0].goalDiffVsAvg + DiffSum(rows[1..])
  }

  lemma {:induction false} InsertKeepsDiffSum(x: Strength, rows: seq<Strength>)
    requires NonIncreasing(rows)
    ensures DiffSum(InsertByDiff(x, rows)) == x.goalDiffVsAvg + DiffSum(rows)
    decreases |rows|
  {
    if |rows| > 0 && rows[0].goalDiffVsAvg > x.goalDiffVsAvg {
      InsertKeepsDiffSum(x, rows[1..]);
      assert ([rows[0]] + InsertByDiff(x, rows[1..]))[1..] == InsertByDiff(x, rows[1..]);
    } else if |rows| > 0 {
      assert ([x] + rows)[1..] == rows;
    }
  }

  lemma {:induction false} SortKeepsDiffSum(rows: seq<Strength>)
    ensures DiffSum(SortByDiff(rows)) == DiffSum(rows)
    decreases |rows|
  {
    if |rows| > 0 {
      SortKeepsDiffSum(rows[1..]);
      InsertKeepsDiffSum(rows[0], SortByDiff(rows[1..]));
    }
  }

  /** Summed over the rows, the goal differences are
      `avgDefense * total attack - avgAttack * total defense`. */
  lemma RowsDiffSum(teams: seq<string>, model: Model, avgAttack: real, avgDefense: real,
                    log: real -> real)
    requires forall t :: t in teams ==> t in model.attack && t in model.defense
    ensures DiffSum(Rows(teams, model, avgAttack, avgDefense, log))
         == avgDefense * Total(teams, model.attack) - avgAttack * Total(teams, model.defense)
  {
    RowsSpread(teams, model, avgAttack, avgDefense, log);
    SpreadTotals(teams, model, avgAttack, avgDefense);
  }

  /** `sum(attack * avgDefense - avgAttack * defense)` over the teams. */
  function Spread(teams: seq<string>, model: Model, avgAttack: real, avgDefense: real): real
    requires forall t :: t in teams ==> t in model.attack && t in model.defense
  {
    if |teams| == 0 then 0.0
    else
      model.attack[teams[0]] * avgDefense - avgAttack * model.defense[teams[0]]
      + Spread(teams[1..], model, avgAttack, avgDefense)
  }

  lemma {:induction false} RowsSpread(teams: seq<string>, model: Model, avgAttack: real, avgDefense: real,
                                      log: real -> real)
    requires forall t :: t in teams ==> t in model.attack && t in model.defense
    ensures DiffSum(Rows(teams, model, avgAttack, avgDefense, log)) == Spread(teams, model, avgAttack, avgDefense)
    decreases |teams|
  {
    if |teams| > 0 {
      var rows := Rows(teams, model, avgAttack, avgDefense, log);
      RowsSpread(teams[1..], model, avgAttack, avgDefense, log);
      assert rows[1..] == Rows(teams[1..], model, avgAttack, avgDefense, log);
    }
  }

  lemma {:induction false} SpreadTotals(teams: seq<string>, model: Model, avgAttack: real, avgDefense: real)
    requires forall t :: t in teams ==> t in model.attack && t in model.defense
    ensures Spread(teams, model, avgAttack, avgDefense)
         == avgDefense * Total(teams, model.attack) - avgAttack * Total(teams, model.defense)
    decreases |teams|
  {
    if |teams| > 0 {
      var a, d := model.attack[teams[0]], model.defense[teams[0]];
      var ta, td := Total(teams[1..], model.attack), Total(teams[1..], model.defense);
      SpreadTotals(teams[1..], model, avgAttack, avgDefense);
      DiffStep(a, d, ta, td, avgAttack, avgDefense, a * avgDefense - avgAttack * d,
               Spread(teams[1..], model, avgAttack, avgDefense),
               Total(teams, model.attack), Total(teams, model.defense));
    }
  }

  /** One more team adds its own difference to the sum. */
  lemma DiffStep(a: real, d: real, ta: real, td: real, avgA: real, avgD: real,
                 head: real, tail: real, totalA: real, totalD: real)
    requires head == a * avgD - avgA * d && tail == avgD * ta - avgA * td
    requires totalA == a + ta && totalD == d + td
    ensures head + tail == avgD * totalA - avgA * totalD
  {
    assert avgD * (a + ta) == avgD * a + avgD * ta;
    assert avgA * (d + td) == avgA * d + avgA * td;
  }

  lemma Balance(ta: real, td: real, avgA: real, avgD: real, n: real)
    requires avgA * n == ta && avgD * n == td
    ensures avgD * ta == avgA * td
  {
    assert avgD * (avgA * n) == avgA * (avgD * n);
  }

  /** Against the league average, the goal differences of the table cancel
      out: as many goals are expected for as against across the league. */
  lemma GoalDiffsBalance(model: Model, order: seq<string>, exclude: seq<string>, log: real -> real)
    requires WellFormed(model) && Distinct(order) && Elements(order) == model.attack.Keys
    ensures DiffSum(TeamStrengths(model, order, exclude, log)) == 0.0
  {
    TableBalance(model, Remaining(order, exclude), log);
  }

  lemma TableBalance(model: Model, teams: seq<string>, log: real -> real)
    requires forall t :: t in teams ==> t in model.attack && t in model.defense
    ensures DiffSum(Table(model, teams, log)) == 0.0
  {
    var avgA, avgD := Average(teams, model.attack), Average(teams, model.defense);
    var rows := Rows(teams, model, avgA, avgD, log);
    RowsBalance(model, teams, log);
    assert Table(model, teams, log) == SortByDiff(rows);
    SortKeepsDiffSum(rows);
  }

  /** Before sorting, the rows measured against their own averages balance. */
  lemma RowsBalance(model: Model, teams: seq<string>, log: real -> real)
    requires forall t :: t in teams ==> t in model.attack && t in model.defense
    ensures DiffSum(Rows(teams, model, Average(teams, model.attack), Average(teams, model.defense), log)) == 0.0
  {
    var avgA, avgD := Average(teams, model.attack), Average(teams, model.defense);
    var ta, td := Total(teams, model.attack), Total(teams, model.defense);
    if |teams| > 0 {
      assert avgD * ta == avgA * td by {
        Balance(ta, td, avgA, avgD, |teams| as real);
      }
    }
    RowsBalanceAt(model, teams, avgA, avgD, log);
  }

  /** Averages whose cross products with the totals agree balance the rows. */
  lemma RowsBalanceAt(model: Model, teams: seq<string>, avgA: real, avgD: real, log: real -> real)
    requires forall t :: t in teams ==> t in model.attack && t in model.defense
    requires avgD * Total(teams, model.attack) == avgA * Total(teams, model.defense)
    ensures DiffSum(Rows(teams, model, avgA, avgD, log)) == 0.0
  {
    RowsDiffSum(teams, model, avgA, avgD, log);
  }

  /** When the remaining teams' ratings average exactly 1 (what the fit's
      constraint penalty pushes towards), a row's goal difference against
      the average is its plain strength difference, so the table is also
      ranked by `attack - defense`. */
  lemma UnitAveragesRankByAbsStrength(model: Model, order: seq<string>, exclude: seq<string>, log: real -> real)
    requires WellFormed(model) && Distinct(order) && Elements(order) == model.attack.Keys
    requires var teams := Remaining(order, exclude);
      Total(teams, model.attack) == |teams| as real && Total(teams, model.defense) == |teams| as real
    ensures var r := TeamStrengths(model, order, exclude, log);
      forall i :: 0 <= i < |r| ==> r[i].goalDiffVsAvg == r[i].absStrength
  {
    TableUnitAverages(model, Remaining(order, exclude), log);
  }

  lemma TableUnitAverages(model: Model, teams: seq<string>, log: real -> real)
    requires forall t :: t in teams ==> t in model.attack && t in model.defense
    requires Total(teams, model.attack) == |teams| as real && Total(teams, model.defense) == |teams| as real
    ensures var r := Table(model, teams, log);
      forall i :: 0 <= i < |r| ==> r[i].goalDiffVsAvg == r[i].absStrength
  {
    var avgA, avgD := Average(teams, model.attack), Average(teams, model.defense);
    assert avgA == 1.0 && avgD == 1.0 by {
      UnitAverage(teams, model.attack);
      UnitAverage(teams, model.defense);
    }
    var rows := Rows(teams, model, avgA, avgD, log);
    assert forall k :: 0 <= k < |rows| ==> rows[k].goalDiffVsAvg == rows[k].absStrength by {
      RowsAt(teams, model, avgA, avgD, log);
    }
    var r := Table(model, teams, log);
    assert r == SortByDiff(rows);
    forall i | 0 <= i < |r| ensures r[i].goalDiffVsAvg == r[i].absStrength {
      assert r[i] in multiset(rows);
      var k :| 0 <= k < |rows| && rows[k] == r[i];
    }
  }

  /** Ratings that total the number of teams average exactly 1. */
  lemma UnitAverage(teams: seq<string>, ratings: map<string, real>)
    requires Total(teams, ratings) == |teams| as real
    ensures Average(teams, ratings) == 1.0
  {
    if |teams| > 0 {
      var avg, n := Average(teams, ratings), |teams| as real;
      CancelFactor(avg, n, Total(teams, ratings));
    }
  }

  lemma CancelFactor(x: real, n: real, total: real)
    requires n > 0.0 && x * n == total && total == n
    ensures x == 1.0
  {
    assert (x * n) / n == x;
  }

  /** An unfitted model has no teams, so its table is empty whatever is
      excluded. */
  lemma UnfittedTableIsEmpty(exclude: seq<string>, log: real -> real)
    ensures TeamStrengths(Unfitted(), [], exclude, log) == []
  {
  }

  /** With every team excluded the averages fall back to 1.0 and the table
      is empty. */
  lemma AllExcludedIsEmpty(model: Model, order: seq<string>, log: real -> real)
    requires WellFormed(model) && Distinct(order) && Elements(order) == model.attack.Keys
    ensures TeamStrengths(model, order, order, log) == []
  {
  }
}
