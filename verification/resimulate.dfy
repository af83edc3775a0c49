/** `_resimulate_matches_with_xg`: every match with a URL and shot data gets
    `n` synthetic copies whose goals are drawn shot by shot from the shots'
    PSxG, each copy weighing `1/n`; afterwards every real match weighs 1.0.
    The random numbers are a stream `draws` read in the order the source
    consumes them: match by match, simulation by simulation, the home shots
    and then the away shots. */
module Resimulation {
  import opened Wrappers
  import opened Records
  import opened Teams

  /** The stream of `np.random.random()` results. */
  type Draws = nat -> real

  /** `match_url` is truthy. */
  predicate HasUrl(m: Match) {
    m.url.Some? && |m.url.value| > 0
  }

  /** `shot_data[shot_data['match_url'] == url][shot_data['Team'] == team]['PSxG']`,
      in row order. */
  function SidePsxg(shots: seq<Shot>, url: string, team: string): (r: seq<real>)
    ensures |r| <= |shots|
    ensures |r| == 0 <==> forall s :: s in shots ==> s.url != url || s.team != team
  {
    if |shots| == 0 then []
    else
      var rest := SidePsxg(shots[..|shots| - 1], url, team);
      var s := shots[|shots| - 1];
      assert shots == shots[..|shots| - 1] + [s];
      if s.url == url && s.team == team then rest + [s.psxg] else rest
  }

  /** A shot row's own contribution: its PSxG when it matches, nothing otherwise. */
  function RowPsxg(s: Shot, url: string, team: string): seq<real> {
    if s.url == url && s.team == team then [s.psxg] else []
  }

  /** The values come row by row, in row order. */
  lemma {:induction false} SidePsxgAppend(a: seq<Shot>, b: seq<Shot>, url: string, team: string)
    ensures SidePsxg(a + b, url, team) == SidePsxg(a, url, team) + SidePsxg(b, url, team)
    decreases |b|
  {
    if |b| == 0 {
      assert a + b == a;
    } else {
      var n := |b| - 1;
      assert (a + b)[..|a + b| - 1] == a + b[..n];
      assert (a + b)[|a + b| - 1] == b[n];
      SidePsxgAppend(a, b[..n], url, team);
    }
  }

  /** A single row gives its PSxG exactly when it carries the URL and the team. */
  lemma SidePsxgSingle(s: Shot, url: string, team: string)
    ensures SidePsxg([s], url, team) == RowPsxg(s, url, team)
  {
    assert [s][..0] == [];
  }

  /** The values are the PSxG of exactly the rows with that URL and team. */
  lemma {:induction false} SidePsxgMembers(shots: seq<Shot>, url: string, team: string)
    ensures forall x :: x in SidePsxg(shots, url, team) <==>
      exists s :: s in shots && s.url == url && s.team == team && s.psxg == x
    decreases |shots|
  {
    if |shots| > 0 {
      var n := |shots| - 1;
      SidePsxgMembers(shots[..n], url, team);
      assert shots == shots[..n] + [shots[n]];
      forall x ensures x in SidePsxg(shots, url, team) <==>
        exists s :: s in shots && s.url == url && s.team == team && s.psxg == x
      {
        if exists s :: s in shots && s.url == url && s.team == team && s.psxg == x {
          var s :| s in shots && s.url == url && s.team == team && s.psxg == x;
          if s != shots[n] {
            assert s in shots[..n];
          }
        }
      }
    }
  }

  /** A match is resimulated when it has a URL and at least one shot row
      carries that URL (whatever team the shots belong to). */
  predicate Eligible(m: Match, shots: seq<Shot>) {
    HasUrl(m) && exists s :: s in shots && s.url == m.url.value
  }

  /** The `len` draws from stream position `pos` on. */
  function Slice(draws: Draws, pos: nat, len: nat): (r: seq<real>)
    ensures |r| == len && forall j :: 0 <= j < len ==> r[j] == draws(pos + j)
  {
    seq(len, j requires 0 <= j < len => draws(pos + j))
  }

  /** `sum(draw < xg for xg in psxg)`: the shots whose draw is below their PSxG. */
  function CountGoals(psxg: seq<real>, ds: seq<real>): (g: nat)
    requires |ds| == |psxg|
    ensures g <= |psxg|
  {
    if |psxg| == 0 then 0
    else
      var k := |psxg| - 1;
      CountGoals(psxg[..k], ds[..k]) + (if ds[k] < psxg[k] then 1 else 0)
  }

  /** The positions whose draw falls below the shot's PSxG. */
  function Hits(psxg: seq<real>, ds: seq<real>): set<nat>
    requires |ds| == |psxg|
  {
    set j: nat | j < |psxg| && ds[j] < psxg[j]
  }

  /** The simulated goals are the number of shots whose draw is below their
      PSxG. */
  lemma {:induction false} CountGoalsCountsHits(psxg: seq<real>, ds: seq<real>)
    requires |ds| == |psxg|
    ensures CountGoals(psxg, ds) == |Hits(psxg, ds)|
    decreases |psxg|
  {
    if |psxg| > 0 {
      var k := |psxg| - 1;
      CountGoalsCountsHits(psxg[..k], ds[..k]);
      var before := Hits(psxg[..k], ds[..k]);
      assert k !in before;
      if ds[k] < psxg[k] {
        assert Hits(psxg, ds) == before + {k};
      } else {
        assert Hits(psxg, ds) == before;
      }
    }
  }

  /** No shot scores when every draw misses; every shot scores when every draw hits. */
  lemma {:induction false} AllOrNothing(psxg: seq<real>, ds: seq<real>)
    requires |ds| == |psxg|
    ensures (forall j :: 0 <= j < |psxg| ==> ds[j] >= psxg[j]) ==> CountGoals(psxg, ds) == 0
    ensures (forall j :: 0 <= j < |psxg| ==> ds[j] < psxg[j]) ==> CountGoals(psxg, ds) == |psxg|
    decreases |psxg|
  {
    if |psxg| > 0 {
      var k := |psxg| - 1;
      AllOrNothing(psxg[..k], ds[..k]);
    }
  }

  /** With every draw in [0, 1), a shot of PSxG at least 1 always scores and a
      shot of PSxG at most 0 never does. */
  lemma CertainShots(psxg: seq<real>, ds: seq<real>)
    requires |ds| == |psxg| && forall j :: 0 <= j < |ds| ==> 0.0 <= ds[j] < 1.0
    ensures (forall j :: 0 <= j < |psxg| ==> psxg[j] >= 1.0) ==> CountGoals(psxg, ds) == |psxg|
    ensures (forall j :: 0 <= j < |psxg| ==> psxg[j] <= 0.0) ==> CountGoals(psxg, ds) == 0
  {
    AllOrNothing(psxg, ds);
  }

  /** The copy `sim_match` of simulation `i`: simulated goals, the simulation
      flags and weight `1/n`; every other field as in the original. */
  function SimCopy(m: Match, homeGoals: nat, awayGoals: nat, i: nat, n: nat): (c: Match)
    requires i < n
    ensures c.isSimulation && c.simulationId == Some(i)
    ensures c.weight == Some(1.0 / n as real)
    ensures c.homeGoals == homeGoals && c.awayGoals == awayGoals
    ensures c.(homeGoals := m.homeGoals, awayGoals := m.awayGoals, isSimulation := m.isSimulation,
               simulationId := m.simulationId, weight := m.weight) == m
  {
    m.(homeGoals := homeGoals, awayGoals := awayGoals, isSimulation := true, simulationId := Some(i),
       weight := Some(1.0 / n as real))
  }

  /** `c` is a simulated copy of `m` for one of `n` simulations, its goals at
      most the number of home and away shots. */
  predicate CopyOf(c: Match, m: Match, homeShots: nat, awayShots: nat, n: nat) {
    && c.isSimulation
    && c.simulationId.Some? && c.simulationId.value < n
    && c.weight == Some(1.0 / n as real)
    && c.homeGoals <= homeShots && c.awayGoals <= awayShots
    && c == m.(homeGoals := c.homeGoals, awayGoals := c.awayGoals, isSimulation := true,
               simulationId := c.simulationId, weight := c.weight)
  }

  /** Records produced from the stream, and the stream position after them. */
  datatype Batch = Batch(records: seq<Match>, next: nat)

  /** The copies of one match for simulations `i .. n-1`, starting at stream
      position `pos`; each simulation reads one draw per home shot, then one
      per away shot. */
  function Copies(m: Match, homeX: seq<real>, awayX: seq<real>, i: nat, n: nat, draws: Draws, pos: nat): (b: Batch)
    ensures |b.records| == if i < n then n - i else 0
    decreases n - i
  {
    if i >= n then Batch([], pos)
    else
      var rest := Copies(m, homeX, awayX, i + 1, n, draws, pos + Stride(homeX, awayX));
      Batch([Simulation(m, homeX, awayX, i, n, draws, pos)] + rest.records, rest.next)
  }

  /** Simulation `i` of `m`, reading its draws from stream position `pos`:
      one per home shot, then one per away shot. */
  function Simulation(m: Match, homeX: seq<real>, awayX: seq<real>, i: nat, n: nat, draws: Draws, pos: nat): (c: Match)
    requires i < n
    ensures c.homeGoals == CountGoals(homeX, Slice(draws, pos, |homeX|))
    ensures c.awayGoals == CountGoals(awayX, Slice(draws, pos + |homeX|, |awayX|))
  {
    SimCopy(m, CountGoals(homeX, Slice(draws, pos, |homeX|)), CountGoals(awayX, Slice(draws, pos + |homeX|, |awayX|)), i, n)
  }

  /** Simulation `i` is a simulated copy of `m` with id `i`. */
  lemma SimulationIsCopy(m: Match, homeX: seq<real>, awayX: seq<real>, i: nat, n: nat, draws: Draws, pos: nat)
    requires i < n
    ensures var c := Simulation(m, homeX, awayX, i, n, draws, pos);
      CopyOf(c, m, |homeX|, |awayX|, n) && c.simulationId == Some(i)
  {
  }

  /** Copy `k` is a simulated copy of `m` for simulation `i + k`. */
  lemma CopiesAreCopies(m: Match, homeX: seq<real>, awayX: seq<real>, i: nat, n: nat, draws: Draws, pos: nat)
    ensures var b := Copies(m, homeX, awayX, i, n, draws, pos);
      forall k :: 0 <= k < |b.records| ==>
        CopyOf(b.records[k], m, |homeX|, |awayX|, n) && b.records[k].simulationId == Some(i + k)
  {
    var b := Copies(m, homeX, awayX, i, n, draws, pos);
    forall k | 0 <= k < |b.records|
      ensures CopyOf(b.records[k], m, |homeX|, |awayX|, n) && b.records[k].simulationId == Some(i + k)
    {
      CopyIsCopy(m, homeX, awayX, i, n, draws, pos, k);
    }
  }

  /** Copy `k` alone: a simulated copy with id `i + k`. */
  lemma CopyIsCopy(m: Match, homeX: seq<real>, awayX: seq<real>, i: nat, n: nat, draws: Draws, pos: nat, k: nat)
    requires k < |Copies(m, homeX, awayX, i, n, draws, pos).records|
    ensures var c := Copies(m, homeX, awayX, i, n, draws, pos).records[k];
      CopyOf(c, m, |homeX|, |awayX|, n) && c.simulationId == Some(i + k)
  {
    CopyIsSimulation(m, homeX, awayX, i, n, draws, pos, k);
    SimulationIsCopy(m, homeX, awayX, i + k, n, draws, BlockAt(pos, Stride(homeX, awayX), k));
  }

  /** The draws one simulation reads: one per home shot, one per away shot. */
  function Stride(homeX: seq<real>, awayX: seq<real>): nat {
    |homeX| + |awayX|
  }

  /** Where block `k` of `w` draws starts, counting from stream position
      `pos`: `k` blocks further on. */
  function BlockAt(pos: nat, w: nat, k: nat): nat {
    if k == 0 then pos else BlockAt(pos, w, k - 1) + w
  }

  /** Block `k` starts `k * w` draws after `pos`. */
  lemma {:induction false} BlockAtOffset(pos: nat, w: nat, k: nat)
    ensures BlockAt(pos, w, k) == pos + k * w
  {
    if k > 0 {
      BlockAtOffset(pos, w, k - 1);
      assert (k - 1) * w + w == k * w;
    }
  }

  /** Skipping one block and then `k` more is skipping `k + 1`. */
  lemma {:induction false} BlockStep(pos: nat, w: nat, k: nat)
    ensures BlockAt(pos + w, w, k) == BlockAt(pos, w, k + 1)
  {
    if k > 0 {
      BlockStep(pos, w, k - 1);
    }
  }

  /** Copy `k` is simulation `i + k`, reading the `k`-th block of
      `|homeX| + |awayX|` draws: the home shots' draws first, then the away
      shots'; the stream resumes after the last block. */
  lemma CopiesReadDrawsInOrder(m: Match, homeX: seq<real>, awayX: seq<real>, i: nat, n: nat,
                               draws: Draws, pos: nat)
    ensures var b := Copies(m, homeX, awayX, i, n, draws, pos);
      && b.next == BlockAt(pos, Stride(homeX, awayX), |b.records|)
      && forall k :: 0 <= k < |b.records| ==>
        var start := BlockAt(pos, Stride(homeX, awayX), k);
        && b.records[k].homeGoals == CountGoals(homeX, Slice(draws, start, |homeX|))
        && b.records[k].awayGoals == CountGoals(awayX, Slice(draws, start + |homeX|, |awayX|))
  {
    var b := Copies(m, homeX, awayX, i, n, draws, pos);
    CopiesResume(m, homeX, awayX, i, n, draws, pos);
    forall k | 0 <= k < |b.records|
      ensures var start := BlockAt(pos, Stride(homeX, awayX), k);
        && b.records[k].homeGoals == CountGoals(homeX, Slice(draws, start, |homeX|))
        && b.records[k].awayGoals == CountGoals(awayX, Slice(draws, start + |homeX|, |awayX|))
    {
      CopyIsSimulation(m, homeX, awayX, i, n, draws, pos, k);
    }
  }

  /** After the copies, the stream resumes past their blocks. */
  lemma {:induction false} CopiesResume(m: Match, homeX: seq<real>, awayX: seq<real>, i: nat, n: nat,
                                       draws: Draws, pos: nat)
    ensures var b := Copies(m, homeX, awayX, i, n, draws, pos);
      b.next == BlockAt(pos, Stride(homeX, awayX), |b.records|)
    decreases n - i
  {
    if i < n {
      var rest := Copies(m, homeX, awayX, i + 1, n, draws, pos + Stride(homeX, awayX));
      CopiesResume(m, homeX, awayX, i + 1, n, draws, pos + Stride(homeX, awayX));
      BlockStep(pos, Stride(homeX, awayX), |rest.records|);
      var b := Copies(m, homeX, awayX, i, n, draws, pos);
      assert b.next == rest.next && |b.records| == |rest.records| + 1;
    } else {
      assert BlockAt(pos, Stride(homeX, awayX), 0) == pos;
    }
  }

  /** The first copy is simulation `i`, read at `pos`. */
  lemma CopyHead(m: Match, homeX: seq<real>, awayX: seq<real>, i: nat, n: nat, draws: Draws, pos: nat)
    requires i < n
    ensures Copies(m, homeX, awayX, i, n, draws, pos).records[0] == Simulation(m, homeX, awayX, i, n, draws, pos)
  {
  }

  /** The copies after the first are those of simulations `i + 1 ..`, read
      one block further on. */
  lemma CopyTail(m: Match, homeX: seq<real>, awayX: seq<real>, i: nat, n: nat, draws: Draws, pos: nat, k: nat)
    requires 0 < k < |Copies(m, homeX, awayX, i, n, draws, pos).records|
    ensures Copies(m, homeX, awayX, i, n, draws, pos).records[k]
         == Copies(m, homeX, awayX, i + 1, n, draws, pos + Stride(homeX, awayX)).records[k - 1]
  {
  }

  /** Equal ids and positions give equal simulations. */
  lemma SameSimulation(m: Match, homeX: seq<real>, awayX: seq<real>, i: nat, j: nat, n: nat, draws: Draws, p: nat, q: nat)
    requires i == j < n && p == q
    ensures Simulation(m, homeX, awayX, i, n, draws, p) == Simulation(m, homeX, awayX, j, n, draws, q)
  {
  }

  /** Block `k - 1` after one skipped block is block `k`. */
  lemma BlockStepBack(pos: nat, w: nat, k: nat)
    requires k > 0
    ensures BlockAt(pos + w, w, k - 1) == BlockAt(pos, w, k)
  {
    BlockStep(pos, w, k - 1);
  }

  /** Copy `k` is simulation `i + k` read from block `k`. */
  lemma {:induction false} CopyIsSimulation(m: Match, homeX: seq<real>, awayX: seq<real>, i: nat, n: nat,
                                           draws: Draws, pos: nat, k: nat)
    requires k < |Copies(m, homeX, awayX, i, n, draws, pos).records|
    ensures i + k < n
    ensures Copies(m, homeX, awayX, i, n, draws, pos).records[k]
         == Simulation(m, homeX, awayX, i + k, n, draws, BlockAt(pos, Stride(homeX, awayX), k))
    decreases k
  {
    if k == 0 {
      CopyHead(m, homeX, awayX, i, n, draws, pos);
    } else {
      CopyTail(m, homeX, awayX, i, n, draws, pos, k);
      CopyIsSimulation(m, homeX, awayX, i + 1, n, draws, pos + Stride(homeX, awayX), k - 1);
      BlockStepBack(pos, Stride(homeX, awayX), k);
      SameSimulation(m, homeX, awayX, i + 1 + (k - 1), i + k, n, draws,
                     BlockAt(pos + Stride(homeX, awayX), Stride(homeX, awayX), k - 1),
                     BlockAt(pos, Stride(homeX, awayX), k));
    }
  }

  /** The synthetic records of one match: `n` copies when eligible, none otherwise. */
  function OwnCopies(m: Match, shots: seq<Shot>, n: nat, draws: Draws, pos: nat): (b: Batch)
    ensures |b.records| == if Eligible(m, shots) then n else 0
    ensures forall c :: c in b.records ==> SimulatedFrom(c, m, shots, n)
  {
    if Eligible(m, shots) then
      var homeX := SidePsxg(shots, m.url.value, m.home);
      var awayX := SidePsxg(shots, m.url.value, m.away);
      var copies := Copies(m, homeX, awayX, 0, n, draws, pos);
      assert forall c :: c in copies.records ==> CopyOf(c, m, |homeX|, |awayX|, n) by {
        forall c | c in copies.records ensures CopyOf(c, m, |homeX|, |awayX|, n) {
          var k :| 0 <= k < |copies.records| && copies.records[k] == c;
          CopyIsCopy(m, homeX, awayX, 0, n, draws, pos, k);
        }
      }
      copies
    else Batch([], pos)
  }

  /** `c` is a simulated copy of the eligible match `m`. */
  predicate SimulatedFrom(c: Match, m: Match, shots: seq<Shot>, n: nat) {
    Eligible(m, shots)
    && CopyOf(c, m, |SidePsxg(shots, m.url.value, m.home)|, |SidePsxg(shots, m.url.value, m.away)|, n)
  }

  /** All synthetic records, match by match. */
  function Synthetic(ms: seq<Match>, shots: seq<Shot>, n: nat, draws: Draws, pos: nat): seq<Match>
    decreases |ms|
  {
    if |ms| == 0 then []
    else
      var own := OwnCopies(ms[0], shots, n, draws, pos);
      own.records + Synthetic(ms[1..], shots, n, draws, own.next)
  }

  /** The final loop: a record not flagged as a simulation gets weight 1.0. */
  function ResetWeight(m: Match): (r: Match)
    ensures !m.isSimulation ==> r == m.(weight := Some(1.0))
    ensures m.isSimulation ==> r == m
  {
    if !m.isSimulation then m.(weight := Some(1.0)) else m
  }

  function ResetWeights(ms: seq<Match>): (r: seq<Match>)
    ensures |r| == |ms| && forall i :: 0 <= i < |ms| ==> r[i] == ResetWeight(ms[i])
  {
    seq(|ms|, i requires 0 <= i < |ms| => ResetWeight(ms[i]))
  }

  /** `_resimulate_matches_with_xg(matches, shot_data)` with `n_simulations = n`. */
  function Resimulate(ms: seq<Match>, shots: seq<Shot>, n: nat, draws: Draws): (r: seq<Match>)
    ensures |r| >= |ms|
    ensures forall i :: 0 <= i < |ms| ==> r[i] == ResetWeight(ms[i])
    ensures forall m :: m in r && !m.isSimulation ==> m.weight == Some(1.0)
  {
    var out := ResetWeights(ms + Synthetic(ms, shots, n, draws, 0));
    assert forall m :: m in out ==> exists i :: 0 <= i < |out| && out[i] == m;
    out
  }

  // ---------------------------------------------------------------------
  // Properties

  function EligibleCount(ms: seq<Match>, shots: seq<Shot>): (k: nat)
    ensures k <= |ms|
  {
    if |ms| == 0 then 0
    else (if Eligible(ms[0], shots) then 1 else 0) + EligibleCount(ms[1..], shots)
  }

  lemma {:induction false} SyntheticLength(ms: seq<Match>, shots: seq<Shot>, n: nat, draws: Draws, pos: nat)
    ensures |Synthetic(ms, shots, n, draws, pos)| == n * EligibleCount(ms, shots)
    decreases |ms|
  {
    if |ms| > 0 {
      var own := OwnCopies(ms[0], shots, n, draws, pos);
      var e := if Eligible(ms[0], shots) then 1 else 0;
      var k := EligibleCount(ms[1..], shots);
      SyntheticLength(ms[1..], shots, n, draws, own.next);
      assert |Synthetic(ms, shots, n, draws, pos)| == |own.records| + |Synthetic(ms[1..], shots, n, draws, own.next)|;
      MulSucc(|Synthetic(ms, shots, n, draws, pos)|, |own.records|, n, e, k, EligibleCount(ms, shots));
    }
  }

  /** `n` per match for the first `e` and for the next `k` is `n` per match for all. */
  lemma MulSucc(total: int, first: int, n: nat, e: nat, k: nat, count: nat)
    requires first == n * e && total - first == n * k && count == e + k
    ensures total == n * count
  {
  }

  /** The output is the input followed by exactly `n` records per eligible match. */
  lemma ResimulateLength(ms: seq<Match>, shots: seq<Shot>, n: nat, draws: Draws)
    ensures |Resimulate(ms, shots, n, draws)| == |ms| + n * EligibleCount(ms, shots)
  {
    SyntheticLength(ms, shots, n, draws, 0);
  }

  /** Every synthetic record is a copy of one of the input matches. */
  lemma {:induction false} SyntheticAreCopies(ms: seq<Match>, shots: seq<Shot>, n: nat, draws: Draws, pos: nat)
    ensures forall c :: c in Synthetic(ms, shots, n, draws, pos) ==> exists m :: m in ms && SimulatedFrom(c, m, shots, n)
    decreases |ms|
  {
    if |ms| > 0 {
      var own := OwnCopies(ms[0], shots, n, draws, pos);
      var rest := Synthetic(ms[1..], shots, n, draws, own.next);
      SyntheticAreCopies(ms[1..], shots, n, draws, own.next);
      assert Synthetic(ms, shots, n, draws, pos) == own.records + rest;
      forall c | c in own.records + rest ensures exists m :: m in ms && SimulatedFrom(c, m, shots, n) {
        if c in own.records {
          assert SimulatedFrom(c, ms[0], shots, n);
        } else {
          var m' :| m' in ms[1..] && SimulatedFrom(c, m', shots, n);
          assert m' in ms;
        }
      }
    }
  }

  /** `c` is a simulated copy of some match of `ms`. */
  predicate CopyOfSome(c: Match, ms: seq<Match>, shots: seq<Shot>, n: nat) {
    exists m :: m in ms && SimulatedFrom(c, m, shots, n)
  }

  /** Every record of `r` past the first `|ms|` is a simulated copy of a match of `ms`. */
  predicate TailCopies(ms: seq<Match>, r: seq<Match>, shots: seq<Shot>, n: nat) {
    forall k :: |ms| <= k < |r| ==> CopyOfSome(r[k], ms, shots, n)
  }

  /** Everything after the first `|ms|` records is a synthetic copy of an
      input match; the weight reset leaves those untouched. */
  lemma ResimulateTail(ms: seq<Match>, shots: seq<Shot>, n: nat, draws: Draws)
    ensures TailCopies(ms, Resimulate(ms, shots, n, draws), shots, n)
  {
    var syn := Synthetic(ms, shots, n, draws, 0);
    SyntheticAreCopies(ms, shots, n, draws, 0);
    var r := Resimulate(ms, shots, n, draws);
    assert r == ResetWeights(ms + syn);
    forall k | |ms| <= k < |r| ensures CopyOfSome(r[k], ms, shots, n) {
      var c := syn[k - |ms|];
      assert (ms + syn)[k] == c;
      assert c in syn;
      var m :| m in ms && SimulatedFrom(c, m, shots, n);
      assert r[k] == ResetWeight(c) == c;
    }
    assert TailCopies(ms, r, shots, n);
  }

  function WeightSum(ms: seq<Match>): real {
    if |ms| == 0 then 0.0 else WeightSum(ms[..|ms| - 1]) + ms[|ms| - 1].weight.GetOr(1.0)
  }

  /** Records that all weigh `w` weigh `|ms| * w` together. */
  lemma {:induction false} UniformWeightSum(ms: seq<Match>, w: real)
    requires forall i :: 0 <= i < |ms| ==> ms[i].weight == Some(w)
    ensures WeightSum(ms) == |ms| as real * w
    decreases |ms|
  {
    if |ms| > 0 {
      UniformWeightSum(ms[..|ms| - 1], w);
    }
  }

  /** The `n` synthetic weights of one eligible match add up to 1. */
  lemma CopiesWeighOne(m: Match, shots: seq<Shot>, n: nat, draws: Draws, pos: nat)
    requires n > 0 && Eligible(m, shots)
    ensures WeightSum(OwnCopies(m, shots, n, draws, pos).records) == 1.0
  {
    var r := OwnCopies(m, shots, n, draws, pos).records;
    var w := 1.0 / n as real;
    OwnCopiesWeights(m, shots, n, draws, pos, w);
    UniformWeightSum(r, w);
    UnitFraction(n, |r|, w);
  }

  lemma OwnCopiesWeights(m: Match, shots: seq<Shot>, n: nat, draws: Draws, pos: nat, w: real)
    requires n > 0 && Eligible(m, shots) && w == 1.0 / n as real
    ensures |OwnCopies(m, shots, n, draws, pos).records| == n
    ensures forall i :: 0 <= i < n ==> OwnCopies(m, shots, n, draws, pos).records[i].weight == Some(w)
  {
    var r := OwnCopies(m, shots, n, draws, pos).records;
    forall i | 0 <= i < |r| ensures r[i].weight == Some(w) {
      assert r[i] in r;
    }
  }

  lemma UnitFraction(n: nat, count: nat, w: real)
    requires n > 0 && count == n && w == 1.0 / n as real
    ensures count as real * w == 1.0
  {
  }

  /** Resimulation neither adds nor removes team names. */
  lemma ResimulateKeepsTeams(ms: seq<Match>, shots: seq<Shot>, n: nat, draws: Draws)
    ensures TeamSet(Resimulate(ms, shots, n, draws)) == TeamSet(ms)
  {
    var r := Resimulate(ms, shots, n, draws);
    ResimulateTail(ms, shots, n, draws);
    forall m | m in r ensures m.home in TeamSet(ms) && m.away in TeamSet(ms) {
      var k :| 0 <= k < |r| && r[k] == m;
      if k < |ms| {
        assert ms[k] in ms;
      } else {
        var o :| o in ms && SimulatedFrom(r[k], o, shots, n);
      }
    }
    forall m | m in ms ensures m.home in TeamSet(r) && m.away in TeamSet(r) {
      var k :| 0 <= k < |ms| && ms[k] == m;
      assert r[k] in r;
    }
  }
}
