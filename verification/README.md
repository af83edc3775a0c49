# team-model in Dafny

This project models the team-strength model of the `team-model` repository
and the ingest steps that feed it. The model is a Dixon-Coles Poisson model:
each team has an attack rating and a defense rating, and there is one home
advantage and one low-score correlation `rho`. These are fitted by
maximising a weighted log-likelihood over past matches.

The source has two variants:

- `PSxGShotsTeamModel` keeps a trailing window of matches. It adds `n`
  resimulated copies of every match whose shots are known: each shot scores
  when a uniform draw falls below its post-shot expected goals (PSxG). Each
  log-term is weighted by recency × season × record weight.
- `TeamModel` fits on all matches and weights each term by recency × season
  only.

The ingest side is modelled too:

- the pure transforms of the match-page scraper;
- the season column and duplicate-URL filter of the CSV upload script;
- the shot-to-match aggregation of `load_data`.

The modules are:

| module | file | what it holds |
|---|---|---|
| `Wrappers` | wrappers.dfy | `Option` and `Result` |
| `Text` | text.dfy | `strip`, `lower`, `split`, decimal rendering and parsing |
| `Calendar` | calendar.dfy | the August season rule and `strptime(s, '%Y-%m-%d')` |
| `Records` | records.dfy | the match and shot records the model consumes |
| `Teams` | teams.dfy | Python string order and `sorted(_get_unique_teams(...))` |
| `DixonColes` | dixon_coles.dfy | τ, the score probability and the `1e-10` floor |
| `MatchWeights` | weights.dfy | recency decay, season penalty, record weight |
| `ParamLayout` | layout.dfy | the flat parameter vector, the initial guess, the box bounds |
| `Objective` | objective.dfy | `dc_log_likelihood` in both variants, the constraint penalty |
| `Preprocess` | preprocess.dfy | both `_preprocess_matches` variants |
| `Resimulation` | resimulate.dfy | `_resimulate_matches_with_xg` |
| `TeamModel` | model.dfy | fitted state, fit set-up and write-back, `predict_match` |
| `Strengths` | strengths.dfy | the table `print_team_strengths` returns |
| `Scrape` | scrape.dfy | header, row, event, team and season transforms of `get_match_data` |
| `Upload` | upload.dfy | `get_season`, the season column, the duplicate filter |
| `MatchSummaries` | summaries.dfy | `load_data`'s per-match sums and inner join |

Some things become parameters rather than being modelled:

- The outside world: the Poisson mass `poisson.pmf`, the logarithm, the
  random stream `np.random.random()`, the clock `pd.Timestamp.now()`, the
  operator's `y/n` answer and the URLs already in the database.
- The order of a Python set, which `print_team_strengths` iterates.

Dates are integer day numbers. Reals stand for floats.

## Model

| member | source | states |
|---|---|---|
| `DixonColes.ExpectedGoals` | models/psxg_shots_resimmed_dc.py:161-162 | only the home rate carries the home advantage; positive ratings and advantage give positive rates |
| `DixonColes.HomeAdvantageScalesHomeRate` | models/psxg_shots_resimmed_dc.py:161-162 | at any home advantage h the home rate is h times the neutral-ground rate and the away rate is the neutral-ground one |
| `DixonColes.Probability` | models/psxg_shots_resimmed_dc.py:87-104 | without correlation, or with either score at least 2, the probability is the product of the two Poisson masses |
| `DixonColes.TauLinearInRho` | models/psxg_shots_resimmed_dc.py:94-102 | τ − 1 is rho times a factor that does not depend on rho |
| `DixonColes.TauMirror` | models/psxg_totals_resimmed_dc.py:37-45 | swapping the sides' goals and rates leaves τ unchanged |
| `DixonColes.TauCanBeNegative` | models/psxg_shots_resimmed_dc.py:101-102 | inside the optimizer's box, τ at 1-1 can be negative (rates 2, rho 0.3) |
| `DixonColes.Floored` | models/psxg_shots_resimmed_dc.py:167-171 | the value handed to `log` is positive: a positive probability is kept, any other becomes 1e-10 |
| `DixonColes.FlooredIdempotent` | models/psxg_totals_resimmed_dc.py:104-106 | flooring twice is flooring once and never lowers a value |
| `MatchWeights.Decay` | models/psxg_shots_resimmed_dc.py:143 | the decay lies in (0, 1] and is the reciprocal of 1 + eps·days |
| `MatchWeights.DecayNonIncreasing` | models/psxg_shots_resimmed_dc.py:139-150 | an older match never weighs more than a newer one |
| `MatchWeights.DecayIsOneOnlyAtZero` | models/psxg_shots_resimmed_dc.py:143 | with a positive rate the decay is 1 exactly at age 0 |
| `MatchWeights.TimeWeight` | models/psxg_shots_resimmed_dc.py:139-150 | the recency weight is in (0, 1]; with a positive rate it is 1 exactly when there is no age or the age is 0 |
| `MatchWeights.AnnotatedAgreesWithOnTheFly` | models/psxg_shots_resimmed_dc.py:140-150 | a precomputed `days_from_ref` and the on-the-fly age give the same weight |
| `MatchWeights.SeasonsAgo` | models/psxg_shots_resimmed_dc.py:153 | no season on the record, or a falsy season, means no penalty; otherwise the distance between the seasons |
| `MatchWeights.PowNonIncreasing` | models/psxg_shots_resimmed_dc.py:154-155 | a penalty factor in (0, 1] shrinks with more seasons |
| `MatchWeights.SeasonFactor` | models/psxg_shots_resimmed_dc.py:153-155 | no penalty for the current or a later season; a factor in (0, 1] gives a factor in (0, 1] |
| `MatchWeights.TermWeight` | models/psxg_shots_resimmed_dc.py:135-158 | the combined weight is positive and at most the record weight, or at most 1 for the totals variant |
| `MatchWeights.UnitRecordWeightAgrees` | models/psxg_totals_resimmed_dc.py:79-95 | for a record weighing 1.0 both variants weigh a match alike |
| `ParamLayout.Flatten` | models/psxg_shots_resimmed_dc.py:110-113 | the layout is home advantage, rho, the attacks, then the defenses |
| `ParamLayout.UnflattenFlatten` | models/psxg_shots_resimmed_dc.py:110-113 | reading a written vector back gives the same parameters |
| `ParamLayout.FlattenUnflatten` | models/psxg_totals_resimmed_dc.py:53-56 | writing back a read vector gives the same vector |
| `ParamLayout.InitialWithinBounds` | models/psxg_shots_resimmed_dc.py:266-274 | the initial guess lies in the box, and every interval of the box is non-empty |
| `ParamLayout.BoxedParamsPositive` | models/psxg_totals_resimmed_dc.py:190-193 | inside the box the home advantage is at least 0.5, rho lies in [−0.3, 0.3] and every rating is at least 0.1 |
| `Objective.RatingMap` | models/psxg_shots_resimmed_dc.py:116-117 | the rating map has exactly the listed teams, each with its own value |
| `Objective.ConstraintPenalty` | models/psxg_shots_resimmed_dc.py:173-178 | the penalty is never negative, and is zero exactly when both rating sums equal the number of teams |
| `Objective.NegLogLikelihood` | models/psxg_shots_resimmed_dc.py:107-180 | the objective is minus the weighted log-likelihood plus the rating-sum penalty, so it is at least minus the log-likelihood, with equality exactly when both rating sums equal the number of teams |
| `Objective.LogLikelihoodAppend` | models/psxg_shots_resimmed_dc.py:127-171 | the log-likelihood of a concatenation is the sum of the parts |
| `Objective.TimeSeasonOnlyIgnoresWeights` | models/psxg_totals_resimmed_dc.py:77-109 | the totals objective does not depend on the records' `weight` fields |
| `Objective.UnitWeightsVariantsAgree` | models/psxg_totals_resimmed_dc.py:50-118 | when every record weighs 1.0, the two objectives coincide |
| `Teams.Insert` | models/psxg_shots_resimmed_dc.py:241 | inserting into a sorted list keeps it sorted and adds exactly one name |
| `Teams.SortedTeams` | models/psxg_shots_resimmed_dc.py:240-241 | the team list is strictly sorted and names exactly the home and away teams of the matches |
| `Teams.SortedListingUnique` | models/psxg_totals_resimmed_dc.py:159-160 | a set has only one strictly sorted listing |
| `Preprocess.WindowMembers` | models/psxg_shots_resimmed_dc.py:189-194 | a match is kept exactly when it is dated and no older than the cutoff |
| `Preprocess.WindowAppend` | models/psxg_shots_resimmed_dc.py:189-194 | the boolean mask filters match by match, so the window of a concatenation is the concatenation of the windows: original order and repetitions are kept |
| `Preprocess.WindowKeepsAll` | models/psxg_shots_resimmed_dc.py:189-191 | a window that reaches back past every match keeps the list as it is |
| `Preprocess.MaxDate` | models/psxg_shots_resimmed_dc.py:197-202 | there is no reference date exactly when no match is dated; otherwise it is the latest date |
| `Preprocess.MaxSeason` | models/psxg_totals_resimmed_dc.py:124-130 | there is no current season only for an empty list; otherwise it is the largest season, a record without a season counting as 0 |
| `Preprocess.Annotate` | models/psxg_totals_resimmed_dc.py:133-145 | only `days_from_ref` changes, and only for a dated match when a reference date exists |
| `Preprocess.MetadataIgnoresAnnotation` | models/psxg_totals_resimmed_dc.py:122-130 | the metadata depends on dates and seasons only |
| `Preprocess.PreprocessInPlace` | models/psxg_totals_resimmed_dc.py:120-151 | every dated match is annotated with its distance to the latest date, and nothing else changes |
| `Preprocess.PreprocessInPlaceIdempotent` | models/psxg_totals_resimmed_dc.py:120-151 | preprocessing twice is preprocessing once |
| `Preprocess.PreprocessWindow` | models/psxg_shots_resimmed_dc.py:182-226 | fails exactly when no match is dated; otherwise it keeps the window, computes its metadata and annotates every kept match with `ref − date` |
| `Preprocess.WindowCoveringAllAgrees` | models/psxg_shots_resimmed_dc.py:182-226 | a window covering every match agrees with the totals preprocessing |
| `Preprocess.PreprocessWindowIdempotent` | models/psxg_shots_resimmed_dc.py:182-226 | re-running on a non-empty result with the same clock changes nothing |
| `Preprocess.EmptyInputRaises` | models/psxg_shots_resimmed_dc.py:185-186 | an empty match list makes the windowed variant fail |
| `Preprocess.PreprocessWindowTotal` | models/psxg_shots_resimmed_dc.py:197-204 | the corrected variant returns an empty list with no metadata instead of failing, and agrees with the code everywhere else |
| `Resimulation.SidePsxg` | models/psxg_shots_resimmed_dc.py:43-55 | a side has no shot values exactly when no shot row matches both the URL and the team |
| `Resimulation.SidePsxgMembers` | models/psxg_shots_resimmed_dc.py:43-55 | a value is in a side's PSxG list exactly when some shot row of that URL and that team carries it |
| `Resimulation.SidePsxgAppend` | models/psxg_shots_resimmed_dc.py:43-55 | the list keeps the shot rows' order: the values of two blocks of rows are the first block's followed by the second's |
| `Resimulation.CountGoalsCountsHits` | models/psxg_shots_resimmed_dc.py:60-61 | the simulated goals are the number of positions j whose draw is below the shot's PSxG |
| `Resimulation.AllOrNothing` | models/psxg_shots_resimmed_dc.py:60-61 | no goals when every draw misses; one goal per shot when every draw hits |
| `Resimulation.SimCopy` | models/psxg_shots_resimmed_dc.py:64-73 | a copy carries the simulated goals, the simulation flags and weight 1/n; every other field is the original's |
| `Resimulation.Copies` | models/psxg_shots_resimmed_dc.py:58-76 | simulations i..n−1 give n−i copies |
| `Resimulation.CopyIsSimulation` | models/psxg_shots_resimmed_dc.py:58-73 | copy k is simulation i+k, reading the k-th block of draws |
| `Resimulation.CopiesAreCopies` | models/psxg_shots_resimmed_dc.py:58-73 | copy k is a simulated copy of the match with simulation id i+k, goals bounded by the shot counts |
| `Resimulation.CopiesReadDrawsInOrder` | models/psxg_shots_resimmed_dc.py:58-61 | copy k's home goals count the hits among the \|homeX\| draws from the start of block k, its away goals among the next \|awayX\|; the stream resumes after the last block |
| `Resimulation.BlockAtOffset` | models/psxg_shots_resimmed_dc.py:58-61 | block k of w draws starts k·w draws after pos; the copies use w = \|homeX\|+\|awayX\| |
| `Resimulation.OwnCopies` | models/psxg_shots_resimmed_dc.py:33-76 | an eligible match gets n copies of itself; a match without a URL or without shot rows gets none |
| `Resimulation.ResetWeight` | models/psxg_shots_resimmed_dc.py:79-81 | a real record is set to weight 1.0; a synthetic one is left alone |
| `Resimulation.Resimulate` | models/psxg_shots_resimmed_dc.py:26-84 | the originals come first, re-weighted, and every non-synthetic record weighs 1.0 |
| `Resimulation.SyntheticLength` | models/psxg_shots_resimmed_dc.py:33-76 | there are exactly n synthetic records per eligible match |
| `Resimulation.ResimulateLength` | models/psxg_shots_resimmed_dc.py:26-84 | the output length is the input length plus n per eligible match |
| `Resimulation.SyntheticAreCopies` | models/psxg_shots_resimmed_dc.py:58-76 | every synthetic record is a simulated copy of an input match |
| `Resimulation.ResimulateTail` | models/psxg_shots_resimmed_dc.py:76-81 | everything after the originals is a simulated copy of an input match |
| `Resimulation.UniformWeightSum` | models/psxg_shots_resimmed_dc.py:73 | records that all weigh w weigh \|ms\|·w together |
| `Resimulation.CopiesWeighOne` | models/psxg_shots_resimmed_dc.py:58-76 | the n copies of a match weigh 1 together |
| `Resimulation.ResimulateKeepsTeams` | models/psxg_shots_resimmed_dc.py:237-241 | resimulation neither adds nor removes team names |
| `TeamModel.Unfitted` | models/psxg_shots_resimmed_dc.py:10-16 | a fresh model has no ratings and its two maps agree |
| `TeamModel.ProblemFor` | models/psxg_shots_resimmed_dc.py:257-285 | the problem handed to the optimizer carries the objective's weighting, rate and penalty, and has a sorted, distinct team list covering every match, the initial guess of lines 266-269 and the box of lines 272-274, the guess inside the box |
| `TeamModel.ShotsProblem` | models/psxg_shots_resimmed_dc.py:228-246 | the objective weighs by time, season and record weight, with `epsilon` and `season_penalty` defaulting to 0.0065 and 0.75; the problem's matches are the resimulated window, it is ready, carries the window's metadata and lists the window's teams; with no dated match, where `fit_models` as written raises `KeyError` (see Findings), the corrected preprocessing gives an empty problem |
| `TeamModel.TotalsProblem` | models/psxg_totals_resimmed_dc.py:154-165 | the objective weighs by time and season only, with `epsilon` and `season_penalty` defaulting to 0.0065 and 0.75; the problem's matches are the in-place annotated list, it is ready, and carries the whole list's metadata and teams |
| `TeamModel.ApplyFit` | models/psxg_shots_resimmed_dc.py:248-253 | the home advantage and rho are replaced; each listed team gets its slots; unlisted teams keep their ratings |
| `TeamModel.ApplyFitWellFormed` | models/psxg_totals_resimmed_dc.py:168-172 | a fit keeps the attack and defense maps on the same teams |
| `TeamModel.ApplyFitFlatten` | models/psxg_shots_resimmed_dc.py:249-253 | writing back a flattened parameter set recovers its ratings |
| `TeamModel.RefitKeepsStaleTeams` | models/psxg_totals_resimmed_dc.py:170-172 | a team missing from a re-fit keeps its old ratings |
| `TeamModel.SortedKeys` | models/psxg_shots_resimmed_dc.py:370 | the listing is strictly sorted and names exactly the keys |
| `TeamModel.PredictMatch` | models/psxg_shots_resimmed_dc.py:367-376 | `ValueError` exactly when either team has no attack rating, listing the known teams sorted; otherwise the two rates; never a `KeyError` on a well-formed model |
| `TeamModel.BoxedFitPredictsPositiveRates` | models/psxg_totals_resimmed_dc.py:287-296 | after a fit inside the box, any two fitted teams get a prediction with both rates positive |
| `TeamModel.FittedRatingsPositive` | models/psxg_shots_resimmed_dc.py:248-253 | after a fit inside the box, every fitted team has positive ratings and the home advantage is positive |
| `Strengths.Remaining` | models/psxg_shots_resimmed_dc.py:300-301 | the remaining teams are exactly the fitted teams not excluded, without repeats |
| `Strengths.Average` | models/psxg_shots_resimmed_dc.py:304-309 | the average times the team count is the total; with no team it is 1.0 |
| `Strengths.Row` | models/psxg_shots_resimmed_dc.py:316-335 | a row keeps its team's ratings, and its goal difference is xG for minus xG against |
| `Strengths.InsertByDiff` | models/psxg_shots_resimmed_dc.py:338 | inserting keeps the rows in non-increasing goal-difference order and adds exactly one row |
| `Strengths.SortByDiff` | models/psxg_totals_resimmed_dc.py:258 | the output is a permutation of the rows in non-increasing goal-difference order |
| `Strengths.Table` | models/psxg_shots_resimmed_dc.py:303-338 | one row per team, sorted, naming exactly the given teams |
| `Strengths.TeamStrengths` | models/psxg_shots_resimmed_dc.py:294-365 | one row per remaining team, sorted by goal difference, naming exactly the fitted teams not excluded |
| `Strengths.UnfittedTableIsEmpty` | models/psxg_shots_resimmed_dc.py:300-365 | an unfitted model has no teams, so its table is empty whatever is excluded |
| `Strengths.GoalDiffsBalance` | models/psxg_totals_resimmed_dc.py:224-258 | the goal differences against the league average sum to zero |
| `Strengths.UnitAveragesRankByAbsStrength` | models/psxg_totals_resimmed_dc.py:228-254 | with unit average ratings, each goal difference is the plain strength difference |
| `Scrape.NameHeaders` | data/scrape_matches.py:98-102 | a non-empty header text is kept; an empty one becomes `Column_<position>` |
| `Scrape.PlaceholdersDistinct` | data/scrape_matches.py:102 | two empty header cells never get the same name |
| `Scrape.Count` | data/scrape_matches.py:106-112 | the count is positive exactly when the name occurs |
| `Scrape.UniquifyHeaders` | data/scrape_matches.py:105-113 | each header becomes itself at its first occurrence and `name_j` at its j-th |
| `Scrape.UniqueWithoutUnderscore` | data/scrape_matches.py:105-113 | when no header contains `_`, the de-duplicated headers are pairwise distinct |
| `Scrape.UniquifyCanCollide` | data/scrape_matches.py:108-110 | with an underscore, de-duplication can still repeat a name: `A, A, A_2` gives `A_2` twice |
| `Scrape.NormaliseCell` | data/scrape_matches.py:121-123 | a cell is never empty, and non-empty text is kept |
| `Scrape.NormaliseRows` | data/scrape_matches.py:116-126 | every kept row has as many cells as there are headers, none empty, and every row of that width is kept |
| `Scrape.NormaliseRowsFromInput` | data/scrape_matches.py:116-126 | every kept row is the normalised form of an input row with as many cells as there are headers |
| `Scrape.NormaliseRowsAppend` | data/scrape_matches.py:117-126 | rows are handled one at a time, in order |
| `Scrape.NormaliseRowsIdempotent` | data/scrape_matches.py:116-126 | a second pass changes nothing |
| `Scrape.EventType` | data/scrape_matches.py:132-136 | the tag is `Penalty` exactly when the lower-cased player text contains `(pen)`, else `Shot` |
| `Scrape.EventTypeIgnoresCase` | data/scrape_matches.py:134 | the tag does not depend on letter case |
| `Scrape.SplitTimeScore` | data/scrape_matches.py:147-151 | the time ends at the first apostrophe; the score runs to the next one; without an apostrophe the score is empty |
| `Scrape.SplitTimeScoreLosesOnlyTail` | data/scrape_matches.py:147-151 | the time and score together are a prefix of the text: only the apostrophe after the score and what follows are dropped |
| `Scrape.FirstSeen` | data/scrape_matches.py:74-75 | the team list has no repeats and no blanks, and names exactly the non-blank names |
| `Scrape.CleanTeams` | data/scrape_matches.py:73-75 | the same, after stripping every name |
| `Scrape.FirstSeenPrefix` | data/scrape_matches.py:75 | first-seen order: the list for a prefix of the names is a prefix of the whole list |
| `Scrape.HomeAway` | data/scrape_matches.py:76-79 | there is no home team exactly when no name survives, and no away team when fewer than two do; the two differ |
| `Scrape.HomeIsFirstName` | data/scrape_matches.py:74-76 | the home team is the first name that is not blank |
| `Scrape.LeadingDigits` | data/scrape_matches.py:187 | the longest digit run at the start of the text |
| `Scrape.Minute` | data/scrape_matches.py:187 | the minute is a non-empty digit run: the first maximal run in the text, or `0` when there is none |
| `Scrape.RedCards` | data/scrape_matches.py:183-211 | exactly the red-card and second-yellow events become rows, each with outcome `Red Card` and zero xG and PSxG |
| `Scrape.RedCardsAppend` | data/scrape_matches.py:183-184 | the `isin` mask and `reset_index` keep the events in order, one row per sending-off: the rows of a concatenation are the concatenation of the rows |
| `Scrape.RedCardsOnlySendingsOff` | data/scrape_matches.py:183 | every red-card row comes from a sending-off |
| `Scrape.ScrapeSeason` | data/scrape_matches.py:231-244 | a non-empty date gives the season whose August-to-July span holds it, or the match is dropped when the date does not parse; otherwise the first field of the season label |
| `Scrape.SeasonFromLabel` | data/scrape_matches.py:240-242 | without a date, a label `<year>-...` gives that year |
| `Text.ParseIntNatToString` | data/scrape_matches.py:242 | `int` reads back any rendered natural number |
| `Text.ParseIntSkipsLeadingSpace` | data/scrape_matches.py:242 | `int` skips a leading space, tab, newline or non-ASCII blank |
| `Text.ParseIntRejectsSeparator` | data/scrape_matches.py:242 | a leading ASCII separator U+001C to U+001F makes `int` fail, although `str.isspace` accepts it |
| `Scrape.SeparatorLabelHasNoSeason` | data/scrape_matches.py:240-244 | a season label opening with such a separator makes `int` raise, and the bare `except` stores no season |
| `Calendar.SeasonOf` | data/scrape_matches.py:235-238 | the season is the one whose August-to-July span holds the month |
| `Calendar.SeasonUnique` | data/manual_upload_to_db.py:45-48 | only one season's span holds a given month |
| `Calendar.ParseIsoDate` | data/manual_upload_to_db.py:43 | a parsed date is a real calendar date |
| `Calendar.ParseFormatRoundTrip` | data/manual_upload_to_db.py:43 | parsing a date written as `YYYY-MM-DD` gives it back |
| `Upload.GetSeason` | data/manual_upload_to_db.py:39-50 | `None` for a missing value or anything that does not parse as `YYYY-MM-DD`; otherwise the season whose span holds the month |
| `Upload.GetSeasonOfFormatted` | data/manual_upload_to_db.py:45-48 | months 8–12 give the date's year; months 1–7 give the year before |
| `Upload.GetSeasonAgreesWithScrape` | data/manual_upload_to_db.py:39-50 | the upload script and the scraper accept the same non-empty dates and give them the same season |
| `Upload.AddSeasonColumn` | data/manual_upload_to_db.py:36-53 | an existing season column is left untouched; otherwise it fails exactly without `match_date`, and each row gains its date's season with every other cell kept |
| `Upload.DropStoredMembers` | data/manual_upload_to_db.py:82 | the kept rows are exactly those whose URL is not stored |
| `Upload.DropStoredAppend` | data/manual_upload_to_db.py:82 | the filter works row by row, so the order is kept |
| `Upload.DropStoredCount` | data/manual_upload_to_db.py:81-83 | `filtered_count` is the number of rows whose URL is stored |
| `Upload.DropStoredIdempotent` | data/manual_upload_to_db.py:82 | filtering twice drops nothing more |
| `Upload.PrepareUpload` | data/manual_upload_to_db.py:36-83 | with the check on, the uploaded rows are the season-step rows without a stored URL, in their order and multiplicity (so no uploaded row has a stored URL and every new row is kept), and the count is the number dropped; with it off, the frame goes up as the season step left it |
| `MatchSummaries.IsGoal` | data/fetch_match_data.py:19 | 1 exactly when the outcome is `Goal`, else 0 |
| `MatchSummaries.SideRows` | data/fetch_match_data.py:22-23 | a side's rows are exactly those whose team equals that side's team and whose key matches |
| `MatchSummaries.SideGoalsCountGoals` | data/fetch_match_data.py:26-37 | a side's goal total is its number of goal shots, so it is at most its number of shots |
| `MatchSummaries.SideTotalsAppend` | data/fetch_match_data.py:26-37 | the sums add up over any split of the rows |
| `MatchSummaries.Summaries` | data/fetch_match_data.py:26-58 | a summary exists exactly for complete keys with at least one home and one away shot; each side's goals are at most its shots |
| `MatchSummaries.NeutralShotIgnored` | data/fetch_match_data.py:22-23 | a shot by neither side changes no summary |
| `MatchSummaries.HomeGoalsCountGoalShots` | data/fetch_match_data.py:26-58 | a summary's goals are the number of that side's shots that went in |
| `MatchSummaries.SideSumsOverSideRows` | data/fetch_match_data.py:26-37 | a side's xG and PSxG totals are the sums of those columns over exactly that side's shots, a missing value counting zero |
| `MatchSummaries.SummaryColumnsAreSums` | data/fetch_match_data.py:26-58 | a summary's `home_xg`, `home_psxg`, `away_xg` and `away_psxg` are the column sums over its home and its away shots |

## Left out

- The optimizer (`scipy.optimize.minimize`, L-BFGS-B) is a foreign numerical routine. A fit is modelled as the problem handed to it (`TeamModel.ShotsProblem`, `TeamModel.TotalsProblem`) and the write-back of whatever vector it returns (`TeamModel.ApplyFit`). Convergence and optimality are not modelled.
- `poisson.pmf`, `np.log` and `np.random.random()` are parameters, because their bodies are foreign numerical code. Floating-point rounding, `NaN` and infinities are not modelled: reals stand for floats.
- All printing, and the database and file I/O, are left out. The upload prompt's answer and the stored URLs are parameters. The sqlite read in `load_data` is replaced by its rows.
- The HTML traversal of `get_match_data` is left out: BeautifulSoup lookups, `html.unescape`, the `—` event-type split and the crest-name replacement. Its transforms take the texts `get_text(strip=True)` returns.
- The scraper's cutoff skip (data/scrape_matches.py:64-68) needs the clock and only drops whole matches, so it is left out. So are the fixture-table and page-fetching methods, and the final numeric conversion, fill and sort of the combined frame (lines 214-221).
- `Text.ParseInt`: rejects digit-group underscores such as `2_023`, which Python's `int` accepts between digits. A season label holding one fails here and parses in the source. Non-ASCII decimal digits, which `int` also accepts, are not covered either.
- `Text.Lower` and the digit tests are ASCII only. Python's `str.lower()` and `\d` also cover non-ASCII letters and digits.
- `Strengths.TeamStrengths`: `all_teams` comes from a Python set, whose order is unspecified. Here the order is a parameter, and the contract holds for every listing.
- `Strengths.TeamStrengths`: requires the attack and defense maps to share their keys, which every fit guarantees (`TeamModel.ApplyFitWellFormed`). On a model that breaks this, the source would read `NaN` for a missing defense.
- `Strengths.SortByDiff`: the contract states order and permutation. It does not state stability (Python's `sorted` keeps equal keys in input order), although the insertion sort is stable.
- `MatchWeights.Decay`: requires `eps >= 0`. A negative rate can make `1 + eps * days` zero, where Python raises `ZeroDivisionError`.
- `MatchSummaries.Summaries`: the result is a map from key to summary. The row order of `groupby` (sorted by key) and of the merge is not modelled.
- `Resimulation.CertainShots`, `Strengths.AllExcludedIsEmpty`, `Upload.AddSeasonColumnIdempotent` and `Upload.NoFilterWithoutColumns` state edge cases. Dafny proves them directly from the contracts above.
- `Preprocess.PreprocessWindow`: the windowed variant reads its matches back from a DataFrame. There, a record without a season reads `NaN` rather than 0 whenever another record has one, and `max` over a list holding `NaN` depends on the order. The model counts such a season as 0 in both variants, as the totals variant's `m.get('season', 0)` does. An undated record becomes `NaT` and fails the cutoff comparison, which the model follows by keeping only dated matches. The model does not tell a record without a `match_date` key from one whose date is `None`: when no record is dated but one holds a `None` date, the column exists, so the source returns an empty window where `PreprocessWindow` fails.
- `Preprocess.MaxSeason`: a record whose `season` key holds `None` reads as a missing season, so it counts as 0. In the source, `m.get('season', 0)` then returns `None`, and `max` raises `TypeError` once another record has an integer season (models/psxg_totals_resimmed_dc.py:124-130). The model does not tell a key holding `None` from an absent key.
- `MatchWeights.DaysAgo`: a record whose `match_date` key holds `None` is undated here, so it gets no age and a time weight of 1.0. In the source, the totals preprocessing leaves it unannotated (models/psxg_totals_resimmed_dc.py:134-145), and the objective then computes `reference_date - None`, which raises `TypeError` when another match is dated (models/psxg_totals_resimmed_dc.py:83-89).
- Input aliasing is not modelled. The source mutates the caller's match dictionaries: the totals preprocessing annotates them in place, and a shallow `matches.copy()` shares them with the resimulation. The model returns new values instead.

Behaviour of the source worth knowing, each stated by a member:

- The windowed preprocessing raises `KeyError` on an input where no record has a `match_date` key (models/psxg_shots_resimmed_dc.py:185-186; see Findings). `Preprocess.PreprocessWindow` models that. The fit set-up `TeamModel.ShotsProblem` uses the corrected `Preprocess.PreprocessWindowTotal`, so where the source's `fit_models` raises `KeyError` it builds an empty problem.
- A re-fit writes the fitted teams into the existing rating maps (models/psxg_shots_resimmed_dc.py:250-253) rather than replacing them, so teams absent from the new data keep their old ratings (`TeamModel.RefitKeepsStaleTeams`).
- τ is not clamped (models/psxg_shots_resimmed_dc.py:94-102) and can be negative inside the optimizer's box (`DixonColes.TauCanBeNegative`). The `1e-10` floor then applies.
- The model starts with empty rating maps and zero home advantage and rho (models/psxg_shots_resimmed_dc.py:12-15), so `print_team_strengths` on an unfitted model returns an empty table (models/psxg_shots_resimmed_dc.py:300-365; `Strengths.UnfittedTableIsEmpty`).

## Findings

| source | as written | input that shows it | evidently intended | confidence | as-written member | corrected member |
|---|---|---|---|---|---|---|
| models/psxg_shots_resimmed_dc.py:185-186 | `pd.DataFrame(matches)["match_date"]` raises `KeyError` when no record has a `match_date` key, so `fit_models` fails | an empty match list | an empty window with no reference date and no current season, as lines 197-204 are written to handle | not executed | `Preprocess.EmptyInputRaises` | `Preprocess.PreprocessWindowTotal` |
