/** The records the team-strength model consumes. A Python match dictionary
    becomes `Match`; a key the dictionary lacks is `None`, and so is a key
    holding `None`, although Python treats the two apart in places. Dates
    are integer day numbers. */
module Records {
  import opened Wrappers

  datatype Match = Match(
    url: Option<string>,          // match_url
    home: string,                 // home_team
    away: string,                 // away_team
    date: Option<int>,            // match_date, as a day number
    season: Option<int>,          // season start year
    homeGoals: nat,
    awayGoals: nat,
    daysFromRef: Option<nat>,     // days_from_ref, written by the preprocessors
    weight: Option<real>,         // weight, written by resimulation
    isSimulation: bool,           // is_simulation (absent reads as False)
    simulationId: Option<nat>)    // simulation_id

  /** One row of shot data: the match it belongs to, the shooting team and
      the shot's post-shot expected goals. */
  datatype Shot = Shot(url: string, team: string, psxg: real)

  /** What preprocessing hands to the objective. */
  datatype Metadata = Metadata(referenceDate: Option<int>, currentSeason: Option<int>)
}
