/**
 * The provider-independent value types of the league client
 * (src/fantasy_client/mod.rs).
 */
module FantasyTypes {
  import opened Wrappers
  import opened Text

  /** Which upstream a league lives on; a closed two-value enumeration. */
  datatype LeagueType = ESPN | SLEEPER

  /** One configured league, loaded once at startup. */
  datatype LeagueConfig = LeagueConfig(
    leagueName: string,
    leagueType: LeagueType,
    leagueId: string,
    discordCategoryId: string,
    shortName: string)

  datatype FantasyTeam = FantasyTeam(id: string, teamName: string, ownerName: string)

  /** Two teams, their scores once played (`f64`, modelled as reals) and the week. */
  datatype FantasyMatchup = FantasyMatchup(
    team1: FantasyTeam,
    team2: FantasyTeam,
    score1: Option<real>,
    score2: Option<real>,
    weekNum: U32)
}
