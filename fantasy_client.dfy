/**
 * The league client handed to the bot (src/fantasy_client/mod.rs): a
 * league's configuration paired with the adapter that serves it.
 */
module FantasyClient {
  import opened FantasyTypes
  import Espn
  import Sleeper

  /** The adapter behind a league: an ESPN client (a value) or a Sleeper client (an object with a cache). */
  datatype FflClientType =
    | EspnClientType(espn: Espn.EspnClient)
    | SleeperClientType(sleeper: Sleeper.SleeperClient)

  datatype FflClient = FflClient(config: LeagueConfig, clientType: FflClientType)
}
