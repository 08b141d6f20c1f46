/**
 * Building the league clients at startup (src/main.rs): one client per
 * configured league, in configuration order.
 */
module Startup {
  import opened Wrappers
  import opened Text
  import opened FantasyTypes
  import opened FantasyClient
  import Espn
  import Sleeper

  /** The season every ESPN client is built for. */
  const Season: U32 := 2021

  /** The shared ESPN credentials from the configuration file. */
  datatype EspnConfig = EspnConfig(swid: string, s2: string)

  /** The players file after a client for `config` was built on `before`. */
  function AfterLeague(config: LeagueConfig, before: Sleeper.PlayersDisk, upstream: Sleeper.SleeperUpstream)
    : Sleeper.PlayersDisk
  {
    if config.leagueType == SLEEPER then Sleeper.AfterRefresh(before, upstream.players) else before
  }

  /**
   * The players file as league `i` starts being built: every Sleeper league
   * before it has run the refresh step of `load_players` on it.
   */
  function DiskBefore(leagues: seq<LeagueConfig>, disk: Sleeper.PlayersDisk,
                      upstreams: seq<Sleeper.SleeperUpstream>, i: nat): Sleeper.PlayersDisk
    requires |upstreams| == |leagues| && i <= |leagues|
  {
    if i == 0 then disk
    else AfterLeague(leagues[i - 1], DiskBefore(leagues, disk, upstreams, i - 1), upstreams[i - 1])
  }

  /**
   * Whether a league gets a client: an ESPN id must parse as a `u64`, and a
   * Sleeper client must get through `initialize` on the file as the leagues
   * before it left it.
   */
  predicate ClientBuilds(config: LeagueConfig, before: Sleeper.PlayersDisk, upstream: Sleeper.SleeperUpstream) {
    match config.leagueType
    case ESPN => ParseU64(config.leagueId).Some?
    case SLEEPER => Sleeper.Initializes(before, upstream)
  }

  /** Whether league `i` gets a client, given the file the leagues before it left. */
  predicate LeagueBuilds(leagues: seq<LeagueConfig>, disk: Sleeper.PlayersDisk,
                         upstreams: seq<Sleeper.SleeperUpstream>, i: nat)
    requires |upstreams| == |leagues| && i < |leagues|
  {
    ClientBuilds(leagues[i], DiskBefore(leagues, disk, upstreams, i), upstreams[i])
  }

  /** The client `main` builds for an ESPN league whose id parsed as `id`. */
  function EspnClientOf(config: LeagueConfig, id: U64, espn: EspnConfig): FflClient {
    FflClient(config, EspnClientType(Espn.EspnClient(id, Season, espn.s2, espn.swid)))
  }

  /**
   * A built Sleeper client: its league id, the player map read from the
   * file it left behind, and the users and rosters the join produced.
   */
  ghost predicate SleeperBuilt(client: FflClient, config: LeagueConfig, after: Sleeper.PlayersDisk,
                               upstream: Sleeper.SleeperUpstream)
    reads if client.clientType.SleeperClientType? then {client.clientType.sleeper.cache} else {}
  {
    && client.config == config
    && client.clientType.SleeperClientType?
    && client.clientType.sleeper.leagueId == config.leagueId
    && client.clientType.sleeper.cache.TeamsConsistent()
    && after.contents.Parsed?
    && client.clientType.sleeper.cache.playerMap == after.contents.players
    && upstream.rosters.Some? && upstream.users.Some?
    && Sleeper.JoinTeams(upstream.users.value, Sleeper.RostersByOwner(upstream.rosters.value), map[], map[])
         == Sleeper.Joined(client.clientType.sleeper.cache.usersMap, client.clientType.sleeper.cache.rosterMap)
  }

  /**
   * The client built for `config` on the file `before`: for ESPN, the
   * client with the parsed league id; for Sleeper, the client `new` left
   * behind.
   */
  ghost predicate Built(client: FflClient, config: LeagueConfig, before: Sleeper.PlayersDisk,
                        upstream: Sleeper.SleeperUpstream, espn: EspnConfig)
    reads if client.clientType.SleeperClientType? then {client.clientType.sleeper.cache} else {}
  {
    match config.leagueType
    case ESPN =>
      ParseU64(config.leagueId).Some? && client == EspnClientOf(config, ParseU64(config.leagueId).value, espn)
    case SLEEPER =>
      SleeperBuilt(client, config, Sleeper.AfterRefresh(before, upstream.players), upstream)
  }

  /**
   * One arm of the `match` in `main`'s loop: the client for one league, or
   * the panic of its `unwrap` or of `SleeperClient::new`.
   */
  method BuildClient(config: LeagueConfig, espn: EspnConfig, before: Sleeper.PlayersDisk,
                     upstream: Sleeper.SleeperUpstream)
    returns (r: Outcome<FflClient>, after: Sleeper.PlayersDisk)
    ensures r.Err? == false
    ensures r.Ok? <==> ClientBuilds(config, before, upstream)
    ensures after == AfterLeague(config, before, upstream)
    ensures r.Ok? ==> Built(r.value, config, before, upstream, espn)
  {
    after := before;
    match config.leagueType {
      case ESPN =>
        var id := ParseU64(config.leagueId);
        if id.None? {
          return Panic, after;
        }
        r := Ok(EspnClientOf(config, id.value, espn));
      case SLEEPER =>
        var sleeper;
        sleeper, after := Sleeper.SleeperClient.New(config.leagueId, before, upstream);
        if !sleeper.Ok? {
          return Panic, after;
        }
        r := Ok(FflClient(config, SleeperClientType(sleeper.value)));
    }
  }

  /** `Built` for the `j`-th client and league. */
  ghost predicate BuiltAt(clients: seq<FflClient>, leagues: seq<LeagueConfig>, disk: Sleeper.PlayersDisk,
                          upstreams: seq<Sleeper.SleeperUpstream>, espn: EspnConfig, j: nat)
    requires |upstreams| == |leagues| && j < |clients| && j < |leagues|
    reads if clients[j].clientType.SleeperClientType? then {clients[j].clientType.sleeper.cache} else {}
  {
    Built(clients[j], leagues[j], DiskBefore(leagues, disk, upstreams, j), upstreams[j], espn)
  }

  /**
   * The client-building loop of `main`: one client per league, in
   * configuration order, stopping at the first panic. The players file on
   * disk is shared by every Sleeper league, so it is threaded through the
   * loop: `upstreams[i]` is what the Sleeper endpoints answer while league
   * `i` is being built.
   */
  method BuildClients(leagues: seq<LeagueConfig>, espn: EspnConfig, disk: Sleeper.PlayersDisk,
                      upstreams: seq<Sleeper.SleeperUpstream>)
    returns (r: Outcome<seq<FflClient>>, disk': Sleeper.PlayersDisk)
    requires |upstreams| == |leagues|
    ensures r.Err? == false
    ensures r.Ok? <==> forall i :: 0 <= i < |leagues| ==> LeagueBuilds(leagues, disk, upstreams, i)
    ensures r.Ok? ==> disk' == DiskBefore(leagues, disk, upstreams, |leagues|)
    ensures r.Ok? ==> |r.value| == |leagues|
    ensures r.Ok? ==> forall i :: 0 <= i < |leagues| ==> BuiltAt(r.value, leagues, disk, upstreams, espn, i)
  {
    var clients: seq<FflClient> := [];
    disk' := disk;
    for i := 0 to |leagues|
      invariant |clients| == i
      invariant disk' == DiskBefore(leagues, disk, upstreams, i)
      invariant forall j :: 0 <= j < i ==> LeagueBuilds(leagues, disk, upstreams, j)
      invariant forall j :: 0 <= j < i ==> BuiltAt(clients, leagues, disk, upstreams, espn, j)
    {
      var client;
      client, disk' := BuildClient(leagues[i], espn, disk', upstreams[i]);
      if !client.Ok? {
        assert !LeagueBuilds(leagues, disk, upstreams, i);
        return Panic, disk';
      }
      var built := clients + [client.value];
      assert BuiltAt(built, leagues, disk, upstreams, espn, i);
      forall j | 0 <= j < i
        ensures BuiltAt(built, leagues, disk, upstreams, espn, j)
      {
        assert built[j] == clients[j];
        assert BuiltAt(clients, leagues, disk, upstreams, espn, j);
      }
      clients := built;
    }
    r := Ok(clients);
  }
}
