/**
 * The Sleeper adapter (src/fantasy_client/sleeper.rs): its cache of the
 * player directory and of the league's users and rosters, the once-a-day
 * refresh of the players file, the users/rosters join, and the two
 * capability operations.
 */
module Sleeper {
  import opened Wrappers
  import opened Text
  import opened Collections
  import opened FantasyTypes

  const SleeperApiUrl: string := "https://api.sleeper.app/v1"
  const PlayersDataPath: string := "data/sleeper_players.json"
  const SecsPerDay: nat := 60 * 60 * 24

  datatype SleeperTeamMetadata = SleeperTeamMetadata(teamName: Option<string>)

  datatype SleeperNflState = SleeperNflState(week: U32, seasonType: string)

  datatype SleeperUser = SleeperUser(
    userId: string,
    displayName: string,
    metadata: SleeperTeamMetadata,
    avatar: Option<string>)

  datatype SleeperRoster = SleeperRoster(rosterId: U32, ownerId: string)

  datatype NflPlayer = NflPlayer(
    playerId: string,
    firstName: string,
    lastName: string,
    status: Option<string>,
    injuryStatus: Option<string>,
    injuryStartDate: Option<string>,
    team: Option<string>)

  /**
   * What `fs::metadata` finds for the players file: `modified` is `None`
   * when the modification time cannot be read, and `elapsedSecs` is `None`
   * when the time since then cannot be computed; otherwise it is the whole
   * number of seconds (`as_secs`).
   */
  datatype FileMetadata = FileMetadata(modified: Option<ModifiedTime>)
  datatype ModifiedTime = ModifiedTime(elapsedSecs: Option<nat>)

  /** The players file as `load_players_from_file` reads it. */
  datatype PlayersFile = Parsed(players: map<string, NflPlayer>) | Unreadable | Unparseable

  /** The players file on disk: its metadata (`None` when it does not exist) and contents. */
  datatype PlayersDisk = PlayersDisk(metadata: Option<FileMetadata>, contents: PlayersFile)

  /**
   * How `fetch_players` ends. `RequestFailed`: the request (or creating the
   * file) failed, and the file is as it was. `BodyFailed`: the file was
   * already created, hence truncated, when reading the response body
   * failed, so an empty file that does not parse is left behind.
   * `Received(file)`: the body was written, and `file` is what the written
   * file reads back as.
   */
  datatype PlayersDownload = RequestFailed | BodyFailed | Received(file: PlayersFile)

  /**
   * What the Sleeper endpoints answer: the players download, and the
   * league's rosters and users (`None` for a failed request or a body that
   * does not decode).
   */
  datatype SleeperUpstream = SleeperUpstream(
    players: PlayersDownload,
    rosters: Option<seq<SleeperRoster>>,
    users: Option<seq<SleeperUser>>)

  /**
   * The decision at the top of `load_players`: reload unless the file
   * exists, its modification time is known, the time since then is known
   * and it is at most one day.
   */
  function NeedsReload(metadata: Option<FileMetadata>): (reload: bool)
    ensures !reload <==>
      && metadata.Some?
      && metadata.value.modified.Some?
      && metadata.value.modified.value.elapsedSecs.Some?
      && metadata.value.modified.value.elapsedSecs.value <= 86400
  {
    match metadata
    case None => true
    case Some(m) =>
      match m.modified
      case None => true
      case Some(mt) =>
        match mt.elapsedSecs
        case None => true
        case Some(el) => el > SecsPerDay
  }

  /** The file as it stands right after `fetch_players` wrote a download to it. */
  function JustWritten(contents: PlayersFile): PlayersDisk {
    PlayersDisk(Some(FileMetadata(Some(ModifiedTime(Some(0))))), contents)
  }

  /** The players file after the refresh step of `load_players`. */
  function AfterRefresh(disk: PlayersDisk, download: PlayersDownload): PlayersDisk {
    if !NeedsReload(disk.metadata) then disk
    else match download
      case RequestFailed => disk
      case BodyFailed => JustWritten(Unparseable)
      case Received(file) => JustWritten(file)
  }

  /** `rosters_by_user`: rosters keyed by owner id, a later roster overwriting an earlier one. */
  function OwnerPairs(rosters: seq<SleeperRoster>): seq<(string, SleeperRoster)>
  {
    seq(|rosters|, i requires 0 <= i < |rosters| => (rosters[i].ownerId, rosters[i]))
  }

  function RostersByOwner(rosters: seq<SleeperRoster>): map<string, SleeperRoster> {
    LastWins(OwnerPairs(rosters))
  }

  /** The owner ids of a list of rosters. */
  function OwnerIds(rosters: seq<SleeperRoster>): set<string> {
    set j | 0 <= j < |rosters| :: rosters[j].ownerId
  }

  /** `rosters_by_user` holds exactly the owner ids. */
  lemma RostersByOwnerKeys(rosters: seq<SleeperRoster>)
    ensures RostersByOwner(rosters).Keys == OwnerIds(rosters)
  {
    var pairs := OwnerPairs(rosters);
    LastWinsKeys(pairs);
    forall k | k in KeysOf(pairs) ensures k in OwnerIds(rosters) {
      var j :| 0 <= j < |pairs| && pairs[j].0 == k;
    }
    forall k | k in OwnerIds(rosters) ensures k in KeysOf(pairs) {
      var j :| 0 <= j < |rosters| && rosters[j].ownerId == k;
      assert pairs[j].0 == k;
    }
  }

  /** Each owner id is bound to the last roster with that owner. */
  lemma RostersByOwnerLast(rosters: seq<SleeperRoster>, i: nat)
    requires i < |rosters|
    requires forall j :: i < j < |rosters| ==> rosters[j].ownerId != rosters[i].ownerId
    ensures rosters[i].ownerId in RostersByOwner(rosters)
    ensures RostersByOwner(rosters)[rosters[i].ownerId] == rosters[i]
  {
    LastWinsValue(OwnerPairs(rosters), i);
  }

  /**
   * The join loop of `load_teams`, one user at a time: each user takes (and
   * removes) the roster keyed by its id, and is entered in both maps; a user
   * with no roster left stops the join (the `unwrap` panics) with the maps as
   * far as they got.
   */
  datatype JoinResult =
    | Joined(users: map<string, SleeperUser>, rosters: map<string, U32>)
    | MissingRoster(userId: string, users: map<string, SleeperUser>, rosters: map<string, U32>)

  function JoinTeams(users: seq<SleeperUser>, pool: map<string, SleeperRoster>,
                um: map<string, SleeperUser>, rm: map<string, U32>): JoinResult
    decreases |users|
  {
    if users == [] then Joined(um, rm)
    else
      var id := users[0].userId;
      if id !in pool then MissingRoster(id, um, rm)
      else JoinTeams(users[1..], pool - {id}, um[id := users[0]], rm[id := pool[id].rosterId])
  }

  /** The set of user ids of a list of users. */
  function UserIds(users: seq<SleeperUser>): set<string> {
    set i | 0 <= i < |users| :: users[i].userId
  }

  /** The user ids of a list of users, pairwise distinct. */
  predicate DistinctIds(users: seq<SleeperUser>) {
    forall i, j :: 0 <= i < j < |users| ==> users[i].userId != users[j].userId
  }

  /**
   * The join succeeds exactly when the user ids are pairwise distinct and
   * every one has a roster in the pool: a second user with an id already
   * joined finds its roster gone.
   */
  lemma {:induction false} JoinSucceedsIff(users: seq<SleeperUser>, pool: map<string, SleeperRoster>,
                                           um: map<string, SleeperUser>, rm: map<string, U32>)
    ensures JoinTeams(users, pool, um, rm).Joined? <==>
      DistinctIds(users) && forall i :: 0 <= i < |users| ==> users[i].userId in pool
  {
    if users != [] {
      var id := users[0].userId;
      if id in pool {
        var rest := users[1..];
        JoinSucceedsIff(rest, pool - {id}, um[id := users[0]], rm[id := pool[id].rosterId]);
        if DistinctIds(users) && forall i :: 0 <= i < |users| ==> users[i].userId in pool {
          assert DistinctIds(rest) by {
            forall i, j | 0 <= i < j < |rest| ensures rest[i].userId != rest[j].userId {
              assert rest[i] == users[i + 1] && rest[j] == users[j + 1];
            }
          }
          forall i | 0 <= i < |rest| ensures rest[i].userId in pool - {id} {
            assert rest[i] == users[i + 1];
          }
        }
        if JoinTeams(users, pool, um, rm).Joined? {
          forall i, j | 0 <= i < j < |users| ensures users[i].userId != users[j].userId {
            assert users[j] == rest[j - 1];
            if i > 0 {
              assert users[i] == rest[i - 1];
            }
          }
          forall i | 0 <= i < |users| ensures users[i].userId in pool {
            if i > 0 {
              assert users[i] == rest[i - 1];
            }
          }
        }
      } else {
        assert !(forall i :: 0 <= i < |users| ==> users[i].userId in pool);
      }
    }
  }

  /**
   * A successful join enters every user under its own id in both maps, the
   * roster map taking the id of the roster the pool held for that user, and
   * keeps the two key sets equal.
   */
  lemma {:induction false} JoinedMaps(users: seq<SleeperUser>, pool: map<string, SleeperRoster>,
                                      um: map<string, SleeperUser>, rm: map<string, U32>)
    requires JoinTeams(users, pool, um, rm).Joined?
    requires um.Keys == rm.Keys
    ensures var j := JoinTeams(users, pool, um, rm);
      && j.users.Keys == j.rosters.Keys
      && j.users.Keys == um.Keys + UserIds(users)
      && (forall i :: 0 <= i < |users| ==> j.users[users[i].userId] == users[i])
      && (forall i :: 0 <= i < |users| ==>
            users[i].userId in pool && j.rosters[users[i].userId] == pool[users[i].userId].rosterId)
      && (forall k :: k in um && k !in UserIds(users) ==>
            j.users[k] == um[k] && j.rosters[k] == rm[k])
  {
    if users != [] {
      var id := users[0].userId;
      var rest := users[1..];
      var pool', um', rm' := pool - {id}, um[id := users[0]], rm[id := pool[id].rosterId];
      JoinSucceedsIff(users, pool, um, rm);
      JoinedMaps(rest, pool', um', rm');
      var j := JoinTeams(users, pool, um, rm);
      assert j == JoinTeams(rest, pool', um', rm');
      UserIdsCons(users);
      DistinctHead(users);
      forall i | 0 <= i < |users|
        ensures j.users[users[i].userId] == users[i]
        ensures users[i].userId in pool && j.rosters[users[i].userId] == pool[users[i].userId].rosterId
      {
        if i > 0 {
          assert users[i] == rest[i - 1];
          assert users[i].userId in pool';
        }
      }
    }
  }

  /**
   * After `load_teams` succeeds, users and rosters are keyed by exactly the
   * user ids, each user under its own id, and each roster id is that of the
   * last roster owned by the user.
   */
  lemma LoadTeamsJoin(rosters: seq<SleeperRoster>, users: seq<SleeperUser>)
    ensures var j := JoinTeams(users, RostersByOwner(rosters), map[], map[]);
      && (j.Joined? <==> DistinctIds(users) && UserIds(users) <= OwnerIds(rosters))
      && (j.Joined? ==>
            && j.users.Keys == j.rosters.Keys == UserIds(users)
            && |j.users| == |users|
            && (forall i :: 0 <= i < |users| ==> j.users[users[i].userId] == users[i])
            && (forall i :: 0 <= i < |users| ==>
                  users[i].userId in RostersByOwner(rosters) &&
                  j.rosters[users[i].userId] == RostersByOwner(rosters)[users[i].userId].rosterId))
  {
    var pool := RostersByOwner(rosters);
    RostersByOwnerKeys(rosters);
    if UserIds(users) <= OwnerIds(rosters) {
      forall i | 0 <= i < |users| ensures users[i].userId in pool {
        assert users[i].userId in UserIds(users);
      }
    }
    if forall i :: 0 <= i < |users| ==> users[i].userId in pool {
      forall k | k in UserIds(users) ensures k in OwnerIds(rosters) {
        var i :| 0 <= i < |users| && users[i].userId == k;
      }
    }
    JoinSucceedsIff(users, pool, map[], map[]);
    var j := JoinTeams(users, pool, map[], map[]);
    if j.Joined? {
      JoinedMaps(users, pool, map[], map[]);
      DistinctIdsCount(users);
    }
  }

  lemma {:induction false} DistinctIdsCount(users: seq<SleeperUser>)
    requires DistinctIds(users)
    ensures |UserIds(users)| == |users|
  {
    if users != [] {
      DistinctHead(users);
      DistinctIdsCount(users[1..]);
      UserIdsCons(users);
    }
  }

  lemma UserIdsCons(users: seq<SleeperUser>)
    requires users != []
    ensures UserIds(users) == UserIds(users[1..]) + {users[0].userId}
  {
    var rest := users[1..];
    forall k | k in UserIds(users) ensures k in UserIds(rest) + {users[0].userId} {
      var i :| 0 <= i < |users| && users[i].userId == k;
      if i > 0 {
        assert rest[i - 1] == users[i];
      }
    }
    forall k | k in UserIds(rest) ensures k in UserIds(users) {
      var i :| 0 <= i < |rest| && rest[i].userId == k;
      assert users[i + 1] == rest[i];
    }
  }

  /** With distinct ids, the first id is not among the rest, whose ids are distinct too. */
  lemma DistinctHead(users: seq<SleeperUser>)
    requires users != [] && DistinctIds(users)
    ensures users[0].userId !in UserIds(users[1..])
    ensures DistinctIds(users[1..])
  {
    var rest := users[1..];
    forall i | 0 <= i < |rest| ensures rest[i].userId != users[0].userId {
      assert rest[i] == users[i + 1];
    }
    forall i, j | 0 <= i < j < |rest| ensures rest[i].userId != rest[j].userId {
      assert rest[i] == users[i + 1] && rest[j] == users[j + 1];
    }
  }

  /** The refill loop of `load_players_from_file`: every parsed entry is inserted under its key. */
  method CopyPlayers(players: map<string, NflPlayer>) returns (loaded: map<string, NflPlayer>)
    ensures loaded == players
  {
    var pending := players.Keys;
    loaded := map[];
    while pending != {}
      invariant pending <= players.Keys
      invariant loaded.Keys == players.Keys - pending
      invariant forall k :: k in loaded ==> loaded[k] == players[k]
      decreases pending
    {
      var k :| k in pending;
      loaded := loaded[k := players[k]];
      pending := pending - {k};
    }
  }

  /** The team `get_teams` reports for a user: the custom team name, else the display name. */
  function TeamOf(user: SleeperUser): FantasyTeam {
    FantasyTeam(user.userId, user.metadata.teamName.GetOr(user.displayName), user.displayName)
  }

  /**
   * `get_matchups`: with no week given it asks for the current NFL state
   * and passes on that call's error; otherwise (and on success) the list is
   * empty.
   */
  function GetMatchups(weekNum: Option<U32>, nflState: Option<SleeperNflState>): (r: Outcome<seq<FantasyMatchup>>)
    ensures r.Panic? == false
    ensures r.Err? <==> weekNum.None? && nflState.None?
    ensures r.Ok? ==> r.value == []
  {
    match weekNum
    case Some(n) => Ok([])
    case None =>
      match nflState
      case None => Err
      case Some(state) => Ok([])
  }

  /** The adapter's three maps, updated in place at initialization. */
  class Cache {
    var playerMap: map<string, NflPlayer>
    var rosterMap: map<string, U32>
    var usersMap: map<string, SleeperUser>

    constructor ()
      ensures playerMap == map[] && rosterMap == map[] && usersMap == map[]
    {
      playerMap := map[];
      rosterMap := map[];
      usersMap := map[];
    }

    /** Users and rosters agree on their keys, and each user sits under its own id. */
    ghost predicate TeamsConsistent()
      reads this
    {
      && usersMap.Keys == rosterMap.Keys
      && forall id :: id in usersMap ==> usersMap[id].userId == id
    }
  }

  /**
   * When `initialize` gets through both of its `expect`s: `load_players`
   * does not fail to refresh a stale file, the file it then reads parses,
   * both team requests succeed and every user has a roster.
   */
  predicate Initializes(disk: PlayersDisk, upstream: SleeperUpstream) {
    && (!NeedsReload(disk.metadata) || upstream.players.Received?)
    && AfterRefresh(disk, upstream.players).contents.Parsed?
    && upstream.rosters.Some? && upstream.users.Some?
    && JoinTeams(upstream.users.value, RostersByOwner(upstream.rosters.value), map[], map[]).Joined?
  }

  class SleeperClient {
    const leagueId: string
    const cache: Cache

    /** The client before `initialize`: the league id and an empty cache. */
    constructor Empty(leagueId: string)
      ensures this.leagueId == leagueId && fresh(cache)
      ensures cache.playerMap == map[] && cache.rosterMap == map[] && cache.usersMap == map[]
    {
      this.leagueId := leagueId;
      cache := new Cache();
    }

    /**
     * `SleeperClient::new`: an empty client, then `initialize`, whose two
     * `expect`s turn any failure into a panic.
     */
    static method New(leagueId: string, disk: PlayersDisk, upstream: SleeperUpstream)
      returns (r: Outcome<SleeperClient>, disk': PlayersDisk)
      ensures r.Err? == false
      ensures r.Ok? <==> Initializes(disk, upstream)
      ensures r.Ok? ==> fresh(r.value) && fresh(r.value.cache) && r.value.leagueId == leagueId
      ensures r.Ok? ==> r.value.cache.TeamsConsistent()
      ensures r.Ok? ==> disk'.contents.Parsed? && r.value.cache.playerMap == disk'.contents.players
      ensures r.Ok? ==>
        JoinTeams(upstream.users.value, RostersByOwner(upstream.rosters.value), map[], map[])
          == Joined(r.value.cache.usersMap, r.value.cache.rosterMap)
      ensures disk' == AfterRefresh(disk, upstream.players)
    {
      var client := new SleeperClient.Empty(leagueId);
      var init;
      init, disk' := client.Initialize(disk, upstream);
      if init.Ok? {
        r := Ok(client);
      } else {
        r := Panic;
      }
    }

    /** `initialize`: load the players, then the teams; `expect` on both. */
    method Initialize(disk: PlayersDisk, upstream: SleeperUpstream) returns (r: Outcome<()>, disk': PlayersDisk)
      modifies cache
      ensures r.Err? == false
      ensures r.Ok? <==> Initializes(disk, upstream)
      ensures r.Ok? ==> cache.TeamsConsistent()
      ensures r.Ok? ==> disk'.contents.Parsed? && cache.playerMap == disk'.contents.players
      ensures r.Ok? ==>
        JoinTeams(upstream.users.value, RostersByOwner(upstream.rosters.value), map[], map[])
          == Joined(cache.usersMap, cache.rosterMap)
      ensures disk' == AfterRefresh(disk, upstream.players)
    {
      var players;
      players, disk' := LoadPlayers(disk, upstream.players);
      if !players.Ok? {
        return Panic, disk';
      }
      var teams := LoadTeams(upstream.rosters, upstream.users);
      if !teams.Ok? {
        return Panic, disk';
      }
      r := Ok(());
    }

    /**
     * `load_players`: refresh the file from the network when `NeedsReload`
     * says so, then load the file into the cache. A failed download returns
     * `Err` before anything is loaded; one that failed while reading the body
     * has already truncated the file.
     */
    method LoadPlayers(disk: PlayersDisk, download: PlayersDownload) returns (r: Outcome<()>, disk': PlayersDisk)
      modifies cache
      ensures !NeedsReload(disk.metadata) ==> disk' == disk
      ensures NeedsReload(disk.metadata) && download.RequestFailed? ==> disk' == disk
      ensures NeedsReload(disk.metadata) && download.BodyFailed? ==> disk' == JustWritten(Unparseable)
      ensures NeedsReload(disk.metadata) && download.Received? ==> disk' == JustWritten(download.file)
      ensures disk' == AfterRefresh(disk, download)
      ensures r.Err? <==> NeedsReload(disk.metadata) && !download.Received?
      ensures r.Ok? <==> !r.Err? && disk'.contents.Parsed?
      ensures r.Ok? ==> cache.playerMap == disk'.contents.players
      ensures !r.Ok? ==> cache.playerMap == old(cache.playerMap)
      ensures cache.rosterMap == old(cache.rosterMap) && cache.usersMap == old(cache.usersMap)
    {
      disk' := disk;
      if NeedsReload(disk.metadata) {
        match download {
          case RequestFailed =>
            return Err, disk';
          case BodyFailed =>
            return Err, JustWritten(Unparseable);
          case Received(file) =>
            disk' := JustWritten(file);
        }
      }
      r := LoadPlayersFromFile(disk'.contents);
    }

    /**
     * `load_players_from_file`: an unreadable or unparsable file panics;
     * otherwise the player map is cleared and refilled, ending equal to the
     * parsed file.
     */
    method LoadPlayersFromFile(file: PlayersFile) returns (r: Outcome<()>)
      modifies cache
      ensures r.Err? == false
      ensures r.Ok? <==> file.Parsed?
      ensures r.Ok? ==> cache.playerMap == file.players
      ensures r.Panic? ==> cache.playerMap == old(cache.playerMap)
      ensures cache.rosterMap == old(cache.rosterMap) && cache.usersMap == old(cache.usersMap)
    {
      if !file.Parsed? {
        return Panic;
      }
      var loaded := CopyPlayers(file.players);
      cache.playerMap := loaded;
      r := Ok(());
    }

    /**
     * `load_teams`: a failed rosters or users request returns `Err` with the
     * maps untouched; otherwise both maps are cleared and rebuilt by `Join`,
     * and a user without a roster panics.
     */
    method LoadTeams(rosters: Option<seq<SleeperRoster>>, users: Option<seq<SleeperUser>>) returns (r: Outcome<()>)
      modifies cache
      ensures r.Err? <==> rosters.None? || users.None?
      ensures r.Err? ==> cache.usersMap == old(cache.usersMap) && cache.rosterMap == old(cache.rosterMap)
      ensures !r.Err? ==>
        var j := JoinTeams(users.value, RostersByOwner(rosters.value), map[], map[]);
        && (r.Ok? <==> j.Joined?)
        && cache.usersMap == j.users && cache.rosterMap == j.rosters
      ensures r.Ok? ==> cache.TeamsConsistent()
      ensures cache.playerMap == old(cache.playerMap)
    {
      if rosters.None? || users.None? {
        return Err;
      }
      var rs, us := rosters.value, users.value;
      var rostersByUser: map<string, SleeperRoster> := map[];
      for i := 0 to |rs|
        invariant rostersByUser == LastWins(OwnerPairs(rs[..i]))
        invariant cache.playerMap == old(cache.playerMap)
      {
        assert OwnerPairs(rs[..i + 1]) == OwnerPairs(rs[..i]) + [(rs[i].ownerId, rs[i])];
        LastWinsSnoc(OwnerPairs(rs[..i]), rs[i].ownerId, rs[i]);
        rostersByUser := rostersByUser[rs[i].ownerId := rs[i]];
      }
      assert rs[..|rs|] == rs;
      ghost var spec := JoinTeams(us, rostersByUser, map[], map[]);
      cache.usersMap := map[];
      cache.rosterMap := map[];
      var i := 0;
      while i < |us|
        invariant 0 <= i <= |us|
        invariant JoinTeams(us[i..], rostersByUser, cache.usersMap, cache.rosterMap) == spec
        invariant cache.usersMap.Keys == cache.rosterMap.Keys
        invariant forall id :: id in cache.usersMap ==> cache.usersMap[id].userId == id
        invariant cache.playerMap == old(cache.playerMap)
      {
        var user := us[i];
        assert us[i..][1..] == us[i + 1..];
        if user.userId !in rostersByUser {
          return Panic;
        }
        var roster := rostersByUser[user.userId];
        rostersByUser := rostersByUser - {user.userId};
        cache.usersMap := cache.usersMap[user.userId := user];
        cache.rosterMap := cache.rosterMap[user.userId := roster.rosterId];
        i := i + 1;
      }
      r := Ok(());
    }

    /**
     * `get_teams`: one team per entry of the users map (in the map's
     * iteration order), each built by `TeamOf`; never fails. With the maps as
     * `load_teams` leaves them the team ids are pairwise distinct.
     */
    method GetTeams() returns (r: Outcome<seq<FantasyTeam>>)
      ensures r.Ok?
      ensures |r.value| == |cache.usersMap|
      ensures forall t :: t in r.value ==> exists id :: id in cache.usersMap && t == TeamOf(cache.usersMap[id])
      ensures forall id :: id in cache.usersMap ==> TeamOf(cache.usersMap[id]) in r.value
      ensures cache.TeamsConsistent() ==>
        forall i, j :: 0 <= i < j < |r.value| ==> r.value[i].id != r.value[j].id
    {
      var users := cache.usersMap;
      var teams: seq<FantasyTeam> := [];
      ghost var order: seq<string> := [];
      var rest := users.Keys;
      while rest != {}
        invariant rest <= users.Keys
        invariant |order| == |teams| && |order| + |rest| == |users|
        invariant forall i :: 0 <= i < |order| ==> order[i] in users && order[i] !in rest
        invariant forall i :: 0 <= i < |order| ==> teams[i] == TeamOf(users[order[i]])
        invariant forall i, j :: 0 <= i < j < |order| ==> order[i] != order[j]
        invariant forall id :: id in users ==> id in rest || id in order
        decreases rest
      {
        var id :| id in rest;
        teams := teams + [TeamOf(users[id])];
        order := order + [id];
        rest := rest - {id};
      }
      forall id | id in users ensures TeamOf(users[id]) in teams {
        var i :| 0 <= i < |order| && order[i] == id;
        assert teams[i] == TeamOf(users[id]);
      }
      forall t | t in teams ensures exists id :: id in users && t == TeamOf(users[id]) {
        var i :| 0 <= i < |teams| && teams[i] == t;
        assert order[i] in users;
      }
      r := Ok(teams);
    }
  }
}
