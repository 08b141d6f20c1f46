# football-rustbot: a verified model of the league data plumbing

This project is a Dafny model of the parts of football-rustbot that move
league data around. The repository holds two things:

- A Discord bot in Rust. It resolves a slash command to one of the configured
  fantasy leagues. The league lives on ESPN or on Sleeper. The bot then builds
  the reply, and it reacts to football talk in ordinary messages.
- A set of Python cloud functions. They keep daily snapshots up to date:
  - the COVID list, with the inferred date each player went on it;
  - the recent-activity history of an ESPN league;
  - the projected-score timeline of every matchup in a Sleeper league.

Every network, file, datastore and clock access is replaced by an input. The
model covers:

- **Sleeper adapter cache.** `Sleeper.Cache` and `Sleeper.SleeperClient` are
  classes with the three cache maps. The methods cover:
  - the players-file reload decision;
  - the clear-and-refill of the player map;
  - the users/rosters join, which empties an owner-keyed roster map;
  - the team listing.
- **League registry and command dispatch.**
  - `Startup.BuildClients` builds one client per configured league.
  - `Discord.Handler` does first-match lookup by short name or by category id.
  - It resolves the `league` option, or falls back to the channel category.
  - It builds the fixed replies and the COVID list, and decides the message
    reactions.
- **ESPN request construction.** This covers the URL, the cookie header and
  the ordered `view` parameters. Both trait methods answer with empty lists.
- **update-sleeper.** This covers the COVID filter and the start-date
  inference from yesterday's dated blob. The date arithmetic and
  `isoformat` behind it are modelled in `Dates`.
- **recent-activity.** This is the merge of newly reported transactions into
  the newest-first history.
- **update-projections.** This covers:
  - game-clock arithmetic;
  - the weighted stat sum and the settled branches of a player's projection;
  - the snapshot rows appended to the week's entity;
  - grouping by matchup and the two-team check;
  - the Sleeper team names.

### How failures are modelled

- A Rust `unwrap` or `expect` on a failure panics. This is the `Panic`
  constructor of `Wrappers.Outcome`.
- An error returned with `?` is `Err`.
- A Python exception is `Wrappers.PyResult.Raised` with the exception's class.
- Rust `u32`/`u64` are subset types of `nat`.
- `f64` and Python floats are `real`. Rounding is not modelled.

### Where the iteration order is not fixed

Some loops visit a hash map or a Python set, so their order is not fixed.

- `Sleeper.SleeperClient.GetTeams` and `ProjectionPages.MatchupTeams` visit
  keys in an arbitrary order, using `:|`. Their contracts hold for every order.
- `Discord.Reactions` visits the two reaction keywords in either order. The
  order is a parameter.

## Model

| member | source | states |
|---|---|---|
| Sleeper.NeedsReload | src/fantasy_client/sleeper.rs:98-109 | The file is kept exactly when its metadata, its modified time and its elapsed time are all readable and the age is at most 86 400 s. Any missing piece means reload. |
| Sleeper.SleeperClient.LoadPlayers | src/fantasy_client/sleeper.rs:95-128 | A fresh file (known age of at most one day) is left as it is. A stale one is refreshed, and the download ends one of three ways. A failed request returns `Err` and leaves the file and the cache untouched. A body that fails to arrive returns `Err` after the file was already truncated, so the file is now empty, unparsable and 0 s old. A received body becomes the file, 0 s old. Without `Err`, the player map then equals the parsed file, or the call panics. Roster and user maps are unchanged. |
| Sleeper.SleeperClient.LoadPlayersFromFile | src/fantasy_client/sleeper.rs:130-139 | A parsable file replaces the player map with exactly the file's map; earlier entries are gone. An unreadable or unparsable file panics. The other maps are unchanged. |
| Sleeper.CopyPlayers | src/fantasy_client/sleeper.rs:136-138 | Draining the parsed map into the emptied player map, in any order, yields exactly the parsed map. |
| Sleeper.RostersByOwnerKeys | src/fantasy_client/sleeper.rs:153-156 | `rosters_by_user` is keyed by exactly the rosters' owner ids. |
| Sleeper.RostersByOwnerLast | src/fantasy_client/sleeper.rs:153-156 | An owner maps to the last roster listed for them; a later roster overwrites an earlier one. |
| Sleeper.JoinSucceedsIff | src/fantasy_client/sleeper.rs:158-168 | The join completes iff the user ids are pairwise distinct and each has a roster. A duplicate user finds its roster already removed and panics. |
| Sleeper.JoinedMaps | src/fantasy_client/sleeper.rs:158-168 | A completed join gives `users_map` and `roster_map` the same keys: the old keys plus the user ids. Each user maps to itself and to its owned roster's id. Old entries of other ids stay. |
| Sleeper.LoadTeamsJoin | src/fantasy_client/sleeper.rs:141-168 | Starting from empty maps, loading succeeds iff the user ids are distinct and all own a roster. Both maps are then keyed by exactly the user ids, one entry per user. Each user maps to itself and to the id of the last roster it owns. |
| Sleeper.DistinctIdsCount | src/fantasy_client/sleeper.rs:158-168 | Distinct user ids make `users_map` as large as the user list. |
| Sleeper.UserIdsCons | src/fantasy_client/sleeper.rs:158-168 | The ids of a user list are the first user's id plus the ids of the rest. |
| Sleeper.DistinctHead | src/fantasy_client/sleeper.rs:158-168 | With distinct ids, the first user's id is not among the rest, whose ids stay distinct. |
| Sleeper.SleeperClient.LoadTeams | src/fantasy_client/sleeper.rs:141-171 | A failed rosters or users request is `Err` and leaves the maps alone. Otherwise the loops leave the maps equal to the join of the users against `rosters_by_user`. The result is `Ok` iff no `unwrap` panicked, and success leaves the two maps consistent. The player map is unchanged. |
| Sleeper.Cache.constructor | src/fantasy_client/sleeper.rs:51-55 | The cache starts with three empty maps. |
| Sleeper.SleeperClient.Empty | src/fantasy_client/sleeper.rs:63-75 | A new client stores its league id with a fresh, empty cache. |
| Sleeper.SleeperClient.Initialize | src/fantasy_client/sleeper.rs:85-93 | Initialisation never returns `Err`, since the `expect`s turn errors into panics. It succeeds exactly when the file is fresh or a stale one got a received download, the file then parses, both team requests succeed and every user has a roster (`Sleeper.Initializes`). On success the player map is the file and the team maps are the join result, consistent with each other. The file always ends as the refresh step left it. |
| Sleeper.SleeperClient.New | src/fantasy_client/sleeper.rs:63-75 | A fresh client for the league id, initialised as above; it is returned exactly when initialisation succeeds, and otherwise the call panics. |
| Sleeper.SleeperClient.GetTeams | src/fantasy_client/sleeper.rs:186-204 | One team per `users_map` entry and no other. Each team is id = user id, name = custom team name or else display name, owner = display name. Consistent maps give distinct ids. |
| Sleeper.GetMatchups | src/fantasy_client/sleeper.rs:206-216 | Never panics. It is `Err` exactly when no week is given and the NFL-state request fails. Success is always the empty list. |
| Startup.BuildClient | src/main.rs:40-54 | One arm of the loop's `match`. An ESPN config gives an ESPN client with the parsed league id, year 2021 and the configured s2/swid, and panics when the id is not a `u64`. A Sleeper config gives the client `SleeperClient::new` built, with its player map, join result and consistent cache, or panics exactly when `new` does. Only a Sleeper config touches the players file. |
| Startup.BuildClients | src/main.rs:38-57 | The loop succeeds exactly when every league's client builds on the players file as the leagues before it left it; otherwise it panics. On success there is one client per config, in config order, each as `Startup.BuildClient` describes, and the file is the one the last Sleeper league left. |
| Espn.BuildRequest | src/fantasy_client/espn.rs:41-58 | The URL is the league URL and the cookie is `SWID=…; espn_s2=…`. There is one `view` query pair per view, in order. It panics exactly when the cookie is not a valid header value. |
| Espn.LeagueUrlRoundTrip | src/fantasy_client/espn.rs:50-55 | Split at `/`, the URL is the base path, the season, the league path and the league id, and both numbers parse back. |
| Espn.SplitUrlShape | src/fantasy_client/espn.rs:50-55 | The segments of the URL are those of its parts joined by `/`. |
| Espn.CookieRoundTrip | src/fantasy_client/espn.rs:44-48 | Split at `;`, the cookie header is exactly the `SWID=` and ` espn_s2=` fields. |
| Espn.SendRequest | src/fantasy_client/espn.rs:41-68 | Returns the parsed members exactly when the cookie is valid and the body is JSON. Otherwise it panics. |
| Espn.GetTeams | src/fantasy_client/espn.rs:73-80 | `Ok([])` exactly when the request succeeds and the members parse. Every other case panics. |
| Discord.Handler.GetClientByName | src/discord_client/mod.rs:195-204 | Some client iff one has that short name, and then the first such client. |
| Discord.Handler.GetClientByCategoryId | src/discord_client/mod.rs:184-193 | Some client iff one has that category id, and then the first such client. |
| Discord.LeagueOption | src/discord_client/mod.rs:78-83 | The selector scan never returns `Err`. |
| Discord.LeagueOptionFirst | src/discord_client/mod.rs:78-83 | The first option named `league` decides the selector; options after it are ignored. |
| Discord.LeagueOptionAbsent | src/discord_client/mod.rs:78-83 | With no `league` option there is no selector. |
| Discord.Handler.LeagueName | src/discord_client/mod.rs:76-83 | The loop over the options computes the selector. |
| Discord.Handler.ResolveClient | src/discord_client/mod.rs:88-100 | With a selector the league is looked up by short name, without one by the category id the channel lookup yields. It panics on a non-string selector, on a failed lookup or when the lookup yields no category. The client found is the first one in configuration order with that short name or category id, and there is one exactly when some client matches. |
| Discord.Listed | src/discord_client/mod.rs:233 | A player is listed iff its search rank is known and below 9 999 999. |
| Discord.ListedPlayersSpec | src/discord_client/mod.rs:233 | The filter keeps exactly the listed players, each as often as downloaded, and drops the rest. |
| Discord.ListedPlayersCount | src/discord_client/mod.rs:233 | The filter keeps each listed player exactly as often as downloaded and no unlisted one. |
| Discord.FenceSplit | src/discord_client/mod.rs:245-250 | A fenced body reads as the opening fence, the body's lines and the closing fence. |
| Discord.FenceLines | src/discord_client/mod.rs:245-250 | Joined newline-free lines inside the fence read back as those lines, or as one empty line when there are none. |
| Discord.CovidReplyLines | src/discord_client/mod.rs:233-250 | The reply has one line per listed player, in order, formatted `name, team` plus ` (date)` when known, between the fences. An empty list gives exactly "```\n\n```". |
| Discord.Handler.HandleWhosGotCovid | src/discord_client/mod.rs:224-251 | The reply is the fenced list exactly when the download parses. A failed download or parse panics. |
| Discord.Handler.InteractionCreate | src/discord_client/mod.rs:69-122 | Non-command interactions get no response. `whosgotcovid` gets the COVID reply. After a successful resolution, `matchups` and `standings` get their fixed texts. Every other command panics at the `unwrap`. |
| Discord.AsciiLowercase | src/discord_client/mod.rs:126 | The same length, with only `A`–`Z` lowered. |
| Discord.CountBotsSnoc | src/discord_client/mod.rs:131-135 | Counting bot mentions adds one per extra bot. |
| Discord.HitsOfTwo | src/discord_client/mod.rs:126-130 | Scanning two keyword entries reacts with each emoji iff its keyword occurs, at most once each, and with nothing else. |
| Discord.HitsOfReaccOrder | src/discord_client/mod.rs:126-130 | In either iteration order of the keyword map, each emoji appears iff its keyword occurs, at most once. No other emoji and no robot appears. |
| Discord.RobotsCount | src/discord_client/mod.rs:131-135 | The bot reactions are all robots, one per bot. |
| Discord.RobotsAfter | src/discord_client/mod.rs:131-135 | Robots appended after robot-free reactions come last, number one per bot, and leave the other reactions as they were. |
| Discord.KeywordReactions | src/discord_client/mod.rs:126-130 | The keyword loop reacts with the emoji of each entry whose keyword the text contains, in entry order. |
| Discord.BotReactions | src/discord_client/mod.rs:131-135 | The mention loop appends one robot per bot mentioned to the keyword reactions. |
| Discord.ReactionsShape | src/discord_client/mod.rs:124-136 | Keyword reactions followed by bot reactions satisfy every property of `Reactions`. |
| Discord.Reactions | src/discord_client/mod.rs:124-136 | One robot per mentioned bot. Each keyword emoji appears iff the lowercased message contains its keyword, and at most once. Nothing else appears, and the robots come last. |
| Discord.FootballReaction | src/discord_client/mod.rs:21-24 | The football emoji is added iff the lowercased message contains "football". |
| Dates.DaysInMonth | cf/update-sleeper/main.py:36-37 | Every month has 28 to 31 days. |
| Dates.MonthsFillYear | cf/update-sleeper/main.py:36-37 | The twelve months add up to the year's length. |
| Dates.PrevDay | cf/update-sleeper/main.py:36-37 | `today - timedelta(days=1)` is a valid date, and it raises `OverflowError` exactly on 0001-01-01. |
| Dates.PrevDayOrdinal | cf/update-sleeper/main.py:36-37 | The day before has the ordinal one less. |
| Dates.OrdinalMonotone | cf/update-sleeper/main.py:36-37 | An earlier date has a smaller ordinal. |
| Dates.OrdinalInjective | cf/update-sleeper/main.py:36-37 | Distinct dates have distinct ordinals. |
| Dates.YearBound | cf/update-sleeper/main.py:36-37 | A date's ordinal lies within its year. |
| Dates.DaysBeforeYearMonotone | cf/update-sleeper/main.py:36-37 | Later years start later. |
| Dates.DaysBeforeMonthMonotone | cf/update-sleeper/main.py:36-37 | Later months start later. |
| Dates.Padded | cf/update-sleeper/main.py:36-38 | Zero padding gives the exact width, digits only, with the number's value when it fits. |
| Dates.IsoFormat | cf/update-sleeper/main.py:36-38 | `isoformat()` is ten characters with dashes at positions 4 and 7. |
| Dates.IsoFormatInjective | cf/update-sleeper/main.py:36-38 | Different dates give different ISO texts, so each day has its own dated blob. |
| CovidUpdate.InferredStartTruthy | cf/update-sleeper/main.py:45-55 | The inferred start date is never empty, so tomorrow's run keeps it. |
| CovidUpdate.PublishedListSpec | cf/update-sleeper/main.py:28-55 | The published list holds exactly the COVID players. Only their start dates are changed, and each now has a non-empty one. |
| CovidUpdate.DatedNameIsNotPlayersName | cf/update-sleeper/main.py:9-12 | The dated blob never overwrites the all-players blob. |
| CovidUpdate.UpdateSleeper | cf/update-sleeper/main.py:25-65 | On 0001-01-01 the run raises `OverflowError` after only the players upload. Otherwise the bucket ends as `Run` describes. A missing yesterday blob reads as an empty map. |
| CovidUpdate.StartDateCarriedForward | cf/update-sleeper/main.py:45-55 | A player on the list on two consecutive days keeps the start date of the first day. |
| RecentActivity.NewAdditionsSpec | cf/recent-activity/main.py:63-64 | The new additions are exactly the recents strictly newer than the newest stored date (all of them with no history), each as often as reported. |
| RecentActivity.InsertSpec | cf/recent-activity/main.py:79 | Inserting into a newest-first list keeps it sorted and adds exactly that entry. |
| RecentActivity.InsertSorted | cf/recent-activity/main.py:79 | Inserting into a newest-first list keeps it newest-first. |
| RecentActivity.InsertMultiset | cf/recent-activity/main.py:79 | Insertion adds exactly the inserted entry and loses nothing. |
| RecentActivity.InsertBound | cf/recent-activity/main.py:79 | Inserting an entry no newer than a bound into a list below that bound keeps every entry below it. |
| RecentActivity.SortDescSpec | cf/recent-activity/main.py:79 | The sort is newest-first and a permutation. |
| RecentActivity.WithDateAppend | cf/recent-activity/main.py:79 | Selecting one date distributes over concatenation. |
| RecentActivity.WithDateNone | cf/recent-activity/main.py:79 | A list without that date selects nothing. |
| RecentActivity.InsertWithDate | cf/recent-activity/main.py:79 | Insertion puts an entry after the others of its date. |
| RecentActivity.SortDescStable | cf/recent-activity/main.py:79 | The sort is stable: entries of one date keep their order. |
| RecentActivity.SortDescOfSorted | cf/recent-activity/main.py:79 | Sorting a sorted list changes nothing. |
| RecentActivity.InsertAtEnd | cf/recent-activity/main.py:79 | An entry no newer than the rest goes last. |
| RecentActivity.UpdateEspnActivity | cf/recent-activity/main.py:51-88 | A stored document without `activity` raises `KeyError`, and a missing blob starts empty. Otherwise the new activity is the sorted merge, newest first. It holds the old entries plus each new addition exactly once. `updated` is the time stamp. |
| RecentActivity.NewAdditionsNewer | cf/recent-activity/main.py:63-64 | Every addition is newer than every stored entry. |
| RecentActivity.MergeKeeps | cf/recent-activity/main.py:61-79 | No stored entry or addition is lost. |
| RecentActivity.MergeNewestBound | cf/recent-activity/main.py:61-79 | After the merge, none of the same recents counts as new. The merged list is empty only when both inputs were. |
| RecentActivity.RecentBelowHead | cf/recent-activity/main.py:61-79 | Every recent transaction is no newer than the head of the merged history. |
| RecentActivity.NoNewAdditions | cf/recent-activity/main.py:64 | When nothing is newer, nothing is added. |
| RecentActivity.MergeIdempotent | cf/recent-activity/main.py:51-88 | Re-running with the same report leaves the history as it is. |
| Projections.SecondsLeftOfParts | cf/update-projections/main.py:173-184 | A running game whose clock splits at `:` into two digit strings has max(4 − quarter, 0) · 900 + mm · 60 + ss seconds left, leading zeros read as `int()` reads them. In regulation that is between 0 and 3600. |
| Projections.RunningGame | cf/update-projections/main.py:173-184 | A game that is neither complete nor before kickoff is timed by its quarter and clock. |
| Projections.SecondsLeftOfClock | cf/update-projections/main.py:173-184 | A running game whose clock reads `mm:ss`, each part any digit string (zero-padded parts such as "15:00", "0:00" and "7:05" included), has max(4 − quarter, 0) · 900 + mm · 60 + ss seconds left. In regulation that is between 0 and 3600. |
| Projections.FirstQuarterStart | cf/update-projections/main.py:178-184 | A running game in quarter 1 with "15:00" on the clock has 3600 s left. |
| Projections.ClockLeftOfParts | cf/update-projections/main.py:178-184 | A clock that splits at `:` into two digit strings gives the quarters to come plus mm · 60 + ss, with leading zeros read as `int()` reads them. |
| Projections.ParsePyIntOfDigits | cf/update-projections/main.py:181-182 | `int()` reads a non-empty digit string, leading zeros included, as its decimal value. |
| Projections.SecondsLeftNoColon | cf/update-projections/main.py:180-182 | A clock that is a digit string without `:` raises `IndexError` after the minutes parse. |
| Projections.GamesById | cf/update-projections/main.py:169-189 | Without an error, the map has exactly the game ids and each game's status and seconds left. The last game with an id wins. The first game whose clock cannot be read stops the loop with that exception. |
| Projections.GamePairsMap | cf/update-projections/main.py:185-189 | Inserting the games' (id, info) pairs in order keys the map by the game ids, and a game whose id is not repeated later keeps its own info. |
| Projections.ScoreStatsAppend | cf/update-projections/main.py:162-166 | The weighted sum is additive over stats. |
| Projections.ScoreStatsUnscored | cf/update-projections/main.py:162-166 | Stats the league does not score contribute nothing. |
| Projections.ScoreStatsOrderFree | cf/update-projections/main.py:162-166 | Over reals, the score does not depend on the order of the stats. Rounding is not modelled, and with floats a different order can change the low bits. |
| Projections.ScoreStatsRemoveAt | cf/update-projections/main.py:162-166 | The score is any one stat's contribution plus the score of the others. |
| Projections.MultisetRemoveAt | cf/update-projections/main.py:162-166 | Removing a shared stat from two reorderings of the stats leaves two reorderings. |
| Projections.PlayerProjectionSettled | cf/update-projections/main.py:134-146 | Without projected stats the projection is 0. Before kickoff it is the projected score. After the game it is the actual score, or 0 without one. None of these consults the live estimate. |
| Projections.StartersWithoutProjection | cf/update-projections/main.py:73-80 | A starter without a projection does not change the matchup's sum. |
| Projections.WeekEntity.constructor | cf/update-projections/main.py:41-44 | A new week entity has no projections. |
| Projections.WeekEntity.AppendSleeperSnapshot | cf/update-projections/main.py:73-86 | Earlier rows are kept. Entry i appends one row with the time stamp, roster id, matchup id and its starters' summed projection. The first failing starter raises, leaving only the earlier entries' rows. |
| Projections.TeamNameFallbacksAgree | cf/update-projections/main.py:95-98 | The Python `team_name or display_name` and the Rust `unwrap_or` agree except on an empty custom team name. |
| Projections.TeamNamesByRosterSpec | cf/update-projections/main.py:94-103 | The roster-to-name map is keyed by the roster ids, and a roster maps to its owner's team name. It raises only when some owner has no user. |
| Projections.TeamNamesTotal | cf/update-projections/main.py:94-103 | When every roster's owner is among the users, building the name map raises nothing. |
| Projections.OwnerPairsKeys | cf/update-projections/main.py:94-103 | The keys of the roster pairs are the roster ids. |
| ProjectionPages.RowsOf | cf/update-projections/main.py:240-243 | A matchup's group holds exactly the rows with that matchup id. |
| ProjectionPages.GroupByMatchup | cf/update-projections/main.py:240-243 | There is one group per matchup id that occurs, holding that matchup's rows in stored order. Every row is in the group of its own matchup and in no other. |
| ProjectionPages.MatchupTeams | cf/update-projections/main.py:247-271 | The team key is `roster_id` for Sleeper and `team_id` otherwise. Success means every matchup has two distinct, named teams under that key, and records their ids. Otherwise the exception is that of some faulty matchup. |
| ProjectionPages.MatchupPasses | cf/update-projections/main.py:247-271 | A passing matchup has exactly two team ids, all named and all under the team key. |
| ProjectionPages.TwoTeamsPass | cf/update-projections/main.py:252-255 | Two rows of two different named teams pass. |
| ProjectionPages.OneTeamFails | cf/update-projections/main.py:252-255 | A matchup with a single team raises `ValueError`. |
| Text.NatToString | src/fantasy_client/espn.rs:50-55 | Decimal rendering has no leading zero. |
| Text.ParseU64OfNatToString | src/main.rs:45 | Every `u64` printed in decimal parses back. |
| Text.NatToStringOfParseU64 | src/main.rs:45 | A canonical numeric league id prints back unchanged after parsing. |
| Text.JoinSplit | src/discord_client/mod.rs:245-250 | Joining the pieces of a split gives the text back. |
| Text.SplitJoin | src/discord_client/mod.rs:245-250 | Splitting a join of separator-free pieces gives the pieces back. |
| Collections.LastWinsKeys | cf/update-projections/main.py:94 | A map built by inserting pairs in order has exactly the keys of the pairs. |
| Collections.LastWinsValue | cf/update-projections/main.py:94 | A key is bound to the value of its last pair. |

## Left out

- Network and cloud calls are inputs, not modelled calls. These are the HTTP
  fetches, the Sleeper GraphQL queries, Google Datastore and Cloud Storage, and
  the `espn_api` `League` object.
- File I/O and clock reads in `src/fantasy_client/sleeper.rs` are modelled
  as data. The file age is an `Option<nat>`, and the file contents are a parsed
  map, an unreadable file or an unparsable file.
- The players download of `fetch_players` has three outcomes. A failed
  `File::create` counts as a failed request, since the file is then not
  truncated. A failed write counts as a received body whose file does not
  parse.
- JSON serialisation is not modelled. The blobs hold the maps themselves.
- The `RwLock` around the cache, tokio/async, the serenity gateway and sending
  responses are concurrency and transport. They are not modelled. This
  includes the slash-command registration in `ready`
  (src/discord_client/mod.rs:138-180).
- The model assumes every reaction succeeds. In the source a failed `react`
  call (src/discord_client/mod.rs:128,133) panics on its `unwrap` and skips
  the remaining reactions; the model always computes the full list.
- A failed send of a slash-command reply is only logged in the source, and the
  model does not represent it.
- The `FantasyClient` trait has no dispatch model. Its two methods are
  modelled per adapter: `Espn.GetTeams`, `Espn.GetMatchups`,
  `Sleeper.SleeperClient.GetTeams` and `Sleeper.GetMatchups`.
- `get_league_details` and `get_nfl_state` are not modelled. Their results
  are inputs.
- Espn.GetMatchups has no contract. Its body is the empty list for every
  week.
- The live-game branch of `_calculate_player_projection`
  (cf/update-projections/main.py:147-159) is floating-point extrapolation. It
  is a function parameter of the model, and only the settled branches are
  specified.
- `_update_espn` in cf/update-projections/main.py is not modelled. It uses
  the `espn_api` box scores, which are not part of this model. Its rows reach
  the shared grouping and two-team check.
- The Plotly and Mako HTML rendering, `_write_index`, the uploads and the
  GraphQL query texts are not modelled.
- cf/power-rankings/main.py is not part of this model. It is a thin wrapper
  over `League.power_rankings()` and an upload.
- The `on_ready` loop of cf/recent-activity/main.py:36-46 is Discord plumbing
  and is not modelled.
- Config loading (src/main.rs:71-76) is not modelled. The configs are an
  input.
- The `DiscordClient::new` call (src/main.rs:59-66) passes six arguments,
  while the constructor shown takes four. The model starts from the list of
  clients.
- Projections.SecondsLeft: Python's `int()` also accepts surrounding
  whitespace and `_` digit separators. The model accepts only an optional sign
  and ASCII digits.
- Projections.SecondsLeftOfClock: the formula is stated for clock parts made
  of digits only. A sign, which `int()` also accepts, is handled by
  `ParsePyInt` in the model but is outside the lemma.
- Dates.PrevDay: only the dates `datetime.date` can hold (years 1 to 9999)
  are modelled.
- Discord.Reactions: the lowercasing is ASCII only. The scan over the two
  keyword entries is modelled in either order, since `phf` map order is not
  visible in the code.
- The code differs from the written description of the bot in two ways, and
  the model follows the code:
  - there is no "nobody has COVID" reply: an empty list gives an empty fenced
    block;
  - there is no power-rankings command handler.
