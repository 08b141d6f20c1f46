/**
 * The bookkeeping of the `update-projections` cloud function
 * (cf/update-projections/main.py): game clocks, stat scoring, per-player
 * projections, the week's snapshot rows, grouping by matchup and the
 * Sleeper team names. Fetches, the datastore and the HTML pages are not
 * modelled; their results are inputs.
 */
module Projections {
  import opened Wrappers
  import opened Text
  import opened Collections
  import Sleeper

  const Complete: string := "complete"
  const PreGame: string := "pre_game"

  /** Seconds in a quarter and in a game of four quarters. */
  const QuarterSecs: int := 15 * 60
  const GameSecs: int := 3600

  datatype GameMetadata = GameMetadata(quarterNum: int, timeRemaining: string)

  /** A game as the scores query reports it; `metadata` is `None` when the key is missing. */
  datatype Game = Game(gameId: string, status: string, metadata: Option<GameMetadata>)

  datatype GameInfo = GameInfo(status: string, secondsLeft: int)

  /**
   * The seconds left in a game: none once complete, a whole game before it
   * starts, otherwise the quarters still to come plus the `mm:ss` left in
   * this one. `int()` of the minutes is evaluated before the seconds part
   * is indexed, which fixes the order of the exceptions.
   */
  function SecondsLeft(g: Game): (r: PyResult<int>)
    ensures g.status == Complete ==> r == Value(0)
    ensures g.status == PreGame ==> r == Value(GameSecs)
  {
    if g.status == Complete then Value(0)
    else if g.status == PreGame then Value(GameSecs)
    else if g.metadata.None? then Raised(KeyError)
    else ClockLeft(g.metadata.value)
  }

  /** The running-game branch of `SecondsLeft`: the quarters to come plus the `mm:ss` on the clock. */
  function ClockLeft(m: GameMetadata): PyResult<int> {
    var quartersLeft := if 4 - m.quarterNum > 0 then 4 - m.quarterNum else 0;
    var parts := Split(m.timeRemaining, ':');
    var mins := ParsePyInt(parts[0]);
    if mins.None? then Raised(ValueError)
    else if |parts| < 2 then Raised(IndexError)
    else
      var secs := ParsePyInt(parts[1]);
      if secs.None? then Raised(ValueError)
      else Value(quartersLeft * QuarterSecs + mins.value * 60 + secs.value)
  }

  /** A clock part `int()` reads as a plain number: one or more ASCII digits, leading zeros allowed. */
  predicate ClockDigits(part: string) {
    part != [] && AllDigits(part)
  }

  /** The clock text `mm:ss` from its two parts. */
  function ClockText(mins: string, secs: string): string {
    mins + [':'] + secs
  }

  /**
   * A running game in quarter `q` whose clock splits at `:` into two digit
   * strings (zero-padded ones such as "00" and "05" included) has the
   * remaining quarters' time plus the clock left; inside regulation
   * (quarters 1 to 4, at most a quarter on the clock) that lies between 0
   * and a whole game.
   */
  lemma {:induction false} SecondsLeftOfParts(id: string, status: string, q: int, text: string, mins: string, secs: string)
    requires status != Complete && status != PreGame
    requires Split(text, ':') == [mins, secs] && ClockDigits(mins) && ClockDigits(secs)
    ensures var r := SecondsLeft(Game(id, status, Some(GameMetadata(q, text))));
      && r == Value((if q < 4 then 4 - q else 0) * QuarterSecs + DigitsValue(mins) * 60 + DigitsValue(secs))
      && (1 <= q <= 4 && DigitsValue(mins) * 60 + DigitsValue(secs) <= QuarterSecs ==> 0 <= r.value <= GameSecs)
  {
    var m := GameMetadata(q, text);
    ClockLeftOfParts(m, mins, secs);
    RunningGame(Game(id, status, Some(m)));
    RegulationBound(q, DigitsValue(mins) * 60 + DigitsValue(secs));
  }

  /** `SecondsLeftOfParts` for the clock text `mm:ss` written out, e.g. "15:00" or "7:05". */
  lemma {:induction false} SecondsLeftOfClock(id: string, status: string, q: int, mins: string, secs: string)
    requires status != Complete && status != PreGame
    requires ClockDigits(mins) && ClockDigits(secs)
    ensures var r := SecondsLeft(Game(id, status, Some(GameMetadata(q, ClockText(mins, secs)))));
      && r == Value((if q < 4 then 4 - q else 0) * QuarterSecs + DigitsValue(mins) * 60 + DigitsValue(secs))
      && (1 <= q <= 4 && DigitsValue(mins) * 60 + DigitsValue(secs) <= QuarterSecs ==> 0 <= r.value <= GameSecs)
  {
    ClockTextSplit(mins, secs);
    SecondsLeftOfParts(id, status, q, ClockText(mins, secs), mins, secs);
  }

  /** A game neither complete nor before kickoff, with metadata, is timed by its clock. */
  lemma RunningGame(g: Game)
    requires g.status != Complete && g.status != PreGame && g.metadata.Some?
    ensures SecondsLeft(g) == ClockLeft(g.metadata.value)
  {
  }

  /** The start of a quarter: "15:00" in the first quarter leaves a whole game. */
  lemma {:induction false} FirstQuarterStart(id: string, status: string)
    requires status != Complete && status != PreGame
    ensures SecondsLeft(Game(id, status, Some(GameMetadata(1, "15:00")))) == Value(GameSecs)
  {
    assert "15:00" == ClockText("15", "00");
    assert DigitsValue("15") == 15 by {
      assert "15"[..1] == "1";
    }
    assert DigitsValue("00") == 0 by {
      assert "00"[..1] == "0";
    }
    SecondsLeftOfClock(id, status, 1, "15", "00");
  }

  /** In quarters 1 to 4 with at most a quarter on the clock, the time left is at most a whole game. */
  lemma RegulationBound(q: int, clock: nat)
    ensures 1 <= q <= 4 && clock <= QuarterSecs ==>
      0 <= (if q < 4 then 4 - q else 0) * QuarterSecs + clock <= GameSecs
  {
    if 1 <= q <= 4 && clock <= QuarterSecs {
      var quarters := if q < 4 then 4 - q else 0;
      assert 0 <= quarters * QuarterSecs <= 3 * QuarterSecs;
    }
  }

  /** A digit string is read by `int()` as its decimal value. */
  lemma {:induction false} ParsePyIntOfDigits(part: string)
    requires ClockDigits(part)
    ensures ParsePyInt(part) == Some(DigitsValue(part) as int)
  {
    assert IsDigit(part[0]);
  }

  /** A clock that splits into two digit strings gives the quarters to come plus `mm * 60 + ss`. */
  lemma {:induction false} ClockLeftOfParts(m: GameMetadata, mins: string, secs: string)
    requires Split(m.timeRemaining, ':') == [mins, secs]
    requires ClockDigits(mins) && ClockDigits(secs)
    ensures ClockLeft(m) ==
      Value((if m.quarterNum < 4 then 4 - m.quarterNum else 0) * QuarterSecs + DigitsValue(mins) * 60 + DigitsValue(secs))
  {
    var parts := Split(m.timeRemaining, ':');
    assert |parts| == 2 && parts[0] == mins && parts[1] == secs;
    ParsePyIntOfDigits(mins);
    ParsePyIntOfDigits(secs);
  }

  /** A digit string holds no colon. */
  lemma {:induction false} DigitsNoColon(part: string)
    requires AllDigits(part)
    ensures ':' !in part
  {
    forall i | 0 <= i < |part|
      ensures part[i] != ':'
    {
      assert IsDigit(part[i]);
    }
  }

  lemma {:induction false} ClockTextSplit(mins: string, secs: string)
    requires ClockDigits(mins) && ClockDigits(secs)
    ensures Split(ClockText(mins, secs), ':') == [mins, secs]
  {
    DigitsNoColon(mins);
    DigitsNoColon(secs);
    SplitAppend(mins, secs, ':');
    SplitNoSep(mins, ':');
    SplitNoSep(secs, ':');
  }

  /** A clock of digits without a colon fails on the missing seconds part, after the minutes parse. */
  lemma {:induction false} SecondsLeftNoColon(id: string, status: string, q: int, mins: string)
    requires status != Complete && status != PreGame
    requires ClockDigits(mins)
    ensures SecondsLeft(Game(id, status, Some(GameMetadata(q, mins)))) == Raised(IndexError)
  {
    var m := GameMetadata(q, mins);
    DigitsNoColon(mins);
    SplitNoSep(mins, ':');
    ParsePyIntOfDigits(mins);
    assert ClockLeft(m) == Raised(IndexError);
  }

  function GamePair(g: Game): (string, GameInfo)
    requires SecondsLeft(g).Value?
  {
    (g.gameId, GameInfo(g.status, SecondsLeft(g).value))
  }

  /**
   * `_get_games_by_id` after the query: each game's status and seconds
   * left, keyed by game id, a later game overwriting an earlier one; the
   * first game whose clock cannot be read stops the loop with its exception.
   */
  method GamesById(games: seq<Game>) returns (r: PyResult<map<string, GameInfo>>)
    ensures r.Value? <==> forall i :: 0 <= i < |games| ==> SecondsLeft(games[i]).Value?
    ensures r.Raised? ==>
      exists i :: 0 <= i < |games| && SecondsLeft(games[i]) == Raised(r.exception) &&
        forall j :: 0 <= j < i ==> SecondsLeft(games[j]).Value?
    ensures r.Value? ==> r.value.Keys == set i | 0 <= i < |games| :: games[i].gameId
    ensures r.Value? ==> forall i :: 0 <= i < |games| && (forall j :: i < j < |games| ==> games[j].gameId != games[i].gameId) ==>
      r.value[games[i].gameId] == GameInfo(games[i].status, SecondsLeft(games[i]).value)
  {
    var byId: map<string, GameInfo> := map[];
    ghost var pairs: seq<(string, GameInfo)> := [];
    for i := 0 to |games|
      invariant forall j :: 0 <= j < i ==> SecondsLeft(games[j]).Value?
      invariant |pairs| == i
      invariant forall j :: 0 <= j < i ==> pairs[j] == GamePair(games[j])
      invariant byId == LastWins(pairs)
    {
      var secondsLeft := SecondsLeft(games[i]);
      if secondsLeft.Raised? {
        return Raised(secondsLeft.exception);
      }
      LastWinsSnoc(pairs, games[i].gameId, GameInfo(games[i].status, secondsLeft.value));
      pairs := pairs + [GamePair(games[i])];
      byId := byId[games[i].gameId := GameInfo(games[i].status, secondsLeft.value)];
    }
    GamePairsMap(games, pairs);
    r := Value(byId);
  }

  /** The last-wins map of the games' pairs is keyed by the game ids and holds a once-listed game's info. */
  lemma {:induction false} GamePairsMap(games: seq<Game>, pairs: seq<(string, GameInfo)>)
    requires forall j :: 0 <= j < |games| ==> SecondsLeft(games[j]).Value?
    requires |pairs| == |games| && forall j :: 0 <= j < |games| ==> pairs[j] == GamePair(games[j])
    ensures LastWins(pairs).Keys == set i | 0 <= i < |games| :: games[i].gameId
    ensures forall i :: 0 <= i < |games| && (forall j :: i < j < |games| ==> games[j].gameId != games[i].gameId) ==>
      LastWins(pairs)[games[i].gameId] == GameInfo(games[i].status, SecondsLeft(games[i]).value)
  {
    LastWinsKeys(pairs);
    assert forall j :: 0 <= j < |pairs| ==> pairs[j].0 == games[j].gameId;
    forall i | 0 <= i < |games| && (forall j :: i < j < |games| ==> games[j].gameId != games[i].gameId)
      ensures LastWins(pairs)[games[i].gameId] == GameInfo(games[i].status, SecondsLeft(games[i]).value)
    {
      LastWinsValue(pairs, i);
    }
  }

  /** What one stat contributes: its value times its weight, nothing when it is not scored. */
  function Contribution(settings: map<string, real>, stat: (string, real)): real {
    if stat.0 in settings then stat.1 * settings[stat.0] else 0.0
  }

  /** `_score_stats`: the weighted sum of the scored stats. */
  function ScoreStats(settings: map<string, real>, stats: seq<(string, real)>): real {
    if stats == [] then 0.0 else Contribution(settings, stats[0]) + ScoreStats(settings, stats[1..])
  }

  lemma {:induction false} ScoreStatsAppend(settings: map<string, real>, a: seq<(string, real)>, b: seq<(string, real)>)
    ensures ScoreStats(settings, a + b) == ScoreStats(settings, a) + ScoreStats(settings, b)
  {
    if a != [] {
      ScoreStatsAppend(settings, a[1..], b);
      assert (a + b)[1..] == a[1..] + b;
    } else {
      assert a + b == b;
    }
  }

  /** Stats the league does not score contribute nothing. */
  lemma {:induction false} ScoreStatsUnscored(settings: map<string, real>, stats: seq<(string, real)>)
    requires forall i :: 0 <= i < |stats| ==> stats[i].0 !in settings
    ensures ScoreStats(settings, stats) == 0.0
  {
    if stats != [] {
      ScoreStatsUnscored(settings, stats[1..]);
    }
  }

  /** The score does not depend on the order the stats come in. */
  lemma {:induction false} ScoreStatsOrderFree(settings: map<string, real>, a: seq<(string, real)>, b: seq<(string, real)>)
    requires multiset(a) == multiset(b)
    ensures ScoreStats(settings, a) == ScoreStats(settings, b)
    decreases |a|
  {
    if a != [] {
      assert a[0] in multiset(b);
      var i :| 0 <= i < |b| && b[i] == a[0];
      var rest := b[..i] + b[i + 1..];
      MultisetRemoveAt(a, b, i);
      ScoreStatsOrderFree(settings, a[1..], rest);
      ScoreStatsRemoveAt(settings, b, i);
    } else {
      assert |multiset(b)| == 0;
    }
  }

  /** Taking the same element out of two permutations leaves two permutations. */
  lemma MultisetRemoveAt(a: seq<(string, real)>, b: seq<(string, real)>, i: int)
    requires multiset(a) == multiset(b) && a != [] && 0 <= i < |b| && b[i] == a[0]
    ensures multiset(a[1..]) == multiset(b[..i] + b[i + 1..])
  {
    var rest := b[..i] + b[i + 1..];
    assert b == b[..i] + [b[i]] + b[i + 1..];
    assert a == [a[0]] + a[1..];
    assert multiset(b) == multiset(b[..i]) + multiset{b[i]} + multiset(b[i + 1..]);
    assert multiset(a) == multiset{a[0]} + multiset(a[1..]);
    assert multiset(rest) == multiset(b[..i]) + multiset(b[i + 1..]);
    forall x ensures multiset(a[1..])[x] == multiset(rest)[x] {
      assert (multiset{a[0]} + multiset(a[1..]))[x] == (multiset{a[0]} + multiset(rest))[x];
    }
  }

  /** The score is the contribution of any one stat plus the score of the others. */
  lemma ScoreStatsRemoveAt(settings: map<string, real>, b: seq<(string, real)>, i: int)
    requires 0 <= i < |b|
    ensures ScoreStats(settings, b) == Contribution(settings, b[i]) + ScoreStats(settings, b[..i] + b[i + 1..])
  {
    assert b == b[..i] + [b[i]] + b[i + 1..];
    ScoreStatsAppend(settings, b[..i] + [b[i]], b[i + 1..]);
    ScoreStatsAppend(settings, b[..i], [b[i]]);
    ScoreStatsAppend(settings, b[..i], b[i + 1..]);
    assert ScoreStats(settings, [b[i]]) == Contribution(settings, b[i]);
  }

  /** A player's stats record: the game it belongs to and its stats. */
  datatype StatsRecord = StatsRecord(gameId: string, stats: seq<(string, real)>)

  /**
   * `_calculate_player_projection`: nothing without a projection, the
   * projection before kickoff, the points scored once the game is over, and
   * otherwise the live extrapolation `live(original, current, secondsLeft)`.
   * A projection whose game is unknown raises `KeyError`.
   */
  function PlayerProjection(settings: map<string, real>, actual: Option<StatsRecord>, projected: Option<StatsRecord>,
                            games: map<string, GameInfo>, live: (real, real, int) -> real): PyResult<real>
  {
    if projected.None? then Value(0.0)
    else if projected.value.gameId !in games then Raised(KeyError)
    else
      var game := games[projected.value.gameId];
      var original := ScoreStats(settings, projected.value.stats);
      if game.status == PreGame then Value(original)
      else
        var current := if actual.Some? then ScoreStats(settings, actual.value.stats) else 0.0;
        if game.status == Complete then Value(current)
        else Value(live(original, current, game.secondsLeft))
  }

  /**
   * Outside a live game the projection never consults the extrapolation:
   * it is 0 without a projection, the projected score before kickoff and
   * the actual score (0 without one) after the final whistle.
   */
  lemma PlayerProjectionSettled(settings: map<string, real>, actual: Option<StatsRecord>, projected: Option<StatsRecord>,
                                games: map<string, GameInfo>, live1: (real, real, int) -> real, live2: (real, real, int) -> real)
    requires projected.Some? && projected.value.gameId in games ==>
      games[projected.value.gameId].status in {Complete, PreGame}
    ensures PlayerProjection(settings, actual, projected, games, live1) == PlayerProjection(settings, actual, projected, games, live2)
    ensures projected.None? ==> PlayerProjection(settings, actual, projected, games, live1) == Value(0.0)
    ensures projected.Some? && projected.value.gameId in games && games[projected.value.gameId].status == PreGame ==>
      PlayerProjection(settings, actual, projected, games, live1) == Value(ScoreStats(settings, projected.value.stats))
    ensures projected.Some? && projected.value.gameId in games && games[projected.value.gameId].status == Complete ==>
      PlayerProjection(settings, actual, projected, games, live1) ==
        Value(if actual.Some? then ScoreStats(settings, actual.value.stats) else 0.0)
  {
  }

  /**
   * What scoring a week needs: the league's scoring settings, each player's
   * actual and projected stats, the games and the live extrapolation.
   */
  datatype Scoring = Scoring(settings: map<string, real>, actualBy: map<string, StatsRecord>,
                             projectedBy: map<string, StatsRecord>, games: map<string, GameInfo>,
                             live: (real, real, int) -> real)

  /** `dict.get`. */
  function Lookup<K, V>(m: map<K, V>, k: K): Option<V> {
    if k in m then Some(m[k]) else None
  }

  /** The sum of the starters' projections; the first failing starter's exception stops it. */
  function StartersProjection(sc: Scoring, starters: seq<string>): PyResult<real> {
    if starters == [] then Value(0.0)
    else
      var p := starters[0];
      var first := PlayerProjection(sc.settings, Lookup(sc.actualBy, p), Lookup(sc.projectedBy, p), sc.games, sc.live);
      if first.Raised? then first
      else
        var rest := StartersProjection(sc, starters[1..]);
        if rest.Raised? then rest else Value(first.value + rest.value)
  }

  /**
   * A starter without a projection adds nothing: the matchup's projection
   * is the sum over the others.
   */
  lemma {:induction false} StartersWithoutProjection(sc: Scoring, a: seq<string>, p: string, b: seq<string>)
    requires p !in sc.projectedBy
    ensures StartersProjection(sc, a + [p] + b) == StartersProjection(sc, a + b)
  {
    if a == [] {
      assert a + [p] + b == [p] + b;
      assert ([p] + b)[1..] == b;
      assert a + b == b;
    } else {
      StartersWithoutProjection(sc, a[1..], p, b);
      assert (a + [p] + b)[1..] == a[1..] + [p] + b;
      assert (a + b)[1..] == a[1..] + b;
    }
  }

  /** One matchup entry of the Sleeper league for the week. */
  datatype SleeperMatchup = SleeperMatchup(rosterId: int, matchupId: int, starters: seq<string>)

  /**
   * A stored projection: when it was taken, the key its team id is stored
   * under (`roster_id` for Sleeper, `team_id` for ESPN) and that id, the
   * matchup and the projected points.
   */
  datatype ProjectionRow = ProjectionRow(timestamp: int, teamKey: string, teamId: int, matchupId: int, projection: real)

  const RosterIdKey: string := "roster_id"
  const TeamIdKey: string := "team_id"

  /** The row a matchup entry contributes, once its starters are scored. */
  function SnapshotRow(now: int, m: SleeperMatchup, projection: real): ProjectionRow {
    ProjectionRow(now, RosterIdKey, m.rosterId, m.matchupId, projection)
  }

  /** The week's datastore entity and its list of projections, appended to in place. */
  class WeekEntity {
    var projections: seq<ProjectionRow>

    /** A week seen for the first time starts with no projections. */
    constructor ()
      ensures projections == []
    {
      projections := [];
    }

    /**
     * The snapshot loop of `_update_sleeper`: one row per matchup entry,
     * timestamped `now`, with the summed projection of its starters. A
     * failing starter raises, leaving the rows of the entries before it
     * appended.
     */
    method AppendSleeperSnapshot(matchups: seq<SleeperMatchup>, now: int, sc: Scoring) returns (r: PyResult<()>)
      modifies this
      ensures r.Value? <==> forall i :: 0 <= i < |matchups| ==> StartersProjection(sc, matchups[i].starters).Value?
      ensures |old(projections)| <= |projections| <= |old(projections)| + |matchups|
      ensures projections[..|old(projections)|] == old(projections)
      ensures r.Value? ==> |projections| == |old(projections)| + |matchups|
      ensures r.Raised? ==>
        var k := |projections| - |old(projections)|;
        k < |matchups| && StartersProjection(sc, matchups[k].starters) == Raised(r.exception)
      ensures forall i :: 0 <= i < |projections| - |old(projections)| ==>
        StartersProjection(sc, matchups[i].starters).Value? &&
        projections[|old(projections)| + i] == SnapshotRow(now, matchups[i], StartersProjection(sc, matchups[i].starters).value)
    {
      ghost var before := projections;
      for i := 0 to |matchups|
        invariant |projections| == |before| + i && projections[..|before|] == before
        invariant forall j :: 0 <= j < i ==>
          StartersProjection(sc, matchups[j].starters).Value? &&
          projections[|before| + j] == SnapshotRow(now, matchups[j], StartersProjection(sc, matchups[j].starters).value)
      {
        var projection := StartersProjection(sc, matchups[i].starters);
        if projection.Raised? {
          return Raised(projection.exception);
        }
        projections := projections + [SnapshotRow(now, matchups[i], projection.value)];
      }
      r := Value(());
    }
  }

  /** The Python team name: `team_name or display_name`, so an empty team name falls through. */
  function PyTeamName(u: Sleeper.SleeperUser): string {
    if u.metadata.teamName.Some? && u.metadata.teamName.value != "" then u.metadata.teamName.value
    else u.displayName
  }

  /**
   * The Python and Rust fallbacks differ only on an empty custom team name:
   * Rust keeps the empty string, Python uses the display name.
   */
  lemma TeamNameFallbacksAgree(u: Sleeper.SleeperUser)
    ensures Sleeper.TeamOf(u).teamName == PyTeamName(u) <==>
      u.metadata.teamName != Some("") || u.displayName == ""
  {
  }

  /**
   * The roster-to-team-name map handed to `_write_html`: each roster id
   * (last roster wins) mapped to its owner's team name (last user wins);
   * an owner with no user raises `KeyError`.
   */
  function TeamNamesByRoster(rosters: seq<Sleeper.SleeperRoster>, users: seq<Sleeper.SleeperUser>): PyResult<map<int, string>> {
    var ownerOf := LastWins(OwnerPairs(rosters));
    var nameOf := LastWins(NamePairs(users));
    if forall rid :: rid in ownerOf ==> ownerOf[rid] in nameOf then
      Value(map rid | rid in ownerOf :: nameOf[ownerOf[rid]])
    else Raised(KeyError)
  }

  /** Each roster's id paired with its owner's user id, in roster order. */
  function OwnerPairs(rosters: seq<Sleeper.SleeperRoster>): seq<(int, string)>
  {
    seq(|rosters|, k requires 0 <= k < |rosters| => (rosters[k].rosterId as int, rosters[k].ownerId))
  }

  /** Each user's id paired with its team name, in user order. */
  function NamePairs(users: seq<Sleeper.SleeperUser>): seq<(string, string)>
  {
    seq(|users|, k requires 0 <= k < |users| => (users[k].userId, PyTeamName(users[k])))
  }

  /**
   * With every roster owned by a listed user, each roster id is named, and
   * a roster id and user id that occur once map the roster to that user's
   * team name.
   */
  lemma TeamNamesByRosterSpec(rosters: seq<Sleeper.SleeperRoster>, users: seq<Sleeper.SleeperUser>, i: nat, j: nat)
    requires i < |rosters| && j < |users| && rosters[i].ownerId == users[j].userId
    requires forall k :: 0 <= k < |rosters| && k != i ==> rosters[k].rosterId != rosters[i].rosterId
    requires forall k :: 0 <= k < |users| && k != j ==> users[k].userId != users[j].userId
    ensures TeamNamesByRoster(rosters, users).Value? ==>
      TeamNamesByRoster(rosters, users).value.Keys == (set k | 0 <= k < |rosters| :: rosters[k].rosterId as int) &&
      TeamNamesByRoster(rosters, users).value[rosters[i].rosterId as int] == PyTeamName(users[j])
    ensures (forall k :: 0 <= k < |rosters| ==> exists l :: 0 <= l < |users| && users[l].userId == rosters[k].ownerId) ==>
      TeamNamesByRoster(rosters, users).Value?
  {
    var rp, up := OwnerPairs(rosters), NamePairs(users);
    LastWinsKeys(rp);
    LastWinsValue(rp, i);
    LastWinsValue(up, j);
    OwnerPairsKeys(rosters);
    TeamNamesTotal(rosters, users);
  }

  lemma OwnerPairsKeys(rosters: seq<Sleeper.SleeperRoster>)
    ensures KeysOf(OwnerPairs(rosters)) == set k | 0 <= k < |rosters| :: rosters[k].rosterId as int
  {
    var rp := OwnerPairs(rosters);
    forall x | x in KeysOf(rp) ensures x in set k | 0 <= k < |rosters| :: rosters[k].rosterId as int {
      var k :| 0 <= k < |rp| && rp[k].0 == x;
    }
    forall x | x in set k | 0 <= k < |rosters| :: rosters[k].rosterId as int ensures x in KeysOf(rp) {
      var k :| 0 <= k < |rosters| && rosters[k].rosterId as int == x;
      assert rp[k].0 == x;
    }
  }

  /** Every roster owned by a listed user: the owner lookup never fails. */
  lemma TeamNamesTotal(rosters: seq<Sleeper.SleeperRoster>, users: seq<Sleeper.SleeperUser>)
    ensures (forall k :: 0 <= k < |rosters| ==> exists l :: 0 <= l < |users| && users[l].userId == rosters[k].ownerId) ==>
      TeamNamesByRoster(rosters, users).Value?
  {
    var rp, up := OwnerPairs(rosters), NamePairs(users);
    var ownerOf, nameOf := LastWins(rp), LastWins(up);
    if forall k :: 0 <= k < |rosters| ==> exists l :: 0 <= l < |users| && users[l].userId == rosters[k].ownerId {
      LastWinsKeys(up);
      forall rid | rid in ownerOf ensures ownerOf[rid] in nameOf {
        LastOccurrence(rp, rid);
        var k :| 0 <= k < |rp| && rp[k].0 == rid && ownerOf[rid] == rp[k].1;
        var l :| 0 <= l < |users| && users[l].userId == rosters[k].ownerId;
        assert up[l].0 == ownerOf[rid];
      }
    }
  }

  /** Every key of a last-wins map takes the value of some pair with that key. */
  lemma {:induction false} LastOccurrence<K, V>(pairs: seq<(K, V)>, k: K)
    requires k in LastWins(pairs)
    ensures exists i :: 0 <= i < |pairs| && pairs[i].0 == k && LastWins(pairs)[k] == pairs[i].1
  {
    var p := pairs[..|pairs| - 1];
    if pairs[|pairs| - 1].0 != k {
      LastOccurrence(p, k);
      var i :| 0 <= i < |p| && p[i].0 == k && LastWins(p)[k] == p[i].1;
      assert pairs[i] == p[i];
    }
  }
}
