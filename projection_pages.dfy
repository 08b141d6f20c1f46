/**
 * The matchup pages of `update-projections` (`_write_html` in
 * cf/update-projections/main.py): the stored rows grouped by matchup and
 * the check that each matchup has two named teams. Rendering and uploading
 * the pages are not modelled.
 */
module ProjectionPages {
  import opened Wrappers
  import opened Collections
  import opened Projections

  /** The rows of one matchup, in order. */
  function RowsOf(rows: seq<ProjectionRow>, matchupId: int): (group: seq<ProjectionRow>)
    ensures forall r :: r in group <==> r in rows && r.matchupId == matchupId
  {
    if rows == [] then []
    else
      var init := rows[..|rows| - 1];
      var last := rows[|rows| - 1];
      assert rows == init + [last];
      RowsOf(init, matchupId) + (if last.matchupId == matchupId then [last] else [])
  }

  function MatchupIds(rows: seq<ProjectionRow>): set<int> {
    set i | 0 <= i < |rows| :: rows[i].matchupId
  }

  /**
   * The grouping in `_write_html`: one group per matchup id that occurs,
   * holding that matchup's rows in their stored order, so every row is in
   * exactly the group of its own matchup.
   */
  method GroupByMatchup(rows: seq<ProjectionRow>) returns (groups: map<int, seq<ProjectionRow>>)
    ensures groups.Keys == MatchupIds(rows)
    ensures forall m :: m in groups ==> groups[m] == RowsOf(rows, m)
    ensures forall i :: 0 <= i < |rows| ==> rows[i] in groups[rows[i].matchupId]
    ensures forall m, r :: m in groups && r in groups[m] ==> r.matchupId == m
  {
    var ids := MatchupIds(rows);
    groups := map m | m in ids :: [];
    for i := 0 to |rows|
      invariant groups.Keys == ids
      invariant forall m :: m in groups ==> groups[m] == RowsOf(rows[..i], m)
    {
      assert rows[..i + 1] == rows[..i] + [rows[i]];
      assert rows[..i + 1][..i] == rows[..i];
      var m := rows[i].matchupId;
      groups := groups[m := groups[m] + [rows[i]]];
    }
    assert rows[..|rows|] == rows;
    forall i | 0 <= i < |rows| ensures rows[i] in groups[rows[i].matchupId] {
      assert rows[i].matchupId in ids;
    }
  }

  /** The key the team id is read under: `roster_id` for Sleeper, `team_id` for ESPN. */
  function TeamIdKeyFor(leagueType: string): string {
    if leagueType == "sleeper" then RosterIdKey else TeamIdKey
  }

  function TeamIds(group: seq<ProjectionRow>): set<int> {
    set i | 0 <= i < |group| :: group[i].teamId
  }

  /** Every row of the group carries its team id under `teamKey`. */
  predicate Keyed(group: seq<ProjectionRow>, teamKey: string) {
    forall i :: 0 <= i < |group| ==> group[i].teamKey == teamKey
  }

  /**
   * What goes wrong with one matchup's group, in the order the code meets
   * it: a row without the team key (`KeyError`), a number of distinct teams
   * other than two (`ValueError`), a team without a name (`KeyError`).
   */
  function MatchupError(group: seq<ProjectionRow>, teamKey: string, names: map<int, string>): Option<PyException> {
    if !Keyed(group, teamKey) then Some(KeyError)
    else if |TeamIds(group)| != 2 then Some(ValueError)
    else if !(TeamIds(group) <= names.Keys) then Some(KeyError)
    else None
  }

  /**
   * The per-matchup loop of `_write_html` (pages left out): every matchup
   * must have exactly two distinct teams, both named. The matchups are
   * visited in set order, so which faulty matchup raises is not fixed; the
   * result records each matchup's two team ids.
   */
  method MatchupTeams(groups: map<int, seq<ProjectionRow>>, leagueType: string, names: map<int, string>)
    returns (r: PyResult<map<int, set<int>>>)
    ensures r.Raised? ==> exists m :: m in groups && MatchupError(groups[m], TeamIdKeyFor(leagueType), names) == Some(r.exception)
    ensures r.Value? ==> r.value.Keys == groups.Keys
    ensures r.Value? ==> forall m :: m in groups ==>
      MatchupError(groups[m], TeamIdKeyFor(leagueType), names).None? && r.value[m] == TeamIds(groups[m])
  {
    var teamKey := TeamIdKeyFor(leagueType);
    var pending := groups.Keys;
    var teamIds: map<int, set<int>> := map[];
    while pending != {}
      invariant pending <= groups.Keys
      invariant teamIds.Keys == groups.Keys - pending
      invariant forall m :: m in teamIds ==> MatchupError(groups[m], teamKey, names).None? && teamIds[m] == TeamIds(groups[m])
      decreases pending
    {
      ghost var w := SomeMember(pending);
      var m :| m in pending;
      var error := MatchupError(groups[m], teamKey, names);
      if error.Some? {
        return Raised(error.value);
      }
      teamIds := teamIds[m := TeamIds(groups[m])];
      pending := pending - {m};
    }
    r := Value(teamIds);
  }

  /** A matchup that passes the check has exactly two teams, each with a name and each under the team key. */
  lemma MatchupPasses(group: seq<ProjectionRow>, teamKey: string, names: map<int, string>)
    requires MatchupError(group, teamKey, names).None?
    ensures |TeamIds(group)| == 2 && TeamIds(group) <= names.Keys
    ensures forall i :: 0 <= i < |group| ==> group[i].teamKey == teamKey && group[i].teamId in names
  {
    forall i | 0 <= i < |group| ensures group[i].teamId in names {
      assert group[i].teamId in TeamIds(group);
    }
  }

  /** Two rows of different teams in one matchup, and nothing else, pass the two-team check. */
  lemma TwoTeamsPass(a: ProjectionRow, b: ProjectionRow, teamKey: string, names: map<int, string>)
    requires a.teamKey == teamKey && b.teamKey == teamKey && a.teamId != b.teamId
    requires a.teamId in names && b.teamId in names
    ensures MatchupError([a, b], teamKey, names) == None
  {
    assert TeamIds([a, b]) == {a.teamId, b.teamId} by {
      assert [a, b][0] == a && [a, b][1] == b;
    }
  }

  /** A matchup with a single team fails the two-team check with `ValueError`. */
  lemma OneTeamFails(group: seq<ProjectionRow>, teamKey: string, names: map<int, string>)
    requires |group| > 0
    requires forall i :: 0 <= i < |group| ==> group[i].teamKey == teamKey && group[i].teamId == group[0].teamId
    ensures MatchupError(group, teamKey, names) == Some(ValueError)
  {
    assert TeamIds(group) == {group[0].teamId};
  }
}
