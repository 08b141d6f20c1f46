/**
 * The ESPN adapter (src/fantasy_client/espn.rs): how a request for one
 * league is put together, and the two capability stubs.
 */
module Espn {
  import opened Wrappers
  import opened Text
  import opened FantasyTypes

  const EspnApiUrl: string := "https://fantasy.espn.com/apis/v3/games/ffl/seasons"
  const LeagueApiPath: string := "segments/0/leagues"

  datatype EspnMember = EspnMember(displayName: string, id: string)

  /** The adapter keeps its four constructor arguments verbatim. */
  datatype EspnClient = EspnClient(leagueId: U64, year: U32, espnS2: string, swid: string)

  /** A GET request: its URL, its `Cookie` header and its query pairs in order. */
  datatype Request = Request(url: string, cookie: string, query: seq<(string, string)>)

  /**
   * What comes back for a request: the transport fails, the body is not
   * JSON, or it is JSON that does (`Some`) or does not (`None`) have the
   * shape of a members response.
   */
  datatype EspnResponse = Unreachable | NotJson | Json(members: Option<seq<EspnMember>>)

  /** The bytes `HeaderValue::from_str` accepts: visible characters, space and tab. */
  predicate HeaderChar(c: char) {
    c == '\t' || (c >= ' ' && c != '\U{7F}')
  }

  predicate ValidHeaderValue(s: string) {
    forall i :: 0 <= i < |s| ==> HeaderChar(s[i])
  }

  function CookieHeader(client: EspnClient): string {
    "SWID=" + client.swid + "; espn_s2=" + client.espnS2
  }

  function LeagueUrl(client: EspnClient): string {
    EspnApiUrl + "/" + (NatToString(client.year) + "/" + (LeagueApiPath + "/" + NatToString(client.leagueId)))
  }

  /**
   * Read back as `/`-separated pieces, the URL is the base path, the season,
   * the league path and the league id, and both numbers parse back from
   * their pieces.
   */
  lemma LeagueUrlRoundTrip(client: EspnClient)
    ensures var segs := Split(LeagueUrl(client), '/');
      && segs == Split(EspnApiUrl, '/') + ([NatToString(client.year)] + (Split(LeagueApiPath, '/') + [NatToString(client.leagueId)]))
      && ParseU64(segs[|Split(EspnApiUrl, '/')|]) == Some(client.year as U64)
      && ParseU64(segs[|segs| - 1]) == Some(client.leagueId)
  {
    var year, id := NatToString(client.year), NatToString(client.leagueId);
    assert '/' !in year && '/' !in id by {
      assert AllDigits(year) && AllDigits(id);
    }
    SplitUrlShape(EspnApiUrl, year, LeagueApiPath, id);
    ParseU64OfNatToString(client.year);
    ParseU64OfNatToString(client.leagueId);
  }

  lemma SplitUrlShape(base: string, year: string, path: string, id: string)
    requires '/' !in year && '/' !in id
    ensures Split(base + "/" + (year + "/" + (path + "/" + id)), '/')
         == Split(base, '/') + ([year] + (Split(path, '/') + [id]))
  {
    SplitNoSep(year, '/');
    SplitNoSep(id, '/');
    SplitAppend(path, id, '/');
    SplitAppend(year, path + "/" + id, '/');
    SplitAppend(base, year + "/" + (path + "/" + id), '/');
  }

  /**
   * When neither credential holds a `;`, the cookie splits at `;` into the
   * two settings, each with its credential verbatim.
   */
  lemma CookieRoundTrip(client: EspnClient)
    requires ';' !in client.swid && ';' !in client.espnS2
    ensures Split(CookieHeader(client), ';') == ["SWID=" + client.swid, " espn_s2=" + client.espnS2]
  {
    var first, second := "SWID=" + client.swid, " espn_s2=" + client.espnS2;
    assert CookieHeader(client) == first + [';'] + second;
    SplitNoSep(first, ';');
    SplitNoSep(second, ';');
    SplitAppend(first, second, ';');
  }

  /**
   * `send_request` up to the point of sending: the cookie header (whose
   * `unwrap` panics on a character a header cannot carry), the league URL,
   * and one `view` query pair per element of `views`, in order.
   */
  method BuildRequest(client: EspnClient, views: seq<string>) returns (r: Outcome<Request>)
    ensures r.Err? == false
    ensures r.Panic? <==> !ValidHeaderValue(CookieHeader(client))
    ensures r.Ok? ==> r.value.url == LeagueUrl(client) && r.value.cookie == CookieHeader(client)
    ensures r.Ok? ==> |r.value.query| == |views|
    ensures r.Ok? ==> forall i :: 0 <= i < |views| ==> r.value.query[i] == ("view", views[i])
  {
    var cookie := CookieHeader(client);
    if !ValidHeaderValue(cookie) {
      return Panic;
    }
    var req := Request(LeagueUrl(client), cookie, []);
    for i := 0 to |views|
      invariant req.url == LeagueUrl(client) && req.cookie == cookie
      invariant |req.query| == i
      invariant forall j :: 0 <= j < i ==> req.query[j] == ("view", views[j])
    {
      req := req.(query := req.query + [("view", views[i])]);
    }
    r := Ok(req);
  }

  /**
   * `send_request` in full: build and send; a transport failure or a body
   * that is not JSON panics at its `unwrap`.
   */
  method SendRequest(client: EspnClient, views: seq<string>, response: EspnResponse)
    returns (r: Outcome<Option<seq<EspnMember>>>)
    ensures r.Err? == false
    ensures r.Ok? <==> ValidHeaderValue(CookieHeader(client)) && response.Json?
    ensures r.Ok? ==> r.value == response.members
  {
    var req := BuildRequest(client, views);
    if req.Panic? || !response.Json? {
      return Panic;
    }
    r := Ok(response.members);
  }

  /**
   * `get_teams`: asks for the `mTeams` view and, once the body parses as a
   * members response, answers with an empty list; a body of another shape
   * panics at `unwrap`. It never returns `Err`.
   */
  method GetTeams(client: EspnClient, response: EspnResponse) returns (r: Outcome<seq<FantasyTeam>>)
    ensures r.Err? == false
    ensures r.Ok? <==> ValidHeaderValue(CookieHeader(client)) && response.Json? && response.members.Some?
    ensures r.Ok? ==> r.value == []
  {
    var body := SendRequest(client, ["mTeams"], response);
    if body.Panic? || body.value.None? {
      return Panic;
    }
    r := Ok([]);
  }

  /** `get_matchups`: no request, and an empty list for every week. */
  function GetMatchups(client: EspnClient, weekNum: Option<U32>): Outcome<seq<FantasyMatchup>> {
    Ok([])
  }
}
