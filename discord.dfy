/**
 * The Discord side of the bot (src/discord_client/mod.rs): the slash-command
 * dispatcher, league resolution, the COVID list reply and the keyword
 * reactions. Discord itself (the gateway, HTTP calls, the reply being
 * sent) is outside the model; what those calls return is passed in.
 */
module Discord {
  import opened Wrappers
  import opened Text
  import opened FantasyTypes
  import opened FantasyClient

  /** The keyword reactions: a message mentioning the key gets the emoji. */
  const ReaccMap: seq<(string, char)> := [("football", '\U{1F3C8}'), ("butt", '\U{1F351}')]

  /** The reaction for each mention of a bot user. */
  const Robot: char := '\U{1F916}'

  const MatchupsReply: string := "```\nthis is a matchups response\n```"
  const StandingsReply: string := "```\nthis is a standings response\n```"

  /** The search rank standing in for a missing one; players at or above it are not listed. */
  const UnrankedSearchRank: nat := 9999999

  /** One entry of the published COVID list. */
  datatype CovidPlayer = CovidPlayer(
    fullName: string,
    team: string,
    startDate: Option<string>,
    searchRank: Option<U64>)

  /** The COVID list download: the values of the JSON object in its iteration order. */
  datatype CovidFetch = CovidUnavailable | CovidJson(players: seq<CovidPlayer>)

  /** A slash-command option's JSON value: a string or anything else. */
  datatype JsonValue = JString(s: string) | JOther

  datatype CommandOption = CommandOption(name: string, value: Option<JsonValue>)

  /**
   * What looking up the interaction's channel yields: a failed lookup, or
   * the category id that the looked-up channel's `category()` yields
   * (`None` when it yields no category).
   */
  datatype ChannelLookup = ChannelUnavailable | Channel(category: Option<U64>)

  datatype Interaction =
    | ApplicationCommand(name: string, options: seq<CommandOption>, channel: ChannelLookup)
    | OtherInteraction

  /** What the handler does with an interaction: nothing, or reply with a message. */
  datatype Response = NoResponse | Reply(content: string)

  /** A player is listed when it has a search rank below the sentinel. */
  predicate Listed(p: CovidPlayer)
    ensures Listed(p) <==> p.searchRank.Some? && p.searchRank.value < UnrankedSearchRank
  {
    p.searchRank.GetOr(UnrankedSearchRank) < UnrankedSearchRank
  }

  /** `name, team` followed by ` (start date)` when the start date is known. */
  function CovidLine(p: CovidPlayer): string {
    var startDate := match p.startDate
      case Some(d) => " (" + d + ")"
      case None => "";
    p.fullName + ", " + p.team + startDate
  }

  /** The listed players, in download order. */
  function ListedPlayers(players: seq<CovidPlayer>): seq<CovidPlayer> {
    if players == [] then []
    else if Listed(players[|players| - 1]) then ListedPlayers(players[..|players| - 1]) + [players[|players| - 1]]
    else ListedPlayers(players[..|players| - 1])
  }

  /** Exactly the listed players appear, each as often as it does in the download. */
  lemma ListedPlayersSpec(players: seq<CovidPlayer>)
    ensures forall p :: p in ListedPlayers(players) <==> p in players && Listed(p)
    ensures forall p :: Listed(p) ==> multiset(ListedPlayers(players))[p] == multiset(players)[p]
    ensures forall p :: !Listed(p) ==> multiset(ListedPlayers(players))[p] == 0
  {
    ListedPlayersCount(players);
    forall p ensures p in ListedPlayers(players) <==> p in players && Listed(p) {
      assert p in ListedPlayers(players) <==> p in multiset(ListedPlayers(players));
      assert p in players <==> p in multiset(players);
    }
  }

  lemma {:induction false} ListedPlayersCount(players: seq<CovidPlayer>)
    ensures forall p :: multiset(ListedPlayers(players))[p] == if Listed(p) then multiset(players)[p] else 0
  {
    if players != [] {
      var init, last := players[..|players| - 1], players[|players| - 1];
      ListedPlayersCount(init);
      var kept: seq<CovidPlayer> := if Listed(last) then [last] else [];
      assert ListedPlayers(players) == ListedPlayers(init) + kept;
      assert players == init + [last];
      assert multiset(players) == multiset(init) + multiset{last};
      assert multiset(ListedPlayers(players)) == multiset(ListedPlayers(init)) + multiset(kept);
      forall p ensures multiset(ListedPlayers(players))[p] == if Listed(p) then multiset(players)[p] else 0 {
        assert multiset(kept)[p] == if Listed(p) then multiset{last}[p] else 0;
      }
    }
  }

  /** The code-fenced message around a body: "```", newline, body, newline, "```". */
  function Fence(body: string): string {
    "```" + ['\n'] + (body + ['\n'] + "```")
  }

  /** The whole `/whosgotcovid` reply for a download. */
  function CovidReply(players: seq<CovidPlayer>): string {
    var listed := ListedPlayers(players);
    Fence(Join(seq(|listed|, i requires 0 <= i < |listed| => CovidLine(listed[i])), '\n'))
  }

  /**
   * Read back line by line, a fenced reply is the opening fence, the lines
   * (a single empty line when there are none) and the closing fence.
   */
  lemma FenceLines(lines: seq<string>)
    requires forall i :: 0 <= i < |lines| ==> '\n' !in lines[i]
    ensures Split(Fence(Join(lines, '\n')), '\n') == ["```"] + (if lines == [] then [""] else lines) + ["```"]
  {
    FenceSplit(Join(lines, '\n'));
    if lines != [] {
      SplitJoin(lines, '\n');
    }
  }

  lemma FenceSplit(body: string)
    ensures Split(Fence(body), '\n') == ["```"] + Split(body, '\n') + ["```"]
  {
    var f := "```";
    assert '\n' !in f;
    SplitNoSep(f, '\n');
    SplitAppend(body, f, '\n');
    SplitAppend(f, body + ['\n'] + f, '\n');
  }

  /**
   * With no newline in any listed player's fields, the reply's lines between
   * the fences are exactly the listed players' lines; with nobody listed the
   * reply is an empty fenced block.
   */
  lemma CovidReplyLines(players: seq<CovidPlayer>)
    requires forall p :: p in players ==>
      '\n' !in p.fullName && '\n' !in p.team && (p.startDate.Some? ==> '\n' !in p.startDate.value)
    ensures var listed := ListedPlayers(players);
      var lines := Split(CovidReply(players), '\n');
      && |lines| == |listed| + 2 + (if listed == [] then 1 else 0)
      && (listed == [] ==> CovidReply(players) == "```\n\n```")
      && (forall i :: 0 <= i < |listed| ==> lines[i + 1] == CovidLine(listed[i]))
  {
    var listed := ListedPlayers(players);
    ListedPlayersSpec(players);
    var lines := seq(|listed|, i requires 0 <= i < |listed| => CovidLine(listed[i]));
    forall i | 0 <= i < |lines| ensures '\n' !in lines[i] {
      assert listed[i] in players;
    }
    assert CovidReply(players) == Fence(Join(lines, '\n'));
    FenceLines(lines);
  }

  /** The first option named "league" decides; a non-string value panics (`as_str().unwrap()`). */
  function LeagueOption(options: seq<CommandOption>): (r: Outcome<Option<string>>)
    ensures r.Err? == false
  {
    if options == [] then Ok(None)
    else if options[0].name == "league" then
      match options[0].value
      case None => Ok(None)
      case Some(JString(s)) => Ok(Some(s))
      case Some(JOther) => Panic
    else LeagueOption(options[1..])
  }

  /** Options after the first one named "league" have no effect. */
  lemma {:induction false} LeagueOptionFirst(options: seq<CommandOption>, i: nat, rest: seq<CommandOption>)
    requires i < |options| && options[i].name == "league"
    requires forall j :: 0 <= j < i ==> options[j].name != "league"
    ensures LeagueOption(options + rest) == LeagueOption(options[..i + 1])
    ensures LeagueOption(options[..i + 1]).Err? == false
  {
    if i > 0 {
      LeagueOptionFirst(options[1..], i - 1, rest);
      assert (options + rest)[1..] == options[1..] + rest;
      assert options[..i + 1][1..] == options[1..][..i];
    }
  }

  /** With no option named "league", no league was given. */
  lemma {:induction false} LeagueOptionAbsent(options: seq<CommandOption>)
    requires forall j :: 0 <= j < |options| ==> options[j].name != "league"
    ensures LeagueOption(options) == Ok(None)
  {
    if options != [] {
      LeagueOptionAbsent(options[1..]);
    }
  }

  /** ASCII lower-casing (`to_ascii_lowercase`): other characters are left alone. */
  function AsciiLowercase(s: string): (r: string)
    ensures |r| == |s|
    ensures forall i :: 0 <= i < |s| ==> r[i] == if 'A' <= s[i] <= 'Z' then (s[i] as int + 32) as char else s[i]
  {
    if s == [] then [] else [if 'A' <= s[0] <= 'Z' then (s[0] as int + 32) as char else s[0]] + AsciiLowercase(s[1..])
  }

  /** `str::contains`: the key occurs as a contiguous run. */
  predicate Contains(s: string, key: string) {
    exists i :: 0 <= i <= |s| && key <= s[i..]
  }

  /** The number of mentions that are bots. */
  function CountBots(mentionsBot: seq<bool>): nat {
    if mentionsBot == [] then 0 else (if mentionsBot[0] then 1 else 0) + CountBots(mentionsBot[1..])
  }

  lemma {:induction false} CountBotsSnoc(mentionsBot: seq<bool>, b: bool)
    ensures CountBots(mentionsBot + [b]) == CountBots(mentionsBot) + (if b then 1 else 0)
  {
    if mentionsBot != [] {
      assert (mentionsBot + [b])[1..] == mentionsBot[1..] + [b];
      CountBotsSnoc(mentionsBot[1..], b);
    }
  }

  /**
   * The keyword map in its iteration order: the static map's order is fixed
   * but not the order of declaration, so both orders are covered.
   */
  function ReaccOrder(swapped: bool): seq<(string, char)> {
    if swapped then [ReaccMap[1], ReaccMap[0]] else ReaccMap
  }

  /** The emojis of the entries whose key the text contains, in entry order. */
  function Hits(entries: seq<(string, char)>, text: string): seq<char> {
    if entries == [] then []
    else
      var init := entries[..|entries| - 1];
      var e := entries[|entries| - 1];
      Hits(init, text) + (if Contains(text, e.0) then [e.1] else [])
  }

  /** `n` robot reactions. */
  function Robots(n: nat): seq<char> {
    seq(n, _ => Robot)
  }

  /**
   * Whatever the iteration order, each keyword's emoji is a hit exactly when
   * the text contains the keyword, at most once, and never the robot.
   */
  lemma HitsOfReaccOrder(swapped: bool, text: string)
    ensures var hits := Hits(ReaccOrder(swapped), text);
      && (forall e :: e in ReaccMap ==> (e.1 in hits <==> Contains(text, e.0)))
      && (forall e :: e in ReaccMap ==> multiset(hits)[e.1] <= 1)
      && (forall c :: c in hits ==> exists e :: e in ReaccMap && c == e.1)
      && Robot !in hits
  {
    var x, y := ReaccMap[0], ReaccMap[1];
    var hits := Hits(ReaccOrder(swapped), text);
    if swapped {
      HitsOfTwo(y, x, text);
    } else {
      HitsOfTwo(x, y, text);
    }
    assert ReaccMap == [x, y];
    forall e | e in ReaccMap ensures (e.1 in hits <==> Contains(text, e.0)) && multiset(hits)[e.1] <= 1 {
      assert e == x || e == y;
    }
    forall c | c in hits ensures exists e :: e in ReaccMap && c == e.1 {
      if c == x.1 {
        assert x in ReaccMap;
      } else {
        assert y in ReaccMap;
      }
    }
    assert Robot != x.1 && Robot != y.1;
  }

  lemma HitsOfTwo(a: (string, char), b: (string, char), text: string)
    requires a.1 != b.1
    ensures var hits := Hits([a, b], text);
      && (a.1 in hits <==> Contains(text, a.0))
      && (b.1 in hits <==> Contains(text, b.0))
      && multiset(hits)[a.1] <= 1 && multiset(hits)[b.1] <= 1
      && forall c :: c in hits ==> c == a.1 || c == b.1
  {
    assert [a, b][..1] == [a] && [a][..0] == [];
    assert Hits([a], text) == (if Contains(text, a.0) then [a.1] else []);
  }

  /**
   * The `message` handler's reactions, in the order they are added: first
   * one per keyword the lower-cased text contains, then one robot per bot
   * mentioned.
   */
  method Reactions(swapped: bool, content: string, mentionsBot: seq<bool>) returns (reacts: seq<char>)
    ensures multiset(reacts)[Robot] == CountBots(mentionsBot)
    ensures forall e :: e in ReaccMap ==> (e.1 in reacts <==> Contains(AsciiLowercase(content), e.0))
    ensures forall e :: e in ReaccMap ==> multiset(reacts)[e.1] <= 1
    ensures forall c :: c in reacts ==> c == Robot || exists e :: e in ReaccMap && c == e.1
    ensures forall i, j :: 0 <= i < j < |reacts| && reacts[i] == Robot ==> reacts[j] == Robot
  {
    var lower := AsciiLowercase(content);
    var hits := KeywordReactions(ReaccOrder(swapped), lower);
    reacts := BotReactions(hits, mentionsBot);
    ReactionsShape(swapped, lower, CountBots(mentionsBot));
  }

  /** The keyword loop of `message`: one emoji per entry whose keyword the text contains. */
  method KeywordReactions(entries: seq<(string, char)>, lower: string) returns (reacts: seq<char>)
    ensures reacts == Hits(entries, lower)
  {
    reacts := [];
    for i := 0 to |entries|
      invariant reacts == Hits(entries[..i], lower)
    {
      assert entries[..i + 1][..i] == entries[..i];
      if Contains(lower, entries[i].0) {
        reacts := reacts + [entries[i].1];
      }
    }
    assert entries[..|entries|] == entries;
  }

  /** The mention loop of `message`: one robot per bot mentioned, after what is already there. */
  method BotReactions(hits: seq<char>, mentionsBot: seq<bool>) returns (reacts: seq<char>)
    ensures reacts == hits + Robots(CountBots(mentionsBot))
  {
    reacts := hits;
    for i := 0 to |mentionsBot|
      invariant reacts == hits + Robots(CountBots(mentionsBot[..i]))
    {
      assert mentionsBot[..i + 1] == mentionsBot[..i] + [mentionsBot[i]];
      CountBotsSnoc(mentionsBot[..i], mentionsBot[i]);
      if mentionsBot[i] {
        assert Robots(CountBots(mentionsBot[..i])) + [Robot] == Robots(CountBots(mentionsBot[..i]) + 1);
        reacts := reacts + [Robot];
      }
    }
    assert mentionsBot[..|mentionsBot|] == mentionsBot;
  }

  /** The reactions are the keyword hits followed by `n` robots: what that sequence holds. */
  lemma ReactionsShape(swapped: bool, text: string, n: nat)
    ensures var reacts := Hits(ReaccOrder(swapped), text) + Robots(n);
      && multiset(reacts)[Robot] == n
      && (forall e :: e in ReaccMap ==> (e.1 in reacts <==> Contains(text, e.0)))
      && (forall e :: e in ReaccMap ==> multiset(reacts)[e.1] <= 1)
      && (forall c :: c in reacts ==> c == Robot || exists e :: e in ReaccMap && c == e.1)
      && (forall i, j :: 0 <= i < j < |reacts| && reacts[i] == Robot ==> reacts[j] == Robot)
  {
    var hits := Hits(ReaccOrder(swapped), text);
    var reacts := hits + Robots(n);
    HitsOfReaccOrder(swapped, text);
    RobotsAfter(hits, n);
    ReaccNotRobot();
  }

  lemma ReaccNotRobot()
    ensures forall e :: e in ReaccMap ==> e.1 != Robot
  {
    assert ReaccMap == [ReaccMap[0], ReaccMap[1]];
  }

  /** Robots appended after robot-free hits: `n` robots, all at the end, nothing else changed. */
  lemma RobotsAfter(hits: seq<char>, n: nat)
    requires Robot !in hits
    ensures var reacts := hits + Robots(n);
      && multiset(reacts)[Robot] == n
      && (forall c :: c != Robot ==> (c in reacts <==> c in hits) && multiset(reacts)[c] == multiset(hits)[c])
      && (forall i, j :: 0 <= i < j < |reacts| && reacts[i] == Robot ==> reacts[j] == Robot)
  {
    var reacts := hits + Robots(n);
    RobotsCount(n);
    assert multiset(reacts) == multiset(hits) + multiset(Robots(n));
    forall c | c != Robot ensures (c in reacts <==> c in hits) && multiset(reacts)[c] == multiset(hits)[c] {
      assert c !in Robots(n);
    }
    assert forall k :: 0 <= k < |hits| ==> reacts[k] == hits[k] && hits[k] != Robot;
    forall i, j | 0 <= i < j < |reacts| && reacts[i] == Robot ensures reacts[j] == Robot {
      assert reacts[j] == Robots(n)[j - |hits|];
    }
  }

  lemma {:induction false} RobotsCount(n: nat)
    ensures multiset(Robots(n))[Robot] == n
    ensures forall c :: c in Robots(n) ==> c == Robot
  {
    if n > 0 {
      RobotsCount(n - 1);
      assert Robots(n) == Robots(n - 1) + [Robot];
    }
  }

  /** The football emoji is added exactly when the lower-cased text contains "football". */
  lemma FootballReaction(swapped: bool, content: string, mentionsBot: seq<bool>, reacts: seq<char>)
    requires forall e :: e in ReaccMap ==> (e.1 in reacts <==> Contains(AsciiLowercase(content), e.0))
    ensures '\U{1F3C8}' in reacts <==> Contains(AsciiLowercase(content), "football")
  {
    assert ReaccMap[0] in ReaccMap;
  }

  /** The bot's event handler: the league clients and the COVID list's address. */
  datatype Handler = Handler(fflClients: seq<FflClient>, covidJsonUrl: string) {

    /** `c` is the first client whose league short name is `name`. */
    ghost predicate FirstNamed(c: FflClient, name: string) {
      exists i :: 0 <= i < |fflClients| && fflClients[i] == c &&
        fflClients[i].config.shortName == name &&
        forall j :: 0 <= j < i ==> fflClients[j].config.shortName != name
    }

    /** `c` is the first client whose league is tied to Discord category `id`. */
    ghost predicate FirstInCategory(c: FflClient, id: string) {
      exists i :: 0 <= i < |fflClients| && fflClients[i] == c &&
        fflClients[i].config.discordCategoryId == id &&
        forall j :: 0 <= j < i ==> fflClients[j].config.discordCategoryId != id
    }

    /** The first client whose league short name is `name`, if any. */
    method GetClientByName(name: string) returns (ret: Option<FflClient>)
      ensures ret.Some? <==> exists i :: 0 <= i < |fflClients| && fflClients[i].config.shortName == name
      ensures ret.Some? ==> FirstNamed(ret.value, name)
    {
      ret := None;
      var i := 0;
      while i < |fflClients|
        invariant 0 <= i <= |fflClients|
        invariant forall j :: 0 <= j < i ==> fflClients[j].config.shortName != name
      {
        if fflClients[i].config.shortName == name {
          ret := Some(fflClients[i]);
          break;
        }
        i := i + 1;
      }
    }

    /** The first client whose league is tied to Discord category `id`, if any. */
    method GetClientByCategoryId(id: string) returns (ret: Option<FflClient>)
      ensures ret.Some? <==> exists i :: 0 <= i < |fflClients| && fflClients[i].config.discordCategoryId == id
      ensures ret.Some? ==> FirstInCategory(ret.value, id)
    {
      ret := None;
      var i := 0;
      while i < |fflClients|
        invariant 0 <= i <= |fflClients|
        invariant forall j :: 0 <= j < i ==> fflClients[j].config.discordCategoryId != id
      {
        if fflClients[i].config.discordCategoryId == id {
          ret := Some(fflClients[i]);
          break;
        }
        i := i + 1;
      }
    }

    /** The league name the command gives: the loop over the options up to the first "league". */
    method LeagueName(options: seq<CommandOption>) returns (r: Outcome<Option<string>>)
      ensures r == LeagueOption(options)
    {
      r := Ok(None);
      var i := 0;
      while i < |options|
        invariant 0 <= i <= |options|
        invariant LeagueOption(options) == LeagueOption(options[i..])
      {
        assert options[i..][1..] == options[i + 1..];
        if options[i].name == "league" {
          match options[i].value {
            case None => r := Ok(None);
            case Some(JString(s)) => r := Ok(Some(s));
            case Some(JOther) => r := Panic;
          }
          return;
        }
        i := i + 1;
      }
    }

    /**
     * The league a matchups or standings command is for: by short name when
     * one is given, otherwise by the category id the channel lookup yields;
     * a failed lookup or a channel outside any category panics. Either way
     * the first matching client in configuration order is taken.
     */
    method ResolveClient(options: seq<CommandOption>, channel: ChannelLookup) returns (r: Outcome<Option<FflClient>>)
      ensures r.Err? == false
      ensures r.Panic? <==>
        LeagueOption(options).Panic? ||
        (LeagueOption(options) == Ok(None) && !(channel.Channel? && channel.category.Some?))
      ensures r.Ok? && LeagueOption(options).Ok? && LeagueOption(options).value.Some? ==>
        (r.value.Some? <==>
           exists i :: 0 <= i < |fflClients| && fflClients[i].config.shortName == LeagueOption(options).value.value)
      ensures r.Ok? && LeagueOption(options) == Ok(None) ==>
        (r.value.Some? <==>
           exists i :: 0 <= i < |fflClients| && fflClients[i].config.discordCategoryId == NatToString(channel.category.value))
      ensures r.Ok? && r.value.Some? && LeagueOption(options).Ok? && LeagueOption(options).value.Some? ==>
        FirstNamed(r.value.value, LeagueOption(options).value.value)
      ensures r.Ok? && r.value.Some? && LeagueOption(options) == Ok(None) ==>
        FirstInCategory(r.value.value, NatToString(channel.category.value))
    {
      var leagueName := LeagueName(options);
      if !leagueName.Ok? {
        return Panic;
      }
      match leagueName.value {
        case Some(n) =>
          var c := GetClientByName(n);
          r := Ok(c);
        case None =>
          if channel.ChannelUnavailable? || channel.category.None? {
            return Panic;
          }
          var c := GetClientByCategoryId(NatToString(channel.category.value));
          r := Ok(c);
      }
    }

    /** `/whosgotcovid`: a failed download panics; otherwise the fenced list of listed players. */
    method HandleWhosGotCovid(fetch: CovidFetch) returns (r: Outcome<string>)
      ensures r.Ok? <==> fetch.CovidJson?
      ensures r.Ok? ==> r.value == CovidReply(fetch.players)
    {
      if fetch.CovidUnavailable? {
        return Panic;
      }
      var players := fetch.players;
      var lines: seq<string> := [];
      ghost var listed: seq<CovidPlayer> := [];
      for i := 0 to |players|
        invariant listed == ListedPlayers(players[..i])
        invariant |lines| == |listed|
        invariant forall k :: 0 <= k < |lines| ==> lines[k] == CovidLine(listed[k])
      {
        assert players[..i + 1][..i] == players[..i];
        if players[i].searchRank.GetOr(UnrankedSearchRank) < UnrankedSearchRank {
          lines := lines + [CovidLine(players[i])];
          listed := listed + [players[i]];
        }
      }
      assert players[..|players|] == players;
      assert lines == seq(|listed|, k requires 0 <= k < |listed| => CovidLine(listed[k]));
      r := Ok(Fence(Join(lines, '\n')));
    }

    /**
     * `interaction_create`: only slash commands are answered. `/whosgotcovid`
     * replies with the COVID list; any other command first resolves its
     * league (which may panic), then `/matchups` and `/standings` reply with
     * their fixed text and an unknown command panics on the missing reply.
     */
    method InteractionCreate(interaction: Interaction, covid: CovidFetch) returns (r: Outcome<Response>)
      ensures r.Err? == false
      ensures interaction.OtherInteraction? ==> r == Ok(NoResponse)
      ensures interaction.ApplicationCommand? && interaction.name == "whosgotcovid" ==>
        (r.Ok? <==> covid.CovidJson?) && (r.Ok? ==> r == Ok(Reply(CovidReply(covid.players))))
      ensures interaction.ApplicationCommand? && interaction.name != "whosgotcovid" ==>
        var lo := LeagueOption(interaction.options);
        var resolves := !lo.Panic? && (lo == Ok(None) ==> interaction.channel.Channel? && interaction.channel.category.Some?);
        && (r.Ok? <==> resolves && interaction.name in {"matchups", "standings"})
        && (r.Ok? && interaction.name == "matchups" ==> r == Ok(Reply(MatchupsReply)))
        && (r.Ok? && interaction.name == "standings" ==> r == Ok(Reply(StandingsReply)))
    {
      if interaction.OtherInteraction? {
        return Ok(NoResponse);
      }
      var reply: Option<string> := None;
      if interaction.name == "whosgotcovid" {
        var covidReply := HandleWhosGotCovid(covid);
        if !covidReply.Ok? {
          return Panic;
        }
        reply := Some(covidReply.value);
      } else {
        var fflClient := ResolveClient(interaction.options, interaction.channel);
        if fflClient.Panic? {
          return Panic;
        }
        if interaction.name == "matchups" {
          reply := Some(MatchupsReply);
        } else if interaction.name == "standings" {
          reply := Some(StandingsReply);
        }
      }
      if reply.None? {
        return Panic;
      }
      r := Ok(Reply(reply.value));
    }
  }
}
