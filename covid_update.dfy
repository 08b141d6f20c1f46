/**
 * The `update-sleeper` cloud function (cf/update-sleeper/main.py): store
 * the full player directory, then publish today's list of players out with
 * COVID, each with the date their absence is inferred to have started, as
 * both the current list and a dated copy.
 */
module CovidUpdate {
  import opened Wrappers
  import opened Text
  import opened Dates

  const AllPlayersFilename: string := "sleeper_players.json"
  const CovidPlayersFilename: string := "covid_players.json"

  /** The status Sleeper gives a player out with COVID. */
  const CovidStatus: string := "COV"

  /** Start date for a player listed on consecutive days but with no date recorded. */
  const UnknownStart: string := "unk"

  /**
   * A player record as stored in the bucket: the fields the bot and this
   * function read. `isNew` is the truthiness of the record's `new` field;
   * `startDate` is `None` when the key is absent or null.
   */
  datatype PlayerRecord = PlayerRecord(
    fullName: string,
    team: string,
    searchRank: Option<U64>,
    injuryStatus: Option<string>,
    isNew: bool,
    startDate: Option<string>)

  /** The storage bucket: each blob is a JSON object of player records. */
  type Bucket = map<string, map<string, PlayerRecord>>

  /** `covid_players_{date}.json` */
  function DatedCovidFilename(d: Date): string
    requires Valid(d)
  {
    "covid_players_" + IsoFormat(d) + ".json"
  }

  /** Python truthiness of an optional JSON string. */
  predicate Truthy(s: Option<string>) {
    s.Some? && s.value != ""
  }

  /** The players whose injury status is `COV`. */
  function CovidPlayers(players: map<string, PlayerRecord>): map<string, PlayerRecord>
  {
    map k | k in players && players[k].injuryStatus == Some(CovidStatus) :: players[k]
  }

  /**
   * The start date inferred for a listed player, given yesterday's list:
   * today for a player not listed yesterday; yesterday's date as recorded
   * if it has one; yesterday for a player flagged new; `unk` otherwise.
   */
  function InferredStart(k: string, v: PlayerRecord, yesterdayList: map<string, PlayerRecord>,
                         today: Date, yesterday: Date): string
    requires Valid(today) && Valid(yesterday)
  {
    if k in yesterdayList then
      var recorded := yesterdayList[k].startDate;
      if Truthy(recorded) then recorded.value
      else if v.isNew then IsoFormat(yesterday)
      else UnknownStart
    else IsoFormat(today)
  }

  /** Every inferred start date is a non-empty string, so it is kept the next day. */
  lemma InferredStartTruthy(k: string, v: PlayerRecord, yesterdayList: map<string, PlayerRecord>,
                            today: Date, yesterday: Date)
    requires Valid(today) && Valid(yesterday)
    ensures Truthy(Some(InferredStart(k, v, yesterdayList, today, yesterday)))
  {
  }

  /** Today's published list: the COVID players, each with its inferred start date. */
  function PublishedList(players: map<string, PlayerRecord>, yesterdayList: map<string, PlayerRecord>,
                         today: Date, yesterday: Date): map<string, PlayerRecord>
    requires Valid(today) && Valid(yesterday)
  {
    var covid := CovidPlayers(players);
    map k | k in covid :: covid[k].(startDate := Some(InferredStart(k, covid[k], yesterdayList, today, yesterday)))
  }

  /** Yesterday's published list as found in the bucket, empty when there is none. */
  function YesterdayList(bucket: Bucket, yesterday: Date): map<string, PlayerRecord>
    requires Valid(yesterday)
  {
    var name := DatedCovidFilename(yesterday);
    if name in bucket then bucket[name] else map[]
  }

  /** The bucket after a run that does not raise. */
  function Run(bucket: Bucket, players: map<string, PlayerRecord>, today: Date): Bucket
    requires Valid(today) && today != MinDate
  {
    var yesterday := PrevDay(today).value;
    var published := PublishedList(players, YesterdayList(bucket, yesterday), today, yesterday);
    bucket[AllPlayersFilename := players][CovidPlayersFilename := published][DatedCovidFilename(today) := published]
  }

  /** What `Run` writes, once yesterday and the published list are known. */
  lemma RunWrites(bucket: Bucket, players: map<string, PlayerRecord>, today: Date, yesterday: Date,
                  published: map<string, PlayerRecord>)
    requires Valid(today) && today != MinDate && PrevDay(today) == Value(yesterday)
    requires published == PublishedList(players, YesterdayList(bucket, yesterday), today, yesterday)
    ensures Run(bucket, players, today) ==
      bucket[AllPlayersFilename := players][CovidPlayersFilename := published][DatedCovidFilename(today) := published]
  {
  }

  /** A dated list's name never collides with the full directory's. */
  lemma DatedNameIsNotPlayersName(d: Date)
    requires Valid(d)
    ensures DatedCovidFilename(d) != AllPlayersFilename
  {
    assert |DatedCovidFilename(d)| == 29;
  }

  /**
   * `update_sleeper`, given the download, the bucket and today's date in New
   * York. The full directory is stored first; then the day before today is
   * computed, which raises `OverflowError` on the first representable date
   * and leaves the bucket with only that write; otherwise yesterday's dated
   * list (empty when absent) feeds the start dates, and the list is written
   * under both the current and today's dated name.
   */
  method UpdateSleeper(bucket: Bucket, players: map<string, PlayerRecord>, today: Date)
    returns (bucket': Bucket, r: PyResult<()>)
    requires Valid(today)
    ensures r.Raised? <==> today == MinDate
    ensures r.Raised? ==> r.exception == OverflowError && bucket' == bucket[AllPlayersFilename := players]
    ensures r.Value? ==> bucket' == Run(bucket, players, today)
  {
    bucket' := bucket[AllPlayersFilename := players];
    var covidPlayers := CovidPlayers(players);
    var prev := PrevDay(today);
    if prev.Raised? {
      return bucket', Raised(prev.exception);
    }
    var yesterday := prev.value;
    var yesterdayName := DatedCovidFilename(yesterday);
    var yesterdayList: map<string, PlayerRecord> := if yesterdayName in bucket' then bucket'[yesterdayName] else map[];
    DatedNameIsNotPlayersName(yesterday);
    ghost var published := PublishedList(players, yesterdayList, today, yesterday);
    var pending := covidPlayers.Keys;
    var updated: map<string, PlayerRecord> := map[];
    while pending != {}
      invariant pending <= covidPlayers.Keys
      invariant updated.Keys == covidPlayers.Keys - pending
      invariant forall k :: k in updated ==> updated[k] == published[k]
      decreases pending
    {
      var k :| k in pending;
      var v := covidPlayers[k];
      var startDate: string;
      if k in yesterdayList {
        var recorded := yesterdayList[k].startDate;
        if recorded.Some? && recorded.value != "" {
          startDate := recorded.value;
        } else if v.isNew {
          startDate := IsoFormat(yesterday);
        } else {
          startDate := UnknownStart;
        }
      } else {
        startDate := IsoFormat(today);
      }
      assert startDate == InferredStart(k, v, yesterdayList, today, yesterday);
      updated := updated[k := v.(startDate := Some(startDate))];
      pending := pending - {k};
    }
    assert updated.Keys == published.Keys;
    assert updated == published;
    RunWrites(bucket, players, today, yesterday, updated);
    bucket' := bucket'[CovidPlayersFilename := updated];
    bucket' := bucket'[DatedCovidFilename(today) := updated];
    r := Value(());
  }

  /**
   * The published list holds exactly the players out with COVID, each with
   * every other field as downloaded and a non-empty start date.
   */
  lemma PublishedListSpec(players: map<string, PlayerRecord>, yesterdayList: map<string, PlayerRecord>,
                          today: Date, yesterday: Date)
    requires Valid(today) && Valid(yesterday)
    ensures var published := PublishedList(players, yesterdayList, today, yesterday);
      && (forall k :: k in published <==> k in players && players[k].injuryStatus == Some(CovidStatus))
      && (forall k :: k in published ==>
            && published[k].(startDate := players[k].startDate) == players[k]
            && Truthy(published[k].startDate))
  {
  }

  /**
   * A player newly out with COVID (not on yesterday's list) is dated today;
   * one already listed keeps a recorded date.
   */
  lemma InferredStartCases(k: string, v: PlayerRecord, yesterdayList: map<string, PlayerRecord>,
                           today: Date, yesterday: Date)
    requires Valid(today) && Valid(yesterday)
    ensures k !in yesterdayList ==> InferredStart(k, v, yesterdayList, today, yesterday) == IsoFormat(today)
    ensures k in yesterdayList && Truthy(yesterdayList[k].startDate) ==>
      InferredStart(k, v, yesterdayList, today, yesterday) == yesterdayList[k].startDate.value
  {
  }

  /**
   * Run on two consecutive days, a player listed both days keeps the start
   * date it was given the first day: dates are carried forward, never reset.
   */
  lemma StartDateCarriedForward(bucket: Bucket, players1: map<string, PlayerRecord>,
                                players2: map<string, PlayerRecord>, day1: Date, day2: Date, k: string)
    requires Valid(day1) && Valid(day2) && day1 != MinDate && day2 != MinDate
    requires PrevDay(day2) == Value(day1)
    requires k in CovidPlayers(players1) && k in CovidPlayers(players2)
    ensures var bucket1 := Run(bucket, players1, day1);
      var bucket2 := Run(bucket1, players2, day2);
      && k in bucket1[CovidPlayersFilename] && k in bucket2[CovidPlayersFilename]
      && bucket2[CovidPlayersFilename][k].startDate == bucket1[CovidPlayersFilename][k].startDate
  {
    var bucket1 := Run(bucket, players1, day1);
    var y1 := PrevDay(day1).value;
    var list1 := PublishedList(players1, YesterdayList(bucket, y1), day1, y1);
    PublishedListSpec(players1, YesterdayList(bucket, y1), day1, y1);
    assert YesterdayList(bucket1, day1) == list1;
    InferredStartCases(k, CovidPlayers(players2)[k], list1, day2, day1);
  }
}
