/**
 * The history merge of the `recent-activity` cloud function
 * (cf/recent-activity/main.py, `_update_espn_activity`): the stored
 * transaction history, newest first, gains the recent transactions newer
 * than its newest entry and is re-sorted newest first.
 */
module RecentActivity {
  import opened Wrappers

  /** One transaction line as the league library reports it. */
  datatype RecentAction = RecentAction(teamName: string, action: string, playerName: string, proTeam: string)

  /** One transaction as the league library reports it; `date` is its timestamp. */
  datatype Recent = Recent(date: int, actions: seq<RecentAction>)

  /** One transaction line as stored: team, action, and the player's name and team. */
  datatype ActionRecord = ActionRecord(team: string, action: string, playerName: string, playerTeam: string)

  datatype ActivityEntry = ActivityEntry(date: int, actions: seq<ActionRecord>)

  /**
   * The stored document: its `activity` list (`None` when the key is
   * missing) and its `updated` stamp.
   */
  datatype ActivityDoc = ActivityDoc(activity: Option<seq<ActivityEntry>>, updated: Option<string>)

  /** The document used when the blob does not exist. */
  const EmptyDoc: ActivityDoc := ActivityDoc(Some([]), None)

  function ToRecord(a: RecentAction): ActionRecord {
    ActionRecord(a.teamName, a.action, a.playerName, a.proTeam)
  }

  /** The stored form of a transaction. */
  function ToEntry(n: Recent): ActivityEntry {
    ActivityEntry(n.date, seq(|n.actions|, i requires 0 <= i < |n.actions| => ToRecord(n.actions[i])))
  }

  function ToEntries(ns: seq<Recent>): seq<ActivityEntry>
  {
    seq(|ns|, i requires 0 <= i < |ns| => ToEntry(ns[i]))
  }

  /** The date of the first stored entry, the newest when the history is sorted. */
  function Newest(history: seq<ActivityEntry>): Option<int> {
    if history == [] then None else Some(history[0].date)
  }

  /** Newer than `newest`, or anything when there is no history. */
  predicate IsNew(n: Recent, newest: Option<int>) {
    newest.None? || n.date > newest.value
  }

  /** The recent transactions newer than the newest stored one, in the order reported. */
  function NewAdditions(recents: seq<Recent>, newest: Option<int>): seq<Recent> {
    if recents == [] then []
    else (if IsNew(recents[0], newest) then [recents[0]] else []) + NewAdditions(recents[1..], newest)
  }

  /** Exactly the new recents are added, each as often as it was reported. */
  lemma {:induction false} NewAdditionsSpec(recents: seq<Recent>, newest: Option<int>)
    ensures forall n :: n in NewAdditions(recents, newest) <==> n in recents && IsNew(n, newest)
    ensures forall n :: IsNew(n, newest) ==> multiset(NewAdditions(recents, newest))[n] == multiset(recents)[n]
  {
    if recents != [] {
      NewAdditionsSpec(recents[1..], newest);
      assert recents == [recents[0]] + recents[1..];
    }
  }

  predicate SortedDesc(s: seq<ActivityEntry>) {
    forall i, j :: 0 <= i < j < |s| ==> s[i].date >= s[j].date
  }

  /** Inserts `x` before the first entry strictly older than it. */
  function Insert(t: seq<ActivityEntry>, x: ActivityEntry): seq<ActivityEntry> {
    if t == [] then [x]
    else if t[0].date >= x.date then [t[0]] + Insert(t[1..], x)
    else [x] + t
  }

  /** `list.sort(key=date, reverse=True)`: a stable sort, newest first. */
  function SortDesc(s: seq<ActivityEntry>): seq<ActivityEntry> {
    if s == [] then [] else Insert(SortDesc(s[..|s| - 1]), s[|s| - 1])
  }

  lemma InsertSpec(t: seq<ActivityEntry>, x: ActivityEntry)
    requires SortedDesc(t)
    ensures SortedDesc(Insert(t, x))
    ensures multiset(Insert(t, x)) == multiset(t) + multiset{x}
  {
    InsertSorted(t, x);
    InsertMultiset(t, x);
  }

  lemma {:induction false} InsertMultiset(t: seq<ActivityEntry>, x: ActivityEntry)
    ensures multiset(Insert(t, x)) == multiset(t) + multiset{x}
  {
    if t != [] && t[0].date >= x.date {
      InsertMultiset(t[1..], x);
      assert t == [t[0]] + t[1..];
    }
  }

  /** Nothing inserted below a bound rises above it. */
  lemma {:induction false} InsertBound(t: seq<ActivityEntry>, x: ActivityEntry, b: int)
    requires forall i :: 0 <= i < |t| ==> t[i].date <= b
    requires x.date <= b
    ensures forall i :: 0 <= i < |Insert(t, x)| ==> Insert(t, x)[i].date <= b
  {
    if t != [] && t[0].date >= x.date {
      InsertBound(t[1..], x, b);
      var r := Insert(t[1..], x);
      assert Insert(t, x) == [t[0]] + r;
      forall i | 0 <= i < |[t[0]] + r| ensures ([t[0]] + r)[i].date <= b {
        if i > 0 {
          assert ([t[0]] + r)[i] == r[i - 1];
        }
      }
    }
  }

  lemma {:induction false} InsertSorted(t: seq<ActivityEntry>, x: ActivityEntry)
    requires SortedDesc(t)
    ensures SortedDesc(Insert(t, x))
  {
    if t == [] {
    } else if t[0].date >= x.date {
      InsertSorted(t[1..], x);
      InsertBound(t[1..], x, t[0].date);
      SortedCons(t[0], Insert(t[1..], x));
    } else {
      SortedCons(x, t);
    }
  }

  lemma SortedCons(h: ActivityEntry, r: seq<ActivityEntry>)
    requires SortedDesc(r)
    requires forall i :: 0 <= i < |r| ==> r[i].date <= h.date
    ensures SortedDesc([h] + r)
  {
    forall i, j | 0 <= i < j < |[h] + r| ensures ([h] + r)[i].date >= ([h] + r)[j].date {
      if i > 0 {
        assert ([h] + r)[i] == r[i - 1];
      }
      assert ([h] + r)[j] == r[j - 1];
    }
  }

  /** The sort orders newest first and keeps every entry exactly once. */
  lemma {:induction false} SortDescSpec(s: seq<ActivityEntry>)
    ensures SortedDesc(SortDesc(s))
    ensures multiset(SortDesc(s)) == multiset(s)
  {
    if s != [] {
      var init, last := s[..|s| - 1], s[|s| - 1];
      assert SortDesc(s) == Insert(SortDesc(init), last);
      SortDescSpec(init);
      InsertSpec(SortDesc(init), last);
      assert s == init + [last];
      assert multiset(s) == multiset(init) + multiset{last};
    }
  }

  /** The entries of one date, in order. */
  function WithDate(s: seq<ActivityEntry>, d: int): seq<ActivityEntry> {
    if s == [] then [] else (if s[0].date == d then [s[0]] else []) + WithDate(s[1..], d)
  }

  lemma {:induction false} WithDateAppend(a: seq<ActivityEntry>, b: seq<ActivityEntry>, d: int)
    ensures WithDate(a + b, d) == WithDate(a, d) + WithDate(b, d)
  {
    if a == [] {
      assert a + b == b;
    } else {
      WithDateAppend(a[1..], b, d);
      WithDateCons(a, b, d);
    }
  }

  /** One step of `WithDateAppend`: the head of `a + b` is the head of `a`. */
  lemma WithDateCons(a: seq<ActivityEntry>, b: seq<ActivityEntry>, d: int)
    requires a != []
    ensures WithDate(a + b, d) == (if a[0].date == d then [a[0]] else []) + WithDate(a[1..] + b, d)
  {
    assert (a + b)[0] == a[0];
    assert (a + b)[1..] == a[1..] + b;
  }

  lemma {:induction false} WithDateNone(s: seq<ActivityEntry>, d: int)
    requires forall i :: 0 <= i < |s| ==> s[i].date != d
    ensures WithDate(s, d) == []
  {
    if s != [] {
      WithDateNone(s[1..], d);
    }
  }

  lemma {:induction false} InsertWithDate(t: seq<ActivityEntry>, x: ActivityEntry, d: int)
    requires SortedDesc(t)
    ensures WithDate(Insert(t, x), d) == WithDate(t, d) + (if x.date == d then [x] else [])
  {
    if t == [] {
      WithDateHead(x, [], d);
    } else if t[0].date >= x.date {
      var h := if t[0].date == d then [t[0]] else [];
      var tail := if x.date == d then [x] else [];
      InsertWithDate(t[1..], x, d);
      assert Insert(t, x) == [t[0]] + Insert(t[1..], x);
      WithDateHead(t[0], Insert(t[1..], x), d);
      assert [t[0]] + t[1..] == t;
      WithDateHead(t[0], t[1..], d);
      assert h + (WithDate(t[1..], d) + tail) == (h + WithDate(t[1..], d)) + tail;
    } else {
      assert Insert(t, x) == [x] + t;
      WithDateHead(x, t, d);
      if x.date == d {
        forall i | 0 <= i < |t| ensures t[i].date != d {
          assert t[i].date <= t[0].date;
        }
        WithDateNone(t, d);
      }
    }
  }

  lemma WithDateHead(x: ActivityEntry, s: seq<ActivityEntry>, d: int)
    ensures WithDate([x] + s, d) == (if x.date == d then [x] else []) + WithDate(s, d)
  {
    assert ([x] + s)[0] == x;
    assert ([x] + s)[1..] == s;
  }

  /** The sort is stable: entries of the same date keep their relative order. */
  lemma {:induction false} SortDescStable(s: seq<ActivityEntry>, d: int)
    ensures WithDate(SortDesc(s), d) == WithDate(s, d)
  {
    if s != [] {
      var init, last := s[..|s| - 1], s[|s| - 1];
      assert SortDesc(s) == Insert(SortDesc(init), last);
      SortDescStable(init, d);
      SortDescSpec(init);
      InsertWithDate(SortDesc(init), last, d);
      WithDateAppend(init, [last], d);
      assert [last] + [] == [last];
      WithDateHead(last, [], d);
      assert s == init + [last];
    }
  }

  /** Sorting an already sorted history changes nothing. */
  lemma {:induction false} SortDescOfSorted(s: seq<ActivityEntry>)
    requires SortedDesc(s)
    ensures SortDesc(s) == s
  {
    if s != [] {
      var init, last := s[..|s| - 1], s[|s| - 1];
      SortDescOfSorted(init);
      InsertAtEnd(init, last);
    }
  }

  lemma {:induction false} InsertAtEnd(t: seq<ActivityEntry>, x: ActivityEntry)
    requires forall i :: 0 <= i < |t| ==> t[i].date >= x.date
    ensures Insert(t, x) == t + [x]
  {
    if t != [] {
      InsertAtEnd(t[1..], x);
    }
  }

  /** The merged history: the stored entries plus the new additions, sorted newest first. */
  function Merge(history: seq<ActivityEntry>, recents: seq<Recent>): seq<ActivityEntry> {
    SortDesc(history + ToEntries(NewAdditions(recents, Newest(history))))
  }

  /**
   * `_update_espn_activity` without the I/O: `stored` is the blob's
   * document (`None` when it does not exist), `recents` what the league
   * reports and `now` the time stamp. A stored document without an
   * `activity` list raises `KeyError`.
   */
  method UpdateEspnActivity(stored: Option<ActivityDoc>, recents: seq<Recent>, now: string) returns (r: PyResult<ActivityDoc>)
    ensures r.Raised? <==> stored.Some? && stored.value.activity.None?
    ensures r.Raised? ==> r.exception == KeyError
    ensures r.Value? ==>
      var history := stored.GetOr(EmptyDoc).activity.value;
      && r.value.activity == Some(Merge(history, recents))
      && r.value.updated == Some(now)
      && SortedDesc(r.value.activity.value)
      && multiset(r.value.activity.value) ==
           multiset(history) + multiset(ToEntries(NewAdditions(recents, Newest(history))))
  {
    var doc := if stored.Some? then stored.value else EmptyDoc;
    if doc.activity.None? {
      return Raised(KeyError);
    }
    var history := doc.activity.value;
    var allActivity := history;
    var newest := if allActivity != [] then Some(allActivity[0].date) else None;
    var newAdditions := NewAdditions(recents, newest);
    for i := 0 to |newAdditions|
      invariant allActivity == history + ToEntries(newAdditions[..i])
    {
      assert ToEntries(newAdditions[..i + 1]) == ToEntries(newAdditions[..i]) + [ToEntry(newAdditions[i])];
      allActivity := allActivity + [ToEntry(newAdditions[i])];
    }
    assert newAdditions[..|newAdditions|] == newAdditions;
    allActivity := SortDesc(allActivity);
    SortDescSpec(history + ToEntries(newAdditions));
    r := Value(doc.(activity := Some(allActivity), updated := Some(now)));
  }

  /**
   * Every new addition is strictly newer than the whole stored history when
   * that history is sorted newest first.
   */
  lemma NewAdditionsNewer(history: seq<ActivityEntry>, recents: seq<Recent>)
    requires SortedDesc(history)
    ensures forall n, e :: n in NewAdditions(recents, Newest(history)) && e in history ==> n.date > e.date
  {
    NewAdditionsSpec(recents, Newest(history));
  }

  /** Every entry that goes into the merge is in its result. */
  lemma MergeKeeps(history: seq<ActivityEntry>, recents: seq<Recent>, e: ActivityEntry)
    requires e in history + ToEntries(NewAdditions(recents, Newest(history)))
    ensures e in Merge(history, recents)
  {
    var all := history + ToEntries(NewAdditions(recents, Newest(history)));
    SortDescSpec(all);
    assert e in multiset(all);
  }

  /**
   * After a merge, no reported transaction is newer than the merged
   * history's newest entry, and the merged history is empty only when
   * nothing was reported and nothing was stored.
   */
  lemma MergeNewestBound(history: seq<ActivityEntry>, recents: seq<Recent>)
    ensures Merge(history, recents) == [] ==> history == [] && recents == []
    ensures forall n :: n in recents ==> !IsNew(n, Newest(Merge(history, recents)))
  {
    if history != [] {
      MergeKeeps(history, recents, history[0]);
    }
    if recents != [] {
      RecentBelowHead(history, recents, recents[0]);
    }
    forall n | n in recents ensures !IsNew(n, Newest(Merge(history, recents))) {
      RecentBelowHead(history, recents, n);
    }
  }

  /** Every reported transaction is at most as new as the head of the merged history. */
  lemma RecentBelowHead(history: seq<ActivityEntry>, recents: seq<Recent>, n: Recent)
    requires n in recents
    ensures Merge(history, recents) != [] && n.date <= Merge(history, recents)[0].date
  {
    var added := NewAdditions(recents, Newest(history));
    var all := history + ToEntries(added);
    var h1 := Merge(history, recents);
    SortDescSpec(all);
    NewAdditionsSpec(recents, Newest(history));
    var e: ActivityEntry;
    if IsNew(n, Newest(history)) {
      var k :| 0 <= k < |added| && added[k] == n;
      assert ToEntries(added)[k] == ToEntry(n);
      assert all[|history| + k] == ToEntry(n);
      e := ToEntry(n);
    } else {
      assert all[0] == history[0];
      e := history[0];
    }
    assert e.date >= n.date;
    MergeKeeps(history, recents, e);
    var j :| 0 <= j < |h1| && h1[j] == e;
  }

  lemma {:induction false} NoNewAdditions(recents: seq<Recent>, newest: Option<int>)
    requires forall n :: n in recents ==> !IsNew(n, newest)
    ensures NewAdditions(recents, newest) == []
  {
    if recents != [] {
      NoNewAdditions(recents[1..], newest);
    }
  }

  /**
   * Running the merge again with the same recent transactions adds nothing:
   * after one run every reported transaction is at most as new as the
   * newest stored entry.
   */
  lemma MergeIdempotent(history: seq<ActivityEntry>, recents: seq<Recent>)
    ensures Merge(Merge(history, recents), recents) == Merge(history, recents)
  {
    var h1 := Merge(history, recents);
    MergeNewestBound(history, recents);
    NoNewAdditions(recents, Newest(h1));
    assert h1 + ToEntries([]) == h1;
    SortDescSpec(history + ToEntries(NewAdditions(recents, Newest(history))));
    SortDescOfSorted(h1);
  }
}
