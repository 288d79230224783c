/**
 * The rules of the Scores collection, on values: the upsert keyed by
 * (Username, Date), the "highest score" query and the two leaderboard orders.
 * The services in score_service.dfy and mongo_db_service.dfy apply these to
 * the collection they hold.
 */
module Scores {
  import opened Wrappers

  /** A .NET `DateTime`: a day number and the second within that day. */
  datatype DateTime = DateTime(day: int, second: int)

  /** `DateTime.Date`: the same calendar day with the time of day dropped. */
  function DateOnly(d: DateTime): (r: DateTime)
    ensures r.day == d.day && r.second == 0
  {
    DateTime(d.day, 0)
  }

  /** Two instants truncate to the same date exactly when they fall on the same day. */
  lemma SameCalendarDay(a: DateTime, b: DateTime)
    ensures DateOnly(a) == DateOnly(b) <==> a.day == b.day
  {
  }

  /** `a` is not later than `b`: the ascending order of `ThenBy(s => s.Date)`. */
  predicate NotLater(a: DateTime, b: DateTime) {
    a.day < b.day || (a.day == b.day && a.second <= b.second)
  }

  /** A document of the Scores collection; its `_id` is not part of the model. */
  datatype Score = Score(username: string, points: int, date: DateTime)

  /** The upsert filter `Username == s.Username & Date == s.Date`. */
  datatype Key = Key(username: string, date: DateTime)

  function KeyOf(s: Score): Key {
    Key(s.username, s.date)
  }

  datatype LeaderboardEntry = LeaderboardEntry(username: string, points: int, date: DateTime)

  function Min(a: int, b: int): int {
    if a <= b then a else b
  }

  // ---------------------------------------------------------------------------
  // The upsert

  /** The documents that the filter for key `k` selects, in collection order. */
  function WithKey(docs: seq<Score>, k: Key): seq<Score> {
    if docs == [] then []
    else (if KeyOf(docs[0]) == k then [docs[0]] else []) + WithKey(docs[1..], k)
  }

  /** At most one document per (Username, Date). */
  ghost predicate UniqueKeys(docs: seq<Score>) {
    forall k :: |WithKey(docs, k)| <= 1
  }

  /**
   * `ReplaceOneAsync(filter, s, new ReplaceOptions { IsUpsert = true })`: the
   * first document with `s`'s key is replaced by `s`, or `s` is appended when
   * there is none. Old and new Points are never compared.
   */
  function Upsert(docs: seq<Score>, s: Score): (r: seq<Score>)
    ensures s in r
    ensures forall d :: d in r ==> d == s || d in docs
    ensures |r| == |docs| + 1 <==> forall i :: 0 <= i < |docs| ==> KeyOf(docs[i]) != KeyOf(s)
    ensures |r| == |docs| || |r| == |docs| + 1
  {
    if docs == [] then [s]
    else if KeyOf(docs[0]) == KeyOf(s) then [s] + docs[1..]
    else [docs[0]] + Upsert(docs[1..], s)
  }

  /** After the upsert the filter for `s`'s key selects exactly one document: `s`. */
  lemma {:induction false} UpsertStoresExactlyOne(docs: seq<Score>, s: Score)
    requires UniqueKeys(docs)
    ensures WithKey(Upsert(docs, s), KeyOf(s)) == [s]
  {
    var k := KeyOf(s);
    if docs == [] {
      assert WithKey([s], k) == [s] + WithKey([], k);
    } else {
      assert |WithKey(docs, k)| <= 1;
      if KeyOf(docs[0]) == k {
        assert |WithKey(docs[1..], k)| == 0;
        assert ([s] + docs[1..])[1..] == docs[1..];
      } else {
        forall k' ensures |WithKey(docs[1..], k')| <= 1 {
          assert |WithKey(docs, k')| <= 1;
        }
        UpsertStoresExactlyOne(docs[1..], s);
        assert ([docs[0]] + Upsert(docs[1..], s))[1..] == Upsert(docs[1..], s);
      }
    }
  }

  /** The upsert leaves the documents of every other key as they were, in order. */
  lemma {:induction false} UpsertKeepsOtherKeys(docs: seq<Score>, s: Score, k: Key)
    requires k != KeyOf(s)
    ensures WithKey(Upsert(docs, s), k) == WithKey(docs, k)
  {
    if docs == [] {
      assert WithKey([s], k) == [] + WithKey([], k);
    } else if KeyOf(docs[0]) == KeyOf(s) {
      assert ([s] + docs[1..])[1..] == docs[1..];
    } else {
      UpsertKeepsOtherKeys(docs[1..], s, k);
      assert ([docs[0]] + Upsert(docs[1..], s))[1..] == Upsert(docs[1..], s);
    }
  }

  /** The upsert preserves "at most one document per (Username, Date)". */
  lemma UpsertKeepsUniqueKeys(docs: seq<Score>, s: Score)
    requires UniqueKeys(docs)
    ensures UniqueKeys(Upsert(docs, s))
  {
    forall k ensures |WithKey(Upsert(docs, s), k)| <= 1 {
      if k == KeyOf(s) {
        UpsertStoresExactlyOne(docs, s);
      } else {
        UpsertKeepsOtherKeys(docs, s, k);
        assert |WithKey(docs, k)| <= 1;
      }
    }
  }

  /** Two submissions for one key: the second wins, whatever the Points. */
  lemma {:induction false} LastWriteWins(docs: seq<Score>, s1: Score, s2: Score)
    requires KeyOf(s1) == KeyOf(s2)
    ensures Upsert(Upsert(docs, s1), s2) == Upsert(docs, s2)
  {
    if docs == [] {
    } else if KeyOf(docs[0]) == KeyOf(s1) {
      assert ([s1] + docs[1..])[0] == s1;
      assert ([s1] + docs[1..])[1..] == docs[1..];
    } else {
      var once := Upsert(docs[1..], s1);
      assert ([docs[0]] + once)[0] == docs[0];
      assert ([docs[0]] + once)[1..] == once;
      LastWriteWins(docs[1..], s1, s2);
    }
  }

  /** Submitting the same score twice leaves the collection as submitting it once. */
  lemma UpsertIdempotent(docs: seq<Score>, s: Score)
    ensures Upsert(Upsert(docs, s), s) == Upsert(docs, s)
  {
    LastWriteWins(docs, s, s);
  }

  /** A lower score submitted later for the same user and day replaces a higher one. */
  lemma LowerScoreOverwrites(docs: seq<Score>, high: Score, low: Score)
    requires UniqueKeys(docs)
    requires KeyOf(high) == KeyOf(low) && low.points < high.points
    ensures WithKey(Upsert(Upsert(docs, high), low), KeyOf(high)) == [low]
  {
    LastWriteWins(docs, high, low);
    UpsertStoresExactlyOne(docs, low);
  }

  // ---------------------------------------------------------------------------
  // Highest score

  /**
   * `Find(score => score.Username == username).SortByDescending(Points).FirstOrDefault()?.Points`:
   * the largest Points among the user's documents, over all dates, or None.
   */
  function HighestPoints(docs: seq<Score>, username: string): (r: Option<int>)
    ensures r.None? <==> forall i :: 0 <= i < |docs| ==> docs[i].username != username
    ensures r.Some? ==> exists i :: 0 <= i < |docs| && docs[i].username == username && docs[i].points == r.value
    ensures r.Some? ==> forall i :: 0 <= i < |docs| && docs[i].username == username ==> docs[i].points <= r.value
  {
    if docs == [] then None
    else
      var rest := HighestPoints(docs[1..], username);
      assert forall i :: 1 <= i < |docs| ==> docs[i] == docs[1..][i - 1];
      if docs[0].username != username then rest
      else if rest.Some? && rest.value > docs[0].points then rest
      else Some(docs[0].points)
  }

  /** The scenario: 80 then 95 for alice on one day; her highest score is 95. */
  lemma SecondSubmissionSameDayIsHighest(day: DateTime)
    ensures HighestPoints(Upsert(Upsert([], Score("alice", 80, day)), Score("alice", 95, day)), "alice") == Some(95)
  {
    LastWriteWins([], Score("alice", 80, day), Score("alice", 95, day));
    assert Upsert([], Score("alice", 95, day)) == [Score("alice", 95, day)];
  }

  // ---------------------------------------------------------------------------
  // Leaderboard

  /**
   * `a` may be listed before `b`: more Points first and, when `byDate` holds
   * (the `ThenBy(s => s.Date)` of MongoDBService), equal Points by earlier Date.
   */
  predicate Outranks(a: Score, b: Score, byDate: bool) {
    a.points > b.points || (a.points == b.points && (!byDate || NotLater(a.date, b.date)))
  }

  ghost predicate Ranked(s: seq<Score>, byDate: bool) {
    forall i, j :: 0 <= i < j < |s| ==> Outranks(s[i], s[j], byDate)
  }

  /** Prepending `h` keeps a ranked sequence ranked when `h` outranks all of it. */
  lemma RankedCons(h: Score, rest: seq<Score>, byDate: bool)
    requires Ranked(rest, byDate)
    requires forall y :: y in rest ==> Outranks(h, y, byDate)
    ensures Ranked([h] + rest, byDate)
  {
    forall i, j | 0 <= i < j < |[h] + rest| ensures Outranks(([h] + rest)[i], ([h] + rest)[j], byDate) {
      if i == 0 {
        assert ([h] + rest)[j] == rest[j - 1];
      } else {
        assert ([h] + rest)[i] == rest[i - 1] && ([h] + rest)[j] == rest[j - 1];
      }
    }
  }

  /** The head of a ranked sequence outranks everything in its tail. */
  lemma HeadOutranksTail(sorted: seq<Score>, byDate: bool)
    requires Ranked(sorted, byDate) && sorted != []
    ensures Ranked(sorted[1..], byDate)
    ensures forall y :: y in sorted[1..] ==> Outranks(sorted[0], y, byDate)
  {
    forall y | y in sorted[1..] ensures Outranks(sorted[0], y, byDate) {
      var j :| 0 <= j < |sorted[1..]| && sorted[1..][j] == y;
      assert sorted[j + 1] == y;
    }
  }

  /** What `h` outranks, it still outranks after `x` (which it also outranks) is added. */
  lemma OutranksAfterAdding(h: Score, x: Score, tail: seq<Score>, rest: seq<Score>, byDate: bool)
    requires forall y :: y in tail ==> Outranks(h, y, byDate)
    requires Outranks(h, x, byDate)
    requires multiset(rest) == multiset(tail) + multiset{x}
    ensures forall y :: y in rest ==> Outranks(h, y, byDate)
  {
    forall y | y in rest ensures Outranks(h, y, byDate) {
      assert y in multiset(rest);
      if y != x {
        assert y in multiset(tail);
      }
    }
  }

  function Insert(x: Score, sorted: seq<Score>, byDate: bool): (r: seq<Score>)
    requires Ranked(sorted, byDate)
    ensures Ranked(r, byDate)
    ensures multiset(r) == multiset(sorted) + multiset{x}
  {
    if sorted == [] then [x]
    else if Outranks(x, sorted[0], byDate) then
      RankedCons(x, sorted, byDate);
      [x] + sorted
    else
      HeadOutranksTail(sorted, byDate);
      var rest := Insert(x, sorted[1..], byDate);
      OutranksAfterAdding(sorted[0], x, sorted[1..], rest, byDate);
      RankedCons(sorted[0], rest, byDate);
      assert sorted == [sorted[0]] + sorted[1..];
      [sorted[0]] + rest
  }

  /**
   * The documents in leaderboard order. Documents that tie keep their
   * collection order; the driver leaves that order unspecified.
   */
  function SortBy(docs: seq<Score>, byDate: bool): (r: seq<Score>)
    ensures Ranked(r, byDate)
    ensures multiset(r) == multiset(docs)
  {
    if docs == [] then []
    else
      assert docs == [docs[0]] + docs[1..];
      Insert(docs[0], SortBy(docs[1..], byDate), byDate)
  }

  /**
   * `.Limit(top)`: the number of documents returned. A limit of 0 means no
   * limit and a negative one is read as its absolute value.
   */
  function LimitCount(top: int, available: nat): (n: nat)
    ensures n <= available
    ensures top > 0 ==> n == Min(top, available)
  {
    if top == 0 then available
    else if top > 0 then Min(top, available)
    else Min(-top, available)
  }

  /** Splitting a ranked sequence: every element after the cut ranks no higher than each before it. */
  lemma RankedSplit(sorted: seq<Score>, n: nat, byDate: bool)
    requires Ranked(sorted, byDate) && n <= |sorted|
    ensures Ranked(sorted[..n], byDate)
    ensures multiset(sorted[..n]) <= multiset(sorted)
    ensures multiset(sorted) - multiset(sorted[..n]) == multiset(sorted[n..])
    ensures forall x, i :: x in multiset(sorted[n..]) && 0 <= i < n ==> Outranks(sorted[i], x, byDate)
  {
    assert sorted == sorted[..n] + sorted[n..];
    forall x, i | x in multiset(sorted[n..]) && 0 <= i < n
      ensures Outranks(sorted[i], x, byDate)
    {
      var j :| 0 <= j < |sorted[n..]| && sorted[n..][j] == x;
      assert sorted[n + j] == x;
    }
  }

  /**
   * The first `n` documents in leaderboard order. They are a sub-multiset of
   * the collection, ranked, and every document left out ranks no higher than
   * each one returned.
   */
  function TopScores(docs: seq<Score>, n: nat, byDate: bool): (r: seq<Score>)
    requires n <= |docs|
    ensures |r| == n
    ensures Ranked(r, byDate)
    ensures multiset(r) <= multiset(docs)
    ensures forall x, i :: x in multiset(docs) - multiset(r) && 0 <= i < |r| ==> Outranks(r[i], x, byDate)
  {
    var sorted := SortBy(docs, byDate);
    PermutationSameLength(sorted, docs);
    RankedSplit(sorted, n, byDate);
    sorted[..n]
  }

  lemma PermutationSameLength(a: seq<Score>, b: seq<Score>)
    requires multiset(a) == multiset(b)
    ensures |a| == |b|
  {
    assert |a| == |multiset(a)|;
  }

  function ToEntry(s: Score): LeaderboardEntry {
    LeaderboardEntry(s.username, s.points, s.date)
  }

  /** The projection of `ConvertAll` / `Select`: Username, Points and Date copied. */
  function Entries(docs: seq<Score>): (r: seq<LeaderboardEntry>)
    ensures |r| == |docs|
    ensures forall i :: 0 <= i < |docs| ==> r[i].username == docs[i].username && r[i].points == docs[i].points && r[i].date == docs[i].date
  {
    seq(|docs|, i requires 0 <= i < |docs| => ToEntry(docs[i]))
  }

  /**
   * `t` is a possible answer of "the first |t| documents in leaderboard
   * order": drawn from `docs` without repetition beyond their own, ranked,
   * and each ranking at least as high as every document left out.
   */
  ghost predicate TopOf(docs: seq<Score>, t: seq<Score>, byDate: bool) {
    && multiset(t) <= multiset(docs)
    && Ranked(t, byDate)
    && forall x, i :: x in multiset(docs) - multiset(t) && 0 <= i < |t| ==> Outranks(t[i], x, byDate)
  }

  /**
   * The leaderboard of `n` entries: each entry copies a stored document, the
   * entries are in leaderboard order, and no document left out ranks above
   * the last entry (LeaderboardIsTop states exactly which entries these are).
   */
  function Leaderboard(docs: seq<Score>, n: nat, byDate: bool): (r: seq<LeaderboardEntry>)
    requires n <= |docs|
    ensures |r| == n
    ensures forall i :: 0 <= i < n ==> exists d :: d in docs && ToEntry(d) == r[i]
    ensures forall i, j :: 0 <= i < j < n ==>
      r[i].points > r[j].points || (r[i].points == r[j].points && (!byDate || NotLater(r[i].date, r[j].date)))
    ensures n > 0 ==> forall d :: d in multiset(docs) - multiset(TopScores(docs, n, byDate)) ==> d.points <= r[n - 1].points
    ensures forall d, i :: d in docs && ToEntry(d) !in r && 0 <= i < n ==> d.points <= r[i].points
  {
    var top := TopScores(docs, n, byDate);
    EntriesCopyStored(docs, top);
    EntriesKeepOrder(top, byDate);
    OmittedRankLower(docs, top, byDate);
    Entries(top)
  }

  /**
   * The leaderboard is the entries of a top of the collection: `n` stored
   * documents, none used more often than it is stored, in leaderboard order,
   * each ranking at least as high (Date tie-break included) as every
   * document left out.
   */
  lemma LeaderboardIsTop(docs: seq<Score>, n: nat, byDate: bool)
    requires n <= |docs|
    ensures exists t :: |t| == n && TopOf(docs, t, byDate) && Leaderboard(docs, n, byDate) == Entries(t)
  {
    var top := TopScores(docs, n, byDate);
    assert TopOf(docs, top, byDate);
  }

  /** A document whose entry is not among the entries of a top ranks no higher than any of them. */
  lemma OmittedRankLower(docs: seq<Score>, top: seq<Score>, byDate: bool)
    requires |top| <= |docs| && TopOf(docs, top, byDate)
    ensures forall d, i :: d in docs && ToEntry(d) !in Entries(top) && 0 <= i < |top| ==> d.points <= Entries(top)[i].points
  {
    var r := Entries(top);
    forall d, i | d in docs && ToEntry(d) !in r && 0 <= i < |top| ensures d.points <= r[i].points {
      assert d in multiset(docs) - multiset(top);
      assert Outranks(top[i], d, byDate);
    }
  }

  /** Entries of documents drawn from `docs` each copy a document of `docs`. */
  lemma EntriesCopyStored(docs: seq<Score>, top: seq<Score>)
    requires multiset(top) <= multiset(docs)
    ensures forall i :: 0 <= i < |top| ==> top[i] in docs && Entries(top)[i] == ToEntry(top[i])
  {
    forall i | 0 <= i < |top| ensures top[i] in docs {
      assert top[i] in multiset(top);
    }
  }

  /** Entries of a ranked sequence are in the same order. */
  lemma EntriesKeepOrder(top: seq<Score>, byDate: bool)
    requires Ranked(top, byDate)
    ensures var r := Entries(top);
      forall i, j :: 0 <= i < j < |r| ==>
        r[i].points > r[j].points || (r[i].points == r[j].points && (!byDate || NotLater(r[i].date, r[j].date)))
  {
    var r := Entries(top);
    forall i, j | 0 <= i < j < |r|
      ensures r[i].points > r[j].points || (r[i].points == r[j].points && (!byDate || NotLater(r[i].date, r[j].date)))
    {
      assert Outranks(top[i], top[j], byDate);
    }
  }
}
