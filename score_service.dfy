/**
 * ScoreService: the IScoreService implementation the application registers.
 * It guards its arguments before touching the store (those exceptions are not
 * wrapped), reads and writes the Scores collection of a MongoDBService, and
 * wraps any driver failure in InvalidOperationException.
 */
module ScoreServices {
  import opened Wrappers
  import opened Http
  import opened Scores
  import opened MongoDb

  class ScoreService {
    const db: MongoDBService

    constructor (db: MongoDBService)
      ensures this.db == db
    {
      this.db := db;
    }

    /**
     * SubmitScoreAsync: null throws ArgumentNullException; otherwise an
     * unconditional replace-or-insert on (Username, Date).
     */
    method SubmitScore(score: Option<Score>, storeFails: bool) returns (r: Outcome<Exception>)
      requires db.Valid()
      modifies db
      ensures db.Valid() && db.users == old(db.users) && db.nextUserId == old(db.nextUserId)
      ensures score.None? ==> r == Fail(ArgumentNull("score", "Score cannot be null.")) && db.scores == old(db.scores)
      ensures score.Some? && storeFails ==> r == Fail(InvalidOperation("Error submitting score")) && db.scores == old(db.scores)
      ensures score.Some? && !storeFails ==> r == Pass && db.scores == Upsert(old(db.scores), score.value)
    {
      if score.None? {
        return Fail(ArgumentNull("score", "Score cannot be null."));
      }
      if storeFails {
        return Fail(InvalidOperation("Error submitting score"));
      }
      UpsertKeepsUniqueKeys(db.scores, score.value);
      db.scores := Upsert(db.scores, score.value);
      r := Pass;
    }

    /**
     * GetHighestScoreAsync: a null or empty name throws ArgumentException
     * before the store is read; otherwise the largest Points among the user's
     * records, or null when there are none.
     */
    function GetHighestScore(username: Option<string>, storeFails: bool): (r: Result<Option<int>, Exception>)
      reads db
      ensures IsNullOrEmpty(username) ==> r == Failure(Argument("username", "Username cannot be null or empty."))
      ensures !IsNullOrEmpty(username) && storeFails ==> r == Failure(InvalidOperation("Error retrieving highest score"))
      ensures !IsNullOrEmpty(username) && !storeFails ==> r.Success?
      ensures r.Success? && r.value.None? ==> forall i :: 0 <= i < |db.scores| ==> db.scores[i].username != username.value
      ensures r.Success? && r.value.Some? ==>
        (exists i :: 0 <= i < |db.scores| && db.scores[i].username == username.value && db.scores[i].points == r.value.value)
        && forall i :: 0 <= i < |db.scores| && db.scores[i].username == username.value ==> db.scores[i].points <= r.value.value
    {
      if IsNullOrEmpty(username) then Failure(Argument("username", "Username cannot be null or empty."))
      else if storeFails then Failure(InvalidOperation("Error retrieving highest score"))
      else Success(HighestPoints(db.scores, username.value))
    }

    /**
     * GetLeaderboardAsync: `top <= 0` throws ArgumentOutOfRangeException before
     * the store is read; otherwise the first min(top, count) records by Points
     * descending, with no tie-break on Date.
     */
    function GetLeaderboard(top: int, storeFails: bool): (r: Result<seq<LeaderboardEntry>, Exception>)
      reads db
      ensures top <= 0 ==> r == Failure(ArgumentOutOfRange("top", "Top must be greater than zero."))
      ensures top > 0 && storeFails ==> r == Failure(InvalidOperation("Error fetching leaderboard"))
      ensures top > 0 && !storeFails ==> r == Success(Leaderboard(db.scores, Min(top, |db.scores|), false))
      ensures top > 0 && !storeFails ==> r.Success? && |r.value| == Min(top, |db.scores|)
      ensures r.Success? ==> forall i, j :: 0 <= i < j < |r.value| ==> r.value[i].points >= r.value[j].points
      ensures r.Success? ==> forall i :: 0 <= i < |r.value| ==> exists d :: d in db.scores && ToEntry(d) == r.value[i]
      ensures r.Success? && |r.value| > 0 ==>
        forall d :: d in multiset(db.scores) - multiset(TopScores(db.scores, |r.value|, false)) ==> d.points <= r.value[|r.value| - 1].points
    {
      if top <= 0 then Failure(ArgumentOutOfRange("top", "Top must be greater than zero."))
      else if storeFails then Failure(InvalidOperation("Error fetching leaderboard"))
      else
        var n := Min(top, |db.scores|);
        var entries := Leaderboard(db.scores, n, false);
        assert |entries| == n;
        Success(entries)
    }
  }
}
