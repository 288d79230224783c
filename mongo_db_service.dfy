/**
 * MongoDBService: the Users and Scores collections and the operations the
 * controllers and ScoreService call on them. The database is a sequential
 * store: each collection is a sequence of documents that the mutating
 * methods replace. A driver failure is the input `storeFails`; a failed
 * write leaves the collection as it was.
 */
module MongoDb {
  import opened Wrappers
  import opened Http
  import opened Scores
  import opened Users

  class MongoDBService {
    var users: seq<User>
    /** The Id the next inserted user receives (MongoDB generates a fresh ObjectId). */
    var nextUserId: nat
    var scores: seq<Score>

    ghost predicate Valid()
      reads this
    {
      && UniqueIds(users)
      && (forall i :: 0 <= i < |users| ==> users[i].id < nextUserId)
      && UniqueKeys(scores)
    }

    constructor ()
      ensures Valid() && users == [] && scores == []
    {
      users, nextUserId, scores := [], 0, [];
    }

    // -------------------------------------------------------------------------
    // Users

    /** GetUserByNameAsync: the first user with that Name, or null. */
    function GetUserByName(name: string): (r: Option<User>)
      reads this
      ensures r.None? <==> forall i :: 0 <= i < |users| ==> users[i].name != name
      ensures r.Some? ==> r.value in users && r.value.name == name
    {
      FindByName(users, name)
    }

    /** GetUserByIdAsync; the path parameter is already an Id. */
    function GetUserById(id: nat): (r: Option<User>)
      reads this
      ensures r.None? <==> forall i :: 0 <= i < |users| ==> users[i].id != id
      ensures r.Some? ==> r.value in users && r.value.id == id
    {
      FindById(users, id)
    }

    /** AddUserAsync: inserts the user under a freshly generated Id and returns that Id. */
    method AddUser(name: string, email: string, password: string, phoneNumber: string) returns (id: nat)
      requires Valid()
      modifies this
      ensures Valid()
      ensures id == old(nextUserId) && FindById(old(users), id).None?
      ensures users == old(users) + [User(id, name, email, phoneNumber, password)]
      ensures scores == old(scores)
    {
      id := nextUserId;
      users := users + [User(id, name, email, phoneNumber, password)];
      nextUserId := nextUserId + 1;
    }

    /** UpdateUserAsync: the stored user with `updated`'s Id is replaced by `updated`. */
    method UpdateUser(updated: User)
      requires Valid()
      modifies this
      ensures Valid()
      ensures users == ReplaceById(old(users), updated)
      ensures nextUserId == old(nextUserId) && scores == old(scores)
    {
      ReplaceByIdKeepsUniqueIds(users, updated);
      users := ReplaceById(users, updated);
    }

    /** DeleteUserAsync: the user with that Id is removed. */
    method DeleteUser(id: nat)
      requires Valid()
      modifies this
      ensures Valid()
      ensures users == RemoveById(old(users), id)
      ensures nextUserId == old(nextUserId) && scores == old(scores)
    {
      RemoveByIdRemovesOnlyThatUser(users, id);
      users := RemoveById(users, id);
    }

    // -------------------------------------------------------------------------
    // Scores

    /**
     * GetHighestScoreAsync: the user's largest Points over all dates, or null;
     * a driver failure is rethrown as InvalidOperationException.
     */
    function GetHighestScore(username: string, storeFails: bool): (r: Result<Option<int>, Exception>)
      reads this
      ensures storeFails <==> r == Failure(InvalidOperation("Error retrieving highest score"))
      ensures !storeFails ==> r == Success(HighestPoints(scores, username))
      ensures r.Success? && r.value.Some? ==>
        (exists i :: 0 <= i < |scores| && scores[i].username == username && scores[i].points == r.value.value)
        && forall i :: 0 <= i < |scores| && scores[i].username == username ==> scores[i].points <= r.value.value
      ensures r.Success? && r.value.None? <==> !storeFails && forall i :: 0 <= i < |scores| ==> scores[i].username != username
    {
      if storeFails then Failure(InvalidOperation("Error retrieving highest score"))
      else Success(HighestPoints(scores, username))
    }

    /**
     * SubmitScoreAsync: a null score throws ArgumentNullException; otherwise the
     * collection is upserted on (Username, Date), replacing any earlier record
     * for that key whatever its Points.
     */
    method SubmitScore(score: Option<Score>, storeFails: bool) returns (r: Outcome<Exception>)
      requires Valid()
      modifies this
      ensures Valid() && users == old(users) && nextUserId == old(nextUserId)
      ensures score.None? ==> r == Fail(ArgumentNull("score", "Score cannot be null.")) && scores == old(scores)
      ensures score.Some? && storeFails ==> r == Fail(InvalidOperation("Error submitting score")) && scores == old(scores)
      ensures score.Some? && !storeFails ==> r == Pass && scores == Upsert(old(scores), score.value)
    {
      if score.None? {
        return Fail(ArgumentNull("score", "Score cannot be null."));
      }
      if storeFails {
        return Fail(InvalidOperation("Error submitting score"));
      }
      UpsertKeepsUniqueKeys(scores, score.value);
      scores := Upsert(scores, score.value);
      r := Pass;
    }

    /**
     * GetLeaderboardAsync of this class (not the one the application registers):
     * Points descending, then Date ascending, limited by `top` as the driver
     * reads `.Limit(top)`; there is no guard on `top`.
     */
    function GetLeaderboard(top: int, storeFails: bool): (r: Result<seq<LeaderboardEntry>, Exception>)
      reads this
      ensures storeFails <==> r == Failure(InvalidOperation("Error fetching leaderboard"))
      ensures !storeFails ==> r == Success(Leaderboard(scores, LimitCount(top, |scores|), true))
      ensures r.Success? ==> |r.value| == LimitCount(top, |scores|)
      ensures r.Success? && top > 0 ==> |r.value| == Min(top, |scores|)
      ensures r.Success? ==> forall i, j :: 0 <= i < j < |r.value| ==>
        r.value[i].points > r.value[j].points
        || (r.value[i].points == r.value[j].points && NotLater(r.value[i].date, r.value[j].date))
    {
      if storeFails then Failure(InvalidOperation("Error fetching leaderboard"))
      else
        Success(Leaderboard(scores, LimitCount(top, |scores|), true))
    }
  }
}
