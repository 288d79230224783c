/**
 * GameController: the score endpoints. Each action validates its input,
 * checks the authenticated name (`User.Identity?.Name`, given here as
 * `identity`) where it needs one, calls the registered ScoreService and maps
 * the outcome to an HTTP result.
 */
module GameApi {
  import opened Wrappers
  import opened Http
  import opened Scores
  import opened MongoDb
  import opened ScoreServices

  datatype ScoreSubmitRequest = ScoreSubmitRequest(username: Option<string>, points: int, date: DateTime)

  /** The body `new { Username = username, HighestScore = highestScore }`. */
  datatype HighestScoreBody = HighestScoreBody(username: Option<string>, highestScore: int)

  const DefaultTop := 10

  class GameController {
    const service: ScoreService

    constructor (service: ScoreService)
      ensures this.service == service
    {
      this.service := service;
    }

    /**
     * POST submit-score. Input checks come first, then the identity check;
     * neither touches the store. The stored Date is the request's with the
     * time of day dropped.
     */
    method SubmitScore(identity: Option<string>, request: ScoreSubmitRequest, storeFails: bool)
      returns (r: ActionResult<string>)
      requires service.db.Valid()
      modifies service.db
      ensures service.db.Valid() && service.db.users == old(service.db.users)
      ensures IsNullOrEmpty(request.username) || request.points < 0 ==>
        r == BadRequest("Invalid input data.") && service.db.scores == old(service.db.scores)
      ensures !IsNullOrEmpty(request.username) && request.points >= 0 && identity != request.username ==>
        r == Unauthorized("Username does not match authenticated user.") && service.db.scores == old(service.db.scores)
      ensures !IsNullOrEmpty(request.username) && request.points >= 0 && identity == request.username && storeFails ==>
        r == BadRequest("Error submitting score: " + "Error submitting score") && service.db.scores == old(service.db.scores)
      ensures !IsNullOrEmpty(request.username) && request.points >= 0 && identity == request.username && !storeFails ==>
        r == Ok("Score submitted successfully.")
        && service.db.scores == Upsert(old(service.db.scores), Score(request.username.value, request.points, DateOnly(request.date)))
    {
      if IsNullOrEmpty(request.username) || request.points < 0 {
        return BadRequest("Invalid input data.");
      }
      if identity != request.username {
        return Unauthorized("Username does not match authenticated user.");
      }
      var newScore := Score(request.username.value, request.points, DateOnly(request.date));
      var outcome := service.SubmitScore(Some(newScore), storeFails);
      match outcome {
        case Pass => r := Ok("Score submitted successfully.");
        case Fail(e) => r := BadRequest("Error submitting score: " + e.Message());
      }
    }

    /**
     * GET leaderboard?top=n (n defaults to 10): BadRequest for n <= 0 before
     * the store is read, NotFound for an empty result, otherwise Ok.
     */
    function GetLeaderboard(top: Option<int>, storeFails: bool): (r: ActionResult<seq<LeaderboardEntry>>)
      reads service, service.db
      ensures top.GetOr(DefaultTop) <= 0 <==> r == BadRequest("Invalid number of leaderboard entries.")
      ensures top.GetOr(DefaultTop) > 0 && storeFails ==> r == BadRequest("Error fetching leaderboard: " + "Error fetching leaderboard")
      ensures top.GetOr(DefaultTop) > 0 && !storeFails && service.db.scores == [] ==> r == NotFound("No scores found.")
      ensures top.GetOr(DefaultTop) > 0 && !storeFails && service.db.scores != [] ==>
        r == Ok(Leaderboard(service.db.scores, Min(top.GetOr(DefaultTop), |service.db.scores|), false))
      ensures r.Ok? ==> 0 < |r.body| <= top.GetOr(DefaultTop) && |r.body| == Min(top.GetOr(DefaultTop), |service.db.scores|)
      ensures r.Ok? ==> forall i, j :: 0 <= i < j < |r.body| ==> r.body[i].points >= r.body[j].points
    {
      var n := top.GetOr(DefaultTop);
      if n <= 0 then BadRequest("Invalid number of leaderboard entries.")
      else
        match service.GetLeaderboard(n, storeFails)
        case Failure(e) => BadRequest("Error fetching leaderboard: " + e.Message())
        case Success(entries) =>
          if |entries| == 0 then NotFound("No scores found.") else Ok(entries)
    }

    /**
     * GET get-highest-score: only the authenticated name is queried. No record
     * gives NotFound; any exception (including the one for a missing name)
     * gives BadRequest.
     */
    function GetHighestScore(identity: Option<string>, storeFails: bool): (r: ActionResult<HighestScoreBody>)
      reads service, service.db
      ensures IsNullOrEmpty(identity) ==>
        r == BadRequest("Error retrieving highest score: " + Argument("username", "Username cannot be null or empty.").Message())
      ensures !IsNullOrEmpty(identity) && storeFails ==>
        r == BadRequest("Error retrieving highest score: " + "Error retrieving highest score")
      ensures !IsNullOrEmpty(identity) && !storeFails && (forall i :: 0 <= i < |service.db.scores| ==> service.db.scores[i].username != identity.value) ==>
        r == NotFound("No scores found for the user.")
      ensures !IsNullOrEmpty(identity) && !storeFails && (exists i :: 0 <= i < |service.db.scores| && service.db.scores[i].username == identity.value) ==>
        r == Ok(HighestScoreBody(identity, HighestPoints(service.db.scores, identity.value).value))
      ensures r.Ok? ==> (
        && r.body.username == identity && !IsNullOrEmpty(identity)
        && (exists i :: 0 <= i < |service.db.scores| && service.db.scores[i].username == identity.value && service.db.scores[i].points == r.body.highestScore)
        && forall i :: 0 <= i < |service.db.scores| && service.db.scores[i].username == identity.value ==> service.db.scores[i].points <= r.body.highestScore)
    {
      match service.GetHighestScore(identity, storeFails)
      case Failure(e) => BadRequest("Error retrieving highest score: " + e.Message())
      case Success(None) => NotFound("No scores found for the user.")
      case Success(Some(h)) => Ok(HighestScoreBody(identity, h))
    }
  }

  /**
   * Two submissions by one user on the same calendar day, at different times,
   * share one key: the second replaces the first.
   */
  lemma SameDaySubmissionsShareKey(docs: seq<Score>, a: ScoreSubmitRequest, b: ScoreSubmitRequest)
    requires a.username.Some? && a.username == b.username && a.date.day == b.date.day
    ensures var sa := Score(a.username.value, a.points, DateOnly(a.date));
            var sb := Score(b.username.value, b.points, DateOnly(b.date));
            Upsert(Upsert(docs, sa), sb) == Upsert(docs, sb)
  {
    LastWriteWins(docs, Score(a.username.value, a.points, DateOnly(a.date)), Score(b.username.value, b.points, DateOnly(b.date)));
  }
}
