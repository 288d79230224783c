# BananaGame scoring, ranking and account rules in Dafny

BananaGame is a quiz game. The React Native client shows a puzzle image with
a few candidate digits, the player taps one before a countdown runs out, and
the final score goes to an ASP.NET backend that keeps users and daily scores
in MongoDB and serves a leaderboard. This project models the parts of that
system that make decisions, and proves what they promise:

- **The round engine** (`game_screen.dfy`, module `GameRound`).
  - `GameRound.GameScreen` is a class whose fields are the screen's React
    state. Its methods are the events: a timer tick, an answer tap, the pause
    button, the delayed "next question" callback and the arrival of a question.
  - Each method is specified by a pure transition on `RoundState`, and the
    round's properties are lemmas about those transitions.
  - `GenerateOptions` is the option generator. It is a loop that appends unused
    digits, followed by an in-place shuffle of an array.
  - Three behaviours of GameScreen.jsx are modelled as written:
    - an unrecognised level is not an error: it gets 7 options, 30 points per
      correct answer and the 60-second default timer (GameScreen.jsx:8, 40-51,
      59-69, 97);
    - answering is not blocked while paused (GameScreen.jsx:113-116);
    - a wrong answer during play stays selected and shows no status
      (GameScreen.jsx:93-110).
- **The score store** (`scores.dfy`, `mongo_db_service.dfy`,
  `score_service.dfy`).
  - The upsert is keyed by (Username, Date). It also models the highest-score
    query and both leaderboard versions:
    - the registered `ScoreService` sorts by Points only;
    - the unused `MongoDBService` version adds a Date tie-break.
  - A driver failure is the boolean input `storeFails`.
- **The controllers** (`game_controller.dfy`, `auth_controller.dfy`).
  - `GameController` checks its input, then the authenticated name. It
    truncates a submitted date to its calendar day and maps service
    exceptions to BadRequest.
  - `AuthController` refuses a taken Name at signup and compares passwords at
    login. It answers BadRequest for a missing user id and NotFound for an
    unknown one.
  - `users.dfy` holds the user-collection rules.
- **The result screen** (`result_screen.dfy`). It models `formatDate` with a
  reader that inverts it, the "submit only after a 404" rule checked against
  `GameController.GetHighestScore`, and the level slogans.
- **The signup screen** (`signup_screen.dfy`). It models the ordered
  client-side checks, including the two regular expressions as string
  predicates, and the `error`/`isLoading` updates.

`wrappers.dfy` (Option, Result, Outcome) and `http.dfy` (action results and
.NET exception messages) are shared.

Network replies, storage contents, the current time and random draws are
inputs to the methods that use them.

## Model

| member | source | states |
|---|---|---|
| Scores.DateOnly | Backend/UserAuthApi/Controllers/GameController.cs:44 | `.Date` keeps the calendar day and drops the time of day |
| Scores.SameCalendarDay | Backend/UserAuthApi/Controllers/GameController.cs:44 | two instants truncate to the same Date exactly when they fall on the same day |
| Scores.Upsert | Backend/UserAuthApi/Services/MongoDBService.cs:108-115 | the submitted score is stored, every stored document is it or an old one, and the collection grows by one exactly when no document had its (Username, Date) |
| Scores.UpsertStoresExactlyOne | Backend/UserAuthApi/Services/MongoDBService.cs:107-115 | after submitting `s`, the documents with `s`'s (Username, Date) are exactly `[s]`, given at most one per key before |
| Scores.UpsertKeepsOtherKeys | Backend/UserAuthApi/Services/MongoDBService.cs:108-115 | the upsert leaves the documents of every other (Username, Date) unchanged and in order |
| Scores.UpsertKeepsUniqueKeys | Backend/UserAuthApi/Services/MongoDBService.cs:108-115 | "at most one document per (Username, Date)" is preserved by the upsert |
| Scores.LastWriteWins | Backend/UserAuthApi/Services/ScoreService.cs:29-37 | two submissions for one key leave the same collection as the second alone, whatever their Points |
| Scores.UpsertIdempotent | Backend/UserAuthApi/Services/MongoDBService.cs:108-115 | submitting the same score twice equals submitting it once |
| Scores.LowerScoreOverwrites | Backend/UserAuthApi/Services/MongoDBService.cs:97-115 | a later, lower score for the same user and day replaces the higher one, despite the comment promising "highest" |
| Scores.HighestPoints | Backend/UserAuthApi/Services/MongoDBService.cs:84-89 | None exactly when the user has no document; otherwise the Points of one of the user's documents, and no document of the user has more |
| Scores.SecondSubmissionSameDayIsHighest | Backend/UserAuthApi/Services/MongoDBService.cs:80-121 | 80 then 95 by one user on one day gives a highest score of 95 |
| Scores.Insert | Backend/UserAuthApi/Services/MongoDBService.cs:129-132 | inserting into a ranked sequence gives a ranked sequence with one more copy of the element |
| Scores.SortBy | Backend/UserAuthApi/Services/MongoDBService.cs:129-132 | the result is in leaderboard order (Points descending, then Date ascending when the tie-break is on) and is a permutation of the collection |
| Scores.LimitCount | Backend/UserAuthApi/Services/MongoDBService.cs:133 | `.Limit(top)` never returns more than the collection holds, and a positive `top` gives `min(top, count)` |
| Scores.RankedSplit | Backend/UserAuthApi/Services/MongoDBService.cs:129-134 | cutting a ranked sequence gives a ranked prefix, and everything after the cut ranks no higher than each element before it |
| Scores.TopScores | Backend/UserAuthApi/Services/MongoDBService.cs:129-134 | the first `n` in leaderboard order: `n` documents, ranked, drawn from the collection, each outranking every document left out |
| Scores.Entries | Backend/UserAuthApi/Services/MongoDBService.cs:137-142 | each entry copies Username, Points and Date of the document at the same position |
| Scores.Leaderboard | Backend/UserAuthApi/Services/ScoreService.cs:78-89 | `n` entries, each a copy of a stored document, in leaderboard order (Points descending, then Date ascending when the tie-break is on), and every stored document whose entry is not in the result has no more Points than any entry |
| Scores.LeaderboardIsTop | Backend/UserAuthApi/Services/MongoDBService.cs:129-142 | the leaderboard is exactly the entries of `n` stored documents, none used more often than it is stored, in leaderboard order, each ranking at least as high (Date tie-break included) as every document left out |
| Users.FindByName | Backend/UserAuthApi/Services/MongoDBService.cs:38-42 | None exactly when no user has that Name; otherwise the first user with that Name |
| Users.IndexOfId | Backend/UserAuthApi/Services/MongoDBService.cs:45-49 | the position of the first user with that Id, or the length when there is none |
| Users.FindById | Backend/UserAuthApi/Services/MongoDBService.cs:45-49 | None exactly when no user has that Id; otherwise a stored user with that Id |
| MongoDb.MongoDBService.GetUserByName | Backend/UserAuthApi/Services/MongoDBService.cs:38-42 | null exactly when no stored user has the Name; otherwise a stored user with that Name |
| MongoDb.MongoDBService.GetUserById | Backend/UserAuthApi/Services/MongoDBService.cs:45-49 | null exactly when no stored user has the Id; otherwise a stored user with that Id |
| Users.ReplaceById | Backend/UserAuthApi/Services/MongoDBService.cs:58-62 | with unique Ids, the user with `u`'s Id becomes `u` and every other user stays in place |
| Users.RemoveById | Backend/UserAuthApi/Services/MongoDBService.cs:65-69 | nothing changes when no user has that Id; otherwise one user with that Id is cut out and the rest keep their order |
| Users.RemoveByIdRemovesOnlyThatUser | Backend/UserAuthApi/Services/MongoDBService.cs:65-69 | with unique Ids, the deleted Id is gone, every other user remains, nothing new appears and Ids stay unique |
| Users.ReplaceByIdKeepsUniqueIds | Backend/UserAuthApi/Services/MongoDBService.cs:58-62 | replacing by Id keeps Ids unique |
| Users.AddingFreeNameKeepsNamesUnique | Backend/UserAuthApi/Controllers/AuthController.cs:32-47 | adding a user whose Name is not taken keeps Names unique |
| Users.ReplaceCanBreakUniqueNames | Backend/UserAuthApi/Controllers/AuthController.cs:91-97 | there is a collection with unique Names where an update by Id produces two users with one Name |
| MongoDb.MongoDBService.constructor | Backend/UserAuthApi/Services/MongoDBService.cs:23-26 | both collections start empty, and the store invariant holds |
| MongoDb.MongoDBService.AddUser | Backend/UserAuthApi/Services/MongoDBService.cs:52-55 | exactly one user is appended, under a fresh Id; scores are unchanged |
| MongoDb.MongoDBService.UpdateUser | Backend/UserAuthApi/Services/MongoDBService.cs:58-62 | the users become `ReplaceById(old users, updated)`; Ids stay unique |
| MongoDb.MongoDBService.DeleteUser | Backend/UserAuthApi/Services/MongoDBService.cs:65-69 | the users become `RemoveById(old users, id)`; Ids stay unique |
| MongoDb.MongoDBService.GetHighestScore | Backend/UserAuthApi/Services/MongoDBService.cs:80-95 | InvalidOperation("Error retrieving highest score") exactly when the store fails; otherwise exactly `HighestPoints`: the user's maximum Points over all dates, or null exactly when the user has no record |
| MongoDb.MongoDBService.SubmitScore | Backend/UserAuthApi/Services/MongoDBService.cs:98-121 | null gives ArgumentNull("score") and a failure gives InvalidOperation, both with the store unchanged; otherwise the scores become the upsert and keys stay unique |
| MongoDb.MongoDBService.GetLeaderboard | Backend/UserAuthApi/Services/MongoDBService.cs:124-148 | InvalidOperation("Error fetching leaderboard") exactly when the store fails; otherwise exactly the `Leaderboard` of the collection with the Date tie-break, of the `.Limit(top)` length (min(top, count) for positive top) |
| ScoreServices.ScoreService.SubmitScore | Backend/UserAuthApi/Services/ScoreService.cs:20-43 | null gives ArgumentNull("score") and a failure gives InvalidOperation("Error submitting score"), both with the store unchanged; otherwise the scores become the upsert and users are untouched |
| ScoreServices.ScoreService.GetHighestScore | Backend/UserAuthApi/Services/ScoreService.cs:46-66 | a null or empty name gives Argument("username") before the store is read; a failure gives InvalidOperation; otherwise the user's maximum Points or null |
| ScoreServices.ScoreService.GetLeaderboard | Backend/UserAuthApi/Services/ScoreService.cs:69-95 | `top <= 0` gives ArgumentOutOfRange("top") before the store is read; a failure gives InvalidOperation; otherwise exactly the `Leaderboard` of min(top, count) documents by Points only: stored documents, descending, none left out ranking higher |
| GameApi.GameController.SubmitScore | Backend/UserAuthApi/Controllers/GameController.cs:23-58 | BadRequest("Invalid input data."), then Unauthorized, then the service error as BadRequest, each leaving the store unchanged; otherwise Ok, with the request upserted under its calendar day |
| GameApi.GameController.GetLeaderboard | Backend/UserAuthApi/Controllers/GameController.cs:60-84 | top defaults to 10; BadRequest exactly when top <= 0; a failure is BadRequest with its message; NotFound exactly on an empty store; otherwise Ok with the `Leaderboard` of min(top, count) stored documents by Points descending |
| GameApi.GameController.GetHighestScore | Backend/UserAuthApi/Controllers/GameController.cs:86-106 | only the authenticated name is queried: a missing name or a failure gives BadRequest with the exception message; NotFound when the user has no record; when the user has one, Ok with that name and the maximum of the user's Points |
| GameApi.SameDaySubmissionsShareKey | Backend/UserAuthApi/Controllers/GameController.cs:39-45 | two submissions by one user on one calendar day share one key, so in the model, which has no `_id`, the second replaces the first |
| AuthApi.AuthController.Signup | Backend/UserAuthApi/Controllers/AuthController.cs:30-50 | a taken Name gives BadRequest with the store unchanged; otherwise exactly one user with the request's fields is added and unique Names are kept |
| AuthApi.AuthController.Login | Backend/UserAuthApi/Controllers/AuthController.cs:54-72 | Unauthorized("Invalid credentials.") exactly when no user has the Name or the first such user's Password differs; otherwise Ok carrying the Id and Name of that first user |
| AuthApi.AuthController.UpdateProfile | Backend/UserAuthApi/Controllers/AuthController.cs:77-100 | no id gives BadRequest, an unknown id NotFound, both with the store unchanged; otherwise all four fields are overwritten by Id, with no Name check |
| AuthApi.AuthController.DeleteProfile | Backend/UserAuthApi/Controllers/AuthController.cs:105-122 | no id gives BadRequest and an unknown id NotFound; otherwise only that user is removed |
| AuthApi.AuthController.GetUserProfile | Backend/UserAuthApi/Controllers/AuthController.cs:126-149 | no id gives BadRequest, an unknown id NotFound; a stored id gives Ok with that user's Id, Name, Email and PhoneNumber and no Password |
| GameRound.InitialTimer | src/screen/GameScreen.jsx:8 | the starting timer is positive, and any level other than the three named keeps the default 60 |
| GameRound.UnusedDigitExists | src/screen/GameScreen.jsx:44-49 | while fewer than ten values have been drawn, some digit 0..9 is still unused, so the drawing loop can always progress |
| GameRound.ShuffleArray | src/screen/GameScreen.jsx:54-56 | the shuffle permutes the array in place |
| GameRound.GenerateOptions | src/screen/GameScreen.jsx:40-51 | 4 options for 'Easy', 6 for 'Medium' and 7 otherwise; no duplicates; the correct answer exactly once; every other option a digit 0..9 |
| GameRound.StartSatisfiesInv | src/screen/GameScreen.jsx:59-69 | after mounting the timer is 60/50/30 for Easy/Medium/Hard and 60 otherwise, and the round invariant holds |
| GameRound.AnswerEffect | src/screen/GameScreen.jsx:93-110 | the score grows by the level's points exactly when the selection matches the correct answer; timer, pause, round end, question and options are untouched; the state changes only on a match or once the round is over |
| GameRound.AfterTick | src/screen/GameScreen.jsx:72-89 | the timer drops by one exactly while the round runs; the round is over afterwards exactly when it was over or the timer was at 1; a tick outside a running round changes nothing |
| GameRound.GameOverHandoff | src/screen/GameScreen.jsx:83-90 | (score, level) is handed on exactly on the tick that ends the round, with the score of the render before it |
| GameRound.AfterSelect | src/screen/GameScreen.jsx:113-116 | once the round is over a tap changes nothing; during play the tapped option becomes the selection; timer, pause and correct answer stay |
| GameRound.AfterAdvance | src/screen/GameScreen.jsx:100-104 | the delayed callback clears the selection, removes itself from the pending callbacks and sends a request exactly when it captured a running round; score and timer stay |
| GameRound.AfterQuestion | src/screen/GameScreen.jsx:19-37 | one request is answered; a malformed reply or a network error changes nothing else; a well-formed one installs its image, its solution as the correct answer and the given options |
| GameRound.AnswerEffectKeepsInv | src/screen/GameScreen.jsx:93-110 | the answer effect keeps the round invariant |
| GameRound.SettleKeepsInv | src/screen/GameScreen.jsx:93-110 | running the effect only when its dependencies change also keeps it |
| GameRound.TickCountsDown | src/screen/GameScreen.jsx:72-89 | a tick lowers the timer by exactly 1 while running and does nothing otherwise; the timer stays >= 0; the round ends exactly when it reaches 0, and (score, level) is handed on exactly then |
| GameRound.SelectionIgnoredWhenOver | src/screen/GameScreen.jsx:113-116 | once the round is over a tap changes nothing |
| GameRound.WrongSelectionChangesOnlySelection | src/screen/GameScreen.jsx:93-116 | a wrong tap during play changes `selectedAnswer` and nothing else |
| GameRound.CorrectSelectionAwards | src/screen/GameScreen.jsx:94-104 | a new correct tap during play, paused or not, adds exactly 10/20/30 points, shows 'Correct!' and schedules one next-question callback; question and timer stay |
| GameRound.RepeatedSelectionChangesNothing | src/screen/GameScreen.jsx:110-116 | tapping the option already selected changes nothing, because the effect's dependencies did not change |
| GameRound.TogglePauseFlips | src/screen/GameScreen.jsx:119-124 | the pause button flips `paused`, keeps the invariant, and a second press restores the state |
| GameRound.IncorrectOnlyWhenOver | src/screen/GameScreen.jsx:94-108 | the effect shows 'Incorrect!' only when the round is over, and then clears the selection |
| GameRound.IncorrectBranchSettles | src/screen/GameScreen.jsx:105-108 | the effect re-run caused by clearing the selection changes nothing more |
| GameRound.AdvanceClearsAndFetches | src/screen/GameScreen.jsx:100-104 | during play the delayed callback clears the status and the selection and sends one new question request; score and timer stay |
| GameRound.AdvanceAfterOverSendsNothing | src/screen/GameScreen.jsx:20 | a callback that captured `gameOver` as true sends no request |
| GameRound.AdvanceKeepsInv | src/screen/GameScreen.jsx:100-104 | the delayed callback keeps the round invariant |
| GameRound.MalformedReplyIgnored | src/screen/GameScreen.jsx:26-36 | a reply without question or solution, or a network error, leaves image, correct answer, options and score unchanged |
| GameRound.QuestionKeepsInv | src/screen/GameScreen.jsx:26-30 | a well-formed reply with generated options keeps the invariant and makes its solution the correct answer |
| GameRound.TimeoutDuringCorrectWindowAwardsAgain | src/screen/GameScreen.jsx:93-104 | when time runs out while a correct answer is still selected, the score is handed on and then the same answer is awarded a second time |
| GameRound.GameScreen.constructor | src/screen/GameScreen.jsx:5-16 | mounting gives the initial state: score 0, no question, one request in flight, the level's timer |
| GameRound.GameScreen.SettleFrom | src/screen/GameScreen.jsx:93-110 | the effect runs when `gameOver`, `selectedAnswer` or `correctAnswer` differ from before, and only then |
| GameRound.GameScreen.Tick | src/screen/GameScreen.jsx:72-89 | the new state is `AfterTick` of the old one; it returns the hand-off exactly when the round ends; the invariant is kept |
| GameRound.GameScreen.Select | src/screen/GameScreen.jsx:113-116 | the new state is `AfterSelect` of the old one, for the tapped option |
| GameRound.GameScreen.TogglePause | src/screen/GameScreen.jsx:119-124 | the new state is `AfterTogglePause` of the old one |
| GameRound.GameScreen.AdvanceAfterDelay | src/screen/GameScreen.jsx:100-104 | the new state is `AfterAdvance` of the old one |
| GameRound.GameScreen.ReceiveQuestion | src/screen/GameScreen.jsx:19-37 | the new state is `AfterQuestion` of the old one; a well-formed reply installs options generated for its solution, and any other reply keeps the old options |
| GameRound.GameScreen.ShowQuestion | src/screen/GameScreen.jsx:26-30 | the three setters of a well-formed reply, followed by the effect |
| ResultView.NatToString | src/screen/ResultScreen.jsx:59 | `String(n)` is a non-empty string of decimal digits |
| ResultView.NatToStringValue | src/screen/ResultScreen.jsx:59 | the digits of `String(n)` denote `n` |
| ResultView.ShortNumberFewDigits | src/screen/ResultScreen.jsx:59 | a number below 1000 prints with at most three digits |
| ResultView.Pad2Digits | src/screen/ResultScreen.jsx:60-64 | below 100 a padded field is exactly two digits, with a leading '0' exactly when the value is below 10 |
| ResultView.FormatDate | src/screen/ResultScreen.jsx:58-67 | the text starts with the unpadded year, is at least 16 characters longer than it and ends in 'Z' |
| ResultView.DateSuffixChars | src/screen/ResultScreen.jsx:60-66 | the text after the year is the 16 characters `-MM-DDThh:mm:ssZ` |
| ResultView.FormatDateRoundTrip | src/screen/ResultScreen.jsx:58-66 | reading back formatDate's output gives the year, the month plus one, the day, hours, minutes and seconds |
| ResultView.ShortYearNotPadded | src/screen/ResultScreen.jsx:59-66 | the year is not padded: before year 1000 the text is shorter than `YYYY-MM-DDThh:mm:ssZ` |
| ResultView.GetMotivationalSlogan | src/screen/ResultScreen.jsx:99-110 | a non-empty slogan, which is the default exactly for values other than the three levels |
| ResultView.ParseSuffixOf | src/screen/ResultScreen.jsx:60-66 | the reader recovers all five two-digit fields from the suffix |
| ResultView.SlogansDistinct | src/screen/ResultScreen.jsx:99-110 | the three levels get three distinct slogans; any other value, and only those, gets the default |
| ResultView.SubmitsOnlyWithoutStoredScore | src/screen/ResultScreen.jsx:41-53 | against GameController.GetHighestScore, the client submits exactly when the user has no stored score and the store did not fail |
| ResultView.ResultScreen.constructor | src/screen/ResultScreen.jsx:7-11 | empty name and token, no highest score, nothing sent |
| ResultView.ResultScreen.LoadCredentials | src/screen/ResultScreen.jsx:14-29 | a missing or empty stored name becomes 'Guest' and a missing token ''; a storage failure gives both defaults |
| ResultView.ResultScreen.FetchHighestScore | src/screen/ResultScreen.jsx:32-54 | nothing is fetched unless both name and token are set; a reply becomes the highest score (null read as 0); only a 404 sends the payload; other errors change nothing |
| ResultView.ResultScreen.SubmitScore | src/screen/ResultScreen.jsx:57-95 | sends `{username, points: score, date: formatDate(now)}`; once accepted the highest score becomes `score` |
| SignUpForm.DotAfterMeans | src/screen/SignUpScreen.jsx:30 | the scan after an '@' succeeds exactly when `\S+\.\S+` follows it |
| SignUpForm.AtFromMeans | src/screen/SignUpScreen.jsx:30 | the scan from a position succeeds exactly when the pattern matches with its '@' at or after that position |
| SignUpForm.IsEmail | src/screen/SignUpScreen.jsx:30-33 | the email check accepts exactly the strings where `\S+@\S+\.\S+` matches somewhere |
| SignUpForm.IsPhone | src/screen/SignUpScreen.jsx:34-37 | the phone check accepts exactly ten characters that are all decimal digits |
| SignUpForm.AllDigits | src/screen/SignUpScreen.jsx:34 | every character is '0'..'9' |
| SignUpForm.ValidateSignup | src/screen/SignUpScreen.jsx:22-37 | required fields, then password length (< 6), then email, then phone: each message exactly when every earlier check passed and that one fails; None exactly when all pass |
| SignUpForm.PasswordBoundary | src/screen/SignUpScreen.jsx:26-29 | a six-character password passes and a five-character one fails |
| SignUpForm.EmailUnanchored | src/screen/SignUpScreen.jsx:30-33 | text around a match is accepted, and a space before the '@' breaks the match |
| SignUpForm.ErrorAfter | src/screen/SignUpScreen.jsx:52-56 | the shown error is never empty: the body's non-empty `message` when there is one, otherwise 'Signup failed. Please try again.' |
| SignUpForm.TakenNameShowsDefaultMessage | src/screen/SignUpScreen.jsx:50-56 | the server's plain-string refusal of a taken name has no `message`, so the client shows 'Signup failed. Please try again.' |
| SignUpForm.SignupForm.constructor | src/screen/SignUpScreen.jsx:12-18 | empty fields and error, not loading, nothing sent |
| SignUpForm.SignupForm.Edit | src/screen/SignUpScreen.jsx:86-129 | the text inputs set the four fields |
| SignUpForm.SignupForm.Submit | src/screen/SignUpScreen.jsx:21-47 | the first failing check sets its message and sends nothing; otherwise the error is cleared, isLoading is set and exactly one request is sent |
| SignUpForm.SignupForm.ReceiveReply | src/screen/SignUpScreen.jsx:41-59 | isLoading ends false; success navigates to login; a failure shows the body's message when it has one, else 'Signup failed. Please try again.' |

## Left out

- Network and storage I/O (`fetch`, `axios`, AsyncStorage, the MongoDB
  driver), `Alert`, `console` and navigation are not modelled. Their outcomes are method
  inputs: the question reply, the HTTP status, the stored strings, `storeFails`.
- `Math.random` is a nondeterministic choice. Uniformity is not claimed.
  `GenerateOptions` models only the draws that are appended: a repeated
  draw changes nothing, so the model does not capture how many rejected draws
  the loop makes, nor that it ends only with probability 1.
- GameRound.ShuffleArray: the random-comparator `Array.prototype.sort` is modelled as
  swaps at arbitrary positions. The contract promises a permutation, which is
  all the source guarantees; no particular order is claimed.
- Timers and React scheduling are replaced by explicit events:
  - `setInterval` becomes `Tick`;
  - `setTimeout` becomes `AdvanceAfterDelay`;
  - effects run when their dependencies change (`SettleFrom`).
- The model does not capture interleavings within a single React batch. It
  also does not capture the 1-second display delay or `clearInterval`.
- A question request and its reply are separate events (`fetchesInFlight`);
  a reply is applied whatever the round state is when it arrives, as the code
  does after its `await`. Which reply answers which request is not modelled.
- JWT issuing and validation (`GenerateJwtToken`, `[Authorize]`, jwtUtils)
  are not modelled. The authenticated name is the input `identity`. The
  login body has no token field.
- Program.cs and Startup.cs (dependency injection, CORS, Swagger) are not
  part of this model.
- MongoDb.MongoDBService.constructor: the connection to a database is not modelled,
  so the ArgumentNullException for a missing connection string is left out.
- ObjectId generation and `ObjectId.Parse` are replaced by natural-number
  Ids: `nextUserId` stands for the fresh ObjectId, and a path id is
  `Option<nat>`, with None for a null or empty id. A malformed id string,
  which makes `ObjectId.Parse` throw, is not modelled.
- A score's `_id` is not modelled. The upsert is keyed by (Username, Date).
  GameController gives every submission a fresh `_id`. The model does not
  capture what the server does with a replacement whose `_id` differs from
  the stored document's, so "the second submission replaces the first"
  holds of the model only.
- .NET `DateTime` is a day number and a second of the day, and `.Date` drops
  the second. Time zones and ticks are not modelled.
- Ties in Points among leaderboard entries keep collection order; the driver
  leaves their order unspecified.
- MongoDb.MongoDBService.GetLeaderboard: a negative `.Limit(top)` is read as
  its absolute value. The driver's single-batch behaviour for negative limits
  is not modelled.
- 32-bit wrap-around of Points and of the game score is not modelled
  (integers are unbounded).
- String lengths count Dafny characters, not UTF-16 code units, so the
  password length of characters outside the Basic Multilingual Plane differs.
- Null fields inside a request body are not modelled: every field is a
  string, except `ScoreSubmitRequest.Username`, which may be null.
- Success bodies that are objects, such as `{ Message = ... }` from
  UpdateProfile and DeleteProfile, are modelled by their message string.
- The "2-minute timer" text for Hard in LevelScreen.jsx is display text only.
  The model follows GameScreen.jsx, which sets 30 seconds.
- GameRound.GameScreen.Select takes the index of a rendered option: a tap
  can only choose an option on screen.
