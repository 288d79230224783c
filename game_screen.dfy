/**
 * GameScreen: one timed round of the banana quiz. The React state of the
 * screen is the field set of `GameScreen`; the events that change it
 * (a timer tick, an answer tap, the pause button, the delayed "next
 * question" callback and the arrival of a question) are its methods. Each
 * method is specified by a pure transition on `RoundState`, and the
 * properties of the round are lemmas about those transitions.
 *
 * React runs the effect on [gameOver, selectedAnswer, correctAnswer] after
 * a render only when one of those three values changed; `Settle` models
 * that. A `setTimeout` callback sees the `gameOver` of the render that
 * scheduled it, so each pending "next question" callback is stored as the
 * `gameOver` value it captured.
 */
module GameRound {
  import opened Wrappers

  // ---------------------------------------------------------------------------
  // Level settings

  /** The number of answer options: 4 for 'Easy', 6 for 'Medium', 7 for any other level. */
  function OptionCount(level: string): nat {
    if level == "Easy" then 4 else if level == "Medium" then 6 else 7
  }

  /** Points for a correct answer: 10 for 'Easy', 20 for 'Medium', 30 for any other level. */
  function PointsPerCorrect(level: string): nat {
    if level == "Easy" then 10 else if level == "Medium" then 20 else 30
  }

  /** The timer the screen starts with (`useState(60)`). */
  const DefaultTimer := 60

  /** The timer after mounting: 60, 50 or 30 seconds for the three named levels, else the default. */
  function InitialTimer(level: string): (t: nat)
    ensures t > 0
    ensures level !in {"Easy", "Medium", "Hard"} ==> t == DefaultTimer
  {
    if level == "Easy" then 60
    else if level == "Medium" then 50
    else if level == "Hard" then 30
    else DefaultTimer
  }

  // ---------------------------------------------------------------------------
  // generateOptions and shuffleArray

  /** No value occurs twice. */
  ghost predicate Distinct(s: seq<int>) {
    forall x :: multiset(s)[x] <= 1
  }

  /**
   * What generateOptions promises: the level's number of options, no value
   * twice, the correct answer among them, every other option a digit 0..9.
   */
  ghost predicate OptionsFor(options: seq<int>, correct: int, level: string) {
    && |options| == OptionCount(level)
    && Distinct(options)
    && correct in options
    && forall i :: 0 <= i < |options| && options[i] != correct ==> 0 <= options[i] < 10
  }

  /**
   * `0 <= d < k` as a named predicate: it gives the set comprehensions below
   * a term the verifier can use to instantiate them.
   */
  predicate Below(d: int, k: int) {
    0 <= d < k
  }

  /** The values 0..k-1 form a set of k elements. */
  lemma {:induction false} RangeSize(k: nat)
    ensures |set d | 0 <= d < k && Below(d, k)| == k
  {
    if k > 0 {
      var j := k - 1;
      RangeSize(j);
      assert (set d | 0 <= d < k && Below(d, k)) == (set d | 0 <= d < j && Below(d, j)) + {j};
    }
  }

  /** A sequence has at most as many distinct elements as it has positions. */
  lemma {:induction false} ElementsAtMostLength(s: seq<int>)
    ensures |set x | x in s| <= |s|
  {
    if s != [] {
      var init := s[..|s| - 1];
      ElementsAtMostLength(init);
      assert (set x | x in s) == (set x | x in init) + {s[|s| - 1]};
    }
  }

  lemma SubsetSize(a: set<int>, b: set<int>)
    requires a <= b
    ensures |a| <= |b|
  {
    var rest := b - a;
    assert b == a + rest;
    assert a * rest == {};
  }

  /** Fewer than ten values cannot cover all ten digits. */
  lemma UnusedDigitExists(s: seq<int>)
    requires |s| < 10
    ensures exists d :: 0 <= d < 10 && d !in s
  {
    var digits := set d | 0 <= d < 10 && Below(d, 10);
    var used := set x | x in s;
    RangeSize(10);
    ElementsAtMostLength(s);
    assert !(digits <= used) by {
      if digits <= used {
        SubsetSize(digits, used);
        assert false;
      }
    }
    var d :| d in digits && d !in used;
    assert Below(d, 10);
  }

  /**
   * shuffleArray: sorts the array in place with a random comparator, which
   * can leave it in any order. Modelled as a sequence of swaps at
   * arbitrarily chosen positions.
   */
  method ShuffleArray(a: array<int>)
    modifies a
    ensures multiset(a[..]) == multiset(old(a[..]))
  {
    var i := a.Length;
    while i > 1
      invariant 0 <= i <= a.Length
      invariant multiset(a[..]) == multiset(old(a[..]))
    {
      var j :| 0 <= j < i;
      a[i - 1], a[j] := a[j], a[i - 1];
      i := i - 1;
    }
  }

  /**
   * generateOptions: starts from [correct] and appends random digits not
   * yet present until the level's count is reached, then shuffles. Only the
   * draws that are appended are modelled; a repeated draw changes nothing.
   */
  method GenerateOptions(correct: int, level: string) returns (options: seq<int>)
    ensures |options| == (if level == "Easy" then 4 else if level == "Medium" then 6 else 7)
    ensures Distinct(options) && multiset(options)[correct] == 1
    ensures forall i :: 0 <= i < |options| && options[i] != correct ==> 0 <= options[i] < 10
    ensures OptionsFor(options, correct, level)
  {
    var n := OptionCount(level);
    var assembled := [correct];
    while |assembled| < n
      invariant 1 <= |assembled| <= n
      invariant assembled[0] == correct
      invariant Distinct(assembled)
      invariant forall i :: 1 <= i < |assembled| ==> 0 <= assembled[i] < 10
      decreases n - |assembled|
    {
      UnusedDigitExists(assembled);
      var draw :| 0 <= draw < 10 && draw !in assembled;
      assembled := assembled + [draw];
    }
    assert correct in multiset(assembled);
    var a := new int[|assembled|];
    forall i | 0 <= i < a.Length {
      a[i] := assembled[i];
    }
    assert a[..] == assembled;
    ShuffleArray(a);
    options := a[..];
    forall i | 0 <= i < |options| && options[i] != correct ensures 0 <= options[i] < 10 {
      assert options[i] in multiset(assembled);
      var k :| 0 <= k < |assembled| && assembled[k] == options[i];
    }
  }

  // ---------------------------------------------------------------------------
  // Round state and transitions

  /** `selectedAnswer`: '' before any tap, otherwise the tapped option. */
  datatype Selection = Blank | Picked(value: int)

  /** What a question request came back with. */
  datatype QuestionReply =
    | NetworkError
    | Reply(question: string, solution: Option<int>)

  /** `data.question && data.solution !== undefined`. */
  predicate WellFormed(r: QuestionReply) {
    r.Reply? && r.question != "" && r.solution.Some?
  }

  /** What handleGameOver passes to the result screen. */
  datatype Handoff = Handoff(score: int, level: string)

  datatype RoundState = RoundState(
    score: int,
    timer: int,
    paused: bool,
    gameOver: bool,
    questionImage: string,
    answerOptions: seq<int>,
    correctAnswer: Option<int>,
    selectedAnswer: Selection,
    answerStatus: string,
    /** The captured `gameOver` of each "next question" callback not yet run, oldest first. */
    pendingAdvances: seq<bool>,
    /** Question requests sent and not yet answered. */
    fetchesInFlight: nat)

  /** `selectedAnswer === correctAnswer`: '' and null never match. */
  predicate Matches(s: Selection, c: Option<int>) {
    s.Picked? && c.Some? && s.value == c.value
  }

  /** The screen after mounting: default state, one question request, the level's timer. */
  function Start(level: string): RoundState {
    RoundState(0, InitialTimer(level), false, false, "", [], None, Blank, "", [], 1)
  }

  /** The timer interval runs exactly when the round is neither over, at zero nor paused. */
  predicate Running(st: RoundState) {
    !st.gameOver && st.timer != 0 && !st.paused
  }

  /**
   * The effect on [gameOver, selectedAnswer, correctAnswer]: a match awards
   * the level's points and schedules the next question; otherwise, once the
   * round is over, the status becomes 'Incorrect!' and the selection is cleared.
   */
  function AnswerEffect(st: RoundState, level: string): (r: RoundState)
    ensures r.score == st.score + (if Matches(st.selectedAnswer, st.correctAnswer) then PointsPerCorrect(level) else 0)
    ensures r.timer == st.timer && r.paused == st.paused && r.gameOver == st.gameOver
    ensures r.questionImage == st.questionImage && r.correctAnswer == st.correctAnswer
    ensures r.answerOptions == st.answerOptions && r.fetchesInFlight == st.fetchesInFlight
    ensures r != st ==> Matches(st.selectedAnswer, st.correctAnswer) || st.gameOver
  {
    if Matches(st.selectedAnswer, st.correctAnswer) then
      st.(score := st.score + PointsPerCorrect(level), answerStatus := "Correct!",
          pendingAdvances := st.pendingAdvances + [st.gameOver])
    else if st.gameOver then
      st.(answerStatus := "Incorrect!", selectedAnswer := Blank)
    else
      st
  }

  predicate SameDeps(a: RoundState, b: RoundState) {
    a.gameOver == b.gameOver && a.selectedAnswer == b.selectedAnswer && a.correctAnswer == b.correctAnswer
  }

  /** After a render the effect runs only if one of its dependencies changed. */
  function Settle(before: RoundState, after: RoundState, level: string): RoundState {
    if SameDeps(before, after) then after else AnswerEffect(after, level)
  }

  /**
   * One second of the interval. When the timer reaches 0 the round is over
   * (handleGameOver), and the answer effect sees the new `gameOver`.
   */
  function AfterTick(st: RoundState, level: string): (r: RoundState)
    ensures r.timer == (if Running(st) then st.timer - 1 else st.timer)
    ensures r.gameOver <==> st.gameOver || (Running(st) && st.timer == 1)
    ensures r.paused == st.paused && r.questionImage == st.questionImage && r.correctAnswer == st.correctAnswer
    ensures !Running(st) ==> r == st
  {
    if !Running(st) then st
    else if st.timer == 1 then Settle(st, st.(timer := 0, gameOver := true), level)
    else st.(timer := st.timer - 1)
  }

  /** handleGameOver hands the score of the final render and the level to the result screen. */
  function GameOverHandoff(st: RoundState, level: string): (r: Option<Handoff>)
    ensures r.Some? <==> !st.gameOver && AfterTick(st, level).gameOver
    ensures r.Some? ==> r.value == Handoff(st.score, level)
  {
    if Running(st) && st.timer == 1 then Some(Handoff(st.score, level)) else None
  }

  /** handleAnswerSelection: ignored once the round is over; `paused` is not consulted. */
  function AfterSelect(st: RoundState, answer: int, level: string): (r: RoundState)
    ensures st.gameOver ==> r == st
    ensures !st.gameOver ==> r.selectedAnswer == Picked(answer)
    ensures r.timer == st.timer && r.paused == st.paused && r.gameOver == st.gameOver && r.correctAnswer == st.correctAnswer
  {
    if st.gameOver then st
    else Settle(st, st.(selectedAnswer := Picked(answer)), level)
  }

  function AfterTogglePause(st: RoundState): RoundState {
    st.(paused := !st.paused)
  }

  /**
   * The callback scheduled one second after a correct answer: it requests the
   * next question unless its captured `gameOver` was true, then clears the
   * status and the selection.
   */
  function AfterAdvance(st: RoundState, level: string): (r: RoundState)
    requires st.pendingAdvances != []
    ensures r.selectedAnswer == Blank && r.pendingAdvances == st.pendingAdvances[1..]
    ensures r.fetchesInFlight == st.fetchesInFlight + (if st.pendingAdvances[0] then 0 else 1)
    ensures r.score == st.score && r.timer == st.timer && r.gameOver == st.gameOver
    ensures !st.gameOver ==> r.answerStatus == ""
  {
    var captured := st.pendingAdvances[0];
    var next := st.(pendingAdvances := st.pendingAdvances[1..],
                    fetchesInFlight := st.fetchesInFlight + (if captured then 0 else 1),
                    answerStatus := "", selectedAnswer := Blank);
    Settle(st, next, level)
  }

  /**
   * A question reply arrives. A well-formed one sets the image, the correct
   * answer and the options generated for it; anything else changes nothing
   * but the count of requests in flight.
   */
  function AfterQuestion(st: RoundState, reply: QuestionReply, options: seq<int>, level: string): (r: RoundState)
    requires st.fetchesInFlight > 0
    ensures r.fetchesInFlight == st.fetchesInFlight - 1
    ensures !WellFormed(reply) ==> r == st.(fetchesInFlight := st.fetchesInFlight - 1)
    ensures WellFormed(reply) ==>
      && r.questionImage == reply.question && r.correctAnswer == reply.solution && r.answerOptions == options
      && r.timer == st.timer && r.gameOver == st.gameOver
  {
    var answered := st.(fetchesInFlight := st.fetchesInFlight - 1);
    if !WellFormed(reply) then answered
    else Settle(st, answered.(questionImage := reply.question, correctAnswer := reply.solution,
                              answerOptions := options), level)
  }

  /** What holds of every state the screen reaches. */
  ghost predicate Inv(st: RoundState, level: string) {
    && st.score >= 0
    && st.timer >= 0
    && (st.gameOver <==> st.timer == 0)
    && (st.answerStatus == "Incorrect!" ==> st.gameOver)
    && (st.correctAnswer.Some? <==> st.questionImage != "")
    && (st.correctAnswer.None? ==> st.answerOptions == [])
    && (st.correctAnswer.Some? ==> OptionsFor(st.answerOptions, st.correctAnswer.value, level))
  }

  // ---------------------------------------------------------------------------
  // Properties of the transitions

  lemma StartSatisfiesInv(level: string)
    ensures Inv(Start(level), level)
    ensures Start(level).timer == (if level == "Easy" then 60 else if level == "Medium" then 50 else if level == "Hard" then 30 else 60)
  {
  }

  lemma AnswerEffectKeepsInv(st: RoundState, level: string)
    requires Inv(st, level)
    ensures Inv(AnswerEffect(st, level), level)
  {
  }

  lemma SettleKeepsInv(before: RoundState, after: RoundState, level: string)
    requires Inv(after, level)
    ensures Inv(Settle(before, after, level), level)
  {
    AnswerEffectKeepsInv(after, level);
  }

  /**
   * A tick lowers the timer by exactly one while the round runs and does
   * nothing otherwise; the timer never goes below 0, and the round is over
   * exactly when it reaches 0.
   */
  lemma TickCountsDown(st: RoundState, level: string)
    requires Inv(st, level)
    ensures var next := AfterTick(st, level);
      && Inv(next, level)
      && next.timer == (if Running(st) then st.timer - 1 else st.timer)
      && (next.gameOver <==> next.timer == 0)
      && (GameOverHandoff(st, level).Some? <==> !st.gameOver && next.gameOver)
      && (GameOverHandoff(st, level).Some? ==> GameOverHandoff(st, level).value == Handoff(st.score, level))
  {
    if Running(st) && st.timer == 1 {
      SettleKeepsInv(st, st.(timer := 0, gameOver := true), level);
    }
  }

  /** Once the round is over a tap changes nothing, paused or not. */
  lemma SelectionIgnoredWhenOver(st: RoundState, answer: int, level: string)
    requires st.gameOver
    ensures AfterSelect(st, answer, level) == st
  {
  }

  /** A wrong tap while the round runs changes only `selectedAnswer`. */
  lemma WrongSelectionChangesOnlySelection(st: RoundState, answer: int, level: string)
    requires !st.gameOver && st.correctAnswer != Some(answer)
    ensures AfterSelect(st, answer, level) == st.(selectedAnswer := Picked(answer))
  {
  }

  /**
   * A new correct tap while the round runs, paused or not, adds exactly the
   * level's points, shows 'Correct!' and schedules one "next question" callback.
   */
  lemma CorrectSelectionAwards(st: RoundState, answer: int, level: string)
    requires !st.gameOver && st.correctAnswer == Some(answer) && st.selectedAnswer != Picked(answer)
    ensures var next := AfterSelect(st, answer, level);
      && next.score == st.score + (if level == "Easy" then 10 else if level == "Medium" then 20 else 30)
      && next.answerStatus == "Correct!"
      && next.pendingAdvances == st.pendingAdvances + [false]
      && next.questionImage == st.questionImage && next.answerOptions == st.answerOptions
      && next.timer == st.timer && next.paused == st.paused
  {
  }

  /** Tapping the option already selected changes nothing: React skips the effect. */
  lemma RepeatedSelectionChangesNothing(st: RoundState, level: string)
    requires st.selectedAnswer.Picked?
    ensures AfterSelect(st, st.selectedAnswer.value, level) == st
  {
  }

  /** The pause button flips `paused` and nothing else; a second press restores the state. */
  lemma TogglePauseFlips(st: RoundState, level: string)
    requires Inv(st, level)
    ensures Inv(AfterTogglePause(st), level)
    ensures AfterTogglePause(st).paused == !st.paused
    ensures AfterTogglePause(AfterTogglePause(st)) == st
  {
  }

  /** 'Incorrect!' appears only in a state where the round is over. */
  lemma IncorrectOnlyWhenOver(st: RoundState, level: string)
    requires AnswerEffect(st, level).answerStatus == "Incorrect!" && st.answerStatus != "Incorrect!"
    ensures st.gameOver && AnswerEffect(st, level).selectedAnswer == Blank
  {
  }

  /**
   * Clearing the selection in the 'Incorrect!' branch re-runs the effect;
   * that second run changes nothing, so one run models both.
   */
  lemma IncorrectBranchSettles(st: RoundState, level: string)
    requires st.gameOver && !Matches(st.selectedAnswer, st.correctAnswer)
    ensures var once := AnswerEffect(st, level);
      AnswerEffect(once, level) == once
  {
  }

  /**
   * The delayed callback clears the status and the selection and, when it
   * was scheduled during play, sends one new question request; while the
   * round runs nothing else changes.
   */
  lemma AdvanceClearsAndFetches(st: RoundState, level: string)
    requires Inv(st, level) && st.pendingAdvances != [] && !st.gameOver
    ensures var next := AfterAdvance(st, level);
      && Inv(next, level)
      && next.answerStatus == "" && next.selectedAnswer == Blank
      && next.fetchesInFlight == st.fetchesInFlight + (if st.pendingAdvances[0] then 0 else 1)
      && next.pendingAdvances == st.pendingAdvances[1..]
      && next.score == st.score && next.timer == st.timer
  {
  }

  /** A callback scheduled after the round ended sends no request. */
  lemma AdvanceAfterOverSendsNothing(st: RoundState, level: string)
    requires st.pendingAdvances != [] && st.pendingAdvances[0]
    ensures AfterAdvance(st, level).fetchesInFlight == st.fetchesInFlight
  {
  }

  lemma AdvanceKeepsInv(st: RoundState, level: string)
    requires Inv(st, level) && st.pendingAdvances != []
    ensures Inv(AfterAdvance(st, level), level)
  {
    var captured := st.pendingAdvances[0];
    var next := st.(pendingAdvances := st.pendingAdvances[1..],
                    fetchesInFlight := st.fetchesInFlight + (if captured then 0 else 1),
                    answerStatus := "", selectedAnswer := Blank);
    SettleKeepsInv(st, next, level);
  }

  /**
   * A malformed reply or a network error leaves the question, the correct
   * answer, the options and the score as they were.
   */
  lemma MalformedReplyIgnored(st: RoundState, reply: QuestionReply, options: seq<int>, level: string)
    requires st.fetchesInFlight > 0 && !WellFormed(reply)
    ensures var next := AfterQuestion(st, reply, options, level);
      && next.questionImage == st.questionImage && next.correctAnswer == st.correctAnswer
      && next.answerOptions == st.answerOptions && next.score == st.score
      && next.fetchesInFlight == st.fetchesInFlight - 1
  {
  }

  /** A well-formed reply with generated options keeps the invariant. */
  lemma QuestionKeepsInv(st: RoundState, reply: QuestionReply, options: seq<int>, level: string)
    requires Inv(st, level) && st.fetchesInFlight > 0
    requires WellFormed(reply) ==> OptionsFor(options, reply.solution.value, level)
    ensures Inv(AfterQuestion(st, reply, options, level), level)
    ensures WellFormed(reply) ==> AfterQuestion(st, reply, options, level).correctAnswer == reply.solution
  {
    if WellFormed(reply) {
      var answered := st.(fetchesInFlight := st.fetchesInFlight - 1);
      SettleKeepsInv(st, answered.(questionImage := reply.question, correctAnswer := reply.solution,
                                   answerOptions := options), level);
    }
  }

  /**
   * If the timer runs out while a correct answer is still selected (within
   * the one second before the next question), the effect sees the new
   * `gameOver` with the selection still matching and awards the points a
   * second time, after the score was handed to the result screen.
   */
  lemma TimeoutDuringCorrectWindowAwardsAgain(level: string)
    ensures var st := RoundState(10, 1, false, false, "q.png", [3, 1, 4, 5], Some(3), Picked(3), "Correct!", [false], 0);
      var next := AfterTick(st, level);
      && GameOverHandoff(st, level) == Some(Handoff(10, level))
      && next.gameOver
      && next.score == 10 + PointsPerCorrect(level)
      && next.pendingAdvances == [false, true]
  {
  }

  // ---------------------------------------------------------------------------
  // The screen

  class GameScreen {
    const level: string
    var score: int
    var timer: int
    var paused: bool
    var gameOver: bool
    var questionImage: string
    var answerOptions: seq<int>
    var correctAnswer: Option<int>
    var selectedAnswer: Selection
    var answerStatus: string
    var pendingAdvances: seq<bool>
    var fetchesInFlight: nat

    function Snapshot(): RoundState
      reads this
    {
      RoundState(score, timer, paused, gameOver, questionImage, answerOptions, correctAnswer,
                 selectedAnswer, answerStatus, pendingAdvances, fetchesInFlight)
    }

    ghost predicate Valid()
      reads this
    {
      Inv(Snapshot(), level)
    }

    /** Mounting: the default state, the first question request and the level's timer. */
    constructor (level: string)
      ensures this.level == level && Valid()
      ensures Snapshot() == Start(level)
    {
      this.level := level;
      score, paused, gameOver := 0, false, false;
      questionImage, answerOptions, correctAnswer := "", [], None;
      selectedAnswer, answerStatus, pendingAdvances := Blank, "", [];
      timer := DefaultTimer;
      fetchesInFlight := 1;
      if level == "Easy" {
        timer := 60;
      } else if level == "Medium" {
        timer := 50;
      } else if level == "Hard" {
        timer := 30;
      }
      StartSatisfiesInv(level);
    }

    /** Runs the answer effect if one of its dependencies differs from `before`. */
    method SettleFrom(before: RoundState)
      modifies this
      ensures Snapshot() == Settle(before, old(Snapshot()), level)
    {
      if before.gameOver == gameOver && before.selectedAnswer == selectedAnswer && before.correctAnswer == correctAnswer {
        return;
      }
      if Matches(selectedAnswer, correctAnswer) {
        score := score + PointsPerCorrect(level);
        answerStatus := "Correct!";
        pendingAdvances := pendingAdvances + [gameOver];
      } else if gameOver {
        answerStatus := "Incorrect!";
        selectedAnswer := Blank;
      }
    }

    /** One interval tick; returns what handleGameOver hands on when the timer reaches 0. */
    method Tick() returns (handoff: Option<Handoff>)
      requires Valid()
      modifies this
      ensures Valid()
      ensures Snapshot() == AfterTick(old(Snapshot()), level)
      ensures handoff == GameOverHandoff(old(Snapshot()), level)
    {
      TickCountsDown(Snapshot(), level);
      handoff := None;
      if gameOver || timer == 0 || paused {
        return;
      }
      if timer == 1 {
        var before := Snapshot();
        timer := 0;
        gameOver := true;
        handoff := Some(Handoff(score, level));
        SettleFrom(before);
      } else {
        timer := timer - 1;
      }
    }

    /** handleAnswerSelection on the option at `index`. */
    method Select(index: nat)
      requires Valid() && index < |answerOptions|
      modifies this
      ensures Valid()
      ensures Snapshot() == AfterSelect(old(Snapshot()), old(answerOptions[index]), level)
    {
      if gameOver {
        return;
      }
      var before := Snapshot();
      SettleKeepsInv(before, before.(selectedAnswer := Picked(answerOptions[index])), level);
      selectedAnswer := Picked(answerOptions[index]);
      SettleFrom(before);
    }

    method TogglePause()
      requires Valid()
      modifies this
      ensures Valid()
      ensures Snapshot() == AfterTogglePause(old(Snapshot()))
    {
      paused := !paused;
    }

    /** The oldest pending "next question" callback runs. */
    method AdvanceAfterDelay()
      requires Valid() && pendingAdvances != []
      modifies this
      ensures Valid()
      ensures Snapshot() == AfterAdvance(old(Snapshot()), level)
    {
      AdvanceKeepsInv(Snapshot(), level);
      var before := Snapshot();
      var captured := pendingAdvances[0];
      pendingAdvances := pendingAdvances[1..];
      if !captured {
        fetchesInFlight := fetchesInFlight + 1;
      }
      answerStatus := "";
      selectedAnswer := Blank;
      SettleFrom(before);
    }

    /** The reply to the oldest question request arrives. */
    method ReceiveQuestion(reply: QuestionReply)
      requires Valid() && fetchesInFlight > 0
      modifies this
      ensures Valid()
      ensures Snapshot() == AfterQuestion(old(Snapshot()), reply, answerOptions, level)
      ensures WellFormed(reply) ==> OptionsFor(answerOptions, reply.solution.value, level)
      ensures !WellFormed(reply) ==> answerOptions == old(answerOptions)
    {
      if !WellFormed(reply) {
        QuestionKeepsInv(Snapshot(), reply, answerOptions, level);
        fetchesInFlight := fetchesInFlight - 1;
        return;
      }
      var options := GenerateOptions(reply.solution.value, level);
      QuestionKeepsInv(Snapshot(), reply, options, level);
      ShowQuestion(reply, options);
    }

    /** The state updates of a well-formed reply, followed by the answer effect. */
    method ShowQuestion(reply: QuestionReply, options: seq<int>)
      requires WellFormed(reply) && fetchesInFlight > 0
      modifies this
      ensures answerOptions == options
      ensures Snapshot() == AfterQuestion(old(Snapshot()), reply, options, level)
    {
      var before := Snapshot();
      fetchesInFlight := fetchesInFlight - 1;
      questionImage := reply.question;
      correctAnswer := reply.solution;
      answerOptions := options;
      SettleFrom(before);
    }
  }
}
