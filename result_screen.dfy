/**
 * ResultScreen: after a round, the client loads the stored user name and
 * token, asks the server for the user's highest score, and submits the
 * round's score only when that request comes back 404. The network replies,
 * the stored values and the current time are inputs.
 */
module ResultView {
  import opened Wrappers
  import opened Http
  import opened Scores
  import opened GameApi

  // ---------------------------------------------------------------------------
  // formatDate

  /**
   * The UTC fields formatDate reads from a JavaScript Date: getUTCFullYear,
   * getUTCMonth (0-based), getUTCDate, getUTCHours, getUTCMinutes, getUTCSeconds.
   */
  datatype UtcFields = UtcFields(year: nat, month: nat, day: nat, hours: nat, minutes: nat, seconds: nat)

  predicate ValidUtc(d: UtcFields) {
    d.month < 12 && 1 <= d.day <= 31 && d.hours < 24 && d.minutes < 60 && d.seconds < 60
  }

  /** A date-time as written in text, with a 1-based month. */
  datatype Stamp = Stamp(year: nat, month: nat, day: nat, hours: nat, minutes: nat, seconds: nat)

  predicate IsDigit(c: char) {
    '0' <= c <= '9'
  }

  function DigitChar(d: nat): (c: char)
    requires d < 10
    ensures IsDigit(c)
  {
    ('0' as int + d) as char
  }

  function DigitValue(c: char): nat
    requires IsDigit(c)
  {
    c as int - '0' as int
  }

  /** `String(n)` for a non-negative integer: its decimal digits, no padding. */
  function NatToString(n: nat): (s: string)
    ensures 1 <= |s|
    ensures forall i :: 0 <= i < |s| ==> IsDigit(s[i])
  {
    if n < 10 then [DigitChar(n)] else NatToString(n / 10) + [DigitChar(n % 10)]
  }

  /** The number a string of decimal digits denotes. */
  function DigitsValue(s: string): nat
    requires forall i :: 0 <= i < |s| ==> IsDigit(s[i])
  {
    if s == [] then 0 else DigitsValue(s[..|s| - 1]) * 10 + DigitValue(s[|s| - 1])
  }

  lemma {:induction false} NatToStringValue(n: nat)
    ensures DigitsValue(NatToString(n)) == n
  {
    var s := NatToString(n);
    if n < 10 {
      assert s[..|s| - 1] == [];
    } else {
      NatToStringValue(n / 10);
      assert s[..|s| - 1] == NatToString(n / 10);
    }
  }

  /** A year below 1000 prints with fewer than four digits. */
  lemma {:induction false} ShortNumberFewDigits(n: nat)
    requires n < 1000
    ensures |NatToString(n)| <= 3
  {
    if n >= 10 {
      ShortNumberFewDigits(n / 10);
      if n / 10 < 10 {
        assert |NatToString(n / 10)| == 1;
      } else {
        assert |NatToString(n / 10)| <= 2 by {
          ShortNumberFewDigits(n / 100);
          assert NatToString(n / 10) == NatToString(n / 10 / 10) + [DigitChar(n / 10 % 10)];
        }
      }
    }
  }

  /** `str.padStart(2, '0')`: zeros on the left up to length 2. */
  function PadStart2(s: string): string {
    if |s| >= 2 then s else seq(2 - |s|, _ => '0') + s
  }

  function Pad2(n: nat): string {
    PadStart2(NatToString(n))
  }

  /** Below 100, Pad2 gives exactly two digits: a '0' first exactly when n < 10. */
  lemma Pad2Digits(n: nat)
    requires n < 100
    ensures Pad2(n) == [DigitChar(n / 10), DigitChar(n % 10)]
    ensures |Pad2(n)| == 2 && (Pad2(n)[0] == '0' <==> n < 10)
  {
    if n >= 10 {
      assert NatToString(n / 10) == [DigitChar(n / 10)];
    }
  }

  /** formatDate: `${year}-${MM}-${DD}T${hh}:${mm}:${ss}Z` from the UTC fields. */
  function FormatDate(d: UtcFields): (r: string)
    ensures |r| >= |NatToString(d.year)| + 16
    ensures r[..|NatToString(d.year)|] == NatToString(d.year)
    ensures r[|r| - 1] == 'Z'
  {
    NatToString(d.year) + DateSuffix(d)
  }

  /** One separator followed by a padded two-digit field. */
  function Tagged(sep: char, n: nat): string {
    [sep] + Pad2(n)
  }

  /** Everything formatDate writes after the year. */
  function DateSuffix(d: UtcFields): string {
    Tagged('-', d.month + 1) + Tagged('-', d.day) + Tagged('T', d.hours)
      + Tagged(':', d.minutes) + Tagged(':', d.seconds) + "Z"
  }

  /** The 16 characters after the year, from the five field values. */
  function SuffixOf(month: nat, day: nat, hours: nat, minutes: nat, seconds: nat): string
    requires month < 100 && day < 100 && hours < 100 && minutes < 100 && seconds < 100
  {
    ['-', DigitChar(month / 10), DigitChar(month % 10),
     '-', DigitChar(day / 10), DigitChar(day % 10),
     'T', DigitChar(hours / 10), DigitChar(hours % 10),
     ':', DigitChar(minutes / 10), DigitChar(minutes % 10),
     ':', DigitChar(seconds / 10), DigitChar(seconds % 10), 'Z']
  }

  /** For valid fields the suffix is 16 characters: separators and two-digit fields. */
  lemma DateSuffixChars(d: UtcFields)
    requires ValidUtc(d)
    ensures DateSuffix(d) == SuffixOf(d.month + 1, d.day, d.hours, d.minutes, d.seconds)
  {
    Pad2Digits(d.month + 1);
    Pad2Digits(d.day);
    Pad2Digits(d.hours);
    Pad2Digits(d.minutes);
    Pad2Digits(d.seconds);
  }

  function TwoDigits(a: char, b: char): nat
    requires IsDigit(a) && IsDigit(b)
  {
    DigitValue(a) * 10 + DigitValue(b)
  }

  /**
   * Reads back a `Y-MM-DDThh:mm:ssZ` date-time: any number of year digits,
   * then the 16-character suffix formatDate writes.
   */
  function ParseDateTime(s: string): Option<Stamp> {
    if |s| < 17 then None
    else
      var y := s[..|s| - 16];
      if forall i :: 0 <= i < |y| ==> IsDigit(y[i]) then ParseSuffix(DigitsValue(y), s[|s| - 16..])
      else None
  }

  /** The 16 characters after the year: separators fixed, every field two digits. */
  function ParseSuffix(year: nat, t: string): Option<Stamp> {
    if && |t| == 16
       && t[0] == '-' && IsDigit(t[1]) && IsDigit(t[2])
       && t[3] == '-' && IsDigit(t[4]) && IsDigit(t[5])
       && t[6] == 'T' && IsDigit(t[7]) && IsDigit(t[8])
       && t[9] == ':' && IsDigit(t[10]) && IsDigit(t[11])
       && t[12] == ':' && IsDigit(t[13]) && IsDigit(t[14])
       && t[15] == 'Z'
    then Some(Stamp(year, TwoDigits(t[1], t[2]), TwoDigits(t[4], t[5]),
                    TwoDigits(t[7], t[8]), TwoDigits(t[10], t[11]), TwoDigits(t[13], t[14])))
    else None
  }

  /**
   * formatDate loses nothing: reading its output back gives the year, the
   * month plus one, and the day, hours, minutes and seconds.
   */
  lemma FormatDateRoundTrip(d: UtcFields)
    requires ValidUtc(d)
    ensures ParseDateTime(FormatDate(d)) == Some(Stamp(d.year, d.month + 1, d.day, d.hours, d.minutes, d.seconds))
  {
    var y := NatToString(d.year);
    var t := DateSuffix(d);
    DateSuffixChars(d);
    NatToStringValue(d.year);
    ParseSuffixOf(d.year, d.month + 1, d.day, d.hours, d.minutes, d.seconds);
    var s := y + t;
    assert s[..|s| - 16] == y && s[|s| - 16..] == t;
  }

  lemma TwoDigitsOf(n: nat)
    requires n < 100
    ensures TwoDigits(DigitChar(n / 10), DigitChar(n % 10)) == n
  {
  }

  lemma ParseSuffixOf(year: nat, month: nat, day: nat, hours: nat, minutes: nat, seconds: nat)
    requires month < 100 && day < 100 && hours < 100 && minutes < 100 && seconds < 100
    ensures ParseSuffix(year, SuffixOf(month, day, hours, minutes, seconds))
      == Some(Stamp(year, month, day, hours, minutes, seconds))
  {
    TwoDigitsOf(month);
    TwoDigitsOf(day);
    TwoDigitsOf(hours);
    TwoDigitsOf(minutes);
    TwoDigitsOf(seconds);
  }

  /** The year is not padded: before year 1000 the text is shorter than `YYYY-MM-DDThh:mm:ssZ`. */
  lemma ShortYearNotPadded(d: UtcFields)
    requires ValidUtc(d) && d.year < 1000
    ensures |FormatDate(d)| < 20
  {
    ShortNumberFewDigits(d.year);
    DateSuffixChars(d);
  }

  // ---------------------------------------------------------------------------
  // getMotivationalSlogan

  const DefaultSlogan := "Good job, keep up the great work!"

  /** The slogan for a level; any value other than the three levels gets the default. */
  function GetMotivationalSlogan(level: string): (r: string)
    ensures r != ""
    ensures r == DefaultSlogan <==> level !in {"Easy", "Medium", "Hard"}
  {
    match level
    case "Easy" => "Great start, keep going!"
    case "Medium" => "Well done, you are improving!"
    case "Hard" => "Amazing effort, challenge accepted!"
    case _ => DefaultSlogan
  }

  /** The three named levels get three different slogans; any other value gets the default. */
  lemma SlogansDistinct(level: string)
    ensures GetMotivationalSlogan("Easy") != GetMotivationalSlogan("Medium")
    ensures GetMotivationalSlogan("Easy") != GetMotivationalSlogan("Hard")
    ensures GetMotivationalSlogan("Medium") != GetMotivationalSlogan("Hard")
    ensures level !in {"Easy", "Medium", "Hard"} ==> GetMotivationalSlogan(level) == DefaultSlogan
    ensures GetMotivationalSlogan(level) != DefaultSlogan <==> level in {"Easy", "Medium", "Hard"}
  {
  }

  // ---------------------------------------------------------------------------
  // The screen

  /** The body sent to submit-score. */
  datatype ScorePayload = ScorePayload(username: string, points: int, date: string)

  /** How the get-highest-score request ended. */
  datatype HighestScoreReply =
    | Found(highestScore: Option<int>)
    | HttpError(status: int)
    | NoResponse

  /** How the submit-score request ended; only success changes the screen. */
  datatype SubmitReply = Accepted | Refused | Unreachable

  /** The request is made only when both the name and the token are non-empty. */
  predicate FetchesHighest(userName: string, token: string) {
    userName != "" && token != ""
  }

  /** submitScore is called only from the 404 branch of fetchHighestScore. */
  predicate SubmitsScore(userName: string, token: string, reply: HighestScoreReply) {
    FetchesHighest(userName, token) && reply == HttpError(404)
  }

  /** The reply the client sees for each result of GameController.GetHighestScore. */
  function ReplyFor(r: ActionResult<HighestScoreBody>): HighestScoreReply {
    match r
    case Ok(body) => Found(Some(body.highestScore))
    case BadRequest(_) => HttpError(400)
    case Unauthorized(_) => HttpError(401)
    case NotFound(_) => HttpError(404)
  }

  /**
   * Against GameController, a score is submitted exactly when the
   * authenticated user has no stored score and the store did not fail.
   */
  lemma SubmitsOnlyWithoutStoredScore(c: GameController, userName: string, token: string, identity: Option<string>, storeFails: bool)
    requires FetchesHighest(userName, token)
    ensures SubmitsScore(userName, token, ReplyFor(c.GetHighestScore(identity, storeFails)))
      <==> !IsNullOrEmpty(identity) && !storeFails
           && forall i :: 0 <= i < |c.service.db.scores| ==> c.service.db.scores[i].username != identity.value
  {
    if !IsNullOrEmpty(identity) && !storeFails {
      var h := HighestPoints(c.service.db.scores, identity.value);
      assert c.service.GetHighestScore(identity, storeFails) == Success(h);
    }
  }

  class ResultScreen {
    const score: int
    const level: string
    var userName: string
    var token: string
    var highestScore: Option<int>
    /** The score payloads this screen has posted, in order. */
    var sent: seq<ScorePayload>

    constructor (score: int, level: string)
      ensures this.score == score && this.level == level
      ensures userName == "" && token == "" && highestScore == None && sent == []
    {
      this.score, this.level := score, level;
      userName, token, highestScore, sent := "", "", None, [];
    }

    /**
     * getUserNameAndToken: a missing or empty stored name becomes 'Guest', a
     * missing token ''. A storage failure gives the same defaults.
     */
    method LoadCredentials(storedUserName: Option<string>, storedToken: Option<string>, storageFails: bool)
      modifies this`userName, this`token
      ensures storageFails ==> userName == "Guest" && token == ""
      ensures !storageFails ==> userName == (if storedUserName.GetOr("") == "" then "Guest" else storedUserName.value)
      ensures !storageFails ==> token == storedToken.GetOr("")
      ensures userName != ""
    {
      if storageFails {
        userName := "Guest";
        token := "";
        return;
      }
      userName := if storedUserName.GetOr("") == "" then "Guest" else storedUserName.value;
      token := storedToken.GetOr("");
    }

    /**
     * The effect on [userName, token]: fetchHighestScore when both are set.
     * A reply becomes the shown highest score (0 when it is null); a 404
     * posts this round's score, which becomes the shown highest score once
     * accepted; any other failure changes nothing.
     */
    method FetchHighestScore(reply: HighestScoreReply, now: UtcFields, submitReply: SubmitReply)
      modifies this`highestScore, this`sent
      ensures sent == old(sent) + (if SubmitsScore(userName, token, reply) then [ScorePayload(userName, score, FormatDate(now))] else [])
      ensures FetchesHighest(userName, token) && reply.Found? ==> highestScore == Some(reply.highestScore.GetOr(0))
      ensures SubmitsScore(userName, token, reply) && submitReply == Accepted ==> highestScore == Some(score)
      ensures !(FetchesHighest(userName, token) && reply.Found?) && !(SubmitsScore(userName, token, reply) && submitReply == Accepted) ==>
        highestScore == old(highestScore)
    {
      if !FetchesHighest(userName, token) {
        return;
      }
      match reply {
        case Found(h) =>
          highestScore := Some(h.GetOr(0));
        case HttpError(status) =>
          if status == 404 {
            SubmitScore(now, submitReply);
          }
        case NoResponse =>
      }
    }

    /** submitScore: posts {username: userName, points: score, date: formatDate(now)}. */
    method SubmitScore(now: UtcFields, submitReply: SubmitReply)
      modifies this`highestScore, this`sent
      ensures sent == old(sent) + [ScorePayload(userName, score, FormatDate(now))]
      ensures highestScore == if submitReply == Accepted then Some(score) else old(highestScore)
    {
      var payload := ScorePayload(userName, score, FormatDate(now));
      sent := sent + [payload];
      if submitReply == Accepted {
        highestScore := Some(score);
      }
    }
  }
}
