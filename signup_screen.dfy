/**
 * SignUpScreen: the client-side checks that run before a signup request,
 * and the `error` / `isLoading` updates around that request. The request
 * itself is the `SignupForm` state change `Submit`; its outcome arrives as
 * `ReceiveReply`.
 */
module SignUpForm {
  import opened Wrappers
  import opened Http

  // ---------------------------------------------------------------------------
  // The two patterns

  /** The characters JavaScript's `\s` matches; `\S` is every other character. */
  predicate IsSpace(c: char) {
    var n := c as int;
    || n == 0x20 || (0x09 <= n <= 0x0D) || n == 0xA0 || n == 0x1680
    || (0x2000 <= n <= 0x200A) || n == 0x2028 || n == 0x2029
    || n == 0x202F || n == 0x205F || n == 0x3000 || n == 0xFEFF
  }

  /**
   * `/\S+@\S+\.\S+/` matches somewhere in `s` with its '@' at `at` and its
   * '.' at `dot`: one non-space before the '@' is enough for the first `\S+`,
   * the characters strictly between are all non-space, and one non-space
   * follows the '.'.
   */
  ghost predicate EmailMatchAt(s: string, at: int, dot: int) {
    && 1 <= at < |s| && !IsSpace(s[at - 1]) && s[at] == '@'
    && EmailMatchDot(s, at, dot)
  }

  /** The part of EmailMatchAt after the '@' at `at`. */
  ghost predicate EmailMatchDot(s: string, at: int, dot: int) {
    && 0 <= at && at + 1 < dot && dot + 1 < |s|
    && (forall m :: at + 1 <= m < dot ==> !IsSpace(s[m]))
    && s[dot] == '.' && !IsSpace(s[dot + 1])
  }

  /** The email pattern, unanchored: it matches anywhere in the string. */
  ghost predicate EmailPattern(s: string) {
    exists at, dot :: EmailMatchAt(s, at, dot)
  }

  /**
   * Scans right from `k` (past the '@' at `at`) through non-space characters
   * for a '.' that has at least one character before it and one non-space after it.
   */
  function DotAfter(s: string, at: nat, k: nat): (found: bool)
    requires at + 1 <= k
    decreases |s| - k
  {
    if k >= |s| || IsSpace(s[k]) then false
    else if k > at + 1 && s[k] == '.' && k + 1 < |s| && !IsSpace(s[k + 1]) then true
    else DotAfter(s, at, k + 1)
  }

  /** Tries every '@' from position `i` on. */
  function AtFrom(s: string, i: nat): bool
    decreases |s| - i
  {
    if i >= |s| then false
    else (1 <= i && s[i] == '@' && !IsSpace(s[i - 1]) && DotAfter(s, i, i + 1)) || AtFrom(s, i + 1)
  }

  lemma {:induction false} DotAfterMeans(s: string, at: nat, k: nat)
    requires at + 1 <= k && at < |s|
    requires forall m :: at + 1 <= m < k ==> m < |s| && !IsSpace(s[m])
    ensures DotAfter(s, at, k) <==> exists dot :: k <= dot && EmailMatchDot(s, at, dot)
    decreases |s| - k
  {
    if k >= |s| || IsSpace(s[k]) {
    } else if k > at + 1 && s[k] == '.' && k + 1 < |s| && !IsSpace(s[k + 1]) {
      assert EmailMatchDot(s, at, k);
    } else {
      DotAfterMeans(s, at, k + 1);
      if exists dot :: k <= dot && EmailMatchDot(s, at, dot) {
        var dot :| k <= dot && EmailMatchDot(s, at, dot);
        assert dot != k;
      }
    }
  }

  lemma {:induction false} AtFromMeans(s: string, i: nat)
    ensures AtFrom(s, i) <==> exists at, dot :: i <= at && EmailMatchAt(s, at, dot)
    decreases |s| - i
  {
    if i < |s| {
      AtFromMeans(s, i + 1);
      var here := 1 <= i && s[i] == '@' && !IsSpace(s[i - 1]);
      if here {
        DotAfterMeans(s, i, i + 1);
        if DotAfter(s, i, i + 1) {
          var dot :| i + 1 <= dot && EmailMatchDot(s, i, dot);
          assert EmailMatchAt(s, i, dot);
        }
      }
      if exists at, dot :: i <= at && EmailMatchAt(s, at, dot) {
        var at, dot :| i <= at && EmailMatchAt(s, at, dot);
        if at == i {
          assert EmailMatchDot(s, i, dot);
        }
      }
    }
  }

  /** `/\S+@\S+\.\S+/.test(email)`: the scan accepts exactly the strings the email pattern matches. */
  function IsEmail(s: string): (ok: bool)
    ensures ok <==> EmailPattern(s)
  {
    AtFromMeans(s, 0);
    AtFrom(s, 0)
  }

  /** `/^\d{10}$/.test(phoneNumber)`: exactly ten decimal digits and nothing else. */
  function IsPhone(s: string): (ok: bool)
    ensures ok <==> |s| == 10 && forall i :: 0 <= i < |s| ==> '0' <= s[i] <= '9'
  {
    |s| == 10 && AllDigits(s)
  }

  function AllDigits(s: string): (ok: bool)
    ensures ok <==> forall i :: 0 <= i < |s| ==> '0' <= s[i] <= '9'
  {
    if s == [] then true else '0' <= s[0] <= '9' && AllDigits(s[1..])
  }

  // ---------------------------------------------------------------------------
  // The checks in order

  const RequiredMessage := "All fields are required."
  const PasswordMessage := "Password must be at least 6 characters."
  const EmailMessage := "Please enter a valid email."
  const PhoneMessage := "Please enter a valid phone number."
  const FailedMessage := "Signup failed. Please try again."

  /**
   * The first failing check of handleSignup, or None when all pass:
   * required fields, then password length, then email, then phone.
   */
  function ValidateSignup(name: string, email: string, password: string, phoneNumber: string): (r: Option<string>)
    ensures (name == "" || email == "" || password == "" || phoneNumber == "") <==> r == Some(RequiredMessage)
    ensures r == Some(PasswordMessage) <==>
      name != "" && email != "" && password != "" && phoneNumber != "" && |password| < 6
    ensures r == Some(EmailMessage) <==>
      name != "" && email != "" && password != "" && phoneNumber != "" && |password| >= 6 && !EmailPattern(email)
    ensures r == Some(PhoneMessage) <==>
      name != "" && email != "" && phoneNumber != "" && |password| >= 6 && EmailPattern(email) && !IsPhone(phoneNumber)
    ensures r.None? <==>
      name != "" && |password| >= 6 && EmailPattern(email) && |phoneNumber| == 10
      && forall i :: 0 <= i < |phoneNumber| ==> '0' <= phoneNumber[i] <= '9'
  {
    if name == "" || email == "" || password == "" || phoneNumber == "" then Some(RequiredMessage)
    else if |password| < 6 then Some(PasswordMessage)
    else if !IsEmail(email) then Some(EmailMessage)
    else if !IsPhone(phoneNumber) then Some(PhoneMessage)
    else None
  }

  /** The length check is `< 6`: six characters pass, five do not. */
  lemma PasswordBoundary()
    ensures ValidateSignup("ann", "a@b.co", "123456", "0123456789").None?
    ensures ValidateSignup("ann", "a@b.co", "12345", "0123456789") == Some(PasswordMessage)
  {
    assert EmailMatchAt("a@b.co", 1, 3);
    assert EmailPattern("a@b.co");
    var phone := "0123456789";
    assert forall i :: 0 <= i < |phone| ==> '0' <= phone[i] <= '9';
  }

  /** The email pattern is not anchored: text around a match does not matter, spaces in it do. */
  lemma EmailUnanchored()
    ensures EmailPattern("x y@z.w v")
    ensures !IsEmail("a @b.c")
  {
    assert EmailMatchAt("x y@z.w v", 3, 5);
  }

  // ---------------------------------------------------------------------------
  // The screen

  /** The body of the signup request. */
  datatype RegisterPayload = RegisterPayload(name: string, email: string, password: string, phoneNumber: string)

  /** How the signup request ended: accepted, or failed with the body's `message` when there was one. */
  datatype SignupReply = Accepted | Failed(message: Option<string>)

  /** The message shown after a reply: `data.message || 'Signup failed. Please try again.'`. */
  function ErrorAfter(reply: SignupReply): (r: string)
    requires reply.Failed?
    ensures r != ""
    ensures r == FailedMessage || reply.message == Some(r)
    ensures reply.message.GetOr("") != "" ==> r == reply.message.value
  {
    if reply.message.GetOr("") == "" then FailedMessage else reply.message.value
  }

  /**
   * The reply the client sees for each result of AuthController.Signup. The
   * controller's bodies are plain strings, which have no `message` field.
   */
  function ReplyFor(r: ActionResult<string>): SignupReply {
    if r.Ok? then Accepted else Failed(None)
  }

  /** A taken name is refused by the server, and the client shows its own default message. */
  lemma TakenNameShowsDefaultMessage(r: ActionResult<string>)
    requires r == BadRequest("Name is already in use.")
    ensures ReplyFor(r).Failed? && ErrorAfter(ReplyFor(r)) == FailedMessage
  {
  }

  class SignupForm {
    var name: string
    var email: string
    var password: string
    var phoneNumber: string
    var error: string
    var isLoading: bool
    /** The signup requests sent, in order. */
    var sent: seq<RegisterPayload>
    var navigatedToLogin: bool

    constructor ()
      ensures name == "" && email == "" && password == "" && phoneNumber == ""
      ensures error == "" && !isLoading && sent == [] && !navigatedToLogin
    {
      name, email, password, phoneNumber := "", "", "", "";
      error, isLoading, sent, navigatedToLogin := "", false, [], false;
    }

    /** The text inputs. */
    method Edit(name: string, email: string, password: string, phoneNumber: string)
      modifies this`name, this`email, this`password, this`phoneNumber
      ensures this.name == name && this.email == email && this.password == password && this.phoneNumber == phoneNumber
    {
      this.name, this.email, this.password, this.phoneNumber := name, email, password, phoneNumber;
    }

    /**
     * handleSignup up to the request: the first failing check sets its
     * message and nothing is sent; otherwise `isLoading` is set, the error
     * cleared and one request sent. The button is disabled while loading.
     */
    method Submit()
      requires !isLoading
      modifies this`error, this`isLoading, this`sent
      ensures var check := ValidateSignup(name, email, password, phoneNumber);
        && (check.Some? ==> error == check.value && !isLoading && sent == old(sent))
        && (check.None? ==> error == "" && isLoading && sent == old(sent) + [RegisterPayload(name, email, password, phoneNumber)])
    {
      var check := ValidateSignup(name, email, password, phoneNumber);
      if check.Some? {
        error := check.value;
        return;
      }
      isLoading := true;
      error := "";
      sent := sent + [RegisterPayload(name, email, password, phoneNumber)];
    }

    /** The rest of handleSignup: the reply sets the error or navigates; `finally` clears isLoading. */
    method ReceiveReply(reply: SignupReply)
      requires isLoading
      modifies this`error, this`isLoading, this`navigatedToLogin
      ensures !isLoading
      ensures reply == Accepted ==> navigatedToLogin && error == old(error)
      ensures reply.Failed? ==> error == ErrorAfter(reply) && error != "" && navigatedToLogin == old(navigatedToLogin)
    {
      match reply {
        case Accepted =>
          navigatedToLogin := true;
        case Failed(message) =>
          error := if message.GetOr("") == "" then FailedMessage else message.value;
      }
      isLoading := false;
    }
  }
}
