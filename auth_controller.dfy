/**
 * AuthController: signup, login and the profile endpoints over the Users
 * collection of MongoDBService. Passwords are stored and compared as given.
 */
module AuthApi {
  import opened Wrappers
  import opened Http
  import opened Users
  import opened MongoDb

  datatype RegisterRequest = RegisterRequest(name: string, email: string, password: string, phoneNumber: string)
  datatype LoginRequest = LoginRequest(name: string, password: string)
  datatype UpdateProfileRequest = UpdateProfileRequest(name: string, email: string, password: string, phoneNumber: string)

  /** The login body without its token: Success, Message, UserId and UserName. */
  datatype LoginBody = LoginBody(success: bool, message: string, userId: nat, userName: string)

  /** The profile body: Id, Name, Email and PhoneNumber; it has no password field. */
  datatype UserProfile = UserProfile(id: nat, name: string, email: string, phoneNumber: string)

  class AuthController {
    const db: MongoDBService

    constructor (db: MongoDBService)
      ensures this.db == db
    {
      this.db := db;
    }

    /** POST signup: a taken Name is refused; otherwise exactly one user is added. */
    method Signup(request: RegisterRequest) returns (r: ActionResult<string>)
      requires db.Valid()
      modifies db
      ensures db.Valid() && db.scores == old(db.scores)
      ensures FindByName(old(db.users), request.name).Some? ==>
        r == BadRequest("Name is already in use.") && db.users == old(db.users)
      ensures FindByName(old(db.users), request.name).None? ==>
        && r == Ok("User registered successfully.")
        && db.users == old(db.users) + [User(old(db.nextUserId), request.name, request.email, request.phoneNumber, request.password)]
      ensures UniqueNames(old(db.users)) ==> UniqueNames(db.users)
    {
      var existing := db.GetUserByName(request.name);
      if existing.Some? {
        return BadRequest("Name is already in use.");
      }
      AddingFreeNameKeepsNamesUnique(db.users, User(db.nextUserId, request.name, request.email, request.phoneNumber, request.password));
      var _ := db.AddUser(request.name, request.email, request.password, request.phoneNumber);
      r := Ok("User registered successfully.");
    }

    /**
     * POST login: Unauthorized unless the first user with that Name has
     * exactly that Password; on success the body carries that user's Id and Name.
     */
    function Login(request: LoginRequest): (r: ActionResult<LoginBody>)
      reads db
      ensures r.Unauthorized? <==>
        (forall i :: 0 <= i < |db.users| ==> db.users[i].name != request.name)
        || FindByName(db.users, request.name).value.password != request.password
      ensures r.Unauthorized? ==> r == Unauthorized("Invalid credentials.")
      ensures !r.Unauthorized? ==>
        && FindByName(db.users, request.name).Some?
        && r == Ok(LoginBody(true, "Login successful.", FindByName(db.users, request.name).value.id, request.name))
      ensures r.Ok? ==> exists i :: (
        && 0 <= i < |db.users|
        && db.users[i].name == request.name && db.users[i].password == request.password
        && r.body == LoginBody(true, "Login successful.", db.users[i].id, db.users[i].name))
    {
      match db.GetUserByName(request.name)
      case None => Unauthorized("Invalid credentials.")
      case Some(user) =>
        if user.password != request.password then Unauthorized("Invalid credentials.")
        else Ok(LoginBody(true, "Login successful.", user.id, user.name))
    }

    /**
     * PUT User/{userId}/update: a missing id gives BadRequest, an unknown one
     * NotFound; otherwise Name, Email, Password and PhoneNumber are all
     * overwritten. The new Name is not checked against other users.
     */
    method UpdateProfile(userId: Option<nat>, request: UpdateProfileRequest) returns (r: ActionResult<string>)
      requires db.Valid()
      modifies db
      ensures db.Valid() && db.scores == old(db.scores)
      ensures userId.None? ==> r == BadRequest("User ID is required.") && db.users == old(db.users)
      ensures userId.Some? && FindById(old(db.users), userId.value).None? ==>
        r == NotFound("User not found.") && db.users == old(db.users)
      ensures userId.Some? && FindById(old(db.users), userId.value).Some? ==>
        && r == Ok("Profile updated successfully.")
        && db.users == ReplaceById(old(db.users), User(userId.value, request.name, request.email, request.phoneNumber, request.password))
    {
      if userId.None? {
        return BadRequest("User ID is required.");
      }
      var user := db.GetUserById(userId.value);
      if user.None? {
        return NotFound("User not found.");
      }
      var updated := user.value.(name := request.name, email := request.email,
                                 password := request.password, phoneNumber := request.phoneNumber);
      db.UpdateUser(updated);
      r := Ok("Profile updated successfully.");
    }

    /**
     * DELETE User/{userId}/delete: a missing id gives BadRequest, an unknown
     * one NotFound; otherwise only that user is removed.
     */
    method DeleteProfile(userId: Option<nat>) returns (r: ActionResult<string>)
      requires db.Valid()
      modifies db
      ensures db.Valid() && db.scores == old(db.scores)
      ensures userId.None? ==> r == BadRequest("User ID is required.") && db.users == old(db.users)
      ensures userId.Some? && FindById(old(db.users), userId.value).None? ==>
        r == NotFound("User not found.") && db.users == old(db.users)
      ensures userId.Some? && FindById(old(db.users), userId.value).Some? ==>
        && r == Ok("Profile deleted successfully.")
        && db.users == RemoveById(old(db.users), userId.value)
        && FindById(db.users, userId.value).None?
        && (forall u :: u in old(db.users) && u.id != userId.value ==> u in db.users)
    {
      if userId.None? {
        return BadRequest("User ID is required.");
      }
      var user := db.GetUserById(userId.value);
      if user.None? {
        return NotFound("User not found.");
      }
      RemoveByIdRemovesOnlyThatUser(db.users, userId.value);
      db.DeleteUser(userId.value);
      r := Ok("Profile deleted successfully.");
    }

    /** GET User/{userId}: the stored Id, Name, Email and PhoneNumber, never the Password. */
    function GetUserProfile(userId: Option<nat>): (r: ActionResult<UserProfile>)
      reads db
      ensures userId.None? ==> r == BadRequest("User ID is required.")
      ensures userId.Some? && FindById(db.users, userId.value).None? ==> r == NotFound("User not found.")
      ensures userId.Some? && FindById(db.users, userId.value).Some? ==>
        var u := FindById(db.users, userId.value).value;
        r == Ok(UserProfile(u.id, u.name, u.email, u.phoneNumber))
      ensures r.Ok? ==> exists u :: (
        u in db.users && u.id == userId.value && r.body == UserProfile(u.id, u.name, u.email, u.phoneNumber))
    {
      if userId.None? then BadRequest("User ID is required.")
      else
        match db.GetUserById(userId.value)
        case None => NotFound("User not found.")
        case Some(u) => Ok(UserProfile(u.id, u.name, u.email, u.phoneNumber))
    }
  }
}
