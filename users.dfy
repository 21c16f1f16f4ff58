/** The user store and its three request handlers: signup, login and the
    profile update. */
module Users {
  import opened Base
  import opened Text
  import opened UserSchema

  /** The user record as signup and login send it back. It has no field for
      the password or its hash. Signup leaves out the creation time. */
  datatype PublicUser = PublicUser(
    id: UserId,
    username: string,
    name: Option<string>,
    mobile: string,
    profilePic: string,
    bio: string,
    createdAt: Option<Time>)

  function SignupView(u: User): PublicUser
  {
    PublicUser(u.id, u.username, u.name, u.mobile, u.profilePic, u.bio, None)
  }

  function LoginView(u: User): PublicUser
  {
    PublicUser(u.id, u.username, u.name, u.mobile, u.profilePic, u.bio, Some(u.createdAt))
  }

  /** What signup and login send back does not depend on the stored hash. */
  lemma ViewsIgnoreCredentials(u: User, hash: string)
    ensures SignupView(u.(hashedPassword := hash)) == SignupView(u)
    ensures LoginView(u.(hashedPassword := hash)) == LoginView(u)
  {
  }

  // ---------------------------------------------------------------------
  // Signup
  // ---------------------------------------------------------------------

  /** The body checks of signup, in the order the handler makes them:
      required fields, password length, mobile pattern. None when all pass. */
  function SignupFieldError(username: Option<string>, mobile: Option<string>, password: Option<string>)
    : (e: Option<Error>)
    ensures e.None? <==> (!Absent(username) && !Absent(mobile) && !Absent(password) &&
                          |password.value| >= MinPasswordLength && IsTenDigits(mobile.value))
    ensures Absent(username) || Absent(mobile) || Absent(password) ==> e == Some(BadRequest(AllFieldsRequired))
    ensures !Absent(username) && !Absent(mobile) && !Absent(password) && |password.value| < MinPasswordLength ==>
              e == Some(BadRequest(PasswordTooShort))
    ensures (!Absent(username) && !Absent(mobile) && !Absent(password) && |password.value| >= MinPasswordLength &&
             !IsTenDigits(mobile.value)) ==> e == Some(BadRequest(MobileNotTenDigits))
  {
    if Absent(username) || Absent(mobile) || Absent(password) then Some(BadRequest(AllFieldsRequired))
    else if |password.value| < MinPasswordLength then Some(BadRequest(PasswordTooShort))
    else if !IsTenDigits(mobile.value) then Some(BadRequest(MobileNotTenDigits))
    else None
  }

  /** Some stored user already has this username or this mobile number. */
  predicate Taken(users: seq<User>, username: string, mobile: string)
  {
    exists i :: 0 <= i < |users| && (users[i].username == username || users[i].mobile == mobile)
  }

  // ---------------------------------------------------------------------
  // Login
  // ---------------------------------------------------------------------

  /** A login handle names `u` when it is its username or its mobile number. */
  predicate Names(handle: string, u: User)
  {
    u.username == handle || u.mobile == handle
  }

  /** The first stored user the handle names, if any. */
  function FindByHandle(users: seq<User>, handle: string): (r: Option<nat>)
    ensures r.Some? ==> r.value < |users| && Names(handle, users[r.value])
    ensures r.Some? ==> forall j :: 0 <= j < r.value ==> !Names(handle, users[j])
    ensures r.None? ==> forall j :: 0 <= j < |users| ==> !Names(handle, users[j])
  {
    if users == [] then None
    else if Names(handle, users[0]) then Some(0)
    else match FindByHandle(users[1..], handle)
      case None => None
      case Some(k) => Some(k + 1)
  }

  /** Login by username or mobile number. Missing fields are a 400; an
      unknown handle and a wrong password are the same 401; on success the
      public view of the user the handle names is returned. Checking the
      password against the stored hash is the parameter `passwordMatches`. */
  function Login(users: seq<User>, handle: Option<string>, password: Option<string>,
                 passwordMatches: (string, string) -> bool): (r: Result<PublicUser>)
    ensures Absent(handle) || Absent(password) ==> r == Err(BadRequest(CredentialsRequired))
    ensures !Absent(handle) && !Absent(password) && r.Err? ==> r.error == Unauthorized(InvalidCredentials)
    ensures !Absent(handle) && !Absent(password) &&
            (forall i :: 0 <= i < |users| ==> !Names(handle.value, users[i])) ==>
              r == Err(Unauthorized(InvalidCredentials))
    ensures r.Ok? ==> exists i :: 0 <= i < |users| && Names(handle.value, users[i]) &&
                                  passwordMatches(password.value, users[i].hashedPassword) &&
                                  r.value == LoginView(users[i])
    ensures (!Absent(handle) && !Absent(password) && FindByHandle(users, handle.value).Some?) ==>
              var i := FindByHandle(users, handle.value).value;
              && (r.Ok? <==> passwordMatches(password.value, users[i].hashedPassword))
              && (r.Ok? ==> r.value == LoginView(users[i]))
  {
    if Absent(handle) || Absent(password) then Err(BadRequest(CredentialsRequired))
    else match FindByHandle(users, handle.value)
      case None => Err(Unauthorized(InvalidCredentials))
      case Some(i) =>
        if passwordMatches(password.value, users[i].hashedPassword) then Ok(LoginView(users[i]))
        else Err(Unauthorized(InvalidCredentials))
  }

  /** In a store where usernames and mobile numbers are each unique, a
      username identifies the user: login with it checks that user's hash. */
  lemma LoginByUsername(users: seq<User>, i: nat, password: string, passwordMatches: (string, string) -> bool)
    requires i < |users| && users[i].username != ""
    requires forall a, b :: 0 <= a < b < |users| ==> users[a].username != users[b].username
    requires forall j :: 0 <= j < |users| ==> users[j].mobile != users[i].username
    requires password != ""
    ensures Login(users, Some(users[i].username), Some(password), passwordMatches) ==
            if passwordMatches(password, users[i].hashedPassword) then Ok(LoginView(users[i]))
            else Err(Unauthorized(InvalidCredentials))
  {
    var k := FindByHandle(users, users[i].username);
    assert Names(users[i].username, users[i]);
    assert k == Some(i);
  }

  /** In the same way, a mobile number that is no user's username and no
      other user's mobile identifies its user: login with it checks that
      user's hash. */
  lemma LoginByMobile(users: seq<User>, i: nat, password: string, passwordMatches: (string, string) -> bool)
    requires i < |users| && users[i].mobile != ""
    requires forall a, b :: 0 <= a < b < |users| ==> users[a].mobile != users[b].mobile
    requires forall j :: 0 <= j < |users| ==> users[j].username != users[i].mobile
    requires password != ""
    ensures Login(users, Some(users[i].mobile), Some(password), passwordMatches) ==
            if passwordMatches(password, users[i].hashedPassword) then Ok(LoginView(users[i]))
            else Err(Unauthorized(InvalidCredentials))
  {
    var k := FindByHandle(users, users[i].mobile);
    assert Names(users[i].mobile, users[i]);
    assert k == Some(i);
  }

  // ---------------------------------------------------------------------
  // Profile update
  // ---------------------------------------------------------------------

  /** The bio after an update: replaced only by a supplied, non-empty bio. */
  function UpdatedBio(current: string, bio: Option<string>): string
  {
    if Absent(bio) then current else bio.value
  }

  /** The picture after an update: replaced only by the location of a
      successful upload. */
  function UpdatedPicture(current: string, picture: Option<Upload>): string
  {
    if picture.Some? && picture.value.Uploaded? then picture.value.location else current
  }

  /** The record a profile update saves. The document's timestamps move the
      update time to `now` only when the bio or the picture actually changed:
      writing back the value already stored is no modification. */
  function UpdatedProfile(u: User, bio: Option<string>, picture: Option<Upload>, now: Time): (v: User)
    ensures v.bio == UpdatedBio(u.bio, bio) && v.profilePic == UpdatedPicture(u.profilePic, picture)
    ensures v.updatedAt == if v.bio != u.bio || v.profilePic != u.profilePic then now else u.updatedAt
    ensures v == u.(bio := v.bio, profilePic := v.profilePic, updatedAt := v.updatedAt)
  {
    var newBio := UpdatedBio(u.bio, bio);
    var newPicture := UpdatedPicture(u.profilePic, picture);
    var changed := newBio != u.bio || newPicture != u.profilePic;
    u.(bio := newBio, profilePic := newPicture, updatedAt := if changed then now else u.updatedAt)
  }

  /** An update that supplies neither a bio nor a picture saves the record
      exactly as it was, update time included. */
  lemma EmptyUpdateKeepsRecord(u: User, now: Time)
    ensures UpdatedProfile(u, None, None, now) == u
  {
  }

  /** Repeating an update is no change: the second one writes back the bio
      and the picture URL the first one stored (the picture's object key is
      fixed per user), so it leaves the record, update time included, as the
      first one left it. */
  lemma UpdateIsIdempotent(u: User, bio: Option<string>, picture: Option<Upload>, t1: Time, t2: Time)
    ensures UpdatedProfile(UpdatedProfile(u, bio, picture, t1), bio, picture, t2) == UpdatedProfile(u, bio, picture, t1)
  {
    var v := UpdatedProfile(u, bio, picture, t1);
    assert UpdatedBio(v.bio, bio) == v.bio;
    assert UpdatedPicture(v.profilePic, picture) == v.profilePic;
  }

  // ---------------------------------------------------------------------
  // The store
  // ---------------------------------------------------------------------

  /** All users, in signup order; a user's id is its position. */
  class UserStore {
    var users: seq<User>

    /** Every user conforms to the schema; usernames are unique and mobile
        numbers are unique. */
    ghost predicate Valid()
      reads this
    {
      && (forall i :: 0 <= i < |users| ==> users[i].id == i && UserConforms(users[i]))
      && (forall i, j :: 0 <= i < j < |users| ==>
            users[i].username != users[j].username && users[i].mobile != users[j].mobile)
    }

    constructor ()
      ensures Valid() && users == []
    {
      users := [];
    }

    /** Signup: body checks, then the uniqueness check against every stored
        user, then the save, whose schema check rejects a username outside
        3 to 30 characters (or an empty hash) with a server error. Only the
        hash `hashed` of the password is stored. Every failure leaves the
        store unchanged. */
    method Signup(username: Option<string>, name: Option<string>, mobile: Option<string>,
                  password: Option<string>, hashed: string, now: Time)
      returns (r: Result<PublicUser>)
      requires Valid()
      modifies this
      ensures Valid()
      ensures SignupFieldError(username, mobile, password).Some? ==>
                r == Err(SignupFieldError(username, mobile, password).value)
      ensures SignupFieldError(username, mobile, password).None? && Taken(old(users), username.value, mobile.value) ==>
                r == Err(BadRequest(UserExists))
      ensures (SignupFieldError(username, mobile, password).None? && !Taken(old(users), username.value, mobile.value) &&
               !(UsernameConforms(username.value) && hashed != "")) ==> r == Err(ServerError(SchemaViolation))
      ensures r.Ok? <==> (SignupFieldError(username, mobile, password).None? &&
                          !Taken(old(users), username.value, mobile.value) &&
                          UsernameConforms(username.value) && hashed != "")
      ensures r.Err? ==> users == old(users)
      ensures r.Ok? ==>
                && users == old(users) + [NewUser(|old(users)|, username.value, name, mobile.value, hashed, now)]
                && r.value == SignupView(users[|old(users)|])
    {
      var fieldError := SignupFieldError(username, mobile, password);
      if fieldError.Some? {
        return Err(fieldError.value);
      }
      if Taken(users, username.value, mobile.value) {
        return Err(BadRequest(UserExists));
      }
      var user := NewUser(|users|, username.value, name, mobile.value, hashed, now);
      if !UserConforms(user) {
        return Err(ServerError(SchemaViolation));
      }
      users := users + [user];
      r := Ok(SignupView(user));
    }

    /** Profile update. A missing user is a 404. The bio changes only when a
        non-empty one is supplied, the picture only when an upload succeeded;
        the update time moves to `now` only when one of them changed, and
        nothing else changes. A failed upload, or a bio over 150 characters
        rejected by the save, ends the request without a response and without
        a change. */
    method UpdateProfile(userId: UserId, bio: Option<string>, picture: Option<Upload>, now: Time)
      returns (r: Result<User>)
      requires Valid()
      modifies this
      ensures Valid()
      ensures userId >= |old(users)| ==> r == Err(NotFound(UserNotFound))
      ensures userId < |old(users)| && picture == Some(UploadFailed) ==> r == Err(NoResponse(ProfileUploadFailed))
      ensures (userId < |old(users)| && picture != Some(UploadFailed) &&
               |UpdatedBio(old(users)[userId].bio, bio)| > MaxBioLength) ==> r == Err(NoResponse(BioTooLong))
      ensures r.Ok? <==> (userId < |old(users)| && picture != Some(UploadFailed) &&
                          |UpdatedBio(old(users)[userId].bio, bio)| <= MaxBioLength)
      ensures r.Err? ==> users == old(users)
      ensures r.Ok? ==>
                && users == old(users)[userId := r.value]
                && r.value == UpdatedProfile(old(users)[userId], bio, picture, now)
    {
      if userId >= |users| {
        return Err(NotFound(UserNotFound));
      }
      var stored := users[userId];
      var user := stored;
      if !Absent(bio) {
        user := user.(bio := bio.value);
      }
      if picture == Some(UploadFailed) {
        return Err(NoResponse(ProfileUploadFailed));
      }
      if picture.Some? {
        user := user.(profilePic := picture.value.location);
      }
      if user.bio != stored.bio || user.profilePic != stored.profilePic {
        user := user.(updatedAt := now);
      }
      if |user.bio| > MaxBioLength {
        return Err(NoResponse(BioTooLong));
      }
      users := users[userId := user];
      r := Ok(user);
    }
  }
}
