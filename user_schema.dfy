/** The stored shape of a user and the field constraints the document schema
    enforces when a user is saved. */
module UserSchema {
  import opened Base
  import opened Text

  const MinUsernameLength := 3
  const MaxUsernameLength := 30
  const MinPasswordLength := 6
  const MaxBioLength := 150

  /** A user document. Only the password hash is kept; see README. */
  datatype User = User(
    id: UserId,
    username: string,
    name: Option<string>,
    mobile: string,
    hashedPassword: string,
    profilePic: string,
    bio: string,
    posts: seq<PostId>,
    createdAt: Time,
    updatedAt: Time)

  predicate UsernameConforms(username: string)
  {
    MinUsernameLength <= |username| <= MaxUsernameLength
  }

  /** Schema constraints on one user: username of 3 to 30 characters, a
      ten-digit mobile number, a (non-empty) password hash, a bio of at most
      150 characters. */
  predicate UserConforms(u: User)
  {
    && UsernameConforms(u.username)
    && IsTenDigits(u.mobile)
    && u.hashedPassword != ""
    && |u.bio| <= MaxBioLength
  }

  /** A freshly saved user: profile picture and bio take their empty-string
      defaults and the list of post ids starts empty. */
  function NewUser(id: UserId, username: string, name: Option<string>, mobile: string,
                   hashedPassword: string, now: Time): User
  {
    User(id, username, name, mobile, hashedPassword, "", "", [], now, now)
  }
}
