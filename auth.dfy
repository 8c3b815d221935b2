/**
 * The account endpoints: registration, which adds a user with one default
 * profile, and login, which checks the credentials, then the account's
 * status. The password digest (SHA-256, Base64-encoded) is the parameter
 * `hash`; the signed token a login returns is not modelled.
 */
module AuthApi {
  import opened Wrappers
  import opened Collections
  import opened Text
  import opened Models
  import opened Database

  /** POST api/auth/register; a missing JSON field is `None`. */
  datatype RegisterRequest = RegisterRequest(
    email: Option<string>,
    password: Option<string>,
    firstName: Option<string>,
    lastName: Option<string>)

  /** POST api/auth/login. */
  datatype LoginRequest = LoginRequest(email: Option<string>, password: Option<string>)

  /** The profile name used when the registration gives no first name. */
  const DefaultProfileName := "Default"

  /** A password matches a stored digest when its own digest equals it. */
  predicate VerifyPassword(hash: string -> string, password: string, passwordHash: string) {
    hash(password) == passwordHash
  }

  /** The digest stored for a password is accepted for that password. */
  lemma StoredHashVerifies(hash: string -> string, password: string)
    ensures VerifyPassword(hash, password, hash(password))
  {
  }

  /** Both credentials are present and not blank. */
  predicate HasCredentials(email: Option<string>, password: Option<string>) {
    !IsNullOrWhiteSpace(email) && !IsNullOrWhiteSpace(password)
  }

  /** Some user has e-mail `email` (ordinal comparison). */
  predicate EmailTaken(users: seq<User>, email: string) {
    exists u | u in users :: u.email == email
  }

  /**
   * `FirstOrDefault(u => u.Email == email)`: the first user with that e-mail,
   * the only one when e-mails are unique.
   */
  function FindByEmail(users: seq<User>, email: string): (r: Option<User>)
    ensures r.None? <==> !EmailTaken(users, email)
    ensures r.Some? ==> r.value in users && r.value.email == email
    ensures r.Some? && DistinctBy(users, UserEmail) ==> forall u | u in users && u.email == email :: u == r.value
  {
    match FirstIndex(users, (u: User) => u.email == email)
    case None => None
    case Some(i) => Some(users[i])
  }

  /** The user a successful registration creates. */
  function NewUser(id: int, req: RegisterRequest, passwordHash: string, now: int): User
    requires req.email.Some?
  {
    User(id, req.email.value, passwordHash, req.firstName, req.lastName, DefaultRole, now, DefaultIsActive)
  }

  /** The default profile of a new user: the first name, or "Default" when there is none; not a kids profile. */
  function DefaultProfile(id: int, userId: int, firstName: Option<string>, now: int): (p: Profile)
    ensures p.userId == userId && !p.isKidsProfile
    ensures firstName.Some? ==> p.profileName == firstName.value
    ensures firstName.None? ==> p.profileName == DefaultProfileName
  {
    Profile(id, userId, firstName.GetOr(DefaultProfileName), None, false, now)
  }

  /**
   * POST api/auth/register: BadRequest with no change for a blank credential
   * or an e-mail already in use; otherwise one active user with role "User"
   * and the password's digest, and one default profile of theirs, are added,
   * and the user's identity is returned.
   */
  method Register(db: Store, req: RegisterRequest, hash: string -> string, now: int) returns (r: Response<int>)
    requires db.UserTableValid() && db.ProfileTableValid()
    modifies db`users, db`nextUserId, db`profiles, db`nextProfileId
    ensures db.UserTableValid() && db.ProfileTableValid()
    ensures !HasCredentials(req.email, req.password) ==>
      r == BadRequest("Email and password are required.") && db.users == old(db.users) && db.profiles == old(db.profiles)
    ensures HasCredentials(req.email, req.password) && EmailTaken(old(db.users), req.email.value) ==>
      r == BadRequest("Email already exists.") && db.users == old(db.users) && db.profiles == old(db.profiles)
    ensures HasCredentials(req.email, req.password) && !EmailTaken(old(db.users), req.email.value) ==>
      var uid := old(db.nextUserId);
      && r == Ok(uid)
      && db.users == old(db.users) + [NewUser(uid, req, hash(req.password.value), now)]
      && db.profiles == old(db.profiles) + [DefaultProfile(old(db.nextProfileId), uid, req.firstName, now)]
  {
    if IsNullOrWhiteSpace(req.email) || IsNullOrWhiteSpace(req.password) {
      return BadRequest("Email and password are required.");
    }
    var email := req.email.value;
    if exists u | u in db.users :: u.email == email {
      return BadRequest("Email already exists.");
    }
    var user := NewUser(db.nextUserId, req, hash(req.password.value), now);
    DistinctByAppend(db.users, user, UserKey);
    DistinctByAppend(db.users, user, UserEmail);
    db.users := db.users + [user];
    db.nextUserId := db.nextUserId + 1;
    var profile := DefaultProfile(db.nextProfileId, user.id, req.firstName, now);
    DistinctByAppend(db.profiles, profile, ProfileKey);
    db.profiles := db.profiles + [profile];
    db.nextProfileId := db.nextProfileId + 1;
    return Ok(user.id);
  }

  /** What a successful login returns about the user: the account and its profiles (the token is not modelled). */
  datatype LoginResult = LoginResult(user: User, profiles: seq<Profile>)

  /** The profile belongs to user `userId`. */
  function OwnedBy(userId: int): Profile -> bool {
    (p: Profile) => p.userId == userId
  }

  /** The profiles of user `userId`, in table order. */
  function ProfilesOf(profiles: seq<Profile>, userId: int): (r: seq<Profile>)
    ensures forall p :: p in r <==> p in profiles && p.userId == userId
    ensures forall p :: multiset(r)[p] == if p.userId == userId then multiset(profiles)[p] else 0
    ensures Subsequence(r, profiles)
  {
    Filter(profiles, OwnedBy(userId))
  }

  /**
   * POST api/auth/login, checked in this order: BadRequest for a blank
   * credential; Unauthorized "Invalid email or password." when no user has the
   * e-mail or the digest differs; Unauthorized "Account is inactive." only for
   * a user whose password was accepted; otherwise that user and their profiles.
   */
  function Login(users: seq<User>, profiles: seq<Profile>, req: LoginRequest, hash: string -> string)
    : (r: Response<LoginResult>)
    ensures !HasCredentials(req.email, req.password) <==> r == BadRequest("Email and password are required.")
    ensures r == Unauthorized("Invalid email or password.") <==>
      HasCredentials(req.email, req.password)
      && (FindByEmail(users, req.email.value).None?
          || !VerifyPassword(hash, req.password.value, FindByEmail(users, req.email.value).value.passwordHash))
    ensures r == Unauthorized("Account is inactive.") ==>
      exists u | u in users :: u.email == req.email.value && VerifyPassword(hash, req.password.value, u.passwordHash) && !u.isActive
    ensures r.Ok? ==>
      && HasCredentials(req.email, req.password)
      && r.value.user in users && r.value.user.email == req.email.value && r.value.user.isActive
      && VerifyPassword(hash, req.password.value, r.value.user.passwordHash)
      && r.value.profiles == ProfilesOf(profiles, r.value.user.id)
    ensures r.BadRequest? || r.Unauthorized? || r.Ok?
  {
    if !HasCredentials(req.email, req.password) then BadRequest("Email and password are required.")
    else match FindByEmail(users, req.email.value)
      case None => Unauthorized("Invalid email or password.")
      case Some(user) =>
        if !VerifyPassword(hash, req.password.value, user.passwordHash) then Unauthorized("Invalid email or password.")
        else if !user.isActive then Unauthorized("Account is inactive.")
        else Ok(LoginResult(user, ProfilesOf(profiles, user.id)))
  }

  /**
   * Among unique e-mails, login succeeds exactly when some active user has
   * the e-mail and the password's digest.
   */
  lemma LoginSucceedsIff(users: seq<User>, profiles: seq<Profile>, req: LoginRequest, hash: string -> string)
    requires DistinctBy(users, UserEmail)
    ensures Login(users, profiles, req, hash).Ok? <==>
      HasCredentials(req.email, req.password)
      && exists u | u in users :: u.email == req.email.value && u.isActive && VerifyPassword(hash, req.password.value, u.passwordHash)
  {
    if HasCredentials(req.email, req.password) {
      var f := FindByEmail(users, req.email.value);
      if exists u | u in users :: u.email == req.email.value && u.isActive && VerifyPassword(hash, req.password.value, u.passwordHash) {
        var u :| u in users && u.email == req.email.value && u.isActive && VerifyPassword(hash, req.password.value, u.passwordHash);
        assert f.Some? && f.value == u;
      }
    }
  }

  /**
   * After a successful registration, logging in with the same e-mail and
   * password succeeds and returns the new user, whose only profile is the
   * default one.
   */
  lemma LoginAfterRegister(
    users: seq<User>, profiles: seq<Profile>, req: RegisterRequest, hash: string -> string,
    uid: int, pid: int, now: int)
    requires DistinctBy(users, UserEmail) && HasCredentials(req.email, req.password)
    requires !EmailTaken(users, req.email.value)
    requires forall p | p in profiles :: p.userId != uid
    ensures var users', profiles' := users + [NewUser(uid, req, hash(req.password.value), now)],
                                      profiles + [DefaultProfile(pid, uid, req.firstName, now)];
      var r := Login(users', profiles', LoginRequest(req.email, req.password), hash);
      && r.Ok?
      && r.value.user == NewUser(uid, req, hash(req.password.value), now)
      && forall p :: p in r.value.profiles <==> p == DefaultProfile(pid, uid, req.firstName, now)
  {
    var user := NewUser(uid, req, hash(req.password.value), now);
    var users' := users + [user];
    DistinctByAppend(users, user, UserEmail);
    assert user in users';
    assert FindByEmail(users', req.email.value) == Some(user);
  }
}
