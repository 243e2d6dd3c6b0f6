/** Signup, login, the active-status gate on a token's subject, and token
    re-issue. Password hashing and comparison (bcrypt) and token signing
    (JWT) are kept abstract: the service holds them as functions. */
module Auth {

  import opened Exceptions
  import opened Users

  type Token = string

  datatype LoginInput = LoginInput(email: string, password: string)

  /** A token together with the user it was issued for. */
  datatype AuthResponse = AuthResponse(token: Token, user: User)

  const PasswordMismatch: string := "Email/Password do not match"
  const InactiveUser: string := "User is inactive, talk with an admin"

  class AuthService {

    const usersService: UsersService
    /** `jwtService.sign({ id })`, with the configured secret and lifetime. */
    const sign: UserId -> Token
    /** `bcrypt.compareSync(plaintext, digest)`. */
    const compare: (string, Digest) -> bool

    constructor (usersService: UsersService, sign: UserId -> Token, compare: (string, Digest) -> bool)
      ensures this.usersService == usersService && this.sign == sign && this.compare == compare
    {
      this.usersService := usersService;
      this.sign := sign;
      this.compare := compare;
    }

    /** The only claim a token carries is the user's id. */
    function GetJwtToken(userId: UserId): (t: Token)
      ensures t == sign(userId)
    {
      sign(userId)
    }

    /** `signup`: create the user, then issue a token for it. When creation
        fails its error is the result and no token exists. */
    method Signup(input: SignupInput, newId: UserId) returns (r: Result<AuthResponse, Error>)
      requires usersService.Valid()
      modifies usersService
      ensures usersService.Valid()
      ensures r.Ok? <==> newId !in old(usersService.users)
                         && !EmailTaken(old(usersService.users), input.email, newId)
      ensures r.Ok? ==> (r.value.user == NewUser(newId, input, usersService.hash(input.password))
                         && r.value.token == sign(newId)
                         && usersService.users == old(usersService.users)[newId := r.value.user])
      ensures r.Err? ==> r.error.BadRequest? && usersService.users == old(usersService.users)
      ensures r.Err? ==> r.error == HandleDbError(Insert(old(usersService.users),
                                     NewUser(newId, input, usersService.hash(input.password))).error)
    {
      var created := usersService.Create(input, newId);
      if created.Err? {
        r := Err(created.error);
        return;
      }
      var user := created.value;
      var token := GetJwtToken(user.id);
      r := Ok(AuthResponse(token, user));
    }

    /** `login`: an unknown email is NotFound whatever the password; a
        known email whose digest does not match the password is a
        BadRequest; a match yields the stored user, active or not, with a
        token for its id. */
    function Login(input: LoginInput): (r: Result<AuthResponse, Error>)
      reads usersService
      requires usersService.Valid()
      ensures (forall id :: id in usersService.users ==> usersService.users[id].email != input.email) ==>
                r == Err(NotFound("User with email " + input.email + " not found"))
      ensures forall id :: id in usersService.users && usersService.users[id].email == input.email ==>
                if compare(input.password, usersService.users[id].password.value) then
                  r == Ok(AuthResponse(sign(id), usersService.users[id]))
                else
                  r == Err(BadRequest(PasswordMismatch))
    {
      match usersService.FindOneByEmail(input.email)
      case Err(e) => Err(e)
      case Ok(user) =>
        if !compare(input.password, user.password.value) then
          Err(BadRequest(PasswordMismatch))
        else
          Ok(AuthResponse(GetJwtToken(user.id), user))
    }

    /** `validateUser`: an unknown id is NotFound, an inactive user is
        Unauthorized; an active user is returned without its password
        digest and with every other field as stored. */
    method ValidateUser(id: UserId) returns (r: Result<User, Error>)
      ensures id !in usersService.users ==> r == Err(NotFound("User with id " + id + " not found"))
      ensures id in usersService.users && !usersService.users[id].isActive ==>
                r == Err(Unauthorized(InactiveUser))
      ensures id in usersService.users && usersService.users[id].isActive ==>
                r.Ok? && r.value.password.None? && r.value == usersService.users[id].(password := None)
    {
      var found := usersService.FindOneById(id);
      if found.Err? {
        r := Err(found.error);
        return;
      }
      var user := found.value;
      if !user.isActive {
        r := Err(Unauthorized(InactiveUser));
        return;
      }
      user := user.(password := None);
      r := Ok(user);
    }

    /** `revalidateToken`: a fresh token for the given user, who is passed
        back as given; it reads nothing from the user table. */
    function RevalidateToken(user: User): (r: AuthResponse)
      ensures r.user == user && r.token == sign(user.id)
    {
      AuthResponse(GetJwtToken(user.id), user)
    }

    /** Once signup has stored a user, logging in with the same email and
        password returns that user and a token for its id, provided the
        comparison accepts the digest computed from that password. */
    lemma LoginAfterSignup(input: SignupInput, newId: UserId)
      requires usersService.Valid()
      requires newId in usersService.users
      requires usersService.users[newId] == NewUser(newId, input, usersService.hash(input.password))
      requires compare(input.password, usersService.hash(input.password))
      ensures Login(LoginInput(input.email, input.password))
              == Ok(AuthResponse(sign(newId), usersService.users[newId]))
    {
    }

    /** A blocked user can still log in: login never looks at `isActive`. */
    lemma BlockedUserCanLogIn(input: LoginInput, id: UserId)
      requires usersService.Valid()
      requires id in usersService.users && !usersService.users[id].isActive
      requires usersService.users[id].email == input.email
      requires compare(input.password, usersService.users[id].password.value)
      ensures Login(input).Ok? && Login(input).value.user == usersService.users[id]
    {
    }
  }
}
