/** The user directory: user records kept in a repository keyed by id, the
    repository's own behaviour on save (primary key and unique email index),
    the mapping of database errors to HTTP exceptions, and the service class
    that creates, looks up, lists, updates and blocks users. */
module Users {

  import opened Exceptions
  import Strings

  type UserId = string
  type Digest = string

  /** The closed set of roles a user can hold. */
  datatype ValidRoles = AdminRole | UserRole | SuperUserRole

  /** A stored user. `password` is the bcrypt digest, or None once it has been
      stripped from a copy handed outward; `lastUpdateBy` refers by id to the
      user who last changed this record. */
  datatype User = User(
    id: UserId,
    email: string,
    fullName: string,
    password: Option<Digest>,
    roles: seq<ValidRoles>,
    isActive: bool,
    lastUpdateBy: Option<UserId>)

  datatype SignupInput = SignupInput(email: string, fullName: string, password: string)

  /** A partial update: the target id and the fields to overwrite. */
  datatype UpdateUserInput = UpdateUserInput(
    id: UserId,
    email: Option<string>,
    fullName: Option<string>,
    roles: Option<seq<ValidRoles>>,
    isActive: Option<bool>)

  /** The users table, keyed by primary key. */
  type Store = map<UserId, User>

  /** What a `catch` block of the service can receive: an error raised by the
      database driver, or the TypeError of assigning to a field of `undefined`. */
  datatype Caught = DriverError(code: string, detail: string) | TypeError

  /** PostgreSQL's SQLSTATE for `unique_violation`. */
  const UniqueViolation: string := "23505"
  /** The service's own "not found" code. */
  const CustomNotFound: string := "error-001"
  const ServerLogsMessage: string := "Please check server logs"

  /** The driver's detail text for a unique violation on `column`. */
  function KeyExists(column: string, value: string): string
  {
    "Key (" + column + ")=(" + value + ") already exists."
  }

  /** Some user other than `owner` already has `email`. */
  predicate EmailTaken(store: Store, email: string, owner: UserId)
  {
    exists k :: k in store && k != owner && store[k].email == email
  }

  /** The database's guarantees about the users table: every record sits
      under its own id and carries a digest, and no two records share an email. */
  ghost predicate StoreInvariant(store: Store)
  {
    && (forall id :: id in store ==> store[id].id == id && store[id].password.Some?)
    && (forall a, b :: a in store && b in store && store[a].email == store[b].email ==> a == b)
  }

  /** The roles of two users or filters have a role in common. */
  predicate Overlaps(roles: seq<ValidRoles>, filter: seq<ValidRoles>)
  {
    exists role :: role in roles && role in filter
  }

  /** `repository.save` of a new entity: the primary key and the unique
      email index are both enforced, and a clash is reported as a unique violation. */
  function Insert(store: Store, u: User): (r: Result<Store, Caught>)
    ensures r.Ok? <==> u.id !in store && !EmailTaken(store, u.email, u.id)
    ensures r.Ok? ==> r.value == store[u.id := u]
    ensures r.Err? ==> r.error.DriverError? && r.error.code == UniqueViolation
  {
    if u.id in store then
      Err(DriverError(UniqueViolation, KeyExists("id", u.id)))
    else if EmailTaken(store, u.email, u.id) then
      Err(DriverError(UniqueViolation, KeyExists("email", u.email)))
    else
      Ok(store[u.id := u])
  }

  /** `repository.save` of an entity loaded from the table: an upsert by
      primary key that still honours the unique email index. */
  function Save(store: Store, u: User): (r: Result<Store, Caught>)
    ensures r.Ok? <==> !EmailTaken(store, u.email, u.id)
    ensures r.Ok? ==> r.value == store[u.id := u]
    ensures r.Err? ==> r.error == DriverError(UniqueViolation, KeyExists("email", u.email))
  {
    if EmailTaken(store, u.email, u.id) then
      Err(DriverError(UniqueViolation, KeyExists("email", u.email)))
    else
      Ok(store[u.id := u])
  }

  /** `repository.preload({...input})`: the stored record with the given
      fields merged in, or nothing when no record has `input.id`. */
  function Preload(store: Store, input: UpdateUserInput): (r: Option<User>)
    ensures r.Some? <==> input.id in store
    ensures r.Some? ==> var old_ := store[input.id];
      && r.value.id == old_.id
      && r.value.password == old_.password
      && r.value.lastUpdateBy == old_.lastUpdateBy
      && r.value.email == (if input.email.Some? then input.email.value else old_.email)
      && r.value.fullName == (if input.fullName.Some? then input.fullName.value else old_.fullName)
      && r.value.roles == (if input.roles.Some? then input.roles.value else old_.roles)
      && r.value.isActive == (if input.isActive.Some? then input.isActive.value else old_.isActive)
  {
    if input.id !in store then None
    else
      var u := store[input.id];
      Some(u.(
        email := match input.email case Some(e) => e case None => u.email,
        fullName := match input.fullName case Some(n) => n case None => u.fullName,
        roles := match input.roles case Some(rs) => rs case None => u.roles,
        isActive := match input.isActive case Some(a) => a case None => u.isActive))
  }

  /** The `handleDBError` mapping. It never yields a value to its caller: its
      result is the exception it throws, always a BadRequest or an
      InternalServerError, never a raw driver error. */
  function HandleDbError(e: Caught): (r: Error)
    ensures r.BadRequest? || r.InternalServerError?
    ensures r.BadRequest? <==> e.DriverError? && (e.code == UniqueViolation || e.code == CustomNotFound)
    ensures e.DriverError? && e.code == UniqueViolation ==>
              r.message == Strings.ReplaceFirst(e.detail, "Key ", "")
    ensures e.DriverError? && e.code == CustomNotFound ==> r.message == e.detail
    ensures r.InternalServerError? ==> r.message == ServerLogsMessage
  {
    if e.DriverError? && e.code == UniqueViolation then
      BadRequest(Strings.ReplaceFirst(e.detail, "Key ", ""))
    else if e.DriverError? && e.code == CustomNotFound then
      BadRequest(e.detail)
    else
      InternalServerError(ServerLogsMessage)
  }

  /** A duplicate email on signup surfaces as a BadRequest whose message is
      the driver's detail without its leading "Key ". */
  lemma DuplicateEmailMessage(store: Store, u: User)
    requires u.id !in store && EmailTaken(store, u.email, u.id)
    ensures Insert(store, u).Err?
    ensures HandleDbError(Insert(store, u).error)
            == BadRequest("(email)=(" + u.email + ") already exists.")
  {
    var detail := KeyExists("email", u.email);
    assert detail == "Key " + ("(email)=(" + u.email + ") already exists.");
    Strings.ReplacePrefix("Key ", "(email)=(" + u.email + ") already exists.");
  }

  /** The record `usersRepository.create({...signupInput, password})` builds:
      the input's fields, the digest in place of the plaintext, and the
      column defaults (role `user`, active, never updated by anyone). */
  function NewUser(id: UserId, input: SignupInput, digest: Digest): (u: User)
    ensures u.id == id && u.email == input.email && u.fullName == input.fullName
    ensures u.password == Some(digest)
    ensures u.roles == [UserRole] && u.isActive && u.lastUpdateBy.None?
  {
    User(id, input.email, input.fullName, Some(digest), [UserRole], true, None)
  }

  /** The record `block` saves: deactivated and attributed to the admin. */
  function Blocked(u: User, admin: User): (b: User)
    ensures !b.isActive && b.lastUpdateBy == Some(admin.id)
    ensures b.id == u.id && b.email == u.email && b.fullName == u.fullName
    ensures b.password == u.password && b.roles == u.roles
  {
    u.(isActive := false, lastUpdateBy := Some(admin.id))
  }

  /** Saving a record under its own id with an unchanged email never
      violates the unique email index. */
  lemma SameEmailSaves(store: Store, u: User)
    requires StoreInvariant(store)
    requires u.id in store && u.email == store[u.id].email
    ensures Save(store, u) == Ok(store[u.id := u])
  {
  }

  /** Blocking the same user twice with the same admin gives the same table
      as blocking once. */
  lemma {:induction false} BlockIdempotent(store: Store, id: UserId, admin: User)
    requires id in store
    ensures var once := store[id := Blocked(store[id], admin)];
            once[id := Blocked(once[id], admin)] == once
  {
  }

  class UsersService {

    /** The users table this service reads and writes. */
    var users: Store
    /** `bcrypt.hashSync(_, 10)`. */
    const hash: string -> Digest

    ghost predicate Valid()
      reads this
    {
      StoreInvariant(users)
    }

    constructor (hash: string -> Digest)
      ensures Valid() && users == map[] && this.hash == hash
    {
      this.hash := hash;
      users := map[];
    }

    /** `create`: store a new user with its password hashed; `newId` is the
        id the database assigns. A clash on id or email is a unique
        violation, reported as a BadRequest, and nothing is stored. */
    method Create(input: SignupInput, newId: UserId) returns (r: Result<User, Error>)
      requires Valid()
      modifies this
      ensures Valid()
      ensures r.Ok? <==> newId !in old(users) && !EmailTaken(old(users), input.email, newId)
      ensures r.Ok? ==> (r.value == NewUser(newId, input, hash(input.password))
                         && users == old(users)[newId := r.value])
      ensures r.Err? ==> r.error.BadRequest? && users == old(users)
      ensures r.Err? ==> r.error == HandleDbError(Insert(old(users), NewUser(newId, input, hash(input.password))).error)
    {
      var newUser := NewUser(newId, input, hash(input.password));
      var saved := Insert(users, newUser);
      match saved {
        case Err(e) =>
          r := Err(HandleDbError(e));
        case Ok(s) =>
          users := s;
          r := Ok(newUser);
      }
    }

    /** `findAll`: an empty filter lists every user; otherwise the users
        holding at least one of the given roles. */
    function FindAll(roles: seq<ValidRoles>): (r: set<User>)
      reads this
      ensures roles == [] ==> r == users.Values
      ensures forall u :: u in r <==> u in users.Values && (roles == [] || Overlaps(u.roles, roles))
    {
      set id | id in users && (roles == [] || Overlaps(users[id].roles, roles)) :: users[id]
    }

    /** A role filter only ever narrows the unfiltered listing. */
    lemma FindAllWithinAll(roles: seq<ValidRoles>)
      ensures FindAll(roles) <= FindAll([])
    {
    }

    /** Filtering by every role there is lists exactly the users holding
        at least one role. */
    lemma FindAllEveryRole()
      ensures FindAll([AdminRole, UserRole, SuperUserRole]) == set u | u in users.Values && u.roles != []
    {
      var every := [AdminRole, UserRole, SuperUserRole];
      forall u | u in users.Values && u.roles != []
        ensures Overlaps(u.roles, every)
      {
        var role := u.roles[0];
        assert role in every by {
          match role
          case AdminRole => assert every[0] == role;
          case UserRole => assert every[1] == role;
          case SuperUserRole => assert every[2] == role;
        }
      }
    }

    /** `findOneByEmail`: the user with that email, or NotFound naming it. */
    function FindOneByEmail(email: string): (r: Result<User, Error>)
      reads this
      requires Valid()
      ensures r.Ok? <==> exists id :: id in users && users[id].email == email
      ensures r.Ok? ==> r.value.id in users && users[r.value.id] == r.value && r.value.email == email
      ensures r.Err? ==> r.error == NotFound("User with email " + email + " not found")
    {
      if exists id :: id in users && users[id].email == email then
        var id :| id in users && users[id].email == email;
        Ok(users[id])
      else
        Err(NotFound("User with email " + email + " not found"))
    }

    /** `findOneById`: the user with that id, or NotFound naming it. */
    function FindOneById(id: UserId): (r: Result<User, Error>)
      reads this
      ensures r.Ok? <==> id in users
      ensures r.Ok? ==> r.value == users[id]
      ensures r.Err? ==> r.error == NotFound("User with id " + id + " not found")
    {
      if id in users then Ok(users[id]) else Err(NotFound("User with id " + id + " not found"))
    }

    /** `update`: the `id` argument is ignored; the record named by
        `input.id` is preloaded, merged, attributed to `updateBy` and saved.
        A missing record fails with InternalServerError, an email clash with
        BadRequest; on failure nothing changes. */
    method Update(id: UserId, input: UpdateUserInput, updateBy: User) returns (r: Result<User, Error>)
      requires Valid()
      modifies this
      ensures Valid()
      ensures input.id !in old(users) ==>
                r == Err(InternalServerError(ServerLogsMessage)) && users == old(users)
      ensures input.id in old(users) ==>
                var u := Preload(old(users), input).value.(lastUpdateBy := Some(updateBy.id));
                if EmailTaken(old(users), u.email, input.id) then
                  r == Err(BadRequest(Strings.ReplaceFirst(KeyExists("email", u.email), "Key ", "")))
                  && users == old(users)
                else
                  r == Ok(u) && users == old(users)[input.id := u]
    {
      var preloaded := Preload(users, input);
      if preloaded.None? {
        r := Err(HandleDbError(TypeError));
        return;
      }
      var user := preloaded.value;
      user := user.(lastUpdateBy := Some(updateBy.id));
      var saved := Save(users, user);
      match saved {
        case Err(e) =>
          r := Err(HandleDbError(e));
        case Ok(s) =>
          users := s;
          r := Ok(user);
      }
    }

    /** `block`: deactivate the user and record the admin who did it. An
        unknown id fails with NotFound and changes nothing; otherwise only
        that record changes. */
    method Block(id: UserId, adminUser: User) returns (r: Result<User, Error>)
      requires Valid()
      modifies this
      ensures Valid()
      ensures id !in old(users) ==>
                r == Err(NotFound("User with id " + id + " not found")) && users == old(users)
      ensures id in old(users) ==>
                r == Ok(Blocked(old(users)[id], adminUser))
                && users == old(users)[id := r.value]
    {
      var found := FindOneById(id);
      if found.Err? {
        r := Err(found.error);
        return;
      }
      var userToBlock := found.value;
      userToBlock := userToBlock.(isActive := false);
      userToBlock := userToBlock.(lastUpdateBy := Some(adminUser.id));
      SameEmailSaves(users, userToBlock);
      users := Save(users, userToBlock).value;
      r := Ok(userToBlock);
    }
  }
}
