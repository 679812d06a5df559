/**
 * AuthService: registration of regular users under a fresh email, and
 * login by email and password. The BCrypt encoder is a pair of parameters:
 * `encode` hashes a raw password and `matches` compares a raw password with
 * a stored hash.
 */
module AuthService {
  import opened Model
  import opened Store
  import Users

  /** `findByEmail`: the stored user with that email, unique when there is one. */
  function FindByEmail(users: map<Id, User>, email: string): (r: Option<Id>)
    requires UniqueEmails(users)
    ensures r.Some? ==> r.value in users && users[r.value].email == email
    ensures r.None? <==> forall u | u in users :: users[u].email != email
  {
    if exists u | u in users :: users[u].email == email then
      var u :| u in users && users[u].email == email; Some(u)
    else None
  }

  /** The response record of a user. */
  function UserResponseOf(u: User): UserResponse {
    UserResponse(u.firstName, u.lastName, u.email, u.role, u.registrationDate)
  }

  /** Some stored user has that email. */
  predicate EmailTaken(users: map<Id, User>, email: string) {
    exists u | u in users :: users[u].email == email
  }

  /**
   * `register`: refuses an email already stored, then hashes the password
   * and builds a RegularUser with it. A null email finds no user, so it
   * passes the first check and is refused by the entity's setter; a null
   * password is refused by the encoder first. The users table refuses a
   * null first or last name when the row is inserted.
   */
  function RegisterSpec(db: Db, dto: RegisterRequest, encode: string -> string, now: Time): (o: Outcome<UserResponse>)
    requires Inv(db)
    ensures Inv(o.db)
    ensures o.result.Err? ==> o.db == db
    // the failures, in the order they arise
    ensures dto.email.Some? && EmailTaken(db.users, dto.email.value) ==> o.result == Err(UserAlreadyExists)
    ensures !(dto.email.Some? && EmailTaken(db.users, dto.email.value)) ==>
      && (dto.password.None? ==> o.result == Err(NullPassword))
      && (dto.password.Some? && dto.email.None? ==> o.result == Err(NullEmail))
      && (dto.password.Some? && dto.email.Some? && |encode(dto.password.value)| < 8 ==>
            o.result == Err(InvalidPassword))
      && ((dto.password.Some? && dto.email.Some? && |encode(dto.password.value)| >= 8
             && (dto.firstName.None? || dto.lastName.None?)) ==> o.result == Err(NullName))
    ensures o.result.Ok? <==>
      && dto.email.Some? && !EmailTaken(db.users, dto.email.value)
      && dto.password.Some? && |encode(dto.password.value)| >= 8
      && dto.firstName.Some? && dto.lastName.Some?
    // a success stores one RegularUser with the hashed password and ROLE_USER
    ensures o.result.Ok? ==>
      var id := db.nextUserId;
      var u := User(Regular, dto.email.value, dto.firstName, dto.lastName,
                    encode(dto.password.value), RoleUser, now);
      && id !in db.users
      && o.db == db.(users := db.users[id := u], nextUserId := id + 1)
      && o.result.value == UserResponseOf(u)
  {
    if dto.email.Some? && FindByEmail(db.users, dto.email.value).Some? then Outcome(Err(UserAlreadyExists), db)
    else if dto.password.None? then Outcome(Err(NullPassword), db)
    else
      match Users.RegularUserRow(dto.firstName, dto.lastName, dto.email, Some(encode(dto.password.value)), now)
      case Err(e) => Outcome(Err(e), db)
      case Ok(u) =>
        if u.firstName.None? || u.lastName.None? then Outcome(Err(NullName), db)
        else
          var id := db.nextUserId;
          assert UniqueEmails(db.users[id := u]);
          Outcome(Ok(UserResponseOf(u)), db.(users := db.users[id := u], nextUserId := id + 1))
  }

  /**
   * `login`: the user with that email, when the raw password matches the
   * stored hash. An unknown email and a wrong password give the same error.
   */
  function Login(db: Db, dto: LoginRequest, matches: (string, string) -> bool): (r: Result<UserResponse>)
    requires UniqueEmails(db.users)
    ensures r.Err? ==> r.error == InvalidCredentials
    ensures !EmailTaken(db.users, dto.email) ==> r.Err?
    ensures r.Ok? <==>
      exists u | u in db.users :: db.users[u].email == dto.email && matches(dto.password, db.users[u].password)
    ensures r.Ok? ==>
      exists u | u in db.users :: db.users[u].email == dto.email && r.value == UserResponseOf(db.users[u])
  {
    match FindByEmail(db.users, dto.email)
    case None => Err(InvalidCredentials)
    case Some(u) =>
      if !matches(dto.password, db.users[u].password) then Err(InvalidCredentials)
      else Ok(UserResponseOf(db.users[u]))
  }

  /**
   * With an encoder whose `matches` accepts every password against its own
   * hash, a user who has just registered can log in with the same password
   * and sees the record registration returned.
   */
  lemma RegisterThenLogin(db: Db, dto: RegisterRequest, encode: string -> string,
                          matches: (string, string) -> bool, now: Time)
    requires Inv(db)
    requires forall p :: matches(p, encode(p))
    requires RegisterSpec(db, dto, encode, now).result.Ok?
    ensures var o := RegisterSpec(db, dto, encode, now);
      Login(o.db, LoginRequest(dto.email.value, dto.password.value), matches) == o.result
  {
    var o := RegisterSpec(db, dto, encode, now);
    var id := db.nextUserId;
    assert o.db.users[id].email == dto.email.value;
    assert FindByEmail(o.db.users, dto.email.value) == Some(id);
  }

  /** Registering the same email twice fails the second time. */
  lemma RegisterTwiceFails(db: Db, dto: RegisterRequest, dto2: RegisterRequest,
                           encode: string -> string, now: Time, later: Time)
    requires Inv(db)
    requires RegisterSpec(db, dto, encode, now).result.Ok?
    requires dto2.email == dto.email
    ensures var o := RegisterSpec(db, dto, encode, now);
      RegisterSpec(o.db, dto2, encode, later) == Outcome(Err(UserAlreadyExists), o.db)
  {
    var o := RegisterSpec(db, dto, encode, now);
    assert o.db.users[db.nextUserId].email == dto.email.value;
  }

  /**
   * The method performs the service's steps on the store: it looks the
   * email up, hashes the password, builds the RegularUser entity through
   * its constructor and then inserts the entity's row.
   */
  method Register(st: ParkStore, dto: RegisterRequest, encode: string -> string, now: Time)
    returns (r: Result<UserResponse>)
    requires st.Valid()
    modifies st
    ensures st.Valid()
    ensures Outcome(r, st.State()) == RegisterSpec(old(st.State()), dto, encode, now)
  {
    if dto.email.Some? && FindByEmail(st.users, dto.email.value).Some? {
      return Err(UserAlreadyExists);
    }
    if dto.password.None? {
      return Err(NullPassword);
    }
    var encoded := encode(dto.password.value);
    var built := Users.UserEntity.NewRegularUser(dto.firstName, dto.lastName, dto.email, Some(encoded), now);
    if built.Err? {
      return Err(built.error);
    }
    var user := built.value;
    if user.firstName.None? || user.lastName.None? {
      return Err(NullName);
    }
    ghost var before := st.State();
    var row := user.Row();
    var id := st.nextUserId;
    st.users := st.users[id := row];
    st.nextUserId := id + 1;
    r := Ok(UserResponseOf(row));
    assert Outcome(r, st.State()) == RegisterSpec(before, dto, encode, now);
  }
}
