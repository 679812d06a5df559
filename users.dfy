/**
 * UserEntity and its subclass RegularUser: a user whose email, password and
 * role setters refuse invalid values, and whose constructor runs those
 * setters in turn and stamps the registration time.
 */
module Users {
  import opened Model

  /**
   * The user the five-argument UserEntity constructor builds, or the error
   * of the first setter that refuses its argument.
   */
  function NewUserRow(kind: UserKind, email: Option<string>, firstName: Option<string>,
                      lastName: Option<string>, password: Option<string>, role: Option<Role>,
                      now: Time): (r: Result<User>)
    ensures r.Ok? <==> email.Some? && password.Some? && |password.value| >= 8 && role.Some?
    ensures email.None? ==> r == Err(NullEmail)
    ensures email.Some? && (password.None? || |password.value| < 8) ==> r == Err(InvalidPassword)
    ensures email.Some? && password.Some? && |password.value| >= 8 && role.None? ==> r == Err(NullRole)
    ensures r.Ok? ==>
      && r.value.kind == kind && r.value.email == email.value
      && r.value.firstName == firstName && r.value.lastName == lastName
      && r.value.password == password.value && |r.value.password| >= 8
      && r.value.role == role.value && r.value.registrationDate == now
  {
    if email.None? then Err(NullEmail)
    else if password.None? || |password.value| < 8 then Err(InvalidPassword)
    else if role.None? then Err(NullRole)
    else Ok(User(kind, email.value, firstName, lastName, password.value, role.value, now))
  }

  /**
   * The user `new RegularUser(firstName, lastName, email, password)` builds:
   * the arguments reach the superclass in its own order (email first), and
   * the role is always ROLE_USER.
   */
  function RegularUserRow(firstName: Option<string>, lastName: Option<string>, email: Option<string>,
                          password: Option<string>, now: Time): (r: Result<User>)
    ensures r.Ok? <==> email.Some? && password.Some? && |password.value| >= 8
    ensures r.Err? ==> r.error == (if email.None? then NullEmail else InvalidPassword)
    ensures r.Ok? ==>
      && r.value.kind == Regular && r.value.role == RoleUser
      && r.value.firstName == firstName && r.value.lastName == lastName
      && r.value.email == email.value && r.value.password == password.value
      && r.value.registrationDate == now
  {
    NewUserRow(Regular, email, firstName, lastName, password, Some(RoleUser), now)
  }

  class UserEntity {
    /** The concrete subclass, which JPA keeps in the discriminator column. */
    const kind: UserKind
    var email: Option<string>
    var firstName: Option<string>
    var lastName: Option<string>
    var password: Option<string>
    var role: Option<Role>
    var registrationDate: Option<Time>

    /** The no-argument constructor: every field is null. */
    constructor Blank(kind: UserKind)
      ensures this.kind == kind
      ensures email == None && firstName == None && lastName == None
      ensures password == None && role == None && registrationDate == None
    {
      this.kind := kind;
      email, firstName, lastName, password := None, None, None, None;
      role, registrationDate := None, None;
    }

    /** `setEmail`: refuses null and then keeps the old email. */
    method SetEmail(e: Option<string>) returns (r: Result<()>)
      modifies this`email
      ensures e.None? ==> r == Err(NullEmail) && email == old(email)
      ensures e.Some? ==> r == Ok(()) && email == e
    {
      if e.None? {
        return Err(NullEmail);
      }
      email := e;
      r := Ok(());
    }

    /** `setFirstName`: accepts any value, null included. */
    method SetFirstName(n: Option<string>)
      modifies this`firstName
      ensures firstName == n
    {
      firstName := n;
    }

    /** `setLastName`: accepts any value, null included. */
    method SetLastName(n: Option<string>)
      modifies this`lastName
      ensures lastName == n
    {
      lastName := n;
    }

    /** `setPassword`: refuses null and strings under 8 characters, keeping the old one. */
    method SetPassword(p: Option<string>) returns (r: Result<()>)
      modifies this`password
      ensures p.None? || |p.value| < 8 ==> r == Err(InvalidPassword) && password == old(password)
      ensures p.Some? && |p.value| >= 8 ==> r == Ok(()) && password == p
    {
      if p.None? || |p.value| < 8 {
        return Err(InvalidPassword);
      }
      password := p;
      r := Ok(());
    }

    /** `setRole`: refuses null and then keeps the old role. */
    method SetRole(x: Option<Role>) returns (r: Result<()>)
      modifies this`role
      ensures x.None? ==> r == Err(NullRole) && role == old(role)
      ensures x.Some? ==> r == Ok(()) && role == x
    {
      if x.None? {
        return Err(NullRole);
      }
      role := x;
      r := Ok(());
    }

    /** The columns the users table declares not null, apart from the names. */
    predicate Complete()
      reads this
    {
      email.Some? && password.Some? && role.Some? && registrationDate.Some?
    }

    /** The row this entity is stored as. */
    function Row(): User
      reads this
      requires Complete()
    {
      User(kind, email.value, firstName, lastName, password.value, role.value, registrationDate.value)
    }

    /**
     * The five-argument constructor: the email, name, password and role
     * setters in that order, then the registration time. A setter that
     * throws abandons the half-built object.
     */
    static method Create(kind: UserKind, email: Option<string>, firstName: Option<string>,
                         lastName: Option<string>, password: Option<string>, role: Option<Role>,
                         now: Time) returns (r: Result<UserEntity>)
      ensures r.Err? <==> NewUserRow(kind, email, firstName, lastName, password, role, now).Err?
      ensures r.Err? ==> r.error == NewUserRow(kind, email, firstName, lastName, password, role, now).error
      ensures r.Ok? ==>
        && fresh(r.value) && r.value.Complete()
        && r.value.Row() == NewUserRow(kind, email, firstName, lastName, password, role, now).value
    {
      var u := new UserEntity.Blank(kind);
      var step := u.SetEmail(email);
      if step.Err? {
        return Err(step.error);
      }
      u.SetFirstName(firstName);
      u.SetLastName(lastName);
      step := u.SetPassword(password);
      if step.Err? {
        return Err(step.error);
      }
      step := u.SetRole(role);
      if step.Err? {
        return Err(step.error);
      }
      u.registrationDate := Some(now);
      r := Ok(u);
    }

    /** `new RegularUser(firstName, lastName, email, password)`. */
    static method NewRegularUser(firstName: Option<string>, lastName: Option<string>,
                                 email: Option<string>, password: Option<string>,
                                 now: Time) returns (r: Result<UserEntity>)
      ensures r.Err? <==> RegularUserRow(firstName, lastName, email, password, now).Err?
      ensures r.Err? ==> r.error == RegularUserRow(firstName, lastName, email, password, now).error
      ensures r.Ok? ==>
        && fresh(r.value) && r.value.Complete()
        && r.value.Row() == RegularUserRow(firstName, lastName, email, password, now).value
    {
      r := Create(Regular, email, firstName, lastName, password, Some(RoleUser), now);
    }
  }
}
