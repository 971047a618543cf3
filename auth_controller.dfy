/** Employee registration, login and `me`: guard clauses with their own
    status codes, over the employees collection. */
module AuthController {
  import opened Js
  import opened Platform
  import Rows
  import opened EmployeeModel

  /** The payload signed into an employee's token: its id and its `role`,
      which the schema does not declare and so is undefined. */
  function EmployeeClaims(e: Employee): Claims {
    Claims(Some(e.id), None, None)
  }

  datatype Registered = Registered(token: string, id: string, fullName: string, email: string, referralCode: Option<string>)

  /** The fields `register` takes from the body. */
  datatype RegisterBody = RegisterBody(
    fullName: Option<string>,
    email: Option<string>,
    password: Option<string>,
    confirmPassword: Option<string>,
    referralCode: Option<string>)

  /** The document `register` creates: no referrer, default status. */
  function RegisterFields(body: RegisterBody): EmployeeFields {
    EmployeeFields(None, body.fullName, body.email, body.password, body.referralCode, None, None, None, None)
  }

  /** The fields of a registration cast to an employee with the generated
      id, no referrer, the default status, created now, with the submitted
      password (not yet hashed). */
  lemma RegisteredShape(body: RegisterBody, newId: string, now: int, env: Env)
    requires Cast(RegisterFields(body), newId, now, env).Success?
    ensures var e := Cast(RegisterFields(body), newId, now, env).value;
      && e.id == newId && e.referredBy == None && e.status == Pending && e.createdAt == now
      && e.password == body.password.value
  {
    CastWellFormed(RegisterFields(body), newId, now, env);
  }

  /** `POST /auth/register`. A token that cannot be signed is reported as a
      400 after the employee has been stored. */
  method Register(store: EmployeeCollection, body: RegisterBody, newId: string, now: int, env: Env) returns (r: Response<Registered>)
    requires store.Valid()
    modifies store
    ensures store.Valid()
    ensures body.password != body.confirmPassword ==>
      r == Refuse(400, "Passwords do not match") && store.rows == old(store.rows)
    ensures body.password == body.confirmPassword ==>
      match Cast(RegisterFields(body), newId, now, env)
      case Failure(e) => r == Refuse(400, Message(e)) && store.rows == old(store.rows)
      case Success(e) =>
        var stored := e.(password := env.hash(e.password), updatedAt := Some(now));
        if Rows.FindKey(old(store.rows), IdOf, newId).Some? || Rows.FindKey(old(store.rows), EmailOf, e.email).Some? then
          r == Refuse(400, "Email already exists") && store.rows == old(store.rows)
        else
          && store.rows == old(store.rows) + [stored]
          && stored.id == newId && stored.password == env.hash(body.password.value)
          && stored.referredBy == None && stored.status == Pending && stored.createdAt == now
          && match env.sign(EmployeeClaims(stored), env.jwtSecret, env.jwtExpire)
             case Failure(message) => r == Refuse(400, message)
             case Success(token) => r == Reply(201, Registered(token, newId, stored.fullName, stored.email, body.referralCode))
  {
    if body.password != body.confirmPassword {
      return Refuse(400, "Passwords do not match");
    }
    if Cast(RegisterFields(body), newId, now, env).Success? {
      RegisteredShape(body, newId, now, env);
    }
    var created := store.Create(RegisterFields(body), newId, now, env);
    if created.Failure? {
      if Code(created.error) == Some(11000) {
        return Refuse(400, "Email already exists");
      }
      return Refuse(400, Message(created.error));
    }
    var employee := created.value;
    var token := env.sign(EmployeeClaims(employee), env.jwtSecret, env.jwtExpire);
    if token.Failure? {
      return Refuse(400, token.error);
    }
    r := Reply(201, Registered(token.value, employee.id, employee.fullName, employee.email, body.referralCode));
  }

  /** What a login returns: no password. */
  datatype Session = Session(token: string, id: string, fullName: string, email: string, role: Option<string>)

  const InvalidCredentials := "Invalid credentials"

  /** `POST /auth/login`. */
  function Login(rows: seq<Employee>, email: Option<string>, password: Option<string>, env: Env): (r: Response<Session>)
    requires Rows.KeysDistinct(rows, EmailOf)
    ensures !Truthy(email) || !Truthy(password) ==> r == Refuse(400, "Please provide an email and password")
    ensures Truthy(email) && Truthy(password) ==>
      (r == Refuse(401, InvalidCredentials) <==>
        forall e :: e in rows && e.email == NormalizeEmail(email.value) ==> !env.compare(password.value, e.password))
    ensures r.Reply? ==> (r.status == 200 && r.body.role == None &&
      exists e :: && e in rows && e.email == NormalizeEmail(email.value) && env.compare(password.value, e.password)
                  && r.body.id == e.id && env.sign(EmployeeClaims(e), env.jwtSecret, env.jwtExpire) == Success(r.body.token))
    ensures Truthy(email) && Truthy(password) ==>
      forall e :: e in rows && e.email == NormalizeEmail(email.value) && env.compare(password.value, e.password) ==>
        var signed := env.sign(EmployeeClaims(e), env.jwtSecret, env.jwtExpire);
        if signed.Success? then r == Reply(200, Session(signed.value, e.id, e.fullName, e.email, None))
        else r == Refuse(400, signed.error)
  {
    if !Truthy(email) || !Truthy(password) then Refuse(400, "Please provide an email and password")
    else
      match FindByEmail(rows, email.value)
      case None => Refuse(401, InvalidCredentials)
      case Some(employee) =>
        Rows.OnlyHolder(rows, EmailOf, employee);
        if !env.compare(password.value, employee.password) then Refuse(401, InvalidCredentials)
        else
          match env.sign(EmployeeClaims(employee), env.jwtSecret, env.jwtExpire)
          case Failure(message) => Refuse(400, message)
          case Success(token) => Reply(200, Session(token, employee.id, employee.fullName, employee.email, None))
  }

  /** An unknown email and a wrong password get the same answer, so the
      response does not reveal which emails are registered. */
  lemma UnknownAndWrongAlike(rows: seq<Employee>, known: Employee, unknownEmail: string, password: string, env: Env)
    requires Rows.KeysDistinct(rows, EmailOf)
    requires known in rows && Truthy(Some(known.email)) && NormalizeEmail(known.email) == known.email
    requires password != "" && !env.compare(password, known.password)
    requires unknownEmail != "" && forall e :: e in rows ==> e.email != NormalizeEmail(unknownEmail)
    ensures Login(rows, Some(unknownEmail), Some(password), env) == Login(rows, Some(known.email), Some(password), env)
  {
    Rows.OnlyHolder(rows, EmailOf, known);
  }

  datatype Profile = Profile(id: string, fullName: string, email: string, role: Option<string>)

  /** `GET /auth/me` for `req.user` (None when no guard attached one). */
  function GetMe(rows: seq<Employee>, caller: Option<string>, env: Env): (r: Response<Profile>)
    ensures caller.None? ==> r == Refuse(400, UndefinedId)
    ensures caller.Some? && !env.isObjectId(caller.value) ==> r == Refuse(400, Message(CastFailed("Employee", caller.value)))
    ensures caller.Some? && env.isObjectId(caller.value) && (forall e :: e in rows ==> e.id != caller.value) ==>
      r == Refuse(404, "Employee not found")
    ensures r.Reply? <==> caller.Some? && env.isObjectId(caller.value) && exists e :: e in rows && e.id == caller.value
    ensures r.Reply? ==> (r.status == 200 && r.body.role == None && Some(r.body.id) == caller &&
      exists e :: e in rows && e.id == r.body.id && r.body == Profile(e.id, e.fullName, e.email, None))
    ensures Rows.KeysDistinct(rows, IdOf) && caller.Some? && env.isObjectId(caller.value) ==>
      forall e :: e in rows && e.id == caller.value ==> r == Reply(200, Profile(e.id, e.fullName, e.email, None))
  {
    if caller.None? then Refuse(400, UndefinedId)
    else
      match FindById(rows, caller.value, env)
      case Failure(e) => Refuse(400, Message(e))
      case Success(None) => Refuse(404, "Employee not found")
      case Success(Some(employee)) =>
        assert Rows.KeysDistinct(rows, IdOf) ==> forall e :: e in rows && e.id == caller.value ==> e == employee by {
          if Rows.KeysDistinct(rows, IdOf) {
            Rows.OnlyHolder(rows, IdOf, employee);
          }
        }
        Reply(200, Profile(employee.id, employee.fullName, employee.email, None))
  }
}
