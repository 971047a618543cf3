/** The user handlers: list, get, create behind the required-field check and
    the referral gate, update with `password` and `referral` stripped, and
    delete. Every failure answers 400 with a message, except the 404s. */
module UserController {
  import opened Js
  import opened Platform
  import Rows
  import opened UserModel
  import EmployeeModel

  datatype UserList = UserList(count: nat, data: seq<UserView>)

  function UserViews(s: seq<User>): (r: seq<UserView>)
    ensures |r| == |s| && forall i :: 0 <= i < |s| ==> r[i] == View(s[i])
  {
    seq(|s|, i requires 0 <= i < |s| => View(s[i]))
  }

  /** `GET /users`: every user without its password, newest first. */
  function GetUsers(rows: seq<User>): (r: Response<UserList>)
    ensures r.Reply? && r.status == 200 && r.body.count == |r.body.data| == |rows|
    ensures forall u :: u in rows ==> View(u) in r.body.data
    ensures forall i, j :: 0 <= i < j < |r.body.data| ==> r.body.data[i].createdAt >= r.body.data[j].createdAt
  {
    var sorted := Rows.SortDesc(rows, CreatedAtOf);
    var data := UserViews(sorted);
    forall u | u in rows ensures View(u) in data {
      assert u in multiset(sorted);
      var i :| 0 <= i < |sorted| && sorted[i] == u;
      assert data[i] == View(u);
    }
    forall i, j | 0 <= i < j < |data| ensures data[i].createdAt >= data[j].createdAt {
      assert CreatedAtOf(sorted[i]) >= CreatedAtOf(sorted[j]);
    }
    Reply(200, UserList(|data|, data))
  }

  /** `GET /users/:id`. */
  function GetUser(rows: seq<User>, id: string, env: Env): (r: Response<UserView>)
    ensures !env.isObjectId(id) ==> r == Refuse(400, Message(CastFailed("User", id)))
    ensures env.isObjectId(id) && (forall u :: u in rows ==> u.id != id) ==> r == Refuse(404, "User not found")
    ensures r.Reply? <==> env.isObjectId(id) && exists u :: u in rows && u.id == id
    ensures r.Reply? ==> r.status == 200 && r.body.id == id && exists u :: u in rows && r.body == View(u)
  {
    match FindById(rows, id, env)
    case Failure(e) => Refuse(400, Message(e))
    case Success(None) => Refuse(404, "User not found")
    case Success(Some(u)) => Reply(200, View(u))
  }

  /** The handler's own check: every field but `referral` truthy. */
  predicate HasRequired(body: UserFields) {
    && Truthy(body.firstName) && Truthy(body.lastName) && Truthy(body.email) && Truthy(body.phoneNumber)
    && TruthyNumber(body.age) && Truthy(body.city) && Truthy(body.password)
  }

  /** The document the handler creates: the eight named fields only (so no
      `createdAt` from the body), with `referral || null`. */
  function CreateFields(body: UserFields): UserFields {
    body.(referral := if Truthy(body.referral) then body.referral else None, createdAt := None)
  }

  /** The referral gate lets the request through: no truthy referral, or one
      naming an existing employee. */
  predicate ReferralAccepted(employees: seq<EmployeeModel.Employee>, referral: Option<string>, env: Env) {
    !Truthy(referral) || (EmployeeModel.FindById(employees, referral.value, env).Success?
      && EmployeeModel.FindById(employees, referral.value, env).value.Some?)
  }

  /** `POST /users`. */
  method CreateUser(users: UserCollection, employees: seq<EmployeeModel.Employee>, body: UserFields,
                    newId: string, now: int, env: Env) returns (r: Response<User>)
    requires users.Valid()
    modifies users
    ensures users.Valid()
    ensures !r.PassOn?
    ensures !r.Reply? ==> users.rows == old(users.rows)
    ensures !HasRequired(body) ==> r == Refuse(400, "Required fields missing")
    ensures HasRequired(body) && Truthy(body.referral) ==>
      match EmployeeModel.FindById(employees, body.referral.value, env)
      case Failure(e) => r == Refuse(400, Message(e))
      case Success(None) => r == Refuse(404, "Referral employee not found")
      case Success(Some(_)) => true
    ensures HasRequired(body) && ReferralAccepted(employees, body.referral, env) ==>
      match Cast(CreateFields(body), newId, now, env)
      case Failure(e) => r == Refuse(400, Message(e))
      case Success(u) =>
        if Rows.FindKey(old(users.rows), IdOf, newId).Some? || Rows.FindKey(old(users.rows), EmailOf, u.email).Some? then
          r == Refuse(400, "Email already exists")
        else
          && r == Reply(201, u.(password := env.hash(body.password.value)))
          && u.referral == CreateFields(body).referral && u.createdAt == now
          && users.rows == old(users.rows) + [r.body]
  {
    if !HasRequired(body) {
      return Refuse(400, "Required fields missing");
    }
    if Truthy(body.referral) {
      var employee := EmployeeModel.FindById(employees, body.referral.value, env);
      if employee.Failure? {
        return Refuse(400, Message(employee.error));
      }
      if employee.value.None? {
        return Refuse(404, "Referral employee not found");
      }
    }
    ghost var cast := Cast(CreateFields(body), newId, now, env);
    if cast.Success? {
      CastWellFormed(CreateFields(body), newId, now, env);
    }
    r := Persist(users, CreateFields(body), newId, now, env);
  }

  /** `User.create(...)` and the handler's catch: a duplicate key is
      "Email already exists", any other error answers with its own message. */
  method Persist(users: UserCollection, f: UserFields, newId: string, now: int, env: Env) returns (r: Response<User>)
    requires users.Valid()
    modifies users
    ensures users.Valid()
    ensures match Cast(f, newId, now, env)
      case Failure(e) => r == Refuse(400, Message(e)) && users.rows == old(users.rows)
      case Success(u) =>
        if Rows.FindKey(old(users.rows), IdOf, newId).Some? || Rows.FindKey(old(users.rows), EmailOf, u.email).Some? then
          r == Refuse(400, "Email already exists") && users.rows == old(users.rows)
        else
          r == Reply(201, u.(password := env.hash(u.password))) && users.rows == old(users.rows) + [r.body]
  {
    ghost var cast := Cast(f, newId, now, env);
    var created := users.Create(f, newId, now, env);
    if created.Failure? {
      assert cast.Failure? ==> created == cast && Code(created.error) == None;
      assert cast.Success? ==> created.error.DuplicateKey?;
      if Code(created.error) == Some(11000) {
        return Refuse(400, "Email already exists");
      }
      return Refuse(400, Message(created.error));
    }
    r := Reply(201, created.value);
  }

  /** `const { password, referral, ...updateData } = req.body`. */
  function StripProtected(body: UserFields): UserPatch {
    UserPatch(body.firstName, body.lastName, body.email, body.phoneNumber, body.age, body.city, body.createdAt)
  }

  /** Whatever the body says about `password` and `referral`, an update leaves
      them as stored; every other supplied path takes the body's value. */
  lemma UpdateKeepsSecrets(u: User, body: UserFields)
    ensures var v := Apply(u, StripProtected(body));
      && v.password == u.password && v.referral == u.referral && v.id == u.id
      && (body.email.Some? ==> v.email == body.email.value)
      && (body.age.Some? ==> v.age == body.age.value)
      && (body.firstName.Some? ==> v.firstName == Trim(body.firstName.value))
      && (body.createdAt.Some? ==> v.createdAt == body.createdAt.value)
      && (body.createdAt.None? ==> v.createdAt == u.createdAt)
    ensures StripProtected(body) == StripProtected(body.(password := None, referral := None))
  {
  }

  /** `PUT /users/:id`. */
  method UpdateUser(users: UserCollection, id: string, body: UserFields, env: Env) returns (r: Response<UserView>)
    requires users.Valid()
    modifies users
    ensures users.Valid()
    ensures !r.Reply? ==> users.rows == old(users.rows)
    ensures !env.isObjectId(id) ==> r == Refuse(400, Message(CastFailed("User", id)))
    ensures env.isObjectId(id) && PatchFailures(StripProtected(body), env) != [] ==>
      r == Refuse(400, Message(Invalid("", PatchFailures(StripProtected(body), env))))
    ensures env.isObjectId(id) && PatchFailures(StripProtected(body), env) == [] ==>
      match Rows.FindKey(old(users.rows), IdOf, id)
      case None => r == Refuse(404, "User not found")
      case Some(u) =>
        var updated := Apply(u, StripProtected(body));
        if body.email.Some? && Rows.HeldByOther(old(users.rows), IdOf, id, EmailOf, body.email.value) then
          r == Refuse(400, Message(DuplicateKey("users", "email")))
        else
          r == Reply(200, View(updated)) && users.rows == Rows.Replace(old(users.rows), IdOf, id, updated)
  {
    var updateData := StripProtected(body);
    var user := users.FindByIdAndUpdate(id, updateData, env);
    if user.Failure? {
      return Refuse(400, Message(user.error));
    }
    if user.value.None? {
      return Refuse(404, "User not found");
    }
    r := Reply(200, View(user.value.value));
  }

  /** `DELETE /users/:id`. */
  method DeleteUser(users: UserCollection, id: string, env: Env) returns (r: Response<()>)
    requires users.Valid()
    modifies users
    ensures users.Valid()
    ensures !env.isObjectId(id) ==> r == Refuse(400, Message(CastFailed("User", id))) && users.rows == old(users.rows)
    ensures env.isObjectId(id) ==> match Rows.FindKey(old(users.rows), IdOf, id)
      case None => r == Refuse(404, "User not found") && users.rows == old(users.rows)
      case Some(_) => r == Reply(200, ()) && users.rows == Rows.Reject(old(users.rows), IdOf, id)
  {
    var user := users.FindByIdAndDelete(id, env);
    if user.Failure? {
      return Refuse(400, Message(user.error));
    }
    if user.value.None? {
      return Refuse(404, "User not found");
    }
    r := Reply(200, ());
  }

  /** A delete removes exactly the user with the id; the same delete again
      (and a get) then answers 404. */
  lemma SecondDeleteNotFound(rows: seq<User>, id: string, env: Env)
    requires Rows.KeysDistinct(rows, IdOf) && env.isObjectId(id)
    requires Rows.FindKey(rows, IdOf, id).Some?
    ensures |Rows.Reject(rows, IdOf, id)| == |rows| - 1
    ensures forall u :: u in rows && u.id != id ==> u in Rows.Reject(rows, IdOf, id)
    ensures Rows.FindKey(Rows.Reject(rows, IdOf, id), IdOf, id).None?
    ensures GetUser(Rows.Reject(rows, IdOf, id), id, env) == Refuse(404, "User not found")
  {
    Rows.RejectCount(rows, IdOf, id);
  }
}
