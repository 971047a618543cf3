/** The admin handlers. The Admin model is not part of this model, so an
    admin document is the map of its string-valued keys (`_id`, `email`,
    `password` and whatever else it stores). Every thrown error answers 500
    with `{ msg: 'Server error' }`. */
module AdminController {
  import opened Js
  import opened Platform
  import Rows

  type AdminDocument = map<string, string>

  /** A key of a document, None when it is absent. */
  function Field(d: AdminDocument, key: string): (r: Option<string>)
    ensures r.Some? <==> key in d
    ensures r.Some? ==> r.value == d[key]
  {
    if key in d then Some(d[key]) else None
  }

  function EmailField(d: AdminDocument): Option<string> { Field(d, "email") }
  function IdField(d: AdminDocument): Option<string> { Field(d, "_id") }

  /** `doc.toObject()` followed by `delete doc.password`. */
  function WithoutPassword(d: AdminDocument): (r: AdminDocument)
    ensures "password" !in r
    ensures forall k :: k in d && k != "password" <==> k in r
    ensures forall k :: k in r ==> r[k] == d[k]
  {
    d - {"password"}
  }

  /** `process.env.JWT_SECRET || 'your_jwt_secret'`. */
  function AdminSecret(env: Env): (r: Option<string>)
    ensures Truthy(env.jwtSecret) ==> r == env.jwtSecret
    ensures !Truthy(env.jwtSecret) ==> r == Some("your_jwt_secret")
    ensures Truthy(r)
  {
    if Truthy(env.jwtSecret) then env.jwtSecret else Some("your_jwt_secret")
  }

  /** The claims an admin's token carries. */
  function AdminClaims(d: AdminDocument): Claims {
    Claims(IdField(d), Some("admin"), None)
  }

  datatype AdminReply =
    | ValidationErrors(errors: seq<string>)
    | LoggedIn(token: string, admin: AdminDocument, msg: string)

  const ServerError := "Server error"

  /** `POST /admin/login`. `errors` is what `validationResult(req)` collects;
      no validator is mounted on the route, so it is empty in this app. */
  function LoginAdmin(rows: seq<AdminDocument>, errors: seq<string>, email: string, password: string, env: Env): (r: Response<AdminReply>)
    ensures errors != [] ==> r == Reply(400, ValidationErrors(errors))
    ensures errors == [] && (forall d :: d in rows ==> EmailField(d) != Some(email)) <==> r == Refuse(404, "Admin not found")
    ensures r == Refuse(401, "Invalid credentials") ==>
      exists d :: d in rows && EmailField(d) == Some(email) && "password" in d && !env.compare(password, d["password"])
    ensures r.Reply? && r.status == 200 ==> (errors == [] && r.body.LoggedIn? && r.body.msg == "Admin logged in successfully" &&
      exists d :: && d in rows && EmailField(d) == Some(email) && "password" in d && env.compare(password, d["password"])
                  && r.body.admin == WithoutPassword(d)
                  && env.sign(AdminClaims(d), AdminSecret(env), Some("1d")) == Success(r.body.token))
    ensures r.Reply? ==> r.status == 400 || r.status == 200
    // `findOne` answers the first document in natural order that holds the email
    ensures errors == [] ==> forall d :: Rows.FindKey(rows, EmailField, Some(email)) == Some(d) ==>
      if "password" !in d then r == Refuse(500, ServerError)
      else if !env.compare(password, d["password"]) then r == Refuse(401, "Invalid credentials")
      else
        var signed := env.sign(AdminClaims(d), AdminSecret(env), Some("1d"));
        if signed.Success? then r == Reply(200, LoggedIn(signed.value, WithoutPassword(d), "Admin logged in successfully"))
        else r == Refuse(500, ServerError)
  {
    if errors != [] then Reply(400, ValidationErrors(errors))
    else
      match Rows.FindKey(rows, EmailField, Some(email))
      case None => Refuse(404, "Admin not found")
      case Some(admin) =>
        if "password" !in admin then Refuse(500, ServerError)
        else if !env.compare(password, admin["password"]) then Refuse(401, "Invalid credentials")
        else
          match env.sign(AdminClaims(admin), AdminSecret(env), Some("1d"))
          case Failure(_) => Refuse(500, ServerError)
          case Success(token) => Reply(200, LoggedIn(token, WithoutPassword(admin), "Admin logged in successfully"))
  }

  /** A successful admin login never returns a password, and keeps every
      other key of the stored document. */
  lemma LoginStripsOnlyPassword(rows: seq<AdminDocument>, email: string, password: string, env: Env)
    requires LoginAdmin(rows, [], email, password, env).Reply?
    ensures var a := LoginAdmin(rows, [], email, password, env).body.admin;
      && "password" !in a
      && exists d :: d in rows && EmailField(d) == Some(email) && a.Keys == d.Keys - {"password"}
                     && forall k :: k in a ==> a[k] == d[k]
  {
    var r := LoginAdmin(rows, [], email, password, env);
    var d :| && d in rows && EmailField(d) == Some(email) && "password" in d && env.compare(password, d["password"])
             && r.body.admin == WithoutPassword(d);
    assert r.body.admin.Keys == d.Keys - {"password"};
  }

  /** When no two admin documents share an email, the outcome is decided by
      the one document that holds it: a missing password is a 500, a wrong
      password a 401, and a right one a 200 carrying that document without
      its password, unless signing fails. */
  lemma LoginAdminByHolder(rows: seq<AdminDocument>, email: string, password: string, env: Env, d: AdminDocument)
    requires Rows.KeysDistinct(rows, EmailField)
    requires d in rows && EmailField(d) == Some(email)
    ensures var r := LoginAdmin(rows, [], email, password, env);
      && ("password" !in d ==> r == Refuse(500, ServerError))
      && ("password" in d && !env.compare(password, d["password"]) ==> r == Refuse(401, "Invalid credentials"))
      && ("password" in d && env.compare(password, d["password"]) ==>
            r.Reply? || r == Refuse(500, ServerError))
      && (r.Reply? ==> r == Reply(200, LoggedIn(r.body.token, WithoutPassword(d), "Admin logged in successfully")))
  {
    Rows.OnlyHolder(rows, EmailField, d);
  }

  /** `GET /admin/current`. `admin` is `req.admin.id`, None when no
      middleware attached `req.admin` (none does on this route), which
      throws. A missing document is `res.json(null)`. */
  function GetCurrentAdmin(rows: seq<AdminDocument>, admin: Option<string>, env: Env): (r: Response<Option<AdminDocument>>)
    ensures admin.None? ==> r == Refuse(500, ServerError)
    ensures admin.Some? && !env.isObjectId(admin.value) ==> r == Refuse(500, ServerError)
    ensures admin.Some? && env.isObjectId(admin.value) ==> r.Reply? && r.status == 200
    ensures r.Reply? && r.body.None? ==> forall d :: d in rows ==> IdField(d) != admin
    ensures r.Reply? && r.body.Some? ==>
      exists d :: d in rows && IdField(d) == admin && r.body.value == WithoutPassword(d)
  {
    if admin.None? || !env.isObjectId(admin.value) then Refuse(500, ServerError)
    else
      match Rows.FindKey(rows, IdField, admin)
      case None => Reply(200, None)
      case Some(d) => Reply(200, Some(WithoutPassword(d)))
  }
}
