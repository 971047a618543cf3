/** `protect` and `verifyReferral` of the header-only guard: a Bearer token
    is resolved among the users first and the employees second, and every
    failure answers 401 itself; the referral check runs only on user
    creation requests. */
module AuthMiddleware {
  import opened Js
  import opened Platform
  import opened Http
  import UserModel
  import EmployeeModel

  const NoToken := "Access denied. No token provided."
  const VerificationFailed := "Token verification failed."
  const NotFound := "Invalid token. User/Employee not found."

  /** Only a header that starts with "Bearer" supplies a token. */
  function HeaderToken(authorization: Option<string>): Option<string> {
    if authorization.Some? && StartsWith(authorization.value, "Bearer") then SecondField(authorization.value, ' ')
    else None
  }

  /** A cookie never supplies a token here. */
  lemma NoCookieFallback(word: string)
    requires ' ' !in word
    ensures HeaderToken(Some("Bearer " + word)) == Some(word)
    ensures HeaderToken(None) == None
    ensures HeaderToken(Some("Bearer")) == None
  {
    assert "Bearer " + word == "Bearer" + [' '] + word + [];
    SecondFieldIsWord("Bearer", ' ', word, []);
    NoSeparatorNoSecondField("Bearer", ' ');
  }

  /** The two lookups of `decoded.id`: users first, then employees; the
      employee lookup happens only when no user has the id. */
  function Resolve(users: seq<UserModel.User>, employees: seq<EmployeeModel.Employee>, id: Option<string>, env: Env): (r: Result<Option<Identity>, DbError>)
    ensures r.Failure? <==> id.Some? && !env.isObjectId(id.value)
    ensures id.Some? && env.isObjectId(id.value) && (exists u :: u in users && u.id == id.value) ==>
      r.Success? && r.value.Some? && r.value.value.AsUser?
    ensures r.Success? && r.value.Some? && r.value.value.AsUser? ==>
      exists u :: u in users && Some(u.id) == id && r.value.value.user == UserModel.View(u)
    ensures r.Success? && r.value.Some? && r.value.value.AsEmployee? ==>
      && (forall u :: u in users ==> Some(u.id) != id)
      && exists e :: e in employees && Some(e.id) == id && r.value.value.employee == EmployeeModel.View(e)
    ensures r.Success? && r.value.None? ==>
      (forall u :: u in users ==> Some(u.id) != id) && (forall e :: e in employees ==> Some(e.id) != id)
  {
    if id.None? then Success(None)
    else
      match UserModel.FindById(users, id.value, env)
      case Failure(e) => Failure(e)
      case Success(Some(u)) => Success(Some(AsUser(UserModel.View(u))))
      case Success(None) =>
        match EmployeeModel.FindById(employees, id.value, env)
        case Failure(e) => Failure(e)
        case Success(Some(e)) => Success(Some(AsEmployee(EmployeeModel.View(e))))
        case Success(None) => Success(None)
  }

  /** When both collections hold the id, the user wins. */
  lemma UserWins(users: seq<UserModel.User>, employees: seq<EmployeeModel.Employee>, u: UserModel.User, env: Env)
    requires u in users && env.isObjectId(u.id) && UserModel.IdOf(u) == u.id
    requires forall v :: v in users && v.id == u.id ==> v == u
    ensures Resolve(users, employees, Some(u.id), env) == Success(Some(AsUser(UserModel.View(u))))
  {
  }

  /** `protect`. */
  method Protect(req: Request, users: seq<UserModel.User>, employees: seq<EmployeeModel.Employee>, env: Env) returns (out: Passage)
    modifies req`user
    ensures var token := HeaderToken(req.authorization);
      && (!Truthy(token) ==> out == Halt(Refuse(401, NoToken)))
      && (Truthy(token) && env.verify(token.value, env.jwtSecret).None? ==> out == Halt(Refuse(401, VerificationFailed)))
      && (Truthy(token) && env.verify(token.value, env.jwtSecret).Some? ==>
            match Resolve(users, employees, env.verify(token.value, env.jwtSecret).value.id, env)
            case Failure(_) => out == Halt(Refuse(401, VerificationFailed))
            case Success(None) => out == Halt(Refuse(401, NotFound))
            case Success(Some(identity)) => out == Proceed && req.user == Some(identity))
    ensures out.Halt? ==> req.user == old(req.user) && out.response.Refuse? && out.response.status == 401
  {
    var token: Option<string> := None;
    if req.authorization.Some? && StartsWith(req.authorization.value, "Bearer") {
      token := SecondField(req.authorization.value, ' ');
    }
    if !Truthy(token) {
      return Halt(Refuse(401, NoToken));
    }
    var decoded := env.verify(token.value, env.jwtSecret);
    if decoded.None? {
      return Halt(Refuse(401, VerificationFailed));
    }
    var authenticated := Resolve(users, employees, decoded.value.id, env);
    if authenticated.Failure? {
      return Halt(Refuse(401, VerificationFailed));
    }
    if authenticated.value.None? {
      return Halt(Refuse(401, NotFound));
    }
    req.user := authenticated.value;
    out := Proceed;
  }

  /** The request is a user creation: a POST whose URL mentions "/users". */
  predicate CreatesUser(verb: string, originalUrl: string) {
    verb == "POST" && Contains(originalUrl, "/users")
  }

  /** `verifyReferral`. */
  method VerifyReferral(req: Request, employees: seq<EmployeeModel.Employee>, env: Env) returns (out: Passage)
    modifies req`referringEmployee
    ensures !CreatesUser(req.verb, req.originalUrl) || !Truthy(req.referral) ==>
      out == Proceed && req.referringEmployee == old(req.referringEmployee)
    ensures CreatesUser(req.verb, req.originalUrl) && Truthy(req.referral) ==>
      match EmployeeModel.FindById(employees, req.referral.value, env)
      case Failure(_) => out == Halt(Refuse(400, "Invalid referral ID format.")) && req.referringEmployee == old(req.referringEmployee)
      case Success(None) => out == Halt(Refuse(404, "Referral employee not found.")) && req.referringEmployee == old(req.referringEmployee)
      case Success(Some(e)) => out == Proceed && req.referringEmployee == Some(EmployeeModel.View(e))
  {
    if req.verb == "POST" && Contains(req.originalUrl, "/users") {
      if Truthy(req.referral) {
        var referring := EmployeeModel.FindById(employees, req.referral.value, env);
        if referring.Failure? {
          return Halt(Refuse(400, "Invalid referral ID format."));
        }
        if referring.value.None? {
          return Halt(Refuse(404, "Referral employee not found."));
        }
        req.referringEmployee := Some(EmployeeModel.View(referring.value.value));
      }
    }
    out := Proceed;
  }

  /** The gate: "/api/v1/users" on POST is checked, the same URL on GET is not. */
  lemma ReferralGate()
    ensures CreatesUser("POST", "/api/v1/users")
    ensures !CreatesUser("GET", "/api/v1/users")
  {
    assert StartsWith("/api/v1/users"[7..], "/users");
  }
}
