/** `protect` and `authorize` of the cookie-aware guard: take the token from
    a Bearer header or else from the `token` cookie, verify it, resolve its
    id in the users collection and attach the user; then check roles. */
module AuthGuard {
  import opened Js
  import opened Platform
  import opened Http
  import Rows
  import UserModel

  const NotAuthorized := "Not authorized to access this route"

  /** The token: the second space-separated word of a header that starts with
      "Bearer" (even when there is none), and only otherwise the `token`
      cookie. */
  function Token(authorization: Option<string>, cookies: Option<map<string, string>>): Option<string> {
    if Truthy(authorization) && StartsWith(authorization.value, "Bearer") then
      SecondField(authorization.value, ' ')
    else if cookies.Some? && "token" in cookies.value && cookies.value["token"] != "" then
      Some(cookies.value["token"])
    else
      None
  }

  /** A well-formed Bearer header wins over any cookie. */
  lemma HeaderWins(word: string, cookies: Option<map<string, string>>)
    requires ' ' !in word
    ensures Token(Some("Bearer " + word), cookies) == Some(word)
  {
    assert "Bearer " + word == "Bearer" + [' '] + word + [];
    SecondFieldIsWord("Bearer", ' ', word, []);
  }

  /** A bare "Bearer" header yields no token, and the cookie is not consulted. */
  lemma BareBearerNoFallback(cookies: Option<map<string, string>>)
    ensures Token(Some("Bearer"), cookies) == None
  {
    NoSeparatorNoSecondField("Bearer", ' ');
  }

  /** Without a Bearer header the token is the cookie, when it is non-empty. */
  lemma CookieFallback(authorization: Option<string>, token: string)
    requires !Truthy(authorization) || !StartsWith(authorization.value, "Bearer")
    requires token != ""
    ensures Token(authorization, Some(map["token" := token])) == Some(token)
    ensures Token(authorization, None) == None
  {
  }

  /** `User.findById(decoded.id)`: an undefined id finds nothing. */
  function ResolveUser(users: seq<UserModel.User>, id: Option<string>, env: Env): (r: Result<Option<UserModel.User>, DbError>)
    ensures id.None? ==> r == Success(None)
    ensures r.Failure? <==> id.Some? && !env.isObjectId(id.value)
    ensures r.Success? && r.value.Some? ==> r.value.value in users && Some(r.value.value.id) == id
    ensures r.Success? && r.value.None? ==> forall u :: u in users ==> Some(u.id) != id
  {
    if id.None? then Success(None) else UserModel.FindById(users, id.value, env)
  }

  /** `protect`. */
  method Protect(req: Request, users: seq<UserModel.User>, env: Env) returns (out: Passage)
    modifies req`user
    ensures var token := Token(req.authorization, req.cookies);
      && (!Truthy(token) ==> out == Halt(PassOn(ErrorResponse(NotAuthorized, 401))))
      && (Truthy(token) && env.verify(token.value, env.jwtSecret).None? ==> out == Halt(PassOn(ErrorResponse(NotAuthorized, 401))))
      && (Truthy(token) && env.verify(token.value, env.jwtSecret).Some? ==>
            match ResolveUser(users, env.verify(token.value, env.jwtSecret).value.id, env)
            case Failure(_) => out == Halt(PassOn(ErrorResponse(NotAuthorized, 401)))
            case Success(None) => out == Halt(PassOn(ErrorResponse("No user found with this id", 404)))
            case Success(Some(u)) => out == Proceed && req.user == Some(AsUser(UserModel.View(u))))
    ensures out.Halt? ==> req.user == old(req.user)
  {
    var token: Option<string> := None;
    if Truthy(req.authorization) && StartsWith(req.authorization.value, "Bearer") {
      token := SecondField(req.authorization.value, ' ');
    } else if req.cookies.Some? && "token" in req.cookies.value && req.cookies.value["token"] != "" {
      token := Some(req.cookies.value["token"]);
    }
    if !Truthy(token) {
      return Halt(PassOn(ErrorResponse(NotAuthorized, 401)));
    }
    var decoded := env.verify(token.value, env.jwtSecret);
    if decoded.None? {
      return Halt(PassOn(ErrorResponse(NotAuthorized, 401)));
    }
    var user := ResolveUser(users, decoded.value.id, env);
    if user.Failure? {
      return Halt(PassOn(ErrorResponse(NotAuthorized, 401)));
    }
    if user.value.None? {
      return Halt(PassOn(ErrorResponse("No user found with this id", 404)));
    }
    req.user := Some(AsUser(UserModel.View(user.value.value)));
    out := Proceed;
  }

  /** The role as the template literal prints it. */
  function ShowRole(role: Option<string>): string {
    if role.Some? then role.value else "undefined"
  }

  /** `req.user` as `authorize` sees it: only its `role` property matters. */
  datatype Caller = Caller(role: Option<string>)

  function CallerOf(identity: Identity): Caller {
    Caller(RoleOf(identity))
  }

  /** `authorize(...roles)`: no identity is a 401 whatever the roles; an
      identity passes exactly when its role is one of them, and otherwise
      gets a 403 naming the role. */
  function Authorize(roles: seq<string>, user: Option<Caller>): (r: Passage)
    ensures user.None? ==> r == Halt(PassOn(ErrorResponse(NotAuthorized, 401)))
    ensures user.Some? ==> (r == Proceed <==> user.value.role.Some? && user.value.role.value in roles)
    ensures user.Some? && r.Halt? ==>
      r.response == PassOn(ErrorResponse("User role '" + ShowRole(user.value.role) + "' is not authorized", 403))
  {
    if user.None? then Halt(PassOn(ErrorResponse(NotAuthorized, 401)))
    else
      var role := user.value.role;
      if !(role.Some? && role.value in roles) then
        Halt(PassOn(ErrorResponse("User role '" + ShowRole(role) + "' is not authorized", 403)))
      else Proceed
  }

  /** No schema declares a role, so every identity a guard attaches is refused
      by every `authorize`, with a 403 naming the role 'undefined'. */
  lemma AuthorizeAlwaysRefuses(roles: seq<string>, identity: Identity)
    ensures Authorize(roles, Some(CallerOf(identity))) ==
      Halt(PassOn(ErrorResponse("User role 'undefined' is not authorized", 403)))
  {
    assert ShowRole(RoleOf(identity)) == "undefined";
    assert "User role '" + "undefined" + "' is not authorized" == "User role 'undefined' is not authorized";
  }
}
