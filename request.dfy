/** The parts of an Express request the guards read and write, and how a
    middleware ends: by calling `next()` or by answering itself. */
module Http {
  import opened Js
  import opened Platform
  import UserModel
  import EmployeeModel

  /** The document a guard attaches as `req.user`: found with the password
      deselected, so neither variant carries one. */
  datatype Identity =
    | AsUser(user: UserModel.UserView)
    | AsEmployee(employee: EmployeeModel.EmployeeView)

  /** `req.user.role`: neither schema declares a `role` path, so it is always
      undefined. */
  function RoleOf(identity: Identity): Option<string> {
    None
  }

  /** A middleware either calls `next()` (having perhaps written to the
      request) or ends the request with a response or `next(err)`. */
  datatype Passage = Proceed | Halt(response: Response<()>)

  class Request {
    /** `req.method`. */
    const verb: string
    const originalUrl: string
    /** `req.headers.authorization`. */
    const authorization: Option<string>
    /** `req.cookies`: undefined unless a cookie parser is mounted. */
    const cookies: Option<map<string, string>>
    /** `req.body.referral`. */
    const referral: Option<string>
    var user: Option<Identity>
    var referringEmployee: Option<EmployeeModel.EmployeeView>

    constructor (verb: string, originalUrl: string, authorization: Option<string>,
                 cookies: Option<map<string, string>>, referral: Option<string>)
      ensures this.verb == verb && this.originalUrl == originalUrl
      ensures this.authorization == authorization && this.cookies == cookies && this.referral == referral
      ensures user == None && referringEmployee == None
    {
      this.verb := verb;
      this.originalUrl := originalUrl;
      this.authorization := authorization;
      this.cookies := cookies;
      this.referral := referral;
      user := None;
      referringEmployee := None;
    }
  }
}
