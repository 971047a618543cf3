/** What the handlers get from outside: bcrypt, jsonwebtoken, Mongoose's
    ObjectId casting and the schema's regular expressions are parameters
    (fields of `Env`); the database's failures and the HTTP outcomes are
    datatypes. */
module Platform {
  import opened Js

  /** The payload a token carries. A field that JavaScript leaves undefined
      (and JSON.stringify therefore drops) is None. */
  datatype Claims = Claims(id: Option<string>, role: Option<string>, email: Option<string>)

  datatype Env = Env(
    /** bcrypt.hash(plain, genSalt(10)); the salt is folded into the oracle. */
    hash: string -> string,
    /** bcrypt.compare(plain, storedHash). */
    compare: (string, string) -> bool,
    /** jwt.sign(payload, secret, { expiresIn }); Failure carries the thrown message. */
    sign: (Claims, Option<string>, Option<string>) -> Result<string, string>,
    /** jwt.verify(token, secret); None when it throws (malformed, bad signature, expired). */
    verify: (string, Option<string>) -> Option<Claims>,
    /** process.env.JWT_SECRET and process.env.JWT_EXPIRE. */
    jwtSecret: Option<string>,
    jwtExpire: Option<string>,
    /** Whether Mongoose can cast a string to an ObjectId (findById throws a CastError otherwise). */
    isObjectId: string -> bool,
    /** The email and phone-number regular expressions of the schemas. */
    emailPattern: string -> bool,
    phonePattern: string -> bool
  )

  /** The errors a Mongoose create/save/update can raise. */
  datatype DbError =
    | Invalid(model: string, failures: seq<string>)   // ValidationError; model "" for an update query
    | DuplicateKey(model: string, field: string)      // MongoServerError with code 11000
    | CastFailed(model: string, value: string)        // CastError on an _id

  /** `err.code`: 11000 for a duplicate key, undefined (None) otherwise. */
  function Code(e: DbError): Option<int> {
    if e.DuplicateKey? then Some(11000) else None
  }

  /** `err.message`. */
  function Message(e: DbError): string {
    match e
    case Invalid(model, failures) =>
      (if model == "" then "Validation failed" else model + " validation failed") + ": " + Join(failures, ", ")
    case DuplicateKey(model, field) => "E11000 duplicate key error collection: " + model + " index: " + field + "_1"
    case CastFailed(model, value) => "Cast to ObjectId failed for value \"" + value + "\" (type string) at path \"_id\" for model \"" + model + "\""
  }

  /** What a handler hands to `next(err)`: an ErrorResponse with its own status,
      or a thrown error whose status the application's error handler decides. */
  datatype Error = ErrorResponse(message: string, statusCode: nat) | Thrown(message: string)

  /** The message of the TypeError thrown by reading `.id` of undefined. */
  const UndefinedId := "Cannot read properties of undefined (reading 'id')"

  /** How a handler ends: `res.status(s).json(body)`, `res.status(s).json({ message })`
      for a failure, or `next(error)`. */
  datatype Response<T> =
    | Reply(status: nat, body: T)
    | Refuse(status: nat, message: string)
    | PassOn(error: Error)
}
