/** The User schema: its validators as a validity predicate, the pre-save
    hash hook, `matchPassword`, and the `users` collection with its unique
    indexes on _id and email. */
module UserModel {
  import opened Js
  import opened Platform
  import Rows

  datatype User = User(
    id: string,
    firstName: string,
    lastName: string,
    email: string,
    phoneNumber: string,
    age: int,
    city: string,
    password: string,
    referral: Option<string>,
    createdAt: int)

  /** A user as the handlers return it with `.select('-password')`. */
  datatype UserView = UserView(
    id: string,
    firstName: string,
    lastName: string,
    email: string,
    phoneNumber: string,
    age: int,
    city: string,
    referral: Option<string>,
    createdAt: int)

  function View(u: User): UserView {
    UserView(u.id, u.firstName, u.lastName, u.email, u.phoneNumber, u.age, u.city, u.referral, u.createdAt)
  }

  function IdOf(u: User): string { u.id }
  function EmailOf(u: User): string { u.email }
  function CreatedAtOf(u: User): int { u.createdAt }

  /** The schema paths a request body may supply. */
  datatype UserFields = UserFields(
    firstName: Option<string>,
    lastName: Option<string>,
    email: Option<string>,
    phoneNumber: Option<string>,
    age: Option<int>,
    city: Option<string>,
    password: Option<string>,
    referral: Option<string>,
    createdAt: Option<int>)

  const MaxText := 50
  const MinAge := 18
  const MaxAge := 100
  const MinPassword := 6

  /** A trimmed, required text of at most 50 characters. */
  ghost predicate TextOk(v: Option<string>) {
    v.Some? && 0 < |Trim(v.value)| <= MaxText
  }

  /** A trimmed path with a required and a maxlength-50 validator. */
  function TextFailures(path: string, v: Option<string>, missing: string, tooLong: string): (r: seq<string>)
    ensures r == [] <==> TextOk(v)
  {
    if v.None? || Trim(v.value) == "" then [path + ": " + missing]
    else if |Trim(v.value)| > MaxText then [path + ": " + tooLong]
    else []
  }

  /** A path with a required and a match validator. */
  function PatternFailures(path: string, v: Option<string>, pattern: string -> bool, missing: string, bad: string): (r: seq<string>)
    ensures r == [] <==> v.Some? && v.value != "" && pattern(v.value)
  {
    if v.None? || v.value == "" then [path + ": " + missing]
    else if !pattern(v.value) then [path + ": " + bad]
    else []
  }

  function AgeFailures(v: Option<int>): (r: seq<string>)
    ensures r == [] <==> v.Some? && MinAge <= v.value <= MaxAge
  {
    if v.None? then ["age: Please add age"]
    else if v.value < MinAge then ["age: Age must be at least 18"]
    else if v.value > MaxAge then ["age: Age must be less than 100"]
    else []
  }

  function PasswordFailures(v: Option<string>): (r: seq<string>)
    ensures r == [] <==> v.Some? && |v.value| >= MinPassword
  {
    if v.None? || v.value == "" then ["password: Please add a password"]
    else if |v.value| < MinPassword then
      ["password: Path `password` (`" + v.value + "`) is shorter than the minimum allowed length (6)."]
    else []
  }

  function ReferralFailures(v: Option<string>, env: Env): (r: seq<string>)
    ensures r == [] <==> (v.Some? ==> env.isObjectId(v.value))
  {
    if v.Some? && !env.isObjectId(v.value) then
      ["referral: Cast to ObjectId failed for value \"" + v.value + "\" (type string) at path \"referral\""]
    else []
  }

  function FirstNameFailures(v: Option<string>): (r: seq<string>)
    ensures r == [] <==> TextOk(v)
  {
    TextFailures("firstName", v, "Please add a first name", "First name cannot be more than 50 characters")
  }

  function LastNameFailures(v: Option<string>): (r: seq<string>)
    ensures r == [] <==> TextOk(v)
  {
    TextFailures("lastName", v, "Please add a last name", "Last name cannot be more than 50 characters")
  }

  function CityFailures(v: Option<string>): (r: seq<string>)
    ensures r == [] <==> TextOk(v)
  {
    TextFailures("city", v, "Please add a city", "City cannot be more than 50 characters")
  }

  function EmailFailures(v: Option<string>, env: Env): (r: seq<string>)
    ensures r == [] <==> v.Some? && v.value != "" && env.emailPattern(v.value)
  {
    PatternFailures("email", v, env.emailPattern, "Please add an email", "Please add a valid email")
  }

  function PhoneFailures(v: Option<string>, env: Env): (r: seq<string>)
    ensures r == [] <==> v.Some? && v.value != "" && env.phonePattern(v.value)
  {
    PatternFailures("phoneNumber", v, env.phonePattern, "Please add a phone number", "Please add a valid phone number")
  }

  /** The validators' messages for a new document, in schema path order. */
  function Failures(f: UserFields, env: Env): seq<string> {
    FirstNameFailures(f.firstName) + LastNameFailures(f.lastName) + EmailFailures(f.email, env)
    + PhoneFailures(f.phoneNumber, env) + AgeFailures(f.age) + CityFailures(f.city)
    + PasswordFailures(f.password) + ReferralFailures(f.referral, env)
  }

  /** The documents the schema accepts, stated path by path; the age bounds
      are inclusive on both sides. */
  ghost predicate Acceptable(f: UserFields, env: Env) {
    && TextOk(f.firstName) && TextOk(f.lastName) && TextOk(f.city)
    && f.email.Some? && f.email.value != "" && env.emailPattern(f.email.value)
    && f.phoneNumber.Some? && f.phoneNumber.value != "" && env.phonePattern(f.phoneNumber.value)
    && f.age.Some? && MinAge <= f.age.value <= MaxAge
    && f.password.Some? && |f.password.value| >= MinPassword
    && (f.referral.Some? ==> env.isObjectId(f.referral.value))
  }

  /** `new User(fields)` and validation: the trimmed record (password still in
      plain text), or the ValidationError. */
  function Cast(f: UserFields, id: string, now: int, env: Env): Result<User, DbError> {
    var failures := Failures(f, env);
    if failures != [] then Failure(Invalid("User", failures))
    else Success(Built(f, id, now))
  }

  /** The document the setters make of fields that validate. */
  function Built(f: UserFields, id: string, now: int): User
    requires f.firstName.Some? && f.lastName.Some? && f.email.Some? && f.phoneNumber.Some?
    requires f.age.Some? && f.city.Some? && f.password.Some?
  {
    User(id, Trim(f.firstName.value), Trim(f.lastName.value), f.email.value, f.phoneNumber.value,
      f.age.value, Trim(f.city.value), f.password.value, f.referral, Pick(f.createdAt, now))
  }

  /** What the schema promises of every stored user. */
  ghost predicate WellFormed(u: User, env: Env) {
    && 0 < |u.firstName| <= MaxText && Trimmed(u.firstName)
    && 0 < |u.lastName| <= MaxText && Trimmed(u.lastName)
    && 0 < |u.city| <= MaxText && Trimmed(u.city)
    && env.emailPattern(u.email) && env.phonePattern(u.phoneNumber)
    && MinAge <= u.age <= MaxAge
    && (u.referral.Some? ==> env.isObjectId(u.referral.value))
  }

  lemma FailuresEmpty(f: UserFields, env: Env)
    ensures Failures(f, env) == [] <==>
      && FirstNameFailures(f.firstName) == [] && LastNameFailures(f.lastName) == []
      && EmailFailures(f.email, env) == [] && PhoneFailures(f.phoneNumber, env) == []
      && AgeFailures(f.age) == [] && CityFailures(f.city) == []
      && PasswordFailures(f.password) == [] && ReferralFailures(f.referral, env) == []
  {
    assert |Failures(f, env)| == |FirstNameFailures(f.firstName)| + |LastNameFailures(f.lastName)|
      + |EmailFailures(f.email, env)| + |PhoneFailures(f.phoneNumber, env)| + |AgeFailures(f.age)|
      + |CityFailures(f.city)| + |PasswordFailures(f.password)| + |ReferralFailures(f.referral, env)|;
  }

  /** Casting succeeds exactly on acceptable fields. */
  lemma CastAcceptsExactly(f: UserFields, id: string, now: int, env: Env)
    ensures Cast(f, id, now, env).Success? <==> Acceptable(f, env)
  {
    FailuresEmpty(f, env);
  }

  /** What casting produces is well formed, with the given id, the submitted
      password and referral, and created now unless the fields give a
      creation time. */
  lemma CastWellFormed(f: UserFields, id: string, now: int, env: Env)
    requires Cast(f, id, now, env).Success?
    ensures
      var u := Cast(f, id, now, env).value;
      && WellFormed(u, env) && u.id == id
      && (f.createdAt.None? ==> u.createdAt == now)
      && (f.createdAt.Some? ==> u.createdAt == f.createdAt.value)
      && u.password == f.password.value && u.referral == f.referral
  {
    CastAcceptsExactly(f, id, now, env);
    BuiltWellFormed(f, id, now, env);
  }

  lemma BuiltWellFormed(f: UserFields, id: string, now: int, env: Env)
    requires Acceptable(f, env)
    ensures WellFormed(Built(f, id, now), env)
  {
    TrimmedEnds(f.firstName.value);
    TrimmedEnds(f.lastName.value);
    TrimmedEnds(f.city.value);
  }

  // ---------------------------------------------------------------- update

  /** The paths an update may set (`password` and `referral` are stripped by
      the handler before it gets here). */
  datatype UserPatch = UserPatch(
    firstName: Option<string>,
    lastName: Option<string>,
    email: Option<string>,
    phoneNumber: Option<string>,
    age: Option<int>,
    city: Option<string>,
    createdAt: Option<int>)

  function Only(present: bool, failures: seq<string>): seq<string> {
    if present then failures else []
  }

  /** Update validators run on the supplied paths only. */
  function PatchFailures(p: UserPatch, env: Env): seq<string> {
    Only(p.firstName.Some?, FirstNameFailures(p.firstName))
    + Only(p.lastName.Some?, LastNameFailures(p.lastName))
    + Only(p.email.Some?, EmailFailures(p.email, env))
    + Only(p.phoneNumber.Some?, PhoneFailures(p.phoneNumber, env))
    + Only(p.age.Some?, AgeFailures(p.age))
    + Only(p.city.Some?, CityFailures(p.city))
  }

  function Pick<T>(v: Option<T>, current: T): T {
    if v.Some? then v.value else current
  }

  function PickText(v: Option<string>, current: string): string {
    if v.Some? then Trim(v.value) else current
  }

  /** `$set` of the supplied paths, through their setters. */
  function Apply(u: User, p: UserPatch): User {
    u.(firstName := PickText(p.firstName, u.firstName),
       lastName := PickText(p.lastName, u.lastName),
       email := Pick(p.email, u.email),
       phoneNumber := Pick(p.phoneNumber, u.phoneNumber),
       age := Pick(p.age, u.age),
       city := PickText(p.city, u.city),
       createdAt := Pick(p.createdAt, u.createdAt))
  }

  /** An update sets every supplied path to the supplied value (through its
      setter) and leaves every other path as stored: id, password and
      referral are never touched. */
  lemma ApplyChangesOnlySupplied(u: User, p: UserPatch)
    ensures var v := Apply(u, p);
      && v.id == u.id && v.password == u.password && v.referral == u.referral
      && (p.firstName.None? ==> v.firstName == u.firstName)
      && (p.lastName.None? ==> v.lastName == u.lastName)
      && (p.email.None? ==> v.email == u.email)
      && (p.phoneNumber.None? ==> v.phoneNumber == u.phoneNumber)
      && (p.age.None? ==> v.age == u.age)
      && (p.city.None? ==> v.city == u.city)
      && (p.createdAt.None? ==> v.createdAt == u.createdAt)
      && (p.firstName.Some? ==> v.firstName == Trim(p.firstName.value))
      && (p.lastName.Some? ==> v.lastName == Trim(p.lastName.value))
      && (p.email.Some? ==> v.email == p.email.value)
      && (p.phoneNumber.Some? ==> v.phoneNumber == p.phoneNumber.value)
      && (p.age.Some? ==> v.age == p.age.value)
      && (p.city.Some? ==> v.city == Trim(p.city.value))
      && (p.createdAt.Some? ==> v.createdAt == p.createdAt.value)
  {
  }

  lemma PatchFailuresEmpty(p: UserPatch, env: Env)
    ensures PatchFailures(p, env) == [] <==>
      && (p.firstName.Some? ==> FirstNameFailures(p.firstName) == [])
      && (p.lastName.Some? ==> LastNameFailures(p.lastName) == [])
      && (p.email.Some? ==> EmailFailures(p.email, env) == [])
      && (p.phoneNumber.Some? ==> PhoneFailures(p.phoneNumber, env) == [])
      && (p.age.Some? ==> AgeFailures(p.age) == [])
      && (p.city.Some? ==> CityFailures(p.city) == [])
  {
  }

  /** An update that passes its validators keeps a stored user well formed. */
  lemma ApplyKeepsWellFormed(u: User, p: UserPatch, env: Env)
    requires WellFormed(u, env) && PatchFailures(p, env) == []
    ensures WellFormed(Apply(u, p), env)
  {
    PatchFailuresEmpty(p, env);
    PickTextOk(p.firstName, u.firstName);
    PickTextOk(p.lastName, u.lastName);
    PickTextOk(p.city, u.city);
  }

  /** A text path keeps its constraints whether or not the update supplies it. */
  lemma PickTextOk(v: Option<string>, current: string)
    requires v.Some? ==> TextOk(v)
    requires 0 < |current| <= MaxText && Trimmed(current)
    ensures 0 < |PickText(v, current)| <= MaxText && Trimmed(PickText(v, current))
  {
    if v.Some? {
      TrimmedEnds(v.value);
    }
  }

  // ---------------------------------------------------------------- hooks

  /** `user.matchPassword(entered)`. */
  function MatchPassword(u: User, entered: string, compare: (string, string) -> bool): bool {
    compare(entered, u.password)
  }

  /** The pre-save hook as written: after `next()` for an unmodified password
      it does not return, so it goes on to hash the stored value again. This
      is the hook's sequential effect on the document. Because `next()` has
      already let the save proceed, whether that save writes the second hash
      is a race; the in-memory document holds it, and any later save of the
      same document stores it. */
  function PreSaveAsWritten(u: User, passwordModified: bool, hash: string -> string): User {
    u.(password := hash(u.password))
  }

  /** The hook as evidently intended: hash the password only when it changed. */
  function HashIfModified(u: User, passwordModified: bool, hash: string -> string): User {
    if passwordModified then u.(password := hash(u.password)) else u
  }

  /** Saving a user whose password was not modified, with the hook as
      written: a password that logged in before no longer does. */
  lemma RehashBreaksLogin()
    ensures
      var hash := (s: string) => "$" + s;
      var compare := (entered: string, stored: string) => stored == "$" + entered;
      var u := User("u1", "Ada", "Lovelace", "ada@example.com", "5550100", 36, "London", "$secret1", None, 0);
      && MatchPassword(u, "secret1", compare)
      && !MatchPassword(PreSaveAsWritten(u, false, hash), "secret1", compare)
  {
  }

  /** With the corrected hook, a save without a password change keeps every
      login working, and a changed password is stored as its hash. */
  lemma HashIfModifiedKeepsLogin(u: User, passwordModified: bool, hash: string -> string, compare: (string, string) -> bool, entered: string)
    ensures !passwordModified ==> MatchPassword(HashIfModified(u, passwordModified, hash), entered, compare) == MatchPassword(u, entered, compare)
    ensures passwordModified ==> HashIfModified(u, passwordModified, hash).password == hash(u.password)
    ensures HashIfModified(u, passwordModified, hash) == u.(password := HashIfModified(u, passwordModified, hash).password)
  {
  }

  /** On a new document (the only save the handlers perform) the password
      counts as modified, and the hook as written and the corrected one agree. */
  lemma HooksAgreeOnCreate(u: User, hash: string -> string)
    ensures PreSaveAsWritten(u, true, hash) == HashIfModified(u, true, hash)
  {
  }

  /** A Mongoose document on its way to the database. */
  class UserDocument {
    var record: User
    var passwordModified: bool

    constructor (record: User, passwordModified: bool)
      ensures this.record == record && this.passwordModified == passwordModified
    {
      this.record := record;
      this.passwordModified := passwordModified;
    }

    /** The pre-save hook (corrected, see HashIfModified). */
    method PreSave(hash: string -> string)
      modifies this`record
      ensures passwordModified ==> record == old(record).(password := hash(old(record).password))
      ensures !passwordModified ==> record == old(record)
    {
      if passwordModified {
        record := record.(password := hash(record.password));
      }
    }
  }

  /** The hook run on a new document, whose password counts as modified. */
  method SaveNew(u: User, hash: string -> string) returns (saved: User)
    ensures saved == u.(password := hash(u.password))
  {
    var doc := new UserDocument(u, true);
    doc.PreSave(hash);
    saved := doc.record;
  }

  // ---------------------------------------------------------------- collection

  /** `User.findById(id)`: a CastError for an id that is not an ObjectId. */
  function FindById(rows: seq<User>, id: string, env: Env): (r: Result<Option<User>, DbError>)
    ensures r.Failure? <==> !env.isObjectId(id)
    ensures r.Success? && r.value.Some? ==> r.value.value in rows && r.value.value.id == id
    ensures r.Success? && r.value.None? ==> forall u :: u in rows ==> u.id != id
  {
    if !env.isObjectId(id) then Failure(CastFailed("User", id))
    else Success(Rows.FindKey(rows, IdOf, id))
  }

  /** The `users` collection with its unique indexes on _id and email. */
  class UserCollection {
    var rows: seq<User>

    ghost predicate Valid()
      reads this
    {
      Rows.KeysDistinct(rows, IdOf) && Rows.KeysDistinct(rows, EmailOf)
    }

    constructor ()
      ensures Valid() && rows == []
    {
      rows := [];
    }

    /** `User.create(fields)`: cast and validate, hash the new password, insert
        unless _id or email is already indexed. */
    method Create(f: UserFields, id: string, now: int, env: Env) returns (r: Result<User, DbError>)
      requires Valid()
      modifies this
      ensures Valid()
      ensures match Cast(f, id, now, env)
        case Failure(_) => r == Cast(f, id, now, env) && rows == old(rows)
        case Success(u) =>
          var saved := u.(password := env.hash(u.password));
          if Rows.FindKey(old(rows), IdOf, id).Some? then
            r == Failure(DuplicateKey("users", "_id")) && rows == old(rows)
          else if Rows.FindKey(old(rows), EmailOf, u.email).Some? then
            r == Failure(DuplicateKey("users", "email")) && rows == old(rows)
          else
            r == Success(saved) && rows == old(rows) + [saved]
    {
      var cast := Cast(f, id, now, env);
      if cast.Failure? {
        return cast;
      }
      assert cast.value.id == id;
      var saved := SaveNew(cast.value, env.hash);
      r := Insert(saved);
    }

    /** The insert itself: refused with error 11000 when the _id or the email
        is already indexed, appended otherwise. */
    method Insert(saved: User) returns (r: Result<User, DbError>)
      requires Valid()
      modifies this
      ensures Valid()
      ensures if Rows.FindKey(old(rows), IdOf, saved.id).Some? then
          r == Failure(DuplicateKey("users", "_id")) && rows == old(rows)
        else if Rows.FindKey(old(rows), EmailOf, saved.email).Some? then
          r == Failure(DuplicateKey("users", "email")) && rows == old(rows)
        else
          r == Success(saved) && rows == old(rows) + [saved]
    {
      if Rows.FindKey(rows, IdOf, saved.id).Some? {
        return Failure(DuplicateKey("users", "_id"));
      }
      if Rows.FindKey(rows, EmailOf, saved.email).Some? {
        return Failure(DuplicateKey("users", "email"));
      }
      Rows.AppendKeepsDistinct(rows, IdOf, saved);
      Rows.AppendKeepsDistinct(rows, EmailOf, saved);
      rows := rows + [saved];
      r := Success(saved);
    }

    /** `User.findByIdAndUpdate(id, patch, { new: true, runValidators: true })`:
        cast the id, run the update validators, then set the supplied paths of
        the matching user; None when no user has the id. */
    method FindByIdAndUpdate(id: string, p: UserPatch, env: Env) returns (r: Result<Option<User>, DbError>)
      requires Valid()
      modifies this
      ensures Valid()
      ensures !env.isObjectId(id) ==> r == Failure(CastFailed("User", id)) && rows == old(rows)
      ensures env.isObjectId(id) && PatchFailures(p, env) != [] ==>
        r == Failure(Invalid("", PatchFailures(p, env))) && rows == old(rows)
      ensures env.isObjectId(id) && PatchFailures(p, env) == [] ==>
        match Rows.FindKey(old(rows), IdOf, id)
        case None => r == Success(None) && rows == old(rows)
        case Some(u) =>
          if p.email.Some? && Rows.HeldByOther(old(rows), IdOf, id, EmailOf, p.email.value) then
            r == Failure(DuplicateKey("users", "email")) && rows == old(rows)
          else
            r == Success(Some(Apply(u, p))) && rows == Rows.Replace(old(rows), IdOf, id, Apply(u, p))
    {
      if !env.isObjectId(id) {
        return Failure(CastFailed("User", id));
      }
      var failures := PatchFailures(p, env);
      if failures != [] {
        return Failure(Invalid("", failures));
      }
      var found := Rows.FindKey(rows, IdOf, id);
      if found.None? {
        return Success(None);
      }
      if p.email.Some? && Rows.HeldByOther(rows, IdOf, id, EmailOf, p.email.value) {
        return Failure(DuplicateKey("users", "email"));
      }
      var updated := Apply(found.value, p);
      Rows.ReplaceKeepsDistinct(rows, IdOf, id, updated, IdOf);
      Rows.ReplaceKeepsDistinct(rows, IdOf, id, updated, EmailOf);
      rows := Rows.Replace(rows, IdOf, id, updated);
      r := Success(Some(updated));
    }

    /** `User.findByIdAndDelete(id)`: the removed user, or None when no user
        has the id. */
    method FindByIdAndDelete(id: string, env: Env) returns (r: Result<Option<User>, DbError>)
      requires Valid()
      modifies this
      ensures Valid()
      ensures r == FindById(old(rows), id, env)
      ensures rows == if r.Success? && r.value.Some? then Rows.Reject(old(rows), IdOf, id) else old(rows)
    {
      r := FindById(rows, id, env);
      if r.Success? && r.value.Some? {
        Rows.RejectKeepsDistinct(rows, IdOf, id, IdOf);
        Rows.RejectKeepsDistinct(rows, IdOf, id, EmailOf);
        rows := Rows.Reject(rows, IdOf, id);
      }
    }
  }
}
