/** The Employee schema: casting a submitted document (setters, defaults,
    validators), the two pre-save hooks, `generateReferralCode`,
    `isEmailTaken`, and the collection with its unique indexes on _id and
    email. */
module EmployeeModel {
  import opened Js
  import opened Platform
  import Rows

  datatype Status = Pending | Active | Inactive

  function StatusName(s: Status): string {
    match s
    case Pending => "pending"
    case Active => "active"
    case Inactive => "inactive"
  }

  /** The status path: absent takes the default, a present value must be one of
      the enum's names. */
  function CastStatus(v: Option<string>): Option<Status> {
    if v.None? then Some(Pending)
    else if v.value == "pending" then Some(Pending)
    else if v.value == "active" then Some(Active)
    else if v.value == "inactive" then Some(Inactive)
    else None
  }

  /** Every status survives the enum cast of its own name, an absent status is
      'pending', and no other string is accepted. */
  lemma StatusEnum(s: Status, v: string)
    ensures CastStatus(Some(StatusName(s))) == Some(s)
    ensures CastStatus(None) == Some(Pending)
    ensures CastStatus(Some(v)).Some? <==> v in {"pending", "active", "inactive"}
    ensures CastStatus(Some(v)).Some? ==> StatusName(CastStatus(Some(v)).value) == v
  {
  }

  datatype Employee = Employee(
    id: string,
    fullName: string,
    email: string,
    password: string,
    referralCode: Option<string>,
    referredBy: Option<string>,
    status: Status,
    lastLogin: Option<int>,
    createdAt: int,
    updatedAt: Option<int>)

  /** An employee as a query returns it: `password` is `select: false`. */
  datatype EmployeeView = EmployeeView(
    id: string,
    fullName: string,
    email: string,
    referralCode: Option<string>,
    referredBy: Option<string>,
    status: Status,
    lastLogin: Option<int>,
    createdAt: int,
    updatedAt: Option<int>)

  function View(e: Employee): EmployeeView {
    EmployeeView(e.id, e.fullName, e.email, e.referralCode, e.referredBy, e.status, e.lastLogin, e.createdAt, e.updatedAt)
  }

  function Views(s: seq<Employee>): (r: seq<EmployeeView>)
    ensures |r| == |s| && forall i :: 0 <= i < |s| ==> r[i] == View(s[i])
  {
    seq(|s|, i requires 0 <= i < |s| => View(s[i]))
  }

  function IdOf(e: Employee): string { e.id }
  function EmailOf(e: Employee): string { e.email }
  function ReferralCodeOf(e: Employee): Option<string> { e.referralCode }
  function ReferredByOf(e: Employee): Option<string> { e.referredBy }
  function CreatedAtOf(e: Employee): int { e.createdAt }

  /** The schema paths a request may supply; anything else is dropped by
      Mongoose's strict mode. */
  datatype EmployeeFields = EmployeeFields(
    id: Option<string>,
    fullName: Option<string>,
    email: Option<string>,
    password: Option<string>,
    referralCode: Option<string>,
    referredBy: Option<string>,
    status: Option<string>,
    lastLogin: Option<int>,
    createdAt: Option<int>)

  /** The email setters (trim, lowercase); Mongoose applies them to query
      values on this path too. */
  function NormalizeEmail(s: string): string {
    Lower(Trim(s))
  }

  const MinPassword := 6

  /** A client may supply `_id`; it must cast to an ObjectId. */
  function IdFailures(v: Option<string>, env: Env): (r: seq<string>)
    ensures r == [] <==> (v.Some? ==> env.isObjectId(v.value))
  {
    if v.Some? && !env.isObjectId(v.value) then
      ["_id: Cast to ObjectId failed for value \"" + v.value + "\" (type string) at path \"_id\""]
    else []
  }

  function FullNameFailures(v: Option<string>): (r: seq<string>)
    ensures r == [] <==> v.Some? && Trim(v.value) != ""
  {
    if v.None? || Trim(v.value) == "" then ["fullName: Please add a name"] else []
  }

  function EmailFailures(v: Option<string>, env: Env): (r: seq<string>)
    ensures r == [] <==> v.Some? && NormalizeEmail(v.value) != "" && env.emailPattern(NormalizeEmail(v.value))
  {
    if v.None? || NormalizeEmail(v.value) == "" then ["email: Please add an email"]
    else if !env.emailPattern(NormalizeEmail(v.value)) then ["email: Please add a valid email"]
    else []
  }

  function PasswordFailures(v: Option<string>): (r: seq<string>)
    ensures r == [] <==> v.Some? && |v.value| >= MinPassword
  {
    if v.None? || v.value == "" then ["password: Please add a password"]
    else if |v.value| < MinPassword then
      ["password: Path `password` (`" + v.value + "`) is shorter than the minimum allowed length (6)."]
    else []
  }

  function ReferredByFailures(v: Option<string>, env: Env): (r: seq<string>)
    ensures r == [] <==> (v.Some? ==> env.isObjectId(v.value))
  {
    if v.Some? && !env.isObjectId(v.value) then
      ["referredBy: Cast to ObjectId failed for value \"" + v.value + "\" (type string) at path \"referredBy\""]
    else []
  }

  function StatusFailures(v: Option<string>): (r: seq<string>)
    ensures r == [] <==> CastStatus(v).Some?
  {
    if CastStatus(v).None? then ["status: `" + v.value + "` is not a valid enum value for path `status`."] else []
  }

  /** The validators' messages, in schema path order. */
  function Failures(f: EmployeeFields, env: Env): seq<string> {
    IdFailures(f.id, env) + FullNameFailures(f.fullName) + EmailFailures(f.email, env) + PasswordFailures(f.password)
    + ReferredByFailures(f.referredBy, env) + StatusFailures(f.status)
  }

  /** `new Employee(fields)` followed by validation: the setters and defaults
      applied, or the ValidationError. `id` is the ObjectId Mongoose generates
      when the fields supply none. The password is still plain text here. */
  function Cast(f: EmployeeFields, id: string, now: int, env: Env): Result<Employee, DbError> {
    var failures := Failures(f, env);
    if failures != [] then Failure(Invalid("Employee", failures))
    else Success(Built(f, id, now, CastStatus(f.status).value))
  }

  /** The document the setters and defaults make of fields that validate. */
  function Built(f: EmployeeFields, id: string, now: int, status: Status): Employee
    requires f.fullName.Some? && f.email.Some? && f.password.Some?
  {
    Employee(
      if f.id.Some? then f.id.value else id, Trim(f.fullName.value), NormalizeEmail(f.email.value), f.password.value,
      if f.referralCode.Some? then Some(Trim(f.referralCode.value)) else None,
      f.referredBy, status, f.lastLogin, if f.createdAt.Some? then f.createdAt.value else now, None)
  }

  /** What the schema promises of every document it accepts. */
  ghost predicate WellFormed(e: Employee, env: Env) {
    && e.fullName != "" && Trimmed(e.fullName)
    && e.email != "" && IsLowerCase(e.email) && Trimmed(e.email)
    && env.emailPattern(e.email)
    && |e.password| >= MinPassword
    && (e.referralCode.Some? ==> Trimmed(e.referralCode.value))
    && (e.referredBy.Some? ==> env.isObjectId(e.referredBy.value))
  }

  /** The submitted fields the schema accepts, stated path by path. */
  ghost predicate Acceptable(f: EmployeeFields, env: Env) {
    && (f.id.Some? ==> env.isObjectId(f.id.value))
    && f.fullName.Some? && Trim(f.fullName.value) != ""
    && f.email.Some? && NormalizeEmail(f.email.value) != "" && env.emailPattern(NormalizeEmail(f.email.value))
    && f.password.Some? && |f.password.value| >= MinPassword
    && (f.referredBy.Some? ==> env.isObjectId(f.referredBy.value))
    && (f.status.None? || f.status.value in {"pending", "active", "inactive"})
  }

  /** Casting succeeds exactly on acceptable fields. */
  lemma CastAcceptsExactly(f: EmployeeFields, id: string, now: int, env: Env)
    ensures Cast(f, id, now, env).Success? <==> Acceptable(f, env)
  {
    assert |Failures(f, env)| == |IdFailures(f.id, env)| + |FullNameFailures(f.fullName)| + |EmailFailures(f.email, env)|
      + |PasswordFailures(f.password)| + |ReferredByFailures(f.referredBy, env)| + |StatusFailures(f.status)|;
    if f.status.Some? {
      StatusEnum(Pending, f.status.value);
    }
  }

  /** What casting produces is well formed, carries the supplied `_id` or else
      the generated one, the given reference,
      last login and plain password, is created now unless the fields give a
      creation time, and its status defaults to pending. */
  lemma CastWellFormed(f: EmployeeFields, id: string, now: int, env: Env)
    requires Cast(f, id, now, env).Success?
    ensures
      var e := Cast(f, id, now, env).value;
      && WellFormed(e, env) && e.id == (if f.id.Some? then f.id.value else id)
      && e.referredBy == f.referredBy && e.lastLogin == f.lastLogin
      && (f.createdAt.None? ==> e.createdAt == now)
      && (f.createdAt.Some? ==> e.createdAt == f.createdAt.value)
      && (f.status.None? ==> e.status == Pending)
      && e.password == f.password.value
  {
    CastAcceptsExactly(f, id, now, env);
    BuiltWellFormed(f, id, now, CastStatus(f.status).value, env);
  }

  lemma BuiltWellFormed(f: EmployeeFields, id: string, now: int, status: Status, env: Env)
    requires Acceptable(f, env)
    ensures WellFormed(Built(f, id, now, status), env)
  {
    var e := Built(f, id, now, status);
    assert e.fullName != "" && Trimmed(e.fullName) by {
      TrimmedEnds(f.fullName.value);
    }
    assert Trimmed(e.email) by {
      TrimmedEnds(f.email.value);
      LowerTrimmed(Trim(f.email.value));
    }
    assert e.referralCode.Some? ==> Trimmed(e.referralCode.value) by {
      if f.referralCode.Some? {
        TrimmedEnds(f.referralCode.value);
      }
    }
  }

  // ---------------------------------------------------------------- hooks

  /** The characters `Math.random().toString(36)` writes after "0.". */
  predicate Base36(s: string) {
    forall i :: 0 <= i < |s| ==> '0' <= s[i] <= '9' || 'a' <= s[i] <= 'z'
  }

  /** `generateReferralCode` with the random part given: the first three
      characters of the full name followed by the suffix, upper-cased, and
      then trimmed by the setter of the `referralCode` path. */
  function ReferralCode(fullName: string, suffix: string): string {
    Trim(Upper(fullName[..Rows.Min(3, |fullName|)] + suffix))
  }

  /** The stored code is upper case and trimmed. For a well-formed name (non-
      empty, trimmed) and a non-empty base-36 suffix the setter cuts nothing:
      the code is the upper-cased name prefix (at most three characters)
      followed by the upper-cased suffix. */
  lemma ReferralCodeShape(fullName: string, suffix: string)
    ensures IsUpperCase(ReferralCode(fullName, suffix)) && Trimmed(ReferralCode(fullName, suffix))
    ensures fullName != "" && Trimmed(fullName) && suffix != "" && Base36(suffix) ==>
      && |ReferralCode(fullName, suffix)| == Rows.Min(3, |fullName|) + |suffix|
      && ReferralCode(fullName, suffix) == Upper(fullName[..Rows.Min(3, |fullName|)]) + Upper(suffix)
  {
    var raw := Upper(fullName[..Rows.Min(3, |fullName|)] + suffix);
    TrimKeepsUpperCase(raw);
    TrimmedEnds(raw);
    if fullName != "" && Trimmed(fullName) && suffix != "" && Base36(suffix) {
      NothingToCut(fullName[..Rows.Min(3, |fullName|)], suffix);
    }
  }

  /** A prefix that starts with no white space followed by a base-36 suffix
      leaves the setter nothing to cut. */
  lemma NothingToCut(prefix: string, suffix: string)
    requires prefix != [] && !IsSpace(prefix[0]) && suffix != [] && Base36(suffix)
    ensures Trim(Upper(prefix + suffix)) == Upper(prefix) + Upper(suffix)
  {
    var raw := Upper(prefix + suffix);
    var last := suffix[|suffix| - 1];
    assert '0' <= last <= '9' || 'a' <= last <= 'z';
    assert !IsSpace(last);
    UpperConcatEnds(prefix, suffix);
    UpperCharSpace(prefix[0]);
    UpperCharSpace(last);
    assert Trimmed(raw);
    TrimmedFixed(raw);
    UpperOfConcat(prefix, suffix);
  }

  /** The ends of an upper-cased concatenation are the upper-cased ends. */
  lemma UpperConcatEnds(a: string, b: string)
    requires a != [] && b != []
    ensures Upper(a + b) != []
    ensures Upper(a + b)[0] == UpperChar(a[0])
    ensures Upper(a + b)[|Upper(a + b)| - 1] == UpperChar(b[|b| - 1])
  {
    assert (a + b)[0] == a[0];
    assert (a + b)[|a + b| - 1] == b[|b| - 1];
  }

  /** With an empty random part (`Math.random()` returning 0) the setter
      trims a name prefix that ends in a space: "Al Bo" gives "AL". */
  lemma ReferralCodeTrimsPrefix()
    ensures ReferralCode("Al Bo", "") == "AL"
  {
    var raw := Upper("Al Bo"[..3] + "");
    assert "Al Bo"[..3] + "" == "Al ";
    assert raw == [UpperChar('A'), UpperChar('l'), UpperChar(' ')];
    assert raw == "AL ";
    assert !IsSpace('A') && IsSpace(' ') && !IsSpace('L');
    assert TrimStart(raw) == raw;
    assert TrimEnd(raw[..2]) == "AL";
    assert TrimEnd(raw) == "AL";
  }

  /** A Mongoose document on its way to the database, with the flag
      `isModified('password')`. */
  class EmployeeDocument {
    var record: Employee
    var passwordModified: bool

    constructor (record: Employee, passwordModified: bool)
      ensures this.record == record && this.passwordModified == passwordModified
    {
      this.record := record;
      this.passwordModified := passwordModified;
    }

    /** The first pre-save hook: replace a modified password by its hash,
        leave an unmodified one alone. */
    method HashPassword(hash: string -> string)
      modifies this`record
      ensures passwordModified ==> record == old(record).(password := hash(old(record).password))
      ensures !passwordModified ==> record == old(record)
    {
      if !passwordModified {
        return;
      }
      record := record.(password := hash(record.password));
    }

    /** The second pre-save hook: stamp `updatedAt`. */
    method Touch(now: int)
      modifies this`record
      ensures record == old(record).(updatedAt := Some(now))
    {
      record := record.(updatedAt := Some(now));
    }

    /** `save()`: both hooks in the order they are registered. */
    method Save(hash: string -> string, now: int)
      modifies this`record
      ensures record.updatedAt == Some(now)
      ensures record.password == if passwordModified then hash(old(record).password) else old(record).password
      ensures record == old(record).(password := record.password, updatedAt := Some(now))
    {
      HashPassword(hash);
      Touch(now);
    }

    /** `generateReferralCode`: the assignment goes through the path's
        trim setter. */
    method GenerateReferralCode(suffix: string)
      modifies this`record
      ensures record == old(record).(referralCode := Some(ReferralCode(old(record).fullName, suffix)))
    {
      record := record.(referralCode := Some(ReferralCode(record.fullName, suffix)));
    }
  }

  /** `save()` on a new document, whose password counts as modified: both
      hooks run. */
  method SaveNew(e: Employee, hash: string -> string, now: int) returns (saved: Employee)
    ensures saved == e.(password := hash(e.password), updatedAt := Some(now))
  {
    var doc := new EmployeeDocument(e, true);
    doc.Save(hash, now);
    saved := doc.record;
  }

  // ---------------------------------------------------------------- isEmailTaken

  /** Whether some employee other than `exclude` has the email, as a scan
      of the collection; an absent `exclude` excludes nobody. */
  function EmailTakenIn(rows: seq<Employee>, email: string, exclude: Option<string>): (r: bool)
    ensures r <==> exists i :: 0 <= i < |rows| && rows[i].email == email && Some(rows[i].id) != exclude
  {
    if |rows| == 0 then false
    else if rows[0].email == email && Some(rows[0].id) != exclude then true
    else
      var r := EmailTakenIn(rows[1..], email, exclude);
      assert forall i :: 1 <= i < |rows| ==> rows[i] == rows[1..][i - 1];
      r
  }

  /** `Employee.isEmailTaken(email, excludeEmployeeId)`: the email goes through
      the path's setters; an exclusion that is not an ObjectId is a CastError. */
  function IsEmailTaken(rows: seq<Employee>, email: string, exclude: Option<string>, env: Env): (r: Result<bool, DbError>)
    ensures r.Failure? <==> exclude.Some? && !env.isObjectId(exclude.value)
    ensures r.Success? ==>
      (r.value <==> exists e :: e in rows && e.email == NormalizeEmail(email) && Some(e.id) != exclude)
  {
    if exclude.Some? && !env.isObjectId(exclude.value) then Failure(CastFailed("Employee", exclude.value))
    else
      var m := NormalizeEmail(email);
      var taken := EmailTakenIn(rows, m, exclude);
      assert taken <==> exists e :: e in rows && e.email == m && Some(e.id) != exclude by {
        if taken {
          var i :| 0 <= i < |rows| && rows[i].email == m && Some(rows[i].id) != exclude;
          assert rows[i] in rows;
        }
        forall e | e in rows && e.email == m && Some(e.id) != exclude ensures taken {
          var i :| 0 <= i < |rows| && rows[i] == e;
        }
      }
      Success(taken)
  }

  /** Once an employee is stored under a new email, that email is taken, except
      for the employee itself. */
  lemma EmailTakenAfterInsert(rows: seq<Employee>, e: Employee)
    requires Rows.FindKey(rows, EmailOf, e.email).None?
    ensures EmailTakenIn(rows + [e], e.email, None)
    ensures !EmailTakenIn(rows + [e], e.email, Some(e.id))
  {
    var r := rows + [e];
    assert r[|rows|] == e;
    forall i | 0 <= i < |rows| ensures r[i].email != e.email {
      assert r[i] == rows[i] && EmailOf(rows[i]) != e.email;
    }
  }

  /** `Employee.findById(id)`: a CastError for an id that is not an ObjectId. */
  function FindById(rows: seq<Employee>, id: string, env: Env): (r: Result<Option<Employee>, DbError>)
    ensures r.Failure? <==> !env.isObjectId(id)
    ensures r.Failure? ==> r.error == CastFailed("Employee", id)
    ensures r.Success? && r.value.Some? ==> r.value.value in rows && r.value.value.id == id
    ensures r.Success? && r.value.None? ==> forall e :: e in rows ==> e.id != id
  {
    if !env.isObjectId(id) then Failure(CastFailed("Employee", id))
    else Success(Rows.FindKey(rows, IdOf, id))
  }

  /** `Employee.findOne({ email })`, the email going through the path's setters. */
  function FindByEmail(rows: seq<Employee>, email: string): (r: Option<Employee>)
    ensures r.Some? ==> r.value in rows && r.value.email == NormalizeEmail(email)
    ensures r.None? ==> forall e :: e in rows ==> e.email != NormalizeEmail(email)
  {
    Rows.FindKey(rows, EmailOf, NormalizeEmail(email))
  }

  // ---------------------------------------------------------------- collection

  /** The `employees` collection with its unique indexes on _id and email. */
  class EmployeeCollection {
    var rows: seq<Employee>

    ghost predicate Valid()
      reads this
    {
      Rows.KeysDistinct(rows, IdOf) && Rows.KeysDistinct(rows, EmailOf)
    }

    constructor ()
      ensures Valid() && rows == []
    {
      rows := [];
    }

    /** `Employee.create(fields)`: cast and validate, run the pre-save hooks on
        a new document (its password counts as modified), insert unless its
        _id (supplied, or else `id`) or its email is already indexed (error
        11000). */
    method Create(f: EmployeeFields, id: string, now: int, env: Env) returns (r: Result<Employee, DbError>)
      requires Valid()
      modifies this
      ensures Valid()
      ensures match Cast(f, id, now, env)
        case Failure(_) => r == Cast(f, id, now, env) && rows == old(rows)
        case Success(e) =>
          var saved := e.(password := env.hash(e.password), updatedAt := Some(now));
          if Rows.FindKey(old(rows), IdOf, saved.id).Some? then
            r == Failure(DuplicateKey("employees", "_id")) && rows == old(rows)
          else if Rows.FindKey(old(rows), EmailOf, saved.email).Some? then
            r == Failure(DuplicateKey("employees", "email")) && rows == old(rows)
          else
            r == Success(saved) && rows == old(rows) + [saved]
    {
      var cast := Cast(f, id, now, env);
      if cast.Failure? {
        return cast;
      }
      var saved := SaveNew(cast.value, env.hash, now);
      r := Insert(saved);
    }

    /** The insert itself: refused with error 11000 when the _id or the email
        is already indexed, appended otherwise. */
    method Insert(saved: Employee) returns (r: Result<Employee, DbError>)
      requires Valid()
      modifies this
      ensures Valid()
      ensures if Rows.FindKey(old(rows), IdOf, saved.id).Some? then
          r == Failure(DuplicateKey("employees", "_id")) && rows == old(rows)
        else if Rows.FindKey(old(rows), EmailOf, saved.email).Some? then
          r == Failure(DuplicateKey("employees", "email")) && rows == old(rows)
        else
          r == Success(saved) && rows == old(rows) + [saved]
    {
      if Rows.FindKey(rows, IdOf, saved.id).Some? {
        return Failure(DuplicateKey("employees", "_id"));
      }
      if Rows.FindKey(rows, EmailOf, saved.email).Some? {
        return Failure(DuplicateKey("employees", "email"));
      }
      Rows.AppendKeepsDistinct(rows, IdOf, saved);
      Rows.AppendKeepsDistinct(rows, EmailOf, saved);
      rows := rows + [saved];
      r := Success(saved);
    }

    /** `employee.deleteOne()` on a document that was found. */
    method Delete(id: string)
      requires Valid()
      modifies this
      ensures Valid()
      ensures rows == Rows.Reject(old(rows), IdOf, id)
    {
      Rows.RejectKeepsDistinct(rows, IdOf, id, IdOf);
      Rows.RejectKeepsDistinct(rows, IdOf, id, EmailOf);
      rows := Rows.Reject(rows, IdOf, id);
    }
  }
}
