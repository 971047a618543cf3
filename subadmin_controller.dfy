/** The subadmin handlers and the little of the Subadmin schema they rely
    on: an email and a password, both required, the password hashed when a
    new document is saved. Every thrown error answers 500 "Server error". */
module SubadminController {
  import opened Js
  import opened Platform
  import Rows

  /** A stored subadmin. The schema is strict, so the `name` the register
      handler passes is dropped. */
  datatype Subadmin = Subadmin(id: string, email: string, password: string)

  /** A subadmin with `password` (and `__v`) deselected. */
  datatype SubadminView = SubadminView(id: string, email: string)

  function IdOf(s: Subadmin): string { s.id }
  function EmailOf(s: Subadmin): string { s.email }

  function View(s: Subadmin): SubadminView {
    SubadminView(s.id, s.email)
  }

  const ServerError := "Server error"

  /** The `subadmins` collection with its unique indexes on _id and email. */
  class SubadminCollection {
    var rows: seq<Subadmin>

    ghost predicate Valid()
      reads this
    {
      Rows.KeysDistinct(rows, IdOf) && Rows.KeysDistinct(rows, EmailOf)
    }

    constructor ()
      ensures Valid() && rows == []
    {
      rows := [];
    }

    /** `new Subadmin({ email, password }).save()`: the required validators
        run first, then the hook hashes the (new, hence modified) password,
        then the insert, which the unique indexes may refuse. */
    method Save(id: string, email: string, password: string, env: Env) returns (saved: Option<Subadmin>)
      requires Valid()
      modifies this
      ensures Valid()
      ensures if email == "" || password == "" || Rows.FindKey(old(rows), IdOf, id).Some?
                 || Rows.FindKey(old(rows), EmailOf, email).Some?
        then saved == None && rows == old(rows)
        else saved == Some(Subadmin(id, email, env.hash(password))) && rows == old(rows) + [saved.value]
    {
      if email == "" || password == "" {
        return None;
      }
      var doc := Subadmin(id, email, env.hash(password));
      if Rows.FindKey(rows, IdOf, id).Some? || Rows.FindKey(rows, EmailOf, email).Some? {
        return None;
      }
      Rows.AppendKeepsDistinct(rows, IdOf, doc);
      Rows.AppendKeepsDistinct(rows, EmailOf, doc);
      rows := rows + [doc];
      saved := Some(doc);
    }
  }

  /** `POST /subadmins/register`: refused when the email is present, saved
      otherwise; a save that throws is a 500. */
  method RegisterSubadmin(store: SubadminCollection, email: string, password: string, newId: string, env: Env)
    returns (r: Response<string>)
    requires store.Valid()
    modifies store
    ensures store.Valid()
    ensures Rows.FindKey(old(store.rows), EmailOf, email).Some? ==>
      r == Refuse(400, "Subadmin already exists") && store.rows == old(store.rows)
    ensures Rows.FindKey(old(store.rows), EmailOf, email).None? ==>
      if email == "" || password == "" || Rows.FindKey(old(store.rows), IdOf, newId).Some? then
        r == Refuse(500, ServerError) && store.rows == old(store.rows)
      else
        r == Reply(201, "Subadmin registered successfully")
        && store.rows == old(store.rows) + [Subadmin(newId, email, env.hash(password))]
  {
    var existing := Rows.FindKey(store.rows, EmailOf, email);
    if existing.Some? {
      return Refuse(400, "Subadmin already exists");
    }
    var saved := store.Save(newId, email, password, env);
    if saved.None? {
      return Refuse(500, ServerError);
    }
    r := Reply(201, "Subadmin registered successfully");
  }

  /** What a login returns: the whole stored document, hash included. */
  datatype SubadminSession = SubadminSession(token: string, message: string, subadmin: Subadmin)

  /** The claims a subadmin's token carries. */
  function SubadminClaims(s: Subadmin): Claims {
    Claims(Some(s.id), None, Some(s.email))
  }

  /** `POST /subadmins/login`, over a collection whose email index is unique. */
  function LoginSubadmin(rows: seq<Subadmin>, email: string, password: string, env: Env): (r: Response<SubadminSession>)
    requires Rows.KeysDistinct(rows, EmailOf)
    ensures (forall s :: s in rows ==> s.email != email) <==> r == Refuse(404, "Subadmin not found")
    ensures r == Refuse(401, "Invalid credentials") <==>
      exists s :: s in rows && s.email == email && !env.compare(password, s.password)
    ensures r.Reply? ==> (r.status == 200 && r.body.message == "Login successful" &&
      exists s :: && s in rows && s.email == email && env.compare(password, s.password) && r.body.subadmin == s
                  && env.sign(SubadminClaims(s), env.jwtSecret, Some("1h")) == Success(r.body.token))
    ensures forall s :: s in rows && s.email == email && env.compare(password, s.password) ==>
      var signed := env.sign(SubadminClaims(s), env.jwtSecret, Some("1h"));
      if signed.Success? then r == Reply(200, SubadminSession(signed.value, "Login successful", s))
      else r == Refuse(500, ServerError)
  {
    match Rows.FindKey(rows, EmailOf, email)
    case None => Refuse(404, "Subadmin not found")
    case Some(s) =>
      Rows.OnlyHolder(rows, EmailOf, s);
      if !env.compare(password, s.password) then Refuse(401, "Invalid credentials")
      else
        match env.sign(SubadminClaims(s), env.jwtSecret, Some("1h"))
        case Failure(_) => Refuse(500, ServerError)
        case Success(token) => Reply(200, SubadminSession(token, "Login successful", s))
  }

  /** A subadmin just registered can log in with the password it registered
      with (given a bcrypt that accepts its own hashes and a signer that
      succeeds), and its session carries the hash, not the password. */
  lemma RegisterThenLogin(rows: seq<Subadmin>, id: string, email: string, password: string, env: Env)
    requires Rows.KeysDistinct(rows, EmailOf)
    requires forall s :: s in rows ==> s.email != email
    requires env.compare(password, env.hash(password))
    requires env.sign(Claims(Some(id), None, Some(email)), env.jwtSecret, Some("1h")).Success?
    ensures var r := LoginSubadmin(rows + [Subadmin(id, email, env.hash(password))], email, password, env);
      r.Reply? && r.body.subadmin.password == env.hash(password)
  {
    var after := rows + [Subadmin(id, email, env.hash(password))];
    assert forall i :: 0 <= i < |rows| ==> EmailOf(after[i]) != email by {
      forall i | 0 <= i < |rows| ensures EmailOf(after[i]) != email {
        assert after[i] == rows[i];
        assert rows[i] in rows;
      }
    }
    assert after[|rows|] == Subadmin(id, email, env.hash(password));
    Rows.AppendKeepsDistinct(rows, EmailOf, Subadmin(id, email, env.hash(password)));
    var found := Rows.FindKey(after, EmailOf, email);
    assert found.Some?;
    assert found.value == Subadmin(id, email, env.hash(password)) by {
      var j :| 0 <= j < |after| && after[j] == found.value;
      assert j == |rows|;
    }
  }

  datatype SubadminList = SubadminList(count: nat, data: seq<SubadminView>)

  /** `GET /subadmins`: 404 on an empty collection, otherwise every subadmin
      without its password, in natural order. */
  function GetAllSubadmins(rows: seq<Subadmin>): (r: Response<SubadminList>)
    ensures r == Refuse(404, "No subadmins found") <==> rows == []
    ensures r.Reply? <==> rows != []
    ensures r.Reply? ==> (r.status == 200 && r.body.count == |r.body.data| == |rows| &&
      forall i :: 0 <= i < |rows| ==> r.body.data[i] == View(rows[i]))
  {
    if |rows| == 0 then Refuse(404, "No subadmins found")
    else Reply(200, SubadminList(|rows|, seq(|rows|, i requires 0 <= i < |rows| => View(rows[i]))))
  }
}
