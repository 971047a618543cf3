/** The employee handlers: the paginated listing with its filter, sort and
    page descriptors, the lookups by referral code and by id, the caller's
    referred employees, delete, and create with `referredBy` forced to the
    caller. */
module EmployeeController {
  import opened Js
  import opened Platform
  import Rows
  import opened EmployeeModel

  // ---------------------------------------------------------------- the filter

  /** Query keys that steer the listing and are never part of the filter. */
  const Reserved: seq<string> := ["select", "sort", "page", "limit"]

  function Lookup(query: map<string, string>, key: string): Option<string> {
    if key in query then Some(query[key]) else None
  }

  /** The query with the reserved keys deleted one after the other. */
  method StripReserved(query: map<string, string>) returns (filter: map<string, string>)
    ensures forall k :: k in filter <==> k in query && k !in Reserved
    ensures forall k :: k in filter ==> filter[k] == query[k]
  {
    filter := query;
    for i := 0 to |Reserved|
      invariant forall k :: k in filter <==> k in query && k !in Reserved[..i]
      invariant forall k :: k in filter ==> filter[k] == query[k]
    {
      filter := filter - {Reserved[i]};
    }
  }

  /** The same filter, as a value. */
  function FilterOf(query: map<string, string>): map<string, string> {
    map k | k in query && k !in Reserved :: query[k]
  }

  /** The documents the filter matches, in natural order; `matches` stands for
      MongoDB's evaluation of the filter document. */
  function Matched(rows: seq<Employee>, filter: map<string, string>, matches: (map<string, string>, Employee) -> bool): (r: seq<Employee>)
    ensures |r| <= |rows|
    ensures forall e :: e in r <==> e in rows && matches(filter, e)
  {
    if |rows| == 0 then []
    else
      var rest := Matched(rows[1..], filter, matches);
      assert forall e :: e in rows <==> e == rows[0] || e in rows[1..];
      if matches(filter, rows[0]) then [rows[0]] + rest else rest
  }

  // ---------------------------------------------------------------- the sort

  /** A comma-separated `sort` or `select` value turned into Mongoose's
      space-separated form. */
  function SortClause(s: string): (r: string)
  {
    Join(Split(s, ','), " ")
  }

  /** Splitting on commas and joining with spaces replaces each comma by a
      space and changes nothing else. */
  lemma SortClauseReplacesCommas(s: string)
    ensures SortClause(s) == ReplaceChar(s, ',', ' ')
    ensures |SortClause(s)| == |s| && ',' !in SortClause(s)
  {
    SplitJoinReplaces(s, ',', ' ');
  }

  /** The ordered result: `sortBy` stands for MongoDB's ordering by a sort
      clause; without a (truthy) `sort` the order is newest first. */
  function Ordered(query: map<string, string>, rows: seq<Employee>,
                   matches: (map<string, string>, Employee) -> bool,
                   sortBy: (string, seq<Employee>) -> seq<Employee>): seq<Employee>
  {
    var matched := Matched(rows, FilterOf(query), matches);
    if Truthy(Lookup(query, "sort")) then sortBy(SortClause(Lookup(query, "sort").value), matched)
    else Rows.SortDesc(matched, CreatedAtOf)
  }

  /** Without `sort` the listing is exactly the matched documents, newest first. */
  lemma DefaultOrderNewestFirst(query: map<string, string>, rows: seq<Employee>,
                                matches: (map<string, string>, Employee) -> bool,
                                sortBy: (string, seq<Employee>) -> seq<Employee>)
    requires "sort" !in query
    ensures var r := Ordered(query, rows, matches, sortBy);
      && Rows.SortedDesc(r, CreatedAtOf)
      && multiset(r) == multiset(Matched(rows, FilterOf(query), matches))
      && forall k :: k in FilterOf(query) <==> k in query && k !in Reserved
  {
  }

  // ---------------------------------------------------------------- paging

  const DefaultPage := 1
  const DefaultLimit := 25

  /** `parseInt(req.query.page, 10) || 1`. */
  function PageNumber(query: map<string, string>): int {
    IntOr(Lookup(query, "page"), DefaultPage)
  }

  /** `parseInt(req.query.limit, 10) || 25`. */
  function PageLimit(query: map<string, string>): int {
    IntOr(Lookup(query, "limit"), DefaultLimit)
  }

  /** Page and limit are never 0, and take their defaults exactly when the
      value is absent, not a number, 0, or the default itself. */
  lemma PageDefaults(query: map<string, string>)
    ensures PageNumber(query) != 0 && PageLimit(query) != 0
    ensures PageNumber(query) == DefaultPage <==>
      ("page" !in query || ParseInt(query["page"]).None? || ParseInt(query["page"]) == Some(0) || ParseInt(query["page"]) == Some(DefaultPage))
    ensures PageLimit(query) == DefaultLimit <==>
      ("limit" !in query || ParseInt(query["limit"]).None? || ParseInt(query["limit"]) == Some(0) || ParseInt(query["limit"]) == Some(DefaultLimit))
  {
    IntOrDefault(Lookup(query, "page"), DefaultPage);
    IntOrDefault(Lookup(query, "limit"), DefaultLimit);
  }

  function Abs(n: int): nat {
    if n < 0 then -n else n
  }

  datatype PageRef = PageRef(page: int, limit: int)
  datatype Pagination = Pagination(next: Option<PageRef>, prev: Option<PageRef>)
  datatype EmployeePage = EmployeePage(count: nat, pagination: Pagination, data: seq<EmployeeView>)

  /** The MongoDB server's refusal of a negative skip. */
  const NegativeSkip := "Skip value must be non-negative"

  /** One page of an ordered listing of `total` matches: skip `(page-1)*limit`
      documents, take `limit` of them (a negative limit asks MongoDB for a
      single batch of its absolute value), and describe the neighbouring pages. */
  function PageOf(ordered: seq<Employee>, total: int, page: int, limit: int): Response<EmployeePage> {
    var start := (page - 1) * limit;
    var end := page * limit;
    if start < 0 then PassOn(Thrown(NegativeSkip))
    else
      var data := Views(Rows.Window(ordered, start, Abs(limit)));
      Reply(200, EmployeePage(|data|, Pagination(
        if end < total then Some(PageRef(page + 1, limit)) else None,
        if start > 0 then Some(PageRef(page - 1, limit)) else None), data))
  }

  /** `GET /employees`: strip the reserved keys, order, count the matches, and
      return the requested page. */
  method GetEmployees(query: map<string, string>, rows: seq<Employee>,
                      matches: (map<string, string>, Employee) -> bool,
                      sortBy: (string, seq<Employee>) -> seq<Employee>)
    returns (r: Response<EmployeePage>)
    ensures r == PageOf(Ordered(query, rows, matches, sortBy), |Matched(rows, FilterOf(query), matches)|,
                        PageNumber(query), PageLimit(query))
  {
    var filter := StripReserved(query);
    assert filter == FilterOf(query);
    var matched := Matched(rows, filter, matches);
    var ordered: seq<Employee>;
    var sort := Lookup(query, "sort");
    if Truthy(sort) {
      ordered := sortBy(SortClause(sort.value), matched);
    } else {
      ordered := Rows.SortDesc(matched, CreatedAtOf);
    }
    var page := PageNumber(query);
    var limit := PageLimit(query);
    var startIndex := (page - 1) * limit;
    var endIndex := page * limit;
    var total := |matched|;
    if startIndex < 0 {
      return PassOn(Thrown(NegativeSkip));
    }
    var employees := Views(Rows.Window(ordered, startIndex, Abs(limit)));
    var pagination := Pagination(None, None);
    if endIndex < total {
      pagination := pagination.(next := Some(PageRef(page + 1, limit)));
    }
    if startIndex > 0 {
      pagination := pagination.(prev := Some(PageRef(page - 1, limit)));
    }
    r := Reply(200, EmployeePage(|employees|, pagination, employees));
  }

  /** For page and limit at least 1, a page holds exactly the documents at
      positions [(page-1)*limit, page*limit) of the ordered listing that
      exist, and `count` is their number. */
  lemma PageIsSlice(ordered: seq<Employee>, page: int, limit: int)
    requires page >= 1 && limit >= 1
    ensures var r := PageOf(ordered, |ordered|, page, limit);
      var start := (page - 1) * limit;
      && r.Reply? && r.body.count == |r.body.data|
      && r.body.data == Views(ordered[Rows.Min(start, |ordered|)..Rows.Min(page * limit, |ordered|)])
  {
    var start := (page - 1) * limit;
    PageBounds(page, limit);
    var w := Rows.Window(ordered, start, limit);
    if start >= |ordered| {
      assert w == [] == ordered[|ordered|..|ordered|];
    } else {
      assert w == ordered[start..Rows.Min(page * limit, |ordered|)];
    }
  }

  /** The skip of a page is non-negative, and the next page starts one limit later. */
  lemma PageBounds(page: int, limit: int)
    requires page >= 1 && limit >= 1
    ensures 0 <= (page - 1) * limit
    ensures page * limit == (page - 1) * limit + limit
    ensures (page - 1) * limit > 0 <==> page > 1
  {
    if page > 1 {
      assert (page - 1) * limit >= limit;
    }
  }

  /** For page and limit at least 1, a `next` descriptor appears exactly when
      documents remain after this page, and a `prev` descriptor exactly when
      this is not the first page; each names its neighbour with the same limit. */
  lemma NeighbourDescriptors(ordered: seq<Employee>, page: int, limit: int)
    requires page >= 1 && limit >= 1
    ensures var r := PageOf(ordered, |ordered|, page, limit);
      && r.Reply?
      && (r.body.pagination.next.Some? <==> (page - 1) * limit + r.body.count < |ordered|)
      && (r.body.pagination.next.Some? ==> r.body.pagination.next.value == PageRef(page + 1, limit))
      && (r.body.pagination.prev.Some? <==> page > 1)
      && (r.body.pagination.prev.Some? ==> r.body.pagination.prev.value == PageRef(page - 1, limit))
  {
    PageBounds(page, limit);
  }

  /** Consecutive pages tile the listing: page n followed by page n+1 is the
      window of twice the limit that starts at page n. */
  lemma ConsecutivePages(ordered: seq<Employee>, page: int, limit: int)
    requires page >= 1 && limit >= 1
    ensures var start := (page - 1) * limit;
      Rows.Window(ordered, start, limit) + Rows.Window(ordered, start + limit, limit)
      == Rows.Window(ordered, start, 2 * limit)
  {
    PageBounds(page, limit);
    var start: nat := (page - 1) * limit;
    Rows.WindowsTile(ordered, start, limit);
  }

  /** A value given as a decimal numeral other than 0 is read back as that number. */
  lemma NumeralRead(query: map<string, string>, key: string, n: nat, d: int)
    requires n >= 1 && key in query && query[key] == ShowNat(n)
    ensures IntOr(Lookup(query, key), d) == n
  {
    ParseShowNat(n);
  }

  /** Thirty matches, page 2 of limit 25 (`?page=2&limit=25`, read back by
      `NumeralRead`): five documents, no next page, and a previous page 1 of
      limit 25. */
  lemma ThirtyMatchesSecondPage(ordered: seq<Employee>)
    requires |ordered| == 30
    ensures var r := PageOf(ordered, 30, 2, 25);
      && r.Reply? && r.body.count == 5
      && r.body.pagination == Pagination(None, Some(PageRef(1, 25)))
  {
    assert |Rows.Window(ordered, 25, 25)| == 5;
  }

  // ---------------------------------------------------------------- lookups

  datatype EmployeeList = EmployeeList(count: nat, data: seq<EmployeeView>)

  /** `GET /employees/referred/:referralCode`: the employees holding the code
      (the code goes through the path's trim setter), or a 404 when there are
      none. */
  function GetEmployeesByReferral(rows: seq<Employee>, code: string): (r: Response<EmployeeList>)
    ensures r.PassOn? <==> forall e :: e in rows ==> e.referralCode != Some(Trim(code))
    ensures r.PassOn? ==> r.error == ErrorResponse("No employees found with referral code " + code, 404)
    ensures r.Reply? ==> r.status == 200 && r.body.count == |r.body.data| > 0
    ensures r.Reply? ==> r.body.count == Rows.Count(rows, ReferralCodeOf, Some(Trim(code)))
    ensures r.Reply? ==> forall e :: e in rows && e.referralCode == Some(Trim(code)) ==> View(e) in r.body.data
    ensures r.Reply? ==> forall v :: v in r.body.data ==> exists e :: e in rows && e.referralCode == Some(Trim(code)) && v == View(e)
  {
    var found := Rows.Select(rows, ReferralCodeOf, Some(Trim(code)));
    if |found| == 0 then
      PassOn(ErrorResponse("No employees found with referral code " + code, 404))
    else
      var data := Views(found);
      assert found[0] in rows;
      ViewsMembers(found);
      Reply(200, EmployeeList(|data|, data))
  }

  lemma ViewsMembers(s: seq<Employee>)
    ensures forall e :: e in s ==> View(e) in Views(s)
    ensures forall v :: v in Views(s) ==> exists e :: e in s && v == View(e)
  {
    var data := Views(s);
    forall e | e in s ensures View(e) in data {
      var i :| 0 <= i < |s| && s[i] == e;
      assert data[i] == View(e);
    }
    forall v | v in data ensures exists e :: e in s && v == View(e) {
      var i :| 0 <= i < |data| && data[i] == v;
      assert s[i] in s;
    }
  }

  /** `GET /employees/:id`: the employee, a 404 for an unknown id, and the
      CastError for an id that is not an ObjectId. */
  function GetEmployee(rows: seq<Employee>, id: string, env: Env): (r: Response<EmployeeView>)
    ensures r.Reply? <==> env.isObjectId(id) && exists e :: e in rows && e.id == id
    ensures r.Reply? ==> r.status == 200 && r.body.id == id && exists e :: e in rows && r.body == View(e)
    ensures !env.isObjectId(id) ==> r == PassOn(Thrown(Message(CastFailed("Employee", id))))
    ensures env.isObjectId(id) && (forall e :: e in rows ==> e.id != id) ==>
      r == PassOn(ErrorResponse("Employee not found with id of " + id, 404))
  {
    match FindById(rows, id, env)
    case Failure(e) => PassOn(Thrown(Message(e)))
    case Success(None) => PassOn(ErrorResponse("Employee not found with id of " + id, 404))
    case Success(Some(e)) => Reply(200, View(e))
  }

  /** The projection `fullName email status createdAt lastLogin` (with _id). */
  datatype ReferredView = ReferredView(id: string, fullName: string, email: string, status: Status, createdAt: int, lastLogin: Option<int>)

  function Referred(e: Employee): ReferredView {
    ReferredView(e.id, e.fullName, e.email, e.status, e.createdAt, e.lastLogin)
  }

  function Project(s: seq<Employee>): (r: seq<ReferredView>)
    ensures |r| == |s| && forall i :: 0 <= i < |s| ==> r[i] == Referred(s[i])
  {
    seq(|s|, i requires 0 <= i < |s| => Referred(s[i]))
  }

  lemma SortedMembers(found: seq<Employee>, sorted: seq<Employee>)
    requires multiset(sorted) == multiset(found)
    ensures forall e :: e in sorted <==> e in found
  {
    forall e ensures e in sorted <==> e in found {
      assert e in sorted <==> e in multiset(sorted);
      assert e in found <==> e in multiset(found);
    }
  }

  /** The projection keeps membership and the newest-first order. */
  lemma ProjectMembers(s: seq<Employee>)
    ensures forall e :: e in s ==> Referred(e) in Project(s)
    ensures forall v :: v in Project(s) ==> exists e :: e in s && v == Referred(e)
    ensures Rows.SortedDesc(s, CreatedAtOf) ==>
      forall i, j :: 0 <= i < j < |Project(s)| ==> Project(s)[i].createdAt >= Project(s)[j].createdAt
  {
    var data := Project(s);
    forall e | e in s ensures Referred(e) in data {
      var i :| 0 <= i < |s| && s[i] == e;
      assert data[i] == Referred(e);
    }
    forall v | v in data ensures exists e :: e in s && v == Referred(e) {
      var i :| 0 <= i < |data| && data[i] == v;
      assert s[i] in s;
    }
    if Rows.SortedDesc(s, CreatedAtOf) {
      forall i, j | 0 <= i < j < |data| ensures data[i].createdAt >= data[j].createdAt {
        assert CreatedAtOf(s[i]) >= CreatedAtOf(s[j]);
      }
    }
  }

  datatype ReferredList = ReferredList(count: nat, data: seq<ReferredView>)

  /** `GET /employees/me/referred`: the employees the caller referred, newest
      first. With no `req.user` (no guard is mounted on these routes) reading
      its id throws. */
  function GetMyReferredEmployees(rows: seq<Employee>, caller: Option<string>): (r: Response<ReferredList>)
    ensures r.PassOn? <==> caller.None?
    ensures r.PassOn? ==> r.error == Thrown(UndefinedId)
    ensures r.Reply? ==> r.status == 200 && r.body.count == |r.body.data|
    ensures r.Reply? ==> r.body.count == Rows.Count(rows, ReferredByOf, caller)
    ensures r.Reply? ==> forall e :: e in rows && e.referredBy == caller ==> Referred(e) in r.body.data
    ensures r.Reply? ==> forall v :: v in r.body.data ==> exists e :: e in rows && e.referredBy == caller && v == Referred(e)
    ensures r.Reply? ==> forall i, j :: 0 <= i < j < |r.body.data| ==> r.body.data[i].createdAt >= r.body.data[j].createdAt
  {
    if caller.None? then PassOn(Thrown(UndefinedId))
    else
      var found := Rows.Select(rows, ReferredByOf, caller);
      var sorted := Rows.SortDesc(found, CreatedAtOf);
      SortedMembers(found, sorted);
      ProjectMembers(sorted);
      var data := Project(sorted);
      Reply(200, ReferredList(|data|, data))
  }

  // ---------------------------------------------------------------- changes

  /** `DELETE /employees/:id`. */
  method DeleteEmployee(store: EmployeeCollection, id: string, env: Env) returns (r: Response<string>)
    requires store.Valid()
    modifies store
    ensures store.Valid()
    ensures !env.isObjectId(id) ==> r == PassOn(Thrown(Message(CastFailed("Employee", id)))) && store.rows == old(store.rows)
    ensures env.isObjectId(id) ==> match Rows.FindKey(old(store.rows), IdOf, id)
      case None => r == PassOn(ErrorResponse("Employee not found with id of " + id, 404)) && store.rows == old(store.rows)
      case Some(_) => r == Reply(200, "Employee deleted successfully") && store.rows == Rows.Reject(old(store.rows), IdOf, id)
  {
    var found := FindById(store.rows, id, env);
    if found.Failure? {
      return PassOn(Thrown(Message(found.error)));
    }
    if found.value.None? {
      return PassOn(ErrorResponse("Employee not found with id of " + id, 404));
    }
    store.Delete(id);
    r := Reply(200, "Employee deleted successfully");
  }

  /** A delete removes exactly the one employee with the id, so deleting the
      same id again finds nothing and gives the 404. */
  lemma SecondDeleteNotFound(rows: seq<Employee>, id: string, env: Env)
    requires Rows.KeysDistinct(rows, IdOf) && env.isObjectId(id)
    requires Rows.FindKey(rows, IdOf, id).Some?
    ensures |Rows.Reject(rows, IdOf, id)| == |rows| - 1
    ensures forall e :: e in rows && e.id != id ==> e in Rows.Reject(rows, IdOf, id)
    ensures FindById(Rows.Reject(rows, IdOf, id), id, env) == Success(None)
  {
    Rows.RejectCount(rows, IdOf, id);
  }

  /** `POST /employees`: the whole body goes to the create, so a client may
      choose the `_id`; its `referredBy` is overwritten with the caller's id
      before the create, whatever the body supplied; with no `req.user`
      reading its id throws. */
  method AddEmployee(store: EmployeeCollection, body: EmployeeFields, caller: Option<string>,
                     newId: string, now: int, env: Env) returns (r: Response<Employee>)
    requires store.Valid()
    modifies store
    ensures store.Valid()
    ensures !r.Refuse?
    ensures caller.None? ==> r == PassOn(Thrown(UndefinedId)) && store.rows == old(store.rows)
    ensures caller.Some? ==> match Cast(body.(referredBy := caller), newId, now, env)
      case Failure(e) => r == PassOn(Thrown(Message(e))) && store.rows == old(store.rows)
      case Success(e) =>
        var saved := e.(password := env.hash(e.password), updatedAt := Some(now));
        if Rows.FindKey(old(store.rows), IdOf, saved.id).Some? then
          r == PassOn(Thrown(Message(DuplicateKey("employees", "_id")))) && store.rows == old(store.rows)
        else if Rows.FindKey(old(store.rows), EmailOf, saved.email).Some? then
          r == PassOn(Thrown(Message(DuplicateKey("employees", "email")))) && store.rows == old(store.rows)
        else
          && r == Reply(201, saved) && store.rows == old(store.rows) + [saved]
          && saved.referredBy == caller && saved.password == env.hash(body.password.value)
          && saved.id == (if body.id.Some? then body.id.value else newId)
  {
    if caller.None? {
      return PassOn(Thrown(UndefinedId));
    }
    var fields := body.(referredBy := caller);
    if Cast(fields, newId, now, env).Success? {
      CastWellFormed(fields, newId, now, env);
    }
    var created := store.Create(fields, newId, now, env);
    if created.Failure? {
      return PassOn(Thrown(Message(created.error)));
    }
    r := Reply(201, created.value);
  }
}
