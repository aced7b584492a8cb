/** The audit log: a deny-list sanitiser for event details, an append-only
    `log`, and the filtered, newest-first, paged query over the log. */
module AuditLog {
  import opened Wrappers
  import opened Strings
  import opened Tables
  import opened Sorting
  import opened Store

  /** Field names that never reach the log, compared in lower case. */
  const SensitiveFields: seq<string> :=
    ["password", "token", "refresh_token", "api_key", "secret", "credit_card", "ssn"]

  predicate IsSensitive(key: string) {
    ToLower(key) in SensitiveFields
  }

  /** `sanitizeDetails`: keep exactly the keys that are not sensitive, each with its value. */
  function SanitizeDetails(details: map<string, Json>): (r: map<string, Json>)
    ensures forall k :: k in r <==> k in details && !IsSensitive(k)
    ensures forall k :: k in r ==> r[k] == details[k]
  {
    map k | k in details && !IsSensitive(k) :: details[k]
  }

  /** Sanitising twice removes nothing more. */
  lemma SanitizeIdempotent(details: map<string, Json>)
    ensures SanitizeDetails(SanitizeDetails(details)) == SanitizeDetails(details)
  {
    var once := SanitizeDetails(details);
    assert SanitizeDetails(once).Keys == once.Keys;
  }

  /** Whatever its letter case, a key spelling a sensitive field is gone, and
      two spellings of one name are kept or dropped together. */
  lemma SanitizeIgnoresCase(details: map<string, Json>, k: string, f: string)
    requires f in SensitiveFields && ToLower(k) == ToLower(f)
    ensures k !in SanitizeDetails(details)
  {
    LowerOfLowercaseField(f);
  }

  lemma LowerOfLowercaseField(f: string)
    requires f in SensitiveFields
    ensures ToLower(f) == f
  {
    assert forall i :: 0 <= i < |f| ==> LowerChar(f[i]) == f[i];
  }

  lemma SanitizeSameFold(details: map<string, Json>, k1: string, k2: string)
    requires k1 in details && k2 in details && ToLower(k1) == ToLower(k2)
    ensures k1 in SanitizeDetails(details) <==> k2 in SanitizeDetails(details)
  {
  }

  /** What a caller passes to `log`; a missing array key reads as null. */
  datatype LogData = LogData(
    userId: Option<int>, applicationId: Option<int>, action: Option<string>,
    resource: Option<string>, ipAddress: Option<string>, userAgent: Option<string>,
    status: Option<string>, details: Option<map<string, Json>>)

  /** A service's event: application, user, action and details, every other column null. */
  function Event(app: Option<int>, user: Option<int>, action: string, details: map<string, Json>): (d: LogData)
    ensures d.applicationId == app && d.userId == user && d.action == Some(action) && d.details == Some(details)
    ensures d.resource.None? && d.ipAddress.None? && d.userAgent.None? && d.status.None?
  {
    LogData(user, app, Some(action), None, None, None, None, Some(details))
  }

  /** The row `log` inserts: absent details become the empty map, and the map is sanitised. */
  function RowOf(id: int, data: LogData, now: int): (row: AuditRow)
    ensures row.id == id && row.createdAt == now
    ensures row.userId == data.userId && row.applicationId == data.applicationId
    ensures row.action == data.action && row.resource == data.resource && row.ipAddress == data.ipAddress
    ensures row.userAgent == data.userAgent && row.status == data.status
    ensures row.details == SanitizeDetails(if data.details.Some? then data.details.value else map[])
    ensures forall k :: k in row.details ==> !IsSensitive(k)
    ensures data.details.None? ==> row.details == map[]
  {
    var details := if data.details.Some? then data.details.value else map[];
    AuditRow(id, data.userId, data.applicationId, data.action, data.resource,
             data.ipAddress, data.userAgent, data.status, SanitizeDetails(details), now)
  }

  /** The filters of one query, as passed in. */
  datatype Criteria = Criteria(
    applicationId: int, userId: Option<int>, action: Option<string>,
    startDate: Option<int>, endDate: Option<int>)

  /** PHP truthiness of an optional int and of an optional string. */
  predicate TruthyInt(o: Option<int>) {
    o.Some? && o.value != 0
  }

  predicate TruthyString(o: Option<string>) {
    !IsEmpty(o)
  }

  /** The rows a query selects: its application, and each further filter only when its argument is truthy. */
  predicate Matches(c: Criteria, row: AuditRow) {
    row.applicationId == Some(c.applicationId)
    && (TruthyInt(c.userId) ==> row.userId == c.userId)
    && (TruthyString(c.action) ==> row.action == c.action)
    && (TruthyInt(c.startDate) ==> row.createdAt >= c.startDate.value)
    && (TruthyInt(c.endDate) ==> row.createdAt <= c.endDate.value)
  }

  /** One `WHERE` condition of the generated SQL. */
  datatype Condition =
    | ApplicationIs(applicationId: int)
    | UserIs(userId: int)
    | ActionIs(action: string)
    | CreatedFrom(start: int)
    | CreatedUntil(end: int)

  predicate Holds(c: Condition, row: AuditRow) {
    match c
    case ApplicationIs(a) => row.applicationId == Some(a)
    case UserIs(u) => row.userId == Some(u)
    case ActionIs(x) => row.action == Some(x)
    case CreatedFrom(t) => row.createdAt >= t
    case CreatedUntil(t) => row.createdAt <= t
  }

  /** The conditions joined with `AND`. */
  predicate AllHold(cs: seq<Condition>, row: AuditRow) {
    forall i :: 0 <= i < |cs| ==> Holds(cs[i], row)
  }

  /** `ORDER BY created_at DESC`. */
  predicate NewerFirst(a: AuditRow, b: AuditRow) {
    a.createdAt >= b.createdAt
  }

  lemma NewerFirstTotal()
    ensures Total(NewerFirst)
  {
  }

  /** `LIMIT limit OFFSET offset` over an ordered result. */
  function Window<T>(s: seq<T>, offset: nat, limit: nat): (r: seq<T>)
    ensures |r| <= limit
    ensures offset >= |s| ==> r == []
    ensures offset < |s| ==> |r| == if |s| - offset <= limit then |s| - offset else limit
    ensures forall i :: 0 <= i < |r| ==> offset + i < |s| && r[i] == s[offset + i]
  {
    if offset >= |s| then []
    else if |s| - offset <= limit then s[offset..]
    else s[offset..offset + limit]
  }

  /** Two consecutive pages together are the window of twice the size. */
  lemma ConsecutivePages<T>(s: seq<T>, offset: nat, limit: nat)
    ensures Window(s, offset, limit) + Window(s, offset + limit, limit) == Window(s, offset, 2 * limit)
  {
    var a, b, c := Window(s, offset, limit), Window(s, offset + limit, limit), Window(s, offset, 2 * limit);
    assert |a + b| == |c|;
    forall i | 0 <= i < |c|
      ensures (a + b)[i] == c[i]
    {
      if i >= |a| {
        assert |a| == limit;
      }
    }
  }

  const NegativeWindow := "LIMIT and OFFSET must not be negative"

  /** What `getAuditLogs` returns for the log `rows`. */
  function AuditQuery(rows: seq<AuditRow>, c: Criteria, page: int, limit: int): (r: Result<seq<AuditRow>>)
  {
    var offset := (page - 1) * limit;
    if limit < 0 || offset < 0 then Err(Exception(NegativeWindow))
    else
      NewerFirstTotal();
      Ok(Window(SortBy(Filter(rows, row => Matches(c, row)), NewerFirst), offset, limit))
  }

  /** Every returned row is a logged row of the application that passes every truthy filter. */
  lemma QueryRowsMatch(rows: seq<AuditRow>, c: Criteria, page: int, limit: int, row: AuditRow)
    requires AuditQuery(rows, c, page, limit).Ok? && row in AuditQuery(rows, c, page, limit).value
    ensures row in rows && Matches(c, row)
  {
    NewerFirstTotal();
    var kept := Filter(rows, row => Matches(c, row));
    var sorted := SortBy(kept, NewerFirst);
    SortByContents(kept, NewerFirst);
    var r := AuditQuery(rows, c, page, limit).value;
    var i :| 0 <= i < |r| && r[i] == row;
    assert sorted[(page - 1) * limit + i] == row;
  }

  /** A page is newest first and holds at most `limit` rows; only a negative window fails. */
  lemma QueryShape(rows: seq<AuditRow>, c: Criteria, page: int, limit: int)
    ensures AuditQuery(rows, c, page, limit).Err? <==> limit < 0 || (page - 1) * limit < 0
    ensures AuditQuery(rows, c, page, limit).Ok? ==>
      |AuditQuery(rows, c, page, limit).value| <= limit
      && Sorted(AuditQuery(rows, c, page, limit).value, NewerFirst)
  {
    if AuditQuery(rows, c, page, limit).Ok? {
      NewerFirstTotal();
      var sorted := SortBy(Filter(rows, row => Matches(c, row)), NewerFirst);
      var r := AuditQuery(rows, c, page, limit).value;
      var offset := (page - 1) * limit;
      forall i | 0 < i < |r|
        ensures NewerFirst(r[i - 1], r[i])
      {
        assert r[i - 1] == sorted[offset + i - 1] && r[i] == sorted[offset + i];
      }
    }
  }

  /** The first page with room for every row returns every matching row. */
  lemma FirstPageIsComplete(rows: seq<AuditRow>, c: Criteria, row: AuditRow)
    requires row in rows && Matches(c, row)
    ensures AuditQuery(rows, c, 1, |rows|).Ok? && row in AuditQuery(rows, c, 1, |rows|).value
  {
    NewerFirstTotal();
    var kept := Filter(rows, row => Matches(c, row));
    SortByContents(kept, NewerFirst);
    var sorted := SortBy(kept, NewerFirst);
    assert Window(sorted, 0, |rows|) == sorted;
  }

  class AuditLogService {
    const db: Database

    constructor (db: Database)
      ensures this.db == db
    {
      this.db := db;
    }

    /** `log`: appends exactly one row and touches nothing else. */
    method Log(data: LogData, now: int)
      modifies db`auditLogs
      ensures db.auditLogs == old(db.auditLogs) + [RowOf(|old(db.auditLogs)| + 1, data, now)]
      ensures old(db.AuditValid()) ==> db.AuditValid()
    {
      db.auditLogs := db.auditLogs + [RowOf(|db.auditLogs| + 1, data, now)];
    }

    /** `getAuditLogs`: collects one condition per truthy argument, then
        selects, orders and pages. */
    method GetAuditLogs(applicationId: int, userId: Option<int>, action: Option<string>,
                        startDate: Option<int>, endDate: Option<int>, page: int, limit: int)
      returns (r: Result<seq<AuditRow>>)
      ensures r == AuditQuery(db.auditLogs, Criteria(applicationId, userId, action, startDate, endDate), page, limit)
    {
      var c := Criteria(applicationId, userId, action, startDate, endDate);
      var conditions := [ApplicationIs(applicationId)];
      if TruthyInt(userId) {
        conditions := conditions + [UserIs(userId.value)];
      }
      if TruthyString(action) {
        conditions := conditions + [ActionIs(action.value)];
      }
      if TruthyInt(startDate) {
        conditions := conditions + [CreatedFrom(startDate.value)];
      }
      if TruthyInt(endDate) {
        conditions := conditions + [CreatedUntil(endDate.value)];
      }
      var offset := (page - 1) * limit;
      if limit < 0 || offset < 0 {
        return Err(Exception(NegativeWindow));
      }
      ConditionsMeanCriteria(conditions, c);
      FilterCongruence(db.auditLogs, row => AllHold(conditions, row), row => Matches(c, row));
      NewerFirstTotal();
      var selected := Filter(db.auditLogs, row => AllHold(conditions, row));
      r := Ok(Window(SortBy(selected, NewerFirst), offset, limit));
    }
  }

  /** The condition list the query builds selects exactly the rows `Matches` describes. */
  lemma ConditionsMeanCriteria(conditions: seq<Condition>, c: Criteria)
    requires conditions == [ApplicationIs(c.applicationId)]
      + (if TruthyInt(c.userId) then [UserIs(c.userId.value)] else [])
      + (if TruthyString(c.action) then [ActionIs(c.action.value)] else [])
      + (if TruthyInt(c.startDate) then [CreatedFrom(c.startDate.value)] else [])
      + (if TruthyInt(c.endDate) then [CreatedUntil(c.endDate.value)] else [])
    ensures forall row :: AllHold(conditions, row) == Matches(c, row)
  {
    forall row: AuditRow
      ensures AllHold(conditions, row) == Matches(c, row)
    {
      if TruthyInt(c.userId) {
        assert UserIs(c.userId.value) in conditions;
      }
      if TruthyString(c.action) {
        assert ActionIs(c.action.value) in conditions;
      }
      if TruthyInt(c.startDate) {
        assert CreatedFrom(c.startDate.value) in conditions;
      }
      if TruthyInt(c.endDate) {
        assert CreatedUntil(c.endDate.value) in conditions;
      }
      assert conditions[0] == ApplicationIs(c.applicationId);
    }
  }
}
