/** The validation in src/app/api/jobs/route.ts: the list query `GET` builds from its search
    parameters (status allow-list, search text, `since`, the limit clamp), the ownership check
    of a single job, and `PATCH`'s guards, schema and update record.

    Job ids are the store's row ids; an id parameter that is absent or empty is `None`.
    Parsing `since` with `new Date` is an oracle. */
module JobsRoute {
  import opened Wrappers
  import opened Text
  import opened Statuses
  import opened Store

  /** An error answer: HTTP status and the `error` text. */
  datatype Failure = Failure(code: nat, error: string)

  const Unauthorized := Failure(401, "Unauthorized")
  const NotFound := Failure(404, "Not found")
  const InvalidStatus := Failure(400, "Invalid status")
  const InvalidSince := Failure(400, "Invalid since parameter")
  const MissingId := Failure(400, "Missing job id")
  const InvalidJson := Failure(400, "Invalid JSON")
  const InvalidInput := Failure(400, "Invalid input")

  // ---------------------------------------------------------------------------------------
  // parseInt(limit, 10)

  predicate IsDigit(c: char) { '0' <= c <= '9' }

  function DigitValue(c: char): nat
    requires IsDigit(c)
  {
    c as int - '0' as int
  }

  /** The longest prefix of decimal digits. */
  function DigitPrefix(s: string): (d: string)
    ensures |d| <= |s| && d == s[..|d|]
    ensures forall i :: 0 <= i < |d| ==> IsDigit(d[i])
    ensures |d| < |s| ==> !IsDigit(s[|d|])
  {
    if s != [] && IsDigit(s[0]) then [s[0]] + DigitPrefix(s[1..]) else []
  }

  /** The number a run of digits denotes. */
  function DigitsValue(d: string): nat
    requires forall i :: 0 <= i < |d| ==> IsDigit(d[i])
  {
    if d == [] then 0 else 10 * DigitsValue(d[..|d| - 1]) + DigitValue(d[|d| - 1])
  }

  /** `parseInt(s, 10)`: leading white space, an optional sign, then the longest run of
      digits; `None` (NaN) when there is no digit. */
  function ParseInt10(s: string): Option<int> {
    var t := TrimStart(s);
    var signed := t != [] && (t[0] == '-' || t[0] == '+');
    var d := DigitPrefix(if signed then t[1..] else t);
    if d == [] then None
    else
      var v: int := DigitsValue(d);
      if signed && t[0] == '-' then Some(-v) else Some(v)
  }

  /** The decimal numeral of a number, without leading zeros. */
  function Decimal(n: nat): (d: string)
    ensures d != [] && forall i :: 0 <= i < |d| ==> IsDigit(d[i])
  {
    if n < 10 then [('0' as int + n) as char]
    else Decimal(n / 10) + [('0' as int + n % 10) as char]
  }

  lemma {:induction false} DecimalValue(n: nat)
    ensures DigitsValue(Decimal(n)) == n
    decreases n
  {
    var d := Decimal(n);
    if n >= 10 {
      assert d[..|d| - 1] == Decimal(n / 10);
      DecimalValue(n / 10);
    }
  }

  lemma {:induction false} DigitPrefixAll(d: string)
    requires forall i :: 0 <= i < |d| ==> IsDigit(d[i])
    ensures DigitPrefix(d) == d
    decreases |d|
  {
    if d != [] {
      DigitPrefixAll(d[1..]);
    }
  }

  /** A limit written as a decimal numeral reads back as that number, and so does one with a
      minus sign. */
  lemma ParseDecimal(n: nat)
    ensures ParseInt10(Decimal(n)) == Some(n)
  {
    var d := Decimal(n);
    DecimalValue(n);
    DigitPrefixAll(d);
    TrimUnchanged(d);
  }

  lemma ParseNegativeDecimal(n: nat)
    ensures ParseInt10("-" + Decimal(n)) == Some(-(n as int))
  {
    var d := Decimal(n);
    DecimalValue(n);
    DigitPrefixAll(d);
    assert TrimStart("-" + d) == "-" + d;
    assert ("-" + d)[1..] == d;
  }

  /** Examples: trailing text after the digits is ignored, and text without digits is not a
      number. */
  lemma ParseIntStopsAtNonDigit()
    ensures ParseInt10("12abc") == Some(12)
    ensures ParseInt10("abc") == None
  {
    TrimUnchanged("12abc");
    TrimUnchanged("abc");
    assert DigitPrefix("12abc") == "12" by {
      assert "12abc"[1..] == "2abc" && "2abc"[1..] == "abc";
      assert DigitPrefix("abc") == [];
    }
    assert DigitsValue("12") == 12 by {
      assert "12"[..1] == "1" && "1"[..0] == [];
    }
  }

  // ---------------------------------------------------------------------------------------
  // GET

  /** The `findMany` arguments: owner, optional status, optional search text on company or
      role, optional lower bound on `last_update_at`, and the page size. */
  datatype ListQuery = ListQuery(
    userId: string, status: Option<Status>, search: Option<string>, since: Option<int>, take: nat)

  /** The rows the query selects (`mode: 'insensitive'` taken as ASCII case folding). */
  predicate Selects(q: ListQuery, j: JobApplication) {
    && j.userId == q.userId
    && (q.status.Some? ==> j.status == q.status.value)
    && (q.search.Some? ==> Contains(Lower(j.company), Lower(q.search.value))
                           || Contains(Lower(j.role), Lower(q.search.value)))
    && (q.since.Some? ==> j.lastUpdateAt >= q.since.value)
  }

  /** The page size a limit parameter asks for. */
  function LimitTake(limitParam: Option<string>): int {
    if !Truthy(limitParam) || ParseInt10(limitParam.value).None? then 100
    else
      var n := ParseInt10(limitParam.value).value;
      if n < 1 then 1 else if n > 200 then 200 else n
  }

  /** 100 unless the limit parses; a parsed limit is clamped to [1, 200], and one inside that
      range is taken as it is. */
  lemma LimitTakeSpec(limitParam: Option<string>)
    ensures 1 <= LimitTake(limitParam) <= 200
    ensures !Truthy(limitParam) ==> LimitTake(limitParam) == 100
    ensures Truthy(limitParam) && ParseInt10(limitParam.value).None? ==> LimitTake(limitParam) == 100
    ensures Truthy(limitParam) && ParseInt10(limitParam.value).Some? ==>
              var n := ParseInt10(limitParam.value).value;
              (n < 1 ==> LimitTake(limitParam) == 1) && (n > 200 ==> LimitTake(limitParam) == 200)
              && (1 <= n <= 200 ==> LimitTake(limitParam) == n)
  {
  }

  /** A limit given as a numeral: "0" is raised to 1, "500" lowered to 200, "50" kept. */
  lemma LimitTakeNumerals(n: nat)
    ensures LimitTake(Some(Decimal(n))) == if n == 0 then 1 else if n > 200 then 200 else n
  {
    ParseDecimal(n);
  }

  /** `take`: starts at 100 and is reassigned when the limit parses. */
  method Take(limitParam: Option<string>) returns (take: nat)
    ensures take == LimitTake(limitParam)
  {
    take := 100;
    if Truthy(limitParam) {
      var parsed := ParseInt10(limitParam.value);
      if parsed.Some? {
        var m := if 200 < parsed.value then 200 else parsed.value;
        take := if 1 < m then m else 1;
      }
    }
  }

  /** The list branch of `GET`: the status check, then `q`, then the `since` check, then
      the limit. A falsy parameter counts as absent. */
  method BuildListQuery(userId: string, statusParam: Option<string>, q: Option<string>,
                        sinceParam: Option<string>, limitParam: Option<string>,
                        parseDate: string -> Option<int>) returns (r: Result<ListQuery, Failure>)
    ensures Truthy(statusParam) && statusParam.value !in StatusNames ==> r == Err(InvalidStatus)
    ensures (!(Truthy(statusParam) && statusParam.value !in StatusNames)
             && Truthy(sinceParam) && parseDate(sinceParam.value).None?) ==> r == Err(InvalidSince)
    ensures r.Err? ==> r == Err(InvalidStatus) || r == Err(InvalidSince)
    ensures r.Ok? <==> !(Truthy(statusParam) && statusParam.value !in StatusNames)
                       && !(Truthy(sinceParam) && parseDate(sinceParam.value).None?)
    ensures r.Ok? ==>
              && r.value.userId == userId
              && (r.value.status.Some? <==> Truthy(statusParam))
              && (r.value.status.Some? ==> r.value.status.value.Name() == statusParam.value)
              && r.value.search == (if Truthy(q) then q else None)
              && (r.value.since.Some? <==> Truthy(sinceParam))
              && (r.value.since.Some? ==> Some(r.value.since.value) == parseDate(sinceParam.value))
              && r.value.take == LimitTake(limitParam)
  {
    var query := ListQuery(userId, None, None, None, 100);
    if Truthy(statusParam) {
      var st := FromName(statusParam.value);
      if st.None? {
        return Err(InvalidStatus);
      }
      query := query.(status := st);
    }
    if Truthy(q) {
      query := query.(search := q);
    }
    if Truthy(sinceParam) {
      var since := parseDate(sinceParam.value);
      if since.None? {
        return Err(InvalidSince);
      }
      query := query.(since := since);
    }
    var take := Take(limitParam);
    query := query.(take := take);
    r := Ok(query);
  }

  /** The job is there and belongs to the user. */
  predicate Owned(jobs: map<nat, JobApplication>, id: nat, userId: string) {
    id in jobs && jobs[id].userId == userId
  }

  /** The single-job branch of `GET`. */
  function GetJob(jobs: map<nat, JobApplication>, userId: string, id: nat): (r: Result<JobApplication, Failure>)
    ensures r.Ok? <==> Owned(jobs, id, userId)
    ensures r.Ok? ==> r.value == jobs[id]
    ensures r.Err? ==> r.error == NotFound
  {
    if id !in jobs || jobs[id].userId != userId then Err(NotFound) else Ok(jobs[id])
  }

  /** Another user's job is indistinguishable from a missing one. */
  lemma ForeignJobHidden(jobs: map<nat, JobApplication>, userId: string, id: nat)
    requires id in jobs && jobs[id].userId != userId
    ensures GetJob(jobs, userId, id) == GetJob(jobs - {id}, userId, id)
  {
  }

  // ---------------------------------------------------------------------------------------
  // PATCH

  /** A parsed JSON body; an object is the map `JSON.parse` builds (later duplicate keys win). */
  datatype Json =
    | JNull
    | JBool(b: bool)
    | JNum(n: int)
    | JStr(s: string)
    | JArr(items: seq<Json>)
    | JObj(fields: map<string, Json>)

  /** Truthy and `typeof` "object": an array or an object (`null` is falsy). */
  predicate ObjectLike(v: Json) {
    v.JArr? || v.JObj?
  }

  /** The validated fields; `None`: not supplied. */
  datatype JobPatch = JobPatch(status: Option<Status>, company: Option<string>, role: Option<string>)

  /** A present field must be a non-empty string (`z.string().min(1).optional()`). */
  function NonEmptyField(fields: map<string, Json>, key: string): (r: Result<Option<string>, Failure>)
    ensures key !in fields ==> r == Ok(None)
    ensures key in fields ==> (r.Ok? <==> fields[key].JStr? && fields[key].s != "")
    ensures r.Ok? && key in fields ==> r.value == Some(fields[key].s)
  {
    if key !in fields then Ok(None)
    else match fields[key]
      case JStr(s) => if s != "" then Ok(Some(s)) else Err(InvalidInput)
      case _ => Err(InvalidInput)
  }

  /** `PatchSchema.safeParse`: an object whose `status`, if present, is one of the ten names,
      whose `company` and `role`, if present, are non-empty strings, and which supplies at
      least one of the three; other keys are dropped. */
  function ParsePatch(body: Json): (r: Result<JobPatch, Failure>)
    ensures r.Err? ==> r.error == InvalidInput
    ensures r.Ok? ==> body.JObj? && (r.value.status.Some? || r.value.company.Some? || r.value.role.Some?)
    ensures r.Ok? ==> (r.value.status.Some? <==> "status" in body.fields)
                      && (r.value.company.Some? <==> "company" in body.fields)
                      && (r.value.role.Some? <==> "role" in body.fields)
  {
    if !body.JObj? then Err(InvalidInput)
    else
      var fields := body.fields;
      var status: Result<Option<Status>, Failure> :=
        if "status" !in fields then Ok(None)
        else if fields["status"].JStr? && FromName(fields["status"].s).Some? then Ok(FromName(fields["status"].s))
        else Err(InvalidInput);
      var company := NonEmptyField(fields, "company");
      var role := NonEmptyField(fields, "role");
      if status.Err? || company.Err? || role.Err? then Err(InvalidInput)
      else if status.value.None? && company.value.None? && role.value.None? then Err(InvalidInput)
      else Ok(JobPatch(status.value, company.value, role.value))
  }

  /** A parsed status is named by its wire name; a parsed company or role is the text sent. */
  lemma ParsePatchValues(body: Json)
    requires ParsePatch(body).Ok?
    ensures var p := ParsePatch(body).value;
            && (p.status.Some? ==> body.fields["status"] == JStr(p.status.value.Name()))
            && (p.company.Some? ==> body.fields["company"] == JStr(p.company.value) && p.company.value != "")
            && (p.role.Some? ==> body.fields["role"] == JStr(p.role.value) && p.role.value != "")
  {
  }

  /** An object with none of the three fields, or a status outside the list, is refused. */
  lemma ParsePatchRejects(extra: map<string, Json>)
    requires "status" !in extra && "company" !in extra && "role" !in extra
    ensures ParsePatch(JObj(extra)).Err?
    ensures ParsePatch(JObj(extra["status" := JStr("Hired")])).Err?
    ensures ParsePatch(JArr([])).Err?
  {
    assert !("Hired" in StatusNames);
  }

  /** The update: exactly the supplied fields overwrite. */
  function ApplyJobPatch(j: JobApplication, p: JobPatch): (r: JobApplication)
    ensures r.status == (if p.status.Some? then p.status.value else j.status)
    ensures r.company == p.company.GetOr(j.company) && r.role == p.role.GetOr(j.role)
    ensures r.(status := j.status, company := j.company, role := j.role) == j
  {
    j.(status := p.status.GetOr(j.status), company := p.company.GetOr(j.company), role := p.role.GetOr(j.role))
  }

  /** `PATCH`: session, id, JSON, schema, ownership, in that order; then the update of the
      supplied fields. `body` is `None` when the text is not JSON. */
  method Patch(db: Db, session: Option<string>, id: Option<nat>, body: Option<Json>)
    returns (r: Result<JobApplication, Failure>)
    requires db.Valid()
    modifies db
    ensures db.Valid()
    ensures session.None? ==> r == Err(Unauthorized)
    ensures session.Some? && id.None? ==> r == Err(MissingId)
    ensures session.Some? && id.Some? && !(body.Some? && ObjectLike(body.value)) ==> r == Err(InvalidJson)
    ensures session.Some? && id.Some? && body.Some? && ObjectLike(body.value) && ParsePatch(body.value).Err? ==>
              r == Err(InvalidInput)
    ensures (session.Some? && id.Some? && body.Some? && ObjectLike(body.value) && ParsePatch(body.value).Ok?
             && !Owned(old(db.jobs), id.value, session.value)) ==> r == Err(NotFound)
    ensures r.Ok? <==> session.Some? && id.Some? && body.Some? && ObjectLike(body.value)
                       && ParsePatch(body.value).Ok? && Owned(old(db.jobs), id.value, session.value)
    ensures r.Ok? ==> db.jobs == old(db.jobs)[id.value := r.value]
                      && r.value == ApplyJobPatch(old(db.jobs)[id.value], ParsePatch(body.value).value)
    ensures r.Err? ==> db.jobs == old(db.jobs)
    ensures db.nextJobId == old(db.nextJobId) && db.accounts == old(db.accounts)
    ensures db.nextAccountId == old(db.nextAccountId)
    ensures db.messages == old(db.messages) && db.events == old(db.events)
  {
    if session.None? {
      return Err(Unauthorized);
    }
    if id.None? {
      return Err(MissingId);
    }
    if body.None? || !ObjectLike(body.value) {
      return Err(InvalidJson);
    }
    var parsed := ParsePatch(body.value);
    if parsed.Err? {
      return Err(InvalidInput);
    }
    var key := id.value;
    if key !in db.jobs || db.jobs[key].userId != session.value {
      return Err(NotFound);
    }
    var p := parsed.value;
    var job := db.jobs[key];
    if p.status.Some? { job := job.(status := p.status.value); }
    if p.company.Some? { job := job.(company := p.company.value); }
    if p.role.Some? { job := job.(role := p.role.value); }
    db.jobs := db.jobs[key := job];
    r := Ok(job);
  }
}
