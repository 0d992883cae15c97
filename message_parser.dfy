/** The rule-based classifier of src/lib/messageParser.ts: from a message's subject, headers,
    snippet and body it derives a source label, a status, an event type, an event date and a
    confidence score, by first-match walks over fixed ordered tables.

    Regular-expression work the model does not reproduce (domain tokenising, company and role
    extraction, date parsing) comes in through `Oracles`. Confidence is in integer hundredths. */
module MessageParser {
  import opened Wrappers
  import opened Text
  import opened Statuses
  import opened MessageText

  // ---------------------------------------------------------------------------------------
  // Headers

  /** A header value as the source's `Record<string, string | string[] | undefined>` holds it. */
  datatype HeaderValue = One(text: string) | Many(items: seq<string>) | Absent

  /** A JavaScript object of headers: entries in key insertion order (keys are distinct in
      every object the program builds). */
  type Headers = seq<(string, HeaderValue)>

  /** `headers[key]`: the value stored under exactly `key`, or `Absent`. */
  function Lookup(h: Headers, key: string): (v: HeaderValue)
    ensures v != Absent ==> exists i :: 0 <= i < |h| && h[i] == (key, v)
    ensures (forall i :: 0 <= i < |h| ==> h[i].0 != key) ==> v == Absent
  {
    if h == [] then Absent
    else if h[0].0 == key then h[0].1
    else Lookup(h[1..], key)
  }

  /** A found header value as `getHeader` hands it back: an empty string counts as missing
      (an empty list does not, and joins to the empty string). */
  function Render(v: HeaderValue): (r: Option<string>)
    ensures r.None? <==> v.Absent? || v == One("")
    ensures v.One? && r.Some? ==> r.value == v.text
    ensures v.Many? ==> r == Some(Join(v.items, " "))
  {
    match v
    case Absent => None
    case One(t) => if t == "" then None else Some(t)
    case Many(items) => Some(Join(items, " "))
  }

  /** `getHeader`: the exact key, else the all-lower-case key (`??` falls through only for a
      missing key, not for an empty value); a list is joined with spaces. */
  function GetHeader(headers: Option<Headers>, name: string): (r: Option<string>)
    ensures headers.None? ==> r.None?
    ensures headers.Some? && Lookup(headers.value, name) != Absent ==>
              r == Render(Lookup(headers.value, name))
    ensures headers.Some? && Lookup(headers.value, name) == Absent ==>
              r == Render(Lookup(headers.value, Lower(name)))
  {
    if headers.None? then None
    else
      var exact := Lookup(headers.value, name);
      Render(if exact.Absent? then Lookup(headers.value, Lower(name)) else exact)
  }

  /** `a || b || c` over optional strings. */
  function FirstTruthy(a: Option<string>, b: Option<string>, c: Option<string>): (r: Option<string>)
    ensures Truthy(a) ==> r == a
    ensures !Truthy(a) && Truthy(b) ==> r == b
    ensures !Truthy(a) && !Truthy(b) ==> r == c
  {
    if Truthy(a) then a else if Truthy(b) then b else c
  }

  // ---------------------------------------------------------------------------------------
  // Source detection

  /** The applicant-tracking-system catalogue: label and domain patterns, in table order. */
  const AtsTable: seq<(string, seq<string>)> := [
    ("Greenhouse", ["greenhouse.io", "notifications.greenhouse.io"]),
    ("Lever", ["lever.co", "jobs.lever.co"]),
    ("Workday", ["workday.com", "myworkdayjobs.com"]),
    ("Taleo", ["taleo.net", "oraclecloud.com"]),
    ("Ashby", ["ashbyhq.com"]),
    ("SmartRecruiters", ["smartrecruiters.com"]),
    ("iCIMS", ["icims.com"]),
    ("Jobvite", ["jobvite.com"]),
    ("Workable", ["workable.com", "workablemail.com"]),
    ("BreezyHR", ["breezy.hr"]),
    ("BambooHR", ["bamboohr.com"]),
    ("SuccessFactors", ["successfactors.com"])
  ]

  function AtsLabels(): (r: seq<string>)
    ensures |r| == |AtsTable|
    ensures forall i :: 0 <= i < |r| ==> r[i] == AtsTable[i].0
  {
    seq(|AtsTable|, i requires 0 <= i < |AtsTable| => AtsTable[i].0)
  }

  /** `Object.keys(ATS_DOMAINS).includes(source)`. */
  predicate KnownSource(source: string) {
    source in AtsLabels()
  }

  /** Some pattern of the entry occurs in some domain (`re.test(d)` for an unanchored literal). */
  predicate EntryHits(patterns: seq<string>, domains: seq<string>) {
    exists p, d :: p in patterns && d in domains && Contains(d, p)
  }

  /** The index of the first catalogue entry that some domain hits. */
  function FirstAtsHit(table: seq<(string, seq<string>)>, domains: seq<string>): (r: Option<nat>)
    ensures r.Some? ==> r.value < |table| && EntryHits(table[r.value].1, domains)
                        && forall j :: 0 <= j < r.value ==> !EntryHits(table[j].1, domains)
    ensures r.None? ==> forall j :: 0 <= j < |table| ==> !EntryHits(table[j].1, domains)
  {
    if table == [] then None
    else if EntryHits(table[0].1, domains) then Some(0)
    else match FirstAtsHit(table[1..], domains)
      case None => None
      case Some(k) => Some(k + 1)
  }

  /** The regular-expression work the model takes as given. */
  datatype Oracles = Oracles(
    /** the matches of `/([a-z0-9.-]+\.[a-z]{2,})/gi` in a text, in order */
    domainMatches: string -> seq<string>,
    /** the span [start, end) of the first match of `/([a-z0-9.-]+\.[a-z]{2,})/` in a text */
    firstDomain: string -> Option<(nat, nat)>,
    /** `extractCompany(subject, headers, content)` */
    company: (string, Option<Headers>, string) -> Option<string>,
    /** the group captured by the first of `extractRole`'s patterns that matches, before `cleanRole` */
    roleCapture: (string, string) -> Option<string>,
    /** `parseDateFromHeaders` when it finds a date (milliseconds); None when it would use the clock */
    date: Option<Headers> -> Option<int>)

  /** The texts the domain scan reads: `getHeader(headers, k)` for each key, when truthy. */
  function HeaderTexts(headers: Headers, keys: seq<string>): (r: seq<string>)
    ensures forall i :: 0 <= i < |r| ==> r[i] != ""
  {
    if keys == [] then []
    else
      var v := GetHeader(Some(headers), keys[0]);
      (if Truthy(v) then [v.value] else []) + HeaderTexts(headers, keys[1..])
  }

  function Keys(headers: Headers): (r: seq<string>)
    ensures |r| == |headers| && forall i :: 0 <= i < |r| ==> r[i] == headers[i].0
  {
    seq(|headers|, i requires 0 <= i < |headers| => headers[i].0)
  }

  /** Appends the lower-cased matches not seen yet (a `Set`, read back in insertion order). */
  function AddDistinct(seen: seq<string>, ms: seq<string>): (r: seq<string>)
    ensures (forall i, j :: 0 <= i < j < |seen| ==> seen[i] != seen[j]) ==>
              forall i, j :: 0 <= i < j < |r| ==> r[i] != r[j]
    ensures |seen| <= |r| && r[..|seen|] == seen
    decreases |ms|
  {
    if ms == [] then seen
    else
      var d := Lower(ms[0]);
      AddDistinct(if d in seen then seen else seen + [d], ms[1..])
  }

  /** The set `AddDistinct` reads back: what was seen, and every lower-cased match. */
  lemma {:induction false} AddDistinctMembers(seen: seq<string>, ms: seq<string>, x: string)
    ensures x in AddDistinct(seen, ms) <==> x in seen || exists m :: m in ms && x == Lower(m)
    decreases |ms|
  {
    if ms != [] {
      var d := Lower(ms[0]);
      var seen' := if d in seen then seen else seen + [d];
      AddDistinctMembers(seen', ms[1..], x);
      if exists m :: m in ms && x == Lower(m) {
        var m :| m in ms && x == Lower(m);
        if m != ms[0] { assert m in ms[1..]; }
      }
      if exists m :: m in ms[1..] && x == Lower(m) {
        var m :| m in ms[1..] && x == Lower(m);
        assert m in ms;
      }
    }
  }

  /** The value `extractDomainsFromHeaders` returns. */
  function DomainsOf(headers: Option<Headers>, o: Oracles): seq<string> {
    if headers.None? then []
    else AddDistinct([], o.domainMatches(Join(HeaderTexts(headers.value, Keys(headers.value)), " ")))
  }

  /** The first loop of `extractDomainsFromHeaders`: the truthy header texts, key by key. */
  method CollectHeaderTexts(h: Headers) returns (values: seq<string>)
    ensures values == HeaderTexts(h, Keys(h))
  {
    var keys := Keys(h);
    values := [];
    var k := 0;
    assert keys[k..] == keys;
    while k < |keys|
      invariant 0 <= k <= |keys|
      invariant values + HeaderTexts(h, keys[k..]) == HeaderTexts(h, keys)
    {
      var v := GetHeader(Some(h), keys[k]);
      HeaderTextsStep(h, keys[k..], v);
      assert keys[k..][1..] == keys[k + 1..];
      ghost var rest := HeaderTexts(h, keys[k + 1..]);
      if Truthy(v) {
        assert values + ([v.value] + rest) == (values + [v.value]) + rest;
        values := values + [v.value];
      } else {
        assert [] + rest == rest;
      }
      k := k + 1;
    }
    assert keys[k..] == [] && values + [] == values;
  }

  lemma HeaderTextsStep(h: Headers, keys: seq<string>, v: Option<string>)
    requires keys != [] && v == GetHeader(Some(h), keys[0])
    ensures HeaderTexts(h, keys) == (if Truthy(v) then [v.value] else []) + HeaderTexts(h, keys[1..])
  {
  }

  /** The second loop: each lower-cased match goes into a set; the set's members come
      back in first-seen order. */
  method AddMatches(matches: seq<string>) returns (domains: seq<string>)
    ensures domains == AddDistinct([], matches)
  {
    domains := [];
    var seen: set<string> := {};
    var i := 0;
    while i < |matches|
      invariant 0 <= i <= |matches|
      invariant forall x :: x in seen <==> x in domains
      invariant AddDistinct(domains, matches[i..]) == AddDistinct([], matches)
    {
      var d := Lower(matches[i]);
      assert matches[i..] == [matches[i]] + matches[i + 1..];
      if d !in seen {
        seen := seen + {d};
        domains := domains + [d];
      }
      i := i + 1;
    }
    assert matches[i..] == [];
  }

  /** `extractDomainsFromHeaders`: the distinct lower-cased domain matches of the joined
      header texts, in first-seen order; none without headers. */
  method ExtractDomains(headers: Option<Headers>, o: Oracles) returns (domains: seq<string>)
    ensures domains == DomainsOf(headers, o)
  {
    domains := [];
    if headers.None? { return; }
    var values := CollectHeaderTexts(headers.value);
    var matches := o.domainMatches(Join(values, " "));
    domains := AddMatches(matches);
  }

  /** The domains are distinct, and are exactly the lower-cased matches in the joined texts. */
  lemma DomainsOfSpec(headers: Option<Headers>, o: Oracles)
    ensures var ds := DomainsOf(headers, o);
            forall i, j :: 0 <= i < j < |ds| ==> ds[i] != ds[j]
    ensures headers.Some? ==> forall x :: x in DomainsOf(headers, o) <==>
      exists m :: m in o.domainMatches(Join(HeaderTexts(headers.value, Keys(headers.value)), " ")) && x == Lower(m)
  {
    if headers.Some? {
      var matches := o.domainMatches(Join(HeaderTexts(headers.value, Keys(headers.value)), " "));
      forall x ensures x in AddDistinct([], matches) <==> exists m :: m in matches && x == Lower(m) {
        AddDistinctMembers([], matches, x);
      }
    }
  }

  /** `getHeader(headers, 'From') || getHeader(headers, 'Return-Path') || getHeader(headers, 'Sender')`. */
  function FromText(headers: Option<Headers>): Option<string> {
    FirstTruthy(GetHeader(headers, "From"), GetHeader(headers, "Return-Path"), GetHeader(headers, "Sender"))
  }

  /** The fallback of `detectSource`: the first domain of the lower-cased From, Return-Path or
      Sender text, else "email". */
  function FallbackSource(headers: Option<Headers>, o: Oracles): string {
    var from := FromText(headers);
    if Truthy(from) then
      var lc := Lower(from.value);
      match o.firstDomain(lc)
      case Some(span) =>
        if span.0 < span.1 <= |lc| then lc[span.0..span.1] else "email"
      case None => "email"
    else "email"
  }

  /** `detectSource`: the first catalogue entry some header domain hits, else the fallback. */
  function DetectSource(headers: Option<Headers>, o: Oracles): string {
    match FirstAtsHit(AtsTable, DomainsOf(headers, o))
    case Some(k) => AtsTable[k].0
    case None => FallbackSource(headers, o)
  }

  // ---------------------------------------------------------------------------------------
  // Status and event type

  /** The status keyword table, in table order (`Ghosted` has no keywords). */
  const StatusTable: seq<(Status, seq<string>)> := [
    (Applied, ["applied", "application received", "we received your application",
               "thanks for applying", "submission received", "received your application"]),
    (InReview, ["under review", "reviewing your application", "considering your application",
                "shortlisted"]),
    (Assessment, ["assessment", "take-home", "take home", "challenge", "coding challenge", "test"]),
    (PhoneScreen, ["phone screen", "screening call", "recruiter call"]),
    (Interview, ["interview scheduled", "interview", "technical interview", "panel interview"]),
    (Onsite, ["onsite", "on-site", "on site"]),
    (Offer, ["offer", "offer letter"]),
    (Rejected, ["unfortunately", "not moving forward", "not selected", "rejection", "declined",
                "we're moving forward with other candidates",
                "we are moving forward with other candidates"]),
    (Withdrawn, ["withdrawn", "withdraw your application", "application withdrawn",
                 "cancelled application"]),
    (Ghosted, [])
  ]

  /** Some keyword of the list occurs in the content. */
  predicate AnyIn(content: string, keywords: seq<string>) {
    exists kw :: kw in keywords && Contains(content, kw)
  }

  /** The position of a status in the keyword table. */
  function Rank(st: Status): (k: nat)
    ensures k < |StatusTable| && StatusTable[k].0 == st
  {
    match st
    case Applied => 0
    case InReview => 1
    case Assessment => 2
    case PhoneScreen => 3
    case Interview => 4
    case Onsite => 5
    case Offer => 6
    case Rejected => 7
    case Withdrawn => 8
    case Ghosted => 9
  }

  /** `STATUS_KEYWORDS[status]`. */
  function KeywordsOf(st: Status): seq<string> {
    StatusTable[Rank(st)].1
  }

  /** The table lists every status once, so a position determines its status and back. */
  lemma RankOfEntry(k: nat)
    requires k < |StatusTable|
    ensures Rank(StatusTable[k].0) == k
  {
  }

  /** The index of the first table entry with a keyword in the content. */
  function FirstStatusHit(table: seq<(Status, seq<string>)>, content: string): (r: Option<nat>)
    ensures r.Some? ==> r.value < |table| && AnyIn(content, table[r.value].1)
                        && forall j :: 0 <= j < r.value ==> !AnyIn(content, table[j].1)
    ensures r.None? ==> forall j :: 0 <= j < |table| ==> !AnyIn(content, table[j].1)
  {
    if table == [] then None
    else if AnyIn(content, table[0].1) then Some(0)
    else match FirstStatusHit(table[1..], content)
      case None => None
      case Some(k) => Some(k + 1)
  }

  /** `pickBestStatus`: the first status in table order with a keyword in the content;
      `InReview` when none has. */
  function PickBestStatus(contentLc: string): Status {
    match FirstStatusHit(StatusTable, contentLc)
    case Some(k) => StatusTable[k].0
    case None => InReview
  }

  const InterviewScheduled := "interview_scheduled"
  const AssessmentAssigned := "assessment_assigned"
  const OfferReceived := "offer_received"
  const PhoneScreenScheduled := "phone_screen_scheduled"
  const ApplicationSubmitted := "application_submitted"
  const StatusUpdate := "status_update"
  const Rejection := "rejection"
  const Withdrawal := "withdrawal"

  /** `DEFAULT_EVENT_FOR_STATUS`. */
  function DefaultEvent(st: Status): string {
    match st
    case Applied => ApplicationSubmitted
    case InReview => StatusUpdate
    case Assessment => AssessmentAssigned
    case PhoneScreen => PhoneScreenScheduled
    case Interview => InterviewScheduled
    case Onsite => InterviewScheduled
    case Offer => OfferReceived
    case Rejected => Rejection
    case Withdrawn => Withdrawal
    case Ghosted => StatusUpdate
  }

  /** The override rules of `decideEventType`, in order; the first that fires decides. */
  function OverrideEvent(contentLc: string): Option<string> {
    if Contains(contentLc, "interview") && Contains(contentLc, "scheduled") then Some(InterviewScheduled)
    else if Contains(contentLc, "assessment") then Some(AssessmentAssigned)
    else if Contains(contentLc, "offer") then Some(OfferReceived)
    else if Contains(contentLc, "phone screen") then Some(PhoneScreenScheduled)
    else None
  }

  /** `decideEventType`: an override when one fires, else the status's default. */
  function DecideEventType(st: Status, contentLc: string): string {
    OverrideEvent(contentLc).GetOr(DefaultEvent(st))
  }

  // ---------------------------------------------------------------------------------------
  // Role cleaning and confidence

  /** `computeConfidence` in hundredths: 30, plus 25 for a catalogued source, 25 for a
      matched status keyword, 10 for a role and 10 for a company, at most 100. */
  function Confidence(source: string, statusMatched: bool, role: Option<string>, company: Option<string>): int {
    var score := 30
      + (if KnownSource(source) then 25 else 0)
      + (if statusMatched then 25 else 0)
      + (if Truthy(role) then 10 else 0)
      + (if Truthy(company) then 10 else 0);
    if score > 100 then 100 else score
  }

  /** `computeConfidence` as the source writes it: a score raised step by step, then clamped. */
  method ComputeConfidence(source: string, statusMatched: bool, role: Option<string>, company: Option<string>)
    returns (score: int)
    ensures score == Confidence(source, statusMatched, role, company)
    ensures 30 <= score <= 100
  {
    score := 30;
    if source in AtsLabels() { score := score + 25; }
    if statusMatched { score := score + 25; }
    if Truthy(role) { score := score + 10; }
    if Truthy(company) { score := score + 10; }
    if score > 100 { score := 100; }
  }

  // ---------------------------------------------------------------------------------------
  // The whole classification

  datatype RawInput = RawInput(subject: Option<string>, headers: Option<Headers>,
                               snippet: Option<string>, text: Option<string>)

  datatype ParsedEvent = ParsedEvent(
    company: Option<string>, role: Option<string>, source: string, status: Status,
    eventType: string, eventDate: int, confidence: int)

  /** The lower-cased, normalised content the status and event rules read. */
  function ContentOf(input: RawInput): string {
    LcAll([Some(input.subject.GetOr("")), Some(input.snippet.GetOr("")), Some(input.text.GetOr(""))])
  }

  /** The `statusMatched` flag: a keyword of the chosen status occurs. */
  predicate StatusMatched(contentLc: string) {
    AnyIn(contentLc, KeywordsOf(PickBestStatus(contentLc)))
  }

  /** `parseGmailMessage`; `now` is the clock reading the date fallback uses. */
  function ParseMessage(input: RawInput, o: Oracles, now: int): ParsedEvent {
    var subject := input.subject.GetOr("");
    var text := input.text.GetOr("");
    var snippet := input.snippet.GetOr("");
    var allLc := ContentOf(input);
    var source := DetectSource(input.headers, o);
    var status := PickBestStatus(allLc);
    var eventType := DecideEventType(status, allLc);
    var eventDate := o.date(input.headers).GetOr(now);
    var company := o.company(subject, input.headers, snippet + " " + text);
    var role := match o.roleCapture(subject, snippet + " " + text)
      case Some(c) => Some(CleanRole(c))
      case None => None;
    var confidence := Confidence(source, StatusMatched(allLc), role, company);
    ParsedEvent(company, role, source, status, eventType, eventDate, confidence)
  }
}
