/** The pure helpers of src/app/api/ingest/route.ts: the Gmail search query, `headerValue`,
    the depth-first `text/plain` extraction, and the `headersObj` record built from a
    message's header list.

    Body data is base64url (section 5 of RFC 4648); it is rewritten to the standard alphabet
    (section 4) and decoded by an oracle (`None`: decoding threw). */
module IngestContent {
  import opened Wrappers
  import opened Text
  import opened MessageParser

  // ---------------------------------------------------------------------------------------
  // buildSearchQuery

  const SearchKeywords: seq<string> :=
    ["application", "interview", "assessment", "offer", "regret", "rejection"]

  const SearchDomains: seq<string> := [
    "greenhouse.io", "notifications.greenhouse.io", "lever.co", "jobs.lever.co",
    "workday.com", "myworkdayjobs.com", "taleo.net", "oraclecloud.com", "ashbyhq.com",
    "smartrecruiters.com", "icims.com", "jobvite.com", "workable.com", "workablemail.com",
    "breezy.hr", "bamboohr.com", "successfactors.com"
  ]

  /** `domains.map((d) => `from:${d}`)`. */
  function FromTerms(domains: seq<string>): (r: seq<string>)
    ensures |r| == |domains|
    ensures forall i :: 0 <= i < |r| ==> r[i] == "from:" + domains[i]
  {
    if domains == [] then [] else ["from:" + domains[0]] + FromTerms(domains[1..])
  }

  /** The query over a keyword list and a domain list. */
  function SearchQuery(keywords: seq<string>, domains: seq<string>): string {
    "newer_than:30d (" + Join(keywords, " OR ") + ") AND (" + Join(FromTerms(domains), " OR ") + ")"
  }

  /** `buildSearchQuery`. */
  function BuildSearchQuery(): string {
    SearchQuery(SearchKeywords, SearchDomains)
  }

  /** Every part of a join occurs in it. */
  lemma {:induction false} JoinContains(parts: seq<string>, sep: string, i: nat)
    requires i < |parts|
    ensures Contains(Join(parts, sep), parts[i])
    decreases |parts|
  {
    if |parts| == 1 {
      ContainsSelf(parts[0]);
    } else if i == 0 {
      ContainsSelf(parts[0]);
      ContainsInLeft(parts[0], sep + Join(parts[1..], sep), parts[0]);
      assert parts[0] + sep + Join(parts[1..], sep) == parts[0] + (sep + Join(parts[1..], sep));
    } else {
      JoinContains(parts[1..], sep, i - 1);
      ContainsInRight(parts[0] + sep, Join(parts[1..], sep), parts[i]);
    }
  }

  /** The query restricts to the last 30 days, and names every keyword and every sender
      domain as a `from:` term. */
  lemma QueryNamesAll(keywords: seq<string>, domains: seq<string>, i: nat, j: nat)
    ensures IsPrefix("newer_than:30d (", SearchQuery(keywords, domains))
    ensures i < |keywords| ==> Contains(SearchQuery(keywords, domains), keywords[i])
    ensures j < |domains| ==> Contains(SearchQuery(keywords, domains), "from:" + domains[j])
  {
    var head := "newer_than:30d (";
    var kw := Join(keywords, " OR ");
    var fr := Join(FromTerms(domains), " OR ");
    var q := SearchQuery(keywords, domains);
    assert q == head + (kw + (") AND (" + fr + ")"));
    assert q[..|head|] == head;
    if i < |keywords| {
      JoinContains(keywords, " OR ", i);
      ContainsInLeft(kw, ") AND (" + fr + ")", keywords[i]);
      ContainsInRight(head, kw + (") AND (" + fr + ")"), keywords[i]);
    }
    if j < |domains| {
      JoinContains(FromTerms(domains), " OR ", j);
      ContainsInLeft(fr, ")", "from:" + domains[j]);
      ContainsInRight(head + kw + ") AND (", fr + ")", "from:" + domains[j]);
      assert q == head + kw + ") AND (" + (fr + ")");
    }
  }

  // ---------------------------------------------------------------------------------------
  // headerValue

  /** An entry of the Gmail header list; both parts may be missing. */
  datatype GmailHeader = GmailHeader(name: Option<string>, value: Option<string>)

  predicate NameIs(h: GmailHeader, name: string) {
    h.name.Some? && Lower(h.name.value) == Lower(name)
  }

  /** `headerValue`: the value of the first entry whose name equals `name` ignoring case
      (`undefined` when that entry has no value, even if a later one has). */
  function FindHeader(headers: Option<seq<GmailHeader>>, name: string): (r: Option<string>)
    ensures headers.None? ==> r.None?
  {
    if headers.None? then None else FirstNamed(headers.value, name)
  }

  function FirstNamed(hs: seq<GmailHeader>, name: string): Option<string> {
    if hs == [] then None
    else if NameIs(hs[0], name) then hs[0].value
    else FirstNamed(hs[1..], name)
  }

  /** A value found belongs to the first entry so named; with no entry so named there is
      none. */
  lemma {:induction false} FindHeaderSpec(hs: seq<GmailHeader>, name: string)
    ensures FindHeader(Some(hs), name).Some? ==>
              exists i :: 0 <= i < |hs| && NameIs(hs[i], name) && hs[i].value == FindHeader(Some(hs), name)
                          && forall j :: 0 <= j < i ==> !NameIs(hs[j], name)
    ensures (forall i :: 0 <= i < |hs| ==> !NameIs(hs[i], name)) ==> FindHeader(Some(hs), name).None?
    decreases |hs|
  {
    if hs != [] && !NameIs(hs[0], name) {
      FindHeaderSpec(hs[1..], name);
      var r := FirstNamed(hs[1..], name);
      if r.Some? {
        var i :| 0 <= i < |hs[1..]| && NameIs(hs[1..][i], name) && hs[1..][i].value == r
                 && forall j :: 0 <= j < i ==> !NameIs(hs[1..][j], name);
        assert NameIs(hs[i + 1], name) && forall j :: 0 <= j < i + 1 ==> !NameIs(hs[j], name) by {
          forall j | 0 <= j < i + 1 ensures !NameIs(hs[j], name) {
            if j > 0 {
              assert hs[j] == hs[1..][j - 1];
            }
          }
        }
      }
      if forall i :: 0 <= i < |hs| ==> !NameIs(hs[i], name) {
        assert forall i :: 0 <= i < |hs[1..]| ==> !NameIs(hs[1..][i], name) by {
          forall i | 0 <= i < |hs[1..]| ensures !NameIs(hs[1..][i], name) {
            assert hs[1..][i] == hs[i + 1];
          }
        }
      }
    }
  }

  /** The lookup ignores the case of the name asked for. */
  lemma {:induction false} FindHeaderIgnoresCase(hs: seq<GmailHeader>, a: string, b: string)
    requires Lower(a) == Lower(b)
    ensures FindHeader(Some(hs), a) == FindHeader(Some(hs), b)
    decreases |hs|
  {
    if hs != [] {
      FindHeaderIgnoresCase(hs[1..], a, b);
    }
  }

  /** Example: the first matching entry decides, even when it has no value. */
  lemma FindHeaderFirstDecides()
    ensures FindHeader(Some([GmailHeader(Some("subject"), None), GmailHeader(Some("Subject"), Some("Hi"))]), "Subject")
            == None
  {
    assert Lower("subject") == Lower("Subject") by {
      assert Lower("Subject")[0] == 's';
    }
  }

  // ---------------------------------------------------------------------------------------
  // extractTextFromMessage

  /** A payload part: MIME type, body data, and its sub-parts (when `parts` is an array). */
  datatype Part = Part(mimeType: Option<string>, data: Option<string>, parts: seq<Part>)

  /** `.replace(/-/g, '+').replace(/_/g, '/')`. */
  function ToStandardAlphabet(s: string): (r: string)
    ensures |r| == |s|
    ensures forall i :: 0 <= i < |s| ==>
              r[i] == (if s[i] == '-' then '+' else if s[i] == '_' then '/' else s[i])
  {
    if s == [] then [] else
      [if s[0] == '-' then '+' else if s[0] == '_' then '/' else s[0]] + ToStandardAlphabet(s[1..])
  }

  /** The rewritten data uses only the standard alphabet's characters where it differs from
      base64url, and rewriting it again changes nothing. */
  lemma StandardAlphabetShape(s: string)
    ensures forall i :: 0 <= i < |s| ==> ToStandardAlphabet(s)[i] != '-' && ToStandardAlphabet(s)[i] != '_'
    ensures ToStandardAlphabet(ToStandardAlphabet(s)) == ToStandardAlphabet(s)
  {
    var r := ToStandardAlphabet(s);
    var again := ToStandardAlphabet(r);
    forall i | 0 <= i < |r| ensures again[i] == r[i] {
      assert r[i] != '-' && r[i] != '_';
    }
  }

  /** The part is `text/plain` with data that decodes. */
  predicate Decodable(p: Part, decode: string -> Option<string>) {
    p.mimeType == Some("text/plain") && Truthy(p.data) && decode(ToStandardAlphabet(p.data.value)).Some?
  }

  function DecodedText(p: Part, decode: string -> Option<string>): string
    requires Decodable(p, decode)
  {
    decode(ToStandardAlphabet(p.data.value)).value
  }

  /** `traverse`: a decodable `text/plain` part answers with its text (even an empty one);
      otherwise the first sub-part with a non-empty answer. */
  function Traverse(p: Part, decode: string -> Option<string>): Option<string>
    decreases p, 1
  {
    if Decodable(p, decode) then Some(DecodedText(p, decode)) else FirstText(p.parts, decode)
  }

  function FirstText(ps: seq<Part>, decode: string -> Option<string>): (r: Option<string>)
    ensures r.Some? ==> r.value != ""
    decreases ps, 0
  {
    if ps == [] then None
    else
      var t := Traverse(ps[0], decode);
      if Truthy(t) then t else FirstText(ps[1..], decode)
  }

  /** The reference order: the first decodable part in depth-first pre-order, where a part
      that decodes to the empty text also hides its own sub-parts. */
  function FirstHit(p: Part, decode: string -> Option<string>): (r: Option<Part>)
    ensures r.Some? ==> Decodable(r.value, decode)
    decreases p, 1
  {
    if Decodable(p, decode) then Some(p) else FirstHitIn(p.parts, decode)
  }

  function FirstHitIn(ps: seq<Part>, decode: string -> Option<string>): (r: Option<Part>)
    ensures r.Some? ==> Decodable(r.value, decode)
    decreases ps, 0
  {
    if ps == [] then None
    else match FirstHit(ps[0], decode)
      case Some(h) => if DecodedText(h, decode) != "" then Some(h) else FirstHitIn(ps[1..], decode)
      case None => FirstHitIn(ps[1..], decode)
  }

  predicate HitDecodable(h: Option<Part>, decode: string -> Option<string>) {
    h.Some? ==> Decodable(h.value, decode)
  }

  /** The extraction answers with the text of the pre-order first hit, and answers `None`
      exactly when there is none. */
  lemma {:induction false} TraverseIsFirstHit(p: Part, decode: string -> Option<string>)
    ensures HitDecodable(FirstHit(p, decode), decode)
    ensures Traverse(p, decode) == match FirstHit(p, decode)
                                   case Some(h) => Some(DecodedText(h, decode))
                                   case None => None
    decreases p, 1
  {
    if !Decodable(p, decode) {
      FirstTextIsFirstHit(p.parts, decode);
    }
  }

  lemma {:induction false} FirstTextIsFirstHit(ps: seq<Part>, decode: string -> Option<string>)
    ensures HitDecodable(FirstHitIn(ps, decode), decode)
    ensures FirstText(ps, decode) == match FirstHitIn(ps, decode)
                                     case Some(h) => Some(DecodedText(h, decode))
                                     case None => None
    decreases ps, 0
  {
    if ps != [] {
      TraverseIsFirstHit(ps[0], decode);
      FirstTextIsFirstHit(ps[1..], decode);
    }
  }

  /** A non-empty answer is the decoding of some `text/plain` part: nothing is invented. */
  lemma ExtractedFromPlainPart(p: Part, decode: string -> Option<string>)
    requires Traverse(p, decode).Some?
    ensures var h := FirstHit(p, decode);
            h.Some? && h.value.mimeType == Some("text/plain") && Truthy(h.value.data)
            && decode(ToStandardAlphabet(h.value.data.value)) == Traverse(p, decode)
  {
    TraverseIsFirstHit(p, decode);
  }

  /** A part whose decoding fails falls through to its own sub-parts. */
  lemma DecodeFailureFallsThrough(p: Part, decode: string -> Option<string>)
    requires p.mimeType == Some("text/plain") && Truthy(p.data)
    requires decode(ToStandardAlphabet(p.data.value)).None?
    ensures Traverse(p, decode) == FirstText(p.parts, decode)
  {
  }

  /** A fetched message: its payload tree, the payload's header list (`payload?.headers ?? []`),
      its snippet and its `internalDate` when present and numeric. */
  datatype GmailMessage = GmailMessage(
    payload: Option<Part>, headers: seq<GmailHeader>, snippet: Option<string>, internalDate: Option<int>)

  /** `extractTextFromMessage`: a message without a payload has no text. */
  function ExtractText(payload: Option<Part>, decode: string -> Option<string>): Option<string> {
    if payload.None? then None else Traverse(payload.value, decode)
  }

  // ---------------------------------------------------------------------------------------
  // headersObj

  /** A JavaScript object of strings: entries in key insertion order. */
  type StringRecord = seq<(string, string)>

  predicate DistinctKeys(obj: StringRecord) {
    forall i, j :: 0 <= i < j < |obj| ==> obj[i].0 != obj[j].0
  }

  /** `obj[k] = v`: an existing key keeps its position and takes the new value; a new key
      goes last. */
  function Put(obj: StringRecord, k: string, v: string): (r: StringRecord)
    ensures |r| == |obj| || |r| == |obj| + 1
    ensures forall i :: 0 <= i < |obj| ==> r[i].0 == obj[i].0
  {
    if obj == [] then [(k, v)]
    else if obj[0].0 == k then [(k, v)] + obj[1..]
    else [obj[0]] + Put(obj[1..], k, v)
  }

  /** What the record holds under a key. */
  function Get(obj: StringRecord, k: string): Option<string> {
    if obj == [] then None else if obj[0].0 == k then Some(obj[0].1) else Get(obj[1..], k)
  }

  function Keys(obj: StringRecord): (r: seq<string>)
    ensures |r| == |obj|
    ensures forall i :: 0 <= i < |obj| ==> r[i] == obj[i].0
  {
    if obj == [] then [] else [obj[0].0] + Keys(obj[1..])
  }

  /** A put keeps the keys and their order, appending the key only when it is new. */
  lemma {:induction false} PutKeys(obj: StringRecord, k: string, v: string)
    ensures Keys(Put(obj, k, v)) == if k in Keys(obj) then Keys(obj) else Keys(obj) + [k]
    decreases |obj|
  {
    if obj != [] && obj[0].0 != k {
      PutKeys(obj[1..], k, v);
      assert Keys(obj) == [obj[0].0] + Keys(obj[1..]);
    }
  }

  /** A put sets its key and leaves every other key's value alone. */
  lemma {:induction false} PutGet(obj: StringRecord, k: string, v: string, k': string)
    ensures Get(Put(obj, k, v), k') == if k' == k then Some(v) else Get(obj, k')
    decreases |obj|
  {
    if obj != [] && obj[0].0 != k {
      PutGet(obj[1..], k, v, k');
    }
  }

  lemma PutDistinct(obj: StringRecord, k: string, v: string)
    requires DistinctKeys(obj)
    ensures DistinctKeys(Put(obj, k, v))
  {
    PutKeys(obj, k, v);
    var r := Put(obj, k, v);
    forall i, j | 0 <= i < j < |r| ensures r[i].0 != r[j].0 {
      assert Keys(r)[i] == r[i].0 && Keys(r)[j] == r[j].0;
    }
  }

  /** The record built from a header list. */
  function HeadersRecord(hs: seq<GmailHeader>): StringRecord {
    if hs == [] then []
    else
      var obj := HeadersRecord(hs[..|hs| - 1]);
      var h := hs[|hs| - 1];
      if Truthy(h.name) && Truthy(h.value) then Put(obj, h.name.value, h.value.value) else obj
  }

  /** `for (const h of headersArr) if (h.name && h.value) headersObj[h.name] = h.value`. */
  method BuildHeaders(hs: seq<GmailHeader>) returns (obj: StringRecord)
    ensures obj == HeadersRecord(hs)
  {
    obj := [];
    for i := 0 to |hs|
      invariant obj == HeadersRecord(hs[..i])
    {
      var h := hs[i];
      assert hs[..i + 1][..i] == hs[..i];
      if Truthy(h.name) && Truthy(h.value) {
        obj := Put(obj, h.name.value, h.value.value);
      }
    }
    assert hs[..|hs|] == hs;
  }

  /** The last entry with a name and a value decides a key; entries without either are
      dropped; keys are distinct. */
  lemma {:induction false} HeadersRecordSpec(hs: seq<GmailHeader>, k: string)
    ensures DistinctKeys(HeadersRecord(hs))
    ensures Get(HeadersRecord(hs), k) ==
              match LastValue(hs, k)
              case Some(v) => Some(v)
              case None => None
    decreases |hs|
  {
    if hs != [] {
      var init := hs[..|hs| - 1];
      HeadersRecordSpec(init, k);
      var h := hs[|hs| - 1];
      if Truthy(h.name) && Truthy(h.value) {
        PutDistinct(HeadersRecord(init), h.name.value, h.value.value);
        PutGet(HeadersRecord(init), h.name.value, h.value.value, k);
      }
    }
  }

  /** The value of the last entry named exactly `k` that has a value. */
  function LastValue(hs: seq<GmailHeader>, k: string): Option<string> {
    if hs == [] then None
    else
      var h := hs[|hs| - 1];
      if h.name == Some(k) && k != "" && Truthy(h.value) then h.value else LastValue(hs[..|hs| - 1], k)
  }

  /** The record as the classifier's header object. */
  function AsHeaders(obj: StringRecord): (r: Headers)
    ensures |r| == |obj|
    ensures forall i :: 0 <= i < |obj| ==> r[i] == (obj[i].0, One(obj[i].1))
  {
    if obj == [] then [] else [(obj[0].0, One(obj[0].1))] + AsHeaders(obj[1..])
  }
}
