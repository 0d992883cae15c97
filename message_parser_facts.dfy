/** What the classifier of src/lib/messageParser.ts guarantees: header lookup, first-match
    precedence of the status table, the event-type overrides, source detection and the
    confidence score. */
module MessageParserFacts {
  import opened Wrappers
  import opened Text
  import opened Statuses
  import opened MessageText
  import opened MessageParser

  // ---------------------------------------------------------------------------------------
  // getHeader

  /** Example: the lookup is not case-insensitive, as a key stored as `From` is not found as
      `from`. */
  lemma GetHeaderNotCaseInsensitive()
    ensures GetHeader(Some([("From", One("jobs@lever.co"))]), "from") == None
    ensures GetHeader(Some([("from", One("jobs@lever.co"))]), "FROM") == Some("jobs@lever.co")
  {
    assert Lower("FROM") == "from";
  }

  /** Example: an empty value under the exact key hides the lower-case key, as `??` only
      falls through for a missing key, and the empty string then counts as missing. */
  lemma GetHeaderEmptyShadows()
    ensures GetHeader(Some([("Date", One("")), ("date", One("Mon, 1 Jan 2024"))]), "Date") == None
  {
  }

  /** A list value is joined with single spaces. */
  lemma GetHeaderJoinsLists()
    ensures GetHeader(Some([("Received", Many(["by a", "by b"]))]), "Received") == Some("by a by b")
  {
    var items := ["by a", "by b"];
    assert items[1..] == ["by b"];
    assert Join(items, " ") == "by a by b";
  }

  // ---------------------------------------------------------------------------------------
  // pickBestStatus and statusMatched

  /** Some status of the table has a keyword in the content. */
  predicate AnyStatusHits(c: string) {
    exists st: Status :: AnyIn(c, KeywordsOf(st))
  }

  /** `pickBestStatus` is the status of least table position with a keyword in the content;
      `InReview` when there is none; never `Ghosted`, whose keyword list is empty. */
  lemma PickBestStatusSpec(c: string)
    ensures AnyStatusHits(c) ==>
              AnyIn(c, KeywordsOf(PickBestStatus(c)))
              && forall st: Status :: Rank(st) < Rank(PickBestStatus(c)) ==> !AnyIn(c, KeywordsOf(st))
    ensures !AnyStatusHits(c) ==> PickBestStatus(c) == InReview
    ensures PickBestStatus(c) != Ghosted
  {
    match FirstStatusHit(StatusTable, c)
    case Some(k) =>
      RankOfEntry(k);
      assert PickBestStatus(c) == StatusTable[k].0;
      assert KeywordsOf(StatusTable[k].0) == StatusTable[k].1;
      assert k != 9 by {
        assert StatusTable[9].1 == [];
      }
      forall st: Status | Rank(st) < k ensures !AnyIn(c, KeywordsOf(st)) {
      }
    case None =>
      forall st: Status ensures !AnyIn(c, KeywordsOf(st)) {
        assert !AnyIn(c, StatusTable[Rank(st)].1);
      }
  }

  /** A keyword of an earlier status rules out every later one. */
  lemma EarlierStatusWins(c: string, a: Status, b: Status)
    requires Rank(a) < Rank(b) && AnyIn(c, KeywordsOf(a))
    ensures PickBestStatus(c) != b
  {
    PickBestStatusSpec(c);
  }

  /** "applied" anywhere makes the message an application receipt, whatever else it says. */
  lemma AppliedFirst(c: string)
    requires Contains(c, "applied")
    ensures PickBestStatus(c) == Applied
  {
    assert "applied" in KeywordsOf(Applied);
    PickBestStatusSpec(c);
  }

  /** A rejection that mentions an offer is classified as an `Offer`: the offer row comes
      before the rejection row in the table. */
  lemma OfferBeforeRejected(c: string)
    requires Contains(c, "offer") && Contains(c, "unfortunately")
    ensures PickBestStatus(c) != Rejected
  {
    assert "offer" in KeywordsOf(Offer);
    EarlierStatusWins(c, Offer, Rejected);
  }

  /** `statusMatched` holds exactly when some keyword of some status occurs; when it fails the
      status is the `InReview` default. */
  lemma StatusMatchedIff(c: string)
    ensures StatusMatched(c) <==> AnyStatusHits(c)
    ensures !StatusMatched(c) ==> PickBestStatus(c) == InReview
  {
    PickBestStatusSpec(c);
  }

  // ---------------------------------------------------------------------------------------
  // decideEventType

  /** The overrides apply in their fixed order, before the status default. */
  lemma EventOverrideOrder(st: Status, c: string)
    ensures Contains(c, "interview") && Contains(c, "scheduled") ==>
              DecideEventType(st, c) == InterviewScheduled
    ensures !(Contains(c, "interview") && Contains(c, "scheduled")) && Contains(c, "assessment") ==>
              DecideEventType(st, c) == AssessmentAssigned
    ensures (!(Contains(c, "interview") && Contains(c, "scheduled")) && !Contains(c, "assessment")
             && Contains(c, "offer")) ==> DecideEventType(st, c) == OfferReceived
    ensures (!(Contains(c, "interview") && Contains(c, "scheduled")) && !Contains(c, "assessment")
             && !Contains(c, "offer") && Contains(c, "phone screen")) ==>
              DecideEventType(st, c) == PhoneScreenScheduled
    ensures (!(Contains(c, "interview") && Contains(c, "scheduled")) && !Contains(c, "assessment")
             && !Contains(c, "offer") && !Contains(c, "phone screen")) ==>
              DecideEventType(st, c) == DefaultEvent(st)
  {
  }

  /** The event types the classifier can produce. */
  const EventTypes: set<string> := {InterviewScheduled, AssessmentAssigned, OfferReceived,
    PhoneScreenScheduled, ApplicationSubmitted, StatusUpdate, Rejection, Withdrawal}

  lemma EventTypeKnown(st: Status, c: string)
    ensures DecideEventType(st, c) in EventTypes
  {
  }

  /** Once an override fires the status no longer matters. */
  lemma OverrideIgnoresStatus(a: Status, b: Status, c: string)
    requires OverrideEvent(c).Some?
    ensures DecideEventType(a, c) == DecideEventType(b, c)
  {
  }

  // ---------------------------------------------------------------------------------------
  // detectSource

  /** Every catalogue label has an upper-case letter. */
  lemma LabelsNotLower()
    ensures forall k :: 0 <= k < |AtsTable| ==> !IsLower(AtsTable[k].0)
  {
    forall k | 0 <= k < |AtsTable| ensures !IsLower(AtsTable[k].0) {
      var name := AtsTable[k].0;
      if k == 6 {
        assert IsUpper(name[1]);
      } else {
        assert IsUpper(name[0]);
      }
    }
  }

  /** `detectSource` names the first catalogue entry that some header domain hits; when none
      does, the answer is "email" or a lower-case slice of the lower-cased From, Return-Path or
      Sender text, and then never a catalogue label. */
  lemma DetectSourceSpec(headers: Option<Headers>, o: Oracles)
    ensures var ds := DomainsOf(headers, o);
            forall k :: 0 <= k < |AtsTable| && EntryHits(AtsTable[k].1, ds)
                        && (forall j :: 0 <= j < k ==> !EntryHits(AtsTable[j].1, ds)) ==>
              DetectSource(headers, o) == AtsTable[k].0
    ensures var ds := DomainsOf(headers, o);
            (forall k :: 0 <= k < |AtsTable| ==> !EntryHits(AtsTable[k].1, ds)) ==>
              !KnownSource(DetectSource(headers, o))
              && (DetectSource(headers, o) == "email" || FallbackSlice(headers, DetectSource(headers, o)))
  {
    var ds := DomainsOf(headers, o);
    forall k | 0 <= k < |AtsTable| && EntryHits(AtsTable[k].1, ds)
                 && (forall j :: 0 <= j < k ==> !EntryHits(AtsTable[j].1, ds))
      ensures DetectSource(headers, o) == AtsTable[k].0
    {
      FirstAtsHitUnique(AtsTable, ds, k);
    }
    if FirstAtsHit(AtsTable, ds).None? {
      DetectFallback(headers, o);
    }
  }

  /** An entry that hits, with no earlier entry hitting, is the one the scan finds. */
  lemma FirstAtsHitUnique(table: seq<(string, seq<string>)>, ds: seq<string>, k: nat)
    requires k < |table| && EntryHits(table[k].1, ds)
    requires forall j :: 0 <= j < k ==> !EntryHits(table[j].1, ds)
    ensures FirstAtsHit(table, ds) == Some(k)
  {
  }

  /** No lower-case text is a catalogue label. */
  lemma LowerIsNotLabel(r: string)
    requires IsLower(r)
    ensures !KnownSource(r)
  {
    LabelsNotLower();
  }

  /** `r` is a slice of the lower-cased From, Return-Path or Sender text. */
  predicate FallbackSlice(headers: Option<Headers>, r: string) {
    var from := FromText(headers);
    Truthy(from) && exists i, j :: 0 <= i < j <= |from.value| && r == Lower(from.value)[i..j]
  }

  lemma DetectFallback(headers: Option<Headers>, o: Oracles)
    ensures !KnownSource(FallbackSource(headers, o))
    ensures FallbackSource(headers, o) == "email" || FallbackSlice(headers, FallbackSource(headers, o))
  {
    var r := FallbackSource(headers, o);
    if r != "email" {
      var from := FromText(headers).value;
      var span := o.firstDomain(Lower(from)).value;
      LowerSlice(from, span.0, span.1);
    } else {
      assert IsLower(r);
    }
    LowerIsNotLabel(r);
  }

  /** The catalogue bonus is earned exactly when some header domain hits the catalogue. */
  lemma KnownSourceIff(headers: Option<Headers>, o: Oracles)
    ensures KnownSource(DetectSource(headers, o)) <==>
              exists k :: 0 <= k < |AtsTable| && EntryHits(AtsTable[k].1, DomainsOf(headers, o))
  {
    DetectSourceSpec(headers, o);
    match FirstAtsHit(AtsTable, DomainsOf(headers, o))
    case Some(k) =>
      assert AtsLabels()[k] == AtsTable[k].0;
    case None =>
  }

  // ---------------------------------------------------------------------------------------
  // computeConfidence

  lemma ConfidenceBounds(source: string, matched: bool, role: Option<string>, company: Option<string>)
    ensures 30 <= Confidence(source, matched, role, company) <= 100
  {
  }

  /** The clamp at 100 never fires: the five terms add up to at most 100. */
  lemma ConfidenceNoClamp(source: string, matched: bool, role: Option<string>, company: Option<string>)
    ensures Confidence(source, matched, role, company)
            == 30 + (if KnownSource(source) then 25 else 0) + (if matched then 25 else 0)
               + (if Truthy(role) then 10 else 0) + (if Truthy(company) then 10 else 0)
  {
  }

  /** Each factor strictly raises the score, whatever the others are. */
  lemma ConfidenceFactorsRaise(source: string, other: string, matched: bool,
                               role: Option<string>, company: Option<string>)
    ensures KnownSource(source) && !KnownSource(other) ==>
              Confidence(other, matched, role, company) < Confidence(source, matched, role, company)
    ensures Confidence(source, false, role, company) < Confidence(source, true, role, company)
    ensures Truthy(role) ==> Confidence(source, matched, None, company) < Confidence(source, matched, role, company)
    ensures Truthy(company) ==> Confidence(source, matched, role, None) < Confidence(source, matched, role, company)
  {
  }

  // ---------------------------------------------------------------------------------------
  // parseGmailMessage

  /** What a parsed event always satisfies. */
  lemma ParseMessageFacts(input: RawInput, o: Oracles, now: int)
    ensures var e := ParseMessage(input, o, now);
            && e.status != Ghosted
            && (!StatusMatched(ContentOf(input)) ==> e.status == InReview)
            && e.eventType in EventTypes
            && 30 <= e.confidence <= 100
            && (KnownSource(e.source) ==> e.confidence >= 55)
            && (o.date(input.headers).None? ==> e.eventDate == now)
            && (o.date(input.headers).Some? ==> e.eventDate == o.date(input.headers).value)
            && (e.role.Some? && e.role.value != [] ==>
                  !IsDash(e.role.value[0]) && !IsDash(e.role.value[|e.role.value| - 1]))
  {
    var e := ParseMessage(input, o, now);
    var c := ContentOf(input);
    PickBestStatusSpec(c);
    StatusMatchedIff(c);
    EventTypeKnown(e.status, c);
    match o.roleCapture(input.subject.GetOr(""), input.snippet.GetOr("") + " " + input.text.GetOr(""))
    case Some(raw) =>
      var _ := CleanRoleSlice(raw);
    case None =>
  }
}
