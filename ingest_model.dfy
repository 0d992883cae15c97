/** What one `POST` to src/app/api/ingest/route.ts does to the store, as functions of the
    store's tables before the run: the unseen filter, the per-message writes (job upsert by
    dedupe hash, event append, message record), the per-account listing and the run over
    the user's accounts with its counters.

    Everything the route cannot compute is in `Effects`: the scripted provider, the
    gate's token calls, the body decoder, the classifier's oracles, `makeDedupeKey`, the
    clock, and how many of a message's four store operations complete before one throws. */
module IngestModel {
  import opened Wrappers
  import opened Statuses
  import opened Store
  import opened MessageParser
  import opened IngestContent
  import opened Listing
  import opened Gmail

  datatype Effects = Effects(
    listScript: seq<ListReply>, getScript: seq<GetReply>,
    tokens: TokenOracles,
    clientId: Option<string>, clientSecret: Option<string>,
    text: TextOracles,
    store: StoreOracles,
    now: int, nowIso: string)

  /** The outcomes of the token calls. */
  datatype TokenOracles = TokenOracles(
    refreshOk: nat -> bool,                  // the k-th in-loop `ensureFreshAccessToken`
    tokenOk: nat -> nat -> bool)             // the client gate's token calls, per account id

  /** The decoding and pattern work on a message's text. */
  datatype TextOracles = TextOracles(
    decode: string -> Option<string>,        // base64 then UTF-8 (`None`: it threw)
    parser: Oracles)

  /** The key derivation and how far each message's writes get. */
  datatype StoreOracles = StoreOracles(
    dedupe: (string, string, nat) -> (string, string),  // `makeDedupeKey`: (raw, hash)
    writesDone: nat -> nat)                  // store operations completed for the k-th fetched message

  /** The tables a run touches. */
  datatype Tables = Tables(
    accounts: map<nat, EmailAccount>, jobs: map<nat, JobApplication>, nextJobId: nat,
    messages: map<(nat, string), EmailMessage>, events: seq<ApplicationEvent>)

  /** The unique indexes and id counters. */
  predicate TablesValid(t: Tables) {
    && (forall id :: id in t.jobs ==> id < t.nextJobId)
    && UniqueHashes(t.jobs)
    && UniqueConnections(t.accounts)
  }

  /** The counters one message or one run adds. */
  datatype Delta = Delta(parsed: nat, created: nat, updated: nat, events: nat)

  const NoDelta := Delta(0, 0, 0, 0)

  function AddDelta(a: Delta, b: Delta): Delta {
    Delta(a.parsed + b.parsed, a.created + b.created, a.updated + b.updated, a.events + b.events)
  }

  lemma AddNoDelta(a: Delta)
    ensures AddDelta(a, NoDelta) == a && AddDelta(NoDelta, a) == a
  {
  }

  lemma AddDeltaAssoc(a: Delta, b: Delta, c: Delta)
    ensures AddDelta(a, AddDelta(b, c)) == AddDelta(AddDelta(a, b), c)
  {
  }

  /** `eventsCreated ≤ jobsCreated + jobsUpdated ≤ messagesParsed ≤ bound`. */
  predicate Chained(d: Delta, bound: nat) {
    d.events <= d.created + d.updated <= d.parsed <= bound
  }

  // ---------------------------------------------------------------------------------------
  // The unseen filter

  /** `allMessageRefs.filter((r) => !seen.has(r.id))`. */
  function Unseen(refs: seq<MessageRef>, accountId: nat, messages: map<(nat, string), EmailMessage>): (r: seq<MessageRef>)
    ensures |r| <= |refs|
  {
    if refs == [] then []
    else (if (accountId, refs[0].id) in messages then [] else [refs[0]]) + Unseen(refs[1..], accountId, messages)
  }

  /** The filter keeps listing order. */
  lemma {:induction false} UnseenAppend(a: seq<MessageRef>, b: seq<MessageRef>, accountId: nat,
                                        messages: map<(nat, string), EmailMessage>)
    ensures Unseen(a + b, accountId, messages) == Unseen(a, accountId, messages) + Unseen(b, accountId, messages)
    decreases |a|
  {
    if a == [] {
      assert a + b == b;
    } else {
      assert (a + b)[1..] == a[1..] + b;
      UnseenAppend(a[1..], b, accountId, messages);
    }
  }

  /** A listed ref is unseen exactly when its message is not recorded for the account. */
  lemma {:induction false} UnseenMembers(refs: seq<MessageRef>, accountId: nat,
                                         messages: map<(nat, string), EmailMessage>, m: MessageRef)
    ensures m in Unseen(refs, accountId, messages) <==> m in refs && (accountId, m.id) !in messages
    decreases |refs|
  {
    if refs != [] {
      UnseenMembers(refs[1..], accountId, messages, m);
      assert m in refs <==> m == refs[0] || m in refs[1..];
    }
  }

  // ---------------------------------------------------------------------------------------
  // One message

  function Subject(msg: GmailMessage): Option<string> {
    FindHeader(Some(msg.headers), "Subject")
  }

  /** `new Date(msg.internalDate ? Number(msg.internalDate) : Date.now())`. */
  function ReceivedAt(msg: GmailMessage, now: int): int {
    msg.internalDate.GetOr(now)
  }

  /** The classification of a fetched message. */
  function Classify(msg: GmailMessage, eff: Effects): ParsedEvent {
    ParseMessage(RawInput(Subject(msg), Some(AsHeaders(HeadersRecord(msg.headers))), msg.snippet,
                          ExtractText(msg.payload, eff.text.decode)),
                 eff.text.parser, eff.now)
  }

  /** The `create` branch of the job upsert. */
  function NewJob(userId: string, accountId: nat, p: ParsedEvent, raw: string, hash: string): (j: JobApplication)
    ensures j.company == (if p.company.Some? then p.company.value else "Unknown")
    ensures j.role == (if p.role.Some? then p.role.value else "Unknown")
    ensures j.appliedAt.Some? <==> p.status == Applied
    ensures j.appliedAt.Some? ==> j.appliedAt.value == p.eventDate
    ensures j.userId == userId && j.accountId == accountId && j.dedupeHash == hash && j.dedupeRaw == raw
    ensures j.status == p.status && j.source == p.source && j.lastUpdateAt == p.eventDate
  {
    JobApplication(userId, accountId, p.company.GetOr("Unknown"), p.role.GetOr("Unknown"), p.source,
                   p.status, if p.status == Applied then Some(p.eventDate) else None,
                   p.eventDate, p.confidence, raw, hash)
  }

  /** The `update` branch: status, source, confidence and last update are overwritten; an
      absent company or role keeps the stored one; owner, account, application date and
      dedupe key are untouched. */
  function UpdatedJob(j: JobApplication, p: ParsedEvent): (r: JobApplication)
    ensures r.company == (if p.company.Some? then p.company.value else j.company)
    ensures r.role == (if p.role.Some? then p.role.value else j.role)
    ensures r.status == p.status && r.source == p.source && r.confidence == p.confidence
    ensures r.lastUpdateAt == p.eventDate
    ensures r.userId == j.userId && r.accountId == j.accountId && r.appliedAt == j.appliedAt
    ensures r.dedupeRaw == j.dedupeRaw && r.dedupeHash == j.dedupeHash
  {
    j.(company := p.company.GetOr(j.company), role := p.role.GetOr(j.role), source := p.source,
       status := p.status, lastUpdateAt := p.eventDate, confidence := p.confidence)
  }

  /** The message row recorded for a processed ref. */
  function Record(ref: MessageRef, msg: GmailMessage, now: int): EmailMessage {
    EmailMessage(ref.threadId, Subject(msg), ReceivedAt(msg, now), msg.snippet, HeadersRecord(msg.headers), true)
  }

  datatype Written = Written(t: Tables, d: Delta)

  /** The write of the job: the existing row with the hash is updated, else a row is created. */
  function UpsertJob(t: Tables, userId: string, accountId: nat, p: ParsedEvent, raw: string, hash: string): Tables {
    match FindJob(t.jobs, hash, t.nextJobId)
    case Some(id) => t.(jobs := t.jobs[id := UpdatedJob(t.jobs[id], p)])
    case None => t.(jobs := t.jobs[t.nextJobId := NewJob(userId, accountId, p, raw, hash)], nextJobId := t.nextJobId + 1)
  }

  /** The body of the per-message `try` after the fetch, when `writes` store operations
      (the `findUnique`, the upsert, the event, the message record) complete. */
  function Ingested(t: Tables, userId: string, accountId: nat, ref: MessageRef, msg: GmailMessage,
                    p: ParsedEvent, key: (string, string), writes: nat, now: int): Written
  {
    var pre := FindJob(t.jobs, key.1, t.nextJobId);
    var jobId := if pre.Some? then pre.value else t.nextJobId;
    var t1 := UpsertJob(t, userId, accountId, p, key.0, key.1);
    var d1 := if pre.Some? then Delta(1, 0, 1, 0) else Delta(1, 1, 0, 0);
    var t2 := t1.(events := t1.events + [ApplicationEvent(jobId, p.eventType, p.eventDate, ref.id, ref.threadId, Subject(msg))]);
    if writes < 2 then Written(t, Delta(1, 0, 0, 0))
    else if writes < 3 then Written(t1, d1)
    else if writes < 4 then Written(t2, d1.(events := 1))
    else Written(t2.(messages := t2.messages[(accountId, ref.id) := Record(ref, msg, now)]), d1.(events := 1))
  }

  /** A fetched message counts as parsed; a job counts only once written, and an event only
      once appended. */
  lemma IngestedCounts(t: Tables, userId: string, accountId: nat, ref: MessageRef, msg: GmailMessage,
                       p: ParsedEvent, key: (string, string), writes: nat, now: int)
    ensures var w := Ingested(t, userId, accountId, ref, msg, p, key, writes, now);
            && Chained(w.d, 1) && w.d.parsed == 1
            && (w.d.created + w.d.updated == 1 <==> writes >= 2)
            && (w.d.events == 1 <==> writes >= 3)
  {
  }

  /** The job write: the row holding the dedupe hash is updated in place, and only when no
      row holds it is one created, under the next id. */
  lemma IngestedJob(t: Tables, userId: string, accountId: nat, ref: MessageRef, msg: GmailMessage,
                    p: ParsedEvent, key: (string, string), writes: nat, now: int)
    requires TablesValid(t) && writes >= 2
    ensures var w := Ingested(t, userId, accountId, ref, msg, p, key, writes, now);
            if exists id :: id in t.jobs && t.jobs[id].dedupeHash == key.1 then
              w.d.updated == 1 && w.t.nextJobId == t.nextJobId
              && forall id :: id in t.jobs ==>
                   w.t.jobs[id] == (if t.jobs[id].dedupeHash == key.1 then UpdatedJob(t.jobs[id], p) else t.jobs[id])
            else
              w.d.created == 1 && w.t.nextJobId == t.nextJobId + 1
              && w.t.jobs == t.jobs[t.nextJobId := NewJob(userId, accountId, p, key.0, key.1)]
  {
    IngestedUpsert(t, userId, accountId, ref, msg, p, key, writes, now);
    var t1 := UpsertJob(t, userId, accountId, p, key.0, key.1);
    if exists id :: id in t.jobs && t.jobs[id].dedupeHash == key.1 {
      var id :| id in t.jobs && t.jobs[id].dedupeHash == key.1;
      var found := FindJob(t.jobs, key.1, t.nextJobId);
      assert found.Some?;
      assert found.value == id;
      assert t1.jobs == t.jobs[id := UpdatedJob(t.jobs[id], p)];
    }
  }

  /** From the second write on, the jobs and the job counters are those of the upsert. */
  lemma IngestedUpsert(t: Tables, userId: string, accountId: nat, ref: MessageRef, msg: GmailMessage,
                       p: ParsedEvent, key: (string, string), writes: nat, now: int)
    requires writes >= 2
    ensures var w := Ingested(t, userId, accountId, ref, msg, p, key, writes, now);
            var t1 := UpsertJob(t, userId, accountId, p, key.0, key.1);
            && w.t.jobs == t1.jobs && w.t.nextJobId == t1.nextJobId
            && (FindJob(t.jobs, key.1, t.nextJobId).Some? ==> w.d.updated == 1)
            && (FindJob(t.jobs, key.1, t.nextJobId).None? ==> w.d.created == 1)
  {
  }

  /** The event appended names the message and the job it updated or created. */
  lemma IngestedEvent(t: Tables, userId: string, accountId: nat, ref: MessageRef, msg: GmailMessage,
                      p: ParsedEvent, key: (string, string), writes: nat, now: int)
    requires writes >= 3
    ensures var w := Ingested(t, userId, accountId, ref, msg, p, key, writes, now);
            && |w.t.events| == |t.events| + 1 && w.t.events[..|t.events|] == t.events
            && var ev := w.t.events[|t.events|];
               && ev.messageId == ref.id && ev.threadId == ref.threadId && ev.subject == Subject(msg)
               && ev.eventType == p.eventType && ev.occurredAt == p.eventDate
               && ev.jobId in w.t.jobs
  {
    var w := Ingested(t, userId, accountId, ref, msg, p, key, writes, now);
    assert w.t.events[..|t.events|] == t.events;
  }

  /** Only a message whose every write succeeded is recorded, and it is recorded as parsed. */
  lemma IngestedRecords(t: Tables, userId: string, accountId: nat, ref: MessageRef, msg: GmailMessage,
                        p: ParsedEvent, key: (string, string), writes: nat, now: int)
    ensures var w := Ingested(t, userId, accountId, ref, msg, p, key, writes, now);
            && (writes >= 4 ==> w.t.messages == t.messages[(accountId, ref.id) := Record(ref, msg, now)])
            && (writes < 4 ==> w.t.messages == t.messages)
            && w.t.accounts == t.accounts
  {
  }

  /** The job upsert keeps the unique hash index and the id counter. */
  lemma UpsertJobValid(t: Tables, userId: string, accountId: nat, p: ParsedEvent, raw: string, hash: string)
    requires TablesValid(t)
    ensures var t1 := UpsertJob(t, userId, accountId, p, raw, hash);
            && TablesValid(t1) && t.jobs.Keys <= t1.jobs.Keys
            && t1.accounts == t.accounts && t1.messages == t.messages && t1.events == t.events
  {
    var pre := FindJob(t.jobs, hash, t.nextJobId);
    if pre.None? {
      assert forall id :: id in t.jobs ==> t.jobs[id].dedupeHash != hash;
    }
  }

  /** The writes keep the unique hash index, the id counter, and what was recorded before. */
  lemma IngestedValid(t: Tables, userId: string, accountId: nat, ref: MessageRef, msg: GmailMessage,
                      p: ParsedEvent, key: (string, string), writes: nat, now: int)
    requires TablesValid(t)
    ensures var w := Ingested(t, userId, accountId, ref, msg, p, key, writes, now);
            && TablesValid(w.t)
            && t.messages.Keys <= w.t.messages.Keys && t.events <= w.t.events
            && t.jobs.Keys <= w.t.jobs.Keys
  {
    UpsertJobValid(t, userId, accountId, p, key.0, key.1);
  }

  /** `makeDedupeKey(parsed.company ?? '', parsed.role ?? '', account.id)`. */
  function DedupeKey(p: ParsedEvent, accountId: nat, eff: Effects): (string, string) {
    eff.store.dedupe(p.company.GetOr(""), p.role.GetOr(""), accountId)
  }

  /** The writes for the `k`-th fetched message of the run, classified by `classify`. */
  function IngestOne(t: Tables, userId: string, accountId: nat, ref: MessageRef, msg: GmailMessage,
                     eff: Effects, classify: GmailMessage -> ParsedEvent, k: nat): Written {
    Ingested(t, userId, accountId, ref, msg, classify(msg), DedupeKey(classify(msg), accountId, eff),
             eff.store.writesDone(k), eff.now)
  }

  // ---------------------------------------------------------------------------------------
  // One account's unseen refs

  /** Where the run is in the provider's scripts and oracles. */
  datatype Cursor = Cursor(listPos: nat, getPos: nat, refreshes: nat, fetchedCount: nat, delays: seq<nat>)

  datatype RefsEnd = RefsEnd(t: Tables, c: Cursor, d: Delta)

  /** The writes for one fetched message: the tables, the ref, the message, and how many
      messages were fetched before it in the run. */
  type Ingest = (Tables, MessageRef, GmailMessage, nat) -> Written

  /** The writes `IngestOne` makes for an account's messages. */
  function MessageIngest(userId: string, accountId: nat, eff: Effects, classify: GmailMessage -> ParsedEvent): Ingest {
    (t: Tables, ref: MessageRef, msg: GmailMessage, k: nat) => IngestOne(t, userId, accountId, ref, msg, eff, classify, k)
  }

  /** A `fetchMessageWithRetry` from a cursor's place in the provider's script: the
      script position, the refreshes so far, and the backoff delays so far. */
  type Fetch = (nat, nat, seq<nat>) -> GetEnd

  /** The fetch the run makes, against the run's script and refresh outcomes. */
  function MessageFetch(eff: Effects): Fetch {
    (pos: nat, refreshes: nat, delays: seq<nat>) => GetRun(eff.getScript, eff.tokens.refreshOk, pos, refreshes, 0, delays)
  }

  /** One turn of the `for (const ref of unseenRefs)` loop: the fetch with its retries,
      then the writes; a failed fetch skips the message and nothing of it is counted. */
  function RefStep(t: Tables, c: Cursor, ref: MessageRef, fetch: Fetch, ingest: Ingest): RefsEnd {
    var g := fetch(c.getPos, c.refreshes, c.delays);
    var c1 := c.(getPos := g.pos, refreshes := g.refreshes, delays := g.delays);
    if g.msg.None? then RefsEnd(t, c1, NoDelta)
    else
      var w := ingest(t, ref, g.msg.value, c.fetchedCount);
      RefsEnd(w.t, c1.(fetchedCount := c.fetchedCount + 1), w.d)
  }

  /** The whole loop: each ref's turn from where the previous one left off, the counters
      summed. */
  function IngestRefs(t: Tables, c: Cursor, refs: seq<MessageRef>, fetch: Fetch, ingest: Ingest): RefsEnd
    decreases |refs|
  {
    if refs == [] then RefsEnd(t, c, NoDelta)
    else
      var s := RefStep(t, c, refs[0], fetch, ingest);
      var r := IngestRefs(s.t, s.c, refs[1..], fetch, ingest);
      RefsEnd(r.t, r.c, AddDelta(s.d, r.d))
  }

  /** Over a loop, events ≤ jobs written ≤ messages parsed ≤ refs, when each message's
      writes chain within one. */
  lemma {:induction false} IngestRefsCounts(t: Tables, c: Cursor, refs: seq<MessageRef>, fetch: Fetch, ingest: Ingest)
    requires forall t', ref, msg, k :: Chained(ingest(t', ref, msg, k).d, 1)
    ensures Chained(IngestRefs(t, c, refs, fetch, ingest).d, |refs|)
    decreases |refs|
  {
    if refs != [] {
      var s := RefStep(t, c, refs[0], fetch, ingest);
      assert Chained(s.d, 1);
      IngestRefsCounts(s.t, s.c, refs[1..], fetch, ingest);
    }
  }

  /** What one message's writes must keep: valid tables, every record and event, and the
      accounts. */
  predicate WritesKeep(t: Tables, t1: Tables) {
    && TablesValid(t1)
    && t.messages.Keys <= t1.messages.Keys && t.events <= t1.events
    && t1.accounts == t.accounts
  }

  /** Over a loop the tables stay valid, keep what they held, and the accounts are untouched,
      when each message's writes do so. */
  lemma {:induction false} IngestRefsTables(t: Tables, c: Cursor, refs: seq<MessageRef>, fetch: Fetch, ingest: Ingest)
    requires TablesValid(t)
    requires forall t', ref, msg, k :: TablesValid(t') ==> WritesKeep(t', ingest(t', ref, msg, k).t)
    ensures WritesKeep(t, IngestRefs(t, c, refs, fetch, ingest).t)
    decreases |refs|
  {
    if refs != [] {
      var s := RefStep(t, c, refs[0], fetch, ingest);
      assert WritesKeep(t, s.t);
      IngestRefsTables(s.t, s.c, refs[1..], fetch, ingest);
    }
  }

  /** Over a loop the accounts are untouched, when each message's writes leave them. */
  lemma {:induction false} IngestRefsAccounts(t: Tables, c: Cursor, refs: seq<MessageRef>, fetch: Fetch, ingest: Ingest)
    requires forall t', ref, msg, k :: ingest(t', ref, msg, k).t.accounts == t'.accounts
    ensures IngestRefs(t, c, refs, fetch, ingest).t.accounts == t.accounts
    decreases |refs|
  {
    if refs != [] {
      var s := RefStep(t, c, refs[0], fetch, ingest);
      var g := fetch(c.getPos, c.refreshes, c.delays);
      if g.msg.Some? {
        assert s.t.accounts == ingest(t, refs[0], g.msg.value, c.fetchedCount).t.accounts;
      }
      assert s.t.accounts == t.accounts;
      IngestRefsAccounts(s.t, s.c, refs[1..], fetch, ingest);
    }
  }

  /** Each message's writes chain within one and keep the tables, the records and the
      accounts. */
  lemma MessageIngestFacts(userId: string, accountId: nat, eff: Effects, classify: GmailMessage -> ParsedEvent)
    ensures var ingest := MessageIngest(userId, accountId, eff, classify);
            && (forall t', ref, msg, k :: Chained(ingest(t', ref, msg, k).d, 1))
            && (forall t', ref, msg, k :: TablesValid(t') ==> WritesKeep(t', ingest(t', ref, msg, k).t))
            && (forall t', ref, msg, k :: ingest(t', ref, msg, k).t.accounts == t'.accounts)
  {
    var ingest := MessageIngest(userId, accountId, eff, classify);
    forall t', ref, msg, k ensures Chained(ingest(t', ref, msg, k).d, 1) {
      IngestedCounts(t', userId, accountId, ref, msg, classify(msg), DedupeKey(classify(msg), accountId, eff),
                     eff.store.writesDone(k), eff.now);
    }
    forall t', ref, msg, k | TablesValid(t') ensures WritesKeep(t', ingest(t', ref, msg, k).t) {
      IngestedValid(t', userId, accountId, ref, msg, classify(msg), DedupeKey(classify(msg), accountId, eff),
                    eff.store.writesDone(k), eff.now);
      IngestedRecords(t', userId, accountId, ref, msg, classify(msg), DedupeKey(classify(msg), accountId, eff),
                      eff.store.writesDone(k), eff.now);
    }
    forall t', ref, msg, k ensures ingest(t', ref, msg, k).t.accounts == t'.accounts {
      IngestedRecords(t', userId, accountId, ref, msg, classify(msg), DedupeKey(classify(msg), accountId, eff),
                      eff.store.writesDone(k), eff.now);
    }
  }

  // ---------------------------------------------------------------------------------------
  // One account

  /** `{ ...account.metadata, lastPollAt: new Date().toISOString() }`, from the row read at
      the start of the run. */
  function Polled(a: EmailAccount, nowIso: string): EmailAccount {
    a.(metadata := a.metadata["lastPollAt" := nowIso])
  }

  datatype AccountEnd = AccountEnd(t: Tables, c: Cursor, fetched: nat, unseen: nat, d: Delta)

  /** The listing, the unseen filter, the messages, and the poll-time update of one account
      whose client was built. */
  function AccountRun(t: Tables, a: EmailAccount, userId: string, accountId: nat, c: Cursor, eff: Effects,
                      classify: GmailMessage -> ParsedEvent): AccountEnd {
    var l := ListRun(ListStart(c.listPos, c.refreshes), eff.listScript, eff.tokens.refreshOk).state;
    var c1 := c.(listPos := l.pos, refreshes := l.refreshes, delays := c.delays + l.delays);
    if l.refs == [] then
      AccountEnd(t.(accounts := t.accounts[accountId := Polled(a, eff.nowIso)]), c1, l.fetched, 0, NoDelta)
    else
      var u := Unseen(l.refs, accountId, t.messages);
      var r := IngestRefs(t, c1, u, MessageFetch(eff), MessageIngest(userId, accountId, eff, classify));
      AccountEnd(r.t.(accounts := r.t.accounts[accountId := Polled(a, eff.nowIso)]), r.c, l.fetched, |u|, r.d)
  }

  /** The poll-time update keeps everything the unique connection index looks at. */
  lemma PolledKeepsConnection(accounts: map<nat, EmailAccount>, id: nat, nowIso: string)
    requires id in accounts && UniqueConnections(accounts)
    ensures UniqueConnections(accounts[id := Polled(accounts[id], nowIso)])
  {
  }

  /** An account's counters chain up to its unseen refs, and its fetched count is every ref
      listed. */
  lemma AccountRunCounts(t: Tables, a: EmailAccount, userId: string, accountId: nat, c: Cursor, eff: Effects,
                         classify: GmailMessage -> ParsedEvent)
    ensures var e := AccountRun(t, a, userId, accountId, c, eff, classify);
            Chained(e.d, e.unseen) && e.unseen <= e.fetched
  {
    var l := ListRun(ListStart(c.listPos, c.refreshes), eff.listScript, eff.tokens.refreshOk).state;
    var c1 := c.(listPos := l.pos, refreshes := l.refreshes, delays := c.delays + l.delays);
    if l.refs != [] {
      var u := Unseen(l.refs, accountId, t.messages);
      MessageIngestFacts(userId, accountId, eff, classify);
      IngestRefsCounts(t, c1, u, MessageFetch(eff), MessageIngest(userId, accountId, eff, classify));
    }
  }

  /** An account's run keeps the tables valid and what they recorded. */
  lemma AccountRunTables(t: Tables, a: EmailAccount, userId: string, accountId: nat, c: Cursor, eff: Effects,
                         classify: GmailMessage -> ParsedEvent)
    requires TablesValid(t) && accountId in t.accounts && t.accounts[accountId] == a
    ensures var e := AccountRun(t, a, userId, accountId, c, eff, classify);
            && TablesValid(e.t)
            && t.messages.Keys <= e.t.messages.Keys && t.events <= e.t.events
  {
    var l := ListRun(ListStart(c.listPos, c.refreshes), eff.listScript, eff.tokens.refreshOk).state;
    var c1 := c.(listPos := l.pos, refreshes := l.refreshes, delays := c.delays + l.delays);
    PolledKeepsConnection(t.accounts, accountId, eff.nowIso);
    if l.refs != [] {
      var u := Unseen(l.refs, accountId, t.messages);
      MessageIngestFacts(userId, accountId, eff, classify);
      IngestRefsTables(t, c1, u, MessageFetch(eff), MessageIngest(userId, accountId, eff, classify));
    }
  }

  /** Of the accounts, an account's run changes only its own row, to the row it was given
      with the poll time set. */
  lemma AccountRunPolls(t: Tables, a: EmailAccount, userId: string, accountId: nat, c: Cursor, eff: Effects,
                        classify: GmailMessage -> ParsedEvent)
    ensures AccountRun(t, a, userId, accountId, c, eff, classify).t.accounts
            == t.accounts[accountId := Polled(a, eff.nowIso)]
  {
    var l := ListRun(ListStart(c.listPos, c.refreshes), eff.listScript, eff.tokens.refreshOk).state;
    var c1 := c.(listPos := l.pos, refreshes := l.refreshes, delays := c.delays + l.delays);
    if l.refs != [] {
      var u := Unseen(l.refs, accountId, t.messages);
      MessageIngestFacts(userId, accountId, eff, classify);
      IngestRefsAccounts(t, c1, u, MessageFetch(eff), MessageIngest(userId, accountId, eff, classify));
    }
  }

  /** A ref already recorded for the account is not processed again. */
  lemma RecordedNeverReprocessed(t: Tables, accountId: nat, refs: seq<MessageRef>, m: MessageRef)
    requires (accountId, m.id) in t.messages
    ensures m !in Unseen(refs, accountId, t.messages)
  {
    UnseenMembers(refs, accountId, t.messages, m);
  }

  /** A message whose writes all succeed is recorded, so any later listing of it for the
      same account filters it out. */
  lemma SucceededThenFiltered(t: Tables, userId: string, accountId: nat, ref: MessageRef, msg: GmailMessage,
                              p: ParsedEvent, key: (string, string), writes: nat, now: int,
                              later: seq<MessageRef>, m: MessageRef)
    requires writes >= 4 && m.id == ref.id
    ensures var w := Ingested(t, userId, accountId, ref, msg, p, key, writes, now);
            w.t.messages[(accountId, ref.id)].parsed && m !in Unseen(later, accountId, w.t.messages)
  {
    IngestedRecords(t, userId, accountId, ref, msg, p, key, writes, now);
    var w := Ingested(t, userId, accountId, ref, msg, p, key, writes, now);
    RecordedNeverReprocessed(w.t, accountId, later, m);
  }

  // ---------------------------------------------------------------------------------------
  // The run

  datatype Stats = Stats(accountsProcessed: nat, messagesFetched: nat, messagesParsed: nat,
                         jobsCreated: nat, jobsUpdated: nat, eventsCreated: nat)

  const NoStats := Stats(0, 0, 0, 0, 0, 0)

  function AddAccount(s: Stats, fetched: nat, d: Delta): Stats {
    s.(messagesFetched := s.messagesFetched + fetched, messagesParsed := s.messagesParsed + d.parsed,
       jobsCreated := s.jobsCreated + d.created, jobsUpdated := s.jobsUpdated + d.updated,
       eventsCreated := s.eventsCreated + d.events)
  }

  /** The user's Gmail accounts (`findMany`), in id order. */
  function UserAccounts(accounts: map<nat, EmailAccount>, userId: string, n: nat): (ids: seq<nat>)
    ensures forall i :: 0 <= i < |ids| ==> ids[i] in accounts && ids[i] < n
    ensures forall id :: id in ids <==> id in accounts && id < n && accounts[id].userId == userId
                                        && accounts[id].provider == "gmail"
    ensures forall i, j :: 0 <= i < j < |ids| ==> ids[i] < ids[j]
    decreases n
  {
    if n == 0 then []
    else UserAccounts(accounts, userId, n - 1)
         + (if n - 1 in accounts && accounts[n - 1].userId == userId && accounts[n - 1].provider == "gmail"
            then [n - 1] else [])
  }

  /** The run's end: the tables, the cursor, the counters, the unseen refs it met, and the
      client error that aborted it, if any. */
  datatype RunEnd = RunEnd(t: Tables, c: Cursor, stats: Stats, unseen: nat, error: Option<ClientError>)

  /** The per-account client check and the per-account work, as the loop over accounts
      sees them: both are given the account row read at the start of the run. */
  type Gate = (EmailAccount, nat) -> Option<ClientError>
  type Visit = (Tables, EmailAccount, nat, Cursor) -> AccountEnd

  /** The `for (const account of accounts)` loop over the rows read at the start. A client
      that cannot be built throws out of `POST`: the accounts after it are not visited, and
      the writes for the accounts before it stay. */
  function AccountsRun(t: Tables, rows: map<nat, EmailAccount>, ids: seq<nat>, c: Cursor, s: Stats,
                       unseen: nat, gate: Gate, visit: Visit): RunEnd
    requires forall i :: 0 <= i < |ids| ==> ids[i] in rows
    decreases |ids|
  {
    if ids == [] then RunEnd(t, c, s, unseen, None)
    else
      var id := ids[0];
      var s1 := s.(accountsProcessed := s.accountsProcessed + 1);
      var err := gate(rows[id], id);
      if err.Some? then RunEnd(t, c, s1, unseen, err)
      else
        var e := visit(t, rows[id], id, c);
        AccountsRun(e.t, rows, ids[1..], e.c, AddAccount(s1, e.fetched, e.d), unseen + e.unseen, gate, visit)
  }

  /** One turn of the account loop whose client check passes. */
  lemma AccountsRunStep(t: Tables, rows: map<nat, EmailAccount>, ids: seq<nat>, c: Cursor, s: Stats,
                        unseen: nat, gate: Gate, visit: Visit)
    requires ids != [] && forall i :: 0 <= i < |ids| ==> ids[i] in rows
    requires gate(rows[ids[0]], ids[0]).None?
    ensures var e := visit(t, rows[ids[0]], ids[0], c);
            AccountsRun(t, rows, ids, c, s, unseen, gate, visit)
            == AccountsRun(e.t, rows, ids[1..], e.c, AddAccount(s.(accountsProcessed := s.accountsProcessed + 1), e.fetched, e.d),
                           unseen + e.unseen, gate, visit)
  {
  }

  /** `getGmailClient(account)` for the row read at the start; it fails with the error it throws. */
  function ClientGate(eff: Effects): Gate {
    (a: EmailAccount, id: nat) => GetGmailClient(a, eff.clientId, eff.clientSecret, eff.now, eff.tokens.tokenOk(id)).error
  }

  /** One account's listing, filter, messages and poll-time update. */
  function AccountVisit(userId: string, eff: Effects, classify: GmailMessage -> ParsedEvent): Visit {
    (t: Tables, a: EmailAccount, id: nat, c: Cursor) => AccountRun(t, a, userId, id, c, eff, classify)
  }

  /** The whole `POST` for a signed-in user over the accounts `ids`, from the tables `t` and
      the rows `rows` read at the start. */
  function IngestAll(t: Tables, rows: map<nat, EmailAccount>, userId: string, ids: seq<nat>, eff: Effects,
                     classify: GmailMessage -> ParsedEvent): RunEnd
    requires forall i :: 0 <= i < |ids| ==> ids[i] in rows
  {
    AccountsRun(t, rows, ids, Cursor(0, 0, 0, 0, []), NoStats, 0, ClientGate(eff), AccountVisit(userId, eff, classify))
  }

  predicate StatsChained(s: Stats, unseen: nat) {
    s.eventsCreated <= s.jobsCreated + s.jobsUpdated <= s.messagesParsed <= unseen <= s.messagesFetched
  }

  /** What one visit must keep for the counters to chain. */
  predicate VisitCounts(e: AccountEnd) {
    Chained(e.d, e.unseen) && e.unseen <= e.fetched
  }

  /** Across the loop: every account visited is counted, and `eventsCreated ≤ jobsCreated +
      jobsUpdated ≤ messagesParsed ≤` the unseen refs `≤ messagesFetched`, whenever each
      visit chains its own counters. */
  lemma {:induction false} AccountsRunCounts(t: Tables, rows: map<nat, EmailAccount>, ids: seq<nat>, c: Cursor,
                                             s: Stats, unseen: nat, gate: Gate, visit: Visit)
    requires StatsChained(s, unseen)
    requires forall i :: 0 <= i < |ids| ==> ids[i] in rows
    requires forall t', a, id, c' :: VisitCounts(visit(t', a, id, c'))
    ensures var e := AccountsRun(t, rows, ids, c, s, unseen, gate, visit);
            && StatsChained(e.stats, e.unseen)
            && s.accountsProcessed <= e.stats.accountsProcessed <= s.accountsProcessed + |ids|
            && (e.error.None? ==> e.stats.accountsProcessed == s.accountsProcessed + |ids|)
    decreases |ids|
  {
    if ids != [] {
      var id := ids[0];
      var s1 := s.(accountsProcessed := s.accountsProcessed + 1);
      if gate(rows[id], id).None? {
        var e := visit(t, rows[id], id, c);
        assert VisitCounts(e);
        AddAccountChained(s1, unseen, e);
        AccountsRunStep(t, rows, ids, c, s, unseen, gate, visit);
        AccountsRunCounts(e.t, rows, ids[1..], e.c, AddAccount(s1, e.fetched, e.d), unseen + e.unseen, gate, visit);
      }
    }
  }

  /** Adding a visit that chains its own counters keeps the running counters chained. */
  lemma AddAccountChained(s: Stats, unseen: nat, e: AccountEnd)
    requires StatsChained(s, unseen) && VisitCounts(e)
    ensures StatsChained(AddAccount(s, e.fetched, e.d), unseen + e.unseen)
    ensures AddAccount(s, e.fetched, e.d).accountsProcessed == s.accountsProcessed
  {
  }

  /** The run's counters chain, and it visits every account unless a client check fails. */
  lemma IngestAllCounts(t: Tables, rows: map<nat, EmailAccount>, userId: string, ids: seq<nat>, eff: Effects,
                        classify: GmailMessage -> ParsedEvent)
    requires forall i :: 0 <= i < |ids| ==> ids[i] in rows
    ensures var e := IngestAll(t, rows, userId, ids, eff, classify);
            && StatsChained(e.stats, e.unseen)
            && e.stats.accountsProcessed <= |ids|
            && (e.error.None? ==> e.stats.accountsProcessed == |ids|)
  {
    var visit := AccountVisit(userId, eff, classify);
    forall t', a, id, c' ensures VisitCounts(visit(t', a, id, c')) {
      AccountRunCounts(t', a, userId, id, c', eff, classify);
    }
    AccountsRunCounts(t, rows, ids, Cursor(0, 0, 0, 0, []), NoStats, 0, ClientGate(eff), visit);
  }

  /** What one visit must keep: valid tables, and every record and event. */
  predicate VisitKeeps(t: Tables, e: AccountEnd) {
    TablesValid(e.t) && t.messages.Keys <= e.t.messages.Keys && t.events <= e.t.events
  }

  /** How one visit of account `id` from its start row `a` changes the accounts: that row
      becomes `Polled(a)`, and no other changes. */
  predicate VisitPolls(t: Tables, a: EmailAccount, id: nat, e: AccountEnd, nowIso: string) {
    e.t.accounts == t.accounts[id := Polled(a, nowIso)]
  }

  /** Across the loop the tables stay valid and records and events are only added. */
  lemma {:induction false} AccountsRunTables(t: Tables, rows: map<nat, EmailAccount>, ids: seq<nat>, c: Cursor,
                                             s: Stats, unseen: nat, gate: Gate, visit: Visit, nowIso: string)
    requires TablesValid(t)
    requires forall i :: 0 <= i < |ids| ==> ids[i] in rows && ids[i] in t.accounts && rows[ids[i]] == t.accounts[ids[i]]
    requires forall i, j :: 0 <= i < j < |ids| ==> ids[i] != ids[j]
    requires forall t', a, id, c' :: TablesValid(t') && id in t'.accounts && t'.accounts[id] == a ==>
               VisitKeeps(t', visit(t', a, id, c'))
    requires forall t', a, id, c' :: VisitPolls(t', a, id, visit(t', a, id, c'), nowIso)
    ensures var e := AccountsRun(t, rows, ids, c, s, unseen, gate, visit);
            TablesValid(e.t) && t.messages.Keys <= e.t.messages.Keys && t.events <= e.t.events
    decreases |ids|
  {
    if ids != [] {
      var id := ids[0];
      var s1 := s.(accountsProcessed := s.accountsProcessed + 1);
      if gate(rows[id], id).None? {
        var e := visit(t, rows[id], id, c);
        assert VisitKeeps(t, e) && VisitPolls(t, rows[id], id, e, nowIso);
        RestRowsAgree(t.accounts, e.t.accounts, rows, ids, id, Polled(rows[id], nowIso));
        AccountsRunTables(e.t, rows, ids[1..], e.c, AddAccount(s1, e.fetched, e.d), unseen + e.unseen, gate, visit, nowIso);
      }
    }
  }

  /** Across the loop, of the accounts only the visited ones change, each to its start row
      with the poll time set. */
  lemma {:induction false} AccountsRunAccounts(t: Tables, rows: map<nat, EmailAccount>, ids: seq<nat>, c: Cursor,
                                               s: Stats, unseen: nat, gate: Gate, visit: Visit, nowIso: string)
    requires forall i :: 0 <= i < |ids| ==> ids[i] in rows && ids[i] in t.accounts && rows[ids[i]] == t.accounts[ids[i]]
    requires forall i, j :: 0 <= i < j < |ids| ==> ids[i] != ids[j]
    requires forall t', a, id, c' :: VisitPolls(t', a, id, visit(t', a, id, c'), nowIso)
    ensures var e := AccountsRun(t, rows, ids, c, s, unseen, gate, visit);
            && e.t.accounts.Keys == t.accounts.Keys
            && forall id :: id in t.accounts ==>
                 e.t.accounts[id] == t.accounts[id] || (id in ids && e.t.accounts[id] == Polled(t.accounts[id], nowIso))
    decreases |ids|
  {
    if ids != [] {
      var id := ids[0];
      var s1 := s.(accountsProcessed := s.accountsProcessed + 1);
      if gate(rows[id], id).None? {
        var e := visit(t, rows[id], id, c);
        assert VisitPolls(t, rows[id], id, e, nowIso);
        RestRowsAgree(t.accounts, e.t.accounts, rows, ids, id, Polled(rows[id], nowIso));
        AccountsRunAccounts(e.t, rows, ids[1..], e.c, AddAccount(s1, e.fetched, e.d), unseen + e.unseen, gate, visit, nowIso);
        var r := AccountsRun(e.t, rows, ids[1..], e.c, AddAccount(s1, e.fetched, e.d), unseen + e.unseen, gate, visit);
        PolledStep(t.accounts, e.t.accounts, r.t.accounts, id, ids, nowIso);
      }
    }
  }

  /** The run keeps the tables valid and what they recorded, and changes an account only by
      setting its poll time, and only for an account it was asked to visit. */
  lemma IngestAllTables(t: Tables, rows: map<nat, EmailAccount>, userId: string, ids: seq<nat>, eff: Effects,
                        classify: GmailMessage -> ParsedEvent)
    requires TablesValid(t)
    requires forall i :: 0 <= i < |ids| ==> ids[i] in rows && ids[i] in t.accounts && rows[ids[i]] == t.accounts[ids[i]]
    requires forall i, j :: 0 <= i < j < |ids| ==> ids[i] != ids[j]
    ensures var e := IngestAll(t, rows, userId, ids, eff, classify);
            && TablesValid(e.t)
            && t.messages.Keys <= e.t.messages.Keys && t.events <= e.t.events
            && e.t.accounts.Keys == t.accounts.Keys
            && forall id :: id in t.accounts ==>
                 e.t.accounts[id] == t.accounts[id] || (id in ids && e.t.accounts[id] == Polled(t.accounts[id], eff.nowIso))
  {
    var visit := AccountVisit(userId, eff, classify);
    forall t', a, id, c' | TablesValid(t') && id in t'.accounts && t'.accounts[id] == a
      ensures VisitKeeps(t', visit(t', a, id, c'))
    {
      AccountRunTables(t', a, userId, id, c', eff, classify);
    }
    forall t', a, id, c' ensures VisitPolls(t', a, id, visit(t', a, id, c'), eff.nowIso) {
      AccountRunPolls(t', a, userId, id, c', eff, classify);
    }
    var c0 := Cursor(0, 0, 0, 0, []);
    AccountsRunTables(t, rows, ids, c0, NoStats, 0, ClientGate(eff), visit, eff.nowIso);
    AccountsRunAccounts(t, rows, ids, c0, NoStats, 0, ClientGate(eff), visit, eff.nowIso);
  }

  /** After the first account is visited, the rows read at the start still agree with the
      accounts for the ids still to come, which stay distinct and exclude the visited one. */
  lemma RestRowsAgree(before: map<nat, EmailAccount>, after: map<nat, EmailAccount>, rows: map<nat, EmailAccount>,
                      ids: seq<nat>, id: nat, polled: EmailAccount)
    requires ids != [] && ids[0] == id && after == before[id := polled]
    requires forall i, j :: 0 <= i < j < |ids| ==> ids[i] != ids[j]
    requires forall i :: 0 <= i < |ids| ==> ids[i] in rows && ids[i] in before && rows[ids[i]] == before[ids[i]]
    ensures forall i :: 0 <= i < |ids[1..]| ==>
              (ids[1..][i] in rows && ids[1..][i] in after && rows[ids[1..][i]] == after[ids[1..][i]])
    ensures forall i, j :: 0 <= i < j < |ids[1..]| ==> ids[1..][i] != ids[1..][j]
    ensures id !in ids[1..]
  {
    forall j | 0 <= j < |ids[1..]| ensures ids[1..][j] != id {
      assert ids[1..][j] == ids[j + 1];
    }
    forall i | 0 <= i < |ids[1..]|
      ensures ids[1..][i] in rows && ids[1..][i] in after && rows[ids[1..][i]] == after[ids[1..][i]]
    {
      assert ids[1..][i] == ids[i + 1];
    }
    forall i, j | 0 <= i < j < |ids[1..]| ensures ids[1..][i] != ids[1..][j] {
      assert ids[1..][i] == ids[i + 1] && ids[1..][j] == ids[j + 1];
    }
  }

  /** Visiting `ids[0]` and then the rest changes each account at most once, to its row
      before the run with the poll time set. */
  lemma PolledStep(before: map<nat, EmailAccount>, mid: map<nat, EmailAccount>, after: map<nat, EmailAccount>,
                   id: nat, ids: seq<nat>, nowIso: string)
    requires ids != [] && ids[0] == id && id !in ids[1..] && id in before
    requires mid == before[id := Polled(before[id], nowIso)]
    requires after.Keys == mid.Keys
    requires forall k :: k in mid ==> after[k] == mid[k] || (k in ids[1..] && after[k] == Polled(mid[k], nowIso))
    ensures after.Keys == before.Keys
    ensures forall k :: k in before ==> after[k] == before[k] || (k in ids && after[k] == Polled(before[k], nowIso))
  {
    forall k | k in before
      ensures after[k] == before[k] || (k in ids && after[k] == Polled(before[k], nowIso))
    {
      if k == id {
        assert after[k] == mid[k];
      } else {
        assert mid[k] == before[k];
        assert k in ids[1..] ==> k in ids;
      }
    }
  }
}
