/** The `POST` handler of src/app/api/ingest/route.ts as it runs: step by step over the
    store object, each method proved to leave the store just as the functions of
    `IngestModel` say the run leaves its tables. */
module IngestRun {
  import opened Wrappers
  import opened Text
  import opened Store
  import opened MessageParser
  import opened IngestContent
  import opened Listing
  import opened Gmail
  import opened IngestModel

  /** The tables of the store a run touches. */
  function TablesOf(db: Db): Tables
    reads db
  {
    Tables(db.accounts, db.jobs, db.nextJobId, db.messages, db.events)
  }

  /** `parseGmailMessage` over the message's subject, snippet, text and headers. */
  function ClassifyWith(eff: Effects): GmailMessage -> ParsedEvent {
    (m: GmailMessage) => Classify(m, eff)
  }

  /** The per-message `try` after the fetch: the headers record, the classification, then
      the `findUnique`, the job upsert, the event and the message record, of which the
      first `writes` complete before one throws. */
  method WriteMessage(db: Db, userId: string, accountId: nat, ref: MessageRef, msg: GmailMessage,
                      p: ParsedEvent, key: (string, string), writes: nat, now: int)
    returns (d: Delta)
    modifies db
    ensures var w := Ingested(old(TablesOf(db)), userId, accountId, ref, msg, p, key, writes, now);
            TablesOf(db) == w.t && d == w.d
    ensures db.nextAccountId == old(db.nextAccountId)
  {
    var headersObj := BuildHeaders(msg.headers);
    d := Delta(1, 0, 0, 0);
    if writes < 1 {
      return;
    }
    var pre := FindJob(db.jobs, key.1, db.nextJobId);
    if writes < 2 {
      return;
    }
    var jobId: nat;
    if pre.Some? {
      jobId := pre.value;
      db.jobs := db.jobs[jobId := UpdatedJob(db.jobs[jobId], p)];
      d := d.(updated := 1);
    } else {
      jobId := db.nextJobId;
      db.jobs := db.jobs[jobId := NewJob(userId, accountId, p, key.0, key.1)];
      db.nextJobId := db.nextJobId + 1;
      d := d.(created := 1);
    }
    if writes < 3 {
      return;
    }
    db.events := db.events + [ApplicationEvent(jobId, p.eventType, p.eventDate, ref.id, ref.threadId, Subject(msg))];
    d := d.(events := 1);
    if writes < 4 {
      return;
    }
    db.messages := db.messages[(accountId, ref.id) :=
      EmailMessage(ref.threadId, Subject(msg), ReceivedAt(msg, now), msg.snippet, headersObj, true)];
  }

  /** `allMessageRefs.filter((r) => !seen.has(r.id))`, where `seen` holds the ids already
      recorded for the account. */
  method FilterUnseen(refs: seq<MessageRef>, accountId: nat, messages: map<(nat, string), EmailMessage>)
    returns (unseen: seq<MessageRef>)
    ensures unseen == Unseen(refs, accountId, messages)
  {
    unseen := [];
    for i := 0 to |refs|
      invariant unseen == Unseen(refs[..i], accountId, messages)
    {
      UnseenAppend(refs[..i], [refs[i]], accountId, messages);
      assert refs[..i + 1] == refs[..i] + [refs[i]];
      if (accountId, refs[i].id) !in messages {
        unseen := unseen + [refs[i]];
      }
    }
    assert refs[..|refs|] == refs;
  }

  /** One ref of the `for (const ref of unseenRefs)` loop: the fetch with its retries, and
      for a fetched message its classification by `classify` (the run passes
      `ClassifyWith(eff)`) and its writes; a failed fetch skips the ref. */
  method ProcessRef(db: Db, userId: string, accountId: nat, ref: MessageRef, c: Cursor, eff: Effects,
                    classify: GmailMessage -> ParsedEvent)
    returns (c': Cursor, d: Delta)
    modifies db
    ensures var s := RefStep(old(TablesOf(db)), c, ref, MessageFetch(eff), MessageIngest(userId, accountId, eff, classify));
            TablesOf(db) == s.t && c' == s.c && d == s.d
    ensures db.nextAccountId == old(db.nextAccountId)
  {
    var g := FetchMessage(eff.getScript, eff.tokens.refreshOk, c.getPos, c.refreshes, c.delays);
    c' := c.(getPos := g.pos, refreshes := g.refreshes, delays := g.delays);
    d := NoDelta;
    if g.msg.Some? {
      var msg := g.msg.value;
      var p := classify(msg);
      d := WriteMessage(db, userId, accountId, ref, msg, p, DedupeKey(p, accountId, eff),
                        eff.store.writesDone(c.fetchedCount), eff.now);
      c' := c'.(fetchedCount := c.fetchedCount + 1);
    }
  }

  /** The `for (const ref of unseenRefs)` loop over an account's unseen refs. */
  method ProcessRefs(db: Db, userId: string, accountId: nat, refs: seq<MessageRef>, c: Cursor, eff: Effects,
                     classify: GmailMessage -> ParsedEvent)
    returns (c': Cursor, d: Delta)
    modifies db
    ensures var r := IngestRefs(old(TablesOf(db)), c, refs, MessageFetch(eff), MessageIngest(userId, accountId, eff, classify));
            TablesOf(db) == r.t && c' == r.c && d == r.d
    ensures db.nextAccountId == old(db.nextAccountId)
  {
    ghost var fetch := MessageFetch(eff);
    ghost var ingest := MessageIngest(userId, accountId, eff, classify);
    ghost var goal := IngestRefs(TablesOf(db), c, refs, fetch, ingest);
    c' := c;
    d := NoDelta;
    var i := 0;
    assert refs[i..] == refs;
    AddNoDelta(goal.d);
    while i < |refs|
      invariant 0 <= i <= |refs| && db.nextAccountId == old(db.nextAccountId)
      invariant var r := IngestRefs(TablesOf(db), c', refs[i..], fetch, ingest);
                RefsEnd(r.t, r.c, AddDelta(d, r.d)) == goal
      decreases |refs| - i
    {
      ghost var t := TablesOf(db);
      ghost var c0 := c';
      ghost var d0 := d;
      assert refs[i..][0] == refs[i] && refs[i..][1..] == refs[i + 1..];
      var ds;
      c', ds := ProcessRef(db, userId, accountId, refs[i], c', eff, classify);
      d := AddDelta(d, ds);
      ghost var s := RefStep(t, c0, refs[i], fetch, ingest);
      ghost var r := IngestRefs(s.t, s.c, refs[i + 1..], fetch, ingest);
      AddDeltaAssoc(d0, s.d, r.d);
      i := i + 1;
    }
    assert refs[i..] == [];
    AddNoDelta(d);
  }

  /** One account whose client was built: the listing loop, the unseen filter, the message
      loop, and the poll-time update from the row `a` read at the start of the run. */
  method ProcessAccount(db: Db, a: EmailAccount, userId: string, accountId: nat, c: Cursor, eff: Effects,
                        classify: GmailMessage -> ParsedEvent)
    returns (c': Cursor, fetched: nat, unseen: nat, d: Delta)
    modifies db
    ensures var e := AccountRun(old(TablesOf(db)), a, userId, accountId, c, eff, classify);
            && TablesOf(db) == e.t && c' == e.c && fetched == e.fetched && unseen == e.unseen && d == e.d
    ensures db.nextAccountId == old(db.nextAccountId)
  {
    var l := ListMessages(eff.listScript, eff.tokens.refreshOk, c.listPos, c.refreshes);
    var c1 := c.(listPos := l.state.pos, refreshes := l.state.refreshes, delays := c.delays + l.state.delays);
    fetched := l.state.fetched;
    if l.state.refs == [] {
      db.accounts := db.accounts[accountId := Polled(a, eff.nowIso)];
      c', unseen, d := c1, 0, NoDelta;
      return;
    }
    var refs := FilterUnseen(l.state.refs, accountId, db.messages);
    c', d := ProcessRefs(db, userId, accountId, refs, c1, eff, classify);
    db.accounts := db.accounts[accountId := Polled(a, eff.nowIso)];
    unseen := |refs|;
  }

  /** What `POST` answers. */
  datatype Response =
    | Unauthorized                  // no session: status 401
    | Succeeded(stats: Stats)       // `{ ok: true, ...stats }`
    | Failed(error: ClientError)    // `getGmailClientForAccount` threw out of the handler

  /** The response a finished run gives. */
  function Answer(e: RunEnd): Response {
    if e.error.Some? then Failed(e.error.value) else Succeeded(e.stats)
  }

  /** The client check of a run is `getGmailClient` with the run's configuration and token oracle. */
  ghost predicate GateIs(eff: Effects, gate: Gate) {
    forall a, id {:trigger GetGmailClient(a, eff.clientId, eff.clientSecret, eff.now, eff.tokens.tokenOk(id))} ::
      gate(a, id) == GetGmailClient(a, eff.clientId, eff.clientSecret, eff.now, eff.tokens.tokenOk(id)).error
  }

  /** The account step of a run is one account's work for this user. */
  ghost predicate VisitIs(userId: string, eff: Effects, classify: GmailMessage -> ParsedEvent, visit: Visit) {
    forall t, a, id, c {:trigger AccountRun(t, a, userId, id, c, eff, classify)} ::
      visit(t, a, id, c) == AccountRun(t, a, userId, id, c, eff, classify)
  }

  /** What a run's client check and account work are. */
  ghost predicate RunSteps(userId: string, eff: Effects, classify: GmailMessage -> ParsedEvent, gate: Gate, visit: Visit) {
    GateIs(eff, gate) && VisitIs(userId, eff, classify, visit)
  }

  /** `getGmailClientForAccount` as the run uses it: the error it throws, if any. */
  method CheckClient(a: EmailAccount, id: nat, eff: Effects, ghost gate: Gate) returns (error: Option<ClientError>)
    requires GateIs(eff, gate)
    ensures error == gate(a, id)
    ensures error.None? <==> a.provider == "gmail" && Truthy(eff.clientId) && Truthy(eff.clientSecret)
                             && EnsureFresh(a, eff.now, eff.tokens.tokenOk(id)).error.None?
  {
    var client := GetGmailClient(a, eff.clientId, eff.clientSecret, eff.now, eff.tokens.tokenOk(id));
    assert gate(a, id) == client.error;
    error := client.error;
  }

  /** One account's work, stated through the run's account step. */
  method VisitAccount(db: Db, a: EmailAccount, userId: string, id: nat, c: Cursor, eff: Effects,
                      classify: GmailMessage -> ParsedEvent, ghost visit: Visit)
    returns (c': Cursor, fetched: nat, unseen: nat, d: Delta)
    requires VisitIs(userId, eff, classify, visit)
    modifies db
    ensures var e := visit(old(TablesOf(db)), a, id, c);
            && TablesOf(db) == e.t && c' == e.c && fetched == e.fetched && unseen == e.unseen && d == e.d
    ensures db.nextAccountId == old(db.nextAccountId)
  {
    ghost var t := TablesOf(db);
    c', fetched, unseen, d := ProcessAccount(db, a, userId, id, c, eff, classify);
    assert visit(t, a, id, c) == AccountRun(t, a, userId, id, c, eff, classify);
  }

  /** One pass of the `for (const account of accounts)` body: the counter, the client
      check, and, when the client is built, the account's work. */
  method AccountTurn(db: Db, rows: map<nat, EmailAccount>, userId: string, ids: seq<nat>, i: nat,
                     cur: Cursor, stats: Stats, unseen: nat, eff: Effects,
                     classify: GmailMessage -> ParsedEvent, ghost gate: Gate, ghost visit: Visit)
    returns (cur': Cursor, stats': Stats, unseen': nat, error: Option<ClientError>)
    requires i < |ids| && forall j :: 0 <= j < |ids| ==> ids[j] in rows
    requires RunSteps(userId, eff, classify, gate, visit)
    modifies db
    ensures var before := AccountsRun(old(TablesOf(db)), rows, ids[i..], cur, stats, unseen, gate, visit);
            if error.Some? then before == RunEnd(TablesOf(db), cur', stats', unseen', error)
            else before == AccountsRun(TablesOf(db), rows, ids[i + 1..], cur', stats', unseen', gate, visit)
    ensures db.nextAccountId == old(db.nextAccountId)
  {
    ghost var t := TablesOf(db);
    assert ids[i..][0] == ids[i] && ids[i..][1..] == ids[i + 1..];
    var id := ids[i];
    stats' := stats.(accountsProcessed := stats.accountsProcessed + 1);
    error := CheckClient(rows[id], id, eff, gate);
    if error.Some? {
      return cur, stats', unseen, error;
    }
    var fetched, accountUnseen, d;
    cur', fetched, accountUnseen, d := VisitAccount(db, rows[id], userId, id, cur, eff, classify, visit);
    AccountsRunStep(t, rows, ids[i..], cur, stats, unseen, gate, visit);
    stats' := AddAccount(stats', fetched, d);
    unseen' := unseen + accountUnseen;
    error := None;
  }

  /** The `for (const account of accounts)` loop: a client that cannot be built ends the
      loop with the writes already made left in place. */
  method ProcessAccounts(db: Db, rows: map<nat, EmailAccount>, userId: string, ids: seq<nat>, eff: Effects,
                         classify: GmailMessage -> ParsedEvent, ghost gate: Gate, ghost visit: Visit)
    returns (stats: Stats, error: Option<ClientError>)
    requires forall i :: 0 <= i < |ids| ==> ids[i] in rows
    requires RunSteps(userId, eff, classify, gate, visit)
    modifies db
    ensures var e := AccountsRun(old(TablesOf(db)), rows, ids, Cursor(0, 0, 0, 0, []), NoStats, 0, gate, visit);
            TablesOf(db) == e.t && stats == e.stats && error == e.error
    ensures db.nextAccountId == old(db.nextAccountId)
  {
    ghost var goal := AccountsRun(TablesOf(db), rows, ids, Cursor(0, 0, 0, 0, []), NoStats, 0, gate, visit);
    var cur := Cursor(0, 0, 0, 0, []);
    stats := NoStats;
    var unseen := 0;
    var i := 0;
    assert ids[i..] == ids;
    while i < |ids|
      invariant 0 <= i <= |ids| && db.nextAccountId == old(db.nextAccountId)
      invariant AccountsRun(TablesOf(db), rows, ids[i..], cur, stats, unseen, gate, visit) == goal
      decreases |ids| - i
    {
      cur, stats, unseen, error := AccountTurn(db, rows, userId, ids, i, cur, stats, unseen, eff, classify, gate, visit);
      if error.Some? {
        return;
      }
      i := i + 1;
    }
    assert ids[i..] == [];
    error := None;
  }

  /** `POST`: without a session the answer is 401 and nothing is written; otherwise the
      user's Gmail accounts in id order go through the account loop, and the store stays
      valid whatever point the run stopped at. */
  method Ingest(db: Db, session: Option<string>, eff: Effects) returns (r: Response)
    requires db.Valid()
    modifies db
    ensures db.Valid()
    ensures session.None? ==> r == Unauthorized && TablesOf(db) == old(TablesOf(db))
    ensures session.Some? ==>
              var e := IngestAll(old(TablesOf(db)), old(db.accounts), session.value,
                                 UserAccounts(old(db.accounts), session.value, old(db.nextAccountId)),
                                 eff, ClassifyWith(eff));
              TablesOf(db) == e.t && r == Answer(e)
    ensures db.nextAccountId == old(db.nextAccountId)
  {
    if session.None? {
      return Unauthorized;
    }
    var userId := session.value;
    var rows := db.accounts;
    var ids := UserAccounts(db.accounts, userId, db.nextAccountId);
    ghost var t0 := TablesOf(db);
    IngestAllTables(t0, rows, userId, ids, eff, ClassifyWith(eff));
    var stats, error := ProcessAccounts(db, rows, userId, ids, eff, ClassifyWith(eff),
                                        ClientGate(eff), AccountVisit(userId, eff, ClassifyWith(eff)));
    r := if error.Some? then Failed(error.value) else Succeeded(stats);
    ValidFromTables(db, t0, TablesOf(db));
  }

  /** The store is valid when its tables are, and its accounts are those of a valid store
      under the same account counter. */
  lemma ValidFromTables(db: Db, t0: Tables, t: Tables)
    requires TablesOf(db) == t && TablesValid(t) && t.accounts.Keys == t0.accounts.Keys
    requires forall id :: id in t0.accounts ==> id < db.nextAccountId
    ensures db.Valid()
  {
  }
}
