/** The database the routes read and write (the Prisma models `EmailAccount`,
    `JobApplication`, `ApplicationEvent` and `EmailMessage`), as maps keyed the way the
    schema's unique indexes key them. Row ids are issued by counters. */
module Store {
  import opened Wrappers
  import opened Statuses

  /** An `EmailAccount` row. */
  datatype EmailAccount = EmailAccount(
    userId: string, provider: string, providerSub: string, email: string,
    accessToken: Option<string>, refreshToken: string, expiresAt: Option<int>,
    metadata: map<string, string>)

  /** A `JobApplication` row; `dedupeHash` is unique. */
  datatype JobApplication = JobApplication(
    userId: string, accountId: nat, company: string, role: string, source: string,
    status: Status, appliedAt: Option<int>, lastUpdateAt: int, confidence: int,
    dedupeRaw: string, dedupeHash: string)

  /** An `ApplicationEvent` row; the payload names the message it came from. */
  datatype ApplicationEvent = ApplicationEvent(
    jobId: nat, eventType: string, occurredAt: int,
    messageId: string, threadId: string, subject: Option<string>)

  /** An `EmailMessage` row, keyed by (account id, provider message id). */
  datatype EmailMessage = EmailMessage(
    threadId: string, subject: Option<string>, receivedAt: int, snippet: Option<string>,
    headers: seq<(string, string)>, parsed: bool)

  /** The account is the given user's Gmail account with the given provider subject. */
  predicate SameConnection(a: EmailAccount, userId: string, sub: string) {
    a.userId == userId && a.provider == "gmail" && a.providerSub == sub
  }

  /** `findFirst` on (user, provider 'gmail', provider_sub): the least id below `n` that matches. */
  function FindAccount(accounts: map<nat, EmailAccount>, userId: string, sub: string, n: nat): (r: Option<nat>)
    ensures r.Some? ==> r.value < n && r.value in accounts && SameConnection(accounts[r.value], userId, sub)
    ensures r.None? ==> forall id :: id in accounts && id < n ==> !SameConnection(accounts[id], userId, sub)
    decreases n
  {
    if n == 0 then None
    else match FindAccount(accounts, userId, sub, n - 1)
      case Some(id) => Some(id)
      case None =>
        if n - 1 in accounts && SameConnection(accounts[n - 1], userId, sub) then Some(n - 1) else None
  }

  /** `findUnique` on the dedupe hash: the least job id below `n` with that hash. */
  function FindJob(jobs: map<nat, JobApplication>, hash: string, n: nat): (r: Option<nat>)
    ensures r.Some? ==> r.value < n && r.value in jobs && jobs[r.value].dedupeHash == hash
    ensures r.None? ==> forall id :: id in jobs && id < n ==> jobs[id].dedupeHash != hash
    decreases n
  {
    if n == 0 then None
    else match FindJob(jobs, hash, n - 1)
      case Some(id) => Some(id)
      case None => if n - 1 in jobs && jobs[n - 1].dedupeHash == hash then Some(n - 1) else None
  }

  /** No two jobs share a dedupe hash (the unique index). */
  predicate UniqueHashes(jobs: map<nat, JobApplication>) {
    forall i, j :: i in jobs && j in jobs && jobs[i].dedupeHash == jobs[j].dedupeHash ==> i == j
  }

  /** No two accounts hold the same Gmail connection of a user. */
  predicate UniqueConnections(accounts: map<nat, EmailAccount>) {
    forall i, j ::
      (i in accounts && j in accounts && accounts[i].provider == "gmail"
       && accounts[j].provider == "gmail" && accounts[i].userId == accounts[j].userId
       && accounts[i].providerSub == accounts[j].providerSub) ==> i == j
  }

  class Db {
    var accounts: map<nat, EmailAccount>
    var nextAccountId: nat
    var jobs: map<nat, JobApplication>
    var nextJobId: nat
    var messages: map<(nat, string), EmailMessage>
    var events: seq<ApplicationEvent>

    /** Ids are below their counters, dedupe hashes are unique, and so are Gmail connections. */
    ghost predicate Valid()
      reads this
    {
      && (forall id :: id in accounts ==> id < nextAccountId)
      && (forall id :: id in jobs ==> id < nextJobId)
      && UniqueHashes(jobs)
      && UniqueConnections(accounts)
    }

    constructor ()
      ensures Valid()
      ensures accounts == map[] && jobs == map[] && messages == map[] && events == []
      ensures nextAccountId == 0 && nextJobId == 0
    {
      accounts := map[];
      nextAccountId := 0;
      jobs := map[];
      nextJobId := 0;
      messages := map[];
      events := [];
    }
  }
}
