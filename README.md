# Job Application Tracker — a verified model of the ingestion core

This project models the core of a job-application tracker in Dafny. The tracker has five parts:

- It reads a user's Gmail.
- It classifies job-related messages with a rule-based parser.
- It upserts one job application per dedupe hash and appends an event per message.
- It records every ingested message so that later runs skip it.
- It shows the jobs on a Kanban board, where a drag changes a status optimistically.

The model covers the seven components of that pipeline. Each is written in the source's own form: pure code as
functions and lemmas, and step-by-step code as methods with loops, proved against specification functions.

- **Classifier** (`MessageText`, `MessageParser`, `MessageParserFacts`). It covers whitespace normalisation, the
  lowered joined content, header lookup and domain extraction, source detection over the ordered ATS table, the
  first-match status table, event-type overrides, role cleaning and confidence. Confidence is kept in integer
  hundredths (30..100).
- **Ingestion run** (`IngestContent`, `Listing`, `IngestModel`, `IngestRun`). It covers these parts:
  - the Gmail search query, the header lookup, and the depth-first `text/plain` extraction. Body data is
    rewritten from the base64url alphabet to the standard one (RFC 4648 sections 5 and 4).
  - the paginated listing loop, with its 50-ref cap, 429 backoff and 401 refresh-and-retry, and the per-message
    get-retry loop.
  - the filter that keeps only unseen refs.
  - the job upsert, the event append, the message record and the run counters.

  The provider is a scripted sequence of replies. The store is the `Store.Db` class, whose maps the methods update.
- **Token freshness gate** (`Gmail`). It covers `ensureFreshAccessToken` (OAuth 2.0 refresh, section 6 of
  RFC 6749) with `getAccessToken` as an oracle, the partial update that the `tokens` listener writes, and the
  provider and configuration checks of `getGmailClientForAccount`.
- **Jobs API** (`JobsRoute`). It covers the `GET` filter and limit validation, ownership, `PATCH` validation and
  the update record.
- **OAuth callback** (`GmailCallback`). It covers the guard order, the CSRF `state` check (section 10.12 of
  RFC 6749), the expiry computation, and update-or-create of the connected account.
- **Environment validation** (`Env`). It covers `parseBool`, the aggregated list of missing variables and the
  failure message.
- **Kanban board** (`Kanban`). It covers grouping by status with the ten known columns sorted newest first, and
  the `Board` class whose `ChangeStatus` does the optimistic update, revert and pending flag.

Shared modules: `Wrappers` (Option, Result), `Text` (ASCII lower-casing, trimming, substring search, joining),
`Statuses` (the ten status names) and `Store` (the tables and their keys).

I/O is a parameter throughout:

- The clock is `now`, in milliseconds, plus `nowIso`.
- The Gmail API replies are `listScript` and `getScript`.
- Token refreshes are `refreshOk` and `tokenOk`, each the outcome of the k-th call.
- Base64/UTF-8 decoding is `decode`.
- Regex extraction is the parser's `Oracles`.
- `makeDedupeKey` is `dedupe`.
- How many store writes of a message complete before a throw is `writesDone`.
- The OAuth code exchange and profile fetch are `exchange` and `profile`, with the store outcome `storeOk`.
- URL and date validity are `validUrl` and `parseDate`.

## Model

| member | source | states |
|---|---|---|
| MessageText.NormalizeTextShape | src/lib/messageParser.ts:103-105 | the result is exactly the input's words (maximal non-blank runs) joined by single spaces; so it has no leading, trailing or doubled blank, only plain spaces, and the non-blank characters of the input in order |
| MessageText.NormalizeIsJoinedWords | src/lib/messageParser.ts:103-105 | collapsing then trimming gives the words of the input joined by single spaces |
| MessageText.Words | src/lib/messageParser.ts:104 | the reference word list: every word is non-empty and holds no blank |
| MessageText.WordLength | src/lib/messageParser.ts:104 | the leading word ends at the first blank or at the end of the text |
| MessageText.NormalizeIdempotent | src/lib/messageParser.ts:103-105 | normalising a normalised text changes nothing |
| MessageText.CollapseShape | src/lib/messageParser.ts:104 | replacing whitespace runs gives the input's words joined by single spaces, with exactly one space for a leading and one for a trailing run; hence single plain spaces only, and the other characters kept in order |
| MessageText.CollapseSpacedWords | src/lib/messageParser.ts:104 | every whitespace run, leading, inner or trailing, becomes exactly one space between the unchanged words |
| MessageText.CollapseFromWord | src/lib/messageParser.ts:104 | a text starting with a word collapses to its words joined by single spaces, plus one space when it ends in whitespace |
| MessageText.TrimCollapsed | src/lib/messageParser.ts:104 | trimming the collapsed text gives a normalised text with the same non-blank characters |
| MessageText.NonEmpty | src/lib/messageParser.ts:108 | `filter(Boolean)` keeps exactly the non-empty parts |
| MessageText.NormalizeAll | src/lib/messageParser.ts:108 | one normalised part per input part |
| MessageText.NormalizeAllAt | src/lib/messageParser.ts:108 | the i-th mapped part is the normalisation of the i-th input |
| MessageText.LcAllShape | src/lib/messageParser.ts:107-109 | the joined content is lower-case and normalised |
| MessageText.LcAllContainsPart | src/lib/messageParser.ts:107-109 | every part, normalised and lowered, occurs in the joined content |
| MessageText.LcAllSkipsEmpty | src/lib/messageParser.ts:107-109 | a part that normalises to empty contributes nothing, not even a separator |
| MessageText.DropDashStartShape | src/lib/messageParser.ts:213 | stripping a leading run removes exactly a prefix of blanks and dashes, leaving a text that does not start with one |
| MessageText.DropDashEndShape | src/lib/messageParser.ts:213 | stripping a trailing run removes exactly a suffix of blanks and dashes, leaving a text that does not end with one |
| MessageText.CleanRoleSlice | src/lib/messageParser.ts:212-214 | the cleaned role is a slice of the raw one with only blanks and dashes cut on either side, and neither starts nor ends with a blank or dash |
| MessageText.CleanRoleIdempotent | src/lib/messageParser.ts:212-214 | cleaning a cleaned role changes nothing |
| MessageParser.Lookup | src/lib/messageParser.ts:113 | an exact-key lookup finds a value stored under that key, and is absent when no key matches |
| MessageParser.Render | src/lib/messageParser.ts:114-115 | a missing or empty value gives none, a string is returned as is, and a list is joined with spaces |
| MessageParser.GetHeader | src/lib/messageParser.ts:111-116 | no headers give none; otherwise the exact key is tried first and, only when absent, the lower-cased key |
| MessageParserFacts.GetHeaderNotCaseInsensitive | src/lib/messageParser.ts:113 | example: a `From` header is not found under `from`, while a lower-case key is found under any spelling |
| MessageParserFacts.GetHeaderEmptyShadows | src/lib/messageParser.ts:113-114 | example: an empty exact-key value hides the lower-case key's value |
| MessageParserFacts.GetHeaderJoinsLists | src/lib/messageParser.ts:115 | a list value is joined with single spaces |
| MessageParser.FirstTruthy | src/lib/messageParser.ts:143 | `a \|\| b \|\| c` picks the first non-empty of From, Return-Path, Sender |
| MessageParser.HeaderTexts | src/lib/messageParser.ts:121-124 | the collected header values are all non-empty |
| MessageParser.Keys | src/lib/messageParser.ts:121 | the header keys in record order |
| MessageParser.CollectHeaderTexts | src/lib/messageParser.ts:119-124 | the loop collects exactly the non-empty `getHeader` values, in key order |
| MessageParser.AddDistinct | src/lib/messageParser.ts:126-132 | adding to the set keeps earlier entries in place and never duplicates |
| MessageParser.AddDistinctMembers | src/lib/messageParser.ts:126-132 | an entry is in the set exactly when it was there or is the lower-case form of some match |
| MessageParser.AddMatches | src/lib/messageParser.ts:126-132 | the `while (regex.exec)` loop builds exactly that set, in first-seen order |
| MessageParser.ExtractDomains | src/lib/messageParser.ts:118-133 | the two loops (collect truthy header texts, add lower-cased matches to a set) return exactly the domain list `DomainsOf` defines |
| MessageParser.DomainsOfSpec | src/lib/messageParser.ts:118-133 | the domains are distinct and are exactly the lower-cased matches in the joined header values; none without headers |
| MessageParser.AtsLabels | src/lib/messageParser.ts:33-46 | the catalogued source names in table order |
| MessageParser.FirstAtsHit | src/lib/messageParser.ts:137-141 | the first table entry with a pattern inside some domain; none when no entry hits |
| MessageParserFacts.DetectSourceSpec | src/lib/messageParser.ts:135-149 | the first hitting ATS entry names the source; with no hit the source is not catalogued and is `email` or a lower-cased slice of the From text |
| MessageParserFacts.DetectFallback | src/lib/messageParser.ts:142-148 | the fallback never yields a catalogued name and is `email` or a slice of the lowered From text |
| MessageParserFacts.KnownSourceIff | src/lib/messageParser.ts:135-149 | the source is catalogued exactly when some ATS entry hits the extracted domains |
| MessageParserFacts.LabelsNotLower | src/lib/messageParser.ts:33-46 | no catalogued name is all lower case, so a fallback domain can never be mistaken for one |
| MessageParser.Rank | src/lib/messageParser.ts:49-87 | each status has exactly one row of the keyword table |
| MessageParser.RankOfEntry | src/lib/messageParser.ts:49-87 | the row of the k-th entry's status is k |
| MessageParser.FirstStatusHit | src/lib/messageParser.ts:152-156 | the first row with a keyword in the content; none when no row hits |
| MessageParserFacts.PickBestStatusSpec | src/lib/messageParser.ts:151-159 | with any hit the chosen status hits and no earlier status does; with none it is `InReview`; `Ghosted` is never chosen |
| MessageParserFacts.EarlierStatusWins | src/lib/messageParser.ts:151-159 | a hit on an earlier status rules out every later one |
| MessageParserFacts.AppliedFirst | src/lib/messageParser.ts:49-56 | content containing "applied" is always `Applied` |
| MessageParserFacts.OfferBeforeRejected | src/lib/messageParser.ts:49-87 | "offer" together with "unfortunately" is never classified `Rejected` |
| MessageParserFacts.StatusMatchedIff | src/lib/messageParser.ts:262 | `statusMatched` holds exactly when some status keyword occurs, and fails only for the `InReview` default |
| MessageParserFacts.EventOverrideOrder | src/lib/messageParser.ts:161-168 | interview+scheduled, then assessment, then offer, then phone screen override the per-status default in that order |
| MessageParserFacts.EventTypeKnown | src/lib/messageParser.ts:90-101 | the event type is always one of the eight known kinds |
| MessageParserFacts.OverrideIgnoresStatus | src/lib/messageParser.ts:163-166 | when an override applies the status does not matter |
| MessageParser.ComputeConfidence | src/lib/messageParser.ts:236-246 | the step-by-step score equals the confidence function and lies in [30, 100] |
| MessageParserFacts.ConfidenceBounds | src/lib/messageParser.ts:236-246 | confidence lies in [30, 100] |
| MessageParserFacts.ConfidenceNoClamp | src/lib/messageParser.ts:243 | the clamp never fires: the score is exactly 30 plus the four increments |
| MessageParserFacts.ConfidenceFactorsRaise | src/lib/messageParser.ts:238-242 | each factor (catalogued source, status match, role, company) strictly raises confidence |
| MessageParserFacts.ParseMessageFacts | src/lib/messageParser.ts:248-266 | a parsed event is never `Ghosted`, is `InReview` without a match, has a known event type, confidence in [30, 100] and at least 55 for a catalogued source, the header date or else now, and a cleaned role |
| IngestContent.FromTerms | src/app/api/ingest/route.ts:30 | one `from:` term per domain, in order |
| IngestContent.JoinContains | src/app/api/ingest/route.ts:29-30 | every joined part occurs in the joined text |
| IngestContent.QueryNamesAll | src/app/api/ingest/route.ts:8-32 | the query starts with `newer_than:30d (` and contains every keyword and every `from:` domain term |
| IngestContent.FindHeader | src/app/api/ingest/route.ts:35 | no header list gives none |
| IngestContent.FindHeaderSpec | src/app/api/ingest/route.ts:34-38 | the value of the first header whose name matches case-insensitively; none when no name matches |
| IngestContent.FindHeaderIgnoresCase | src/app/api/ingest/route.ts:36 | names equal up to case find the same header |
| IngestContent.FindHeaderFirstDecides | src/app/api/ingest/route.ts:36-37 | example: the first matching header decides even when its value is missing |
| IngestContent.ToStandardAlphabet | src/app/api/ingest/route.ts:47 | `-` becomes `+`, `_` becomes `/`, every other character is kept |
| IngestContent.StandardAlphabetShape | src/app/api/ingest/route.ts:47 | the result has no `-` or `_`, and rewriting twice changes nothing |
| IngestContent.FirstText | src/app/api/ingest/route.ts:52-57 | a text found among the children is non-empty |
| IngestContent.FirstHit | src/app/api/ingest/route.ts:43-59 | the pre-order first `text/plain` node with data that decodes (the reference search) |
| IngestContent.FirstHitIn | src/app/api/ingest/route.ts:52-57 | the same search across a list of siblings |
| IngestContent.TraverseIsFirstHit | src/app/api/ingest/route.ts:43-59 | the traversal returns exactly the decoding of the first hit in pre-order, or none |
| IngestContent.FirstTextIsFirstHit | src/app/api/ingest/route.ts:52-57 | the loop over children returns the decoding of the first hit among them |
| IngestContent.ExtractedFromPlainPart | src/app/api/ingest/route.ts:45-49 | an extracted text always comes from a `text/plain` node with data, decoded after the alphabet rewrite |
| IngestContent.DecodeFailureFallsThrough | src/app/api/ingest/route.ts:45-57 | a node whose decoding throws falls through to its children |
| IngestContent.Put | src/app/api/ingest/route.ts:211 | assignment keeps existing keys in place and adds at most one |
| IngestContent.Keys | src/app/api/ingest/route.ts:209-212 | the record's keys in insertion order |
| IngestContent.PutKeys | src/app/api/ingest/route.ts:211 | a new key is appended at the end; an existing key keeps its position |
| IngestContent.PutGet | src/app/api/ingest/route.ts:211 | after assignment the key reads the new value and other keys are unchanged |
| IngestContent.PutDistinct | src/app/api/ingest/route.ts:211 | assignment keeps keys distinct |
| IngestContent.BuildHeaders | src/app/api/ingest/route.ts:208-212 | the loop builds the headers record of the message |
| IngestContent.HeadersRecordSpec | src/app/api/ingest/route.ts:208-212 | the record has distinct keys and each key holds the value of its last header with a non-empty name and value |
| IngestContent.AsHeaders | src/app/api/ingest/route.ts:216 | the record handed to the parser has the same keys and values, in order |
| Listing.Pow2 | src/app/api/ingest/route.ts:120 | powers of two are positive |
| Listing.BackoffValues | src/app/api/ingest/route.ts:120 | delays run 1000, 2000, 4000, 8000, 16000, then stay at 30000 |
| Listing.Pow2Monotone | src/app/api/ingest/route.ts:120 | powers of two grow with the exponent |
| Listing.BackoffMonotone | src/app/api/ingest/route.ts:120 | delays never shrink as `attempt` grows, never exceed 30000, and are 30000 from attempt 5 on |
| Listing.ListStep | src/app/api/ingest/route.ts:97-151 | one request: it consumes one scripted reply and one request size; a cap stop has 50 or more refs and no page token; a list-error stop is neither 429 nor 401; a refresh stop follows a failed refresh |
| Listing.ListRun | src/app/api/ingest/route.ts:97-151 | every way the loop ends (cap, no page token, other error, failed refresh) carries its reason, and `fetched` grows by exactly the refs added |
| Listing.ListMessages | src/app/api/ingest/route.ts:92-151 | the do-while loop computes exactly the listing run |
| Listing.RefsCapped | src/app/api/ingest/route.ts:95-115 | when the provider never returns more than requested, at most 50 refs accumulate |
| Listing.OvershootWithoutHonour | src/app/api/ingest/route.ts:102-114 | example: a provider that returns 51 refs to a request for 50 leaves 51 refs |
| Listing.FetchedCountsListed | src/app/api/ingest/route.ts:105-109 | `messagesFetched` counts every listed ref |
| Listing.FirstPageRetryEnds | src/app/api/ingest/route.ts:116-151 | a 429, or a 401 with a successful refresh, on the first page exits the loop with no refs, because `continue` retests `while (pageToken)` |
| Listing.LaterPageRetries | src/app/api/ingest/route.ts:116-144 | on a later page a 429 records the backoff delay and increments `attempt`, and a 401 with a good refresh retries the same page |
| Listing.PageResetsAttempt | src/app/api/ingest/route.ts:102-115 | a successful page resets `attempt` to 0 and requests `50 - accumulated` results |
| Listing.ConsecutiveBackoffs | src/app/api/ingest/route.ts:119-123 | k consecutive 429 replies record the delays for attempts a, a+1, …, a+k-1 |
| Listing.DelaysKept | src/app/api/ingest/route.ts:119-123 | recorded delays are only ever appended |
| Listing.GetRun | src/app/api/ingest/route.ts:170-203 | the get-retry loop consumes at least one reply and never undoes a refresh |
| Listing.GetRunFacts | src/app/api/ingest/route.ts:171-181 | the get loop's delays start from its own attempt counter, one per 429, and a returned message is the last reply consumed |
| Listing.FetchMessage | src/app/api/ingest/route.ts:170-203 | the `while (true)` loop computes exactly the get run, with its attempt starting at 0 |
| Listing.GetBackoffFromZero | src/app/api/ingest/route.ts:171-181 | the get loop's delays are 1000, 2000, … from its own zero counter |
| Listing.UnauthorizedRetriedWithoutCap | src/app/api/ingest/route.ts:183-199 | any number of 401 replies, each followed by a good refresh, are retried until the message arrives |
| Listing.GetFailures | src/app/api/ingest/route.ts:183-200 | a 401 whose refresh fails, or any error other than 429 or 401, ends the get without a message |
| IngestModel.Unseen | src/app/api/ingest/route.ts:166 | the filter keeps a subsequence of the listed refs |
| IngestModel.UnseenAppend | src/app/api/ingest/route.ts:166 | the filter distributes over concatenation, so listing order is kept |
| IngestModel.UnseenMembers | src/app/api/ingest/route.ts:160-166 | a ref is unseen exactly when it was listed and is not recorded for this account |
| IngestModel.NewJob | src/app/api/ingest/route.ts:234-246 | a created job takes company and role or `Unknown`, sets `applied_at` only for `Applied`, and stores the dedupe key |
| IngestModel.UpdatedJob | src/app/api/ingest/route.ts:226-233 | an update overwrites status, source, confidence and last update, and keeps company and role when absent |
| IngestModel.IngestedCounts | src/app/api/ingest/route.ts:216-266 | a message counts as parsed, as a job once the upsert completed, and as an event once the event was appended |
| IngestModel.IngestedJob | src/app/api/ingest/route.ts:219-252 | an existing dedupe hash updates that job and counts as updated; otherwise a new job is created under the next id |
| IngestModel.IngestedEvent | src/app/api/ingest/route.ts:254-266 | exactly one event is appended, carrying the message and thread ids, subject, type and date of an existing job |
| IngestModel.IngestedRecords | src/app/api/ingest/route.ts:269-294 | the message is recorded only when all four store writes completed, and accounts are untouched |
| IngestModel.UpsertJobValid | src/app/api/ingest/route.ts:221-248 | the upsert keeps dedupe hashes unique and ids below the counter, and changes only the jobs |
| IngestModel.IngestedUpsert | src/app/api/ingest/route.ts:219-252 | once the upsert is written (at least two of the writes done), the jobs are those `UpsertJob` gives, and the step counts an update when the hash was already stored and a creation otherwise |
| IngestModel.IngestedValid | src/app/api/ingest/route.ts:216-294 | ingesting a message keeps the tables valid and only adds records, events and jobs |
| IngestModel.IngestRefsCounts | src/app/api/ingest/route.ts:168-300 | over the unseen refs, events ≤ jobs created + updated ≤ parsed ≤ number of refs |
| IngestModel.IngestRefsTables | src/app/api/ingest/route.ts:168-300 | the per-message loop keeps the tables valid, only adds records and events, and leaves accounts alone |
| IngestModel.IngestRefsAccounts | src/app/api/ingest/route.ts:168-300 | the per-message loop never changes an account |
| IngestModel.MessageIngestFacts | src/app/api/ingest/route.ts:204-294 | the concrete per-message step meets the counter, validity and account conditions the loop lemmas need |
| IngestModel.PolledKeepsConnection | src/app/api/ingest/route.ts:304-305 | writing `lastPollAt` keeps connections unique |
| IngestModel.AccountRunCounts | src/app/api/ingest/route.ts:92-305 | per account, events ≤ jobs ≤ parsed ≤ unseen ≤ fetched |
| IngestModel.AccountRunTables | src/app/api/ingest/route.ts:92-305 | one account's run keeps the tables valid and only adds records and events |
| IngestModel.AccountRunPolls | src/app/api/ingest/route.ts:153-158 | an account's run, with or without refs, ends by writing `lastPollAt` to that account only |
| IngestModel.RecordedNeverReprocessed | src/app/api/ingest/route.ts:160-166 | a message recorded for the account is never among the unseen refs |
| IngestModel.SucceededThenFiltered | src/app/api/ingest/route.ts:269-294 | a fully ingested message is recorded with `parsed` true and is filtered out on every later listing |
| IngestModel.UserAccounts | src/app/api/ingest/route.ts:70 | exactly the user's Gmail accounts, in increasing id order |
| IngestModel.AccountsRunStep | src/app/api/ingest/route.ts:82-306 | an account that passes the client check is processed, counted, and the run continues with the next |
| IngestModel.AccountsRunCounts | src/app/api/ingest/route.ts:82-306 | over the accounts the counter chain holds, and without a client error every account is counted |
| IngestModel.IngestAllCounts | src/app/api/ingest/route.ts:63-309 | for the whole run, events ≤ jobs ≤ parsed ≤ unseen ≤ fetched, and `accountsProcessed` is the number of accounts unless the client check aborted |
| IngestModel.AccountsRunTables | src/app/api/ingest/route.ts:82-306 | the run over accounts keeps the tables valid and only adds records and events |
| IngestModel.AccountsRunAccounts | src/app/api/ingest/route.ts:82-306 | each account is either untouched or, if visited, has only `lastPollAt` written |
| IngestModel.IngestAllTables | src/app/api/ingest/route.ts:63-309 | the whole run keeps the tables valid and only adds records and events; each account is untouched or polled |
| IngestRun.FilterUnseen | src/app/api/ingest/route.ts:160-166 | the filter loop computes exactly the unseen refs |
| IngestRun.WriteMessage | src/app/api/ingest/route.ts:219-294 | the store writes of one message leave the tables and counters of the model's ingestion step |
| IngestRun.ProcessRef | src/app/api/ingest/route.ts:169-300 | one ref's fetch and writes match the model's step; a failed fetch changes nothing |
| IngestRun.ProcessRefs | src/app/api/ingest/route.ts:168-301 | the loop over unseen refs matches the model's run over them |
| IngestRun.ProcessAccount | src/app/api/ingest/route.ts:92-305 | listing, filtering, ingesting and polling one account match the model's account run |
| IngestRun.CheckClient | src/app/api/ingest/route.ts:84-90 | building the client fails exactly unless the account is Gmail, both client credentials are set and the token check passes; the error is the one the run's gate gives |
| IngestRun.VisitAccount | src/app/api/ingest/route.ts:92-305 | the account's visit leaves the store, cursor and counters the run's visit function gives, and allocates no account ids |
| IngestRun.AccountTurn | src/app/api/ingest/route.ts:83-305 | one account: a client error aborts with the run so far, otherwise the model's run continues with the next account |
| IngestRun.ProcessAccounts | src/app/api/ingest/route.ts:82-306 | the loop over accounts matches the model's run over them, including an abort |
| IngestRun.Ingest | src/app/api/ingest/route.ts:63-309 | no session gives 401 and no change; otherwise the store and the response match the model's whole run, and the store stays valid |
| Gmail.HasRefreshIff | src/lib/gmail.ts:70 | a refresh token counts exactly when it has a non-blank character |
| Gmail.EnsureFreshMissingRefresh | src/lib/gmail.ts:67-74 | the missing-refresh error occurs, with no token call, exactly when (expired or no access token) and no refresh token |
| Gmail.EnsureFreshExpired | src/lib/gmail.ts:77-83 | an expired token with a refresh token makes exactly one call, failing as "Failed to refresh" |
| Gmail.EnsureFreshRetry | src/lib/gmail.ts:84-100 | a live token whose first call fails is retried with a refresh token ("Failed to obtain" on failure) and fails as "No valid" without one |
| Gmail.EnsureFreshOutcome | src/lib/gmail.ts:67-101 | at most two calls, and success exactly when the early check passes and the first call, or the retry on a live token, succeeds |
| Gmail.ApplyTokenPatch | src/lib/gmail.ts:49 | the token write leaves owner, provider, subject, email and metadata alone |
| Gmail.BuildTokenPatch | src/lib/gmail.ts:44-47 | the update record holds the access and refresh tokens only if issued, and the expiry only if numeric |
| Gmail.OnTokens | src/lib/gmail.ts:42-57 | the listener writes the account only when the record is non-empty and the account exists; nothing else changes |
| Gmail.TokensKeepStoredRefresh | src/lib/gmail.ts:42-50 | a stored refresh token, access token or expiry survives when none is reissued |
| Gmail.NothingIssuedNoWrite | src/lib/gmail.ts:48 | the record is empty exactly when nothing usable was issued |
| Gmail.NonGmailRejectedFirst | src/lib/gmail.ts:107-110 | another provider is rejected before any configuration or token call |
| Gmail.ClientIsGate | src/lib/gmail.ts:107-115 | for a configured Gmail account the client check succeeds exactly when the freshness gate does, with the same calls |
| GmailCallback.GuardRedirect | src/app/api/gmail/callback/route.ts:64-72 | the guards pass exactly with a session, a code and an accepted state |
| GmailCallback.GuardOrder | src/app/api/gmail/callback/route.ts:64-72 | no session goes to `/signin`; then a missing code; then the invalid-state redirect |
| GmailCallback.StateNeedsCookie | src/app/api/gmail/callback/route.ts:70 | without the cookie, or with empty states, the state is rejected; equal non-empty states are accepted |
| GmailCallback.ExpiryAt | src/app/api/gmail/callback/route.ts:84 | the expiry is now plus `expires_in·1000` ms |
| GmailCallback.NewAccount | src/app/api/gmail/callback/route.ts:101-113 | a created account is the user's Gmail connection, with refresh token `''` when none is issued and empty metadata |
| GmailCallback.Reconnected | src/app/api/gmail/callback/route.ts:91-100 | an update writes email, access token and expiry and keeps the old refresh token when none is issued |
| GmailCallback.Callback | src/app/api/gmail/callback/route.ts:55-126 | guard redirects and failures change nothing; a missing email redirects with no write; success updates the matching account or creates one, then deletes the cookie |
| GmailCallback.ReconnectNeverDuplicates | src/app/api/gmail/callback/route.ts:86-114 | the matched account is the only one for that connection, and both update and create keep connections unique |
| Store.FindAccount | src/app/api/gmail/callback/route.ts:87-89 | a found account is the user's Gmail account with that subject; none means no such account exists |
| Store.FindJob | src/app/api/ingest/route.ts:221 | a found job carries the dedupe hash; none means no job does |
| Env.ParseBoolIgnoresPadding | src/lib/env.ts:12-16 | for every set value, surrounding whitespace does not change the answer |
| Env.ParseBoolIgnoresCase | src/lib/env.ts:12-16 | for every set value, ASCII case does not change the answer |
| Env.ParseBoolDefaultWhenUnset | src/lib/env.ts:12-16 | the default decides only an absent value, and is ignored for every set value |
| Env.ParseBoolPadded | src/lib/env.ts:12-16 | example: `" TRUE "` parses as true |
| Env.ParseBoolMixedCase | src/lib/env.ts:12-16 | example: `"On"` parses as true |
| Env.ParseBoolFalse | src/lib/env.ts:12-16 | examples: `"false"` and `""` parse as false, overriding the default; an absent input gives the default |
| Env.SchemaIssues | src/lib/env.ts:18-36 | at most the three required keys fail the schema |
| Env.RequiredOf | src/lib/env.ts:41-46 | only required keys are kept from the issues |
| Env.RequiredOfAppend | src/lib/env.ts:41-46 | the filter keeps issue order |
| Env.RequiredOfMembers | src/lib/env.ts:41-46 | a key is kept exactly when it is an issue and required |
| Env.CollectMissing | src/lib/env.ts:37-53 | the loop and the conditional pushes give the required issues, then the missing Google keys when Gmail is enabled |
| Env.SchemaIssuesRequired | src/lib/env.ts:39-47 | every schema issue is a required key |
| Env.MissingRequired | src/lib/env.ts:18-47 | each required key is missing exactly when it is empty or, for the URL, invalid |
| Env.MissingGmail | src/lib/env.ts:49-53 | a Google key is missing exactly when Gmail is enabled and it is empty; Gmail is enabled when the flag is absent |
| Env.Load | src/lib/env.ts:55-71 | loading fails exactly when something is missing, with the names comma-joined in the message, and exports the parsed flag |
| Env.LoadOk | src/lib/env.ts:63-71 | a loaded configuration carries the given values, and Google credentials whenever Gmail is enabled |
| Statuses.NamesInOrder | src/app/api/jobs/route.ts:7-18 | the ten names in allow-list order |
| Statuses.FromName | src/app/api/jobs/route.ts:53 | a name is accepted exactly when it is in the allow-list, and maps back to itself |
| Statuses.NameRoundTrip | src/app/api/jobs/route.ts:7-18 | every status round-trips through its name |
| Statuses.NamesDistinct | src/app/api/jobs/route.ts:7-18 | the ten names are distinct |
| JobsRoute.DigitPrefix | src/app/api/jobs/route.ts:76 | the longest run of leading digits |
| JobsRoute.Decimal | src/app/api/jobs/route.ts:76 | the decimal numeral of a number is a non-empty string of digits |
| JobsRoute.DecimalValue | src/app/api/jobs/route.ts:76 | a numeral's digits denote its number |
| JobsRoute.DigitPrefixAll | src/app/api/jobs/route.ts:76 | an all-digit string is its own digit prefix |
| JobsRoute.ParseDecimal | src/app/api/jobs/route.ts:76 | `parseInt` reads back every decimal numeral |
| JobsRoute.ParseNegativeDecimal | src/app/api/jobs/route.ts:76 | a minus sign negates the number read |
| JobsRoute.ParseIntStopsAtNonDigit | src/app/api/jobs/route.ts:76-77 | examples: `"12abc"` reads 12 and `"abc"` reads nothing |
| JobsRoute.LimitTakeSpec | src/app/api/jobs/route.ts:74-80 | `take` is 100 without a parseable limit, otherwise the limit clamped to [1, 200] |
| JobsRoute.LimitTakeNumerals | src/app/api/jobs/route.ts:74-80 | a numeral n gives 1 for 0, 200 above 200, and n otherwise |
| JobsRoute.Take | src/app/api/jobs/route.ts:74-80 | the reassignments of `take` compute the clamped limit |
| JobsRoute.BuildListQuery | src/app/api/jobs/route.ts:44-80 | an unknown status gives 400, then an unparseable `since` gives 400; the query is accepted exactly when neither happens, and then the filter has the user, the status, the search, the date and the clamped limit exactly as given |
| JobsRoute.GetJob | src/app/api/jobs/route.ts:29-41 | a job is returned exactly when it exists and is the user's; otherwise 404 |
| JobsRoute.ForeignJobHidden | src/app/api/jobs/route.ts:38-40 | another user's job is indistinguishable from a missing one |
| JobsRoute.NonEmptyField | src/app/api/jobs/route.ts:113-114 | an absent field is fine; a present one must be a non-empty string |
| JobsRoute.ParsePatch | src/app/api/jobs/route.ts:97-119 | a valid patch is an object with at least one field, and has each field exactly when the body does |
| JobsRoute.ParsePatchValues | src/app/api/jobs/route.ts:97-115 | a valid patch's status is an allow-listed name and its company and role are the non-empty strings given |
| JobsRoute.ParsePatchRejects | src/app/api/jobs/route.ts:97-119 | a body without any of the three fields, one with an unknown status, and an array are all rejected |
| JobsRoute.ApplyJobPatch | src/app/api/jobs/route.ts:149-155 | only the supplied fields change |
| JobsRoute.Patch | src/app/api/jobs/route.ts:121-157 | the checks run in order (401, missing id, invalid JSON, invalid input, 404); success updates exactly the owned job with the supplied fields, and nothing else changes |
| Kanban.WithStatus | src/app/kanban/KanbanBoard.tsx:61-64 | a column holds no more cards than there are jobs |
| Kanban.WithStatusMembers | src/app/kanban/KanbanBoard.tsx:61-64 | a card is in a status's column exactly when it is a job with that status |
| Kanban.WithStatusNone | src/app/kanban/KanbanBoard.tsx:60 | a status no job has gives an empty column |
| Kanban.ColumnKeysShape | src/app/kanban/KanbanBoard.tsx:58-64 | the column keys are distinct, start with the ten statuses, and add exactly the unknown statuses of the jobs |
| Kanban.ColumnKeysPush | src/app/kanban/KanbanBoard.tsx:62 | a job with a new status opens a column at the end |
| Kanban.ColumnNamesDistinct | src/app/kanban/KanbanBoard.tsx:16-27 | the ten column names are distinct |
| Kanban.StatusColumnsPresent | src/app/kanban/KanbanBoard.tsx:60 | all ten status columns exist even when empty |
| Kanban.Insert | src/app/kanban/KanbanBoard.tsx:67-71 | inserting adds exactly one card |
| Kanban.SortByRecency | src/app/kanban/KanbanBoard.tsx:67-71 | sorting keeps the column's length |
| Kanban.InsertCards | src/app/kanban/KanbanBoard.tsx:67-71 | inserting adds that card to the multiset |
| Kanban.InsertHead | src/app/kanban/KanbanBoard.tsx:67-71 | the first card after an insertion is the new card or the old first one |
| Kanban.InsertNewestFirst | src/app/kanban/KanbanBoard.tsx:67-71 | inserting into a newest-first column keeps it newest first |
| Kanban.SortByRecencySpec | src/app/kanban/KanbanBoard.tsx:66-72 | the sorted column is newest first (null as 0) and a permutation of the original |
| Kanban.SortKeepsSorted | src/app/kanban/KanbanBoard.tsx:66-72 | a column already newest first is unchanged by the sort |
| Kanban.WithKey | src/app/kanban/KanbanBoard.tsx:66-72 | the cards with one sort key, in order, are no more than the column |
| Kanban.InsertWithKey | src/app/kanban/KanbanBoard.tsx:67-71 | an inserted card goes ahead of every card with its key and leaves the others with that key in order |
| Kanban.SortIsStable | src/app/kanban/KanbanBoard.tsx:66-72 | for every column and key, the cards with equal recency keep their relative order (a stable sort) |
| Kanban.ConcatIsFlat | src/app/kanban/KanbanBoard.tsx:58-74 | concatenating the map's columns in key order gives the flat list of columns |
| Kanban.NewColumns | src/app/kanban/KanbanBoard.tsx:59-60 | the map starts with the ten statuses, each empty |
| Kanban.PushCards | src/app/kanban/KanbanBoard.tsx:61-64 | the push loop leaves each key holding exactly the jobs with that status, in order, with new keys for unknown statuses |
| Kanban.SortColumns | src/app/kanban/KanbanBoard.tsx:66-72 | the sort loop sorts exactly the ten status columns and leaves the others in insertion order |
| Kanban.GroupColumns | src/app/kanban/KanbanBoard.tsx:58-74 | the memo gives the column keys, each column as specified, and the concatenated columns are a permutation of the jobs |
| Kanban.ColumnsCover | src/app/kanban/KanbanBoard.tsx:58-64 | every job lies in exactly the column for its status, and that column exists |
| Kanban.StatusColumnsSorted | src/app/kanban/KanbanBoard.tsx:66-72 | each of the ten status columns is newest first |
| Kanban.TailDistinct | src/app/kanban/KanbanBoard.tsx:58-64 | the keys after the first are distinct and do not repeat it |
| Kanban.WithStatusPush | src/app/kanban/KanbanBoard.tsx:63 | a pushed job joins the end of its own column only |
| Kanban.FlatGroupsPush | src/app/kanban/KanbanBoard.tsx:61-64 | pushing a job adds it once to the grouped cards when its status has a column |
| Kanban.GroupingPermutation | src/app/kanban/KanbanBoard.tsx:61-64 | grouping neither drops nor duplicates jobs |
| Kanban.EmptyGroups | src/app/kanban/KanbanBoard.tsx:59-60 | no jobs give only empty columns |
| Kanban.SortedColumnsSameCards | src/app/kanban/KanbanBoard.tsx:66-72 | sorting the columns keeps the same cards |
| Kanban.ColumnsArePermutation | src/app/kanban/KanbanBoard.tsx:58-74 | the concatenated final columns are a permutation of the jobs |
| Kanban.FindIndex | src/app/kanban/KanbanBoard.tsx:77 | the first index with that id, or none when no job has it |
| Kanban.Relabel | src/app/kanban/KanbanBoard.tsx:84-88 | only the card at the index changes, and only its status |
| Kanban.FindRelabelled | src/app/kanban/KanbanBoard.tsx:104 | relabelling does not move any id |
| Kanban.FindSameIds | src/app/kanban/KanbanBoard.tsx:104 | lists with the same ids in order find the same index |
| Kanban.RevertUndoesChange | src/app/kanban/KanbanBoard.tsx:100-107 | reverting an optimistic change restores the list |
| Kanban.Board.constructor | src/app/kanban/KanbanBoard.tsx:30-33 | the board holds the loaded jobs and no pending flags |
| Kanban.Board.BeginChange | src/app/kanban/KanbanBoard.tsx:76-88 | an unknown id or an unchanged status does nothing; otherwise the job is relabelled at its index, flagged pending, and its old status returned |
| Kanban.Board.Settle | src/app/kanban/KanbanBoard.tsx:96-111 | on failure only the job with that id reverts, and the pending flag is cleared either way |
| Kanban.Board.ChangeStatus | src/app/kanban/KanbanBoard.tsx:76-112 | the whole change is a no-op for an unknown id or unchanged status; otherwise the job ends relabelled on success, restored on failure, and not pending |

## Left out

- Network and SDK calls (`googleapis`, `fetch` to the OAuth and Gmail endpoints) are scripted replies or oracle
  parameters. `setTimeout` sleeps are recorded as delay values only.
- An exhausted reply script answers with an error other than 429 or 401. This ends listing and makes a get
  throw, which is what bounds the otherwise unbounded retries.
- Regular expressions (domain tokenising, the From-domain match, `extractCompany`, `extractRole`'s patterns) are
  oracles. No regex equivalence is claimed. ATS patterns and status keywords are substring tests, as the code
  uses them.
- `parseDateFromHeaders` and the `since` date parse are oracles returning a date or none. The header date falls
  back to `now`.
- Base64 and UTF-8 decoding is an oracle that may fail (`None` models the caught throw).
- `makeDedupeKey` is an uninterpreted function of (company, role, account id). Its definition
  (`src/lib/messageParser.ts`) is not part of this model.
- Confidence is in integer hundredths. The floating-point sum and `toFixed(2)` are not modelled.
- Lower-casing is ASCII only. There is no Unicode case folding.
- `IngestContent.QueryNamesAll`: states the query's prefix and that every keyword and `from:` term occurs. It
  does not state term-by-term equality with the literal `newer_than:30d (k1 OR … ) AND (…)` text, which is its
  defining body.
- The search domains in the query are not proved equal to the ATS table's patterns. They are two separate lists
  in the source.
- The `tokens` listener's writes during the client check and during in-loop refreshes (`Gmail.OnTokens` is
  modelled on its own). Concurrent runs and the interleaving of token writes with a run are not modelled.
- Failures of the store calls in the ingest route other than partial completion of the four per-message writes
  (`writesDone`), for example `findMany` or the `lastPollAt` update throwing.
- IngestRun.ProcessAccounts, IngestRun.AccountTurn, IngestRun.ProcessRef: take the classifier, the client
  check and the account step as parameters, related to the concrete functions by `RunSteps` (`GateIs` and `VisitIs`). `IngestRun.Ingest`
  passes the concrete ones.
- `findMany` returns accounts in increasing id order, and `FindAccount`/`FindJob` return the least matching id.
  With unique connections (and unique hashes), at most one row matches.
- `internalDate` that is not a number (`Number` giving NaN), and NaN dates in the Kanban sort, are not modelled.
  Dates are integers in milliseconds.
- The JavaScript ordering of integer-like record keys in `headersObj` is not modelled. Keys keep insertion order.
- JobsRoute: the `GET` session check is the same as `PATCH`'s and is not a separate member. The `findMany`
  with `where`, `take` and ordering is described by the `Selects` predicate and the built query, not executed.
- GmailCallback.Callback: the exchange, the profile fetch and the store write are reduced to their outcomes
  (`exchange`, `profile`, `storeOk`). URL construction and cookie reading are left out; the cookie deletion is
  the `deleteCookie` flag.
- The UI (`KanbanBoard` rendering, drag events, the jobs fetch on mount) is not modelled. The board starts from
  the loaded jobs.
- Env.SchemaIssues: the optional schema fields never produce issues here, because environment values are
  always strings. URL validity is the `validUrl` oracle.
