/** The token handling of src/lib/gmail.ts: the expiry test, the freshness gate
    `ensureFreshAccessToken` (refresh as in section 6 of RFC 6749), the record the `tokens`
    listener writes back, and the checks `getGmailClientForAccount` makes before any token work.

    Each `getAccessToken` call is an oracle: `ok(i)` says whether the i-th call of one gate
    succeeds. The clock is the parameter `now` (milliseconds). */
module Gmail {
  import opened Wrappers
  import opened Text
  import opened Store

  /** `isExpired`: no expiry recorded, or the expiry is not after now. */
  predicate IsExpired(expiresAt: Option<int>, now: int) {
    expiresAt.None? || expiresAt.value <= now
  }

  /** `!!refresh_token && refresh_token.trim().length > 0`. */
  predicate HasRefresh(refreshToken: string) {
    refreshToken != "" && Trim(refreshToken) != ""
  }

  /** A refresh token counts exactly when it has a character that is not white space. */
  lemma HasRefreshIff(refreshToken: string)
    ensures HasRefresh(refreshToken) <==> exists i :: 0 <= i < |refreshToken| && !IsSpace(refreshToken[i])
  {
    var d := TrimStart(refreshToken);
    TrimStartShape(refreshToken);
    TrimEndShape(d);
    var n := |refreshToken| - |d|;
    if Trim(refreshToken) != "" {
      assert !IsSpace(d[0]) && d[0] == refreshToken[n];
    }
  }

  /** The errors the gate throws. */
  datatype TokenError =
    | MissingRefresh   // "Missing refresh token for Gmail account. ..."
    | FailedRefresh    // "Failed to refresh Gmail access token. ..."
    | FailedObtain     // "Failed to obtain Gmail access token. ..."
    | NoValidToken     // "No valid Gmail access token and no refresh token available."

  /** How a gate ended, and how many `getAccessToken` calls it made. */
  datatype Fresh = Fresh(error: Option<TokenError>, calls: nat)

  /** `ensureFreshAccessToken`. */
  function EnsureFresh(a: EmailAccount, now: int, ok: nat -> bool): Fresh {
    var expired := IsExpired(a.expiresAt, now);
    var hasRefresh := HasRefresh(a.refreshToken);
    if (expired || !Truthy(a.accessToken)) && !hasRefresh then Fresh(Some(MissingRefresh), 0)
    else if expired then
      if ok(0) then Fresh(None, 1) else Fresh(Some(FailedRefresh), 1)
    else if ok(0) then Fresh(None, 1)
    else if hasRefresh then
      if ok(1) then Fresh(None, 2) else Fresh(Some(FailedObtain), 2)
    else Fresh(Some(NoValidToken), 1)
  }

  /** The early failure: exactly when the token is expired or missing and there is no refresh
      token, and then no call is made. */
  lemma EnsureFreshMissingRefresh(a: EmailAccount, now: int, ok: nat -> bool)
    ensures EnsureFresh(a, now, ok).error == Some(MissingRefresh) <==>
              (IsExpired(a.expiresAt, now) || !Truthy(a.accessToken)) && !HasRefresh(a.refreshToken)
    ensures EnsureFresh(a, now, ok).calls == 0 <==> EnsureFresh(a, now, ok).error == Some(MissingRefresh)
  {
  }

  /** An expired token past the early check: exactly one call, and its failure is reported as
      a failed refresh. */
  lemma EnsureFreshExpired(a: EmailAccount, now: int, ok: nat -> bool)
    requires IsExpired(a.expiresAt, now) && HasRefresh(a.refreshToken)
    ensures EnsureFresh(a, now, ok).calls == 1
    ensures EnsureFresh(a, now, ok).error == (if ok(0) then None else Some(FailedRefresh))
  {
  }

  /** A live token whose first call fails: a second call only with a refresh token. */
  lemma EnsureFreshRetry(a: EmailAccount, now: int, ok: nat -> bool)
    requires !IsExpired(a.expiresAt, now) && Truthy(a.accessToken) && !ok(0)
    ensures HasRefresh(a.refreshToken) ==>
              EnsureFresh(a, now, ok) == Fresh(if ok(1) then None else Some(FailedObtain), 2)
    ensures !HasRefresh(a.refreshToken) ==> EnsureFresh(a, now, ok) == Fresh(Some(NoValidToken), 1)
  {
  }

  /** At most two calls; the gate passes exactly when the first call succeeds, or a live token
      with a refresh token gets a successful second call. */
  lemma EnsureFreshOutcome(a: EmailAccount, now: int, ok: nat -> bool)
    ensures EnsureFresh(a, now, ok).calls <= 2
    ensures EnsureFresh(a, now, ok).error.None? <==>
              !((IsExpired(a.expiresAt, now) || !Truthy(a.accessToken)) && !HasRefresh(a.refreshToken))
              && (ok(0) || (!IsExpired(a.expiresAt, now) && HasRefresh(a.refreshToken) && ok(1)))
  {
  }

  // ---------------------------------------------------------------------------------------
  // The `tokens` listener

  /** What the OAuth client emits: `expiryDate` is present when `expiry_date` is a number. */
  datatype IssuedTokens = IssuedTokens(
    accessToken: Option<string>, refreshToken: Option<string>, expiryDate: Option<int>)

  /** The `data` record: a field is present only when it is to be written. */
  datatype TokenPatch = TokenPatch(
    accessToken: Option<string>, refreshToken: Option<string>, expiresAt: Option<int>)

  predicate EmptyPatch(p: TokenPatch) {
    p.accessToken.None? && p.refreshToken.None? && p.expiresAt.None?
  }

  /** `prisma.emailAccount.update` with the record: the present fields overwrite. */
  function ApplyTokenPatch(a: EmailAccount, p: TokenPatch): (r: EmailAccount)
    ensures r.userId == a.userId && r.provider == a.provider && r.providerSub == a.providerSub
    ensures r.email == a.email && r.metadata == a.metadata
  {
    a.(accessToken := if p.accessToken.Some? then p.accessToken else a.accessToken,
       refreshToken := p.refreshToken.GetOr(a.refreshToken),
       expiresAt := if p.expiresAt.Some? then p.expiresAt else a.expiresAt)
  }

  /** Builds the record field by field: a token only when issued (truthy), the expiry only
      when it is a number. */
  method BuildTokenPatch(t: IssuedTokens) returns (data: TokenPatch)
    ensures data.accessToken == (if Truthy(t.accessToken) then t.accessToken else None)
    ensures data.refreshToken == (if Truthy(t.refreshToken) then t.refreshToken else None)
    ensures data.expiresAt == t.expiryDate
  {
    data := TokenPatch(None, None, None);
    if Truthy(t.accessToken) { data := data.(accessToken := t.accessToken); }
    if Truthy(t.refreshToken) { data := data.(refreshToken := t.refreshToken); }
    if t.expiryDate.Some? { data := data.(expiresAt := t.expiryDate); }
  }

  /** The record the listener writes for the tokens. */
  function PatchOf(t: IssuedTokens): TokenPatch {
    TokenPatch(if Truthy(t.accessToken) then t.accessToken else None,
               if Truthy(t.refreshToken) then t.refreshToken else None,
               t.expiryDate)
  }

  /** The listener: writes the record when it has a field; an update of a missing account
      throws inside the listener's `try` and changes nothing. */
  method OnTokens(db: Db, id: nat, t: IssuedTokens)
    requires db.Valid()
    modifies db
    ensures db.Valid()
    ensures db.accounts == if !EmptyPatch(PatchOf(t)) && id in old(db.accounts)
                           then old(db.accounts)[id := ApplyTokenPatch(old(db.accounts)[id], PatchOf(t))]
                           else old(db.accounts)
    ensures db.nextAccountId == old(db.nextAccountId)
    ensures db.jobs == old(db.jobs) && db.nextJobId == old(db.nextJobId)
    ensures db.messages == old(db.messages) && db.events == old(db.events)
  {
    var data := BuildTokenPatch(t);
    if !EmptyPatch(data) && id in db.accounts {
      db.accounts := db.accounts[id := ApplyTokenPatch(db.accounts[id], data)];
    }
  }

  /** A stored refresh token survives a refresh that issues none; an access token or expiry
      is replaced only by a new one. */
  lemma TokensKeepStoredRefresh(a: EmailAccount, t: IssuedTokens)
    ensures ApplyTokenPatch(a, PatchOf(t)).refreshToken ==
              (if Truthy(t.refreshToken) then t.refreshToken.value else a.refreshToken)
    ensures !Truthy(t.accessToken) ==> ApplyTokenPatch(a, PatchOf(t)).accessToken == a.accessToken
    ensures t.expiryDate.None? ==> ApplyTokenPatch(a, PatchOf(t)).expiresAt == a.expiresAt
  {
  }

  /** With nothing issued the listener writes nothing. */
  lemma NothingIssuedNoWrite(t: IssuedTokens)
    ensures EmptyPatch(PatchOf(t)) <==> !Truthy(t.accessToken) && !Truthy(t.refreshToken) && t.expiryDate.None?
  {
  }

  // ---------------------------------------------------------------------------------------
  // getGmailClientForAccount

  datatype ClientError =
    | NotGmail          // "Email account provider is not Gmail."
    | MissingEnv(name: string)   // "Missing <name> environment variable"
    | TokenFailed(error: TokenError)

  /** How building a client ended, and how many `getAccessToken` calls it made. */
  datatype ClientOutcome = ClientOutcome(error: Option<ClientError>, calls: nat)

  /** `getGmailClientForAccount`: the provider check, the two `assertEnv` checks of
      `createOAuthClientForAccount`, then the freshness gate. */
  function GetGmailClient(a: EmailAccount, clientId: Option<string>, clientSecret: Option<string>,
                          now: int, ok: nat -> bool): ClientOutcome
  {
    if a.provider != "gmail" then ClientOutcome(Some(NotGmail), 0)
    else if !Truthy(clientId) then ClientOutcome(Some(MissingEnv("GOOGLE_CLIENT_ID")), 0)
    else if !Truthy(clientSecret) then ClientOutcome(Some(MissingEnv("GOOGLE_CLIENT_SECRET")), 0)
    else
      var f := EnsureFresh(a, now, ok);
      ClientOutcome(if f.error.Some? then Some(TokenFailed(f.error.value)) else None, f.calls)
  }

  /** Another provider is rejected before any configuration or token work. */
  lemma NonGmailRejectedFirst(a: EmailAccount, clientId: Option<string>, clientSecret: Option<string>,
                              now: int, ok: nat -> bool)
    requires a.provider != "gmail"
    ensures GetGmailClient(a, clientId, clientSecret, now, ok) == ClientOutcome(Some(NotGmail), 0)
  {
  }

  /** A Gmail account with the client configured gets exactly the gate's verdict. */
  lemma ClientIsGate(a: EmailAccount, clientId: Option<string>, clientSecret: Option<string>,
                     now: int, ok: nat -> bool)
    requires a.provider == "gmail" && Truthy(clientId) && Truthy(clientSecret)
    ensures GetGmailClient(a, clientId, clientSecret, now, ok).error.None? <==> EnsureFresh(a, now, ok).error.None?
    ensures GetGmailClient(a, clientId, clientSecret, now, ok).calls == EnsureFresh(a, now, ok).calls
  {
  }
}
