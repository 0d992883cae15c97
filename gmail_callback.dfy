/** The OAuth redirect handler of src/app/api/gmail/callback/route.ts: the guards (session,
    code, the `state` check against cross-site request forgery of section 10.12 of RFC 6749),
    the code exchange and profile fetch (oracles), and the write of the connected account.

    A response is the redirect target, relative to the base URL, and whether the state cookie
    is deleted. */
module GmailCallback {
  import opened Wrappers
  import opened Text
  import opened Store

  datatype Response = Redirect(target: string, deleteCookie: bool)

  const SignIn := "/signin"
  const MissingCode := "/settings/accounts?error=Missing%20code"
  const InvalidState := "/settings/accounts?error=Invalid%20state"
  const NoEmail := "/settings/accounts?error=No%20email%20from%20Gmail%20profile"
  const Connected := "/settings/accounts?success=1"
  const ConnectFailed := "/settings/accounts?error=Gmail%20connect%20failed"

  /** The token endpoint's answer (`None` from the oracle: the exchange threw). */
  datatype Tokens = Tokens(accessToken: string, refreshToken: Option<string>, expiresIn: int)

  /** The state is accepted only when both the returned and the stored state are present,
      non-empty and equal. */
  predicate StateAccepted(returnedState: Option<string>, cookieState: Option<string>) {
    Truthy(returnedState) && Truthy(cookieState) && returnedState.value == cookieState.value
  }

  /** The early-return guards, in their order: the redirect they answer with, if any. */
  function GuardRedirect(session: Option<string>, code: Option<string>,
                         returnedState: Option<string>, cookieState: Option<string>): (r: Option<string>)
    ensures r.None? <==> session.Some? && Truthy(code) && StateAccepted(returnedState, cookieState)
  {
    if session.None? then Some(SignIn)
    else if !Truthy(code) then Some(MissingCode)
    else if !StateAccepted(returnedState, cookieState) then Some(InvalidState)
    else None
  }

  /** Without a session nothing else is looked at; a missing code is reported before a bad
      state; and a forged or missing state is always refused. */
  lemma GuardOrder(session: Option<string>, code: Option<string>,
                   returnedState: Option<string>, cookieState: Option<string>)
    ensures session.None? ==> GuardRedirect(session, code, returnedState, cookieState) == Some(SignIn)
    ensures session.Some? && !Truthy(code) ==>
              GuardRedirect(session, code, returnedState, cookieState) == Some(MissingCode)
    ensures session.Some? && Truthy(code) && !StateAccepted(returnedState, cookieState) ==>
              GuardRedirect(session, code, returnedState, cookieState) == Some(InvalidState)
  {
  }

  /** A state the attacker cannot match is refused, even when the cookie is missing and the
      returned state is empty. */
  lemma StateNeedsCookie(returnedState: Option<string>)
    ensures !StateAccepted(returnedState, None)
    ensures !StateAccepted(Some(""), Some(""))
    ensures StateAccepted(returnedState, returnedState) <==> Truthy(returnedState)
  {
  }

  /** `new Date(Date.now() + expires_in * 1000)`, in milliseconds. */
  function ExpiryAt(now: int, expiresIn: int): (r: int)
    ensures r - now == 1000 * expiresIn
  {
    now + expiresIn * 1000
  }

  /** The row the handler creates for a connection it has not seen. */
  function NewAccount(userId: string, email: string, t: Tokens, now: int): (a: EmailAccount)
    ensures SameConnection(a, userId, email) && a.email == email
    ensures a.refreshToken == t.refreshToken.GetOr("") && a.metadata == map[]
    ensures a.accessToken == Some(t.accessToken) && a.expiresAt == Some(ExpiryAt(now, t.expiresIn))
  {
    EmailAccount(userId, "gmail", email, email, Some(t.accessToken), t.refreshToken.GetOr(""),
                 Some(ExpiryAt(now, t.expiresIn)), map[])
  }

  /** The update of an existing row: new email, tokens and expiry; the old refresh token
      is kept when none is issued. */
  function Reconnected(a: EmailAccount, email: string, t: Tokens, now: int): (r: EmailAccount)
    ensures r.userId == a.userId && r.provider == a.provider && r.providerSub == a.providerSub
    ensures r.metadata == a.metadata && r.email == email
    ensures r.refreshToken == (if t.refreshToken.Some? then t.refreshToken.value else a.refreshToken)
    ensures r.accessToken == Some(t.accessToken) && r.expiresAt == Some(ExpiryAt(now, t.expiresIn))
  {
    a.(email := email, accessToken := Some(t.accessToken),
       refreshToken := t.refreshToken.GetOr(a.refreshToken), expiresAt := Some(ExpiryAt(now, t.expiresIn)))
  }

  /** `GET`. `exchange` answers the code exchange (`None`: it threw), `profile` the profile
      fetch for an access token (`None`: it threw; `Some(None)`: no `emailAddress`), and
      `storeOk` whether the database write succeeds. */
  method Callback(db: Db, session: Option<string>, code: Option<string>,
                  returnedState: Option<string>, cookieState: Option<string>,
                  exchange: Option<Tokens>, profile: string -> Option<Option<string>>,
                  storeOk: bool, now: int) returns (resp: Response)
    requires db.Valid()
    modifies db
    ensures db.Valid()
    ensures db.jobs == old(db.jobs) && db.nextJobId == old(db.nextJobId)
    ensures db.messages == old(db.messages) && db.events == old(db.events)
    ensures GuardRedirect(session, code, returnedState, cookieState).Some? ==>
              resp == Redirect(GuardRedirect(session, code, returnedState, cookieState).value, false)
              && db.accounts == old(db.accounts) && db.nextAccountId == old(db.nextAccountId)
    ensures GuardRedirect(session, code, returnedState, cookieState).None? ==>
              if exchange.None? || profile(exchange.value.accessToken).None? then
                resp == Redirect(ConnectFailed, false)
                && db.accounts == old(db.accounts) && db.nextAccountId == old(db.nextAccountId)
              else if !Truthy(profile(exchange.value.accessToken).value) then
                resp == Redirect(NoEmail, false)
                && db.accounts == old(db.accounts) && db.nextAccountId == old(db.nextAccountId)
              else if !storeOk then
                resp == Redirect(ConnectFailed, false)
                && db.accounts == old(db.accounts) && db.nextAccountId == old(db.nextAccountId)
              else
                var user := session.value;
                var email := profile(exchange.value.accessToken).value.value;
                var t := exchange.value;
                resp == Redirect(Connected, true)
                && match FindAccount(old(db.accounts), user, email, old(db.nextAccountId))
                   case Some(id) =>
                     db.accounts == old(db.accounts)[id := Reconnected(old(db.accounts)[id], email, t, now)]
                     && db.nextAccountId == old(db.nextAccountId)
                   case None =>
                     db.accounts == old(db.accounts)[old(db.nextAccountId) := NewAccount(user, email, t, now)]
                     && db.nextAccountId == old(db.nextAccountId) + 1
  {
    var guard := GuardRedirect(session, code, returnedState, cookieState);
    if guard.Some? {
      return Redirect(guard.value, false);
    }
    if exchange.None? {
      return Redirect(ConnectFailed, false);
    }
    var t := exchange.value;
    var fetched := profile(t.accessToken);
    if fetched.None? {
      return Redirect(ConnectFailed, false);
    }
    if !Truthy(fetched.value) {
      return Redirect(NoEmail, false);
    }
    var email := fetched.value.value;
    if !storeOk {
      return Redirect(ConnectFailed, false);
    }
    var user := session.value;
    var existing := FindAccount(db.accounts, user, email, db.nextAccountId);
    if existing.Some? {
      var id := existing.value;
      db.accounts := db.accounts[id := Reconnected(db.accounts[id], email, t, now)];
    } else {
      db.accounts := db.accounts[db.nextAccountId := NewAccount(user, email, t, now)];
      db.nextAccountId := db.nextAccountId + 1;
    }
    resp := Redirect(Connected, true);
  }

  /** Reconnecting never duplicates: an account already holding the connection is the one
      written, and a new row gets a connection no row had. */
  lemma ReconnectNeverDuplicates(accounts: map<nat, EmailAccount>, n: nat, user: string, email: string,
                                 t: Tokens, now: int)
    requires forall id :: id in accounts ==> id < n
    requires UniqueConnections(accounts)
    ensures FindAccount(accounts, user, email, n).None? ==>
              (forall id :: id in accounts ==> !SameConnection(accounts[id], user, email))
              && UniqueConnections(accounts[n := NewAccount(user, email, t, now)])
    ensures FindAccount(accounts, user, email, n).Some? ==>
              var id := FindAccount(accounts, user, email, n).value;
              (forall j :: j in accounts && SameConnection(accounts[j], user, email) ==> j == id)
              && UniqueConnections(accounts[id := Reconnected(accounts[id], email, t, now)])
  {
  }
}
