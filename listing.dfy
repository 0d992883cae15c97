/** The two Gmail retry loops of `POST` in src/app/api/ingest/route.ts: the paginated
    `messages.list` do-while and the per-message `messages.get` retry loop.

    The provider is scripted: the list and get answers form two sequences consumed one call
    at a time (a call past the end of a script fails with no status code), and the outcome of
    the k-th `ensureFreshAccessToken` call of the run is `refreshOk(k)`. Sleeps are recorded
    as the delays they would wait, in milliseconds. */
module Listing {
  import opened Wrappers
  import opened Text
  import opened IngestContent

  datatype MessageRef = MessageRef(id: string, threadId: string)

  /** A `messages.list` answer: a page or a thrown error with its status code (0: none). */
  datatype ListReply = Page(messages: seq<MessageRef>, nextPageToken: Option<string>) | ListFailure(code: int)

  /** A `messages.get` answer. */
  datatype GetReply = Full(msg: GmailMessage) | GetFailure(code: int)

  const MaxPerRun := 50
  const RateLimited := 429
  const Unauthorized := 401

  function Pow2(k: nat): (r: nat)
    ensures r >= 1
  {
    if k == 0 then 1 else 2 * Pow2(k - 1)
  }

  /** `Math.min(30000, 1000 * Math.pow(2, attempt))`. */
  function Backoff(attempt: nat): nat {
    if 1000 * Pow2(attempt) < 30000 then 1000 * Pow2(attempt) else 30000
  }

  /** The delays double from one second and are capped at thirty. */
  lemma BackoffValues()
    ensures Backoff(0) == 1000 && Backoff(1) == 2000 && Backoff(2) == 4000
    ensures Backoff(3) == 8000 && Backoff(4) == 16000 && Backoff(5) == 30000
  {
  }

  lemma {:induction false} Pow2Monotone(a: nat, b: nat)
    requires a <= b
    ensures Pow2(a) <= Pow2(b)
    decreases b
  {
    if a < b {
      Pow2Monotone(a, b - 1);
    }
  }

  /** The delay never falls as the attempt grows, and from the sixth attempt on it is the cap. */
  lemma BackoffMonotone(a: nat, b: nat)
    requires a <= b
    ensures Backoff(a) <= Backoff(b) <= 30000
    ensures b >= 5 ==> Backoff(b) == 30000
  {
    Pow2Monotone(a, b);
    if b >= 5 {
      Pow2Monotone(5, b);
    }
  }

  // ---------------------------------------------------------------------------------------
  // The listing do-while

  /** Why the listing loop stopped. */
  datatype EndReason =
    | Capped               // 50 or more refs
    | NoPageToken          // `while (pageToken)` failed
    | ListError(code: int) // an error other than 429 and 401
    | RefreshFailed        // the refresh after a 401 threw

  /** The loop's variables, with the calls made so far. */
  datatype ListState = ListState(
    refs: seq<MessageRef>, fetched: nat, attempt: nat, pageToken: Option<string>,
    pos: nat, refreshes: nat, requests: seq<int>, delays: seq<nat>)

  datatype ListEnd = ListEnd(state: ListState, reason: EndReason)

  /** The first list call of an account: no refs, no page token, attempt 0. */
  function ListStart(pos: nat, refreshes: nat): ListState {
    ListState([], 0, 0, None, pos, refreshes, [], [])
  }

  function ListReplyAt(script: seq<ListReply>, pos: nat): ListReply {
    if pos < |script| then script[pos] else ListFailure(0)
  }

  /** `maxResults: Math.min(50, MAX_PER_RUN - allMessageRefs.length)`. */
  function MaxResults(n: nat): int {
    if 50 < MaxPerRun - n then 50 else MaxPerRun - n
  }

  datatype Step = Again(next: ListState) | Stop(end: ListEnd)

  /** One pass of the loop body and the `while (pageToken)` test. */
  function ListStep(s: ListState, script: seq<ListReply>, refreshOk: nat -> bool): (r: Step)
    ensures r.Again? ==> s.pos < |script| && r.next.pos == s.pos + 1
    ensures r.Again? ==> |r.next.refs| < MaxPerRun || r.next.refs == s.refs
    ensures r.Stop? && r.end.reason.NoPageToken? && |s.refs| < MaxPerRun ==> |r.end.state.refs| < MaxPerRun
    ensures var t := if r.Again? then r.next else r.end.state;
            && t.pos == s.pos + 1 && t.refreshes >= s.refreshes && |t.requests| == |s.requests| + 1
            && t.fetched - s.fetched == |t.refs| - |s.refs|
    ensures r.Stop? ==> var e := r.end;
            && (e.reason.Capped? ==> |e.state.refs| >= MaxPerRun && e.state.pageToken.None?)
            && (e.reason.NoPageToken? ==> !Truthy(e.state.pageToken))
            && (e.reason.ListError? ==> e.reason.code != RateLimited && e.reason.code != Unauthorized)
            && (e.reason.RefreshFailed? ==> e.state.refreshes >= 1 && !refreshOk(e.state.refreshes - 1))
  {
    var s1 := s.(pos := s.pos + 1, requests := s.requests + [MaxResults(|s.refs|)]);
    match ListReplyAt(script, s.pos)
    case Page(msgs, next) =>
      var s2 := s1.(refs := s.refs + msgs, fetched := s.fetched + |msgs|, attempt := 0);
      if |s2.refs| >= MaxPerRun then Stop(ListEnd(s2.(pageToken := None), Capped))
      else if Truthy(next) then Again(s2.(pageToken := next))
      else Stop(ListEnd(s2.(pageToken := next), NoPageToken))
    case ListFailure(code) =>
      if code == RateLimited then
        var s2 := s1.(delays := s.delays + [Backoff(s.attempt)], attempt := s.attempt + 1);
        if Truthy(s.pageToken) then Again(s2) else Stop(ListEnd(s2, NoPageToken))
      else if code == Unauthorized then
        var s2 := s1.(refreshes := s.refreshes + 1);
        if !refreshOk(s.refreshes) then Stop(ListEnd(s2, RefreshFailed))
        else if Truthy(s.pageToken) then Again(s2)
        else Stop(ListEnd(s2, NoPageToken))
      else Stop(ListEnd(s1, ListError(code)))
  }

  /** The whole loop from state `s`, with what each way out leaves behind. */
  function ListRun(s: ListState, script: seq<ListReply>, refreshOk: nat -> bool): (e: ListEnd)
    ensures e.reason.Capped? ==> |e.state.refs| >= MaxPerRun && e.state.pageToken.None?
    ensures e.reason.NoPageToken? ==> !Truthy(e.state.pageToken)
    ensures e.reason.NoPageToken? && |s.refs| < MaxPerRun ==> |e.state.refs| < MaxPerRun
    ensures e.reason.ListError? ==> e.reason.code != RateLimited && e.reason.code != Unauthorized
    ensures e.reason.RefreshFailed? ==> e.state.refreshes >= 1 && !refreshOk(e.state.refreshes - 1)
    ensures e.state.pos > s.pos && e.state.refreshes >= s.refreshes
    ensures e.state.fetched - s.fetched == |e.state.refs| - |s.refs|
    ensures |e.state.requests| - |s.requests| == e.state.pos - s.pos
    decreases |script| - s.pos
  {
    match ListStep(s, script, refreshOk)
    case Again(s') => ListRun(s', script, refreshOk)
    case Stop(e) => e
  }

  /** The loop of `POST`, from the list call at `pos` with `refreshes` refreshes already made. */
  method ListMessages(script: seq<ListReply>, refreshOk: nat -> bool, pos0: nat, refreshes0: nat)
    returns (e: ListEnd)
    ensures e == ListRun(ListStart(pos0, refreshes0), script, refreshOk)
  {
    var refs: seq<MessageRef> := [];
    var fetched: nat := 0;
    var attempt: nat := 0;
    var pageToken: Option<string> := None;
    var pos := pos0;
    var refreshes := refreshes0;
    var requests: seq<int> := [];
    var delays: seq<nat> := [];
    var goal := ListRun(ListStart(pos0, refreshes0), script, refreshOk);
    var looping := true;
    e := goal;
    while looping
      invariant looping ==>
                  ListRun(ListState(refs, fetched, attempt, pageToken, pos, refreshes, requests, delays),
                          script, refreshOk) == goal
      invariant !looping ==> e == goal
      decreases looping, |script| - pos
    {
      ghost var s := ListState(refs, fetched, attempt, pageToken, pos, refreshes, requests, delays);
      var reply := ListReplyAt(script, pos);
      requests := requests + [MaxResults(|refs|)];
      pos := pos + 1;
      if reply.Page? {
        var msgs := reply.messages;
        fetched := fetched + |msgs|;
        refs := refs + msgs;
        attempt := 0;
        if |refs| >= MaxPerRun {
          pageToken := None;
          e := ListEnd(ListState(refs, fetched, attempt, pageToken, pos, refreshes, requests, delays), Capped);
          looping := false;
        } else {
          pageToken := reply.nextPageToken;
          if !Truthy(pageToken) {
            e := ListEnd(ListState(refs, fetched, attempt, pageToken, pos, refreshes, requests, delays), NoPageToken);
            looping := false;
          }
        }
      } else if reply.code == RateLimited {
        var delayMs := Backoff(attempt);
        attempt := attempt + 1;
        delays := delays + [delayMs];
        if !Truthy(pageToken) {
          e := ListEnd(ListState(refs, fetched, attempt, pageToken, pos, refreshes, requests, delays), NoPageToken);
          looping := false;
        }
      } else if reply.code == Unauthorized {
        var refreshed := refreshOk(refreshes);
        refreshes := refreshes + 1;
        if !refreshed {
          e := ListEnd(ListState(refs, fetched, attempt, pageToken, pos, refreshes, requests, delays), RefreshFailed);
          looping := false;
        } else if !Truthy(pageToken) {
          e := ListEnd(ListState(refs, fetched, attempt, pageToken, pos, refreshes, requests, delays), NoPageToken);
          looping := false;
        }
      } else {
        e := ListEnd(ListState(refs, fetched, attempt, pageToken, pos, refreshes, requests, delays), ListError(reply.code));
        looping := false;
      }
      assert ListStep(s, script, refreshOk) ==
               if looping then Again(ListState(refs, fetched, attempt, pageToken, pos, refreshes, requests, delays))
               else Stop(e);
    }
  }

  /** Every page holds no more refs than its call asked for, all along the run from `s`. */
  predicate Honours(s: ListState, script: seq<ListReply>, refreshOk: nat -> bool)
    decreases |script| - s.pos
  {
    && (ListReplyAt(script, s.pos).Page? ==>
          |ListReplyAt(script, s.pos).messages| <= MaxResults(|s.refs|))
    && match ListStep(s, script, refreshOk)
       case Again(s') => Honours(s', script, refreshOk)
       case Stop(_) => true
  }

  /** With a provider that honours `maxResults`, an account never collects more than 50 refs. */
  lemma {:induction false} RefsCapped(s: ListState, script: seq<ListReply>, refreshOk: nat -> bool)
    requires |s.refs| < MaxPerRun
    requires Honours(s, script, refreshOk)
    ensures |ListRun(s, script, refreshOk).state.refs| <= MaxPerRun
    decreases |script| - s.pos
  {
    match ListStep(s, script, refreshOk)
    case Again(s') => RefsCapped(s', script, refreshOk);
    case Stop(e) =>
  }

  /** Example: without that promise the cap can be overshot, as a first page of 51 refs is
      kept whole. */
  lemma OvershootWithoutHonour(ms: seq<MessageRef>, refreshOk: nat -> bool)
    requires |ms| == 51
    ensures |ListRun(ListStart(0, 0), [Page(ms, Some("next"))], refreshOk).state.refs| == 51
  {
  }

  /** `messagesFetched` counts every listed ref, already-ingested ones included. */
  lemma FetchedCountsListed(script: seq<ListReply>, refreshOk: nat -> bool, pos: nat, refreshes: nat)
    ensures var e := ListRun(ListStart(pos, refreshes), script, refreshOk);
            e.state.fetched == |e.state.refs|
  {
  }

  /** A 429 or a 401 answered by a successful refresh on the first page does not retry:
      `continue` re-tests `while (pageToken)`, which is still unset, so listing ends with
      nothing. */
  lemma FirstPageRetryEnds(script: seq<ListReply>, refreshOk: nat -> bool, pos: nat, refreshes: nat)
    requires ListReplyAt(script, pos) == ListFailure(RateLimited)
             || (ListReplyAt(script, pos) == ListFailure(Unauthorized) && refreshOk(refreshes))
    ensures var e := ListRun(ListStart(pos, refreshes), script, refreshOk);
            e.reason == NoPageToken && e.state.refs == [] && e.state.pos == pos + 1
  {
  }

  /** On a later page the same answers retry the page they failed on, after the backoff
      delay for a 429. */
  lemma LaterPageRetries(s: ListState, script: seq<ListReply>, refreshOk: nat -> bool)
    requires Truthy(s.pageToken)
    ensures ListReplyAt(script, s.pos) == ListFailure(RateLimited) ==>
              ListStep(s, script, refreshOk)
              == Again(s.(pos := s.pos + 1, requests := s.requests + [MaxResults(|s.refs|)],
                          delays := s.delays + [Backoff(s.attempt)], attempt := s.attempt + 1))
    ensures ListReplyAt(script, s.pos) == ListFailure(Unauthorized) && refreshOk(s.refreshes) ==>
              ListStep(s, script, refreshOk)
              == Again(s.(pos := s.pos + 1, requests := s.requests + [MaxResults(|s.refs|)],
                          refreshes := s.refreshes + 1))
  {
  }

  /** A successful page resets the backoff attempt and asks for what is left of the 50. */
  lemma PageResetsAttempt(s: ListState, script: seq<ListReply>, refreshOk: nat -> bool)
    requires ListReplyAt(script, s.pos).Page?
    ensures match ListStep(s, script, refreshOk)
            case Again(s') => s'.attempt == 0 && |s'.refs| < MaxPerRun
            case Stop(e) => e.state.attempt == 0
    ensures |s.refs| <= MaxPerRun ==> MaxResults(|s.refs|) == MaxPerRun - |s.refs|
  {
  }

  /** A run of 429s waits `Backoff(a)`, `Backoff(a + 1)`, … in turn. */
  lemma {:induction false} ConsecutiveBackoffs(s: ListState, script: seq<ListReply>, refreshOk: nat -> bool, k: nat)
    requires Truthy(s.pageToken)
    requires forall i :: s.pos <= i < s.pos + k ==> ListReplyAt(script, i) == ListFailure(RateLimited)
    ensures var r := ListRun(s, script, refreshOk).state;
            && |s.delays| + k <= |r.delays|
            && forall i :: |s.delays| <= i < |s.delays| + k ==> r.delays[i] == Backoff(s.attempt + (i - |s.delays|))
    decreases k
  {
    DelaysKept(s, script, refreshOk);
    if k > 0 {
      match ListStep(s, script, refreshOk)
      case Again(s') =>
        assert s'.delays == s.delays + [Backoff(s.attempt)] && s'.attempt == s.attempt + 1;
        ConsecutiveBackoffs(s', script, refreshOk, k - 1);
        DelaysKept(s', script, refreshOk);
        var r := ListRun(s', script, refreshOk).state;
        assert r.delays[|s.delays|] == s'.delays[|s.delays|];
      case Stop(_) =>
    }
  }

  /** The run only appends to the delays. */
  lemma {:induction false} DelaysKept(s: ListState, script: seq<ListReply>, refreshOk: nat -> bool)
    ensures s.delays <= ListRun(s, script, refreshOk).state.delays
    decreases |script| - s.pos
  {
    match ListStep(s, script, refreshOk)
    case Again(s') => DelaysKept(s', script, refreshOk);
    case Stop(_) =>
  }

  // ---------------------------------------------------------------------------------------
  // The get retry loop

  datatype GetEnd = GetEnd(msg: Option<GmailMessage>, pos: nat, refreshes: nat, delays: seq<nat>)

  function GetReplyAt(script: seq<GetReply>, pos: nat): GetReply {
    if pos < |script| then script[pos] else GetFailure(0)
  }

  /** The get loop from the call at `pos` with backoff attempt `attempt` (`None`: it threw). */
  function GetRun(script: seq<GetReply>, refreshOk: nat -> bool, pos: nat, refreshes: nat,
                  attempt: nat, delays: seq<nat>): (e: GetEnd)
    ensures e.pos > pos && e.refreshes >= refreshes
    decreases |script| - pos
  {
    match GetReplyAt(script, pos)
    case Full(m) => GetEnd(Some(m), pos + 1, refreshes, delays)
    case GetFailure(code) =>
      if code == RateLimited then
        GetRun(script, refreshOk, pos + 1, refreshes, attempt + 1, delays + [Backoff(attempt)])
      else if code == Unauthorized && refreshOk(refreshes) then
        GetRun(script, refreshOk, pos + 1, refreshes + 1, attempt, delays)
      else if code == Unauthorized then GetEnd(None, pos + 1, refreshes + 1, delays)
      else GetEnd(None, pos + 1, refreshes, delays)
  }

  /** Each call of the get loop is one reply of the script; every wait it adds is the backoff
      for the next attempt; a message comes from the last reply it read. */
  lemma {:induction false} GetRunFacts(script: seq<GetReply>, refreshOk: nat -> bool, pos: nat, refreshes: nat,
                                       attempt: nat, delays: seq<nat>)
    ensures var e := GetRun(script, refreshOk, pos, refreshes, attempt, delays);
            && |e.delays| - |delays| <= e.pos - pos
            && delays <= e.delays
            && (forall i :: |delays| <= i < |e.delays| ==> e.delays[i] == Backoff(attempt + i - |delays|))
            && (e.msg.Some? ==> GetReplyAt(script, e.pos - 1) == Full(e.msg.value))
    decreases |script| - pos
  {
    match GetReplyAt(script, pos)
    case Full(m) =>
    case GetFailure(code) =>
      if code == RateLimited {
        var ds := delays + [Backoff(attempt)];
        GetRunFacts(script, refreshOk, pos + 1, refreshes, attempt + 1, ds);
        var e := GetRun(script, refreshOk, pos + 1, refreshes, attempt + 1, ds);
        forall i | |delays| <= i < |e.delays| ensures e.delays[i] == Backoff(attempt + i - |delays|) {
          if i == |delays| {
            assert e.delays[i] == ds[i];
          }
        }
      } else if code == Unauthorized && refreshOk(refreshes) {
        GetRunFacts(script, refreshOk, pos + 1, refreshes + 1, attempt, delays);
      }
  }

  /** The `messages.get` loop of one message. */
  method FetchMessage(script: seq<GetReply>, refreshOk: nat -> bool, pos0: nat, refreshes0: nat,
                      delays0: seq<nat>) returns (e: GetEnd)
    ensures e == GetRun(script, refreshOk, pos0, refreshes0, 0, delays0)
  {
    var attempt: nat := 0;
    var pos := pos0;
    var refreshes := refreshes0;
    var delays := delays0;
    while true
      invariant GetRun(script, refreshOk, pos, refreshes, attempt, delays)
                == GetRun(script, refreshOk, pos0, refreshes0, 0, delays0)
      decreases |script| - pos
    {
      var reply := GetReplyAt(script, pos);
      pos := pos + 1;
      if reply.Full? {
        return GetEnd(Some(reply.msg), pos, refreshes, delays);
      }
      if reply.code == RateLimited {
        var delayMs := Backoff(attempt);
        attempt := attempt + 1;
        delays := delays + [delayMs];
      } else if reply.code == Unauthorized {
        var refreshed := refreshOk(refreshes);
        refreshes := refreshes + 1;
        if !refreshed {
          return GetEnd(None, pos, refreshes, delays);
        }
      } else {
        return GetEnd(None, pos, refreshes, delays);
      }
    }
  }

  /** The get loop's own counter starts at 0, so its waits are 1000, 2000, 4000, … ms. */
  lemma GetBackoffFromZero(script: seq<GetReply>, refreshOk: nat -> bool, pos: nat, refreshes: nat)
    ensures var e := GetRun(script, refreshOk, pos, refreshes, 0, []);
            forall i :: 0 <= i < |e.delays| ==> e.delays[i] == Backoff(i)
  {
    GetRunFacts(script, refreshOk, pos, refreshes, 0, []);
  }

  /** A 401 is retried after every successful refresh, with no cap: `n` of them followed by
      the message still fetch it. */
  lemma {:induction false} UnauthorizedRetriedWithoutCap(script: seq<GetReply>, refreshOk: nat -> bool,
                                                         pos: nat, refreshes: nat, attempt: nat,
                                                         delays: seq<nat>, n: nat, m: GmailMessage)
    requires forall i :: pos <= i < pos + n ==> GetReplyAt(script, i) == GetFailure(Unauthorized)
    requires forall i :: refreshes <= i < refreshes + n ==> refreshOk(i)
    requires GetReplyAt(script, pos + n) == Full(m)
    ensures GetRun(script, refreshOk, pos, refreshes, attempt, delays)
            == GetEnd(Some(m), pos + n + 1, refreshes + n, delays)
    decreases n
  {
    if n > 0 {
      UnauthorizedRetriedWithoutCap(script, refreshOk, pos + 1, refreshes + 1, attempt, delays, n - 1, m);
    }
  }

  /** A failed refresh rethrows the original error; any other status throws at once. */
  lemma GetFailures(script: seq<GetReply>, refreshOk: nat -> bool, pos: nat, refreshes: nat,
                    attempt: nat, delays: seq<nat>)
    ensures GetReplyAt(script, pos) == GetFailure(Unauthorized) && !refreshOk(refreshes) ==>
              GetRun(script, refreshOk, pos, refreshes, attempt, delays) == GetEnd(None, pos + 1, refreshes + 1, delays)
    ensures (GetReplyAt(script, pos).GetFailure? && GetReplyAt(script, pos).code != RateLimited
             && GetReplyAt(script, pos).code != Unauthorized) ==>
              GetRun(script, refreshOk, pos, refreshes, attempt, delays) == GetEnd(None, pos + 1, refreshes, delays)
  {
  }
}
