/** The token cache with its retries (uaaclient/token_fetcher.go). */
module TokenFetching {
  import opened Common

  datatype Token = Token(value: string, expiry: int)

  /** One answer of the server: a token, an error, both, or neither. */
  datatype Answer = Answer(token: Option<Token>, error: bool)

  /** The cache: the last token fetched and when to fetch again. */
  datatype Cache = Cache(token: Option<Token>, refetchAt: int)

  /**
   One call: the clock when it starts, whether the caller insists, and what the server will answer, attempt by
   attempt.
   */
  datatype Call = Call(now: int, force: bool, answers: seq<Answer>)

  /** What a call returns, and how often it asked the server. */
  datatype Fetch = Fetch(token: Option<Token>, error: bool, attempts: nat)

  predicate Fresh(c: Cache, now: int) {
    c.token.Some? && now < c.refetchAt
  }

  /** The position of the first answer with a token. */
  function FirstToken(answers: seq<Answer>): (n: nat)
    ensures n <= |answers|
    ensures n < |answers| ==> answers[n].token.Some?
    ensures forall i :: 0 <= i < n ==> answers[i].token.None?
  {
    if answers == [] || answers[0].token.Some? then 0 else 1 + FirstToken(answers[1..])
  }

  /** The first token within the allowed attempts is cached and returned; without one the cache stays as it is. */
  function FetchOnce(c: Cache, call: Call, maxRetries: nat, buffer: int): (Cache, Fetch)
    requires |call.answers| == maxRetries + 1
  {
    if !call.force && Fresh(c, call.now) then (c, Fetch(c.token, false, 0))
    else
      var n := FirstToken(call.answers);
      if n > maxRetries then (c, Fetch(None, call.answers[maxRetries].error, maxRetries + 1))
      else
        var token := call.answers[n].token;
        (Cache(token, token.value.expiry - buffer * SECOND), Fetch(token, call.answers[n].error, n + 1))
  }

  class TokenFetcher {
    var cachedToken: Option<Token>
    var refetchTokenTime: int
    const maxNumberOfRetries: nat
    const expirationBufferInSec: int

    constructor (maxNumberOfRetries: nat, expirationBufferInSec: int)
      ensures cachedToken == None
      ensures this.maxNumberOfRetries == maxNumberOfRetries && this.expirationBufferInSec == expirationBufferInSec
    {
      cachedToken, refetchTokenTime := None, 0;
      this.maxNumberOfRetries, this.expirationBufferInSec := maxNumberOfRetries, expirationBufferInSec;
    }

    method FetchToken(call: Call) returns (r: Fetch)
      requires |call.answers| == maxNumberOfRetries + 1
      modifies this
      ensures (Cache(cachedToken, refetchTokenTime), r)
           == FetchOnce(old(Cache(cachedToken, refetchTokenTime)), call, maxNumberOfRetries, expirationBufferInSec)
    {
      if !call.force && CanReturnCachedToken(call.now) { return Fetch(cachedToken, false, 0); }

      var retryCount := 0;
      var token: Option<Token> := None;
      var err := false;
      ghost var n := FirstToken(call.answers);
      while true
        invariant 0 <= retryCount <= maxNumberOfRetries && retryCount <= n
        invariant cachedToken == old(cachedToken) && refetchTokenTime == old(refetchTokenTime)
        decreases maxNumberOfRetries - retryCount
      {
        token, err := call.answers[retryCount].token, call.answers[retryCount].error;
        if token.Some? { break; }
        if retryCount < maxNumberOfRetries {
          retryCount := retryCount + 1;
        } else {
          return Fetch(None, err, retryCount + 1);
        }
      }
      UpdateCachedToken(token.value);
      return Fetch(cachedToken, err, retryCount + 1);
    }

    predicate CanReturnCachedToken(now: int)
      reads this
    {
      cachedToken.Some? && now < refetchTokenTime
    }

    method UpdateCachedToken(token: Token)
      modifies this
      ensures cachedToken == Some(token) && refetchTokenTime == token.expiry - expirationBufferInSec * SECOND
    {
      cachedToken := Some(token);
      refetchTokenTime := token.expiry - expirationBufferInSec * SECOND;
    }
  }

  // ---------------------------------------------------------------- runs

  ghost predicate Calls(calls: seq<Call>, maxRetries: nat) {
    forall i :: 0 <= i < |calls| ==> |calls[i].answers| == maxRetries + 1
  }

  /** The answers of a run of calls that starts with an empty cache, and the cache after it. */
  ghost function FetchAll(calls: seq<Call>, maxRetries: nat, buffer: int): (Cache, seq<Fetch>)
    requires Calls(calls, maxRetries)
    decreases |calls|
  {
    if calls == [] then (Cache(None, 0), []) else
    var (c, fetches) := FetchAll(calls[..|calls| - 1], maxRetries, buffer);
    var (c', f) := FetchOnce(c, calls[|calls| - 1], maxRetries, buffer);
    (c', fetches + [f])
  }

  /** The last token the server gave in the first `n` calls. */
  ghost function LastFetched(fetches: seq<Fetch>): Option<Token> {
    if fetches == [] then None
    else if fetches[|fetches| - 1].attempts > 0 && fetches[|fetches| - 1].token.Some? then fetches[|fetches| - 1].token
    else LastFetched(fetches[..|fetches| - 1])
  }

  /** The cache always holds the last token fetched, to be refetched the buffer before it expires. */
  ghost predicate Holds(c: Cache, fetches: seq<Fetch>, buffer: int) {
    c.token == LastFetched(fetches) && (c.token.Some? ==> c.refetchAt == c.token.value.expiry - buffer * SECOND)
  }

  lemma {:induction false} CacheHoldsLast(calls: seq<Call>, maxRetries: nat, buffer: int)
    requires Calls(calls, maxRetries)
    ensures |FetchAll(calls, maxRetries, buffer).1| == |calls|
    ensures Holds(FetchAll(calls, maxRetries, buffer).0, FetchAll(calls, maxRetries, buffer).1, buffer)
    decreases |calls|
  {
    if calls != [] {
      var before := calls[..|calls| - 1];
      CacheHoldsLast(before, maxRetries, buffer);
      var fetches := FetchAll(before, maxRetries, buffer).1;
      var all := FetchAll(calls, maxRetries, buffer).1;
      assert all[..|all| - 1] == fetches;
    }
  }

  /**
   After any run of calls, with any clock and any server: a token returned without asking is the last
   one the server gave, still before its expiry less the buffer, and nobody insisted; asking stops at
   the first token and after `maxRetries` + 1 attempts; the error is that of the last attempt, even beside a token;
   and a call without a token leaves the cache alone.
   */
  lemma NextCall(calls: seq<Call>, call: Call, maxRetries: nat, buffer: int)
    requires Calls(calls, maxRetries) && |call.answers| == maxRetries + 1
    ensures var (c, fetches) := FetchAll(calls, maxRetries, buffer);
            var (c', f) := FetchOnce(c, call, maxRetries, buffer);
            && f.attempts <= maxRetries + 1
            && f.error == (f.attempts > 0 && call.answers[f.attempts - 1].error)
            && (f.attempts == 0 ==>
                  && !call.force && f.token.Some? && f.token == LastFetched(fetches)
                  && call.now < f.token.value.expiry - buffer * SECOND && c' == c)
            && (f.attempts > 0 ==> call.force || LastFetched(fetches).None?
                                   || LastFetched(fetches).value.expiry - buffer * SECOND <= call.now)
            && (forall i :: 0 <= i < f.attempts - 1 ==> call.answers[i].token.None?)
            && (f.attempts > 0 && f.token.Some? ==>
               f.token == call.answers[f.attempts - 1].token && c'.token == f.token)
            && (f.token.None? ==> c' == c && f.attempts == maxRetries + 1
                                  && forall i :: 0 <= i <= maxRetries ==> call.answers[i].token.None?)
  {
    CacheHoldsLast(calls, maxRetries, buffer);
  }
}
