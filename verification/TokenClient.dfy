/** The token cache of the OpsRamp client and the request retry built on it (internal/opsramp/client.go).
    Times and durations are nanoseconds; the token endpoint and the API are inputs. */
module TokenClient {
  import opened Text

  const SECOND: int := 1_000_000_000
  const TOKEN_SKEW: int := 60 * SECOND
  const MAX_TTL: int := 7200 * SECOND
  const MIN_TTL: int := 300 * SECOND

  // ---------------------------------------------------------------- the lifetime of a token

  const TWO55: int := 0x80_0000_0000_0000
  const TWO63: int := 0x8000_0000_0000_0000
  const TWO64: int := 0x1_0000_0000_0000_0000

  predicate IsInt64(x: int) { -TWO63 <= x < TWO63 }

  /** Two's complement. */
  function Wrap64(x: int): (r: int)
    ensures IsInt64(r)
  {
    (x + TWO63) % (2 * TWO63) - TWO63
  }

  lemma WrapIdentity(x: int)
    ensures Wrap64(x) == x <==> IsInt64(x)
  {
  }

  /** What a cautious reading of expires_in allows: at most two hours, and five minutes for a lifetime that is
      not positive. */
  function Lifetime(expiresIn: int): int {
    if expiresIn <= 0 then MIN_TTL else if expiresIn >= 7200 then MAX_TTL else expiresIn * SECOND
  }

  /** The int64 computation: in (0, 2h] for every expires_in, also when the product wraps. */
  function Ttl(expiresIn: int): (ttl: int)
    requires IsInt64(expiresIn)
    ensures 0 < ttl <= MAX_TTL
  {
    var ttl := Wrap64(expiresIn * SECOND);
    if ttl <= 0 then MIN_TTL else if ttl > MAX_TTL then MAX_TTL else ttl
  }

  /** 10^9 is 2^9 * FIVE9, and INVERSE * FIVE9 == 1 + MULTIPLE * TWO55. */
  const FIVE9: int := 1_953_125
  const INVERSE: int := 20211507185753197
  const MULTIPLE: int := 1095668

  /** Seconds that int64 nanoseconds can hold. */
  const MOST_SECONDS: int := 9_223_372_036

  /** The computed lifetime is the cautious one exactly when the product fits or wraps to the same side. */
  lemma LifetimeByProduct(expiresIn: int)
    requires IsInt64(expiresIn)
    ensures var wrapped := Wrap64(expiresIn * SECOND);
      Ttl(expiresIn) == Lifetime(expiresIn) <==>
      (-MOST_SECONDS <= expiresIn <= MOST_SECONDS
      || (if expiresIn > 0 then wrapped >= MAX_TTL else wrapped <= 0 || wrapped == MIN_TTL))
  {
    WrapIdentity(expiresIn * SECOND);
  }

  /** The first whole second at or after ns, and the last one at or before it. */
  function FirstSecond(ns: int): int { -((-ns) / SECOND) }
  function LastSecond(ns: int): int { ns / SECOND }

  /** The seconds whose product has wrapped q times and lies on its own side of the limits. */
  predicate InStretch(expiresIn: int, q: int) {
    if expiresIn > 0 then FirstSecond(q * TWO64 + MAX_TTL) <= expiresIn <= LastSecond(q * TWO64 + TWO63 - 1)
    else FirstSecond(q * TWO64 - TWO63) <= expiresIn <= LastSecond(q * TWO64)
  }

  lemma WrapOf(x: int, q: int)
    ensures -TWO63 <= x - q * TWO64 < TWO63 <==> q == (x + TWO63) / TWO64
    ensures q == (x + TWO63) / TWO64 ==> Wrap64(x) == x - q * TWO64
  {
  }

  lemma SecondsAndProducts(expiresIn: int, ns: int)
    ensures FirstSecond(ns) <= expiresIn <==> ns <= expiresIn * SECOND
    ensures expiresIn <= LastSecond(ns) <==> expiresIn * SECOND <= ns
  {
  }

  lemma StretchIff(expiresIn: int)
    ensures var wrapped := Wrap64(expiresIn * SECOND);
      (exists q :: InStretch(expiresIn, q)) <==> if expiresIn > 0 then wrapped >= MAX_TTL else wrapped <= 0
  {
    var x := expiresIn * SECOND;
    forall q ensures InStretch(expiresIn, q) <==>
      if expiresIn > 0 then q * TWO64 + MAX_TTL <= x <= q * TWO64 + TWO63 - 1 else q * TWO64 - TWO63 <= x <= q * TWO64
    {
      SecondsAndProducts(expiresIn, q * TWO64 + MAX_TTL);
      SecondsAndProducts(expiresIn, q * TWO64 + TWO63 - 1);
      SecondsAndProducts(expiresIn, q * TWO64 - TWO63);
      SecondsAndProducts(expiresIn, q * TWO64);
    }
    hide InStretch;
    var k := (x + TWO63) / TWO64;
    WrapOf(x, k);
    if q :| InStretch(expiresIn, q) {
      WrapOf(x, q);
    }
    assert InStretch(expiresIn, k) <==> if expiresIn > 0 then Wrap64(x) >= MAX_TTL else Wrap64(x) <= 0;
  }

  /** A multiple of 10^9 wraps to 300 seconds exactly every 2^55 seconds, 5^9 being odd. */
  lemma WrapsToMinimum(expiresIn: int)
    ensures Wrap64(expiresIn * SECOND) == MIN_TTL <==> (expiresIn - 300) % TWO55 == 0
  {
    var x, d := expiresIn * SECOND, expiresIn - 300;
    var k := (x + TWO63) / TWO64;
    WrapOf(x, k);
    if Wrap64(x) == MIN_TTL {
      assert d * FIVE9 == k * TWO55;
      assert d == TWO55 * (INVERSE * k - MULTIPLE * d);
    }
    if d % TWO55 == 0 {
      var n := d / TWO55;
      assert x == n * FIVE9 * TWO64 + MIN_TTL;
      WrapOf(x, n * FIVE9);
    }
  }

  /** Which expires_in are read as meant: up to two hours; in each stretch of 2^64 nanoseconds those whose product
      keeps its sign and, if positive, the two hours; and, of the negative ones, one in 2^55. */
  lemma TtlIsLifetime(expiresIn: int)
    requires IsInt64(expiresIn)
    ensures Ttl(expiresIn) == Lifetime(expiresIn) <==>
      || 0 < expiresIn <= 7200
      || (exists q :: InStretch(expiresIn, q))
      || (expiresIn <= 0 && (expiresIn - 300) % TWO55 == 0)
  {
    LifetimeByProduct(expiresIn);
    StretchIff(expiresIn);
    WrapsToMinimum(expiresIn);
    if -MOST_SECONDS <= expiresIn <= MOST_SECONDS {
      WrapIdentity(expiresIn * SECOND);
    }
    hide Ttl, Lifetime, InStretch;
  }

  /** One second more, in either direction, and the product wraps to the other sign. */
  lemma TtlWraps()
    ensures Ttl(MOST_SECONDS + 1) == MIN_TTL && Lifetime(MOST_SECONDS + 1) == MAX_TTL
    ensures Ttl(-MOST_SECONDS - 1) == MAX_TTL && Lifetime(-MOST_SECONDS - 1) == MIN_TTL
  {
  }

  // ---------------------------------------------------------------- the cache

  /** Granted stands for status 200 with a body that decodes. */
  datatype TokenReply = Unreachable | Refused(code: int) | Garbled | Granted(token: string, expiresIn: int)

  datatype Error = OAuth(reply: TokenReply) | EmptyToken | Transport

  /** One call of accessToken: the time of the look at the cache, and, if a token is fetched, the reply and the
      time it has been read. */
  datatype Op = Op(force: bool, now: int, reply: TokenReply, later: int)
  {
    predicate Sane() {
      now <= later && (reply.Granted? ==> IsInt64(reply.expiresIn))
    }
  }

  datatype Cache = Cache(token: string, expiry: int)

  const EMPTY: Cache := Cache("", 0)

  predicate Usable(c: Cache, now: int) {
    c.token != "" && now < c.expiry - TOKEN_SKEW
  }

  predicate Fetches(c: Cache, op: Op) {
    op.force || !Usable(c, op.now)
  }

  function Fetched(op: Op): Cache
    requires op.Sane()
  {
    if op.reply.Granted? && op.reply.token != "" then Cache(op.reply.token, op.later + Ttl(op.reply.expiresIn))
    else EMPTY
  }

  function Next(c: Cache, op: Op): Cache
    requires op.Sane()
  {
    if Fetches(c, op) then Fetched(op) else c
  }

  function Answer(c: Cache, op: Op): Result<string, Error> {
    if !Fetches(c, op) then Ok(c.token)
    else
      match op.reply
      case Granted(t, _) => if t == "" then Err(EmptyToken) else Ok(t)
      case r => Err(OAuth(r))
  }

  /** What accessToken hands out: a cached token with over a minute to live, unless a fetch is forced; otherwise what
      the endpoint grants. */
  lemma AnswerIs(c: Cache, op: Op)
    ensures Answer(c, op) ==
      if !op.force && c.token != "" && op.now + 60_000_000_000 < c.expiry then Ok(c.token)
      else if op.reply.Granted? && op.reply.token != "" then Ok(op.reply.token)
      else Err(if op.reply.Granted? then EmptyToken else OAuth(op.reply))
  {
  }

  datatype Request = Request(bearer: string, verb: string, url: string, body: Option<string>)

  datatype ApiReply = NoAnswer | Answered(code: int)

  predicate IsAuthStatus(code: int) { code == 401 || code == 407 }

  function Attempt(tok: Result<string, Error>, reply: ApiReply): Result<int, Error> {
    match tok
    case Err(e) => Err(e)
    case Ok(_) => (match reply case NoAnswer => Err(Transport) case Answered(code) => Ok(code))
  }

  /** The first request went out and its token was rejected. */
  predicate Rejected(c: Cache, op: Op, reply: ApiReply) {
    Answer(c, op).Ok? && (reply == Answered(401) || reply == Answered(407))
  }

  class Client {
    var token: string
    var tokenExpiry: int

    ghost function View(): Cache
      reads this
    {
      Cache(token, tokenExpiry)
    }

    constructor ()
      ensures View() == EMPTY
    {
      token, tokenExpiry := "", 0;
    }

    method TokenValid(now: int) returns (ok: bool)
      ensures ok == Usable(View(), now)
    {
      ok := token != "" && now < tokenExpiry - TOKEN_SKEW;
    }

    method FetchToken(op: Op) returns (r: Result<string, Error>)
      requires op.Sane()
      modifies this
      ensures View() == Fetched(op)
      ensures r.Ok? <==> View() != EMPTY
      ensures r == Answer(EMPTY, op)
    {
      token, tokenExpiry := "", 0;
      match op.reply {
        case Unreachable => return Err(OAuth(op.reply));
        case Refused(_) => return Err(OAuth(op.reply));
        case Garbled => return Err(OAuth(op.reply));
        case Granted(t, expiresIn) =>
          if t == "" {
            return Err(EmptyToken);
          }
          token := t;
          var ttl := Wrap64(expiresIn * SECOND);
          if ttl <= 0 {
            ttl := MIN_TTL;
          } else if ttl > MAX_TTL {
            ttl := MAX_TTL;
          }
          tokenExpiry := op.later + ttl;
          r := Ok(token);
      }
    }

    method AccessToken(op: Op) returns (r: Result<string, Error>, fetched: bool)
      requires op.Sane()
      modifies this
      ensures fetched == Fetches(old(View()), op)
      ensures View() == Next(old(View()), op) && r == Answer(old(View()), op)
    {
      fetched := true;
      if !op.force {
        var valid := TokenValid(op.now);
        if valid {
          return Ok(token), false;
        }
      }
      r := FetchToken(op);
    }

    /** One attempt; `sent` is what went out, under a token that this attempt's call of accessToken returned. */
    method DoOnce(req: Request, op: Op, reply: ApiReply)
      returns (r: Result<int, Error>, sent: seq<Request>, fetched: bool)
      requires op.Sane()
      modifies this
      ensures View() == Next(old(View()), op) && fetched == Fetches(old(View()), op)
      ensures r == Attempt(Answer(old(View()), op), reply)
      ensures sent == match Answer(old(View()), op) case Ok(t) => [req.(bearer := t)] case Err(_) => []
    {
      var tok;
      tok, fetched := AccessToken(op);
      if tok.Err? {
        return Err(tok.error), [], fetched;
      }
      sent := [req.(bearer := tok.value)];
      match reply {
        case NoAnswer => r := Err(Transport);
        case Answered(code) => r := Ok(code);
      }
    }

    /** do: at most two requests with the same verb, url and body and at most two token fetches. The second
        request goes out only when the first was answered 401 or 407, and carries the token that the second
        call of accessToken has just been granted. */
    method Do(req: Request, op1: Op, reply1: ApiReply, op2: Op, reply2: ApiReply)
      returns (r: Result<int, Error>, sent: seq<Request>, fetches: nat)
      requires op1.Sane() && op2.Sane() && !op1.force && op2.force && op1.later <= op2.now
      modifies this
      ensures |sent| <= 2 && fetches <= 2
      ensures forall i :: 0 <= i < |sent| ==> sent[i] == req.(bearer := sent[i].bearer)
      ensures match Answer(old(View()), op1)
        case Err(e) => r == Err(e) && sent == [] && View() == Next(old(View()), op1)
        case Ok(tok) =>
          && |sent| >= 1 && sent[0] == req.(bearer := tok)
          && (reply1.NoAnswer? ==> r == Err(Transport) && |sent| == 1)
          && (reply1.Answered? && reply1.code != 401 && reply1.code != 407 ==> r == Ok(reply1.code) && |sent| == 1)
      ensures !Rejected(old(View()), op1, reply1) ==>
        View() == Next(old(View()), op1) && fetches == if Fetches(old(View()), op1) then 1 else 0
      ensures Rejected(old(View()), op1, reply1) ==>
        && View() == Fetched(op2) && fetches == (if Fetches(old(View()), op1) then 2 else 1)
        && if op2.reply.Granted? && op2.reply.token != ""
           then |sent| == 2 && sent[1] == req.(bearer := op2.reply.token)
                && r == (if reply2.Answered? then Ok(reply2.code) else Err(Transport))
           else |sent| == 1 && r == Err(if op2.reply.Granted? then EmptyToken else OAuth(op2.reply))
    {
      fetches := 0;
      var fetched;
      r, sent, fetched := DoOnce(req, op1, reply1);
      if fetched {
        fetches := fetches + 1;
      }
      if r.Err? || !IsAuthStatus(r.value) {
        return;
      }
      var again;
      r, again, fetched := DoOnce(req, op2, reply2);
      if fetched {
        fetches := fetches + 1;
      }
      sent := sent + again;
    }
  }

  /** A forced call does not depend on the cache, so whatever other callers did to it between the rejection and
      the retry, the retry carries a token granted to itself. */
  lemma ForcedIsIndependent(c: Cache, d: Cache, op: Op)
    requires op.Sane() && op.force
    ensures Next(c, op) == Next(d, op) && Answer(c, op) == Answer(d, op)
    ensures Answer(c, op).Ok? ==> op.reply.Granted? && Answer(c, op).value == op.reply.token
  {
  }

  // ---------------------------------------------------------------- runs

  /** Calls of accessToken by all callers in the order in which they hold the lock, under a clock that does not
      run backwards. */
  ghost predicate IsRun(ops: seq<Op>) {
    && (forall i :: 0 <= i < |ops| ==> ops[i].Sane())
    && (forall i, j :: 0 <= i < j < |ops| ==> ops[i].later <= ops[j].now)
  }

  /** The cache before call n. */
  ghost function CacheAt(ops: seq<Op>, n: nat): Cache
    requires IsRun(ops) && n <= |ops|
  {
    if n == 0 then EMPTY else Next(CacheAt(ops, n - 1), ops[n - 1])
  }

  ghost predicate FetchesAt(ops: seq<Op>, i: nat)
    requires IsRun(ops) && i < |ops|
  {
    Fetches(CacheAt(ops, i), ops[i])
  }

  /** Call j fetched the token, and no call after it up to i fetched anything. */
  ghost predicate GrantedAt(ops: seq<Op>, j: nat, i: nat, token: string)
    requires IsRun(ops) && j <= i < |ops|
  {
    && FetchesAt(ops, j)
    && ops[j].reply.Granted? && ops[j].reply.token == token && token != ""
    && (forall k :: j < k <= i ==> !FetchesAt(ops, k))
  }

  /** The cache before call n holds the grant of call j. */
  ghost predicate Holds(ops: seq<Op>, j: nat, n: nat)
    requires IsRun(ops) && j < n <= |ops|
  {
    && GrantedAt(ops, j, n - 1, CacheAt(ops, n).token)
    && CacheAt(ops, n).expiry == ops[j].later + Ttl(ops[j].reply.expiresIn)
  }

  /** What is cached before call n is the grant of the latest fetch. */
  lemma {:induction false} CacheIsLatestGrant(ops: seq<Op>, n: nat)
    requires IsRun(ops) && 0 < n <= |ops| && CacheAt(ops, n).token != ""
    ensures exists j: nat :: j < n && Holds(ops, j, n)
  {
    if FetchesAt(ops, n - 1) {
      assert Holds(ops, n - 1, n);
    } else {
      CacheIsLatestGrant(ops, n - 1);
      var j: nat :| j < n - 1 && Holds(ops, j, n - 1);
      assert Holds(ops, j, n);
    }
  }

  /** Main result: in every run, a token handed out was granted to that very call, or to the latest call that
      fetched, and then it is used more than a minute before an expiry at most two hours after its grant. */
  lemma HandedOut(ops: seq<Op>, i: nat) returns (j: nat)
    requires IsRun(ops) && i < |ops| && Answer(CacheAt(ops, i), ops[i]).Ok?
    ensures j <= i && GrantedAt(ops, j, i, Answer(CacheAt(ops, i), ops[i]).value)
    ensures j < i ==> ops[i].now + TOKEN_SKEW < ops[j].later + Ttl(ops[j].reply.expiresIn) <= ops[j].later + MAX_TTL
    ensures j < i ==> 0 <= ops[i].now - ops[j].later < MAX_TTL - TOKEN_SKEW
  {
    hide Ttl;
    if FetchesAt(ops, i) {
      return i;
    }
    CacheIsLatestGrant(ops, i);
    j :| j < i && Holds(ops, j, i);
    assert forall k :: j < k <= i ==> !FetchesAt(ops, k);
  }

  /** A call that was not forced fetches exactly when the latest fetch before it granted nothing, or what it
      granted has a minute or less to live. */
  lemma FetchesWhenStale(ops: seq<Op>, i: nat, j: nat)
    requires IsRun(ops) && j < i < |ops| && FetchesAt(ops, j) && forall k :: j < k < i ==> !FetchesAt(ops, k)
    requires !ops[i].force
    ensures FetchesAt(ops, i) <==>
      !(ops[j].reply.Granted? && ops[j].reply.token != "" &&
        ops[i].now < ops[j].later + Ttl(ops[j].reply.expiresIn) - TOKEN_SKEW)
  {
    hide Ttl;
    CacheKept(ops, j + 1, i);
  }

  lemma {:induction false} CacheKept(ops: seq<Op>, j: nat, i: nat)
    requires IsRun(ops) && j <= i <= |ops| && forall k :: j <= k < i ==> !FetchesAt(ops, k)
    ensures CacheAt(ops, i) == CacheAt(ops, j)
    decreases i - j
  {
    if j < i {
      assert !FetchesAt(ops, i - 1);
      CacheKept(ops, j, i - 1);
    }
  }
}
