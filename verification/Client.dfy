/** The platform client: its retry loop, its cached lookups and the resolver built on them. */
module Client {
  import opened Wrappers
  import opened Cache
  import opened Platform
  import opened Text

  const INT64_LIMIT: int := 0x8000_0000_0000_0000
  const DEFAULT_RETRY_BACKOFF: int := 500 * 1_000_000

  // ---------------------------------------------------------------- statuses and hints

  /** statusError: what an HTTP status means, with the parsed Retry-After hint of a 429. */
  function StatusError(status: int, retryAfter: int): Option<ClientError> {
    if 200 <= status < 300 then None
    else if status == 429 then Some(RateLimited(retryAfter))
    else if status >= 500 then Some(Unavailable)
    else Some(Permanent(status))
  }

  predicate Retryable(e: ClientError) { e.Unavailable? || e.RateLimited? }

  /** retryAfterHint: the server's delay, or a negative number if it gave none. */
  function Hint(e: ClientError): int {
    match e
    case RateLimited(d) => d
    case _ => -1
  }

  function Digits(s: string): Option<nat> {
    if s == "" then Some(0)
    else
      var c := s[|s| - 1];
      match Digits(s[..|s| - 1])
      case Some(n) => if '0' <= c <= '9' then Some(10 * n + (c - '0') as nat) else None
      case None => None
  }

  /** strconv.Atoi: an optional sign, at least one digit, a value within int64. */
  function Atoi(s: string): Option<int> {
    var signed := s != "" && (s[0] == '-' || s[0] == '+');
    var body := if signed then s[1..] else s;
    if body == "" then None
    else
      match Digits(body)
      case None => None
      case Some(n) =>
        var v: int := if signed && s[0] == '-' then 0 - n else n as int;
        if -INT64_LIMIT <= v < INT64_LIMIT then Some(v) else None
  }

  /** parseRetryAfter, with the int64 product of its last line. */
  function ParseRetryAfter(v: string): int {
    if v == "" then -1
    else
      match Atoi(TrimSpace(v))
      case Some(secs) => if secs < 0 then -1 else Seconds(secs)
      case None => -1
  }

  /** The decimal form of a number of seconds, as a server writes it (section 10.2.3 of RFC 9110). */
  function Decimal(n: nat): string {
    if n < 10 then ['0' + n as char] else Decimal(n / 10) + ['0' + (n % 10) as char]
  }

  lemma {:induction false} DecimalDigits(n: nat)
    ensures Decimal(n) != "" && Digits(Decimal(n)) == Some(n)
    ensures forall i :: 0 <= i < |Decimal(n)| ==> '0' <= Decimal(n)[i] <= '9'
  {
    if n < 10 {
      assert Digits(Decimal(n)[..0]) == Some(0);
    } else {
      DecimalDigits(n / 10);
      assert Decimal(n)[..|Decimal(n)| - 1] == Decimal(n / 10);
    }
  }

  /** A Retry-After of n seconds is understood as n seconds exactly when n seconds fit a time.Duration. */
  lemma RetryAfterRoundTrip(n: nat)
    ensures ParseRetryAfter(Decimal(n)) == n * SECOND <==> n * SECOND < INT64_LIMIT
  {
    ReadAsSeconds(n);
  }

  lemma ReadAsSeconds(n: nat)
    ensures ParseRetryAfter(Decimal(n)) == if n < INT64_LIMIT then Seconds(n) else -1
  {
    DecimalDigits(n);
    AlreadyTrimmed(Decimal(n));
  }

  /** Beyond that it wraps: 585 years read as 0.29 seconds, 293 years as no hint at all. */
  lemma RetryAfterWraps(n: nat)
    ensures n == 18_446_744_074 ==> ParseRetryAfter(Decimal(n)) == 290_448_384
    ensures n == 9_223_372_037 ==> ParseRetryAfter(Decimal(n)) < 0
  {
    ReadAsSeconds(n);
    SecondsWrap(n);
  }

  lemma SecondsWrap(n: int)
    ensures n == 18_446_744_074 ==> Seconds(n) == 290_448_384
    ensures n == 9_223_372_037 ==> Seconds(n) < 0
  {
  }

  // ---------------------------------------------------------------- the retry loop

  /** One HTTP request: how long it took and what came of it. */
  datatype Attempt<+T> = Attempt(took: nat, outcome: Result<T, ClientError>)

  /** base << k, before int64 cuts it off: doubled k times. */
  function Shifted(base: int, k: nat): int { if k == 0 then base else 2 * Shifted(base, k - 1) }

  predicate Final<T>(a: Attempt<T>) { a.outcome.Ok? || !Retryable(a.outcome.error) }

  /** The wait before attempt k > 0: the hint of the last error, or the base shifted left k - 1 times in int64. */
  function Wait(base: int, k: nat, last: ClientError): int
    requires k > 0
  {
    if Hint(last) >= 0 then Hint(last) else Int64(Shifted(base, k - 1))
  }

  /** time.After with a negative duration fires at once. */
  function Slept(wait: int): nat { if wait < 0 then 0 else wait }

  function ErrorOf<T>(a: Attempt<T>): ClientError { if a.outcome.Err? then a.outcome.error else Unavailable }

  /** The waiting before the n-th attempt, summed over the attempts. */
  ghost function TotalWait<T>(world: nat -> Attempt<T>, base: int, n: nat): nat {
    if n <= 1 then 0
    else TotalWait(world, base, n - 1) + Slept(Wait(base, n - 1, ErrorOf(world(n - 2))))
  }

  ghost function TotalTook<T>(world: nat -> Attempt<T>, n: nat): nat {
    if n == 0 then 0 else TotalTook(world, n - 1) + world(n - 1).took
  }

  /** When attempt k begins, and when the k attempts before it are over. */
  ghost function StartOf<T>(world: nat -> Attempt<T>, base: int, start: int, k: nat): int {
    start + TotalWait(world, base, k + 1) + TotalTook(world, k)
  }

  ghost function EndOf<T>(world: nat -> Attempt<T>, base: int, start: int, k: nat): int {
    start + TotalWait(world, base, k) + TotalTook(world, k)
  }

  /** n attempts were made and attempt n - 1 was the last one: everything before it was retryable, and it
      was either final or the last one allowed. */
  ghost predicate StopsAfter<T>(world: nat -> Attempt<T>, limit: nat, n: nat) {
    && 1 <= n <= limit
    && (forall k :: 0 <= k < n - 1 ==> !Final(world(k)))
    && (n < limit ==> Final(world(n - 1)))
  }

  /** The position of the first final outcome from attempt k on, counted from one, or the limit. */
  ghost function FirstFinal<T>(world: nat -> Attempt<T>, limit: nat, k: nat): nat
    requires k < limit
    decreases limit - k
  {
    if k + 1 == limit || Final(world(k)) then k + 1 else FirstFinal(world, limit, k + 1)
  }

  /** The number of attempts is thereby determined. */
  lemma {:induction false} StopsAtFirstFinal<T>(world: nat -> Attempt<T>, limit: nat, n: nat, k: nat)
    requires StopsAfter(world, limit, n) && k < n
    ensures FirstFinal(world, limit, k) == n
    decreases n - k
  {
    if k + 1 < n {
      assert !Final(world(k));
      StopsAtFirstFinal(world, limit, n, k + 1);
    }
  }

  lemma {:induction false} FirstFinalStops<T>(world: nat -> Attempt<T>, limit: nat, k: nat)
    requires k < limit
    ensures var n := FirstFinal(world, limit, k);
            k < n <= limit && (forall i :: k <= i < n - 1 ==> !Final(world(i))) && (n < limit ==> Final(world(n - 1)))
    decreases limit - k
  {
    if k + 1 < limit && !Final(world(k)) {
      FirstFinalStops(world, limit, k + 1);
    }
  }

  lemma {:induction false} ShiftedGrows(base: nat, j: nat, k: nat)
    requires j <= k
    ensures 0 <= base <= Shifted(base, j) <= Shifted(base, k)
  {
    if j < k {
      ShiftedGrows(base, j, k - 1);
    } else if j > 0 {
      ShiftedGrows(base, j - 1, k - 1);
    }
  }

  ghost predicate RetriedWithoutHint<T>(a: Attempt<T>) { !Final(a) && Hint(ErrorOf(a)) < 0 }

  /** Without hints, the waiting before attempt n is the last shift doubled less the base, and less than
      that once a shift has overflowed. */
  lemma {:induction false} WaitAtMostDoubling<T>(world: nat -> Attempt<T>, base: nat, n: nat)
    requires base > 0 && n >= 2 && forall k :: 0 <= k < n - 1 ==> RetriedWithoutHint(world(k))
    ensures Shifted(base, n - 2) < INT64_LIMIT ==> TotalWait(world, base, n) == 2 * Shifted(base, n - 2) - base
    ensures Shifted(base, n - 2) >= INT64_LIMIT ==> TotalWait(world, base, n) < 2 * Shifted(base, n - 2) - base
  {
    ShiftedGrows(base, 0, n - 2);
    assert RetriedWithoutHint(world(n - 2));
    assert TotalWait(world, base, n) == TotalWait(world, base, n - 1) + Slept(Int64(Shifted(base, n - 2)));
    if n > 2 {
      WaitAtMostDoubling(world, base, n - 1);
      ShiftedGrows(base, n - 3, n - 2);
    }
  }

  /** Without hints, n attempts wait for base times 2^(n-1), less the base, in all, exactly as long as the
      last shift does not overflow; a caller can see that beforehand. */
  lemma BackoffTotal<T>(world: nat -> Attempt<T>, base: nat, n: nat)
    requires base > 0 && n >= 2 && forall k :: 0 <= k < n - 1 ==> RetriedWithoutHint(world(k))
    ensures TotalWait(world, base, n) == Shifted(base, n - 1) - base <==> Shifted(base, n - 2) < INT64_LIMIT
  {
    WaitAtMostDoubling(world, base, n);
  }

  /** With the default base the 36th retry is the first that does not wait at all. */
  lemma DefaultBackoffOverflows()
    ensures Wait(500_000_000, 36, Unavailable) < 0
    ensures forall k :: 0 < k < 36 ==> Wait(500_000_000, k, Unavailable) == Shifted(500_000_000, k - 1)
  {
    var b := DEFAULT_RETRY_BACKOFF;
    assert Shifted(b, 8) == b * 256;
    assert Shifted(b, 16) == b * 65_536;
    assert Shifted(b, 24) == b * 16_777_216;
    assert Shifted(b, 32) == b * 4_294_967_296;
    forall k: nat | 0 < k < 36 ensures Wait(b, k, Unavailable) == Shifted(b, k - 1) {
      ShiftedGrows(b, k - 1, 34);
    }
  }

  /** The hints of the first n - 1 attempts, summed. */
  ghost function TotalHints<T>(world: nat -> Attempt<T>, n: nat): nat {
    if n <= 1 then 0 else TotalHints(world, n - 1) + Slept(Hint(ErrorOf(world(n - 2))))
  }

  /** Where every error carries a hint, zero included, the loop waits for exactly the hints, whatever the base. */
  lemma {:induction false} HintsReplaceBackoff<T>(world: nat -> Attempt<T>, base: int, n: nat)
    requires forall k :: 0 <= k < n - 1 ==> Hint(ErrorOf(world(k))) >= 0
    ensures TotalWait(world, base, n) == TotalHints(world, n)
  {
    if n > 1 {
      HintsReplaceBackoff(world, base, n - 1);
    }
  }

  // ---------------------------------------------------------------- the client

  /** The context is done from its cancellation instant on. */
  predicate ContextDoneAt(cancelAt: Option<int>, t: int) { cancelAt.Some? && cancelAt.value <= t }

  /** The call ends with an answer: the first final outcome, or that of the last attempt. */
  ghost predicate Answered<T>(world: nat -> Attempt<T>, limit: nat, base: int, start: int,
                              r: Result<T, ClientError>, n: nat, end: int) {
    StopsAfter(world, limit, n) && r == world(n - 1).outcome && end == EndOf(world, base, start, n)
  }

  /** The context ends the call: as soon as it is done, where the next attempt could only begin later. */
  ghost predicate Interrupted<T>(world: nat -> Attempt<T>, limit: nat, base: int, start: int, cancelAt: Option<int>,
                                 r: Result<T, ClientError>, n: nat, end: int) {
    && n < limit && (forall k :: 0 <= k < n ==> !Final(world(k)))
    && r == Err(ContextDone) && ContextDoneAt(cancelAt, StartOf(world, base, start, n))
    && end == if cancelAt.value < EndOf(world, base, start, n) then EndOf(world, base, start, n) else cancelAt.value
  }

  /** What a call of do promises: no attempt begins once the context is done, and one of the two endings. */
  ghost predicate Done<T>(world: nat -> Attempt<T>, limit: nat, base: int, start: int, cancelAt: Option<int>,
                          r: Result<T, ClientError>, n: nat, slept: nat, end: int) {
    && n <= limit && slept == TotalWait(world, base, n)
    && (forall k :: 0 <= k < n ==> !ContextDoneAt(cancelAt, StartOf(world, base, start, k)))
    && (Answered(world, limit, base, start, r, n, end) || Interrupted(world, limit, base, start, cancelAt, r, n, end))
  }

  /** That determines the call: its attempts, its waiting, its result and the instant it ends. */
  lemma DoneDetermines<T>(world: nat -> Attempt<T>, limit: nat, base: int, start: int, cancelAt: Option<int>,
                          r: Result<T, ClientError>, n: nat, slept: nat, end: int,
                          r': Result<T, ClientError>, n': nat, slept': nat, end': int)
    requires Done(world, limit, base, start, cancelAt, r, n, slept, end)
    requires Done(world, limit, base, start, cancelAt, r', n', slept', end')
    ensures r == r' && n == n' && slept == slept' && end == end'
  {
    NoMoreAttempts(world, limit, base, start, cancelAt, r, n, slept, end, r', n', slept', end');
    NoMoreAttempts(world, limit, base, start, cancelAt, r', n', slept', end', r, n, slept, end);
  }

  lemma NoMoreAttempts<T>(world: nat -> Attempt<T>, limit: nat, base: int, start: int, cancelAt: Option<int>,
                          r: Result<T, ClientError>, n: nat, slept: nat, end: int,
                          r': Result<T, ClientError>, n': nat, slept': nat, end': int)
    requires Done(world, limit, base, start, cancelAt, r, n, slept, end)
    requires Done(world, limit, base, start, cancelAt, r', n', slept', end')
    ensures n' <= n
  {
    assert n < n' ==> !ContextDoneAt(cancelAt, StartOf(world, base, start, n));
    assert forall k: nat :: k < n' - 1 ==> !Final(world(k));
  }

  /** The select over the context and the timer. */
  method Pause(clock: int, wait: int, cancelAt: Option<int>) returns (done: bool, t: int)
    ensures done <==> ContextDoneAt(cancelAt, clock + Slept(wait))
    ensures !done ==> t == clock + Slept(wait)
    ensures done ==>
              t >= clock && ContextDoneAt(cancelAt, t) && forall x :: clock <= x < t ==> !ContextDoneAt(cancelAt, x)
  {
    done := ContextDoneAt(cancelAt, clock + Slept(wait));
    t := if !done then clock + Slept(wait) else if clock < cancelAt.value then cancelAt.value else clock;
  }

  /** The first instant from clock on at which the context is done. */
  lemma FirstInstant(cancelAt: Option<int>, clock: int, t: int)
    requires t >= clock && ContextDoneAt(cancelAt, t) && forall x :: clock <= x < t ==> !ContextDoneAt(cancelAt, x)
    ensures t == if cancelAt.value < clock then clock else cancelAt.value
  {
    assert clock < t ==> !ContextDoneAt(cancelAt, t - 1);
  }

  /** Where the context is done before the next attempt, the call is interrupted. */
  lemma InterruptedIsDone<T>(world: nat -> Attempt<T>, limit: nat, base: int, start: int, cancelAt: Option<int>, n: nat,
                             end: int)
    requires n < limit && forall k :: 0 <= k < n ==> !Final(world(k))
    requires forall k :: 0 <= k < n ==> !ContextDoneAt(cancelAt, StartOf(world, base, start, k))
    requires ContextDoneAt(cancelAt, end) && ContextDoneAt(cancelAt, StartOf(world, base, start, n))
    requires var over := EndOf(world, base, start, n); end == if cancelAt.value < over then over else cancelAt.value
    ensures Done(world, limit, base, start, cancelAt, Err(ContextDone), n, TotalWait(world, base, n), end)
  {
  }

  /** The retry loop of do: the attempts made, the time waited and the instant it ends. */
  method Loop<T>(world: nat -> Attempt<T>, attempts: nat, backoff: int, start: int, cancelAt: Option<int>)
    returns (r: Result<T, ClientError>, attempt: nat, slept: nat, clock: int)
    requires attempts > 0
    ensures Done(world, attempts, backoff, start, cancelAt, r, attempt, slept, clock) && clock >= start
  {
    var lastErr := Unavailable;
    attempt, slept, clock := 0, 0, start;
    while attempt < attempts
      invariant attempt <= attempts && clock >= start
      invariant forall k :: 0 <= k < attempt ==> !Final(world(k))
      invariant attempt > 0 ==> Err(lastErr) == world(attempt - 1).outcome
      invariant slept == TotalWait(world, backoff, attempt) && clock == EndOf(world, backoff, start, attempt)
      invariant forall k :: 0 <= k < attempt ==> !ContextDoneAt(cancelAt, StartOf(world, backoff, start, k))
    {
      if ContextDoneAt(cancelAt, clock) {
        r := Err(ContextDone);
        InterruptedIsDone(world, attempts, backoff, start, cancelAt, attempt, clock);
        return;
      }
      if attempt > 0 {
        var wait := Wait(backoff, attempt, lastErr);
        assert StartOf(world, backoff, start, attempt) == clock + Slept(wait);
        var done;
        done, clock := Pause(clock, wait, cancelAt);
        if done {
          FirstInstant(cancelAt, EndOf(world, backoff, start, attempt), clock);
          r := Err(ContextDone);
          InterruptedIsDone(world, attempts, backoff, start, cancelAt, attempt, clock);
          return;
        }
        slept := slept + Slept(wait);
      }
      assert clock == StartOf(world, backoff, start, attempt);
      var tried := world(attempt);
      clock := clock + tried.took;
      attempt := attempt + 1;
      assert clock == EndOf(world, backoff, start, attempt);
      match tried.outcome {
        case Ok(v) =>
          r := Ok(v);
          return;
        case Err(e) =>
          lastErr := e;
          if !Retryable(e) {
            r := Err(e);
            return;
          }
      }
    }
    r := Err(lastErr);
  }

  // ---------------------------------------------------------------- the loop over HTTP

  /** What comes of a request: nothing, the end of the context, or a status, its Retry-After header and the decoded
      body, if it decodes. */
  datatype Exchange<+T> = NoAnswer | Aborted | Answer(status: int, retryAfter: string, body: Option<T>)

  /** What the requests of one call would meet, how long each would take, and what the destination holds if nothing
      is decoded into it. */
  datatype Wire<+T> = Wire(exchanges: nat -> Exchange<T>, took: nat -> nat, blank: T)

  /** attempt, once the request is sent; 204 leaves the destination as it was. */
  function OutcomeOf<T>(x: Exchange<T>, blank: T): Result<T, ClientError> {
    match x
    case NoAnswer => Err(Unavailable)
    case Aborted => Err(ContextDone)
    case Answer(status, retryAfter, body) =>
      match StatusError(status, ParseRetryAfter(retryAfter))
      case Some(e) => Err(e)
      case None =>
        if status == 204 then Ok(blank) else if body.Some? then Ok(body.value) else Err(Permanent(status))
  }

  /** The attempts that a wire makes. */
  function Attempts<T>(wire: Wire<T>): nat -> Attempt<T> {
    (k: nat) => Attempt(wire.took(k), OutcomeOf(wire.exchanges(k), wire.blank))
  }

  /** Worth another attempt: no answer, a server error, or 429 (section 4 of RFC 6585). */
  predicate Repeatable<T>(x: Exchange<T>) { x.NoAnswer? || (x.Answer? && (x.status == 429 || x.status >= 500)) }

  /** A success (section 15.3 of RFC 9110) with this value. */
  ghost predicate Succeeds<T>(x: Exchange<T>, blank: T, v: T) {
    x.Answer? && 200 <= x.status <= 299 && if x.status == 204 then v == blank else x.body == Some(v)
  }

  predicate IsSuccess<T>(x: Exchange<T>) { x.Answer? && 200 <= x.status <= 299 && (x.status == 204 || x.body.Some?) }

  /** The error of an exchange that is no success. */
  ghost predicate FailsWith<T>(x: Exchange<T>, e: ClientError) {
    match x
    case NoAnswer => e == Unavailable
    case Aborted => e == ContextDone
    case Answer(status, retryAfter, body) =>
      if 200 <= status <= 299 then status != 204 && body.None? && e == Permanent(status)
      else if status == 429 then e.RateLimited? && HintOf(retryAfter, e.retryAfter)
      else if status >= 500 then e == Unavailable
      else e == Permanent(status)
  }

  /** An optional sign and at least one digit. */
  predicate LooksNumeric(s: string) {
    var body := if s != "" && (s[0] == '-' || s[0] == '+') then s[1..] else s;
    body != "" && forall i :: 0 <= i < |body| ==> '0' <= body[i] <= '9'
  }

  /** The hint of a header: its seconds if it is a decimal number that fits, none if it is absent or no number. */
  ghost predicate HintOf(header: string, hint: int) {
    && (header == "" ==> hint < 0)
    && (!LooksNumeric(TrimSpace(header)) ==> hint < 0)
    && forall d: nat :: TrimSpace(header) == Decimal(d) && d * 1_000_000_000 < INT64_LIMIT ==> hint == d * 1_000_000_000
  }

  lemma {:induction false} DigitsExactly(s: string)
    ensures Digits(s).Some? <==> forall i :: 0 <= i < |s| ==> '0' <= s[i] <= '9'
  {
    if s != "" {
      DigitsExactly(s[..|s| - 1]);
    }
  }

  lemma HeaderIsRead(header: string)
    ensures HintOf(header, ParseRetryAfter(header))
  {
    var t := TrimSpace(header);
    DigitsExactly(if t != "" && (t[0] == '-' || t[0] == '+') then t[1..] else t);
    forall d: nat | t == Decimal(d) && d * 1_000_000_000 < INT64_LIMIT
      ensures ParseRetryAfter(header) == d * 1_000_000_000
    {
      DecimalDigits(d);
    }
  }

  lemma OutcomeMeans<T>(x: Exchange<T>, blank: T)
    ensures OutcomeOf(x, blank).Ok? <==> IsSuccess(x)
    ensures OutcomeOf(x, blank).Ok? ==> Succeeds(x, blank, OutcomeOf(x, blank).value)
    ensures OutcomeOf(x, blank).Err? ==> FailsWith(x, OutcomeOf(x, blank).error)
    ensures OutcomeOf(x, blank).Err? && Retryable(OutcomeOf(x, blank).error) <==> Repeatable(x)
  {
    if x.Answer? {
      HeaderIsRead(x.retryAfter);
    }
  }

  /** The loop over HTTP repeats exactly the repeatable exchanges: every one but the last was, and the last was
      not, or was the last allowed. */
  lemma LoopOverHttp<T>(wire: Wire<T>, limit: nat, n: nat)
    ensures StopsAfter(Attempts(wire), limit, n) <==>
            && 0 < n <= limit && (forall k :: 0 <= k < n - 1 ==> Repeatable(wire.exchanges(k)))
            && (n == limit || !Repeatable(wire.exchanges(n - 1)))
  {
    forall k: nat ensures Final(Attempts(wire)(k)) <==> !Repeatable(wire.exchanges(k)) {
      OutcomeMeans(wire.exchanges(k), wire.blank);
    }
  }

  /** Exchange k is the first that is not repeatable, within the limit. */
  ghost predicate Settles<T>(wire: Wire<T>, limit: nat, k: nat) {
    k < limit && !Repeatable(wire.exchanges(k)) && forall i :: 0 <= i < k ==> Repeatable(wire.exchanges(i))
  }

  /** What a call returns over HTTP. A value is that of the last exchange, a success after nothing but repeatable
      ones. Without an interruption the first exchange that is not repeatable decides: if it is a success its value
      is returned, and otherwise its error; and if all that are allowed are repeatable, the error of the last. */
  ghost predicate Returned<T>(wire: Wire<T>, limit: nat, cancelAt: Option<int>, r: Result<T, ClientError>, n: nat) {
    && (r.Ok? ==> n > 0 && Settles(wire, limit, n - 1) && Succeeds(wire.exchanges(n - 1), wire.blank, r.value))
    && (cancelAt == None ==>
          && (forall k: nat :: Settles(wire, limit, k) ==> n == k + 1 && (r.Ok? <==> IsSuccess(wire.exchanges(k))))
          && (r.Err? ==> 0 < n <= limit && FailsWith(wire.exchanges(n - 1), r.error))
          && ((forall k :: 0 <= k < limit ==> Repeatable(wire.exchanges(k))) ==> n == limit && r.Err?))
  }

  lemma ReturnedOverHttp<T>(wire: Wire<T>, limit: nat, base: int, start: int, cancelAt: Option<int>,
                            r: Result<T, ClientError>, n: nat, slept: nat, end: int)
    requires limit > 0 && Done(Attempts(wire), limit, base, start, cancelAt, r, n, slept, end)
    ensures Returned(wire, limit, cancelAt, r, n)
  {
    if Answered(Attempts(wire), limit, base, start, r, n, end) {
      LoopOverHttp(wire, limit, n);
      OutcomeMeans(wire.exchanges(n - 1), wire.blank);
      forall k: nat | Settles(wire, limit, k) ensures n == k + 1 {
        assert k < n - 1 ==> Repeatable(wire.exchanges(k));
        assert forall i: nat :: i < k ==> Repeatable(wire.exchanges(i));
      }
    }
  }

  /** A Retry-After of d seconds on a 429 is what is waited before the next attempt, if it fits. */
  lemma RetryAfterIsWaited<T>(wire: Wire<T>, base: int, k: nat, d: nat)
    requires wire.exchanges(k).Answer? && wire.exchanges(k).status == 429
    requires TrimSpace(wire.exchanges(k).retryAfter) == Decimal(d) && d * SECOND < INT64_LIMIT
    ensures Wait(base, k + 1, ErrorOf(Attempts(wire)(k))) == d * SECOND
  {
    HeaderIsRead(wire.exchanges(k).retryAfter);
  }

  /** Without an answer, after a server error, and after a 429 whose header is absent or no number, the wait is the
      doubling one. */
  lemma NoHintIsDoubled<T>(wire: Wire<T>, k: nat)
    requires Repeatable(wire.exchanges(k))
    requires wire.exchanges(k).Answer? && wire.exchanges(k).status == 429 ==>
               wire.exchanges(k).retryAfter == "" || !LooksNumeric(TrimSpace(wire.exchanges(k).retryAfter))
    ensures RetriedWithoutHint(Attempts(wire)(k))
  {
    OutcomeMeans(wire.exchanges(k), wire.blank);
  }

  /** What a call costs: its requests, the time waited between them, and when it ends. */
  datatype Cost = Cost(requests: nat, waited: nat, end: int)

  /** One call of do with these settings: at most max(1, MaxRetries) attempts, half a second as the default base. */
  ghost predicate Called<T>(wire: Wire<T>, maxRetries: int, retryBackoff: int, start: int, cancelAt: Option<int>,
                            r: Result<T, ClientError>, cost: Cost) {
    && Done(Attempts(wire), if maxRetries < 1 then 1 else maxRetries,
            if retryBackoff <= 0 then 500_000_000 else retryBackoff, start, cancelAt, r, cost.requests, cost.waited,
            cost.end)
    && Returned(wire, if maxRetries < 1 then 1 else maxRetries, cancelAt, r, cost.requests)
  }

  /** do: the settings with their defaults, and the loop. */
  method Call<T>(wire: Wire<T>, maxRetries: int, retryBackoff: int, start: int, cancelAt: Option<int>)
    returns (r: Result<T, ClientError>, cost: Cost)
    ensures Called(wire, maxRetries, retryBackoff, start, cancelAt, r, cost) && cost.end >= start
  {
    var attempts := maxRetries;
    if attempts < 1 {
      attempts := 1;
    }
    var backoff := retryBackoff;
    if backoff <= 0 {
      backoff := DEFAULT_RETRY_BACKOFF;
    }
    var n, slept, end;
    r, n, slept, end := Loop(Attempts(wire), attempts, backoff, start, cancelAt);
    ReturnedOverHttp(wire, attempts, backoff, start, cancelAt, r, n, slept, end);
    cost := Cost(n, slept, end);
  }

  class Client {
    const maxRetries: int
    const retryBackoff: int
    var cache: AnswerCache
    var now: int       // the clock
    var sent: nat      // HTTP requests made so far
    var waited: nat    // time spent waiting between them

    constructor (maxRetries: int, retryBackoff: int, now: int)
      ensures this.maxRetries == maxRetries && this.retryBackoff == retryBackoff
      ensures this.now == now && cache == map[] && sent == 0 && waited == 0
    {
      this.maxRetries, this.retryBackoff := maxRetries, retryBackoff;
      this.now, cache, sent, waited := now, map[], 0, 0;
    }

    /** The client's clock and counts have moved by this much. */
    twostate predicate Moved(cost: Cost)
      reads this
    {
      now == cost.end >= old(now) && sent == old(sent) + cost.requests && waited == old(waited) + cost.waited
    }

    /** One call of do, on the client's clock and its counts. */
    method Do<T>(wire: Wire<T>, cancelAt: Option<int>) returns (r: Result<T, ClientError>, ghost cost: Cost)
      modifies `now, `sent, `waited
      ensures Moved(cost) && Called(wire, maxRetries, retryBackoff, old(now), cancelAt, r, cost)
    {
      var spent;
      r, spent := Call(wire, maxRetries, retryBackoff, now, cancelAt);
      now, sent, waited := spent.end, sent + spent.requests, waited + spent.waited;
      cost := spent;
    }

    /** Resolve: a cached answer costs nothing; otherwise one call, whose answer is kept. */
    method Resolve(u: UniqueRef, wires: UniqueRef -> Wire<Response>, cancelAt: Option<int>)
      returns (r: Result<Response, ClientError>, ghost cost: Cost)
      modifies `now, `sent, `waited, `cache
      ensures Recall(old(cache), old(now), u).Some? ==>
                r == Ok(Recall(old(cache), old(now), u).value) && unchanged(this)
      ensures Recall(old(cache), old(now), u).None? ==>
                && Moved(cost) && Called(wires(u), maxRetries, retryBackoff, old(now), cancelAt, r, cost)
                && cache == if r.Ok? then Remember(old(cache), now, u, r.value) else old(cache)
    {
      var cached := Recall(cache, now, u);
      if cached.Some? {
        return Ok(cached.value), Cost(0, 0, now);
      }
      r, cost := Do(wires(u), cancelAt);
      if r.Ok? {
        cache := Remember(cache, now, u, r.value);
      }
    }

    /** ResolveBatch: nothing for no references; otherwise one call, whose usable items are kept. */
    method ResolveBatch(refs: seq<UniqueRef>, wires: seq<UniqueRef> -> Wire<seq<BatchItem>>,
                        cancelAt: Option<int>)
      returns (r: Result<seq<BatchItem>, ClientError>, ghost cost: Cost)
      modifies `now, `sent, `waited, `cache
      ensures refs == [] ==> r == Ok([]) && unchanged(this)
      ensures refs != [] ==>
                && Moved(cost) && Called(wires(refs), maxRetries, retryBackoff, old(now), cancelAt, r, cost)
                && cache == if r.Ok? then RememberItems(old(cache), now, r.value, |r.value|) else old(cache)
    {
      if refs == [] {
        return Ok([]), Cost(0, 0, now);
      }
      r, cost := Do(wires(refs), cancelAt);
      if r.Ok? {
        KeepItems(r.value);
      }
    }

    /** The loop over the items of a batch answer. */
    method KeepItems(items: seq<BatchItem>)
      modifies `cache
      ensures cache == RememberItems(old(cache), now, items, |items|)
    {
      for i := 0 to |items|
        invariant cache == RememberItems(old(cache), now, items, i)
      {
        var item := items[i];
        if item.error == "" && item.response.hash != "" {
          cache := Remember(cache, now, Label(item), item.response);
        }
      }
    }
  }

  class PlatformResolver {
    const client: Client
    const ecosystem: string
    var freshness: map<string, Freshness>

    constructor (client: Client, ecosystem: string)
      ensures this.client == client && this.ecosystem == ecosystem && freshness == map[]
    {
      this.client, this.ecosystem, freshness := client, ecosystem, map[];
    }

    /** Freshness: an unknown reference reads as the zero value. */
    function FreshnessFor(reference: string): Freshness
      reads this
    {
      if reference in freshness then freshness[reference] else Freshness(false, 0)
    }

    /** Stale as the platform says, and as old in seconds. */
    ghost function AgeOf(answer: Response): Freshness {
      Freshness(answer.stale, Int64(answer.ageSeconds * 1_000_000_000))
    }

    /** The pairs a batch asks about. */
    function Batched(references: seq<string>): seq<UniqueRef> {
      seq(|references|, i requires 0 <= i < |references| => UniqueRef(ecosystem, references[i]))
    }

    /** The exchange of a call that brought this answer. */
    ghost predicate Brought<T>(wire: Wire<T>, cost: Cost, answer: T) {
      cost.requests > 0 && Succeeds(wire.exchanges(cost.requests - 1), wire.blank, answer)
    }

    /** Prefetch: a batch for this ecosystem; its failure leaves everything as it was. */
    method Prefetch(references: seq<string>, wires: seq<UniqueRef> -> Wire<seq<BatchItem>>,
                    cancelAt: Option<int>)
      returns (ok: bool, ghost items: seq<BatchItem>, ghost cost: Cost)
      modifies client`now, client`sent, client`waited, client`cache
      ensures !ok ==> client.cache == old(client.cache)
      ensures references == [] ==> ok && client.sent == old(client.sent) && client.cache == old(client.cache)
      ensures references != [] ==> client.sent == old(client.sent) + cost.requests
      ensures ok && references != [] ==>
                && client.cache == RememberItems(old(client.cache), client.now, items, |items|)
                && Brought(wires(Batched(references)), cost, items)
    {
      var refs: seq<UniqueRef> := [];
      for i := 0 to |references|
        invariant |refs| == i && forall k :: 0 <= k < i ==> refs[k] == UniqueRef(ecosystem, references[k])
      {
        refs := refs + [UniqueRef(ecosystem, references[i])];
      }
      assert refs == Batched(references);
      var r;
      r, cost := client.ResolveBatch(refs, wires, cancelAt);
      ok, items := r.Ok?, if r.Ok? then r.value else [];
    }

    /** Resolve, and what the caller reads next: the resolution and the freshness recorded for the
        reference come from the same response, and no other reference is touched. */
    method Resolve(reference: string, wires: UniqueRef -> Wire<Response>, cancelAt: Option<int>)
      returns (r: Result<Resolution, ClientError>, ghost answer: Option<Response>, ghost cost: Cost)
      modifies client`now, client`sent, client`waited, client`cache, `freshness
      ensures r.Ok? <==> answer.Some?
      ensures r.Ok? ==>
                && r.value.original == reference && r.value.hash == answer.value.hash
                && r.value.algorithm == answer.value.algorithm
                && r.value.canonical == reference + "@" + answer.value.hash
                && r.value.source == "platform:" + answer.value.source
                && FreshnessFor(reference) == AgeOf(answer.value)
                && freshness == old(freshness)[reference := AgeOf(answer.value)]
                && (answer == Recall(old(client.cache), old(client.now), UniqueRef(ecosystem, reference)) ||
                    (client.sent == old(client.sent) + cost.requests &&
                     Brought(wires(UniqueRef(ecosystem, reference)), cost, answer.value)))
      ensures r.Err? ==> freshness == old(freshness) && client.cache == old(client.cache)
    {
      var resp;
      resp, cost := client.Resolve(UniqueRef(ecosystem, reference), wires, cancelAt);
      match resp {
        case Err(e) =>
          r, answer := Err(e), None;
        case Ok(v) =>
          freshness := freshness[reference := FreshnessOf(v)];
          r, answer := Ok(Platform.Resolve(UniqueRef(ecosystem, reference), v)), Some(v);
      }
    }
  }
}
