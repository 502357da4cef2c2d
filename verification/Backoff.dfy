/** `withExponentialBackoff`: the retry loop around every call to the chain. */
module Backoff {
  import opened Text

  /** What a call throws: an `Error` with its message and code, or something else, as `String` shows it. */
  datatype Thrown = Error(message: Text, code: Text) | Other(shown: Text)

  datatype Outcome<+T> = Returned(value: T) | Threw(error: Thrown)

  // ---------------------------------------------------------------------------
  // Which errors are retried
  // ---------------------------------------------------------------------------

  const RETRYABLE_CODES: set<Text> :=
    {Ascii("ECONNRESET"), Ascii("ECONNREFUSED"), Ascii("ETIMEDOUT"), Ascii("ENOTFOUND")}

  const RETRYABLE_PATTERNS: seq<Text> :=
    [Ascii("timeout"), Ascii("network"), Ascii("fetch failed"), Ascii("rate limit"), Ascii("rate_limit"),
     Ascii("429"), Ascii("socket")]

  const NON_RETRYABLE_PATTERNS: seq<Text> :=
    [Ascii("alreadyanchored"), Ascii("execution reverted"), Ascii("accesscontrolunauthorizedaccount"),
     Ascii("zerovalues"), Ascii("zeroaddress"), Ascii("invalid argument"), Ascii("invalidinput")]

  function Upper(u: CodeUnit): CodeUnit {
    if 0x61 <= u <= 0x7A then u - 0x20 else u
  }

  /** `toUpperCase`, for ASCII letters. */
  function ToUpperCase(t: Text): (r: Text)
    ensures |r| == |t| && forall i :: 0 <= i < |t| ==> r[i] == Upper(t[i])
  {
    if t == [] then [] else [Upper(t[0])] + ToUpperCase(t[1..])
  }

  /** `t.includes(pattern)`. */
  predicate Includes(t: Text, pattern: Text) {
    exists i :: 0 <= i <= |t| && pattern <= t[i..]
  }

  predicate IncludesAny(t: Text, patterns: seq<Text>) {
    exists k :: 0 <= k < |patterns| && Includes(t, patterns[k])
  }

  predicate IsRetryable(e: Thrown) {
    match e
    case Other(_) => false
    case Error(message, code) =>
      if IncludesAny(ToLowerCase(message), NON_RETRYABLE_PATTERNS) then false
      else if ToUpperCase(code) in RETRYABLE_CODES then true
      else IncludesAny(ToLowerCase(message), RETRYABLE_PATTERNS)
  }

  // ---------------------------------------------------------------------------
  // The loop
  // ---------------------------------------------------------------------------

  function Pow2(k: nat): (p: nat)
    ensures p > 0
  {
    if k == 0 then 1 else 2 * Pow2(k - 1)
  }

  function Min(a: int, b: int): int {
    if a <= b then a else b
  }

  /** The pause after failed attempt `i`, counting from 0. */
  function Delay(base: nat, cap: nat, i: nat): nat {
    Min(base * Pow2(i), cap)
  }

  function TotalDelay(base: nat, cap: nat, retries: nat): nat {
    if retries == 0 then 0 else TotalDelay(base, cap, retries - 1) + Delay(base, cap, retries - 1)
  }

  const UNREACHABLE := Error(Ascii("unreachable"), [])

  predicate Retried<T>(fn: nat -> Outcome<T>, retryable: Thrown -> bool, i: nat) {
    fn(i).Threw? && retryable(fn(i).error)
  }

  /**
   The run of the loop over outcomes `fn(0)`, `fn(1)`, … that stops after
   `calls` calls: every call but the last failed retryably, and the last
   returned, failed for good, or was the last allowed.
   */
  ghost predicate StopsAfter<T(!new)>(fn: nat -> Outcome<T>, maxAttempts: nat, retryable: Thrown -> bool, calls: nat) {
    && 0 < calls <= maxAttempts
    && (forall i: nat :: i < calls - 1 ==> Retried(fn, retryable, i))
    && (Retried(fn, retryable, calls - 1) ==> calls == maxAttempts)
  }

  method WithExponentialBackoff<T(!new)>(
      fn: nat -> Outcome<T>, maxAttempts: nat, base: nat, cap: nat, retryable: Thrown -> bool)
    returns (result: Outcome<T>, calls: nat, slept: nat)
    ensures maxAttempts > 0 ==> StopsAfter(fn, maxAttempts, retryable, calls) && result == fn(calls - 1)
    ensures maxAttempts > 0 ==> slept == TotalDelay(base, cap, calls - 1)
    ensures maxAttempts == 0 ==> calls == 0 && slept == 0 && result == Threw(UNREACHABLE)
  {
    calls, slept := 0, 0;
    for attempt := 0 to maxAttempts
      invariant calls == attempt
      invariant forall i: nat :: i < attempt ==> Retried(fn, retryable, i)
      invariant attempt > 0 ==> attempt < maxAttempts
      invariant slept == TotalDelay(base, cap, attempt)
    {
      result := fn(attempt);
      calls := calls + 1;
      if result.Returned? {
        return;
      }
      var isLast := attempt == maxAttempts - 1;
      if isLast || !retryable(result.error) {
        return;
      }
      slept := slept + Delay(base, cap, attempt);
    }
    result := Threw(UNREACHABLE);
  }

  /** The outcomes alone determine how many calls are made. */
  lemma StopIsUnique<T(!new)>(fn: nat -> Outcome<T>, maxAttempts: nat, retryable: Thrown -> bool, m: nat, n: nat)
    requires StopsAfter(fn, maxAttempts, retryable, m) && StopsAfter(fn, maxAttempts, retryable, n)
    ensures m == n
  {
    assert Retried(fn, retryable, m - 1) ==> m == maxAttempts;
    assert Retried(fn, retryable, n - 1) ==> n == maxAttempts;
  }

  /** What a call of the loop comes to. */
  ghost predicate EndsWith<T(!new)>(fn: nat -> Outcome<T>, maxAttempts: nat, retryable: Thrown -> bool, r: Outcome<T>) {
    (maxAttempts == 0 && r == Threw(UNREACHABLE))
    || exists n: nat :: StopsAfter(fn, maxAttempts, retryable, n) && r == fn(n - 1)
  }

  lemma EndIsUnique<T(!new)>(fn: nat -> Outcome<T>, maxAttempts: nat, retryable: Thrown -> bool,
                             x: Outcome<T>, y: Outcome<T>)
    requires EndsWith(fn, maxAttempts, retryable, x) && EndsWith(fn, maxAttempts, retryable, y)
    ensures x == y
  {
    if maxAttempts > 0 {
      var m: nat :| StopsAfter(fn, maxAttempts, retryable, m) && x == fn(m - 1);
      var n: nat :| StopsAfter(fn, maxAttempts, retryable, n) && y == fn(n - 1);
      StopIsUnique(fn, maxAttempts, retryable, m, n);
    }
  }

  /** The loop sleeps no longer than the doubling sum, nor than the cap at every retry. */
  lemma {:induction false} TotalDelayBound(base: nat, cap: nat, retries: nat)
    ensures TotalDelay(base, cap, retries) <= base * (Pow2(retries) - 1)
    ensures TotalDelay(base, cap, retries) <= retries * cap
  {
    if retries > 0 {
      TotalDelayBound(base, cap, retries - 1);
      var p := Pow2(retries - 1);
      calc {
        base * (p - 1) + base * p;
        base * (p - 1 + p);
        base * (Pow2(retries) - 1);
      }
      assert (retries - 1) * cap + cap == retries * cap;
    }
  }

  /** A call that fails with a deny-listed message is the last one, whatever its code says. */
  lemma DenyListedStops<T(!new)>(fn: nat -> Outcome<T>, maxAttempts: nat, calls: nat, i: nat)
    requires StopsAfter(fn, maxAttempts, IsRetryable, calls) && i < calls
    requires fn(i).Threw? && fn(i).error.Error?
    requires IncludesAny(ToLowerCase(fn(i).error.message), NON_RETRYABLE_PATTERNS)
    ensures i == calls - 1
  {
    assert !Retried(fn, IsRetryable, i);
  }

  // ---------------------------------------------------------------------------
  // Pauses and classification, written out
  // ---------------------------------------------------------------------------

  /** The first pause is the base, each further one twice the one before, and none exceeds the cap. */
  lemma DelayDoubles(base: nat, cap: nat, i: nat)
    ensures Delay(base, cap, 0) == if base <= cap then base else cap
    ensures Delay(base, cap, i + 1) == if 2 * Delay(base, cap, i) <= cap then 2 * Delay(base, cap, i) else cap
  {
    assert base * Pow2(0) == base;
    assert base * Pow2(i + 1) == 2 * (base * Pow2(i));
  }

  /** One call needs no pause; each retry adds the pause before it. */
  lemma TotalDelayAdds(base: nat, cap: nat, retries: nat)
    ensures TotalDelay(base, cap, 0) == 0
    ensures TotalDelay(base, cap, retries + 1) == TotalDelay(base, cap, retries) + Delay(base, cap, retries)
  {
  }

  lemma IncludesExactly(t: Text, pattern: Text)
    ensures Includes(t, pattern) <==> exists a, b :: t == a + pattern + b
  {
    if Includes(t, pattern) {
      var i :| 0 <= i <= |t| && pattern <= t[i..];
      assert t == t[..i] + pattern + t[i..][|pattern|..];
    }
    if a, b :| t == a + pattern + b {
      assert t[|a|..] == pattern + b;
    }
  }

  predicate Denied(t: Text) {
    || Includes(t, Ascii("alreadyanchored")) || Includes(t, Ascii("execution reverted"))
    || Includes(t, Ascii("accesscontrolunauthorizedaccount")) || Includes(t, Ascii("zerovalues"))
    || Includes(t, Ascii("zeroaddress")) || Includes(t, Ascii("invalid argument"))
    || Includes(t, Ascii("invalidinput"))
  }

  predicate Allowed(t: Text) {
    || Includes(t, Ascii("timeout")) || Includes(t, Ascii("network")) || Includes(t, Ascii("fetch failed"))
    || Includes(t, Ascii("rate limit")) || Includes(t, Ascii("rate_limit")) || Includes(t, Ascii("429"))
    || Includes(t, Ascii("socket"))
  }

  lemma DeniedPatterns(t: Text)
    ensures IncludesAny(t, NON_RETRYABLE_PATTERNS) <==> Denied(t)
  {
    var ps := NON_RETRYABLE_PATTERNS;
    assert |ps| == 7;
    assert ps[0] == Ascii("alreadyanchored") && ps[1] == Ascii("execution reverted");
    assert ps[2] == Ascii("accesscontrolunauthorizedaccount") && ps[3] == Ascii("zerovalues");
    assert ps[4] == Ascii("zeroaddress") && ps[5] == Ascii("invalid argument") && ps[6] == Ascii("invalidinput");
  }

  lemma AllowedPatterns(t: Text)
    ensures IncludesAny(t, RETRYABLE_PATTERNS) <==> Allowed(t)
  {
    var ps := RETRYABLE_PATTERNS;
    assert |ps| == 7;
    assert ps[0] == Ascii("timeout") && ps[1] == Ascii("network") && ps[2] == Ascii("fetch failed");
    assert ps[3] == Ascii("rate limit") && ps[4] == Ascii("rate_limit") && ps[5] == Ascii("429");
    assert ps[6] == Ascii("socket");
  }

  /**
   A call is retried exactly when an `Error` was thrown whose message, in lower
   case, holds none of the deny-listed patterns, and whose code is on the list
   or whose message holds an allow-listed pattern.
   */
  lemma RetryableExactly(message: Text, code: Text)
    ensures !IsRetryable(Other(message))
    ensures var c := ToUpperCase(code);
            IsRetryable(Error(message, code)) <==>
            && !Denied(ToLowerCase(message))
            && (|| c == Ascii("ECONNRESET") || c == Ascii("ECONNREFUSED") || c == Ascii("ETIMEDOUT")
                || c == Ascii("ENOTFOUND") || Allowed(ToLowerCase(message)))
  {
    DeniedPatterns(ToLowerCase(message));
    AllowedPatterns(ToLowerCase(message));
  }

  /** ASCII small letters become capitals, everything else stays. */
  lemma UpperLetters(u: CodeUnit)
    ensures Upper(u) == if 'a' as int <= u <= 'z' as int then u - 'a' as int + 'A' as int else u
  {
  }
}
