/** Fibonacci numbers, as a recursion and in closed form over exact reals (src/fetch/retry.rs:128-140). */
module Fibonacci {

  function Fib(n: nat): nat {
    if n < 2 then n else Fib(n - 1) + Fib(n - 2)
  }

  function Pow(x: real, n: nat): real {
    if n == 0 then 1.0 else x * Pow(x, n - 1)
  }

  /** To the nearest whole number, halves away from zero, of what is not negative. */
  function Round(x: real): int {
    (x + 0.5).Floor
  }

  /** The `n`-th delay in seconds, by Binet's formula. */
  function FibonacciDelay(sqrt5: real, n: nat): int
    requires sqrt5 > 0.0
  {
    var phi := (1.0 + sqrt5) / 2.0;
    Round(Pow(phi, n + 1) / sqrt5)
  }

  ghost predicate IsGolden(x: real) {
    x * x == x + 1.0
  }

  /** Both roots of `x * x == x + 1` turn the power's recursion into the numbers' own. */
  lemma GoldenStep(x: real, n: nat)
    requires IsGolden(x)
    ensures Pow(x, n + 2) == Pow(x, n + 1) + Pow(x, n)
  {
    var p := Pow(x, n);
    assert Pow(x, n + 1) == x * p;
    assert Pow(x, n + 2) == x * (x * p) == (x * x) * p;
  }

  lemma Distributes(x: real, y: real, z: real)
    ensures x * (y + z) == x * y + x * z
  {
  }

  lemma GoldenRoots(sqrt5: real, phi: real, psi: real)
    requires sqrt5 * sqrt5 == 5.0 && phi == (1.0 + sqrt5) / 2.0 && psi == (1.0 - sqrt5) / 2.0
    ensures IsGolden(phi) && IsGolden(psi) && phi - psi == sqrt5
  {
  }

  function Times(root: real, k: nat): real {
    root * k as real
  }

  lemma BinetStep(root: real, a: real, b: real, c: real, d: real, f: nat, g: nat)
    requires a - c == Times(root, f) && b - d == Times(root, g)
    ensures (a + b) - (c + d) == Times(root, f + g)
  {
    Distributes(root, f as real, g as real);
    assert (f + g) as real == f as real + g as real;
  }

  lemma BinetStart(root: real, phi: real, psi: real)
    requires phi - psi == root
    ensures Pow(phi, 0) - Pow(psi, 0) == Times(root, 0)
    ensures Pow(phi, 1) - Pow(psi, 1) == Times(root, 1)
  {
    assert Pow(phi, 1) == phi * Pow(phi, 0) && Pow(psi, 1) == psi * Pow(psi, 0);
  }

  /** Two golden numbers' powers differ by the Fibonacci numbers of their difference. */
  lemma {:induction false} Binet(root: real, phi: real, psi: real, n: nat)
    requires IsGolden(phi) && IsGolden(psi) && phi - psi == root
    ensures Pow(phi, n) - Pow(psi, n) == Times(root, Fib(n))
  {
    hide IsGolden, Times, Pow;
    if n < 2 {
      BinetStart(root, phi, psi);
    } else {
      Binet(root, phi, psi, n - 1);
      Binet(root, phi, psi, n - 2);
      GoldenStep(phi, n - 2);
      GoldenStep(psi, n - 2);
      BinetStep(root, Pow(phi, n - 1), Pow(phi, n - 2), Pow(psi, n - 1), Pow(psi, n - 2), Fib(n - 1), Fib(n - 2));
    }
  }

  lemma NotNegative(x: real, y: real)
    requires x >= 0.0 && y >= 0.0
    ensures x * y >= 0.0
  {
  }

  lemma Scaled(size: real, y: real)
    requires 0.0 <= size <= 1.0 && -1.0 <= y <= 1.0
    ensures -1.0 <= size * y <= 1.0
  {
    NotNegative(size, 1.0 - y);
    NotNegative(size, 1.0 + y);
    Distributes(size, 1.0, -y);
    Distributes(size, 1.0, y);
    assert size * -y == -(size * y);
  }

  lemma Shrinks(x: real, y: real)
    requires -1.0 <= x <= 1.0 && -1.0 <= y <= 1.0
    ensures -1.0 <= x * y <= 1.0
  {
    if x >= 0.0 {
      Scaled(x, y);
    } else {
      Scaled(-x, y);
      assert (-x) * y == -(x * y);
    }
  }

  lemma {:induction false} SmallPowers(x: real, n: nat)
    requires -1.0 <= x <= 1.0
    ensures -1.0 <= Pow(x, n) <= 1.0
  {
    if n > 0 {
      SmallPowers(x, n - 1);
      Shrinks(x, Pow(x, n - 1));
    }
  }

  /** The closed form rounds to the Fibonacci number, for every `n`. */
  lemma ClosedFormIsFibonacci(sqrt5: real, n: nat)
    ensures sqrt5 > 0.0 && sqrt5 * sqrt5 == 5.0 ==> FibonacciDelay(sqrt5, n) == Fib(n + 1)
  {
    if sqrt5 > 0.0 && sqrt5 * sqrt5 == 5.0 {
      var phi, psi := (1.0 + sqrt5) / 2.0, (1.0 - sqrt5) / 2.0;
      assert 2.0 < sqrt5 < 3.0;
      GoldenRoots(sqrt5, phi, psi);
      Binet(sqrt5, phi, psi, n + 1);
      SmallPowers(psi, n + 1);
      var f, e := Fib(n + 1) as real, Pow(psi, n + 1);
      Nearest(sqrt5, Pow(phi, n + 1), f, e, Fib(n + 1));
    }
  }

  lemma Nearest(root: real, power: real, f: real, e: real, whole: nat)
    requires root > 2.0 && power == root * f + e && -1.0 <= e <= 1.0 && f == whole as real
    ensures Round(power / root) == whole
  {
    assert power / root == f + e / root;
    assert -0.5 < e / root < 0.5;
  }
}

/** The retry loop and the wait a server may ask for (src/fetch/retry.rs:18-104). */
module Retry {
  import opened Wrappers
  import opened Text
  import opened Fibonacci

  /** Durations are in nanoseconds. */
  const SECOND: nat := 1_000_000_000

  const MAX_BACKOFF: nat := 60 * SECOND

  const TOO_MANY_REQUESTS: nat := 429
  const SERVICE_UNAVAILABLE: nat := 503

  datatype Response = Response(status: nat, retryAfter: Option<string>)

  /** Either seconds from now or a date; `date` reads one as nanoseconds since the epoch. */
  function ParseRetryAfter(value: string, now: nat, date: string -> Option<nat>): Option<nat> {
    var trimmed := Trim(value);
    var seconds := ParseU64(trimmed);
    if seconds.Some? then Some(seconds.value * SECOND)
    else
      var until := date(trimmed);
      if until.None? then None
      else Some(if until.value >= now then until.value - now else 0)
  }

  function RequestedWait(response: Response, now: nat, date: string -> Option<nat>): Option<nat> {
    if response.status !in {TOO_MANY_REQUESTS, SERVICE_UNAVAILABLE} || response.retryAfter.None? then None
    else ParseRetryAfter(response.retryAfter.value, now, date)
  }

  /** The slot through which an attempt hands a server's wait to the loop around it. */
  class RetryAfter {
    var hint: Option<nat>

    constructor ()
      ensures hint == None
    {
      hint := None;
    }

    method Record(response: Response, now: nat, date: string -> Option<nat>)
      modifies this
      ensures hint == RequestedWait(response, now, date)
    {
      hint := RequestedWait(response, now, date);
    }

    /** A recorded wait is given out once. */
    method Take() returns (wait: Option<nat>)
      modifies this
      ensures wait == old(hint) && hint == None
    {
      wait := hint;
      hint := None;
    }
  }

  datatype Result<+T, +E> = Ok(value: T) | Err(error: E)

  /** How one attempt goes: its result, and the answer it recorded if it got one. */
  datatype Attempt<+T, +E> = Attempt(result: Result<T, E>, response: Option<Response>)

  /** The clock and the reading of dates at each attempt. */
  datatype Clock = Clock(now: nat -> nat, date: string -> Option<nat>)

  function Min(a: nat, b: nat): nat {
    if a < b then a else b
  }

  /** What the server asked for in attempt `k`'s own answer; before anything was recorded, what the slot held. */
  function Asked<T, E>(operation: nat -> Attempt<T, E>, clock: Clock, initial: Option<nat>, k: nat): Option<nat> {
    var response := operation(k).response;
    if response.Some? then RequestedWait(response.value, clock.now(k), clock.date)
    else if k == 0 then initial
    else None
  }

  /** The wait between attempts `k` and `k + 1`. */
  function WaitAfter(asked: Option<nat>, k: nat): nat {
    Min(if asked.Some? then asked.value else Fib(k + 2) * SECOND, MAX_BACKOFF)
  }

  function Total(sleeps: seq<nat>): nat {
    if sleeps == [] then 0 else Total(sleeps[..|sleeps| - 1]) + sleeps[|sleeps| - 1]
  }

  lemma {:induction false} TotalBound(sleeps: seq<nat>, most: nat)
    requires forall k :: 0 <= k < |sleeps| ==> sleeps[k] <= most
    ensures Total(sleeps) <= most * |sleeps|
  {
    if sleeps != [] {
      var front := sleeps[..|sleeps| - 1];
      TotalBound(front, most);
      assert most * |sleeps| == most * |front| + most;
    }
  }

  /** Runs `operation` until it succeeds, fails for good or has used up its retries, sleeping in between. */
  method WithFibonacciBackoff<T, E>(retries: nat, shouldRetry: E -> bool, retryAfter: RetryAfter,
                                    operation: nat -> Attempt<T, E>, clock: Clock, sqrt5: real)
    returns (r: Result<T, E>, sleeps: seq<nat>)
    requires sqrt5 > 0.0 && sqrt5 * sqrt5 == 5.0
    modifies retryAfter
    ensures |sleeps| <= retries
    ensures r == operation(|sleeps|).result
    ensures r.Err? ==> |sleeps| == retries || !shouldRetry(r.error)
    ensures forall k :: 0 <= k < |sleeps| ==>
                          && operation(k).result.Err? && shouldRetry(operation(k).result.error)
                          && sleeps[k] == WaitAfter(Asked(operation, clock, old(retryAfter.hint), k), k)
    ensures Total(sleeps) <= MAX_BACKOFF * retries
  {
    hide Fib, FibonacciDelay, RequestedWait, Total;
    sleeps := [];
    var attempt := 0;
    while true
      invariant attempt == |sleeps| <= retries
      invariant retryAfter.hint == if attempt == 0 then old(retryAfter.hint) else None
      invariant forall k :: 0 <= k < |sleeps| ==>
                              && operation(k).result.Err? && shouldRetry(operation(k).result.error)
                              && sleeps[k] == WaitAfter(Asked(operation, clock, old(retryAfter.hint), k), k)
      decreases retries - attempt
    {
      var a := operation(attempt);
      if a.response.Some? {
        retryAfter.Record(a.response.value, clock.now(attempt), clock.date);
      }
      if a.result.Ok? || attempt >= retries || !shouldRetry(a.result.error) {
        r := a.result;
        break;
      }
      var asked := retryAfter.Take();
      ClosedFormIsFibonacci(sqrt5, attempt + 1);
      var delay := if asked.Some? then asked.value else FibonacciDelay(sqrt5, attempt + 1) * SECOND;
      sleeps := sleeps + [Min(delay, MAX_BACKOFF)];
      attempt := attempt + 1;
    }
    TotalBound(sleeps, MAX_BACKOFF);
    assert MAX_BACKOFF * |sleeps| <= MAX_BACKOFF * retries;
  }

  lemma {:induction false} FibGrows(n: nat)
    requires n >= 11
    ensures Fib(n) >= 89
  {
    if n == 11 {
      assert Fib(2) == 1 && Fib(3) == 2 && Fib(4) == 3 && Fib(5) == 5 && Fib(6) == 8;
      assert Fib(7) == 13 && Fib(8) == 21 && Fib(9) == 34 && Fib(10) == 55;
    } else {
      FibGrows(n - 1);
    }
  }

  /** A server that asks for nothing is left alone for exactly the Fibonacci numbers up to 55 seconds, and for the cap
      from the tenth wait on. */
  lemma CapTakesOver(k: nat)
    ensures WaitAfter(None, k) == if k < 9 then Fib(k + 2) * SECOND else MAX_BACKOFF
  {
    assert Fib(2) == 1 && Fib(3) == 2 && Fib(4) == 3 && Fib(5) == 5 && Fib(6) == 8;
    assert Fib(7) == 13 && Fib(8) == 21 && Fib(9) == 34 && Fib(10) == 55;
    if k >= 9 {
      FibGrows(k + 2);
    }
  }

  /** A number in a `Retry-After` is that many seconds, with white space around it or not, on the two statuses that may ask
      for a wait and no other. */
  lemma SecondsAreWaited(status: nat, front: string, n: nat, back: string, now: nat, date: string -> Option<nat>)
    requires IsBlank(front) && IsBlank(back) && n <= U64_MAX
    ensures RequestedWait(Response(status, Some(front + Decimal(n) + back)), now, date)
            == if status == 429 || status == 503 then Some(n * 1_000_000_000) else None
  {
    hide Trim, Decimal, ParseU64, IsWhite, IsBlank;
    DecimalEnds(n);
    TrimBlank(front, Decimal(n), back);
    TrimNothing(Decimal(n));
    ParseDecimal(n);
  }

  lemma DecimalEnds(n: nat)
    ensures var s := Decimal(n); !IsWhite(s[0]) && !IsWhite(s[|s| - 1])
  {
    var s := Decimal(n);
    assert IsDigit(s[0]) && IsDigit(s[|s| - 1]);
    hide Decimal;
  }

  lemma TrimNothing(s: string)
    requires s != "" && !IsWhite(s[0]) && !IsWhite(s[|s| - 1])
    ensures Trim(s) == s
  {
  }

  /** A date is waited for, and one that is past is no wait. */
  lemma DatesAreWaitedFor(status: nat, text: string, until: nat, now: nat, date: string -> Option<nat>)
    requires status == 429 || status == 503
    requires text != "" && 'A' <= text[0] <= 'Z' && !IsWhite(text[|text| - 1]) && date(text) == Some(until)
    ensures var wait := RequestedWait(Response(status, Some(text)), now, date);
            && (until >= now ==> wait.Some? && now + wait.value == until)
            && (until <= now ==> wait == Some(0))
  {
    assert !IsDigit(text[0]) && text[0] in text && !IsWhite(text[0]);
    hide TrimStart, TrimEnd;
  }

  /** No header, or one that is neither a number nor a date, asks for nothing. */
  lemma NothingIsAsked(status: nat, header: Option<string>, now: nat, date: string -> Option<nat>)
    requires header.Some? ==> ParseU64(Trim(header.value)).None? && date(Trim(header.value)).None?
    ensures RequestedWait(Response(status, header), now, date) == None
  {
  }

  /** In numbers: one second, two, three, five, eight, and never more than sixty; what a server asks for is given, up to
      that. */
  lemma WaitsInNumbers(asked: nat, k: nat)
    ensures WaitAfter(None, 0) == 1_000_000_000 && WaitAfter(None, 1) == 2_000_000_000
    ensures WaitAfter(None, 2) == 3_000_000_000 && WaitAfter(None, 3) == 5_000_000_000
    ensures WaitAfter(None, 4) == 8_000_000_000 && WaitAfter(None, 8) == 55_000_000_000
    ensures k >= 9 ==> WaitAfter(None, k) == 60_000_000_000
    ensures WaitAfter(Some(asked), k) == if asked <= 60_000_000_000 then asked else 60_000_000_000
  {
    CapTakesOver(k);
    assert Fib(2) == 1 && Fib(3) == 2 && Fib(4) == 3 && Fib(5) == 5 && Fib(6) == 8;
    assert Fib(7) == 13 && Fib(8) == 21 && Fib(9) == 34 && Fib(10) == 55;
  }
}
