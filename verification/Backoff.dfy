/**
 Capped exponential backoff, written twice in the source: the retry policy (internal/account/retry.go) and the
 diagnostics uploader (internal/diagnostics/service.go). Both are proved against one closed form.
 */
module Backoff {
  /** A signed 64-bit duration. Assigning a result that does not fit is an error, so the methods below cannot overflow. */
  type Duration = x: int | -0x8000_0000_0000_0000 <= x <= 0x7FFF_FFFF_FFFF_FFFF

  function Pow2(n: nat): nat {
    if n == 0 then 1 else 2 * Pow2(n - 1)
  }

  /** base * 2^(attempt - 1), at most max. */
  function Capped(base: int, max: int, attempt: int): int
    requires attempt >= 1
  {
    var exact := base * Pow2(attempt - 1);
    if exact < max then exact else max
  }

  lemma {:induction false} Pow2Grows(m: nat, n: nat)
    requires m <= n
    ensures 1 <= Pow2(m) <= Pow2(n)
  {
    if m < n { Pow2Grows(m, n - 1); } else if m > 0 { Pow2Grows(m - 1, m - 1); }
  }

  lemma ScaleKeepsOrder(base: int, a: int, b: int)
    requires base >= 0 && a <= b
    ensures base * a <= base * b
  {
  }

  /** The delay never falls from one attempt to a later one. */
  lemma CappedIsMonotone(base: int, max: int, m: int, n: int)
    requires base >= 0 && 1 <= m <= n
    ensures Capped(base, max, m) <= Capped(base, max, n) <= max
  {
    Pow2Grows(m - 1, n - 1);
    ScaleKeepsOrder(base, Pow2(m - 1), Pow2(n - 1));
  }

  /** Once the exact value reaches the cap it stays there. */
  lemma StaysCapped(base: int, max: int, m: int, n: int)
    requires base >= 0 && 1 <= m <= n && base * Pow2(m - 1) >= max
    ensures Capped(base, max, n) == max
  {
    Pow2Grows(m - 1, n - 1);
    ScaleKeepsOrder(base, Pow2(m - 1), Pow2(n - 1));
  }

  lemma Doubles(base: int, n: nat)
    ensures 2 * (base * Pow2(n)) == base * Pow2(n + 1)
  {
    assert Pow2(n + 1) == 2 * Pow2(n);
  }

  datatype FailureClass = Transient | CredentialFailure | PermissionFailure | ConfigurationFailure | UnknownFailure | Unclassified

  datatype Failure = Failure(kind: FailureClass, attempt: int)

  datatype Policy = Policy(maxAttempts: int, baseDelay: Duration, maxDelay: Duration) {
    predicate Valid() { maxAttempts >= 1 && 0 <= baseDelay <= maxDelay }
  }

  datatype Decision = InvalidPolicy | InvalidFailure | GiveUp | RetryAfter(delay: Duration)

  /** Decides about a retry. A transient failure with attempts left waits exactly the closed form. */
  method Decide(p: Policy, f: Failure) returns (d: Decision)
    ensures d == InvalidPolicy <==> !p.Valid()
    ensures d == InvalidFailure <==> p.Valid() && (f.attempt < 1 || f.kind == Unclassified)
    ensures d.RetryAfter? <==> p.Valid() && f.kind == Transient && 1 <= f.attempt < p.maxAttempts
    ensures d.RetryAfter? ==> d.delay == Capped(p.baseDelay, p.maxDelay, f.attempt)
  {
    if !p.Valid() { return InvalidPolicy; }
    if f.attempt < 1 || f.kind == Unclassified { return InvalidFailure; }
    if f.kind != Transient || f.attempt >= p.maxAttempts { return GiveUp; }
    var delay := p.baseDelay;
    if delay == 0 { return RetryAfter(0); }
    var step := 1;
    while step < f.attempt && delay < p.maxDelay
      invariant 1 <= step <= f.attempt && 0 < delay <= p.maxDelay && delay == p.baseDelay * Pow2(step - 1)
      decreases f.attempt - step
    {
      Doubles(p.baseDelay, step - 1);
      if delay > p.maxDelay / 2 {
        StaysCapped(p.baseDelay, p.maxDelay, step + 1, f.attempt);
        return RetryAfter(p.maxDelay);
      }
      delay := delay * 2;
      step := step + 1;
    }
    if delay >= p.maxDelay { StaysCapped(p.baseDelay, p.maxDelay, step, f.attempt); }
    return RetryAfter(delay);
  }

  /** The uploader's own backoff. For a positive base it is the same closed form, even when the cap is below the base. */
  method UploadBackoff(base: Duration, max: Duration, attempts: int) returns (delay: Duration)
    ensures attempts < 1 || base <= 0 ==> delay == 0
    ensures attempts >= 1 && base > 0 ==> delay == Capped(base, max, attempts)
  {
    if attempts < 1 || base <= 0 { return 0; }
    delay := base;
    var index := 1;
    assert base >= max ==> base * Pow2(0) >= max;
    while index < attempts && delay < max
      invariant 1 <= index <= attempts && 0 < delay && delay == base * Pow2(index - 1)
      decreases attempts - index
    {
      Doubles(base, index - 1);
      if delay > max / 2 {
        StaysCapped(base, max, index + 1, attempts);
        return max;
      }
      delay := delay * 2;
      index := index + 1;
    }
    if delay >= max {
      StaysCapped(base, max, index, attempts);
      return max;
    }
  }

  /** Both implementations agree wherever both apply. */
  method BothAgree(p: Policy, attempt: int) returns (retry: Decision, upload: Duration)
    requires p.Valid() && p.baseDelay > 0 && 1 <= attempt < p.maxAttempts
    ensures retry == RetryAfter(upload)
  {
    retry := Decide(p, Failure(Transient, attempt));
    upload := UploadBackoff(p.baseDelay, p.maxDelay, attempt);
  }
}
