/** The exponential backoff on wrapping 64-bit durations, and the retry loops that use it. */
module Backoff {
  import opened GoInts
  import opened ModArith

  const MILLISECOND: int := 1_000_000
  const SCALE_DEFAULT: Int64 := 200 * MILLISECOND
  const MAX_DEFAULT: Int64 := 5 * 60 * 1000 * MILLISECOND

  datatype Delayed = Delay(delay: Int64) | MaxAttemptsExceeded | BackoffDelayOverflow

  function Pow2(n: nat): nat {
    if n == 0 then 1 else 2 * Pow2(n - 1)
  }

  /** Go's left shift of an int64: the low 64 bits of x * 2^n, whatever n. */
  function Shl64(x: Int64, n: nat): Int64 {
    Wrap64(x as int * Pow2(n))
  }

  function Capped(x: int, max: int): int {
    if x > max then max else x
  }

  /** What a backoff that has delayed `attempt` times answers next, in unbounded arithmetic. */
  function NextDelay(maxAttempts: int, scale: int, max: Int64, attempt: nat): Delayed
    requires scale > 0 && max > 0
  {
    if attempt == maxAttempts then MaxAttemptsExceeded
    else if scale * Pow2(attempt) >= TWO_63 then BackoffDelayOverflow
    else
      assert scale * Pow2(attempt) >= 0;
      Delay(Capped(scale * Pow2(attempt), max))
  }

  /** The attempts a run can reach: the previous delay did not overflow. */
  ghost predicate ReachableAttempt(maxAttempts: int, scale: int, attempt: int) {
    attempt >= 0 && (attempt > 0 ==> scale * Pow2(attempt - 1) < TWO_63)
    && (maxAttempts >= 0 ==> attempt <= maxAttempts)
  }

  /** At a reachable attempt the sign of the wrapped shift tells exactly whether it overflowed. */
  lemma {:induction false} OverflowCaught(maxAttempts: int, scale: Int64, attempt: nat)
    requires scale > 0 && ReachableAttempt(maxAttempts, scale, attempt)
    ensures Shl64(scale, attempt) < 0 <==> scale as int * Pow2(attempt) >= TWO_63
    ensures Shl64(scale, attempt) >= 0 ==> Shl64(scale, attempt) == scale as int * Pow2(attempt)
  {
    var s: int := scale;
    if attempt > 0 {
      assert s * Pow2(attempt) == 2 * (s * Pow2(attempt - 1));
    }
    assert s * Pow2(attempt) >= 0;
  }

  /** At other attempts it would not: from 64 on, every shift wraps to zero. */
  lemma {:induction false} OverflowMissed(scale: Int64, attempt: nat)
    requires scale > 0 && attempt >= 64
    ensures Shl64(scale, attempt) == 0 && scale as int * Pow2(attempt) >= TWO_63
  {
    var s: int := scale;
    Pow2Multiple(attempt);
    var m: nat :| Pow2(attempt) == m * TWO_64;
    assert m >= 1;
    assert s * Pow2(attempt) == (s * m) * TWO_64;
    assert s * m >= 1;
  }

  lemma {:induction false} Pow2Multiple(n: nat)
    requires n >= 64
    ensures exists m: nat :: Pow2(n) == m * TWO_64
    ensures Pow2(n) > 0
  {
    if n == 64 {
      Pow2Of64();
      assert Pow2(n) == 1 * TWO_64;
    } else {
      Pow2Multiple(n - 1);
      var m: nat :| Pow2(n - 1) == m * TWO_64;
      assert Pow2(n) == (2 * m) * TWO_64;
    }
  }

  lemma Pow2Of64()
    ensures Pow2(63) == TWO_63 && Pow2(64) == TWO_64
  {
    assert Pow2(4) == 16;
    Pow2Add(4, 4);
    Pow2Add(8, 8);
    Pow2Add(16, 16);
    Pow2Add(32, 32);
  }

  lemma {:induction false} Pow2Add(m: nat, n: nat)
    ensures Pow2(m + n) == Pow2(m) * Pow2(n)
  {
    if m == 0 {
    } else {
      Pow2Add(m - 1, n);
      assert Pow2(m + n) == 2 * Pow2(m - 1 + n);
    }
  }

  function ActualScale(scale: Int64): (r: Int64)
    ensures r > 0
  {
    if scale <= 0 then SCALE_DEFAULT else scale
  }

  function ActualMax(max: Int64): (r: Int64)
    ensures r > 0
  {
    if max <= 0 then MAX_DEFAULT else max
  }

  lemma AtLeast(scale: int, p: int)
    requires scale > 0 && p >= 0
    ensures scale * p >= p
  {
    MulMonotone(p, 1, scale);
    assert p * scale == scale * p;
  }

  lemma ReachableBound(maxAttempts: int, scale: int, attempt: nat)
    requires scale > 0 && ReachableAttempt(maxAttempts, scale, attempt)
    ensures attempt <= 63
  {
    if attempt >= 64 {
      Pow2Of64();
      Pow2Grows(63, attempt - 1);
      AtLeast(scale, Pow2(attempt - 1));
    }
  }

  lemma {:induction false} Pow2Grows(m: nat, n: nat)
    requires m <= n
    ensures 0 < Pow2(m) <= Pow2(n)
    decreases n
  {
    if m < n {
      Pow2Grows(m, n - 1);
    } else if m == 0 {
    } else {
      Pow2Grows(m - 1, n - 1);
    }
  }

  class Backoff {
    const maxAttempts: Int64
    const scale: Int64
    const max: Int64
    var attempt: Int64

    ghost predicate Valid()
      reads this
    {
      scale > 0 && max > 0 && ReachableAttempt(maxAttempts, scale, attempt)
    }

    constructor (maxAttempts: Int64, scale: Int64, max: Int64)
      ensures Valid() && attempt == 0 && this.maxAttempts == maxAttempts
      ensures this.scale == ActualScale(scale) && this.max == ActualMax(max)
      ensures this.scale == (if scale <= 0 then 200_000_000 else scale)
      ensures this.max == (if max <= 0 then 300_000_000_000 else max)
    {
      var actualScale := scale;
      if actualScale <= 0 {
        actualScale := SCALE_DEFAULT;
      }
      var actualMax := max;
      if actualMax <= 0 {
        actualMax := MAX_DEFAULT;
      }
      this.maxAttempts, this.scale, this.max, this.attempt := maxAttempts, actualScale, actualMax, 0;
    }

    method Delay() returns (r: Delayed)
      requires Valid()
      modifies this
      ensures Valid()
      ensures r == NextDelay(maxAttempts, scale, max, old(attempt))
      ensures attempt == if r.Delay? then old(attempt) + 1 else old(attempt)
      ensures r.MaxAttemptsExceeded? <==> old(attempt) == maxAttempts
      ensures r.BackoffDelayOverflow? <==> old(attempt) != maxAttempts && scale * Pow2(old(attempt)) >= TWO_63
      ensures r.Delay? ==>
        r.delay as int == if scale * Pow2(old(attempt)) > max then max else scale * Pow2(old(attempt))
    {
      if attempt == maxAttempts {
        return MaxAttemptsExceeded;
      }
      OverflowCaught(maxAttempts, scale, attempt);
      ReachableBound(maxAttempts, scale, attempt);
      var delay := Shl64(scale, attempt);
      if delay < 0 {
        return BackoffDelayOverflow;
      }
      if delay > max {
        delay := max;
      }
      attempt := attempt + 1;
      r := Delayed.Delay(delay);
    }
  }

  // ---------- runs ----------

  /** The least exponent at which the delay overflows. */
  function FirstOverflow(scale: nat): nat
    requires scale > 0
    decreases TWO_63 - scale
  {
    if scale >= TWO_63 then 0 else 1 + FirstOverflow(2 * scale)
  }

  lemma {:induction false} FirstOverflowIs(scale: nat, i: nat)
    requires scale > 0
    ensures scale * Pow2(i) >= TWO_63 <==> i >= FirstOverflow(scale)
    decreases TWO_63 - scale
  {
    if scale >= TWO_63 {
      Pow2Grows(0, i);
      assert scale * Pow2(i) >= scale;
    } else if i == 0 {
    } else {
      FirstOverflowIs(2 * scale, i - 1);
      assert scale * Pow2(i) == 2 * scale * Pow2(i - 1);
    }
  }

  /** How many calls of Delay succeed. */
  function Successes(maxAttempts: int, scale: nat): nat
    requires scale > 0
  {
    if 0 <= maxAttempts < FirstOverflow(scale) then maxAttempts else FirstOverflow(scale)
  }

  lemma {:induction false} SuccessesBound(maxAttempts: int, scale: nat)
    requires 0 < scale < TWO_63
    ensures Successes(maxAttempts, scale) <= 63
    ensures maxAttempts >= 0 ==> Successes(maxAttempts, scale) <= maxAttempts
    ensures maxAttempts != 0 ==> Successes(maxAttempts, scale) >= 1
  {
    Pow2Of64();
    FirstOverflowIs(scale, 63);
    assert scale * Pow2(63) >= Pow2(63);
  }

  /** Which calls those are: both limits allow them, the number of attempts and the range of an int64. */
  lemma {:induction false} SuccessIff(maxAttempts: int, scale: nat, i: nat)
    requires scale > 0
    ensures i < Successes(maxAttempts, scale)
            <==> (maxAttempts < 0 || i < maxAttempts) && scale * Pow2(i) < 0x8000_0000_0000_0000
  {
    FirstOverflowIs(scale, i);
  }

  /** The attempt field after i calls. */
  function AttemptAfter(maxAttempts: int, scale: nat, max: Int64, i: nat): nat
    requires scale > 0 && max > 0
  {
    if i == 0 then 0
    else
      var attempt := AttemptAfter(maxAttempts, scale, max, i - 1);
      if NextDelay(maxAttempts, scale, max, attempt).Delay? then attempt + 1 else attempt
  }

  /** The i-th call succeeds with min(scale * 2^i, max) as long as i is below the number of successes; the
      error that follows is permanent. */
  lemma {:induction false} DelayRun(maxAttempts: int, scale: nat, max: Int64, i: nat)
    requires scale > 0 && max > 0
    ensures AttemptAfter(maxAttempts, scale, max, i) ==
            if i <= Successes(maxAttempts, scale) then i else Successes(maxAttempts, scale)
    ensures var r := NextDelay(maxAttempts, scale, max, AttemptAfter(maxAttempts, scale, max, i));
      if i < Successes(maxAttempts, scale) then r.Delay? && r.delay as int == Capped(scale * Pow2(i), max)
      else if Successes(maxAttempts, scale) == maxAttempts then r.MaxAttemptsExceeded?
      else r.BackoffDelayOverflow?
  {
    FirstOverflowIs(scale, AttemptAfter(maxAttempts, scale, max, i));
    if i == 0 {
    } else {
      DelayRun(maxAttempts, scale, max, i - 1);
    }
  }

  /** Delays never decrease. */
  lemma DelaysGrow(scale: nat, max: Int64, i: nat, j: nat)
    requires i <= j
    ensures Capped(scale * Pow2(i), max) <= Capped(scale * Pow2(j), max)
  {
    Pow2Grows(i, j);
    MulMonotone(scale, Pow2(i), Pow2(j));
  }

  /** The sum of the first n delays. */
  function TotalWait(scale: nat, max: int, n: nat): int {
    if n == 0 then 0 else TotalWait(scale, max, n - 1) + Capped(scale * Pow2(n - 1), max)
  }

  /** The least exponent at which the delay is capped. */
  function FirstCapped(scale: nat, max: int): nat
    requires scale > 0
    decreases max - scale
  {
    if scale > max then 0 else 1 + FirstCapped(2 * scale, max)
  }

  lemma {:induction false} FirstCappedIs(scale: nat, max: int, i: nat)
    requires scale > 0
    ensures scale * Pow2(i) > max <==> i >= FirstCapped(scale, max)
    decreases max - scale
  {
    if scale > max {
      Pow2Grows(0, i);
      assert scale * Pow2(i) >= scale;
    } else if i == 0 {
    } else {
      FirstCappedIs(2 * scale, max, i - 1);
      assert scale * Pow2(i) == 2 * scale * Pow2(i - 1);
    }
  }

  /** Doubling until the cap, constant after it. */
  lemma {:induction false} TotalWaitClosed(scale: nat, max: int, n: nat)
    requires scale > 0
    ensures var j := if n <= FirstCapped(scale, max) then n else FirstCapped(scale, max);
      TotalWait(scale, max, n) == scale * (Pow2(j) - 1) + (n - j) * max
    decreases n
  {
    if n == 0 {
    } else {
      TotalWaitClosed(scale, max, n - 1);
      FirstCappedIs(scale, max, n - 1);
      NextTerm(scale, Pow2(n - 1), max, n - FirstCapped(scale, max));
    }
  }

  lemma NextTerm(scale: int, p: int, max: int, k: int)
    ensures scale * (2 * p - 1) == scale * (p - 1) + scale * p
    ensures k * max == (k - 1) * max + max
    ensures 0 * max == 0
  {}
}
