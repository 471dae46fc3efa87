/** The loops that retry behind a backoff: connecting a client, and joining the consumer group. What the
    network answers on try number i is the argument `succeeds(i)`. */
module RetryLoops {
  import opened GoInts
  import opened Backoff

  const MAX_CONSUME_ATTEMPTS: Int64 := 3

  /** `tries` tries, of which only the last may have succeeded, with the first tries - 1 delays between them;
      without a success there is one try more than the backoff has delays. */
  ghost predicate Retried(maxAttempts: int, scale: nat, max: int, succeeds: nat -> bool, ok: bool, tries: nat,
      waited: int)
    requires scale > 0
  {
    1 <= tries <= Successes(maxAttempts, scale) + 1
    && waited == TotalWait(scale, max, tries - 1)
    && (forall i :: 0 <= i < tries - 1 ==> !succeeds(i))
    && ok == succeeds(tries - 1)
    && (!ok ==> tries == Successes(maxAttempts, scale) + 1)
  }

  /** The delay before the next try, after `tries` delays so far. */
  method Wait(backoff: Backoff, ghost tries: nat) returns (delay: Delayed)
    requires backoff.Valid() && backoff.attempt == tries <= Successes(backoff.maxAttempts, backoff.scale)
    modifies backoff
    ensures backoff.Valid()
    ensures delay.Delay? <==> tries < Successes(backoff.maxAttempts, backoff.scale)
    ensures delay.Delay? ==> backoff.attempt == tries + 1
    ensures delay.Delay? ==>
      TotalWait(backoff.scale, backoff.max, tries + 1) == TotalWait(backoff.scale, backoff.max, tries) + delay.delay
  {
    DelayRun(backoff.maxAttempts, backoff.scale, backoff.max, tries);
    delay := backoff.Delay();
  }

  /** Creates a client, retrying while the backoff allows it. */
  method NewClientWithRetry(maxAttempts: Int64, bootstrapBackoffScale: Int64, succeeds: nat -> bool)
    returns (connected: bool, tries: nat, waited: int)
    ensures var scale := ActualScale(Wrap64(bootstrapBackoffScale as int * MILLISECOND));
      Retried(maxAttempts, scale, MAX_DEFAULT, succeeds, connected, tries, waited)
    ensures tries <= 64 && (maxAttempts >= 0 ==> tries <= maxAttempts + 1)
    ensures var delays := Successes(maxAttempts, ActualScale(Wrap64(bootstrapBackoffScale as int * MILLISECOND)));
      (connected <==> exists i: nat :: i <= delays && succeeds(i)) && (!connected ==> tries == delays + 1)
    ensures connected ==> succeeds(tries - 1) && forall i :: 0 <= i < tries - 1 ==> !succeeds(i)
  {
    var backoff := new Backoff(maxAttempts, Wrap64(bootstrapBackoffScale as int * MILLISECOND), MAX_DEFAULT);
    SuccessesBound(maxAttempts, backoff.scale);
    connected, tries, waited := false, 0, 0;
    while true
      invariant backoff.Valid() && !connected && backoff.attempt == tries <= Successes(maxAttempts, backoff.scale)
      invariant waited == TotalWait(backoff.scale, MAX_DEFAULT, tries)
      invariant forall i :: 0 <= i < tries ==> !succeeds(i)
      decreases Successes(maxAttempts, backoff.scale) - tries
    {
      tries := tries + 1;
      if succeeds(tries - 1) {
        connected := true;
        return;
      }
      var delay := Wait(backoff, tries - 1);
      if !delay.Delay? {
        return;
      }
      waited := waited + delay.delay;
    }
  }

  /** Joins the consumer group: `joins(i)` says whether try number i does so within its timeout. Not having
      joined ends the process. */
  method Consume(joins: nat -> bool) returns (joined: bool, tries: nat, waited: int)
    ensures Retried(MAX_CONSUME_ATTEMPTS, 5000 * MILLISECOND, MAX_DEFAULT, joins, joined, tries, waited)
  {
    var backoff := new Backoff(MAX_CONSUME_ATTEMPTS, 5000 * MILLISECOND, MAX_DEFAULT);
    joined, tries, waited := false, 0, 0;
    while true
      invariant backoff.Valid() && !joined && backoff.attempt == tries <= Successes(MAX_CONSUME_ATTEMPTS, backoff.scale)
      invariant waited == TotalWait(backoff.scale, MAX_DEFAULT, tries)
      invariant forall i :: 0 <= i < tries ==> !joins(i)
      decreases Successes(MAX_CONSUME_ATTEMPTS, backoff.scale) - tries
    {
      var isTimeout := !joins(tries);
      tries := tries + 1;
      if isTimeout {
        var delay := Wait(backoff, tries - 1);
        if !delay.Delay? {
          return;
        }
        waited := waited + delay.delay;
      } else {
        joined := true;
        return;
      }
    }
  }

  /** Doubling from five seconds to the maximum of five minutes, ten times. */
  lemma DefaultWaits()
    ensures var scale := 5000 * MILLISECOND;
      Successes(10, scale) == 10 && TotalWait(scale, MAX_DEFAULT, 10) == 1515 * 1000 * MILLISECOND
  {
    var scale := 5000 * MILLISECOND;
    assert Pow2(5) == 32 && Pow2(6) == 64 && Pow2(9) == 512;
    SuccessIff(10, scale, 9);
    SuccessIff(10, scale, 10);
    FirstCappedIs(scale, MAX_DEFAULT, 5);
    FirstCappedIs(scale, MAX_DEFAULT, 6);
    TotalWaitClosed(scale, MAX_DEFAULT, 10);
  }

  /** With the default settings, ten attempts and five seconds, a client that never connects is given up after
      eleven tries and 1515 seconds of delays: 5, 10, 20, 40, 80, 160, and four times the maximum of 300. */
  lemma {:induction false} DefaultsGiveUp(succeeds: nat -> bool, connected: bool, tries: nat, waited: int)
    requires Retried(10, 5000 * MILLISECOND, MAX_DEFAULT, succeeds, connected, tries, waited)
    ensures connected <==> exists i: nat :: i <= 10 && succeeds(i)
    ensures !connected ==> tries == 11 && waited == 1_515_000_000_000
  {
    DefaultWaits();
    if connected {
      assert succeeds(tries - 1);
    }
  }

  /** A consumer joins within four tries or not at all, after at most 35 seconds of delays. */
  lemma {:induction false} ConsumeBound(joins: nat -> bool, joined: bool, tries: nat, waited: int)
    requires Retried(MAX_CONSUME_ATTEMPTS, 5000 * MILLISECOND, MAX_DEFAULT, joins, joined, tries, waited)
    ensures 1 <= tries <= 4 && 0 <= waited <= 35_000 * MILLISECOND
    ensures joined <==> exists i: nat :: i <= 3 && joins(i)
    ensures !joined ==> waited == 35_000 * MILLISECOND
  {
    var scale := 5000 * MILLISECOND;
    FirstOverflowIs(scale, 3);
    assert Pow2(0) == 1 && Pow2(1) == 2 && Pow2(2) == 4 && Pow2(3) == 8;
    assert TotalWait(scale, MAX_DEFAULT, 1) == 5000 * MILLISECOND;
    assert TotalWait(scale, MAX_DEFAULT, 2) == 15000 * MILLISECOND;
    assert TotalWait(scale, MAX_DEFAULT, 3) == 35000 * MILLISECOND;
    if joined {
      assert joins(tries - 1);
    }
  }
}
