/** The status service: two rings of counter samples in lockstep, and the percentage computed from them. */
module StatusService {
  import opened GoInts
  import opened ModArith
  import opened TimeWindowRing

  /** A percentage, the error for "no data samples in the window", or Go's panic on an index out of range. */
  datatype Consumed = NoDataSamples | Percentage(value: real) | IndexOutOfRange

  /** The library's rounding: to the nearest integer, halves away from zero. */
  function Round(x: real): int {
    if x >= 0.0 then (x + 0.5).Floor else -((0.5 - x).Floor)
  }

  /** How far a counter moved from the first to the last sample of the window. */
  function Delta(history: seq<UInt64>, n: nat): UInt64
    requires history != [] && n > 0
  {
    var head: int, tail: int := history[|history| - 1], Last(history, n)[0];
    WrapU64(head - tail)
  }

  /** Rounded to two decimal digits, over exact rationals but with the wrap of consumed * 100. */
  function Rounded(consumed: UInt64, produced: UInt64): real
    requires produced != 0
  {
    var times100: int := consumed * 100;
    var percentage := WrapU64(times100) as real / produced as real;
    Round(percentage * 100.0) as real / 100.0
  }

  function Reported(consumed: UInt64, produced: UInt64): Consumed {
    if produced == 0 then NoDataSamples else Percentage(Rounded(consumed, produced))
  }

  /** The guard is about produced samples only: without a consumed one the head of that ring is read at
      index -1. */
  function Report(consumed: seq<UInt64>, produced: seq<UInt64>, n: nat): Consumed
    requires produced != [] || consumed != [] ==> n > 0
  {
    if produced == [] then NoDataSamples
    else if consumed == [] then IndexOutOfRange
    else Reported(Delta(consumed, n), Delta(produced, n))
  }

  class StatusService {
    const statusCheckInterval: Int64
    const producedRecordsSamples: TimeWindowRing
    const consumedRecordsSamples: TimeWindowRing

    /** The consumed ring has as many samples as the produced one, or, within a tick, one less. */
    ghost predicate Valid()
      reads this, producedRecordsSamples, consumedRecordsSamples
      reads producedRecordsSamples.buffer, consumedRecordsSamples.buffer
    {
      var p, c := producedRecordsSamples, consumedRecordsSamples;
      p != c && p.buffer != c.buffer && p.buffer.Length == c.buffer.Length
      && p.Valid() && c.Valid() && |c.history| <= |p.history| <= |c.history| + 1
    }

    /** A tick has put its first sample but not yet its second. */
    ghost predicate WithinTick()
      reads this, producedRecordsSamples, consumedRecordsSamples
    {
      |producedRecordsSamples.history| > |consumedRecordsSamples.history|
    }

    constructor (statusTimeWindow: Int64, statusCheckInterval: Int64)
      requires statusCheckInterval != 0 && Buckets(statusTimeWindow, statusCheckInterval) >= 0
      ensures Valid() && fresh(producedRecordsSamples) && fresh(consumedRecordsSamples)
      ensures producedRecordsSamples.history == [] && consumedRecordsSamples.history == []
      ensures producedRecordsSamples.buffer.Length == Buckets(statusTimeWindow, statusCheckInterval)
      ensures this.statusCheckInterval == statusCheckInterval
    {
      this.statusCheckInterval := statusCheckInterval;
      producedRecordsSamples := new TimeWindowRing(statusTimeWindow, statusCheckInterval);
      consumedRecordsSamples := new TimeWindowRing(statusTimeWindow, statusCheckInterval);
    }

    /** The first step of a tick. */
    method SampleProduced(recordsProduced: UInt64)
      requires Valid() && !WithinTick() && producedRecordsSamples.buffer.Length > 0
      modifies producedRecordsSamples, producedRecordsSamples.buffer
      ensures Valid() && WithinTick()
      ensures producedRecordsSamples.history == old(producedRecordsSamples.history) + [recordsProduced]
    {
      producedRecordsSamples.Put(recordsProduced);
    }

    /** The second step. The rings are in lockstep again. */
    method SampleConsumed(recordsConsumed: UInt64)
      requires Valid() && WithinTick() && producedRecordsSamples.buffer.Length > 0
      modifies consumedRecordsSamples, consumedRecordsSamples.buffer
      ensures Valid() && !WithinTick()
      ensures consumedRecordsSamples.history == old(consumedRecordsSamples.history) + [recordsConsumed]
      ensures producedRecordsSamples.head == consumedRecordsSamples.head
      ensures producedRecordsSamples.tail == consumedRecordsSamples.tail
      ensures producedRecordsSamples.count == consumedRecordsSamples.count
    {
      consumedRecordsSamples.Put(recordsConsumed);
    }

    /** One tick: a sample of each counter. */
    method StatusCheck(recordsProduced: UInt64, recordsConsumed: UInt64)
      requires Valid() && !WithinTick() && producedRecordsSamples.buffer.Length > 0
      modifies producedRecordsSamples, producedRecordsSamples.buffer
      modifies consumedRecordsSamples, consumedRecordsSamples.buffer
      ensures Valid() && !WithinTick()
      ensures producedRecordsSamples.history == old(producedRecordsSamples.history) + [recordsProduced]
      ensures consumedRecordsSamples.history == old(consumedRecordsSamples.history) + [recordsConsumed]
      ensures producedRecordsSamples.head == consumedRecordsSamples.head
      ensures producedRecordsSamples.tail == consumedRecordsSamples.tail
      ensures producedRecordsSamples.count == consumedRecordsSamples.count
    {
      SampleProduced(recordsProduced);
      SampleConsumed(recordsConsumed);
    }

    /** Head minus tail of one ring. */
    static method Moved(ring: TimeWindowRing) returns (delta: UInt64)
      requires ring.Valid() && !ring.IsEmpty()
      ensures ring.history != [] && delta == Delta(ring.history, ring.buffer.Length)
    {
      var head: int := ring.Head();
      var tail: int := ring.Tail();
      delta := WrapU64(head - tail);
    }

    /** The guard looks at the produced ring only. That is enough except within the first tick. */
    method ConsumedPercentage() returns (r: Consumed)
      requires Valid()
      ensures r == Report(consumedRecordsSamples.history, producedRecordsSamples.history,
                          producedRecordsSamples.buffer.Length)
      ensures r.IndexOutOfRange? <==> WithinTick() && |producedRecordsSamples.history| == 1
    {
      if producedRecordsSamples.IsEmpty() {
        return NoDataSamples;
      }
      if consumedRecordsSamples.head < 0 {
        return IndexOutOfRange;
      }
      var consumed := Moved(consumedRecordsSamples);
      var produced := Moved(producedRecordsSamples);
      if produced == 0 {
        return NoDataSamples;
      }
      r := Percentage(Rounded(consumed, produced));
    }

    /** The consuming section of the status page. A panic is caught by the HTTP server, which then gives no
        answer. */
    method StatusHandler() returns (answered: bool, timeWindow: Int64, percentage: real)
      requires Valid()
      ensures answered <==> !(WithinTick() && |producedRecordsSamples.history| == 1)
      ensures var consumed, n := consumedRecordsSamples.history, producedRecordsSamples.buffer.Length;
        timeWindow == Wrap64(statusCheckInterval as int * |Last(consumed, n)|)
        && match Report(consumed, producedRecordsSamples.history, n)
           case NoDataSamples => percentage == -1.0
           case Percentage(value) => percentage == value && value >= 0.0
           case IndexOutOfRange => !answered
    {
      consumedRecordsSamples.Refines();
      answered, timeWindow := true, Wrap64(statusCheckInterval * consumedRecordsSamples.Count());
      var consumedPercentage := ConsumedPercentage();
      match consumedPercentage {
        case NoDataSamples =>
          percentage := -1.0;
        case Percentage(value) =>
          ReportedNonNegative(Delta(consumedRecordsSamples.history, producedRecordsSamples.buffer.Length),
                              Delta(producedRecordsSamples.history, producedRecordsSamples.buffer.Length));
          percentage := value;
        case IndexOutOfRange =>
          answered, percentage := false, 0.0;
      }
    }
  }

  lemma ReportedNonNegative(consumed: UInt64, produced: UInt64)
    ensures Reported(consumed, produced).Percentage? ==> Reported(consumed, produced).value >= 0.0
  {}

  // ---------- rounding ----------

  function Exact(consumed: int, produced: int): real
    requires produced > 0
  {
    100.0 * consumed as real / produced as real
  }

  ghost predicate Near(x: real, y: real) {
    -0.005 <= x - y <= 0.005
  }

  lemma RoundNear(x: real)
    requires x >= 0.0
    ensures -0.5 <= Round(x) as real - x <= 0.5
  {}

  lemma DivLemma(a: real, b: real, p: real)
    requires p > 0.0
    ensures (a + b) / p == a / p + b / p
    ensures b >= p ==> b / p >= 1.0
  {
    assert (a / p + b / p) * p == a + b;
    if b / p < 1.0 {
      assert b / p * p < 1.0 * p;
    }
  }

  /** Wrapping the counter before and after scaling it loses a multiple of 2^64. */
  lemma Lost(consumed: int)
    ensures var wrapped: int := WrapU64(WrapU64(consumed) as int * 100);
      wrapped == consumed * 100 || wrapped - consumed * 100 >= TWO_64 || consumed * 100 - wrapped >= TWO_64
    ensures WrapU64(WrapU64(consumed) as int * 100) as int == consumed * 100 <==> 0 <= consumed * 100 < TWO_64
  {
    var once, k := consumed % TWO_64, consumed / TWO_64;
    var m := once * 100 / TWO_64;
    assert once * 100 == TWO_64 * m + once * 100 % TWO_64;
    assert consumed * 100 - once * 100 % TWO_64 == TWO_64 * (100 * k + m);
  }

  /** The report is within half a hundredth of the exact percentage if and only if consumed is not negative
      and consumed * 100 does not overflow. */
  lemma {:induction false} ReportedNear(consumed: int, produced: UInt64)
    requires produced > 0
    ensures Near(Reported(WrapU64(consumed), produced).value, Exact(consumed, produced))
        <==> 0 <= consumed * 100 < TWO_64
  {
    var times100: int := consumed * 100;
    var wrapped: int := WrapU64(WrapU64(consumed) as int * 100);
    var p, percentage := produced as real, wrapped as real / produced as real;
    assert percentage >= 0.0;
    RoundNear(percentage * 100.0);
    assert Near(Reported(WrapU64(consumed), produced).value, percentage);
    assert 100.0 * consumed as real == times100 as real;
    Lost(consumed);
    if times100 - wrapped >= TWO_64 {
      DivLemma(wrapped as real, (times100 - wrapped) as real, p);
    } else if wrapped - times100 >= TWO_64 {
      DivLemma(times100 as real, (wrapped - times100) as real, p);
    }
  }

  /** The report is a whole number of hundredths. */
  lemma {:induction false} TwoDecimals(consumed: UInt64, produced: UInt64)
    requires produced > 0
    ensures var hundredths := Reported(consumed, produced).value * 100.0;
      hundredths.Floor as real == hundredths
  {
    var n := Round(WrapU64(consumed as int * 100) as real / produced as real * 100.0);
    assert Reported(consumed, produced).value == n as real / 100.0;
    assert Reported(consumed, produced).value * 100.0 == n as real;
  }

  lemma RatioMonotone(a: real, b: real, p: real)
    requires 0.0 <= a <= b && p > 0.0
    ensures 0.0 <= a / p <= b / p
  {
    DivLemma(a, b - a, p);
  }

  lemma RoundMonotone(x: real, y: real)
    requires 0.0 <= x <= y
    ensures Round(x) <= Round(y)
  {}

  /** More consumed, no smaller report. */
  lemma {:induction false} ReportedMonotone(c1: UInt64, c2: UInt64, produced: UInt64)
    requires produced > 0 && c1 <= c2 && c2 * 100 < TWO_64
    ensures Reported(c1, produced).value <= Reported(c2, produced).value
  {
    var a, b := (c1 * 100) as real, (c2 * 100) as real;
    RatioMonotone(a, b, produced as real);
    RoundMonotone(a / produced as real * 100.0, b / produced as real * 100.0);
  }

  /** consumed records off by d, as hundredths of a percent. */
  lemma OffByRatio(consumed: int, produced: int)
    requires 0 < produced
    ensures var x := (consumed * 100) as real / produced as real * 100.0;
      x * produced as real == 10000.0 * consumed as real
  {}

  lemma Scale(x: real, k: real, p: real)
    requires p > 0.0
    ensures x > k <==> x * p > k * p
    ensures x < k <==> x * p < k * p
  {
    if x > k {
      assert (x - k) * p > 0.0;
    } else if x < k {
      assert (k - x) * p > 0.0;
    }
  }

  ghost predicate HundredRange(consumed: int, produced: int) {
    -produced <= 20000 * (consumed - produced) < produced
  }

  lemma HundredRangeReal(consumed: int, produced: int)
    ensures HundredRange(consumed, produced) <==>
            9999.5 * produced as real <= 10000.0 * consumed as real < 10000.5 * produced as real
  {
    assert HundredRange(consumed, produced) <==> 19999 * produced <= 20000 * consumed < 20001 * produced;
    assert (19999 * produced) as real == 2.0 * (9999.5 * produced as real);
    assert (20001 * produced) as real == 2.0 * (10000.5 * produced as real);
    assert (20000 * consumed) as real == 2.0 * (10000.0 * consumed as real);
  }

  lemma Threshold(x: real, k: real, scaled: real, p: real)
    requires p > 0.0 && scaled == x * p
    ensures x < k <==> scaled < k * p
  {
    Scale(x, k, p);
  }

  lemma RoundIsHundred(x: real, consumed: int, produced: int)
    requires produced > 0 && x >= 0.0 && x * produced as real == 10000.0 * consumed as real
    ensures Round(x) == 10000 <==> HundredRange(consumed, produced)
  {
    Threshold(x, 9999.5, 10000.0 * consumed as real, produced as real);
    Threshold(x, 10000.5, 10000.0 * consumed as real, produced as real);
    HundredRangeReal(consumed, produced);
  }

  /** 100% is reported exactly when consumed is off from produced by at most one part in 20000. */
  lemma {:induction false} HundredExactly(consumed: UInt64, produced: UInt64)
    requires 0 < produced && consumed * 100 < TWO_64
    ensures Reported(consumed, produced).value == 100.0 <==> HundredRange(consumed, produced)
  {
    var x := (consumed * 100) as real / produced as real * 100.0;
    assert x >= 0.0;
    OffByRatio(consumed, produced);
    RoundIsHundred(x, consumed, produced);
    assert Reported(consumed, produced).value == Round(x) as real / 100.0;
  }

  /** Below 20000 produced records that means consumed == produced; from 20000 on, one lost record no
      longer shows. */
  lemma {:induction false} HundredBound(consumed: UInt64, produced: UInt64)
    requires 0 < produced && consumed * 100 < TWO_64
    ensures produced < 20000 ==> (Reported(consumed, produced).value == 100.0 <==> consumed == produced)
    ensures produced >= 20000 && consumed == produced - 1 ==> Reported(consumed, produced).value == 100.0
  {
    HundredExactly(consumed, produced);
  }

  // ---------- runs of samples ----------

  /** What the rings are given when the counters, counted without bound, are `counters`. */
  function Samples(counters: seq<int>): seq<UInt64> {
    seq(|counters|, i requires 0 <= i < |counters| => WrapU64(counters[i]))
  }

  /** The sum of the steps from each sample to the next. */
  function Increments(s: seq<int>): int {
    if |s| < 2 then 0 else Increments(s[..|s| - 1]) + s[|s| - 1] - s[|s| - 2]
  }

  lemma {:induction false} Telescopes(s: seq<int>)
    requires s != []
    ensures Increments(s) == s[|s| - 1] - s[0]
  {
    if |s| == 1 {
    } else {
      Telescopes(s[..|s| - 1]);
    }
  }

  ghost function Backlog(consumed: seq<int>, produced: seq<int>, i: nat): int
    requires i < |consumed| && i < |produced|
  {
    produced[i] - consumed[i]
  }

  lemma DeltaIsIncrements(counters: seq<int>, n: nat)
    requires counters != [] && n > 0
    ensures Delta(Samples(counters), n) == WrapU64(Increments(Last(counters, n)))
    ensures Increments(Last(counters, n)) == counters[|counters| - 1] - Last(counters, n)[0]
  {
    var head, tail := counters[|counters| - 1], Last(counters, n)[0];
    Telescopes(Last(counters, n));
    WrappedDifference(head, tail);
    assert Samples(counters)[|counters| - 1] == WrapU64(head);
    assert Last(Samples(counters), n)[0] == WrapU64(tail);
  }

  lemma ExactOver(consumed: int, produced: int)
    requires produced > 0
    ensures Exact(consumed, produced) > 100.0 <==> consumed > produced
  {
    Scale(Exact(consumed, produced), 100.0, produced as real);
    assert Exact(consumed, produced) * produced as real == 100.0 * consumed as real;
  }

  /** Whatever the counters did before the window, even wrap around: the report is missing exactly when
      nothing was produced in the window; it is the percentage of the increments in the window exactly when
      the consumed counter has not fallen over it; and that percentage exceeds 100 exactly when the backlog
      was larger at the start of the window than at its end. */
  lemma {:induction false} ReportMeaning(consumed: seq<int>, produced: seq<int>, n: nat)
    requires |consumed| == |produced| && n > 0 && 0 <= Increments(Last(produced, n)) < TWO_64
    ensures Report(Samples(consumed), Samples(produced), n).NoDataSamples? <==>
            produced == [] || Increments(Last(produced, n)) == 0
    ensures produced != [] && Increments(Last(produced, n)) != 0 ==>
      var c, p := Increments(Last(consumed, n)), Increments(Last(produced, n));
      var report := Report(Samples(consumed), Samples(produced), n);
      report.Percentage? && (Near(report.value, Exact(c, p)) <==> 0 <= c * 100 < TWO_64)
      && (Exact(c, p) > 100.0 <==>
          Backlog(Last(consumed, n), Last(produced, n), 0) > Backlog(consumed, produced, |produced| - 1))
  {
    if produced != [] {
      DeltaIsIncrements(consumed, n);
      DeltaIsIncrements(produced, n);
      var c, p := Increments(Last(consumed, n)), Increments(Last(produced, n));
      if p != 0 {
        ReportedNear(c, p);
        ExactOver(c, p);
      }
    }
  }

  lemma FewerBuckets(q: int, n: int, r: int, d: int)
    requires d > 0 && 0 <= r < d
    ensures n <= q <==> n * d <= d * q + r
  {
    if n <= q {
      MulMonotone(d, 0, q - n);
      assert d * (q - n) == d * q - n * d;
    } else {
      MulMonotone(d, 0, n - q - 1);
      assert d * (n - q - 1) == n * d - d * q - d;
    }
  }

  /** There are as many buckets as fit into the window, up to 384. */
  lemma {:induction false} BucketsLargest(size: Int64, sampling: Int64, m: nat)
    requires size > 0 && sampling > 0
    ensures m <= Buckets(size, sampling) <==> m <= 384 && m * sampling <= size
    ensures 0 <= Buckets(size, sampling) && Buckets(size, sampling) * sampling <= size
  {
    var s: int, d: int := size, sampling;
    Div64Positive(s, d);
    FewerBuckets(s / d, m, s % d, d);
    FewerBuckets(s / d, Buckets(size, sampling), s % d, d);
  }

  /** The window the status page claims to cover is never longer than the configured one. */
  lemma {:induction false} TimeWindowBound(statusTimeWindow: Int64, statusCheckInterval: Int64, history: seq<UInt64>)
    requires statusTimeWindow > 0 && statusCheckInterval > 0
    ensures Buckets(statusTimeWindow, statusCheckInterval) >= 0
    ensures var n := Buckets(statusTimeWindow, statusCheckInterval);
      0 <= Wrap64(statusCheckInterval as int * |Last(history, n)|) <= statusTimeWindow
  {
    BucketsLargest(statusTimeWindow, statusCheckInterval, 0);
    var n: int, d: int := Buckets(statusTimeWindow, statusCheckInterval), statusCheckInterval;
    MulMonotone(d, |Last(history, n)|, n);
  }
}
