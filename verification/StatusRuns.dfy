/** From the goroutines to the status page: what is reported after any interleaving of producer, consumers and
    sampler. */
module StatusRuns {
  import opened GoInts
  import opened TimeWindowRing
  import opened StatusService
  import Flow = RecordFlow

  function ProducedSamples(s: Flow.State): (r: seq<int>)
    ensures |r| == |s.samples|
  {
    seq(|s.samples|, i requires 0 <= i < |s.samples| => s.samples[i].produced)
  }

  function ConsumedSamples(s: Flow.State): (r: seq<int>)
    ensures |r| == |s.samples|
  {
    seq(|s.samples|, i requires 0 <= i < |s.samples| => s.samples[i].consumed)
  }

  /** What the page shows after the run, with rings of n buckets. */
  function Page(s: Flow.State, n: nat): Consumed
    requires n > 0
  {
    Report(Samples(ConsumedSamples(s)), Samples(ProducedSamples(s)), n)
  }

  function ConsumedInWindow(s: Flow.State, n: nat): int {
    Increments(Last(ConsumedSamples(s), n))
  }

  function ProducedInWindow(s: Flow.State, n: nat): int {
    Increments(Last(ProducedSamples(s), n))
  }

  /** Few enough records for the 64-bit arithmetic behind the percentage. */
  predicate Small(s: Flow.State) {
    s.produced < TWO_64 && s.delivered * 100 < TWO_64
  }

  /** The page shows the percentage of the records consumed to those produced in the window. */
  ghost predicate PageTrue(s: Flow.State, n: nat)
    requires n > 0
  {
    ProducedInWindow(s, n) > 0 ==>
      Page(s, n).Percentage? && Near(Page(s, n).value, Exact(ConsumedInWindow(s, n), ProducedInWindow(s, n)))
  }

  lemma InWindow(counters: seq<int>, n: nat)
    requires n > 0
    ensures Increments(Last(counters, n)) ==
            if counters == [] then 0 else counters[|counters| - 1] - counters[Oldest(|counters|, n)]
  {
    if counters != [] {
      Telescopes(Last(counters, n));
    }
  }

  lemma RunBounded(partitions: nat, es: seq<Flow.Event>)
    ensures Flow.SamplesBounded(Flow.Run(Flow.Start(partitions), es))
  {
    Flow.StartKeeps(partitions);
    Flow.RunKeepsBounds(Flow.Start(partitions), es);
  }

  lemma WindowBounds(s: Flow.State, n: nat)
    requires n > 0 && Flow.SamplesBounded(s)
    ensures 0 <= ProducedInWindow(s, n) <= s.produced && ConsumedInWindow(s, n) <= s.delivered
  {
    InWindow(ProducedSamples(s), n);
    InWindow(ConsumedSamples(s), n);
  }

  /** After every run, with any number of partitions: the page shows -1 exactly when nothing was produced in
      the window, and otherwise the true percentage exactly when the consumed counter did not fall over the
      window. */
  lemma {:induction false} RunReport(partitions: nat, es: seq<Flow.Event>, n: nat)
    requires n > 0 && Small(Flow.Run(Flow.Start(partitions), es))
    ensures var s := Flow.Run(Flow.Start(partitions), es);
      ProducedInWindow(s, n) >= 0 && (Page(s, n).NoDataSamples? <==> ProducedInWindow(s, n) == 0)
      && (ProducedInWindow(s, n) > 0 ==> (PageTrue(s, n) <==> ConsumedInWindow(s, n) >= 0))
  {
    var s := Flow.Run(Flow.Start(partitions), es);
    RunBounded(partitions, es);
    WindowBounds(s, n);
    InWindow(ProducedSamples(s), n);
    ReportMeaning(ConsumedSamples(s), ProducedSamples(s), n);
  }

  /** The page is true after every run if and only if there is at most one partition. */
  lemma {:induction false} TrueIffOneConsumer(partitions: nat)
    ensures (forall es, n: nat :: n > 0 && Small(Flow.Run(Flow.Start(partitions), es)) ==>
               PageTrue(Flow.Run(Flow.Start(partitions), es), n))
            <==> partitions <= 1
  {
    if partitions <= 1 {
      forall es, n: nat | n > 0 && Small(Flow.Run(Flow.Start(partitions), es))
        ensures PageTrue(Flow.Run(Flow.Start(partitions), es), n)
      {
        var s := Flow.Run(Flow.Start(partitions), es);
        Flow.RisesIffOneConsumer(partitions);
        assert Flow.ConsumedRises(s);
        InWindow(ConsumedSamples(s), n);
        RunReport(partitions, es, n);
      }
    } else {
      var es := AbsurdPage(partitions);
      RunReport(partitions, es, 2);
      assert !PageTrue(Flow.Run(Flow.Start(partitions), es), 2);
    }
  }

  /** With two partitions a run of four records, one of them in the window, and the page shows more than a
      million percent. */
  lemma {:induction false} AbsurdPage(partitions: nat) returns (es: seq<Flow.Event>)
    requires partitions >= 2
    ensures var s := Flow.Run(Flow.Start(partitions), es);
      Small(s) && ProducedInWindow(s, 2) == 1 && ConsumedInWindow(s, 2) == -1
      && Page(s, 2).Percentage? && Page(s, 2).value == (TWO_64 - 100) as real > 1000000.0
  {
    es := Flow.CounterFalls(partitions);
    var s := Flow.Run(Flow.Start(partitions), es);
    InWindow(ProducedSamples(s), 2);
    InWindow(ConsumedSamples(s), 2);
    assert Samples(ConsumedSamples(s)) == [2, 1] && Samples(ProducedSamples(s)) == [3, 4];
    AbsurdReport(Samples(ConsumedSamples(s)), Samples(ProducedSamples(s)));
  }

  /** One step back wraps around: 2^64 - 1 records, and times 100 it wraps again. */
  lemma AbsurdReport(consumed: seq<UInt64>, produced: seq<UInt64>)
    requires consumed == [2, 1] && produced == [3, 4]
    ensures Report(consumed, produced, 2) == Percentage((TWO_64 - 100) as real)
  {
    assert Delta(consumed, 2) == TWO_64 - 1 && Delta(produced, 2) == 1;
    AllOfOne(TWO_64 - 1, TWO_64 - 100);
  }

  lemma AllOfOne(consumed: UInt64, wrapped: int)
    requires wrapped == WrapU64(consumed as int * 100)
    ensures Rounded(consumed, 1) == wrapped as real
  {
    assert wrapped as real / 1.0 * 100.0 == (wrapped * 100) as real;
    assert Round((wrapped * 100) as real) == wrapped * 100;
  }
}
