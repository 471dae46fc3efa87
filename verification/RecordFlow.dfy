/** The two counters as the goroutines see them: the producer sends to one partition after the other and counts
    a record after sending it, every partition's consumer takes the records of its own partition and increments
    one shared counter in a read and a write, and the sampler reads the produced counter before the consumed
    one. All steps interleave freely. */
module RecordFlow {
  import opened ModArith
  import opened Options

  /** What one partition's consumer is doing: nothing, holding a record, or about to write value + 1. */
  datatype Consumer = Idle | Holding | HasRead(value: nat)

  datatype Sample = Sample(produced: nat, consumed: nat)

  /** turn: the partition of the record being sent, or of the next one; pending: the records in each
      partition's log that have not been delivered. */
  datatype State = State(
    sending: bool,
    turn: nat,
    pending: seq<nat>,
    appended: nat,
    produced: nat,
    delivered: nat,
    consumers: seq<Consumer>,
    consumed: nat,
    sampling: Option<nat>,
    samples: seq<Sample>)

  /** SendRecord(true) reaches the log, whatever the client is told about it. */
  datatype Event =
    | SendRecord(reachesLog: bool)
    | CountProduced
    | Deliver(partition: nat)
    | ReadCounter(partition: nat)
    | WriteCounter(partition: nat)
    | SampleProduced
    | SampleConsumed

  function Start(partitions: nat): State {
    State(false, 0, seq(partitions, _ => 0), 0, 0, 0, seq(partitions, _ => Idle), 0, None, [])
  }

  /** The partition after this one, from the last one to the first again. */
  function After(turn: nat, partitions: nat): nat {
    if turn + 1 < partitions then turn + 1 else 0
  }

  /** An event that cannot happen now changes nothing. Delivery is at most once, and from a partition to its
      own consumer. */
  function Next(s: State, e: Event): State {
    match e
    case SendRecord(reachesLog) =>
      if s.sending || s.turn >= |s.pending| then s
      else if reachesLog then
        s.(sending := true, appended := s.appended + 1, pending := s.pending[s.turn := s.pending[s.turn] + 1])
      else s.(sending := true)
    case CountProduced =>
      if s.sending then s.(sending := false, produced := s.produced + 1, turn := After(s.turn, |s.pending|)) else s
    case Deliver(p) =>
      if p < |s.consumers| && s.consumers[p].Idle? && p < |s.pending| && s.pending[p] > 0
      then s.(delivered := s.delivered + 1, pending := s.pending[p := s.pending[p] - 1],
              consumers := s.consumers[p := Holding])
      else s
    case ReadCounter(p) =>
      if p < |s.consumers| && s.consumers[p].Holding?
      then s.(consumers := s.consumers[p := HasRead(s.consumed)]) else s
    case WriteCounter(p) =>
      if p < |s.consumers| && s.consumers[p].HasRead?
      then s.(consumed := s.consumers[p].value + 1, consumers := s.consumers[p := Idle]) else s
    case SampleProduced =>
      if s.sampling.None? then s.(sampling := Some(s.produced)) else s
    case SampleConsumed =>
      if s.sampling.Some? then s.(sampling := None, samples := s.samples + [Sample(s.sampling.value, s.consumed)])
      else s
  }

  function Run(s: State, es: seq<Event>): State
    decreases |es|
  {
    if es == [] then s else Run(Next(s, es[0]), es[1..])
  }

  function Busy(cs: seq<Consumer>): nat {
    if cs == [] then 0 else (if cs[0].Idle? then 0 else 1) + Busy(cs[1..])
  }

  /** The increments completed so far. */
  function Completed(s: State): int {
    s.delivered - Busy(s.consumers)
  }

  lemma {:induction false} BusyUpdate(cs: seq<Consumer>, p: nat, c: Consumer)
    requires p < |cs|
    ensures Busy(cs[p := c]) == Busy(cs) - (if cs[p].Idle? then 0 else 1) + (if c.Idle? then 0 else 1)
  {
    if p == 0 {
      assert cs[p := c][1..] == cs[1..];
    } else {
      BusyUpdate(cs[1..], p - 1, c);
      assert cs[p := c][1..] == cs[1..][p - 1 := c];
    }
  }

  lemma {:induction false} BusyIdle(cs: seq<Consumer>)
    requires forall p :: 0 <= p < |cs| ==> cs[p].Idle?
    ensures Busy(cs) == 0
  {
    if cs == [] {
    } else {
      BusyIdle(cs[1..]);
    }
  }

  function Sum(ns: seq<nat>): nat {
    if ns == [] then 0 else ns[0] + Sum(ns[1..])
  }

  lemma {:induction false} SumUpdate(ns: seq<nat>, p: nat, n: nat)
    requires p < |ns|
    ensures Sum(ns[p := n]) == Sum(ns) - ns[p] + n
  {
    if p == 0 {
      assert ns[p := n][1..] == ns[1..];
    } else {
      SumUpdate(ns[1..], p - 1, n);
      assert ns[p := n][1..] == ns[1..][p - 1 := n];
    }
  }

  lemma {:induction false} SumZero(ns: seq<nat>)
    requires forall p :: 0 <= p < |ns| ==> ns[p] == 0
    ensures Sum(ns) == 0
  {
    if ns == [] {
    } else {
      SumZero(ns[1..]);
    }
  }

  /** Every record in the logs has been delivered or is pending in one partition. */
  ghost predicate CountersKept(s: State) {
    s.appended <= s.produced + (if s.sending then 1 else 0)
    && s.appended == s.delivered + Sum(s.pending)
    && s.consumed <= Completed(s)
    && forall p :: 0 <= p < |s.consumers| && s.consumers[p].HasRead? ==> s.consumers[p].value <= Completed(s)
  }

  /** Consumed samples trail the produced samples that come after them. */
  ghost predicate SamplesKept(s: State) {
    var n := |s.samples|;
    (forall i :: 0 <= i < n - 1 ==> s.samples[i].consumed <= s.samples[i + 1].produced + 1)
    && (forall i :: 0 <= i < n - 1 ==> s.samples[i].produced <= s.samples[i + 1].produced)
    && (n > 0 ==>
          var last, now := s.samples[n - 1], if s.sampling.Some? then s.sampling.value else s.produced;
          last.consumed <= now + 1 && last.produced <= now)
    && (s.sampling.Some? ==> s.sampling.value <= s.produced)
  }

  lemma SendKeeps(s: State, reachesLog: bool)
    requires CountersKept(s)
    ensures var t := Next(s, SendRecord(reachesLog));
      CountersKept(t) && Completed(t) == Completed(s) && t.produced == s.produced
  {
    if s.turn < |s.pending| {
      SumUpdate(s.pending, s.turn, s.pending[s.turn] + 1);
    }
  }

  lemma DeliverKeeps(s: State, p: nat)
    requires CountersKept(s)
    ensures var t := Next(s, Deliver(p));
      CountersKept(t) && Completed(t) == Completed(s) && t.produced == s.produced
  {
    if p < |s.consumers| && p < |s.pending| && s.pending[p] > 0 {
      BusyUpdate(s.consumers, p, Holding);
      SumUpdate(s.pending, p, s.pending[p] - 1);
    }
  }

  lemma CountKeeps(s: State, p: nat)
    requires CountersKept(s)
    ensures var t, u := Next(s, ReadCounter(p)), Next(s, WriteCounter(p));
      CountersKept(t) && Completed(t) == Completed(s) && CountersKept(u) && Completed(u) >= Completed(s)
  {
    if p < |s.consumers| {
      BusyUpdate(s.consumers, p, HasRead(s.consumed));
      BusyUpdate(s.consumers, p, Idle);
    }
  }

  lemma NextKeepsCounters(s: State, e: Event)
    requires CountersKept(s)
    ensures CountersKept(Next(s, e)) && Completed(Next(s, e)) >= Completed(s)
    ensures Next(s, e).produced >= s.produced
  {
    match e
    case SendRecord(reachesLog) => SendKeeps(s, reachesLog);
    case Deliver(p) => DeliverKeeps(s, p);
    case ReadCounter(p) => CountKeeps(s, p);
    case WriteCounter(p) => CountKeeps(s, p);
    case _ =>
  }

  lemma StartKeeps(partitions: nat)
    ensures var s := Start(partitions);
      CountersKept(s) && SamplesKept(s) && SamplesBounded(s) && s.consumed == Completed(s) == 0
  {
    BusyIdle(Start(partitions).consumers);
    SumZero(Start(partitions).pending);
  }

  lemma OneAhead(s: State)
    requires CountersKept(s)
    ensures s.consumed <= s.produced + 1
  {}

  lemma SampleKeeps(s: State, value: nat)
    requires SamplesKept(s) && s.sampling == Some(value) && s.consumed <= s.produced + 1
    ensures SamplesKept(s.(sampling := None, samples := s.samples + [Sample(value, s.consumed)]))
  {}

  lemma NextKeepsSamples(s: State, e: Event)
    requires CountersKept(s) && SamplesKept(s)
    ensures SamplesKept(Next(s, e))
  {
    OneAhead(s);
    if e.SampleConsumed? && s.sampling.Some? {
      SampleKeeps(s, s.sampling.value);
    }
  }

  lemma {:induction false} RunKeeps(s: State, es: seq<Event>)
    requires CountersKept(s) && SamplesKept(s)
    ensures CountersKept(Run(s, es)) && SamplesKept(Run(s, es))
    decreases |es|
  {
    if es == [] {
    } else {
      NextKeepsCounters(s, es[0]);
      NextKeepsSamples(s, es[0]);
      RunKeeps(Next(s, es[0]), es[1..]);
    }
  }

  /** Over every interleaving the consumed counter is at most one ahead of the produced counter, although
      increments can overwrite each other; and so is every consumed sample of the produced sample after it. */
  lemma {:induction false} ConsumedTrails(partitions: nat, es: seq<Event>)
    ensures var s := Run(Start(partitions), es);
      s.consumed <= s.produced + 1
      && (forall i :: 0 <= i < |s.samples| - 1 ==> s.samples[i].consumed <= s.samples[i + 1].produced + 1)
      && (forall i :: 0 <= i < |s.samples| - 1 ==> s.samples[i].produced <= s.samples[i + 1].produced)
  {
    StartKeeps(partitions);
    RunKeeps(Start(partitions), es);
  }

  /** The one record ahead is real: sent, consumed, and not counted yet. */
  lemma {:induction false} OneAheadHappens()
    ensures exists es :: Run(Start(1), es).consumed == Run(Start(1), es).produced + 1
  {
    var es := [SendRecord(true), Deliver(0), ReadCounter(0), WriteCounter(0)];
    RunFour(Start(1), es[0], es[1], es[2], es[3]);
    assert Run(Start(1), es).consumed == Run(Start(1), es).produced + 1;
  }

  lemma RunFour(s: State, a: Event, b: Event, c: Event, d: Event)
    ensures Run(s, [a, b, c, d]) == Next(Next(Next(Next(s, a), b), c), d)
  {
    assert [a, b, c, d] == [a] + ([b] + ([c] + ([d] + [])));
    RunFirst(s, a, [b] + ([c] + ([d] + [])));
    RunFirst(Next(s, a), b, [c] + ([d] + []));
    RunFirst(Next(Next(s, a), b), c, [d] + []);
    RunFirst(Next(Next(Next(s, a), b), c), d, []);
  }

  lemma RunFirst(s: State, e: Event, es: seq<Event>)
    ensures Run(s, [e] + es) == Run(Next(s, e), es)
  {
    assert ([e] + es)[1..] == es;
  }

  lemma {:induction false} RunConcat(s: State, es: seq<Event>, fs: seq<Event>)
    ensures Run(s, es + fs) == Run(Run(s, es), fs)
    decreases |es|
  {
    if es == [] {
      assert es + fs == fs;
    } else {
      RunConcat(Next(s, es[0]), es[1..], fs);
      assert (es + fs)[1..] == es[1..] + fs;
    }
  }

  // ---------- every send is counted, every record in its partition ----------

  /** How many steps of the run have the property, which is about the event and the state before it. */
  ghost function Steps(s: State, es: seq<Event>, kind: (State, Event) -> bool): nat
    decreases |es|
  {
    if es == [] then 0 else (if kind(s, es[0]) then 1 else 0) + Steps(Next(s, es[0]), es[1..], kind)
  }

  /** The producer starts to send a record. */
  predicate IsSend(s: State, e: Event) {
    e.SendRecord? && !s.sending && s.turn < |s.pending|
  }

  /** The record reaches the log of partition p: of those sent, number i goes to partition i mod n. */
  predicate Arrives(s: State, e: Event, p: nat) {
    IsSend(s, e) && e.reachesLog && s.produced % |s.pending| == p
  }

  /** The consumer of partition p takes a record. */
  predicate Takes(s: State, e: Event, p: nat) {
    e == Deliver(p) && p < |s.consumers| && s.consumers[p].Idle? && p < |s.pending| && s.pending[p] > 0
  }

  ghost predicate InTurn(s: State, partitions: nat)
    requires partitions > 0
  {
    |s.pending| == |s.consumers| == partitions && s.turn == s.produced % partitions
  }

  lemma NextInTurn(s: State, e: Event, partitions: nat)
    requires partitions > 0 && InTurn(s, partitions)
    ensures InTurn(Next(s, e), partitions)
  {
    ModStep(s.produced, if partitions == 1 then 0 else 1, partitions);
    if partitions == 1 {
      DivModUnique(s.produced + 1, 1, s.produced + 1, 0);
    }
  }

  lemma {:induction false} FlowRun(s: State, es: seq<Event>, partitions: nat, p: nat)
    requires p < partitions && InTurn(s, partitions)
    ensures var t := Run(s, es);
      InTurn(t, partitions)
      && t.produced + (if t.sending then 1 else 0)
         == s.produced + (if s.sending then 1 else 0) + Steps(s, es, IsSend)
      && t.pending[p] + Steps(s, es, (s, e) => Takes(s, e, p))
         == s.pending[p] + Steps(s, es, (s, e) => Arrives(s, e, p))
    decreases |es|
  {
    if es == [] {
    } else {
      NextInTurn(s, es[0], partitions);
      FlowRun(Next(s, es[0]), es[1..], partitions, p);
    }
  }

  /** Over every interleaving the produced counter counts every send, failed or not, once it is over; and a
      partition's log holds the records that arrived in it and were not taken by its own consumer, where the
      records go to one partition after the other. */
  lemma {:induction false} SendsCounted(partitions: nat, es: seq<Event>, p: nat)
    requires p < partitions
    ensures var s, t := Start(partitions), Run(Start(partitions), es);
      t.produced + (if t.sending then 1 else 0) == Steps(s, es, IsSend)
      && |t.pending| == partitions
      && t.pending[p] + Steps(s, es, (s, e) => Takes(s, e, p)) == Steps(s, es, (s, e) => Arrives(s, e, p))
  {
    DivModUnique(0, partitions, 0, 0);
    FlowRun(Start(partitions), es, partitions, p);
  }

  /** A consumed sample is read when its tick ends, the produced one when it began, whatever happens between. */
  lemma {:induction false} SampleSpan(s: State, es: seq<Event>)
    requires s.sampling.None? && SampleConsumed !in es
    ensures var t := Run(Next(s, SampleProduced), es);
      Next(t, SampleConsumed).samples == s.samples + [Sample(s.produced, t.consumed)]
  {
    SamplingStays(Next(s, SampleProduced), es);
  }

  lemma {:induction false} SamplingStays(s: State, es: seq<Event>)
    requires s.sampling.Some? && SampleConsumed !in es
    ensures Run(s, es).sampling == s.sampling && Run(s, es).samples == s.samples
    decreases |es|
  {
    if es == [] {
    } else {
      SamplingStays(Next(s, es[0]), es[1..]);
    }
  }

  // ---------- lost updates ----------

  ghost predicate Exact(s: State) {
    s.consumed == Completed(s) && |s.consumers| <= 1
    && forall p :: 0 <= p < |s.consumers| && s.consumers[p].HasRead? ==> s.consumers[p].value == s.consumed
  }

  lemma NextExact(s: State, e: Event)
    requires Exact(s)
    ensures Exact(Next(s, e)) && Next(s, e).consumed >= s.consumed
  {
    match e
    case Deliver(p) => if p < |s.consumers| { BusyUpdate(s.consumers, p, Holding); }
    case ReadCounter(p) => if p < |s.consumers| { BusyUpdate(s.consumers, p, HasRead(s.consumed)); }
    case WriteCounter(p) => if p < |s.consumers| { BusyUpdate(s.consumers, p, Idle); }
    case _ =>
  }

  lemma {:induction false} RunExact(s: State, es: seq<Event>)
    requires Exact(s)
    ensures Exact(Run(s, es))
    decreases |es|
  {
    if es == [] {
    } else {
      NextExact(s, es[0]);
      RunExact(Next(s, es[0]), es[1..]);
    }
  }

  const SEND_TWO: seq<Event> := [SendRecord(true), CountProduced, SendRecord(true), CountProduced]
  const READ_BOTH: seq<Event> := [Deliver(0), ReadCounter(0), Deliver(1), ReadCounter(1)]
  const WRITE_BOTH: seq<Event> := [WriteCounter(0), WriteCounter(1), SampleProduced, SampleConsumed]

  /** Two consumers that read before either writes: two records consumed, one counted. */
  lemma {:induction false} LostUpdate(partitions: nat)
    requires partitions >= 2
    ensures var s := Run(Start(partitions), SEND_TWO + READ_BOTH + WRITE_BOTH);
      s.consumed == 1 && s.delivered == 2 && Busy(s.consumers) == 0
  {
    var s, idle, none := Start(partitions), Start(partitions).consumers, Start(partitions).pending;
    var sent := s.(appended := 2, produced := 2, turn := After(1, partitions), pending := none[0 := 1][1 := 1]);
    var read := sent.(delivered := 2, pending := none, consumers := idle[0 := HasRead(0)][1 := HasRead(0)]);
    assert Run(s, SEND_TWO) == sent by {
      RunFour(s, SendRecord(true), CountProduced, SendRecord(true), CountProduced);
    }
    assert Run(sent, READ_BOTH) == read by {
      RunFour(sent, Deliver(0), ReadCounter(0), Deliver(1), ReadCounter(1));
      assert idle[0 := Holding][0 := HasRead(0)][1 := Holding][1 := HasRead(0)] == read.consumers;
      assert none[0 := 1][1 := 1][0 := 0][1 := 0] == none;
    }
    WriteBoth(partitions, read);
    RunConcat(s, SEND_TWO, READ_BOTH);
    RunConcat(s, SEND_TWO + READ_BOTH, WRITE_BOTH);
  }

  lemma WriteBoth(partitions: nat, s: State)
    requires partitions >= 2 && s.sampling.None?
    requires s.consumers == Start(partitions).consumers[0 := HasRead(0)][1 := HasRead(0)]
    ensures var t := Run(s, WRITE_BOTH); t.consumed == 1 && t.delivered == s.delivered && Busy(t.consumers) == 0
  {
    RunFour(s, WriteCounter(0), WriteCounter(1), SampleProduced, SampleConsumed);
    assert s.consumers[0 := Idle][1 := Idle] == Start(partitions).consumers;
    BusyIdle(Start(partitions).consumers);
  }

  /** The consumed counter counts every completed increment, on every run, if and only if there is at most
      one partition. */
  lemma {:induction false} ExactIffOneConsumer(partitions: nat)
    ensures (forall es :: Run(Start(partitions), es).consumed == Completed(Run(Start(partitions), es)))
        <==> partitions <= 1
  {
    BusyIdle(Start(partitions).consumers);
    if partitions <= 1 {
      forall es
        ensures Run(Start(partitions), es).consumed == Completed(Run(Start(partitions), es))
      {
        RunExact(Start(partitions), es);
      }
    } else {
      LostUpdate(partitions);
    }
  }

  // ---------- the samples ----------

  /** No sample counts more than were delivered, and the produced samples rise. */
  ghost predicate SamplesBounded(s: State) {
    var now := if s.sampling.Some? then s.sampling.value else s.produced;
    now <= s.produced
    && (forall i :: 0 <= i < |s.samples| ==> s.samples[i].consumed <= s.delivered && s.samples[i].produced <= now)
    && (forall i, j :: 0 <= i < j < |s.samples| ==> s.samples[i].produced <= s.samples[j].produced)
  }

  lemma NextKeepsBounds(s: State, e: Event)
    requires CountersKept(s) && SamplesBounded(s)
    ensures SamplesBounded(Next(s, e))
  {}

  /** On every run the produced samples rise, and no consumed sample exceeds the records delivered. */
  lemma {:induction false} RunKeepsBounds(s: State, es: seq<Event>)
    requires CountersKept(s) && SamplesBounded(s)
    ensures SamplesBounded(Run(s, es))
    decreases |es|
  {
    if es == [] {
    } else {
      NextKeepsCounters(s, es[0]);
      NextKeepsBounds(s, es[0]);
      RunKeepsBounds(Next(s, es[0]), es[1..]);
    }
  }

  ghost predicate ConsumedRises(s: State) {
    forall i, j :: 0 <= i < j < |s.samples| ==> s.samples[i].consumed <= s.samples[j].consumed
  }

  ghost predicate SamplesReached(s: State) {
    forall i :: 0 <= i < |s.samples| ==> s.samples[i].consumed <= s.consumed
  }

  lemma {:induction false} RunRises(s: State, es: seq<Event>)
    requires Exact(s) && ConsumedRises(s) && SamplesReached(s)
    ensures ConsumedRises(Run(s, es))
    decreases |es|
  {
    if es == [] {
    } else {
      NextExact(s, es[0]);
      RunRises(Next(s, es[0]), es[1..]);
    }
  }

  // ---------- a run on which the sampled counter falls ----------

  /** Some schedule leads from s to t. */
  ghost predicate Reaches(s: State, t: State) {
    exists es :: Run(s, es) == t
  }

  lemma Stays(s: State)
    ensures Reaches(s, s)
  {
    assert Run(s, []) == s;
  }

  lemma Goes(s: State, e: Event)
    ensures Reaches(s, Next(s, e))
  {
    RunFirst(s, e, []);
  }

  lemma Then(s: State, t: State, u: State)
    requires Reaches(s, t) && Reaches(t, u)
    ensures Reaches(s, u)
  {
    var es, fs :| Run(s, es) == t && Run(t, fs) == u;
    RunConcat(s, es, fs);
  }

  /** A record is sent to the partition whose turn it is, and counted. */
  function Sent(s: State): State
    requires s.turn < |s.pending|
  {
    s.(appended := s.appended + 1, produced := s.produced + 1, turn := After(s.turn, |s.pending|),
       pending := s.pending[s.turn := s.pending[s.turn] + 1])
  }

  /** Consumer p takes a record and reads the counter. */
  function Read(s: State, p: nat): State
    requires p < |s.pending| == |s.consumers| && s.pending[p] > 0
  {
    s.(delivered := s.delivered + 1, pending := s.pending[p := s.pending[p] - 1],
       consumers := s.consumers[p := HasRead(s.consumed)])
  }

  /** Consumer p takes a record and counts it without being interrupted. */
  function Counted(s: State, p: nat): State
    requires p < |s.pending| && s.pending[p] > 0
  {
    s.(delivered := s.delivered + 1, pending := s.pending[p := s.pending[p] - 1], consumed := s.consumed + 1)
  }

  /** Consumer p writes what it has read plus one. */
  function Written(s: State, p: nat): State
    requires p < |s.consumers| && s.consumers[p].HasRead?
  {
    s.(consumed := s.consumers[p].value + 1, consumers := s.consumers[p := Idle])
  }

  function Sampled(s: State): State {
    s.(samples := s.samples + [Sample(s.produced, s.consumed)])
  }

  lemma ReachSent(s: State, t: State)
    requires Reaches(s, t) && t.turn < |t.pending| && !t.sending
    ensures Reaches(s, Sent(t))
  {
    Goes(t, SendRecord(true));
    Goes(Next(t, SendRecord(true)), CountProduced);
    Then(t, Next(t, SendRecord(true)), Sent(t));
    Then(s, t, Sent(t));
  }

  lemma ReachRead(s: State, t: State, p: nat)
    requires Reaches(s, t) && p < |t.pending| == |t.consumers| && t.pending[p] > 0 && t.consumers[p].Idle?
    ensures Reaches(s, Read(t, p))
  {
    var held := Next(t, Deliver(p));
    assert t.consumers[p := Holding][p := HasRead(t.consumed)] == t.consumers[p := HasRead(t.consumed)];
    Goes(t, Deliver(p));
    Goes(held, ReadCounter(p));
    Then(t, held, Read(t, p));
    Then(s, t, Read(t, p));
  }

  lemma ReachWritten(s: State, t: State, p: nat)
    requires Reaches(s, t) && p < |t.consumers| && t.consumers[p].HasRead?
    ensures Reaches(s, Written(t, p))
  {
    Goes(t, WriteCounter(p));
    Then(s, t, Written(t, p));
  }

  lemma ReachCounted(s: State, t: State, p: nat)
    requires Reaches(s, t) && p < |t.pending| == |t.consumers| && t.pending[p] > 0 && t.consumers[p].Idle?
    ensures Reaches(s, Counted(t, p))
  {
    ReachRead(s, t, p);
    ReachWritten(s, Read(t, p), p);
    assert t.consumers[p := HasRead(t.consumed)][p := Idle] == t.consumers;
  }

  lemma ReachSampled(s: State, t: State)
    requires Reaches(s, t) && t.sampling.None?
    ensures Reaches(s, Sampled(t))
  {
    Goes(t, SampleProduced);
    Goes(Next(t, SampleProduced), SampleConsumed);
    Then(t, Next(t, SampleProduced), Sampled(t));
    Then(s, t, Sampled(t));
  }

  /** Partition 0's consumer reads the counter, another one counts two records, the first writes what it read
      plus one: the sampled counter falls from 2 to 1 while one more record is produced. With two partitions
      the second record counted is the last of the second round, sent before the first sample. */
  lemma FallsWithTwo(s: State) returns (t: State)
    requires s == Start(2)
    ensures Reaches(s, t) && t.samples == [Sample(3, 2), Sample(4, 1)] && t.delivered == 3 && t.produced == 4
  {
    Stays(s);
    ReachSent(s, s);
    var a := Sent(s);
    ReachSent(s, a);
    var b := Sent(a);
    ReachSent(s, b);
    var c := Sent(b);
    assert c.pending == [2, 1] && c.turn == 1 && c.produced == 3;
    ReachRead(s, c, 0);
    var d := Read(c, 0);
    ReachCounted(s, d, 1);
    var e := Counted(d, 1);
    assert e.pending == [1, 0] && e.turn == 1;
    Goes(e, SendRecord(true));
    var f := Next(e, SendRecord(true));
    Then(s, e, f);
    ReachCounted(s, f, 1);
    var g := Counted(f, 1);
    ReachSampled(s, g);
    var h := Sampled(g);
    Goes(h, CountProduced);
    var i := Next(h, CountProduced);
    Then(s, h, i);
    ReachWritten(s, i, 0);
    var j := Written(i, 0);
    ReachSampled(s, j);
    t := Sampled(j);
  }

  /** With three partitions or more the two records counted are those of partitions 1 and 2. */
  lemma FallsWithMore(s: State, partitions: nat) returns (t: State)
    requires partitions >= 3 && s == Start(partitions)
    ensures Reaches(s, t) && t.samples == [Sample(3, 2), Sample(4, 1)] && t.delivered == 3 && t.produced == 4
  {
    Stays(s);
    ReachSent(s, s);
    var a := Sent(s);
    ReachSent(s, a);
    var b := Sent(a);
    ReachSent(s, b);
    var c := Sent(b);
    assert c.pending[0] == c.pending[1] == c.pending[2] == 1 && c.produced == 3;
    ReachRead(s, c, 0);
    var d := Read(c, 0);
    ReachCounted(s, d, 1);
    var e := Counted(d, 1);
    ReachCounted(s, e, 2);
    var f := Counted(e, 2);
    ReachSampled(s, f);
    var g := Sampled(f);
    ReachSent(s, g);
    var h := Sent(g);
    ReachWritten(s, h, 0);
    var i := Written(h, 0);
    ReachSampled(s, i);
    t := Sampled(i);
  }

  /** With two partitions or more the sampled counter can fall from 2 to 1. */
  lemma {:induction false} CounterFalls(partitions: nat) returns (es: seq<Event>)
    requires partitions >= 2
    ensures var s := Run(Start(partitions), es);
      s.samples == [Sample(3, 2), Sample(4, 1)] && s.delivered == 3 && s.produced == 4
  {
    var s, t := Start(partitions), Start(partitions);
    if partitions == 2 {
      t := FallsWithTwo(s);
    } else {
      t := FallsWithMore(s, partitions);
    }
    es :| Run(s, es) == t;
  }

  /** The sampled consumed counter never falls, on any run, if and only if there is at most one partition. */
  lemma {:induction false} RisesIffOneConsumer(partitions: nat)
    ensures (forall es :: ConsumedRises(Run(Start(partitions), es))) <==> partitions <= 1
  {
    if partitions <= 1 {
      forall es
        ensures ConsumedRises(Run(Start(partitions), es))
      {
        BusyIdle(Start(partitions).consumers);
        RunRises(Start(partitions), es);
      }
    } else {
      var es := CounterFalls(partitions);
      var samples := Run(Start(partitions), es).samples;
      assert samples[0].consumed > samples[1].consumed;
    }
  }
}
