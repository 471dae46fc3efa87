# Strimzi canary: a verified model

The Strimzi canary keeps one Kafka topic spread over all brokers, sends a record to each of its partitions
in turn, consumes them again, and reports the percentage of records that came back. This project models the
parts of it that decide something, and proves what they promise.

- **Placement** (`RackOrder`, `RackSpread`, `RackDistance`, `Placement`, `PlacementFacts`, `FaultTolerance`). Brokers are
  sorted by ID, grouped by rack, overwritten in place by a round-robin walk over the racks, and replicas are
  laid out cyclically. The three loops work on an `array<Broker>` and refine a function; the lemmas
  characterise that function from the set of brokers alone: its exact order, the distances between brokers
  of one rack, the load of every broker, and exactly when every partition survives the loss of a broker or
  of a rack.
- **Topic service** (`TopicModel`, `TopicService`, `TopicFacts`, `TopicRuns`, `TopicCalls`, `Guarantees`). The class
  `TopicService` talks to an abstract `Cluster` that may refuse any call (`Env` holds its answers to one
  reconcile); a refused call changes nothing. `Cluster.Admin` has a precondition, `Legal`, so the service is
  proved to ask only for what Kafka can grant: the right number of partitions, each with different replicas on
  brokers the cluster reported, as long as it reported any. Every admin call is recorded. `Reconcile` is a step from
  state to state; `TopicCalls` lists its calls and its error for every state and every answer of the cluster, and
  the run lemmas hold for every sequence of answers, from any state.
- **Status** (`GoInts`, `TimeWindowRing`, `StatusService`). The ring buffer refines a plain history; two
  rings, filled one after the other, give the consumed percentage, with the wrap of 64-bit counters made
  explicit.
- **Backoff** (`Backoff`, `RetryLoops`). Wrapping 64-bit durations, and the loops that retry behind them.
- **Records** (`Producer`, `RecordFlow`, `StatusRuns`). The messages sent, the interleavings of producer,
  consumers and sampler on the two shared counters, and what the status page shows after them.
- **Settings** (`KeyValuePairs`, `ConfigWatcher`). The `key=value;...` parser with its exact language, and
  the watcher of the dynamic configuration file over every run. A file that cannot be read or decoded
  applies nothing: `UnusableIgnored`.
- **Manager** (`CanaryManager`). Start-up with retries and the periodic tick, tying what the topic service
  returns to what the producer sends.
- `Options`, `Sequences` and `ModArith` hold the option type and the facts about sequences, set sizes and
  remainders that these share.

`dafny verify dfyconfig.toml` checks the project.

## Where the code and its documentation differ

The model follows the code.

- The comment at internal/services/topic.go:368-375 lists racks of one round by name. The code takes them in
  order of first appearance after the ID sort, that is by their smallest broker ID: `FirstRound`. The
  comment's example comes out as 0, 1, 3, 5, 2, 4: `CommentExample`.
- The comment at internal/services/topic.go:119-120 calls partitions above the number of brokers orphans that
  get no messages. `CanaryManager.Reconcile` proves that every partition of the topic gets one.
- The canary's own README.md, line 70, says that with an expected cluster size the canary waits for that size before assigning
  partitions. For a topic that exists it does not: `LateCluster` gives the exact condition.
- The canary's own README.md, line 94, promises that creation and deletion of the configuration file are applied. A file that is
  deleted and created again with the same content is not: `RecreatedIgnored`, and `InForce` for exactly when.
- The canary's own README.md, line 133, says that -1 is reported until the time window has ended. The code reports a percentage as
  soon as something was produced between two samples: `ReportMeaning`.
- Rack alternation alone does not put replicas in different racks: with four brokers in racks a, b, c, a one
  partition has two replicas in rack a (`UnequalRacksFail`). `DiverseIffSpread` says exactly which racks it
  works for, from their sizes ranked by smallest broker ID. With s the size of a rack of two brokers or more,
  RF the replication factor, "later" meaning that rack and those after it, and "earlier" those before it, two
  sums must reach RF for every such rack: later racks of at least s - 1 brokers plus earlier ones of at least
  s; and later racks of at least s, plus all earlier ones, plus what all racks hold beyond s brokers each.
  `RackLoss` makes this the condition for surviving the loss of any rack, too.
- The shared consumed counter is incremented without synchronisation. With two partitions or more it can miss
  records and even fall (`ExactIffOneConsumer`, `RisesIffOneConsumer`), and then the status page shows an absurd
  percentage (`AbsurdPage`). `RunReport` says exactly when the page is right, `TrueIffOneConsumer` when it always is.
- The guard at internal/services/status_check.go:122 looks at the produced ring only. It is enough except between
  the two samples of the very first tick: `ConsumedPercentage`.

## Model

| member | source | states |
|---|---|---|
| RackOrder.SortByIdOrdered | internal/services/topic.go:361-363 | sorting distinct brokers gives the same brokers strictly ordered by ID |
| RackOrder.AlternatedPermutes | internal/services/topic.go:398-415 | the rack walk loses and repeats no broker, for any rack sizes |
| RackSpread.AlternatedOrder | internal/services/topic.go:395-416 | the walk's result is ordered by (position in own rack, smallest ID of the rack), and is the only such sequence |
| RackSpread.RackGap | internal/services/topic.go:398-415 | two brokers of one rack are at least as far apart as there are racks reaching the later one's round |
| RackSpread.RackGapCyclic | internal/services/topic.go:398-428 | around the end of the list too, brokers of one rack are nowhere closer than the number of largest racks |
| RackDistance.SlotPlace | internal/services/topic.go:398-415 | the broker of rack r in round t lands at the position given by what the rounds before it take from the racks |
| RackDistance.ApartIffSpread | internal/services/topic.go:398-428 | brokers of one rack are nowhere closer than a given distance, around the end included, if and only if two sums over the rack sizes reach it for every rack |
| RackDistance.SpreadAllIffEqual | internal/services/topic.go:398-428 | as far apart as there are racks exactly when all racks have one size |
| Placement.SortBrokers | internal/services/topic.go:361-363 | the library sort, in place |
| Placement.GroupByRack | internal/services/topic.go:377-389 | the map, the names in first-appearance order, and the count of brokers with a rack describe the slice |
| Placement.WalkRound | internal/services/topic.go:401-410 | one round writes the heads of the non-empty lists inside the slice and tells whether there was one |
| Placement.Interleave | internal/services/topic.go:395-416 | the loop ends, stays inside the slice, and leaves the walk's result |
| Placement.LayOut | internal/services/topic.go:418-428 | partition p gets consecutive brokers from position p on, around the end, and no other partition gets any |
| Placement.RequestedAssignments | internal/services/topic.go:353-431 | the reordered slice; partitions 0 .. max(current, n) - 1, replica r of partition p being the broker at position (p + r) mod n of that slice; minISR; for any distinct brokers and also for none |
| PlacementFacts.OrderSpec | internal/services/topic.go:359-416 | the reordered slice is a permutation, in the alternating order if every broker has a rack, else by ID |
| PlacementFacts.FirstRound | internal/services/topic.go:380-388 | first brokers of racks come by ID, not by rack name |
| PlacementFacts.CommentExample | internal/services/topic.go:368-375 | the brokers of the comment come out as 0, 1, 3, 5, 2, 4 |
| PlacementFacts.OrderGap | internal/services/topic.go:398-415 | the distance guarantee for the slice as the function leaves it |
| PlacementFacts.PlacementFromSet | internal/services/topic.go:359-363 | any two orderings of the same brokers get the same assignment and minISR |
| PlacementFacts.PlacementAgain | internal/services/topic.go:353-431 | calling again on the reordered slice changes neither slice nor assignment |
| PlacementFacts.ReplicasDistinct | internal/services/topic.go:356-428 | every partition has min(n, 3) replicas on different reported brokers |
| PlacementFacts.ReplicaOrder | internal/services/topic.go:419-427 | which broker is replica r of partition p, leader included: the one with exactly (p + r) mod n brokers before it, counted by ID, or by round and the racks' first IDs if all have a rack |
| PlacementFacts.PositionBalance | internal/services/topic.go:419-427 | each replica position spreads the partitions evenly |
| PlacementFacts.LeaderBalance | internal/services/topic.go:113-114 | every broker leads floor(P/n) or ceil(P/n) partitions |
| PlacementFacts.ReplicaBalance | internal/services/topic.go:418-428 | every broker carries between RF*floor(P/n) and RF*ceil(P/n) replicas, exactly RF when P = n |
| FaultTolerance.BrokerLoss | internal/services/topic.go:356-357 | every partition keeps minISR replicas without any one broker if and only if there are two brokers or more |
| FaultTolerance.RackSizesRanked | internal/services/topic.go:377-389 | the sizes the condition is about: every rack once, ranked by smallest broker ID |
| FaultTolerance.DiverseIffSpread | internal/services/topic.go:365-428 | no partition has two replicas in one rack, wrap-around included, if and only if the two sums reach RF for every rack |
| FaultTolerance.DiverseIfTied | internal/services/topic.go:365-428 | in particular with RF racks of the largest size |
| FaultTolerance.DiverseIfEqual | internal/services/topic.go:365-428 | and with racks of equal size, at least RF of them |
| FaultTolerance.DiverseIffEqual | internal/services/topic.go:365-428 | with exactly RF racks: rack diverse if and only if the racks are of equal size |
| FaultTolerance.UnequalRacksFail | internal/services/topic.go:365-428 | racks a, b, c, a put two replicas of a partition in rack a |
| FaultTolerance.DiverseNeedsRacks | internal/services/topic.go:365-428 | rack diversity needs at least RF racks |
| FaultTolerance.RackLoss | internal/services/topic.go:356-428 | from two brokers on, every partition keeps minISR replicas without any one rack if and only if the placement is rack diverse |
| TopicModel.RequestedLists | internal/services/topic.go:316-322 | the assignment map covers exactly partitions 0 .. max(current, brokers) - 1 |
| TopicService.Cluster.Admin | internal/services/topic.go:310-310 | a granted call takes effect, a refused one changes nothing; only legal requests are made |
| TopicService.TopicService.AlterAssignments | internal/services/topic.go:454-481 | one request; if accepted, polls for exactly its partitions until the reassignment has ended or a poll fails, which is no error; if refused, no poll and its error |
| TopicService.TopicService.CopyLists | internal/services/topic.go:318-322 | the map's lists in partition order |
| TopicService.TopicService.AlterTopicAssignments | internal/services/topic.go:314-339 | the step for an existing topic |
| TopicService.TopicService.ApplyAssignments | internal/services/topic.go:324-337 | reassign, then add the missing partitions |
| TopicService.TopicService.AlterTopicConfiguration | internal/services/topic.go:279-289 | alters the configuration only if there is one |
| TopicService.TopicService.CreateTopic | internal/services/topic.go:291-312 | creates the topic with the requested assignment and the overriding entries |
| TopicService.TopicService.CurrentAssignments | internal/services/topic.go:433-440 | the assignment the cluster has |
| TopicService.TopicService.CurrentLeaders | internal/services/topic.go:442-448 | the leaders the cluster reports |
| TopicService.TopicService.ReconcileTopic | internal/services/topic.go:134-250 | state, result and error of one reconcile |
| TopicService.TopicService.WhenMissing | internal/services/topic.go:174-201 | the branch for an unknown topic |
| TopicService.TopicService.WhenExisting | internal/services/topic.go:202-237 | the branch for a topic that exists |
| TopicService.TopicService.Reconcile | internal/services/topic.go:123-132 | one reconcile; afterwards there is a client if and only if there was one to use and the connection did not break; a broken one is closed last |
| TopicService.TopicService.Close | internal/services/topic.go:267-277 | closes the admin client if there is one |
| TopicFacts.ApplyProtocol | internal/services/topic.go:324-337 | reassignment of exactly partitions 0 .. k-1 first; creation last, if and only if that was accepted and k < n; both requests make up the whole assignment |
| TopicFacts.ScaleProtocol | internal/services/topic.go:314-339 | the same for the requested assignment; afterwards every partition has min(n, 3) replicas, or on failure the count is the old one |
| TopicCalls.Polls | internal/services/topic.go:454-481 | an accepted reassignment is followed by exactly as many polls as it takes, each for the partitions reassigned, all but the last accepted, the last unless it fails; a refused one by none |
| TopicCalls.ScaleCalls | internal/services/topic.go:324-337 | reassignment, then its polls, then the missing partitions, with the error of the refused one of the two requests |
| TopicCalls.EarlyEnd | internal/services/topic.go:137-159 | all calls and the error of a reconcile in which connecting, describing the cluster or describing the topic fails, or whose metadata has an error code |
| TopicCalls.CreationCalls | internal/services/topic.go:174-201 | all calls and the error for a missing topic: none and the size error when a fixed size is not met, otherwise the creation and, once accepted, one more description |
| TopicCalls.AlterationCalls | internal/services/topic.go:202-237 | all calls and the error for a topic that exists: the configuration first, only before the first success; then reassignment, polls and new partitions, when dynamic or at start-up with the size met |
| TopicCalls.CloseIff | internal/services/topic.go:123-132 | the client is closed, once and last, exactly when the reconcile ends with a broken connection and there is a client; otherwise it stays |
| TopicCalls.ReopensIff | internal/services/topic.go:125-145 | the next reconcile opens a client exactly after a broken connection or a failed attempt to connect |
| TopicFacts.StepSized | internal/services/topic.go:123-250 | one reconcile leaves max(partitions, brokers) partitions if a creation took effect, else the same number |
| TopicFacts.SuccessMatches | internal/services/topic.go:134-250 | after a successful reconcile the cluster's replicas are the returned assignment, and the returned leaders are reported ones, for all partitions there were before |
| TopicFacts.SuccessResult | internal/services/topic.go:174-250 | what a success answers, in every mode: the assignment, the partitions whose leaders it reports, also for a new topic and after adding partitions, and when the producer is to refresh |
| TopicFacts.FailedResult | internal/services/topic.go:134-245 | what a failure answers: no leaders, and an assignment exactly when one was asked for |
| TopicRuns.PartitionCountRun | internal/services/topic.go:123-250 | over every run the partition count is the maximum of its start and of the broker counts at which a creation took effect |
| TopicRuns.ConnectionRun | internal/services/topic.go:123-145 | over every run at most one admin client is open, and the service knows whether |
| TopicRuns.CreatedAtSize | internal/services/topic.go:174-201 | the topic is created only while missing, and with a fixed size only for that many brokers |
| TopicRuns.SizeErrorIff | internal/services/topic.go:196-201 | the size error is returned exactly for a missing topic and a fixed size that is not met, once the calls before have succeeded; the topic is still missing then |
| TopicRuns.InitializedIff | internal/services/topic.go:248-248 | start-up is over with the first success and not before |
| TopicRuns.SucceedsIff | internal/services/topic.go:123-250 | a reconcile succeeds if and only if its calls up to the metadata do and the cluster grants what the branch for the topic asks; a failing poll is no obstacle |
| TopicRuns.FixedAfterSuccess | internal/services/topic.go:208-237 | with a fixed size no run asks for any change after the first success |
| TopicRuns.LateCluster | internal/services/topic.go:219-237 | with a fixed size an existing topic is reassigned in the first success if and only if the size is met then, and otherwise never |
| TopicRuns.SettledAfterSuccess | internal/services/topic.go:221-232 | a dynamic success leaves the topic laid out for the brokers it saw; refresh exactly when there was not one partition per broker before |
| TopicRuns.SteadyStep | internal/services/topic.go:221-232 | with the same brokers a reconcile, failing or not, changes nothing; refresh exactly when partitions outnumber brokers |
| TopicRuns.SteadyAfterSuccess | internal/services/topic.go:221-232 | after any run with the same brokers a success answers what the first one did |
| TopicRuns.ConfigurationStep | internal/services/topic.go:207-217 | an existing topic's configuration is altered once per reconcile, up to the first success |
| TopicRuns.ConfigurationRun | internal/services/topic.go:207-217 | and in no run after it |
| TopicRuns.CreationOverrides | internal/services/topic.go:294-302 | cleanup.policy and min.insync.replicas of a new topic override the user's; all other entries are the user's, and there are no more |
| Guarantees.AfterSuccess | internal/services/topic.go:123-250 | after a dynamic success the cluster's topic has distinct replicas on reported brokers, consecutive in their order, survives any broker, and survives any rack exactly when the rack sizes allow it |
| Guarantees.Repaired | internal/services/topic.go:123-250 | after any run, with dynamic reassignment, one reconcile without refusals succeeds and lays the topic out for its brokers |
| GoInts.WrappedDifference | internal/services/status_check.go:127-128 | unsigned subtraction of wrapped counters is the wrapped difference |
| GoInts.Div64Truncates | internal/util/time_window_ring.go:65-65 | Go's division truncates toward zero, for all signs, with the one quotient that does not fit |
| TimeWindowRing.LiveIsLast | internal/util/time_window_ring.go:81-93 | the live buckets in ring order are the last min(k, N) values |
| TimeWindowRing.NextPlace | internal/util/time_window_ring.go:82-86 | the head meets the tail exactly when the buffer is full, and both advance together then |
| TimeWindowRing.TimeWindowRing.constructor | internal/util/time_window_ring.go:64-78 | bucket count capped at 384, for every size and rate Go accepts |
| TimeWindowRing.TimeWindowRing.Put | internal/util/time_window_ring.go:81-93 | appends one value to the history |
| TimeWindowRing.TimeWindowRing.Head | internal/util/time_window_ring.go:96-98 | the last value put |
| TimeWindowRing.TimeWindowRing.Tail | internal/util/time_window_ring.go:101-103 | the first value of the window |
| TimeWindowRing.TimeWindowRing.Refines | internal/util/time_window_ring.go:106-113 | IsEmpty, Count and every live bucket, found by its place in the array, against the history |
| StatusService.StatusService.constructor | internal/services/status_check.go:47-54 | two empty rings of the configured size |
| StatusService.StatusService.SampleProduced | internal/services/status_check.go:90-90 | the first step of a tick |
| StatusService.StatusService.SampleConsumed | internal/services/status_check.go:91-91 | the second step; head, tail and count of the rings are equal again |
| StatusService.StatusService.StatusCheck | internal/services/status_check.go:89-95 | one sample in each ring |
| StatusService.StatusService.ConsumedPercentage | internal/services/status_check.go:120-139 | the percentage for the increments in the window, also within a tick and for rings without buckets; the guard fails exactly within the first tick |
| StatusService.StatusService.StatusHandler | internal/services/status_check.go:97-117 | covered time, and the percentage or -1; no answer exactly when the guard fails |
| StatusService.ReportedNear | internal/services/status_check.go:134-136 | within 0.005 of the exact percentage if and only if consumed is not negative and consumed * 100 does not overflow |
| StatusService.ReportedMonotone | internal/services/status_check.go:134-136 | more consumed, no smaller report |
| StatusService.HundredExactly | internal/services/status_check.go:134-136 | 100 is reported exactly when consumed is off by at most one part in 20000 |
| StatusService.HundredBound | internal/services/status_check.go:134-136 | below 20000 produced that means equal; from 20000 on one lost record reads 100 |
| StatusService.TwoDecimals | internal/services/status_check.go:135-136 | the report is a whole number of hundredths |
| StatusService.ReportMeaning | internal/services/status_check.go:120-139 | missing exactly when nothing was sampled or produced in the window; the ratio of increments exactly when the consumed counter did not fall over it; above 100 exactly when the backlog shrank |
| StatusService.TimeWindowBound | internal/services/status_check.go:102-104 | the reported time window never exceeds the configured one |
| StatusService.BucketsLargest | internal/util/time_window_ring.go:64-72 | as many buckets as fit into the window, up to 384 |
| Backoff.OverflowCaught | internal/services/backoff.go:66-69 | at reachable attempts the sign test is exact |
| Backoff.OverflowMissed | internal/services/backoff.go:66-69 | at attempts from 64 on it would not be |
| Backoff.Backoff.constructor | internal/services/backoff.go:14-58 | 200 ms and 5 minutes instead of a non-positive scale and maximum |
| Backoff.Backoff.Delay | internal/services/backoff.go:62-75 | the wrapping code computes what unbounded arithmetic asks for: which error, or min(scale * 2^attempt, max) |
| Backoff.FirstOverflowIs | internal/services/backoff.go:66-69 | the exponents that overflow are exactly those from FirstOverflow on |
| Backoff.SuccessesBound | internal/services/backoff.go:62-75 | at most 63 delays, and at most maxAttempts if that is not negative |
| Backoff.SuccessIff | internal/services/backoff.go:62-75 | exactly the calls succeed that both the number of attempts and the range of a duration allow |
| Backoff.DelayRun | internal/services/backoff.go:62-75 | call i succeeds with min(scale * 2^i, max) up to the number of successes; the error after it is permanent |
| Backoff.DelaysGrow | internal/services/backoff.go:66-72 | delays never decrease |
| Backoff.TotalWaitClosed | internal/services/backoff.go:66-72 | the total wait is scale * (2^j - 1) + (n - j) * max |
| RetryLoops.NewClientWithRetry | cmd/main.go:184-200 | connected if and only if one of the tries it may make succeeds, and then after the first that does; at most 64 tries, at most maxAttempts + 1; time waited |
| RetryLoops.DefaultsGiveUp | internal/config/canary_config.go:55-56 | with the default settings it gives up after eleven tries and 1515 seconds of delays |
| RetryLoops.Consume | internal/services/consumer.go:137-189 | the same for joining the consumer group |
| RetryLoops.ConsumeBound | internal/services/consumer.go:137-189 | four tries and 35 seconds of delays at most; joined if and only if one of the four tries does |
| Producer.ProducerService.Send | internal/services/producer.go:101-131 | exactly one message to each partition 0 .. n-1, in this order, numbered on from the last; counter and index move on by n |
| Producer.ProducerService.NewCanaryMessage | internal/services/producer.go:155-164 | the next message ID |
| Producer.MessageIdsDiffer | internal/services/producer.go:155-164 | message IDs differ, across the wrap of the index too |
| RecordFlow.RunKeeps | internal/services/producer.go:106-120 | over every interleaving each record in the logs is delivered or pending in one partition; the consumed counter never exceeds the completed increments |
| RecordFlow.ConsumedTrails | internal/services/consumer.go:268-285 | over every interleaving consumed is at most produced + 1, and each consumed sample at most the next produced sample + 1 |
| RecordFlow.SendsCounted | internal/services/producer.go:106-120 | over every interleaving every send is counted, failed or not; each partition's log holds what was sent in its turn minus what its own consumer took |
| RecordFlow.SampleSpan | internal/services/status_check.go:89-91 | a sample holds the produced counter from the start of its tick and the consumed one from its end |
| RecordFlow.OneAheadHappens | internal/services/producer.go:113-120 | the record ahead is possible |
| RecordFlow.LostUpdate | internal/services/consumer.go:285-285 | two consumers can count two records as one |
| RecordFlow.ExactIffOneConsumer | internal/services/consumer.go:285-285 | the counter counts every completed increment on every run if and only if there is at most one consumer |
| RecordFlow.RunKeepsBounds | internal/services/status_check.go:90-91 | on every run the produced samples rise, and no consumed sample exceeds the records delivered |
| RecordFlow.CounterFalls | internal/services/consumer.go:265-285 | with two partitions or more a run, each record consumed from the partition it was sent to, whose sampled counter falls from 2 to 1 |
| RecordFlow.RisesIffOneConsumer | internal/services/consumer.go:285-285 | the sampled counter never falls, on any run, if and only if there is at most one partition |
| StatusRuns.RunReport | internal/services/status_check.go:89-139 | after every run, with any number of partitions: -1 exactly when nothing was produced in the window; the true percentage exactly when the counter did not fall over it |
| StatusRuns.TrueIffOneConsumer | internal/services/status_check.go:89-139 | the page is true after every run if and only if there is at most one partition |
| StatusRuns.AbsurdPage | internal/services/status_check.go:127-136 | with two partitions a run of four records makes the page show 2^64 - 100 percent |
| KeyValuePairs.ConvertKVPairsToMap | internal/config/canary_config.go:231-251 | the loop computes the map of the parts, or panics on the first that is no pair |
| KeyValuePairs.RoundTrip | internal/config/canary_config.go:231-251 | rendered entries parse back to their map, later duplicates winning |
| KeyValuePairs.MapRoundTrip | internal/config/canary_config.go:231-251 | any map, written in any order, with or without a trailing separator, parses back to itself |
| KeyValuePairs.AcceptedIsRendered | internal/config/canary_config.go:231-251 | whatever is accepted is a rendered entry list |
| KeyValuePairs.Language | internal/config/canary_config.go:231-251 | accepted with map m if and only if it renders entries whose map is m |
| KeyValuePairs.PairIff | internal/config/canary_config.go:243-248 | a part is a pair if and only if it has exactly one = and not at its start; key and value are what is before and after it |
| KeyValuePairs.PanicIsFirst | internal/config/canary_config.go:245-247 | the panic names the first part that is no pair |
| ConfigWatcher.DynamicConfigWatcher.constructor | internal/config/dynamic_config_watcher.go:22-36 | start-up applies a usable file |
| ConfigWatcher.DynamicConfigWatcher.ReadAndHash | internal/config/dynamic_config_watcher.go:76-94 | bytes that decode, with their hash |
| ConfigWatcher.DynamicConfigWatcher.Tick | internal/config/dynamic_config_watcher.go:42-58 | the state after a tick |
| ConfigWatcher.StartApplies | internal/config/dynamic_config_watcher.go:30-36 | start-up applies the file if it is usable and nothing otherwise; ticks only add to that |
| ConfigWatcher.RunKeeps | internal/config/dynamic_config_watcher.go:22-68 | over every run the hash is that of the last file-driven apply, and successive ones never carry the same bytes |
| ConfigWatcher.InForce | internal/config/dynamic_config_watcher.go:45-57 | after reading a usable file its configuration is in force, except exactly when it has the last file's bytes and the defaults came since |
| ConfigWatcher.RecreatedIgnored | internal/config/dynamic_config_watcher.go:50-57 | the exception happens |
| ConfigWatcher.DefaultsPerDeletion | internal/config/dynamic_config_watcher.go:55-58 | the defaults are applied once per deletion of a file that had been seen |
| CanaryManager.CanaryManager.Reconcile | internal/workers/canary_manager.go:133-150 | on success exactly one message to every partition the topic has, in order, and the two refreshes exactly when due; on failure none |
| CanaryManager.CanaryManager.TryReconcile | internal/workers/canary_manager.go:80-96 | one try at start-up |
| CanaryManager.CanaryManager.FirstReconcile | internal/workers/canary_manager.go:76-98 | the retry loop: every try's answer, repeated only for the size error and while there are delays; the topic is still missing when it gives up |
| CanaryManager.CanaryManager.Start | internal/workers/canary_manager.go:67-98 | running, not joined, given up or failed, each if and only if the last answer and the four tries to join say so; tries and time bounded by the backoff; running means every partition got one message, anything else that none was sent |
| CanaryManager.StopsOnce | internal/workers/canary_manager.go:76-98 | the cluster's answers determine how often start-up tries, hence its outcome |

## Left out

- Kafka, Sarama and the network: an abstract cluster that grants or refuses each call. A call that fails after
  taking effect, metadata that lags behind, and changes of the topic by others are not modelled.
- TopicService.TopicService.ReconcileTopic: does not model a cluster that reports two brokers with one ID; Kafka does not.
- TopicModel.AreReplicas: while the cluster reports no broker the lists asked for are empty, and whether such a request is granted is left open; Kafka refuses empty lists, and would choose the partitions of a topic created with none.
- TopicService.TopicService.AlterAssignments: assumes that a reassignment ends after some number of polls; the source polls without bound.
- TopicService.TopicService.Close: assumes that closing succeeds; the source ends the process otherwise.
- Placement.RequestedAssignments: partition numbers and broker IDs are unbounded; Kafka keeps both within 32 bits, so the source's conversions are exact.
- Placement.SortBrokers: the library sort is modelled by its result, not by its algorithm.
- TopicService.TopicService.CurrentAssignments: partitions have IDs 0 .. k-1, as Kafka numbers them.
- StatusService.Rounded: exact rationals instead of 64-bit floating point.
- StatusService.StatusService.StatusHandler: runs before, between or after the two `Put` calls of a tick, not in the middle of one.
- RecordFlow.ConsumedTrails: a record is delivered at most once and the topic starts empty; counters are unbounded and the number of partitions stays the same during a run. Redelivery after a rebalance is not modelled.
- ConsumeClaim itself is modelled as interleaved steps on values instead of a method, because its increments race with each other.
- RetryLoops.Consume: the consumer group's session, its `ready` channel and the cancel function are not modelled, only the tries and delays.
- KeyValuePairs.ConvertKVPairsToMap: Go's nil map for the empty string is the empty map.
- ConfigWatcher.InForce: the hash is any function without collisions.
- CanaryManager.CanaryManager.Start: tickers, sleeps and the stop channel; ticks are calls of `Reconcile`.
- The preferred-leader check, which only logs.
- Prometheus metrics, logging, tracing, the HTTP server, JSON encoding, and the connection check.
- TLS and SASL set-up, environment look-ups, latency buckets and the latency script.
