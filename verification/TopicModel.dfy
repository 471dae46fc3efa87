/** The canary topic, the admin calls that change it, and one reconcile as a step from state to state. */
module TopicModel {
  import opened Options
  import opened Sequences
  import opened RackOrder
  import opened Placement

  datatype Error = CallFailed(disconnection: bool) | TopicMetadataError | ErrExpectedClusterSize

  predicate IsDisconnection(e: Error) {
    e.CallFailed? && e.disconnection
  }

  /** ExpectedClusterSizeDefault: "dynamic" reassignment. */
  const EXPECTED_CLUSTER_SIZE_DEFAULT: int := -1

  datatype Config = Config(expectedClusterSize: int, topicConfig: map<string, string>)

  predicate IsDynamic(cfg: Config) {
    cfg.expectedClusterSize == EXPECTED_CLUSTER_SIZE_DEFAULT
  }

  // ---------- the cluster ----------

  /** The replicas asked for, by partition ID. */
  type Topic = seq<seq<int>>

  datatype Call =
    | NewClusterAdmin
    | DescribeCluster
    | DescribeTopics
    | AlterConfig(entries: map<string, string>)
    | CreateTopic(assignments: map<int, seq<int>>, entries: map<string, string>)
    | AlterPartitionReassignments(lists: seq<seq<int>>)
    | ListPartitionReassignments(partitions: seq<int>)
    | CreatePartitions(count: int, lists: seq<seq<int>>)
    | CloseAdmin

  datatype Entry = Entry(call: Call, accepted: bool)

  datatype Reply = Accepted | Refused(disconnection: bool)

  /** The metadata of the topic as it is, metadata that carries an error code, or a failed call. */
  datatype DescribeReply = Metadata | MetadataError | NoMetadata(disconnection: bool)

  /** How the cluster answers the calls of one reconcile. */
  datatype Env = Env(
    connect: Reply,
    describeCluster: Reply,
    brokers: seq<Broker>,
    describe: DescribeReply,
    leader: int -> int,
    alterConfig: Reply,
    createTopic: Reply,
    describeAgain: DescribeReply,
    reassign: Reply,
    ongoing: nat,
    listFails: bool,
    createPartitions: Reply)

  ghost predicate GoodEnv(env: Env) {
    DistinctIds(env.brokers)
  }

  function ErrorOf(reply: Reply): Option<Error> {
    match reply
    case Accepted => None
    case Refused(disconnection) => Some(CallFailed(disconnection))
  }

  /** The map as lists for partitions 0, 1, ...; Go reads a missing key as the empty list. */
  function Lists(a: map<int, seq<int>>): seq<seq<int>> {
    seq(|a|, p requires 0 <= p < |a| => if p in a then a[p] else [])
  }

  function AsMap(topic: Topic): map<int, seq<int>> {
    map p | 0 <= p < |topic| :: topic[p]
  }

  /** Every list has replicas, on different brokers the cluster reported, provided it reported any. */
  ghost predicate AreReplicas(lists: seq<seq<int>>, brokers: seq<Broker>) {
    brokers != [] ==> forall p :: 0 <= p < |lists| ==>
      lists[p] != [] && NoDup(lists[p]) && forall id :: id in lists[p] ==> exists b :: b in brokers && b.id == id
  }

  /** What Kafka asks of a request that is to take effect. */
  ghost predicate Legal(topic: Option<Topic>, call: Call, brokers: seq<Broker>) {
    match call
    case CreateTopic(a, _) =>
      topic.None? && a == AsMap(Lists(a)) && (brokers != [] ==> a != map[]) && AreReplicas(Lists(a), brokers)
    case AlterConfig(_) => topic.Some?
    case AlterPartitionReassignments(lists) =>
      topic.Some? && |lists| <= |topic.value| && AreReplicas(lists, brokers)
    case CreatePartitions(count, lists) =>
      topic.Some? && lists != [] && count == |topic.value| + |lists| && AreReplicas(lists, brokers)
    case _ => true
  }

  /** What an accepted request does to the topic. */
  function Effect(topic: Option<Topic>, call: Call): Option<Topic> {
    match call
    case CreateTopic(a, _) => Some(Lists(a))
    case AlterPartitionReassignments(lists) =>
      if topic.Some? && |lists| <= |topic.value| then Some(lists + topic.value[|lists|..]) else topic
    case CreatePartitions(_, lists) => if topic.Some? then Some(topic.value + lists) else topic
    case _ => topic
  }

  // ---------- states and steps ----------

  /** connected: the service holds an admin client; calls: every admin call so far. */
  datatype State = State(connected: bool, initialized: bool, topic: Option<Topic>, calls: seq<Entry>)

  datatype TopicReconcileResult = Result(
    assignments: map<int, seq<int>>, leaders: map<int, int>, refreshProducerMetadata: bool)

  const NO_RESULT: TopicReconcileResult := Result(map[], map[], false)

  datatype Done = Done(state: State, err: Option<Error>)

  datatype Outcome = Outcome(state: State, result: TopicReconcileResult, err: Option<Error>)

  /** An issued call is recorded; a refused one changes nothing else. */
  function Issue(s: State, call: Call, reply: Reply): State {
    s.(topic := if reply.Accepted? then Effect(s.topic, call) else s.topic,
       calls := s.calls + [Entry(call, reply.Accepted?)])
  }

  function Answered(reply: DescribeReply): Reply {
    if reply.NoMetadata? then Refused(reply.disconnection) else Accepted
  }

  function Leaders(partitions: nat, env: Env): map<int, int> {
    map p | 0 <= p < partitions :: env.leader(p)
  }

  /** The polls that follow an accepted reassignment: until none is ongoing, or until a poll fails. */
  function PollEntries(partitions: seq<int>, env: Env): seq<Entry> {
    seq(env.ongoing, _ => Entry(ListPartitionReassignments(partitions), true))
    + [Entry(ListPartitionReassignments(partitions), !env.listFails)]
  }

  function PartitionIds(n: nat): seq<int> {
    seq(n, i => i)
  }

  function AlterAssignments(s: State, lists: seq<seq<int>>, env: Env): Done {
    var s1 := Issue(s, AlterPartitionReassignments(lists), env.reassign);
    if env.reassign.Refused? then Done(s1, ErrorOf(env.reassign))
    else Done(s1.(calls := s1.calls + PollEntries(PartitionIds(|lists|), env)), None)
  }

  /** Reassigns the first k partitions to their lists; with fewer partitions than brokers, then adds the rest. */
  function ApplyLists(s: State, k: nat, brokersNumber: nat, lists: seq<seq<int>>, env: Env): Done
    requires k <= |lists|
  {
    var d := AlterAssignments(s, lists[..k], env);
    if k < brokersNumber && d.err.None?
    then Done(Issue(d.state, CreatePartitions(brokersNumber, lists[k..]), env.createPartitions),
              ErrorOf(env.createPartitions))
    else d
  }

  function AlterTopicAssignments(s: State, currentPartitions: nat, env: Env): Done {
    RequestedLists(currentPartitions, env.brokers);
    ApplyLists(s, currentPartitions, |env.brokers|, Lists(Requested(currentPartitions, env.brokers)), env)
  }

  function Itoa(n: nat): string {
    (if n < 10 then [] else Itoa(n / 10)) + ["0123456789"[n % 10]]
  }

  function CreationConfig(cfg: Config, minISR: nat): map<string, string> {
    cfg.topicConfig["min.insync.replicas" := Itoa(minISR)]["cleanup.policy" := "delete"]
  }

  /** Creates the topic with the given assignment, then asks for its leaders. */
  function CreateWith(s: State, a: map<int, seq<int>>, entries: map<string, string>, env: Env): Outcome {
    var s1 := Issue(s, CreateTopic(a, entries), env.createTopic);
    if env.createTopic.Refused? then Outcome(s1, Result(a, map[], false), ErrorOf(env.createTopic))
    else
      var s2 := Issue(s1, DescribeTopics, Answered(env.describeAgain));
      if env.describeAgain.NoMetadata? then Outcome(s2, Result(a, map[], false), ErrorOf(Answered(env.describeAgain)))
      else
        var partitions := if env.describeAgain.Metadata? && s2.topic.Some? then |s2.topic.value| else 0;
        Outcome(s2.(initialized := true), Result(a, Leaders(partitions, env), false), None)
  }

  /** The topic does not exist yet. */
  function Creating(cfg: Config, s: State, env: Env): Outcome {
    if IsDynamic(cfg) || cfg.expectedClusterSize == |env.brokers| then
      CreateWith(s, Requested(0, env.brokers), CreationConfig(cfg, MinISR(|env.brokers|)), env)
    else Outcome(s, NO_RESULT, Some(ErrExpectedClusterSize))
  }

  /** Reassigns the topic to the brokers there are. */
  function Scaling(s: State, topic: Topic, env: Env): Outcome {
    var d := AlterTopicAssignments(s, |topic|, env);
    var a, refresh := Requested(|topic|, env.brokers), |env.brokers| != |topic|;
    if d.err.Some? then Outcome(d.state, Result(a, map[], refresh), d.err)
    else Outcome(d.state.(initialized := true), Result(a, Leaders(|topic|, env), refresh), None)
  }

  /** The topic exists. */
  function Existing(cfg: Config, s: State, topic: Topic, env: Env): Outcome {
    var altering := !s.initialized && |cfg.topicConfig| != 0;
    var s1 := if altering then Issue(s, AlterConfig(cfg.topicConfig), env.alterConfig) else s;
    if altering && env.alterConfig.Refused? then Outcome(s1, NO_RESULT, ErrorOf(env.alterConfig))
    else if IsDynamic(cfg) || (!s.initialized && cfg.expectedClusterSize == |env.brokers|) then
      Scaling(s1, topic, env)
    else Outcome(s1.(initialized := true), Result(AsMap(topic), Leaders(|topic|, env), false), None)
  }

  /** The admin client is created when there is none. */
  function Connected(s: State, env: Env): State {
    if s.connected then s else Issue(s, NewClusterAdmin, env.connect).(connected := env.connect.Accepted?)
  }

  function ReconcileTopic(cfg: Config, s: State, env: Env): Outcome {
    var s1 := Connected(s, env);
    if !s1.connected then Outcome(s1, NO_RESULT, ErrorOf(env.connect))
    else
      var s2 := Issue(s1, DescribeCluster, env.describeCluster);
      if env.describeCluster.Refused? then Outcome(s2, NO_RESULT, ErrorOf(env.describeCluster))
      else
        var s3 := Issue(s2, DescribeTopics, Answered(env.describe));
        match env.describe
        case NoMetadata(disconnection) => Outcome(s3, NO_RESULT, Some(CallFailed(disconnection)))
        case MetadataError => Outcome(s3, NO_RESULT, Some(TopicMetadataError))
        case Metadata =>
          match s3.topic
          case None => Creating(cfg, s3, env)
          case Some(topic) => Existing(cfg, s3, topic, env)
  }

  function Close(s: State): State {
    if s.connected then Issue(s, CloseAdmin, Accepted).(connected := false) else s
  }

  function Reconcile(cfg: Config, s: State, env: Env): Outcome {
    var o := ReconcileTopic(cfg, s, env);
    if o.err.Some? && IsDisconnection(o.err.value) then o.(state := Close(o.state)) else o
  }

  function Run(cfg: Config, s: State, envs: seq<Env>): State {
    if envs == [] then s else Reconcile(cfg, Run(cfg, s, envs[..|envs| - 1]), envs[|envs| - 1]).state
  }

  // ---------- the requested lists ----------

  lemma {:induction false} CardOfPrefixMap(a: map<int, seq<int>>, n: nat)
    requires forall p :: p in a <==> 0 <= p < n
    ensures |a| == n && a == AsMap(Lists(a))
  {
    PrefixSize(a.Keys, n);
    assert |a| == |a.Keys|;
  }

  lemma {:induction false} PrefixSize(ps: set<int>, n: nat)
    requires forall p :: p in ps <==> 0 <= p < n
    ensures |ps| == n
  {
    if n == 0 {
      assert forall p :: p !in ps;
      assert ps == {};
    } else {
      PrefixSize(ps - {n - 1}, n - 1);
      assert ps == ps - {n - 1} + {n - 1};
    }
  }

  /** The requested assignment covers exactly partitions 0 .. max(current, brokers) - 1. */
  lemma RequestedLists(currentPartitions: nat, brokers: seq<Broker>)
    ensures var a := Requested(currentPartitions, brokers);
      |a| == |Lists(a)| == Max(currentPartitions, |brokers|) && a == AsMap(Lists(a))
  {
    CardOfPrefixMap(Requested(currentPartitions, brokers), Max(currentPartitions, |brokers|));
  }
}
