/** The topic service, method by method, against an abstract cluster. */
module TopicService {
  import opened Options
  import opened Sequences
  import opened RackOrder
  import opened Placement
  import opened PlacementFacts
  import opened TopicModel
  import TopicCalls

  /** Of a cluster that reports brokers nothing but replicas on these is asked. */
  lemma RequestedReplicas(currentPartitions: nat, brokers: seq<Broker>)
    requires DistinctIds(brokers)
    ensures AreReplicas(Lists(Requested(currentPartitions, brokers)), brokers)
  {
    var a := Requested(currentPartitions, brokers);
    RequestedLists(currentPartitions, brokers);
    forall p | 0 <= p < |Lists(a)| && brokers != []
      ensures Lists(a)[p] != [] && NoDup(Lists(a)[p])
      ensures forall id :: id in Lists(a)[p] ==> exists b :: b in brokers && b.id == id
    {
      assert p in AsMap(Lists(a));
      ReplicasDistinct(currentPartitions, brokers, p);
    }
  }

  /** The cluster behind the admin client: the canary topic, and the calls received. */
  class Cluster {
    var topic: Option<Topic>
    var calls: seq<Entry>

    /** One admin call. The service must ask only what Kafka can grant, given the brokers it reported; whether
        Kafka does is `reply`. */
    method Admin(call: Call, reply: Reply, ghost brokers: seq<Broker>) returns (err: Option<Error>)
      requires Legal(topic, call, brokers)
      modifies this
      ensures calls == old(calls) + [Entry(call, reply.Accepted?)]
      ensures topic == if reply.Accepted? then Effect(old(topic), call) else old(topic)
      ensures err == ErrorOf(reply)
    {
      calls := calls + [Entry(call, reply.Accepted?)];
      if reply.Accepted? {
        topic := Effect(topic, call);
      }
      err := ErrorOf(reply);
    }
  }

  class TopicService {
    const cfg: Config
    const cluster: Cluster
    /** Whether the field `admin` holds a client. */
    var connected: bool
    var initialized: bool

    ghost function Now(): State
      reads this, cluster
    {
      State(connected, initialized, cluster.topic, cluster.calls)
    }

    constructor (cfg: Config, cluster: Cluster)
      ensures this.cfg == cfg && this.cluster == cluster && !connected && !initialized
    {
      this.cfg, this.cluster := cfg, cluster;
      connected, initialized := false, false;
    }

    method AlterAssignments(assignments: seq<seq<int>>, env: Env) returns (err: Option<Error>)
      requires cluster.topic.Some? && |assignments| <= |cluster.topic.value|
      requires AreReplicas(assignments, env.brokers)
      modifies cluster
      ensures Done(Now(), err) == TopicModel.AlterAssignments(old(Now()), assignments, env)
      ensures err == if env.reassign.Accepted? then None else Some(CallFailed(env.reassign.disconnection))
      ensures |cluster.calls| == |old(cluster.calls)| + (if env.reassign.Accepted? then env.ongoing + 2 else 1)
      ensures cluster.calls[|old(cluster.calls)|]
              == Entry(AlterPartitionReassignments(assignments), env.reassign.Accepted?)
      ensures forall i :: |old(cluster.calls)| < i < |cluster.calls| ==>
                var poll := cluster.calls[i];
                poll.call.ListPartitionReassignments? && |poll.call.partitions| == |assignments|
                && (forall q :: 0 <= q < |assignments| ==> poll.call.partitions[q] == q)
                && (poll.accepted <==> i < |cluster.calls| - 1 || !env.listFails)
    {
      TopicCalls.PolledAt(Now(), assignments, env);
      err := cluster.Admin(AlterPartitionReassignments(assignments), env.reassign, env.brokers);
      if err.Some? {
        return;
      }
      var partitions := [];
      for partitionID := 0 to |assignments|
        invariant partitions == PartitionIds(|assignments|)[..partitionID]
      {
        partitions := partitions + [partitionID];
      }
      ghost var topic, calls, entries := cluster.topic, cluster.calls, PollEntries(PartitionIds(|assignments|), env);
      assert partitions == PartitionIds(|assignments|);
      assert entries[..0] == [] && entries[..env.ongoing + 1] == entries;
      var polls := 0;
      while true
        invariant polls <= env.ongoing && cluster.topic == topic && cluster.calls == calls + entries[..polls]
        decreases env.ongoing - polls
      {
        var ongoing := polls < env.ongoing;
        assert entries[polls] == Entry(ListPartitionReassignments(partitions), ongoing || !env.listFails);
        assert entries[..polls + 1] == entries[..polls] + [entries[polls]];
        var listErr := cluster.Admin(ListPartitionReassignments(partitions),
                                     if !ongoing && env.listFails then Refused(false) else Accepted, env.brokers);
        if listErr.Some? {
          return None;
        }
        if !ongoing {
          break;
        }
        polls := polls + 1;
      }
      err := None;
    }

    /** The map's lists, copied into a slice in partition order. */
    static method CopyLists(assignmentsMap: map<int, seq<int>>) returns (assignments: seq<seq<int>>)
      ensures assignments == Lists(assignmentsMap)
    {
      assignments := [];
      for i := 0 to |assignmentsMap|
        invariant assignments == Lists(assignmentsMap)[..i]
      {
        assignments := assignments + [if i in assignmentsMap then assignmentsMap[i] else []];
      }
    }

    method AlterTopicAssignments(currentPartitions: nat, brokers: array<Broker>, env: Env)
      returns (assignmentsMap: map<int, seq<int>>, err: Option<Error>)
      requires brokers[..] == env.brokers && GoodEnv(env)
      requires cluster.topic.Some? && currentPartitions == |cluster.topic.value|
      modifies cluster, brokers
      ensures assignmentsMap == Requested(currentPartitions, env.brokers)
      ensures Done(Now(), err) == TopicModel.AlterTopicAssignments(old(Now()), currentPartitions, env)
    {
      var brokersNumber, minISR := brokers.Length, 0;
      assert brokersNumber == |env.brokers|;
      assignmentsMap, minISR := RequestedAssignments(currentPartitions, brokers);
      RequestedLists(currentPartitions, env.brokers);
      RequestedReplicas(currentPartitions, env.brokers);
      var assignments := CopyLists(assignmentsMap);
      err := ApplyAssignments(currentPartitions, brokersNumber, assignments, env);
    }

    /** Scale up: reassign, then add the missing partitions. Otherwise: reassign. */
    method ApplyAssignments(currentPartitions: nat, brokersNumber: nat, assignments: seq<seq<int>>, env: Env)
      returns (err: Option<Error>)
      requires cluster.topic.Some? && currentPartitions == |cluster.topic.value|
      requires |assignments| == Max(currentPartitions, brokersNumber)
      requires AreReplicas(assignments, env.brokers)
      modifies cluster
      ensures Done(Now(), err) == ApplyLists(old(Now()), currentPartitions, brokersNumber, assignments, env)
    {
      if currentPartitions < brokersNumber {
        err := AlterAssignments(assignments[..currentPartitions], env);
        if err.None? {
          err := cluster.Admin(CreatePartitions(brokersNumber, assignments[currentPartitions..]),
                               env.createPartitions, env.brokers);
        }
      } else {
        err := AlterAssignments(assignments[..currentPartitions], env);
      }
    }

    method AlterTopicConfiguration(env: Env) returns (err: Option<Error>)
      requires cluster.topic.Some?
      modifies cluster
      ensures Now() == if |cfg.topicConfig| != 0 then Issue(old(Now()), AlterConfig(cfg.topicConfig), env.alterConfig)
                       else old(Now())
      ensures err == if |cfg.topicConfig| != 0 then ErrorOf(env.alterConfig) else None
    {
      err := None;
      if |cfg.topicConfig| != 0 {
        err := cluster.Admin(AlterConfig(cfg.topicConfig), env.alterConfig, env.brokers);
      }
    }

    method CreateTopic(brokers: array<Broker>, env: Env) returns (assignments: map<int, seq<int>>, err: Option<Error>)
      requires brokers[..] == env.brokers && GoodEnv(env) && cluster.topic.None?
      modifies cluster, brokers
      ensures assignments == Requested(0, env.brokers) && err == ErrorOf(env.createTopic)
      ensures Now() == Issue(old(Now()), Call.CreateTopic(assignments, CreationConfig(cfg, MinISR(|env.brokers|))),
                             env.createTopic)
    {
      var minISR;
      assert brokers.Length == |env.brokers|;
      assignments, minISR := RequestedAssignments(0, brokers);
      RequestedLists(0, env.brokers);
      RequestedReplicas(0, env.brokers);
      err := cluster.Admin(Call.CreateTopic(assignments, CreationConfig(cfg, minISR)), env.createTopic, env.brokers);
    }

    method CurrentAssignments(topic: Topic) returns (assignments: map<int, seq<int>>)
      ensures assignments == AsMap(topic)
    {
      assignments := map[];
      for p := 0 to |topic|
        invariant assignments == map q | 0 <= q < p :: topic[q]
      {
        assignments := assignments[p := topic[p]];
      }
    }

    method CurrentLeaders(partitions: nat, env: Env) returns (leaders: map<int, int>)
      ensures leaders == Leaders(partitions, env)
    {
      leaders := map[];
      for p := 0 to partitions
        invariant leaders == map q | 0 <= q < p :: env.leader(q)
      {
        leaders := leaders[p := env.leader(p)];
      }
    }

    method ReconcileTopic(env: Env) returns (result: TopicReconcileResult, err: Option<Error>)
      requires GoodEnv(env)
      modifies this, cluster
      ensures Outcome(Now(), result, err) == TopicModel.ReconcileTopic(cfg, old(Now()), env)
    {
      result, err := NO_RESULT, None;
      if !connected {
        err := cluster.Admin(NewClusterAdmin, env.connect, env.brokers);
        if err.Some? {
          return;
        }
        connected := true;
      }
      err := cluster.Admin(DescribeCluster, env.describeCluster, env.brokers);
      if err.Some? {
        return;
      }
      var brokers := new Broker[|env.brokers|](i requires 0 <= i < |env.brokers| => env.brokers[i]);
      assert brokers[..] == env.brokers;
      err := cluster.Admin(DescribeTopics, Answered(env.describe), env.brokers);
      if err.Some? {
        return;
      }
      if env.describe.MetadataError? {
        return NO_RESULT, Some(TopicMetadataError);
      }
      if cluster.topic.None? {
        result, err := WhenMissing(brokers, env);
      } else {
        result, err := WhenExisting(brokers, env);
      }
    }

    /** The branch for an unknown topic. */
    method WhenMissing(brokers: array<Broker>, env: Env) returns (result: TopicReconcileResult, err: Option<Error>)
      requires brokers[..] == env.brokers && GoodEnv(env) && cluster.topic.None?
      modifies this, cluster, brokers
      ensures Outcome(Now(), result, err) == Creating(cfg, old(Now()), env)
    {
      assert brokers.Length == |env.brokers|;
      if IsDynamic(cfg) || cfg.expectedClusterSize == brokers.Length {
        var assignments;
        assignments, err := CreateTopic(brokers, env);
        result := NO_RESULT.(assignments := assignments);
        if err.Some? {
          return;
        }
        err := cluster.Admin(DescribeTopics, Answered(env.describeAgain), env.brokers);
        if err.Some? {
          return;
        }
        var leaders := CurrentLeaders(if env.describeAgain.Metadata? then |cluster.topic.value| else 0, env);
        result := result.(leaders := leaders);
        initialized := true;
      } else {
        result, err := NO_RESULT, Some(ErrExpectedClusterSize);
      }
    }

    /** The branch for a topic that exists. */
    method WhenExisting(brokers: array<Broker>, env: Env) returns (result: TopicReconcileResult, err: Option<Error>)
      requires brokers[..] == env.brokers && GoodEnv(env) && cluster.topic.Some?
      modifies this, cluster, brokers
      ensures Outcome(Now(), result, err) == Existing(cfg, old(Now()), old(cluster.topic.value), env)
    {
      var described := cluster.topic.value;
      assert brokers.Length == |env.brokers|;
      result, err := NO_RESULT, None;
      if !initialized {
        err := AlterTopicConfiguration(env);
        if err.Some? {
          return;
        }
      }
      if IsDynamic(cfg) || (!initialized && cfg.expectedClusterSize == brokers.Length) {
        var assignments;
        var refresh := brokers.Length != |described|;
        assignments, err := AlterTopicAssignments(|described|, brokers, env);
        result := Result(assignments, map[], refresh);
        if err.Some? {
          return;
        }
      } else {
        var assignments := CurrentAssignments(described);
        result := NO_RESULT.(assignments := assignments);
      }
      var leaders := CurrentLeaders(|described|, env);
      result := result.(leaders := leaders);
      initialized := true;
    }

    method Reconcile(env: Env) returns (result: TopicReconcileResult, err: Option<Error>)
      requires GoodEnv(env)
      modifies this, cluster
      ensures Outcome(Now(), result, err) == TopicModel.Reconcile(cfg, old(Now()), env)
      ensures connected <==> (old(connected) || env.connect.Accepted?) && err != Some(CallFailed(true))
      ensures err == Some(CallFailed(true)) && (old(connected) || env.connect.Accepted?) ==>
                cluster.calls != [] && cluster.calls[|cluster.calls| - 1] == Entry(CloseAdmin, true)
    {
      TopicCalls.CloseIff(cfg, Now(), env);
      result, err := ReconcileTopic(env);
      if err.Some? && IsDisconnection(err.value) {
        Close();
      }
    }

    method Close()
      modifies this, cluster
      ensures Now() == TopicModel.Close(old(Now()))
      ensures !connected
      ensures cluster.calls == old(cluster.calls) + if old(connected) then [Entry(CloseAdmin, true)] else []
    {
      if connected {
        var _ := cluster.Admin(CloseAdmin, Accepted, []);
        connected := false;
      }
    }
  }
}
