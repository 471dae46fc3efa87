/** From end to end: what the cluster's topic offers once a reconcile has succeeded. */
module Guarantees {
  import opened Sequences
  import opened RackOrder
  import opened RackDistance
  import opened Placement
  import opened PlacementFacts
  import opened FaultTolerance
  import opened TopicModel
  import opened TopicFacts
  import opened TopicRuns

  /** The topic has the replicas that were requested for its partitions. */
  ghost predicate AsRequested(topic: Topic, brokers: seq<Broker>) {
    AsMap(topic) == Requested(|topic|, brokers)
  }

  lemma PartitionSound(topic: Topic, brokers: seq<Broker>, p: nat)
    requires DistinctIds(brokers) && AsRequested(topic, brokers) && p < |topic|
    ensures |topic[p]| == Min(|brokers|, 3) && NoDup(topic[p]) && |BrokerOrder(brokers)| == |brokers|
    ensures forall r :: 0 <= r < |topic[p]| ==> topic[p][r] == BrokerOrder(brokers)[(p + r) % |brokers|].id
    ensures forall id :: id in topic[p] ==> exists b :: b in brokers && b.id == id
  {
    assert AsMap(topic)[p] == topic[p];
    ReplicasDistinct(|topic|, brokers, p);
    BrokerOrderPermutes(brokers);
    forall r | 0 <= r < |topic[p]|
      ensures topic[p][r] == BrokerOrder(brokers)[(p + r) % |brokers|].id
    {
      ReplicaAt(brokers, p, r);
    }
  }

  lemma AnyBrokerLost(topic: Topic, brokers: seq<Broker>)
    requires DistinctIds(brokers) && AsRequested(topic, brokers) && |brokers| >= 2
    ensures forall p, id :: 0 <= p < |topic| ==> |Surviving(topic[p], {id})| >= MinISR(|brokers|)
  {
    BrokerLoss(|topic|, brokers);
    forall p, id | 0 <= p < |topic|
      ensures |Surviving(topic[p], {id})| >= MinISR(|brokers|)
    {
      assert AsMap(topic)[p] == topic[p] && p in Requested(|topic|, brokers);
    }
  }

  /** Every partition keeps minISR replicas without any one rack. */
  ghost predicate SurvivesRacks(topic: Topic, brokers: seq<Broker>) {
    forall p, rack :: 0 <= p < |topic| ==> |Surviving(topic[p], IdsOfRack(brokers, rack))| >= MinISR(|brokers|)
  }

  lemma AnyRackLost(topic: Topic, brokers: seq<Broker>)
    requires DistinctIds(brokers) && AsRequested(topic, brokers) && |brokers| >= 2 && AllRacked(brokers)
    ensures SurvivesRacks(topic, brokers) <==> Spread(RackSizes(brokers), ReplicationFactor(|brokers|))
  {
    DiverseIffSpread(|topic|, brokers);
    RackLoss(|topic|, brokers);
    assert forall p :: p in AsMap(topic) ==> 0 <= p < |topic| && AsMap(topic)[p] == topic[p];
    assert forall p :: 0 <= p < |topic| ==> p in AsMap(topic);
  }

  /** After a successful dynamic reconcile, from whatever state: at least one partition per broker; every
      partition, old or new, has min(n, 3) replicas on different brokers the cluster reported, consecutive ones
      in their order from the partition's number on; with two brokers or more it keeps minISR of them when any
      broker is lost; and if all brokers have a rack, it does so when any rack is lost if and only if the racks'
      sizes leave the gaps for it. */
  lemma {:induction false} AfterSuccess(cfg: Config, s: State, env: Env)
    requires IsDynamic(cfg) && GoodEnv(env) && Reconcile(cfg, s, env).err.None?
    ensures var topic, brokers := Reconcile(cfg, s, env).state.topic, env.brokers;
      topic.Some? && |topic.value| >= |brokers|
      && (forall p :: 0 <= p < |topic.value| ==>
            |topic.value[p]| == Min(|brokers|, 3) && NoDup(topic.value[p]) && |BrokerOrder(brokers)| == |brokers|
            && (forall r :: 0 <= r < |topic.value[p]| ==>
                  topic.value[p][r] == BrokerOrder(brokers)[(p + r) % |brokers|].id)
            && (forall id :: id in topic.value[p] ==> exists b :: b in brokers && b.id == id))
      && (|brokers| >= 2 ==>
            forall p, id :: 0 <= p < |topic.value| ==> |Surviving(topic.value[p], {id})| >= MinISR(|brokers|))
      && (AllRacked(brokers) && |brokers| >= 2 ==>
            (SurvivesRacks(topic.value, brokers) <==> Spread(RackSizes(brokers), ReplicationFactor(|brokers|))))
  {
    SettledAfterSuccess(cfg, s, env);
    SettledSound(Reconcile(cfg, s, env).state.topic.value, env.brokers);
  }

  lemma SettledSound(topic: Topic, brokers: seq<Broker>)
    requires DistinctIds(brokers) && AsRequested(topic, brokers)
    ensures forall p :: 0 <= p < |topic| ==>
              |topic[p]| == Min(|brokers|, 3) && NoDup(topic[p]) && |BrokerOrder(brokers)| == |brokers|
              && (forall r :: 0 <= r < |topic[p]| ==> topic[p][r] == BrokerOrder(brokers)[(p + r) % |brokers|].id)
              && (forall id :: id in topic[p] ==> exists b :: b in brokers && b.id == id)
    ensures |brokers| >= 2 ==> forall p, id :: 0 <= p < |topic| ==> |Surviving(topic[p], {id})| >= MinISR(|brokers|)
    ensures AllRacked(brokers) && |brokers| >= 2 ==>
              (SurvivesRacks(topic, brokers) <==> Spread(RackSizes(brokers), ReplicationFactor(|brokers|)))
  {
    forall p | 0 <= p < |topic|
      ensures |topic[p]| == Min(|brokers|, 3) && NoDup(topic[p]) && |BrokerOrder(brokers)| == |brokers|
      ensures forall r :: 0 <= r < |topic[p]| ==> topic[p][r] == BrokerOrder(brokers)[(p + r) % |brokers|].id
      ensures forall id :: id in topic[p] ==> exists b :: b in brokers && b.id == id
    {
      PartitionSound(topic, brokers, p);
    }
    if |brokers| >= 2 {
      AnyBrokerLost(topic, brokers);
      if AllRacked(brokers) {
        AnyRackLost(topic, brokers);
      }
    }
  }

  /** Nothing is refused. Polls of the reassignment may fail. */
  ghost predicate AllGranted(env: Env) {
    env.connect.Accepted? && env.describeCluster.Accepted? && env.describe.Metadata? && env.alterConfig.Accepted?
    && env.createTopic.Accepted? && !env.describeAgain.NoMetadata? && env.reassign.Accepted?
    && env.createPartitions.Accepted?
  }

  /** Whatever refusals and broken connections a run has seen, and however it left the topic: with dynamic
      reassignment one reconcile without refusals succeeds, and lays the topic out for its brokers. */
  lemma {:induction false} Repaired(cfg: Config, s: State, envs: seq<Env>, env: Env)
    requires IsDynamic(cfg) && GoodEnv(env) && AllGranted(env)
    ensures var o, before := Reconcile(cfg, Run(cfg, s, envs), env), Run(cfg, s, envs).topic;
      o.err.None? && o.state.topic.Some? && AsRequested(o.state.topic.value, env.brokers)
      && |o.state.topic.value| == Max(Partitions(before), |env.brokers|)
      && o.result.assignments == AsMap(o.state.topic.value)
  {
    var t := Run(cfg, s, envs);
    SucceedsIff(cfg, t, env);
    SettledAfterSuccess(cfg, t, env);
    SuccessMatches(cfg, t, env);
    RepairedSize(cfg, t, env);
  }

  lemma RepairedSize(cfg: Config, s: State, env: Env)
    requires IsDynamic(cfg) && Reconcile(cfg, s, env).err.None?
    ensures Partitions(Reconcile(cfg, s, env).state.topic) == Max(Partitions(s.topic), |env.brokers|)
  {
    SettledAfterSuccess(cfg, s, env);
    StepSized(cfg, s, env);
  }
}
