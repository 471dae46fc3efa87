/** Whole runs of reconciles, from any state, with any answers of the cluster. */
module TopicRuns {
  import opened Options
  import opened Sequences
  import opened RackOrder
  import opened Placement
  import opened PlacementFacts
  import opened TopicModel
  import opened TopicFacts

  // ---------- the partition count ----------

  /** The largest broker count among the reconciles of the run in which a creation took effect. */
  ghost function EffectiveBrokers(cfg: Config, s: State, envs: seq<Env>): nat {
    if envs == [] then 0
    else
      var before, env := Run(cfg, s, envs[..|envs| - 1]), envs[|envs| - 1];
      var after := Reconcile(cfg, before, env).state;
      Max(EffectiveBrokers(cfg, s, envs[..|envs| - 1]),
          if Count(after.calls, IsGrowth) > Count(before.calls, IsGrowth) then |env.brokers| else 0)
  }

  /** The partition count never shrinks: it is the largest of where it started and of the broker counts at
      which partitions were created. */
  lemma {:induction false} PartitionCountRun(cfg: Config, s: State, envs: seq<Env>)
    ensures Partitions(Run(cfg, s, envs).topic) == Max(Partitions(s.topic), EffectiveBrokers(cfg, s, envs))
    ensures s.topic.Some? ==> Run(cfg, s, envs).topic.Some?
  {
    if envs == [] {
    } else {
      PartitionCountRun(cfg, s, envs[..|envs| - 1]);
      StepSized(cfg, Run(cfg, s, envs[..|envs| - 1]), envs[|envs| - 1]);
    }
  }

  // ---------- one admin connection ----------

  lemma CreatingCount(cfg: Config, s: State, env: Env, kind: Entry -> bool)
    requires forall e :: kind(e) ==> !e.call.DescribeTopics? && !e.call.CreateTopic?
    ensures Count(Creating(cfg, s, env).state.calls, kind) == Count(s.calls, kind)
    ensures Creating(cfg, s, env).state.connected == s.connected
  {
    CreateCount(s, Requested(0, env.brokers), CreationConfig(cfg, MinISR(|env.brokers|)), env, kind);
  }

  lemma CreateCount(s: State, a: map<int, seq<int>>, entries: map<string, string>, env: Env, kind: Entry -> bool)
    requires forall e :: kind(e) ==> !e.call.DescribeTopics? && !e.call.CreateTopic?
    ensures Count(CreateWith(s, a, entries, env).state.calls, kind) == Count(s.calls, kind)
    ensures CreateWith(s, a, entries, env).state.connected == s.connected
  {
    CountNext(s.calls, Entry(CreateTopic(a, entries), env.createTopic.Accepted?), kind);
    CountNext(Issue(s, CreateTopic(a, entries), env.createTopic).calls,
              Entry(DescribeTopics, Answered(env.describeAgain).Accepted?), kind);
  }

  /** The calls of a scaling exchange. */
  predicate IsScaling(e: Entry) {
    e.call.AlterPartitionReassignments? || e.call.ListPartitionReassignments? || e.call.CreatePartitions?
  }

  lemma ApplyConnected(s: State, k: nat, n: nat, lists: seq<seq<int>>, env: Env)
    requires k <= |lists|
    ensures ApplyLists(s, k, n, lists, env).state.connected == s.connected
  {}

  lemma ApplyCount(s: State, k: nat, n: nat, lists: seq<seq<int>>, env: Env, kind: Entry -> bool)
    requires k <= |lists|
    requires forall e :: kind(e) ==> !IsScaling(e)
    ensures Count(ApplyLists(s, k, n, lists, env).state.calls, kind) == Count(s.calls, kind)
  {
    AlterCount(s, lists[..k], env, kind);
    var d, last := AlterAssignments(s, lists[..k], env), CreatePartitions(n, lists[k..]);
    if k < n && d.err.None? {
      CountNext(d.state.calls, Entry(last, env.createPartitions.Accepted?), kind);
      assert ApplyLists(s, k, n, lists, env).state == Issue(d.state, last, env.createPartitions);
    } else {
      assert ApplyLists(s, k, n, lists, env) == d;
    }
  }

  lemma AlterTopicCount(s: State, k: nat, env: Env, kind: Entry -> bool)
    requires forall e :: kind(e) ==> !IsScaling(e)
    ensures Count(AlterTopicAssignments(s, k, env).state.calls, kind) == Count(s.calls, kind)
    ensures AlterTopicAssignments(s, k, env).state.connected == s.connected
  {
    RequestedLists(k, env.brokers);
    ApplyCount(s, k, |env.brokers|, Lists(Requested(k, env.brokers)), env, kind);
    ApplyConnected(s, k, |env.brokers|, Lists(Requested(k, env.brokers)), env);
  }

  lemma ExistingCount(cfg: Config, s: State, topic: Topic, env: Env, kind: Entry -> bool)
    requires forall e :: kind(e) ==> !IsScaling(e)
    requires forall e :: kind(e) ==> !e.call.AlterConfig?
    ensures Count(Existing(cfg, s, topic, env).state.calls, kind) == Count(s.calls, kind)
    ensures Existing(cfg, s, topic, env).state.connected == s.connected
  {
    var s1 := Configured(cfg, s, env);
    ExistingBranches(cfg, s, topic, env);
    if Altering(cfg, s) {
      CountNext(s.calls, Entry(AlterConfig(cfg.topicConfig), env.alterConfig.Accepted?), kind);
    }
    if DoesScale(cfg, s, env) {
      AlterTopicCount(s1, |topic|, env, kind);
    }
  }

  /** Every admin client opened is closed before the next one is opened. */
  ghost predicate OneConnection(s: State) {
    Count(s.calls, IsOpen) == Count(s.calls, IsClose) + if s.connected then 1 else 0
  }

  lemma TopicConnection(cfg: Config, s: State, env: Env)
    requires OneConnection(s)
    ensures OneConnection(ReconcileTopic(cfg, s, env).state)
  {
    var s3 := Described(s, env);
    if !Reaches(s, env) {
      StopsCount(cfg, s, env, IsOpen);
      StopsCount(cfg, s, env, IsClose);
      ReconcileStops(cfg, s, env);
    } else {
      ReachesCount(s, env, IsOpen);
      ReachesCount(s, env, IsClose);
      ReconcileBranches(cfg, s, env);
      if s.topic.Some? {
        ExistingCount(cfg, s3, s.topic.value, env, IsOpen);
        ExistingCount(cfg, s3, s.topic.value, env, IsClose);
      } else {
        CreatingCount(cfg, s3, env, IsOpen);
        CreatingCount(cfg, s3, env, IsClose);
      }
    }
  }

  lemma {:induction false} ConnectionRun(cfg: Config, s: State, envs: seq<Env>)
    requires OneConnection(s)
    ensures OneConnection(Run(cfg, s, envs))
  {
    if envs == [] {
    } else {
      var before, env := Run(cfg, s, envs[..|envs| - 1]), envs[|envs| - 1];
      ConnectionRun(cfg, s, envs[..|envs| - 1]);
      TopicConnection(cfg, before, env);
      CloseCount(ReconcileTopic(cfg, before, env).state, IsOpen);
      CloseCount(ReconcileTopic(cfg, before, env).state, IsClose);
    }
  }

  /** Closing a broken connection changes nothing else. */
  lemma ReconcileCloses(cfg: Config, s: State, env: Env, kind: Entry -> bool)
    requires forall e :: kind(e) ==> !e.call.CloseAdmin?
    ensures var o, r := ReconcileTopic(cfg, s, env), Reconcile(cfg, s, env);
      r.result == o.result && r.err == o.err && r.state.topic == o.state.topic
      && r.state.initialized == o.state.initialized
      && Count(r.state.calls, kind) == Count(o.state.calls, kind)
  {
    CloseCount(ReconcileTopic(cfg, s, env).state, kind);
  }

  // ---------- a fixed expected size ----------

  /** With a fixed size, the topic is created only while it is missing and only for that many brokers. */
  lemma {:induction false} CreatedAtSize(cfg: Config, s: State, env: Env)
    ensures var after := Reconcile(cfg, s, env).state;
      Count(after.calls, IsCreation) != Count(s.calls, IsCreation) ==>
        s.topic.None? && (IsDynamic(cfg) || |env.brokers| == cfg.expectedClusterSize)
  {
    ReconcileCloses(cfg, s, env, IsCreation);
    if !Reaches(s, env) {
      StopsCount(cfg, s, env, IsCreation);
    } else {
      ReachesCount(s, env, IsCreation);
      ReconcileBranches(cfg, s, env);
      if s.topic.Some? {
        ExistingCount(cfg, Described(s, env), s.topic.value, env, IsCreation);
      } else if !IsDynamic(cfg) && |env.brokers| != cfg.expectedClusterSize {
        NotCreating(cfg, Described(s, env), env);
      }
    }
  }

  lemma NotCreating(cfg: Config, s: State, env: Env)
    requires !IsDynamic(cfg) && |env.brokers| != cfg.expectedClusterSize
    ensures Creating(cfg, s, env).state == s
  {}

  /** The size error means what it says: the cluster answered, the topic is missing, and a fixed size is not
      met. The topic is still missing then. */
  lemma {:induction false} SizeErrorIff(cfg: Config, s: State, env: Env)
    ensures var o := Reconcile(cfg, s, env);
      (o.err == Some(ErrExpectedClusterSize) <==>
         (s.connected || env.connect.Accepted?) && env.describeCluster.Accepted? && env.describe.Metadata?
         && s.topic.None? && cfg.expectedClusterSize != -1 && cfg.expectedClusterSize != |env.brokers|)
      && (o.err == Some(ErrExpectedClusterSize) ==> o.state.topic.None?)
  {
    if !Reaches(s, env) {
      ReconcileStops(cfg, s, env);
    } else {
      ReconcileBranches(cfg, s, env);
    }
  }

  lemma FailedScaling(s: State, topic: Topic, env: Env)
    requires Scaling(s, topic, env).err.Some?
    ensures Scaling(s, topic, env).state.initialized == s.initialized
  {
    RequestedLists(|topic|, env.brokers);
  }

  /** Start-up is over with the first success, and not before. */
  lemma {:induction false} InitializedIff(cfg: Config, s: State, env: Env)
    ensures var o := Reconcile(cfg, s, env); o.state.initialized <==> s.initialized || o.err.None?
  {
    ReconcileCloses(cfg, s, env, IsOpen);
    if Reconcile(cfg, s, env).err.None? {
      SuccessMatches(cfg, s, env);
    } else if !Reaches(s, env) {
      ReconcileStops(cfg, s, env);
    } else {
      ReconcileBranches(cfg, s, env);
      FailedBranches(cfg, Described(s, env), env);
    }
  }

  lemma FailedBranches(cfg: Config, s: State, env: Env)
    ensures s.topic.None? && Creating(cfg, s, env).err.Some? ==>
              Creating(cfg, s, env).state.initialized == s.initialized
    ensures s.topic.Some? && Existing(cfg, s, s.topic.value, env).err.Some? ==>
              Existing(cfg, s, s.topic.value, env).state.initialized == s.initialized
  {
    if s.topic.Some? {
      ExistingBranches(cfg, s, s.topic.value, env);
      if DoesScale(cfg, s, env) && Scaling(Configured(cfg, s, env), s.topic.value, env).err.Some? {
        FailedScaling(Configured(cfg, s, env), s.topic.value, env);
      }
    }
  }

  lemma FixedExisting(cfg: Config, s: State, topic: Topic, env: Env)
    requires !IsDynamic(cfg) && s.initialized
    ensures Existing(cfg, s, topic, env).state == s
  {}

  lemma FixedTopic(cfg: Config, s: State, env: Env)
    requires !IsDynamic(cfg) && s.initialized && s.topic.Some?
    ensures var after := ReconcileTopic(cfg, s, env).state;
      after.initialized && after.topic == s.topic && Count(after.calls, IsChange) == Count(s.calls, IsChange)
  {
    if !Reaches(s, env) {
      StopsCount(cfg, s, env, IsChange);
      ReconcileStops(cfg, s, env);
    } else {
      ReachesCount(s, env, IsChange);
      ReconcileBranches(cfg, s, env);
      FixedExisting(cfg, Described(s, env), s.topic.value, env);
    }
  }

  lemma FixedStep(cfg: Config, s: State, env: Env)
    requires !IsDynamic(cfg) && s.initialized && s.topic.Some?
    ensures var after := Reconcile(cfg, s, env).state;
      after.initialized && after.topic == s.topic && Count(after.calls, IsChange) == Count(s.calls, IsChange)
  {
    FixedTopic(cfg, s, env);
    ReconcileCloses(cfg, s, env, IsChange);
  }

  lemma {:induction false} FixedRun(cfg: Config, s: State, envs: seq<Env>)
    requires !IsDynamic(cfg) && s.initialized && s.topic.Some?
    ensures var after := Run(cfg, s, envs);
      after.initialized && after.topic == s.topic && Count(after.calls, IsChange) == Count(s.calls, IsChange)
  {
    if envs == [] {
    } else {
      FixedRun(cfg, s, envs[..|envs| - 1]);
      FixedStep(cfg, Run(cfg, s, envs[..|envs| - 1]), envs[|envs| - 1]);
    }
  }

  /** With a fixed size, nothing is asked to change any more after the first successful reconcile, whatever
      brokers come and go. */
  lemma {:induction false} FixedAfterSuccess(cfg: Config, s: State, env: Env, envs: seq<Env>)
    requires !IsDynamic(cfg) && Reconcile(cfg, s, env).err.None?
    ensures var first := Reconcile(cfg, s, env);
      var after := Run(cfg, first.state, envs);
      Count(after.calls, IsChange) == Count(first.state.calls, IsChange)
      && after.topic.Some? && AsMap(after.topic.value) == first.result.assignments
  {
    SuccessMatches(cfg, s, env);
    FixedRun(cfg, Reconcile(cfg, s, env).state, envs);
  }

  predicate IsReassignment(e: Entry) {
    e.call.AlterPartitionReassignments?
  }

  lemma FirstReassignment(cfg: Config, s: State, env: Env)
    requires !IsDynamic(cfg) && !s.initialized && s.topic.Some?
    requires Existing(cfg, s, s.topic.value, env).err.None?
    ensures var o := Existing(cfg, s, s.topic.value, env);
      if |env.brokers| == cfg.expectedClusterSize
      then Count(o.state.calls, IsReassignment) == Count(s.calls, IsReassignment) + 1
      else Count(o.state.calls, IsReassignment) == Count(s.calls, IsReassignment) && o.state.topic == s.topic
  {
    var k, n := |s.topic.value|, |env.brokers|;
    var s1 := if |cfg.topicConfig| != 0 then Issue(s, AlterConfig(cfg.topicConfig), env.alterConfig) else s;
    CountNext(s.calls, Entry(AlterConfig(cfg.topicConfig), env.alterConfig.Accepted?), IsReassignment);
    if n == cfg.expectedClusterSize {
      RequestedLists(k, env.brokers);
      ApplyReassigns(s1, k, n, Lists(Requested(k, env.brokers)), env);
    }
  }

  lemma AlterReassigns(s: State, lists: seq<seq<int>>, env: Env)
    ensures Count(AlterAssignments(s, lists, env).state.calls, IsReassignment) == Count(s.calls, IsReassignment) + 1
  {
    CountNext(s.calls, Entry(AlterPartitionReassignments(lists), env.reassign.Accepted?), IsReassignment);
    if env.reassign.Accepted? {
      var s1 := Issue(s, AlterPartitionReassignments(lists), env.reassign);
      CountNone(s1.calls, PollEntries(PartitionIds(|lists|), env), IsReassignment);
    }
  }

  lemma ApplyReassigns(s: State, k: nat, n: nat, lists: seq<seq<int>>, env: Env)
    requires k <= |lists|
    ensures Count(ApplyLists(s, k, n, lists, env).state.calls, IsReassignment) == Count(s.calls, IsReassignment) + 1
  {
    AlterReassigns(s, lists[..k], env);
    var d := AlterAssignments(s, lists[..k], env);
    var last := Entry(CreatePartitions(n, lists[k..]), env.createPartitions.Accepted?);
    if k < n && d.err.None? {
      CountNext(d.state.calls, last, IsReassignment);
      assert ApplyLists(s, k, n, lists, env).state.calls == d.state.calls + [last];
    } else {
      assert ApplyLists(s, k, n, lists, env) == d;
    }
  }

  /** Started with a fixed size on a topic that exists, the service does not wait for that size: it asks for a
      reassignment in its first successful reconcile if and only if the size is met then; otherwise the topic
      stays as it was found, also when the cluster reaches the expected size later. */
  lemma {:induction false} LateCluster(cfg: Config, s: State, env: Env, envs: seq<Env>)
    requires !IsDynamic(cfg) && !s.initialized && s.topic.Some? && Reconcile(cfg, s, env).err.None?
    ensures var o := Reconcile(cfg, s, env);
      (Count(o.state.calls, IsReassignment) > Count(s.calls, IsReassignment)
       <==> |env.brokers| == cfg.expectedClusterSize)
      && (|env.brokers| != cfg.expectedClusterSize ==> Run(cfg, o.state, envs).topic == s.topic)
  {
    DescribedCount(s, env, IsReassignment);
    ReconcileCloses(cfg, s, env, IsReassignment);
    SuccessMatches(cfg, s, env);
    if !Reaches(s, env) {
      ReconcileStops(cfg, s, env);
    } else {
      ReconcileBranches(cfg, s, env);
      FirstReassignment(cfg, Described(s, env), env);
    }
    FixedRun(cfg, Reconcile(cfg, s, env).state, envs);
  }

  // ---------- success ----------

  /** The cluster grants every request that the branch for the topic as it is makes. */
  ghost predicate Grants(cfg: Config, s: State, env: Env) {
    match s.topic
    case None =>
      (IsDynamic(cfg) || cfg.expectedClusterSize == |env.brokers|) && env.createTopic.Accepted?
      && !env.describeAgain.NoMetadata?
    case Some(topic) =>
      (Altering(cfg, s) ==> env.alterConfig.Accepted?)
      && (DoesScale(cfg, s, env) ==>
            env.reassign.Accepted? && (|topic| < |env.brokers| ==> env.createPartitions.Accepted?))
  }

  lemma ScalingSucceedsIff(s: State, topic: Topic, env: Env)
    ensures Scaling(s, topic, env).err.None? <==>
            env.reassign.Accepted? && (|topic| < |env.brokers| ==> env.createPartitions.Accepted?)
  {
    RequestedLists(|topic|, env.brokers);
  }

  lemma ExistingSucceedsIff(cfg: Config, s: State, env: Env)
    requires s.topic.Some?
    ensures Existing(cfg, s, s.topic.value, env).err.None? <==> Grants(cfg, s, env)
  {
    ExistingBranches(cfg, s, s.topic.value, env);
    ScalingSucceedsIff(Configured(cfg, s, env), s.topic.value, env);
  }

  lemma CreatingSucceedsIff(cfg: Config, s: State, env: Env)
    requires s.topic.None?
    ensures Creating(cfg, s, env).err.None? <==> Grants(cfg, s, env)
  {}

  /** A reconcile succeeds if and only if its calls up to the metadata succeed and the cluster grants what is
      asked for then. A failing poll of the reassignment is no obstacle. */
  lemma {:induction false} SucceedsIff(cfg: Config, s: State, env: Env)
    ensures Reconcile(cfg, s, env).err.None? <==> Reaches(s, env) && Grants(cfg, s, env)
  {
    if !Reaches(s, env) {
      ReconcileStops(cfg, s, env);
    } else {
      ReconcileBranches(cfg, s, env);
      if s.topic.Some? {
        ExistingSucceedsIff(cfg, Described(s, env), env);
      } else {
        CreatingSucceedsIff(cfg, Described(s, env), env);
      }
    }
  }

  // ---------- dynamic reassignment with steady brokers ----------

  /** The topic is laid out for exactly these brokers, and has one partition each or more. */
  ghost predicate Settled(s: State, brokers: seq<Broker>) {
    s.topic.Some? && |s.topic.value| >= |brokers|
    && AsMap(s.topic.value) == Requested(|s.topic.value|, brokers)
  }

  lemma ListsOfMap(topic: Topic)
    ensures Lists(AsMap(topic)) == topic && |AsMap(topic)| == |topic|
  {
    CardOfPrefixMap(AsMap(topic), |topic|);
  }

  lemma {:induction false} SettledAfterSuccess(cfg: Config, s: State, env: Env)
    requires IsDynamic(cfg) && Reconcile(cfg, s, env).err.None?
    ensures var o := Reconcile(cfg, s, env);
      Settled(o.state, env.brokers) && o.result.assignments == Requested(|o.state.topic.value|, env.brokers)
      && (o.result.refreshProducerMetadata <==> s.topic.Some? && |env.brokers| != |s.topic.value|)
  {
    SuccessMatches(cfg, s, env);
    ReconcileBranches(cfg, s, env);
    RequestedLists(Partitions(s.topic), env.brokers);
    DynamicResult(cfg, Described(s, env), env);
  }

  lemma DynamicResult(cfg: Config, s: State, env: Env)
    requires IsDynamic(cfg)
    ensures s.topic.None? ==> Creating(cfg, s, env).result.assignments == Requested(0, env.brokers)
    ensures s.topic.Some? && Existing(cfg, s, s.topic.value, env).err.None? ==>
            Existing(cfg, s, s.topic.value, env).result.assignments == Requested(|s.topic.value|, env.brokers)
    ensures s.topic.None? ==> !Creating(cfg, s, env).result.refreshProducerMetadata
    ensures s.topic.Some? && Existing(cfg, s, s.topic.value, env).err.None? ==>
            (Existing(cfg, s, s.topic.value, env).result.refreshProducerMetadata <==> |env.brokers| != |s.topic.value|)
  {}

  lemma SettledApply(s: State, env: Env)
    requires GoodEnv(env) && Settled(s, env.brokers)
    ensures AlterTopicAssignments(s, |s.topic.value|, env).state.topic == s.topic
    ensures Count(AlterTopicAssignments(s, |s.topic.value|, env).state.calls, IsGrowth) == Count(s.calls, IsGrowth)
  {
    var k := |s.topic.value|;
    ListsOfMap(s.topic.value);
    RequestedLists(k, env.brokers);
    assert s.topic.value[..k] + s.topic.value[k..] == s.topic.value;
    AlterCount(s, s.topic.value[..k], env, IsGrowth);
  }

  /** Once laid out for the brokers there are, no reconcile changes the topic, failing or not, in whatever
      order it sees them; a successful one answers the same assignment, and asks for a metadata refresh
      exactly when there are more partitions than brokers. */
  lemma {:induction false} SteadyStep(cfg: Config, s: State, env: Env, brokers: seq<Broker>)
    requires IsDynamic(cfg) && GoodEnv(env) && DistinctIds(brokers) && Elems(env.brokers) == Elems(brokers)
    requires Settled(s, brokers)
    ensures var o := Reconcile(cfg, s, env);
      o.state.topic == s.topic && Count(o.state.calls, IsGrowth) == Count(s.calls, IsGrowth)
      && (o.err.None? ==>
            o.result.assignments == AsMap(s.topic.value)
            && (o.result.refreshProducerMetadata <==> |s.topic.value| > |brokers|))
  {
    PlacementFromSet(|s.topic.value|, env.brokers, brokers);
    OrderFromSet(env.brokers, brokers);
    ReconcileCloses(cfg, s, env, IsGrowth);
    SteadyTopic(cfg, s, env);
  }

  lemma SteadyTopic(cfg: Config, s: State, env: Env)
    requires IsDynamic(cfg) && GoodEnv(env) && Settled(s, env.brokers)
    ensures var o := ReconcileTopic(cfg, s, env);
      o.state.topic == s.topic && Count(o.state.calls, IsGrowth) == Count(s.calls, IsGrowth)
      && (o.err.None? ==>
            o.result.assignments == AsMap(s.topic.value)
            && (o.result.refreshProducerMetadata <==> |s.topic.value| > |env.brokers|))
  {
    if !Reaches(s, env) {
      StopsCount(cfg, s, env, IsGrowth);
      ReconcileStops(cfg, s, env);
    } else {
      ReachesCount(s, env, IsGrowth);
      ReconcileBranches(cfg, s, env);
      SteadyExisting(cfg, Described(s, env), env);
    }
  }

  lemma SteadyExisting(cfg: Config, s: State, env: Env)
    requires IsDynamic(cfg) && GoodEnv(env) && Settled(s, env.brokers)
    ensures var o := Existing(cfg, s, s.topic.value, env);
      o.state.topic == s.topic && Count(o.state.calls, IsGrowth) == Count(s.calls, IsGrowth)
      && (o.err.None? ==>
            o.result.assignments == AsMap(s.topic.value)
            && (o.result.refreshProducerMetadata <==> |s.topic.value| > |env.brokers|))
  {
    if !s.initialized && |cfg.topicConfig| != 0 {
      CountNext(s.calls, Entry(AlterConfig(cfg.topicConfig), env.alterConfig.Accepted?), IsGrowth);
      SteadyScaling(Issue(s, AlterConfig(cfg.topicConfig), env.alterConfig), env);
    } else {
      SteadyScaling(s, env);
    }
  }

  lemma SteadyScaling(s: State, env: Env)
    requires GoodEnv(env) && Settled(s, env.brokers)
    ensures var o := Scaling(s, s.topic.value, env);
      o.state.topic == s.topic && Count(o.state.calls, IsGrowth) == Count(s.calls, IsGrowth)
      && o.result.assignments == AsMap(s.topic.value)
      && (o.result.refreshProducerMetadata <==> |s.topic.value| > |env.brokers|)
  {
    SettledApply(s, env);
  }

  lemma {:induction false} SteadyRun(cfg: Config, s: State, envs: seq<Env>, brokers: seq<Broker>)
    requires IsDynamic(cfg) && DistinctIds(brokers) && Settled(s, brokers)
    requires forall env :: env in envs ==> GoodEnv(env) && Elems(env.brokers) == Elems(brokers)
    ensures var after := Run(cfg, s, envs);
      after.topic == s.topic && Count(after.calls, IsGrowth) == Count(s.calls, IsGrowth)
  {
    if envs == [] {
    } else {
      SteadyRun(cfg, s, envs[..|envs| - 1], brokers);
      SteadyStep(cfg, Run(cfg, s, envs[..|envs| - 1]), envs[|envs| - 1], brokers);
    }
  }

  /** From a first success on, with steady brokers: any later success answers what the first one did. */
  lemma {:induction false} SteadyAfterSuccess(cfg: Config, s: State, first: Env, envs: seq<Env>, last: Env)
    requires IsDynamic(cfg) && GoodEnv(first) && Reconcile(cfg, s, first).err.None?
    requires forall env :: env in envs + [last] ==> GoodEnv(env) && Elems(env.brokers) == Elems(first.brokers)
    ensures var o := Reconcile(cfg, s, first);
      var later := Reconcile(cfg, Run(cfg, o.state, envs), last);
      Count(later.state.calls, IsGrowth) == Count(o.state.calls, IsGrowth)
      && (later.err.None? ==>
            later.result.assignments == o.result.assignments
            && (later.result.refreshProducerMetadata <==> |o.result.assignments| > |first.brokers|))
  {
    var o := Reconcile(cfg, s, first);
    SuccessMatches(cfg, s, first);
    SettledAfterSuccess(cfg, s, first);
    assert last in envs + [last] && forall env :: env in envs ==> env in envs + [last];
    SteadyRun(cfg, o.state, envs, first.brokers);
    SteadyStep(cfg, Run(cfg, o.state, envs), last, first.brokers);
  }

  // ---------- the topic's configuration ----------

  predicate IsConfiguration(e: Entry) {
    e.call.AlterConfig?
  }

  lemma ExistingConfiguration(cfg: Config, s: State, topic: Topic, env: Env)
    ensures Count(Existing(cfg, s, topic, env).state.calls, IsConfiguration) ==
            Count(s.calls, IsConfiguration) + if !s.initialized && |cfg.topicConfig| != 0 then 1 else 0
    ensures s.initialized ==> Existing(cfg, s, topic, env).state.initialized
  {
    if !s.initialized && |cfg.topicConfig| != 0 {
      CountNext(s.calls, Entry(AlterConfig(cfg.topicConfig), env.alterConfig.Accepted?), IsConfiguration);
      AlterTopicCount(Issue(s, AlterConfig(cfg.topicConfig), env.alterConfig), |topic|, env, IsConfiguration);
    } else {
      AlterTopicCount(s, |topic|, env, IsConfiguration);
    }
    KeepsInitialized(s, topic, env);
  }

  lemma KeepsInitialized(s: State, topic: Topic, env: Env)
    ensures AlterTopicAssignments(s, |topic|, env).state.initialized == s.initialized
  {
    RequestedLists(|topic|, env.brokers);
  }

  /** The configuration of an existing topic is altered by every reconcile until the first that succeeds,
      once each, and by none after that. */
  lemma {:induction false} ConfigurationStep(cfg: Config, s: State, env: Env)
    ensures var after := Reconcile(cfg, s, env).state;
      Count(after.calls, IsConfiguration) == Count(s.calls, IsConfiguration)
        + (if Reaches(s, env) && s.topic.Some? && !s.initialized && |cfg.topicConfig| != 0 then 1 else 0)
      && (s.initialized ==> after.initialized)
  {
    ReconcileCloses(cfg, s, env, IsConfiguration);
    if !Reaches(s, env) {
      StopsCount(cfg, s, env, IsConfiguration);
      ReconcileStops(cfg, s, env);
    } else {
      ReachesCount(s, env, IsConfiguration);
      ReconcileBranches(cfg, s, env);
      if s.topic.Some? {
        ExistingConfiguration(cfg, Described(s, env), s.topic.value, env);
      } else {
        CreatingCount(cfg, Described(s, env), env, IsConfiguration);
        CreatingInitialized(cfg, Described(s, env), env);
      }
    }
  }

  lemma CreatingInitialized(cfg: Config, s: State, env: Env)
    ensures s.initialized ==> Creating(cfg, s, env).state.initialized
  {}

  lemma {:induction false} ConfigurationRun(cfg: Config, s: State, envs: seq<Env>)
    requires s.initialized
    ensures Run(cfg, s, envs).initialized
    ensures Count(Run(cfg, s, envs).calls, IsConfiguration) == Count(s.calls, IsConfiguration)
  {
    if envs == [] {
    } else {
      ConfigurationRun(cfg, s, envs[..|envs| - 1]);
      ConfigurationStep(cfg, Run(cfg, s, envs[..|envs| - 1]), envs[|envs| - 1]);
    }
  }

  /** A new topic deletes old records and asks for minISR replicas in sync, whatever the user configured. */
  lemma CreationOverrides(cfg: Config, n: nat)
    ensures var entries := CreationConfig(cfg, MinISR(n));
      entries.Keys == cfg.topicConfig.Keys + {"cleanup.policy", "min.insync.replicas"}
      && entries["cleanup.policy"] == "delete" && entries["min.insync.replicas"] == (if n <= 2 then "1" else "2")
      && forall key :: key in cfg.topicConfig && key != "cleanup.policy" && key != "min.insync.replicas" ==>
                         key in entries && entries[key] == cfg.topicConfig[key]
  {
    assert Itoa(1) == "1" && Itoa(2) == "2";
  }
}
