/** What reconciling keeps, over every run of scale-ups, scale-downs and failing admin calls. */
module TopicFacts {
  import opened Options
  import opened Placement
  import opened PlacementFacts
  import opened TopicModel

  // ---------- counting calls ----------

  function Count(calls: seq<Entry>, kind: Entry -> bool): nat {
    if calls == [] then 0 else Count(calls[..|calls| - 1], kind) + if kind(calls[|calls| - 1]) then 1 else 0
  }

  lemma CountNext(calls: seq<Entry>, e: Entry, kind: Entry -> bool)
    ensures Count(calls + [e], kind) == Count(calls, kind) + if kind(e) then 1 else 0
  {
    assert (calls + [e])[..|calls|] == calls;
  }

  lemma {:induction false} CountNone(calls: seq<Entry>, more: seq<Entry>, kind: Entry -> bool)
    requires forall i :: 0 <= i < |more| ==> !kind(more[i])
    ensures Count(calls + more, kind) == Count(calls, kind)
  {
    if more == [] {
      assert calls + more == calls;
    } else {
      var init := more[..|more| - 1];
      CountNone(calls, init, kind);
      CountNext(calls + init, more[|more| - 1], kind);
      assert calls + more == calls + init + [more[|more| - 1]];
    }
  }

  /** Calls that took effect and gave the topic its partitions, or more of them. */
  predicate IsGrowth(e: Entry) {
    e.accepted && (e.call.CreateTopic? || e.call.CreatePartitions?)
  }

  /** Calls that ask for any change of the topic. */
  predicate IsChange(e: Entry) {
    e.call.AlterConfig? || e.call.CreateTopic? || e.call.AlterPartitionReassignments? || e.call.CreatePartitions?
  }

  predicate IsCreation(e: Entry) {
    e.call.CreateTopic?
  }

  predicate IsOpen(e: Entry) {
    e.accepted && e.call.NewClusterAdmin?
  }

  predicate IsClose(e: Entry) {
    e.accepted && e.call.CloseAdmin?
  }

  ghost function Partitions(topic: Option<Topic>): nat {
    if topic.Some? then |topic.value| else 0
  }

  // ---------- scaling up: the call protocol ----------

  /** `added` is a legal exchange for moving k partitions to the given lists on n brokers: the existing
      partitions are reassigned first; partitions are added, as the last call, if and only if that was
      accepted and there are fewer than brokers; and the two requests together are the whole assignment. */
  ghost predicate ScaleExchange(added: seq<Entry>, k: nat, n: nat, lists: seq<seq<int>>)
    requires k <= |lists|
  {
    added != []
    && added[0].call == AlterPartitionReassignments(lists[..k])
    && (forall i :: 0 < i < |added| - 1 ==> added[i].call == ListPartitionReassignments(PartitionIds(k)))
    && (added[|added| - 1].call.CreatePartitions? <==> added[0].accepted && k < n)
    && (added[|added| - 1].call.CreatePartitions? ==>
          var more := added[|added| - 1].call;
          more.count == k + |more.lists| == n && lists == lists[..k] + more.lists)
  }

  /** The topic afterwards: exactly the lists, or on failure as many partitions as before. */
  lemma ApplyTopic(s: State, k: nat, n: nat, lists: seq<seq<int>>, env: Env)
    requires s.topic.Some? && |s.topic.value| == k && |lists| == Max(k, n)
    ensures var d := ApplyLists(s, k, n, lists, env);
      (d.err.None? ==> d.state.topic == Some(lists))
      && (d.err.Some? ==> d.state.topic.Some? && |d.state.topic.value| == k)
      && d.state.connected == s.connected && d.state.initialized == s.initialized
  {
    assert lists[..k] + s.topic.value[k..] == lists[..k];
    assert lists[..k] + lists[k..] == lists;
  }

  lemma {:induction false} ApplyProtocol(s: State, k: nat, n: nat, lists: seq<seq<int>>, env: Env)
    requires |lists| == Max(k, n)
    ensures var d := ApplyLists(s, k, n, lists, env);
      s.calls < d.state.calls && ScaleExchange(d.state.calls[|s.calls|..], k, n, lists)
  {
    var d := ApplyLists(s, k, n, lists, env);
    assert lists[..k] + lists[k..] == lists;
    var first := [Entry(AlterPartitionReassignments(lists[..k]), env.reassign.Accepted?)];
    var polls := PollEntries(PartitionIds(k), env);
    var last := [Entry(CreatePartitions(n, lists[k..]), env.createPartitions.Accepted?)];
    if env.reassign.Refused? {
      assert d.state.calls[|s.calls|..] == first;
    } else if k < n {
      assert d.state.calls[|s.calls|..] == first + polls + last;
    } else {
      assert d.state.calls[|s.calls|..] == first + polls;
    }
  }

  /** The exchange of a scaling reconcile, and the topic after it: on success every partition has the
      requested replicas, min(n, 3) of them; on failure the partition count is the old one. */
  lemma {:induction false} ScaleProtocol(s: State, env: Env)
    requires GoodEnv(env) && s.topic.Some?
    ensures var k, n := |s.topic.value|, |env.brokers|;
      var d, lists := AlterTopicAssignments(s, k, env), Lists(Requested(k, env.brokers));
      |lists| == Max(k, n) && s.calls < d.state.calls && ScaleExchange(d.state.calls[|s.calls|..], k, n, lists)
      && (d.err.None? ==> d.state.topic == Some(lists) && forall p :: 0 <= p < |lists| ==> |lists[p]| == Min(n, 3))
      && (d.err.Some? ==> Partitions(d.state.topic) == k)
  {
    var k := |s.topic.value|;
    RequestedLists(k, env.brokers);
    var a := Requested(k, env.brokers);
    ApplyProtocol(s, k, |env.brokers|, Lists(a), env);
    ApplyTopic(s, k, |env.brokers|, Lists(a), env);
    forall p | 0 <= p < |Lists(a)|
      ensures |Lists(a)[p]| == Min(|env.brokers|, 3)
    {
      assert p in AsMap(Lists(a));
      ReplicasDistinct(k, env.brokers, p);
    }
  }

  // ---------- one reconcile ----------

  /** The partition count after the step, told from the calls that took effect. */
  ghost predicate Sized(s: State, o: State, n: nat) {
    Count(o.calls, IsGrowth) >= Count(s.calls, IsGrowth)
    && (s.topic.Some? ==> o.topic.Some?)
    && Partitions(o.topic) ==
       if Count(o.calls, IsGrowth) > Count(s.calls, IsGrowth) then Max(Partitions(s.topic), n) else Partitions(s.topic)
  }

  lemma AlterCount(s: State, lists: seq<seq<int>>, env: Env, kind: Entry -> bool)
    requires forall e :: kind(e) ==> !e.call.AlterPartitionReassignments? && !e.call.ListPartitionReassignments?
    ensures Count(AlterAssignments(s, lists, env).state.calls, kind) == Count(s.calls, kind)
  {
    CountNext(s.calls, Entry(AlterPartitionReassignments(lists), env.reassign.Accepted?), kind);
    CountNone(Issue(s, AlterPartitionReassignments(lists), env.reassign).calls,
        PollEntries(PartitionIds(|lists|), env), kind);
  }

  lemma ApplySized(s: State, k: nat, n: nat, lists: seq<seq<int>>, env: Env)
    requires s.topic.Some? && |s.topic.value| == k && |lists| == Max(k, n)
    ensures Sized(s, ApplyLists(s, k, n, lists, env).state, n)
  {
    AlterCount(s, lists[..k], env, IsGrowth);
    var s2 := AlterAssignments(s, lists[..k], env).state;
    CountNext(s2.calls, Entry(CreatePartitions(n, lists[k..]), env.createPartitions.Accepted?), IsGrowth);
    ApplyTopic(s, k, n, lists, env);
  }

  lemma AlterSized(s: State, env: Env)
    requires s.topic.Some?
    ensures Sized(s, AlterTopicAssignments(s, |s.topic.value|, env).state, |env.brokers|)
  {
    RequestedLists(|s.topic.value|, env.brokers);
    ApplySized(s, |s.topic.value|, |env.brokers|, Lists(Requested(|s.topic.value|, env.brokers)), env);
  }

  /** The topic after a creation, and the calls. */
  lemma CreateEffect(s: State, a: map<int, seq<int>>, entries: map<string, string>, env: Env)
    ensures var o, creation := CreateWith(s, a, entries, env).state, Entry(CreateTopic(a, entries), true);
      var asked := Entry(DescribeTopics, !env.describeAgain.NoMetadata?);
      if env.createTopic.Accepted? then o.topic == Some(Lists(a)) && o.calls == s.calls + [creation] + [asked]
      else o.topic == s.topic && o.calls == s.calls + [creation.(accepted := false)]
  {}

  lemma CreateSized(s: State, a: map<int, seq<int>>, entries: map<string, string>, env: Env)
    requires s.topic.None?
    ensures Sized(s, CreateWith(s, a, entries, env).state, |a|)
  {
    var creation, asked := CreateTopic(a, entries), Entry(DescribeTopics, !env.describeAgain.NoMetadata?);
    CreateEffect(s, a, entries, env);
    CountNext(s.calls, Entry(creation, env.createTopic.Accepted?), IsGrowth);
    CountNext(s.calls + [Entry(creation, true)], asked, IsGrowth);
  }

  lemma CreatingSized(cfg: Config, s: State, env: Env)
    requires s.topic.None?
    ensures Sized(s, Creating(cfg, s, env).state, |env.brokers|)
  {
    RequestedLists(0, env.brokers);
    CreateSized(s, Requested(0, env.brokers), CreationConfig(cfg, MinISR(|env.brokers|)), env);
  }

  lemma ScalingSized(s: State, env: Env)
    requires s.topic.Some?
    ensures Sized(s, Scaling(s, s.topic.value, env).state, |env.brokers|)
  {
    AlterSized(s, env);
  }

  /** The request to alter the configuration has no part in it. */
  lemma AlterConfigSized(cfg: Config, s: State, env: Env, o: State, n: nat)
    requires Sized(Issue(s, AlterConfig(cfg.topicConfig), env.alterConfig), o, n)
    ensures Sized(s, o, n)
  {
    CountNext(s.calls, Entry(AlterConfig(cfg.topicConfig), env.alterConfig.Accepted?), IsGrowth);
  }

  predicate Altering(cfg: Config, s: State) {
    !s.initialized && |cfg.topicConfig| != 0
  }

  /** The state after the configuration request, if there is one. */
  ghost function Configured(cfg: Config, s: State, env: Env): State {
    if Altering(cfg, s) then Issue(s, AlterConfig(cfg.topicConfig), env.alterConfig) else s
  }

  predicate DoesScale(cfg: Config, s: State, env: Env) {
    IsDynamic(cfg) || (!s.initialized && cfg.expectedClusterSize == |env.brokers|)
  }

  lemma ExistingBranches(cfg: Config, s: State, topic: Topic, env: Env)
    ensures var s1 := Configured(cfg, s, env);
      Existing(cfg, s, topic, env) ==
      if Altering(cfg, s) && env.alterConfig.Refused? then Outcome(s1, NO_RESULT, ErrorOf(env.alterConfig))
      else if DoesScale(cfg, s, env) then Scaling(s1, topic, env)
      else Outcome(s1.(initialized := true), Result(AsMap(topic), Leaders(|topic|, env), false), None)
  {}

  lemma ConfiguredSized(cfg: Config, s: State, env: Env, o: State, n: nat)
    requires Sized(Configured(cfg, s, env), o, n)
    ensures Sized(s, o, n)
  {
    if Altering(cfg, s) {
      AlterConfigSized(cfg, s, env, o, n);
    }
  }

  lemma ExistingSized(cfg: Config, s: State, env: Env)
    requires s.topic.Some?
    ensures Sized(s, Existing(cfg, s, s.topic.value, env).state, |env.brokers|)
  {
    var s1, o := Configured(cfg, s, env), Existing(cfg, s, s.topic.value, env).state;
    ExistingBranches(cfg, s, s.topic.value, env);
    if !(Altering(cfg, s) && env.alterConfig.Refused?) && DoesScale(cfg, s, env) {
      ScalingSized(s1, env);
    }
    ConfiguredSized(cfg, s, env, o, |env.brokers|);
  }

  /** The state in which the two branches start. */
  ghost function Described(s: State, env: Env): State {
    Issue(Issue(Connected(s, env), DescribeCluster, env.describeCluster), DescribeTopics, Answered(env.describe))
  }

  ghost function Opens(s: State, env: Env, kind: Entry -> bool): nat {
    if s.connected then 0 else if kind(Entry(NewClusterAdmin, env.connect.Accepted?)) then 1 else 0
  }

  /** The calls up to that point count for nothing but opening the connection. */
  lemma DescribedCount(s: State, env: Env, kind: Entry -> bool)
    requires forall e :: kind(e) ==> !e.call.DescribeCluster? && !e.call.DescribeTopics?
    ensures var opens := Opens(s, env, kind);
      var s1 := Connected(s, env);
      Count(s1.calls, kind) == Count(s.calls, kind) + opens
      && Count(Issue(s1, DescribeCluster, env.describeCluster).calls, kind) == Count(s.calls, kind) + opens
      && Count(Described(s, env).calls, kind) == Count(s.calls, kind) + opens
  {
    CountNext(s.calls, Entry(NewClusterAdmin, env.connect.Accepted?), kind);
    var s1 := Connected(s, env);
    CountNext(s1.calls, Entry(DescribeCluster, env.describeCluster.Accepted?), kind);
    CountNext(Issue(s1, DescribeCluster, env.describeCluster).calls,
        Entry(DescribeTopics, Answered(env.describe).Accepted?), kind);
  }

  lemma CloseCount(s: State, kind: Entry -> bool)
    ensures Count(Close(s).calls, kind)
            == Count(s.calls, kind) + if s.connected && kind(Entry(CloseAdmin, true)) then 1 else 0
  {
    CountNext(s.calls, Entry(CloseAdmin, true), kind);
  }

  /** Whether the calls before the two branches all succeed. */
  ghost predicate Reaches(s: State, env: Env) {
    Connected(s, env).connected && env.describeCluster.Accepted? && env.describe.Metadata?
  }

  lemma ReconcileBranches(cfg: Config, s: State, env: Env)
    requires Reaches(s, env)
    ensures ReconcileTopic(cfg, s, env) ==
            if s.topic.Some? then Existing(cfg, Described(s, env), s.topic.value, env)
            else Creating(cfg, Described(s, env), env)
    ensures Described(s, env).topic == s.topic && Described(s, env).initialized == s.initialized
    ensures Described(s, env).connected
  {}

  lemma ReconcileStops(cfg: Config, s: State, env: Env)
    requires !Reaches(s, env)
    ensures var o, s1 := ReconcileTopic(cfg, s, env), Connected(s, env);
      o.err.Some? && o.state.topic == s.topic && o.state.initialized == s.initialized
      && o.state.connected == s1.connected
      && (o.state.calls == s1.calls || o.state.calls == Issue(s1, DescribeCluster, env.describeCluster).calls
          || o.state.calls == Described(s, env).calls)
  {}

  /** What a reconcile that stops early counts: opening the connection at most. */
  lemma StopsCount(cfg: Config, s: State, env: Env, kind: Entry -> bool)
    requires !Reaches(s, env)
    requires forall e :: kind(e) ==> !e.call.DescribeCluster? && !e.call.DescribeTopics?
    ensures Count(ReconcileTopic(cfg, s, env).state.calls, kind) == Count(s.calls, kind) + Opens(s, env, kind)
  {
    DescribedCount(s, env, kind);
    ReconcileStops(cfg, s, env);
  }

  /** What a reconcile counts before it branches. */
  lemma ReachesCount(s: State, env: Env, kind: Entry -> bool)
    requires forall e :: kind(e) ==> !e.call.DescribeCluster? && !e.call.DescribeTopics?
    ensures Count(Described(s, env).calls, kind) == Count(s.calls, kind) + Opens(s, env, kind)
  {
    DescribedCount(s, env, kind);
  }

  lemma TopicSized(cfg: Config, s: State, env: Env)
    ensures Sized(s, ReconcileTopic(cfg, s, env).state, |env.brokers|)
  {
    if !Reaches(s, env) {
      StopsCount(cfg, s, env, IsGrowth);
      ReconcileStops(cfg, s, env);
    } else {
      ReachesCount(s, env, IsGrowth);
      ReconcileBranches(cfg, s, env);
      if s.topic.Some? {
        ExistingSized(cfg, Described(s, env), env);
      } else {
        CreatingSized(cfg, Described(s, env), env);
      }
    }
  }

  /** One reconcile leaves the larger of the partition count and the broker count, if a creation took
      effect in it, and otherwise the partition count. */
  lemma {:induction false} StepSized(cfg: Config, s: State, env: Env)
    ensures Sized(s, Reconcile(cfg, s, env).state, |env.brokers|)
  {
    TopicSized(cfg, s, env);
    CloseCount(ReconcileTopic(cfg, s, env).state, IsGrowth);
  }

  /** After a successful reconcile the cluster's replicas are the assignment in the result. */
  lemma {:induction false} SuccessMatches(cfg: Config, s: State, env: Env)
    requires Reconcile(cfg, s, env).err.None?
    ensures var o := Reconcile(cfg, s, env);
      o.state.topic.Some? && o.result.assignments == AsMap(o.state.topic.value)
      && (forall p :: 0 <= p < |o.state.topic.value| ==>
            p in o.result.assignments && o.result.assignments[p] == o.state.topic.value[p])
      && |o.result.assignments| == |o.state.topic.value|
      && o.state.initialized && o.state.connected
      && (forall p :: p in o.result.leaders ==> p in o.result.assignments && o.result.leaders[p] == env.leader(p))
      && (s.topic.Some? ==> forall p :: 0 <= p < |s.topic.value| ==> p in o.result.leaders)
  {
    if !Reaches(s, env) {
      ReconcileStops(cfg, s, env);
    } else {
      ReconcileBranches(cfg, s, env);
      if s.topic.None? {
        CreatingMatches(cfg, Described(s, env), env);
      } else {
        ExistingMatches(cfg, Described(s, env), env);
      }
    }
  }

  /** What a successful reconcile answers, in every mode. The assignment is the requested one for a new topic,
      or one that had to be laid out again, and otherwise the one there is. Leaders are reported for exactly the
      partitions the topic had when it was last described. The producer's metadata is to be refreshed exactly
      when the topic was laid out again and did not have one partition per broker. */
  lemma {:induction false} SuccessResult(cfg: Config, s: State, env: Env)
    requires Reconcile(cfg, s, env).err.None?
    ensures var r, n := Reconcile(cfg, s, env).result, |env.brokers|;
      var anew := cfg.expectedClusterSize == -1 || (!s.initialized && cfg.expectedClusterSize == n);
      match s.topic
      case None =>
        r.assignments == Requested(0, env.brokers) && !r.refreshProducerMetadata
        && (forall p :: p in r.leaders <==> env.describeAgain.Metadata? && 0 <= p < n)
      case Some(topic) =>
        (if anew then r.assignments == Requested(|topic|, env.brokers)
         else (forall p :: p in r.assignments <==> 0 <= p < |topic|)
              && forall p :: 0 <= p < |topic| ==> r.assignments[p] == topic[p])
        && (forall p :: p in r.leaders <==> 0 <= p < |topic|)
        && (r.refreshProducerMetadata <==> anew && n != |topic|)
  {
    if !Reaches(s, env) {
      ReconcileStops(cfg, s, env);
    } else {
      ReconcileBranches(cfg, s, env);
      if s.topic.None? {
        CreatingMatches(cfg, Described(s, env), env);
      } else {
        ExistingMatches(cfg, Described(s, env), env);
      }
    }
  }

  /** What a failed one answers: no leaders, and an assignment only if it got as far as asking for one. */
  lemma {:induction false} FailedResult(cfg: Config, s: State, env: Env)
    requires Reconcile(cfg, s, env).err.Some?
    ensures var r, n := Reconcile(cfg, s, env).result, |env.brokers|;
      var reached := (s.connected || env.connect.Accepted?) && env.describeCluster.Accepted? && env.describe.Metadata?;
      var fixed := cfg.expectedClusterSize != -1;
      r.leaders == map[]
      && match s.topic
         case None =>
           r.assignments == (if reached && !(fixed && cfg.expectedClusterSize != n) then Requested(0, env.brokers)
                             else map[])
           && !r.refreshProducerMetadata
         case Some(topic) =>
           var asked := reached && (s.initialized || |cfg.topicConfig| == 0 || env.alterConfig.Accepted?)
             && (!fixed || (!s.initialized && cfg.expectedClusterSize == n));
           r.assignments == (if asked then Requested(|topic|, env.brokers) else map[])
           && (r.refreshProducerMetadata <==> asked && n != |topic|)
  {
    if !Reaches(s, env) {
      StoppedResult(cfg, s, env);
    } else {
      ReconcileBranches(cfg, s, env);
      if s.topic.Some? {
        ExistingBranches(cfg, Described(s, env), s.topic.value, env);
      }
    }
  }

  lemma StoppedResult(cfg: Config, s: State, env: Env)
    requires !Reaches(s, env)
    ensures ReconcileTopic(cfg, s, env).result == NO_RESULT
  {}

  /** The topic and the assignment in the result agree; the leaders are those of the first `reported` partitions. */
  ghost predicate Matches(o: Outcome, reported: nat, env: Env) {
    o.result.leaders == Leaders(reported, env) && reported <= |o.result.assignments|
    && o.state.topic.Some? && o.result.assignments == AsMap(o.state.topic.value)
    && |o.result.assignments| == |o.state.topic.value| && o.state.initialized
  }

  lemma CreatingMatches(cfg: Config, s: State, env: Env)
    requires s.topic.None? && Creating(cfg, s, env).err.None?
    ensures Matches(Creating(cfg, s, env), if env.describeAgain.Metadata? then |env.brokers| else 0, env)
    ensures Creating(cfg, s, env).result.assignments == Requested(0, env.brokers)
    ensures !Creating(cfg, s, env).result.refreshProducerMetadata
    ensures Creating(cfg, s, env).state.connected == s.connected
  {
    RequestedLists(0, env.brokers);
  }

  lemma ExistingMatches(cfg: Config, s: State, env: Env)
    requires s.topic.Some? && Existing(cfg, s, s.topic.value, env).err.None?
    ensures var o := Existing(cfg, s, s.topic.value, env);
      Matches(o, |s.topic.value|, env) && o.state.connected == s.connected
      && o.result.assignments == (if DoesScale(cfg, s, env) then Requested(|s.topic.value|, env.brokers)
                                  else AsMap(s.topic.value))
      && (o.result.refreshProducerMetadata <==> DoesScale(cfg, s, env) && |env.brokers| != |s.topic.value|)
  {
    var topic, s1 := s.topic.value, Configured(cfg, s, env);
    ExistingBranches(cfg, s, topic, env);
    if DoesScale(cfg, s, env) {
      ScalingMatches(s1, env);
    } else {
      CardOfPrefixMap(AsMap(topic), |topic|);
    }
  }

  lemma ScalingMatches(s: State, env: Env)
    requires s.topic.Some? && Scaling(s, s.topic.value, env).err.None?
    ensures var o, k := Scaling(s, s.topic.value, env), |s.topic.value|;
      Matches(o, k, env) && o.state.connected == s.connected
      && o.result.assignments == Requested(k, env.brokers)
      && (o.result.refreshProducerMetadata <==> |env.brokers| != k)
  {
    RequestedLists(|s.topic.value|, env.brokers);
    AlterResult(s, env);
  }

  lemma AlterResult(s: State, env: Env)
    requires s.topic.Some?
    ensures var d := AlterTopicAssignments(s, |s.topic.value|, env);
      (d.err.None? ==> d.state.topic == Some(Lists(Requested(|s.topic.value|, env.brokers))))
      && d.state.connected == s.connected && d.state.initialized == s.initialized
  {
    RequestedLists(|s.topic.value|, env.brokers);
    ApplyTopic(s, |s.topic.value|, |env.brokers|, Lists(Requested(|s.topic.value|, env.brokers)), env);
  }
}
