/** What one reconcile asks of the cluster, call by call, and the error it ends with. */
module TopicCalls {
  import opened Options
  import opened Placement
  import opened TopicModel
  import opened TopicFacts
  import opened TopicRuns

  lemma ThreeParts(calls: seq<Entry>, a: seq<Entry>, b: seq<Entry>, c: seq<Entry>)
    ensures calls + a + b + c == calls + (a + b + c)
  {}

  lemma TwoParts(calls: seq<Entry>, a: seq<Entry>, b: seq<Entry>)
    ensures calls + a + b == calls + (a + b)
    ensures a + [] == a
  {}

  // ---------- reassigning and adding partitions ----------

  /** The polls for k partitions: all but the last are answered, and find a reassignment going on. */
  ghost predicate ArePolls(polls: seq<Entry>, k: nat, env: Env) {
    |polls| == env.ongoing + 1
    && forall i :: 0 <= i < |polls| ==>
         polls[i] == Entry(ListPartitionReassignments(PartitionIds(k)), i < env.ongoing || !env.listFails)
  }

  /** An accepted reassignment is polled until it has ended or a poll fails: env.ongoing + 1 times, for exactly
      the partitions 0, 1, ... it was asked for; a refused one is not polled. A failing poll is no error. */
  lemma {:induction false} Polls(s: State, lists: seq<seq<int>>, env: Env) returns (polls: seq<Entry>)
    ensures var d := AlterAssignments(s, lists, env);
      d.state.calls == s.calls + [Entry(AlterPartitionReassignments(lists), env.reassign.Accepted?)] + polls
      && d.err == if env.reassign.Accepted? then None else Some(CallFailed(env.reassign.disconnection))
    ensures |polls| == if env.reassign.Accepted? then env.ongoing + 1 else 0
    ensures forall i :: 0 <= i < |polls| ==>
              polls[i].call.ListPartitionReassignments? && |polls[i].call.partitions| == |lists|
              && (forall q :: 0 <= q < |lists| ==> polls[i].call.partitions[q] == q)
              && (polls[i].accepted <==> i < env.ongoing || !env.listFails)
    ensures polls == [] || ArePolls(polls, |lists|, env)
  {
    polls := if env.reassign.Accepted? then PollEntries(PartitionIds(|lists|), env) else [];
    var first := [Entry(AlterPartitionReassignments(lists), env.reassign.Accepted?)];
    assert s.calls + first + [] == s.calls + first;
  }

  /** The same by position among the calls. */
  lemma PolledAt(s: State, lists: seq<seq<int>>, env: Env)
    ensures var k, calls := |s.calls|, AlterAssignments(s, lists, env).state.calls;
      s.calls < calls && |calls| == k + (if env.reassign.Accepted? then env.ongoing + 2 else 1)
      && calls[k] == Entry(AlterPartitionReassignments(lists), env.reassign.Accepted?)
      && (forall i :: k < i < |calls| ==>
            calls[i].call.ListPartitionReassignments? && |calls[i].call.partitions| == |lists|
            && (forall q :: 0 <= q < |lists| ==> calls[i].call.partitions[q] == q)
            && (calls[i].accepted <==> i < |calls| - 1 || !env.listFails))
  {
    var k, calls := |s.calls|, AlterAssignments(s, lists, env).state.calls;
    var polls := Polls(s, lists, env);
    assert forall i :: k < i < |calls| ==> calls[i] == polls[i - k - 1];
  }

  /** Partitions are added after the last poll, if the reassignment was accepted and there are too few. */
  lemma {:induction false} ScaleCalls(s: State, k: nat, n: nat, lists: seq<seq<int>>, env: Env)
    returns (polls: seq<Entry>)
    requires k <= |lists|
    ensures var d := ApplyLists(s, k, n, lists, env);
      d.state.calls == s.calls + [Entry(AlterPartitionReassignments(lists[..k]), env.reassign.Accepted?)] + polls
        + (if env.reassign.Accepted? && k < n
           then [Entry(CreatePartitions(n, lists[k..]), env.createPartitions.Accepted?)] else [])
      && d.err ==
         if env.reassign.Refused? then Some(CallFailed(env.reassign.disconnection))
         else if k < n && env.createPartitions.Refused? then Some(CallFailed(env.createPartitions.disconnection))
         else None
    ensures if env.reassign.Accepted? then ArePolls(polls, k, env) else polls == []
  {
    polls := Polls(s, lists[..k], env);
  }

  // ---------- the connection ----------

  lemma TopicConnected(cfg: Config, s: State, env: Env)
    ensures ReconcileTopic(cfg, s, env).state.connected <==> s.connected || env.connect.Accepted?
  {
    if !Reaches(s, env) {
      ReconcileStops(cfg, s, env);
    } else {
      ReconcileBranches(cfg, s, env);
      if s.topic.Some? {
        ExistingCount(cfg, Described(s, env), s.topic.value, env, IsClose);
      } else {
        CreatingCount(cfg, Described(s, env), env, IsClose);
      }
    }
  }

  lemma TopicCloses(cfg: Config, s: State, env: Env)
    ensures Count(ReconcileTopic(cfg, s, env).state.calls, IsClose) == Count(s.calls, IsClose)
  {
    if !Reaches(s, env) {
      StopsCount(cfg, s, env, IsClose);
    } else {
      ReachesCount(s, env, IsClose);
      ReconcileBranches(cfg, s, env);
      if s.topic.Some? {
        ExistingCount(cfg, Described(s, env), s.topic.value, env, IsClose);
      } else {
        CreatingCount(cfg, Described(s, env), env, IsClose);
      }
    }
  }

  lemma CloseLast(cfg: Config, s: State, env: Env)
    ensures var t, o := ReconcileTopic(cfg, s, env), Reconcile(cfg, s, env);
      var closes := t.state.connected && o.err == Some(CallFailed(true));
      o.err == t.err && o.state.calls == t.state.calls + (if closes then [Entry(CloseAdmin, true)] else [])
      && (o.state.connected <==> t.state.connected && !closes)
      && Count(o.state.calls, IsClose) == Count(t.state.calls, IsClose) + if closes then 1 else 0
  {
    var t := ReconcileTopic(cfg, s, env);
    CloseCount(t.state, IsClose);
    assert t.state.calls + [] == t.state.calls;
  }

  /** The admin client is closed, once and as the last call, exactly when the reconcile ends with a broken
      connection and there was a client; otherwise the client stays. */
  lemma {:induction false} CloseIff(cfg: Config, s: State, env: Env)
    ensures var o, held := Reconcile(cfg, s, env), s.connected || env.connect.Accepted?;
      (o.state.connected <==> held && o.err != Some(CallFailed(true)))
      && Count(o.state.calls, IsClose)
         == Count(s.calls, IsClose) + (if held && o.err == Some(CallFailed(true)) then 1 else 0)
      && (held && o.err == Some(CallFailed(true)) ==>
            o.state.calls != [] && o.state.calls[|o.state.calls| - 1] == Entry(CloseAdmin, true))
  {
    TopicConnected(cfg, s, env);
    TopicCloses(cfg, s, env);
    CloseLast(cfg, s, env);
  }

  /** The end of a reconcile that does not get to its branches: the calls after the connection, and the error. */
  lemma TopicStops(cfg: Config, s: State, env: Env)
    ensures var t := ReconcileTopic(cfg, s, env);
      var asked, failed := Connected(s, env).calls, !(s.connected || env.connect.Accepted?);
      (failed ==> t.err == Some(CallFailed(env.connect.disconnection)) && t.state.calls == asked)
      && (!failed && env.describeCluster.Refused? ==>
            t.err == Some(CallFailed(env.describeCluster.disconnection))
            && t.state.calls == asked + [Entry(DescribeCluster, false)])
      && (!failed && env.describeCluster.Accepted? && env.describe.NoMetadata? ==>
            t.err == Some(CallFailed(env.describe.disconnection))
            && t.state.calls == asked + [Entry(DescribeCluster, true)] + [Entry(DescribeTopics, false)])
      && (!failed && env.describeCluster.Accepted? && env.describe.MetadataError? ==>
            t.err == Some(TopicMetadataError)
            && t.state.calls == asked + [Entry(DescribeCluster, true)] + [Entry(DescribeTopics, true)])
  {}

  /** What a reconcile adds when there is a client: opening it if need be, two calls, the rest, and closing it
      after a broken connection. */
  ghost predicate Added(s: State, err: Option<Error>, calls: seq<Entry>, rest: seq<Entry>) {
    calls == s.calls + (if s.connected then [] else [Entry(NewClusterAdmin, true)]) + rest
             + if err == Some(CallFailed(true)) then [Entry(CloseAdmin, true)] else []
  }

  lemma ConnectedCalls(s: State, env: Env)
    ensures Connected(s, env).calls ==
            s.calls + if s.connected then [] else [Entry(NewClusterAdmin, env.connect.Accepted?)]
  {
    assert s.calls + [] == s.calls;
  }

  lemma IsAdded(cfg: Config, s: State, env: Env, rest: seq<Entry>)
    requires s.connected || env.connect.Accepted?
    requires ReconcileTopic(cfg, s, env).state.calls == Connected(s, env).calls + rest
    ensures Added(s, Reconcile(cfg, s, env).err, Reconcile(cfg, s, env).state.calls, rest)
    ensures Reconcile(cfg, s, env).err == ReconcileTopic(cfg, s, env).err
  {
    CloseLast(cfg, s, env);
    TopicConnected(cfg, s, env);
    ConnectedCalls(s, env);
  }

  /** A refused call before the branches ends the reconcile with its error, and so does an error code in the
      metadata; nothing is asked after it. */
  lemma {:induction false} EarlyEnd(cfg: Config, s: State, env: Env)
    requires !((s.connected || env.connect.Accepted?) && env.describeCluster.Accepted? && env.describe.Metadata?)
    ensures var o := Reconcile(cfg, s, env);
      if !s.connected && env.connect.Refused? then
        o.err == Some(CallFailed(env.connect.disconnection))
        && o.state.calls == s.calls + [Entry(NewClusterAdmin, false)]
      else if env.describeCluster.Refused? then
        o.err == Some(CallFailed(env.describeCluster.disconnection))
        && Added(s, o.err, o.state.calls, [Entry(DescribeCluster, false)])
      else if env.describe.NoMetadata? then
        o.err == Some(CallFailed(env.describe.disconnection))
        && Added(s, o.err, o.state.calls, [Entry(DescribeCluster, true), Entry(DescribeTopics, false)])
      else
        o.err == Some(TopicMetadataError)
        && Added(s, o.err, o.state.calls, [Entry(DescribeCluster, true), Entry(DescribeTopics, true)])
  {
    CloseLast(cfg, s, env);
    TopicConnected(cfg, s, env);
    TopicStops(cfg, s, env);
    ConnectedCalls(s, env);
    if s.connected || env.connect.Accepted? {
      if env.describeCluster.Refused? {
        IsAdded(cfg, s, env, [Entry(DescribeCluster, false)]);
      } else if !env.describe.Metadata? {
        var rest := [Entry(DescribeCluster, true), Entry(DescribeTopics, !env.describe.NoMetadata?)];
        assert ReconcileTopic(cfg, s, env).state.calls == Connected(s, env).calls + rest;
        IsAdded(cfg, s, env, rest);
      }
    }
  }

  // ---------- the branches ----------

  lemma ReachedCalls(s: State, env: Env)
    requires Reaches(s, env)
    ensures Described(s, env).calls
            == Connected(s, env).calls + [Entry(DescribeCluster, true), Entry(DescribeTopics, true)]
  {}

  lemma BranchAdded(cfg: Config, s: State, env: Env, more: seq<Entry>)
    requires Reaches(s, env)
    requires ReconcileTopic(cfg, s, env).state.calls == Described(s, env).calls + more
    ensures var o := Reconcile(cfg, s, env);
      o.err == ReconcileTopic(cfg, s, env).err
      && Added(s, o.err, o.state.calls, [Entry(DescribeCluster, true), Entry(DescribeTopics, true)] + more)
  {
    ReachedCalls(s, env);
    var asked := [Entry(DescribeCluster, true), Entry(DescribeTopics, true)];
    TwoParts(Connected(s, env).calls, asked, more);
    IsAdded(cfg, s, env, asked + more);
  }

  lemma CreateWithCalls(s: State, a: map<int, seq<int>>, entries: map<string, string>, env: Env)
    ensures var o := CreateWith(s, a, entries, env);
      if env.createTopic.Refused? then
        o.err == Some(CallFailed(env.createTopic.disconnection))
        && o.state.calls == s.calls + [Entry(CreateTopic(a, entries), false)]
      else
        o.err == (if env.describeAgain.NoMetadata? then Some(CallFailed(env.describeAgain.disconnection)) else None)
        && o.state.calls
           == s.calls + [Entry(CreateTopic(a, entries), true), Entry(DescribeTopics, !env.describeAgain.NoMetadata?)]
  {}

  /** A missing topic: nothing more is asked when the expected size is not met. Otherwise the topic is created
      with the requested replicas, and, once created, described. */
  lemma {:induction false} CreationCalls(cfg: Config, s: State, env: Env)
    requires (s.connected || env.connect.Accepted?) && env.describeCluster.Accepted? && env.describe.Metadata?
    requires s.topic.None?
    ensures var o, asked := Reconcile(cfg, s, env), [Entry(DescribeCluster, true), Entry(DescribeTopics, true)];
      var creation := CreateTopic(Requested(0, env.brokers), CreationConfig(cfg, MinISR(|env.brokers|)));
      if cfg.expectedClusterSize != -1 && cfg.expectedClusterSize != |env.brokers| then
        o.err == Some(ErrExpectedClusterSize) && Added(s, o.err, o.state.calls, asked)
      else if env.createTopic.Refused? then
        o.err == Some(CallFailed(env.createTopic.disconnection))
        && Added(s, o.err, o.state.calls, asked + [Entry(creation, false)])
      else
        o.err == (if env.describeAgain.NoMetadata? then Some(CallFailed(env.describeAgain.disconnection)) else None)
        && Added(s, o.err, o.state.calls,
                 asked + [Entry(creation, true), Entry(DescribeTopics, !env.describeAgain.NoMetadata?)])
  {
    var t, a, entries := Described(s, env), Requested(0, env.brokers), CreationConfig(cfg, MinISR(|env.brokers|));
    ReconcileBranches(cfg, s, env);
    CreateWithCalls(t, a, entries, env);
    assert t.calls + [] == t.calls;
    assert [Entry(DescribeCluster, true), Entry(DescribeTopics, true)] + []
        == [Entry(DescribeCluster, true), Entry(DescribeTopics, true)];
    if !IsDynamic(cfg) && cfg.expectedClusterSize != |env.brokers| {
      BranchAdded(cfg, s, env, []);
    } else if env.createTopic.Refused? {
      BranchAdded(cfg, s, env, [Entry(CreateTopic(a, entries), false)]);
    } else {
      BranchAdded(cfg, s, env,
                  [Entry(CreateTopic(a, entries), true), Entry(DescribeTopics, !env.describeAgain.NoMetadata?)]);
    }
  }

  /** The calls that scale a topic of k partitions, with the error they end in: the reassignment of the first
      k requested lists, the polls, and the rest of the lists as new partitions. */
  ghost predicate Scaled(calls: seq<Entry>, polls: seq<Entry>, err: Option<Error>, k: nat, env: Env) {
    var n, lists := |env.brokers|, Lists(Requested(k, env.brokers));
    k <= |lists|
    && calls == [Entry(AlterPartitionReassignments(lists[..k]), env.reassign.Accepted?)] + polls
      + (if env.reassign.Accepted? && k < n
         then [Entry(CreatePartitions(n, lists[k..]), env.createPartitions.Accepted?)] else [])
    && (if env.reassign.Accepted? then ArePolls(polls, k, env) else polls == [])
    && err ==
       if env.reassign.Refused? then Some(CallFailed(env.reassign.disconnection))
       else if k < n && env.createPartitions.Refused? then Some(CallFailed(env.createPartitions.disconnection))
       else None
  }

  lemma ScalingCalls(s: State, topic: Topic, env: Env) returns (calls: seq<Entry>, polls: seq<Entry>)
    ensures Scaling(s, topic, env).state.calls == s.calls + calls
    ensures Scaled(calls, polls, Scaling(s, topic, env).err, |topic|, env)
  {
    var k, n := |topic|, |env.brokers|;
    RequestedLists(k, env.brokers);
    var lists := Lists(Requested(k, env.brokers));
    polls := ScaleCalls(s, k, n, lists, env);
    var creation := if env.reassign.Accepted? && k < n
      then [Entry(CreatePartitions(n, lists[k..]), env.createPartitions.Accepted?)] else [];
    calls := [Entry(AlterPartitionReassignments(lists[..k]), env.reassign.Accepted?)] + polls + creation;
    ThreeParts(s.calls, [Entry(AlterPartitionReassignments(lists[..k]), env.reassign.Accepted?)], polls, creation);
  }

  lemma ExistingCalls(cfg: Config, s: State, topic: Topic, env: Env)
    returns (altering: seq<Entry>, scaling: seq<Entry>, polls: seq<Entry>)
    ensures altering == if s.initialized || |cfg.topicConfig| == 0 then []
                        else [Entry(AlterConfig(cfg.topicConfig), env.alterConfig.Accepted?)]
    ensures var o := Existing(cfg, s, topic, env);
      o.state.calls == s.calls + (altering + scaling)
      && if altering != [] && env.alterConfig.Refused? then
           o.err == Some(CallFailed(env.alterConfig.disconnection)) && scaling == []
         else if cfg.expectedClusterSize == -1 || (!s.initialized && cfg.expectedClusterSize == |env.brokers|) then
           Scaled(scaling, polls, o.err, |topic|, env)
         else o.err.None? && scaling == []
  {
    altering, scaling, polls := [], [], [];
    if !s.initialized && |cfg.topicConfig| != 0 {
      altering := [Entry(AlterConfig(cfg.topicConfig), env.alterConfig.Accepted?)];
    }
    ExistingBranches(cfg, s, topic, env);
    var t := Configured(cfg, s, env);
    assert t.calls == s.calls + altering;
    TwoParts(s.calls, altering, scaling);
    if altering != [] && env.alterConfig.Refused? {
    } else if DoesScale(cfg, s, env) {
      scaling, polls := ScalingCalls(t, topic, env);
      TwoParts(s.calls, altering, scaling);
    }
  }

  /** A topic that exists: its configuration is altered first, if there is one and no reconcile has succeeded
      yet. Then it is reassigned when reassignment is dynamic, or the expected size is met at start-up. */
  lemma {:induction false} AlterationCalls(cfg: Config, s: State, env: Env)
    returns (altering: seq<Entry>, scaling: seq<Entry>, polls: seq<Entry>)
    requires (s.connected || env.connect.Accepted?) && env.describeCluster.Accepted? && env.describe.Metadata?
    requires s.topic.Some?
    ensures altering == if s.initialized || |cfg.topicConfig| == 0 then []
                        else [Entry(AlterConfig(cfg.topicConfig), env.alterConfig.Accepted?)]
    ensures var o := Reconcile(cfg, s, env);
      Added(s, o.err, o.state.calls, [Entry(DescribeCluster, true), Entry(DescribeTopics, true)] + (altering + scaling))
      && if altering != [] && env.alterConfig.Refused? then
           o.err == Some(CallFailed(env.alterConfig.disconnection)) && scaling == []
         else if cfg.expectedClusterSize == -1 || (!s.initialized && cfg.expectedClusterSize == |env.brokers|) then
           Scaled(scaling, polls, o.err, |s.topic.value|, env)
         else o.err.None? && scaling == []
  {
    ReconcileBranches(cfg, s, env);
    altering, scaling, polls := ExistingCalls(cfg, Described(s, env), s.topic.value, env);
    BranchAdded(cfg, s, env, altering + scaling);
  }

  // ---------- consequences ----------

  lemma AddedFirst(s: State, err: Option<Error>, calls: seq<Entry>, rest: seq<Entry>, first: Entry)
    requires Added(s, err, calls, rest) && rest != [] && rest[0] == first
    ensures s.calls < calls
    ensures calls[|s.calls|] == if s.connected then first else Entry(NewClusterAdmin, true)
  {}

  /** A reconcile starts with its client if it has one, and otherwise by opening one. */
  lemma FirstCall(cfg: Config, s: State, env: Env)
    ensures var calls := Reconcile(cfg, s, env).state.calls;
      s.calls < calls
      && calls[|s.calls|] == if s.connected then Entry(DescribeCluster, env.describeCluster.Accepted?)
                             else Entry(NewClusterAdmin, env.connect.Accepted?)
  {
    var o, first := Reconcile(cfg, s, env), Entry(DescribeCluster, env.describeCluster.Accepted?);
    if !Reaches(s, env) {
      EarlyEnd(cfg, s, env);
      if s.connected || env.connect.Accepted? {
        var rest := [first]
        + if env.describeCluster.Refused? then [] else [Entry(DescribeTopics, !env.describe.NoMetadata?)];
        AddedFirst(s, o.err, o.state.calls, rest, first);
      }
    } else {
      var rest := ReachedRest(cfg, s, env);
      AddedFirst(s, o.err, o.state.calls, rest, first);
    }
  }

  lemma ReachedRest(cfg: Config, s: State, env: Env) returns (rest: seq<Entry>)
    requires Reaches(s, env)
    ensures Added(s, Reconcile(cfg, s, env).err, Reconcile(cfg, s, env).state.calls, rest)
    ensures rest != [] && rest[0] == Entry(DescribeCluster, true)
  {
    ReconcileBranches(cfg, s, env);
    if s.topic.Some? {
      var altering, scaling, polls := ExistingCalls(cfg, Described(s, env), s.topic.value, env);
      BranchAdded(cfg, s, env, altering + scaling);
      rest := [Entry(DescribeCluster, true), Entry(DescribeTopics, true)] + (altering + scaling);
    } else {
      var more := CreatingMore(cfg, Described(s, env), env);
      BranchAdded(cfg, s, env, more);
      rest := [Entry(DescribeCluster, true), Entry(DescribeTopics, true)] + more;
    }
  }

  lemma CreatingMore(cfg: Config, s: State, env: Env) returns (more: seq<Entry>)
    ensures Creating(cfg, s, env).state.calls == s.calls + more
  {
    CreateWithCalls(s, Requested(0, env.brokers), CreationConfig(cfg, MinISR(|env.brokers|)), env);
    more := Creating(cfg, s, env).state.calls[|s.calls|..];
  }

  /** Of two successive reconciles from any state, the second opens a new client exactly when the first ended
      with a broken connection or never had a client. */
  lemma {:induction false} ReopensIff(cfg: Config, s: State, env: Env, next: Env)
    ensures var o := Reconcile(cfg, s, env);
      var after := Reconcile(cfg, o.state, next).state.calls;
      o.state.calls < after
      && after[|o.state.calls|] ==
         if o.err == Some(CallFailed(true)) || (!s.connected && env.connect.Refused?)
         then Entry(NewClusterAdmin, next.connect.Accepted?)
         else Entry(DescribeCluster, next.describeCluster.Accepted?)
  {
    CloseIff(cfg, s, env);
    FirstCall(cfg, Reconcile(cfg, s, env).state, next);
  }
}
