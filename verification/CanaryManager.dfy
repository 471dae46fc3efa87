/** The manager: the first reconcile with its retries, and the periodic one, tied to what the producer sends. */
module CanaryManager {
  import opened Options
  import opened GoInts
  import opened TopicModel
  import opened TopicFacts
  import opened TopicRuns
  import opened Producer
  import Backoff
  import RetryLoops
  import TopicService

  /** What starting the manager came to: running, or ended by one of the fatal errors. */
  datatype Started = Running | WaitedTooLong | NotJoined | ReconcileFailed(error: Error)

  /** Try number i answers what one reconcile does with envs(i), from the state the try before it left. */
  ghost predicate IsAnswer(cfg: Config, s: State, envs: nat -> Env, answers: seq<Outcome>, i: nat)
    requires i < |answers|
  {
    answers[i] == TopicModel.Reconcile(cfg, if i == 0 then s else answers[i - 1].state, envs(i))
  }

  /** The outcomes of the first tries of start-up. */
  ghost predicate AreAnswers(cfg: Config, s: State, envs: nat -> Env, answers: seq<Outcome>) {
    forall i :: 0 <= i < |answers| ==> IsAnswer(cfg, s, envs, answers, i)
  }

  lemma SamePrefix(cfg: Config, s: State, envs: nat -> Env, answers: seq<Outcome>, more: seq<Outcome>, i: nat)
    requires answers <= more && i < |answers| && IsAnswer(cfg, s, envs, answers, i)
    ensures IsAnswer(cfg, s, envs, more, i)
  {
    assert more[i] == answers[i];
    assert i > 0 ==> more[i - 1] == answers[i - 1];
  }

  lemma LastAnswer(cfg: Config, s: State, envs: nat -> Env, answers: seq<Outcome>, o: Outcome, before: State)
    requires before == if answers == [] then s else answers[|answers| - 1].state
    requires o == TopicModel.Reconcile(cfg, before, envs(|answers|))
    ensures IsAnswer(cfg, s, envs, answers + [o], |answers|)
  {
    assert (answers + [o])[|answers|] == o;
  }

  lemma MoreAnswers(cfg: Config, s: State, envs: nat -> Env, answers: seq<Outcome>, o: Outcome, before: State)
    requires AreAnswers(cfg, s, envs, answers)
    requires before == if answers == [] then s else answers[|answers| - 1].state
    requires o == TopicModel.Reconcile(cfg, before, envs(|answers|))
    ensures AreAnswers(cfg, s, envs, answers + [o])
  {
    LastAnswer(cfg, s, envs, answers, o, before);
    forall i | 0 <= i < |answers|
      ensures IsAnswer(cfg, s, envs, answers + [o], i)
    {
      assert IsAnswer(cfg, s, envs, answers, i);
      SamePrefix(cfg, s, envs, answers, answers + [o], i);
    }
  }

  /** The tries before the last fail, all because the cluster does not have the expected size. */
  ghost predicate TooSmall(cfg: Config, envs: nat -> Env, answers: seq<Outcome>) {
    forall i :: 0 <= i < |answers| - 1 ==>
      answers[i].err == Some(ErrExpectedClusterSize) && |envs(i).brokers| != cfg.expectedClusterSize
  }

  /** When start-up stops trying: after an answer that is not the size error, or when no delay is left. */
  ghost predicate Stopped(cfg: Config, s: State, envs: nat -> Env, answers: seq<Outcome>, delays: nat) {
    0 < |answers| <= delays + 1 && AreAnswers(cfg, s, envs, answers) && TooSmall(cfg, envs, answers)
    && (answers[|answers| - 1].err == Some(ErrExpectedClusterSize) ==> |answers| == delays + 1)
  }

  lemma {:induction false} SameAnswers(cfg: Config, s: State, envs: nat -> Env, a: seq<Outcome>, b: seq<Outcome>,
      i: nat)
    requires AreAnswers(cfg, s, envs, a) && AreAnswers(cfg, s, envs, b) && i < |a| && i < |b|
    ensures a[i] == b[i]
  {
    assert IsAnswer(cfg, s, envs, a, i) && IsAnswer(cfg, s, envs, b, i);
    if i == 0 {
    } else {
      SameAnswers(cfg, s, envs, a, b, i - 1);
    }
  }

  /** The cluster's answers determine how often start-up tries, and with that its outcome. */
  lemma {:induction false} StopsOnce(cfg: Config, s: State, envs: nat -> Env, a: seq<Outcome>, b: seq<Outcome>,
      delays: nat)
    requires Stopped(cfg, s, envs, a, delays) && Stopped(cfg, s, envs, b, delays)
    ensures a == b
  {
    forall i | 0 <= i < |a| && i < |b|
      ensures a[i] == b[i]
    {
      SameAnswers(cfg, s, envs, a, b, i);
    }
    assert |a| <= |b| ==> a[|a| - 1] == b[|a| - 1];
    assert |b| <= |a| ==> a[|b| - 1] == b[|b| - 1];
  }

  class CanaryManager {
    const bootstrapBackoffMaxAttempts: Int64
    const bootstrapBackoffScale: Int64
    const topicService: TopicService.TopicService
    const producerService: ProducerService
    var consumerRefreshes: nat

    ghost predicate Valid()
      reads producerService
    {
      producerService.Valid()
    }

    constructor (maxAttempts: Int64, scale: Int64, topicService: TopicService.TopicService,
        producerService: ProducerService)
      requires producerService.Valid()
      ensures Valid() && consumerRefreshes == 0
      ensures this.topicService == topicService && this.producerService == producerService
      ensures bootstrapBackoffMaxAttempts == maxAttempts && bootstrapBackoffScale == scale
    {
      bootstrapBackoffMaxAttempts, bootstrapBackoffScale := maxAttempts, scale;
      this.topicService, this.producerService := topicService, producerService;
      consumerRefreshes := 0;
    }

    /** One tick. When the reconcile succeeds, every partition the topic now has gets exactly one message,
        also those beyond the number of brokers; when it fails, none is sent. */
    method Reconcile(env: Env, leaders: Option<map<int, int>>) returns (ok: bool)
      requires Valid() && GoodEnv(env)
      modifies this, topicService, topicService.cluster, producerService
      ensures Valid()
      ensures topicService.Now() == TopicModel.Reconcile(topicService.cfg, old(topicService.Now()), env).state
      ensures ok == TopicModel.Reconcile(topicService.cfg, old(topicService.Now()), env).err.None?
      ensures ok ==> topicService.cluster.topic.Some?
      ensures old(producerService.sent) <= producerService.sent
      ensures var before, n := |old(producerService.sent)|, if ok then |topicService.cluster.topic.value| else 0;
        |producerService.sent| == before + n
        && forall k :: before <= k < before + n ==> producerService.sent[k] == Message(k - before, Wrap64(k + 1))
      ensures var result := TopicModel.Reconcile(topicService.cfg, old(topicService.Now()), env).result;
        producerService.refreshes
        == old(producerService.refreshes) + (if ok && result.refreshProducerMetadata then 1 else 0)
        && consumerRefreshes == old(consumerRefreshes) + if ok && leaders != Some(result.leaders) then 1 else 0
    {
      ghost var s := topicService.Now();
      var result, err := topicService.Reconcile(env);
      ok := err.None?;
      if ok {
        SuccessMatches(topicService.cfg, s, env);
        if result.refreshProducerMetadata {
          producerService.Refresh();
        }
        if leaders.None? || result.leaders != leaders.value {
          consumerRefreshes := consumerRefreshes + 1;
        }
        producerService.Send(result.assignments);
      }
    }

    /** One more try of the first reconcile. */
    method TryReconcile(envs: nat -> Env, ghost s: State, ghost answers: seq<Outcome>, tries: nat)
      returns (result: TopicReconcileResult, err: Option<Error>, ghost more: seq<Outcome>)
      requires GoodEnv(envs(tries)) && tries == |answers| && AreAnswers(topicService.cfg, s, envs, answers)
      requires topicService.Now() == if answers == [] then s else answers[|answers| - 1].state
      modifies topicService, topicService.cluster
      ensures more == answers + [Outcome(topicService.Now(), result, err)]
          && AreAnswers(topicService.cfg, s, envs, more)
      ensures err == Some(ErrExpectedClusterSize) ==>
        !IsDynamic(topicService.cfg) && |envs(tries).brokers| != topicService.cfg.expectedClusterSize
        && topicService.cluster.topic.None?
      ensures err.None? ==> topicService.initialized && topicService.cluster.topic.Some?
      ensures err.None? ==> |result.assignments| == |topicService.cluster.topic.value|
    {
      ghost var before := topicService.Now();
      result, err := topicService.Reconcile(envs(tries));
      more := answers + [Outcome(topicService.Now(), result, err)];
      MoreAnswers(topicService.cfg, s, envs, answers, more[tries], before);
      SizeErrorIff(topicService.cfg, before, envs(tries));
      if err.None? {
        SuccessMatches(topicService.cfg, before, envs(tries));
      }
    }

    /** The retry loop of start-up: reconcile until the cluster has the expected size, at most once more than
        the backoff has delays. */
    method FirstReconcile(envs: nat -> Env)
      returns (result: TopicReconcileResult, err: Option<Error>, tries: nat, ghost waited: int,
          ghost answers: seq<Outcome>)
      requires forall i :: GoodEnv(envs(i))
      modifies topicService, topicService.cluster
      ensures tries == |answers| > 0 && answers[tries - 1] == Outcome(topicService.Now(), result, err)
      ensures var scale := Backoff.ActualScale(Wrap64(bootstrapBackoffScale as int * Backoff.MILLISECOND));
        var delays := Backoff.Successes(bootstrapBackoffMaxAttempts, scale);
        Stopped(topicService.cfg, old(topicService.Now()), envs, answers, delays) && delays <= 63
        && waited == Backoff.TotalWait(scale, Backoff.MAX_DEFAULT, tries - 1)
        && (answers[tries - 1].err == Some(ErrExpectedClusterSize) ==> tries == delays + 1)
      ensures forall i :: 0 <= i < tries - 1 ==> answers[i].err == Some(ErrExpectedClusterSize)
      ensures err == Some(ErrExpectedClusterSize) ==> topicService.cluster.topic.None?
      ensures IsDynamic(topicService.cfg) ==> tries == 1 && err != Some(ErrExpectedClusterSize)
      ensures err.None? ==> topicService.initialized && topicService.cluster.topic.Some?
      ensures err.None? ==> |result.assignments| == |topicService.cluster.topic.value|
    {
      var backoff := new Backoff.Backoff(bootstrapBackoffMaxAttempts,
                                         Wrap64(bootstrapBackoffScale as int * Backoff.MILLISECOND),
                                         Backoff.MAX_DEFAULT);
      Backoff.SuccessesBound(bootstrapBackoffMaxAttempts, backoff.scale);
      ghost var s := topicService.Now();
      tries, waited, answers := 0, 0, [];
      while true
        invariant backoff.Valid() && backoff.attempt == tries == |answers|
        invariant tries <= Backoff.Successes(bootstrapBackoffMaxAttempts, backoff.scale)
        invariant waited == Backoff.TotalWait(backoff.scale, Backoff.MAX_DEFAULT, tries)
        invariant AreAnswers(topicService.cfg, s, envs, answers)
        invariant topicService.Now() == if answers == [] then s else answers[|answers| - 1].state
        invariant IsDynamic(topicService.cfg) ==> tries == 0
        invariant forall i :: 0 <= i < tries ==>
          answers[i].err == Some(ErrExpectedClusterSize) && |envs(i).brokers| != topicService.cfg.expectedClusterSize
        decreases Backoff.Successes(bootstrapBackoffMaxAttempts, backoff.scale) - tries
      {
        result, err, answers := TryReconcile(envs, s, answers, tries);
        tries := tries + 1;
        if err != Some(ErrExpectedClusterSize) {
          break;
        }
        var delay := RetryLoops.Wait(backoff, tries - 1);
        if !delay.Delay? {
          break;
        }
        waited := waited + delay.delay;
      }
    }

    /** Start-up: the first reconcile with its retries, then join the consumer group and send the first
        round. The last try is the first whose answer is not the size error, or the one after the last delay;
        its answer decides the outcome, and after a success whether one of four tries joins the group: only
        then is anything sent. `envs(i)` is how the cluster answers try number i. */
    method Start(envs: nat -> Env, joins: nat -> bool)
      returns (r: Started, tries: nat, ghost waited: int, ghost answers: seq<Outcome>)
      requires Valid() && forall i :: GoodEnv(envs(i))
      modifies this, topicService, topicService.cluster, producerService
      ensures Valid() && tries == |answers| > 0
      ensures topicService.Now() == answers[tries - 1].state
      ensures var err := answers[tries - 1].err;
        (r == Running <==> err.None? && exists i: nat :: i <= 3 && joins(i))
        && (r == NotJoined <==> err.None? && forall i: nat :: i <= 3 ==> !joins(i))
        && (r == WaitedTooLong <==> err == Some(ErrExpectedClusterSize))
        && (forall e :: r == ReconcileFailed(e) <==> err == Some(e) && e != ErrExpectedClusterSize)
      ensures var scale := Backoff.ActualScale(Wrap64(bootstrapBackoffScale as int * Backoff.MILLISECOND));
        var delays := Backoff.Successes(bootstrapBackoffMaxAttempts, scale);
        Stopped(topicService.cfg, old(topicService.Now()), envs, answers, delays) && delays <= 63
        && waited == Backoff.TotalWait(scale, Backoff.MAX_DEFAULT, tries - 1)
        && (answers[tries - 1].err == Some(ErrExpectedClusterSize) ==> tries == delays + 1)
      ensures forall i :: 0 <= i < tries - 1 ==> answers[i].err == Some(ErrExpectedClusterSize)
      ensures r.WaitedTooLong? ==> topicService.cluster.topic.None?
      ensures r.Running? ==> topicService.initialized && topicService.cluster.topic.Some?
      ensures old(producerService.sent) <= producerService.sent
      ensures var before := |old(producerService.sent)|;
        var n := if r.Running? then |topicService.cluster.topic.value| else 0;
        |producerService.sent| == before + n
        && forall k :: before <= k < before + n ==> producerService.sent[k] == Message(k - before, Wrap64(k + 1))
      ensures IsDynamic(topicService.cfg) ==> tries == 1 && !r.WaitedTooLong?
    {
      var result, err;
      result, err, tries, waited, answers := FirstReconcile(envs);
      if err.None? {
        var joined, joinTries, joinWaited := RetryLoops.Consume(joins);
        RetryLoops.ConsumeBound(joins, joined, joinTries, joinWaited);
        if joined {
          producerService.Send(result.assignments);
        }
        r := if joined then Running else NotJoined;
      } else if err.value.ErrExpectedClusterSize? {
        r := WaitedTooLong;
      } else {
        r := ReconcileFailed(err.value);
      }
    }
  }
}
