/** The replica placement of the canary topic: `requestedAssignments` and the methods it is made of. */
module Placement {
  import opened Sequences
  import opened RackOrder

  function Min(x: int, y: int): int {
    if x > y then y else x
  }

  function Max(x: int, y: int): int {
    if x < y then y else x
  }

  function ReplicationFactor(n: nat): nat {
    Min(n, 3)
  }

  function MinISR(n: nat): nat {
    Max(1, ReplicationFactor(n) - 1)
  }

  /** The brokers in the order the layout uses. */
  function BrokerOrder(brokers: seq<Broker>): seq<Broker> {
    Alternated(SortById(brokers))
  }

  /** The replicas of partition p: consecutive brokers, starting at position p, around the end if need be. */
  function Replicas(order: seq<Broker>, p: nat): seq<int> {
    seq(ReplicationFactor(|order|), r requires 0 <= r < ReplicationFactor(|order|) => order[(p + r) % |order|].id)
  }

  function Requested(currentPartitions: nat, brokers: seq<Broker>): map<int, seq<int>> {
    map p | 0 <= p < Max(currentPartitions, |brokers|) :: Replicas(BrokerOrder(brokers), p)
  }

  lemma BrokerOrderPermutes(brokers: seq<Broker>)
    requires DistinctIds(brokers)
    ensures NoDup(BrokerOrder(brokers)) && Elems(BrokerOrder(brokers)) == Elems(brokers)
    ensures multiset(BrokerOrder(brokers)) == multiset(brokers) && |BrokerOrder(brokers)| == |brokers|
  {
    DistinctIdsSet(brokers);
    SortByIdOrdered(brokers);
    AlternatedPermutes(SortById(brokers));
    NoDupMultiset(BrokerOrder(brokers), brokers);
  }

  // ---------- the methods ----------

  /** The library call that sorts the slice by broker ID. */
  method SortBrokers(brokers: array<Broker>)
    modifies brokers
    ensures brokers[..] == SortById(old(brokers[..]))
  {
    var sorted := SortById(brokers[..]);
    SortByIdSorts(brokers[..]);
    assert |multiset(sorted)| == |multiset(brokers[..])|;
    forall i | 0 <= i < brokers.Length {
      brokers[i] := sorted[i];
    }
  }

  /** The brokers of s by rack, and the rack names in order of first appearance. */
  ghost predicate Grouped(rackMap: map<string, seq<Broker>>, rackNames: seq<string>, s: seq<Broker>) {
    rackNames == RackNames(s) && rackMap.Keys == Elems(rackNames)
    && forall name :: name in rackMap ==> rackMap[name] == OfRack(s, name)
  }

  lemma Snoc(s: seq<Broker>, b: Broker)
    ensures WithRack(s + [b]) == WithRack(s) + if b.rack != "" then 1 else 0
    ensures RackNames(s + [b]) == RackNames(s) + if b.rack == "" || b.rack in RackNames(s) then [] else [b.rack]
  {
    assert (s + [b])[..|s|] == s;
  }

  lemma SnocOfRack(s: seq<Broker>, b: Broker, name: string)
    ensures OfRack(s + [b], name) == OfRack(s, name) + if b.rack == name then [b] else []
  {
    assert (s + [b])[..|s|] == s;
  }

  lemma NamedIff(s: seq<Broker>, name: string)
    ensures name in RackNames(s) <==> name != "" && OfRack(s, name) != []
    ensures NoDup(RackNames(s))
  {
    RackNamesMembers(s);
  }

  lemma GroupKnown(rackMap: map<string, seq<Broker>>, rackNames: seq<string>, s: seq<Broker>, b: Broker)
    requires Grouped(rackMap, rackNames, s) && b.rack in rackMap
    ensures Grouped(rackMap[b.rack := rackMap[b.rack] + [b]], rackNames, s + [b])
  {
    Snoc(s, b);
    var next := rackMap[b.rack := rackMap[b.rack] + [b]];
    assert b.rack in Elems(rackNames);
    assert next.Keys == rackMap.Keys;
    forall name | name in next
      ensures next[name] == OfRack(s + [b], name)
    {
      SnocOfRack(s, b, name);
      assert rackMap[name] == OfRack(s, name);
    }
  }

  lemma GroupNew(rackMap: map<string, seq<Broker>>, rackNames: seq<string>, s: seq<Broker>, b: Broker)
    requires Grouped(rackMap, rackNames, s) && b.rack != "" && b.rack !in rackMap
    ensures Grouped(rackMap[b.rack := [b]], rackNames + [b.rack], s + [b])
  {
    Snoc(s, b);
    NamedIff(s, b.rack);
    var next := rackMap[b.rack := [b]];
    assert b.rack !in Elems(rackNames);
    ElemsSnoc(rackNames, b.rack);
    assert next.Keys == rackMap.Keys + {b.rack};
    SnocOfRack(s, b, b.rack);
    forall name | name in rackMap
      ensures next[name] == OfRack(s + [b], name)
    {
      SnocOfRack(s, b, name);
      assert name != b.rack && rackMap[name] == OfRack(s, name);
    }
  }

  lemma GroupNone(rackMap: map<string, seq<Broker>>, rackNames: seq<string>, s: seq<Broker>, b: Broker)
    requires Grouped(rackMap, rackNames, s) && b.rack == ""
    ensures Grouped(rackMap, rackNames, s + [b])
  {
    Snoc(s, b);
    forall name | name in rackMap
      ensures rackMap[name] == OfRack(s + [b], name)
    {
      assert name in Elems(rackNames);
      NamedIff(s, name);
      SnocOfRack(s, b, name);
    }
  }

  lemma GroupNext(rackMap: map<string, seq<Broker>>, rackNames: seq<string>, s: seq<Broker>, b: Broker)
    requires Grouped(rackMap, rackNames, s)
    ensures b.rack == "" ==> Grouped(rackMap, rackNames, s + [b])
    ensures b.rack in rackMap ==> Grouped(rackMap[b.rack := rackMap[b.rack] + [b]], rackNames, s + [b])
    ensures b.rack != "" && b.rack !in rackMap ==> Grouped(rackMap[b.rack := [b]], rackNames + [b.rack], s + [b])
  {
    NamedIff(s, b.rack);
    if b.rack == "" {
      GroupNone(rackMap, rackNames, s, b);
    } else if b.rack in rackMap {
      GroupKnown(rackMap, rackNames, s, b);
    } else {
      GroupNew(rackMap, rackNames, s, b);
    }
  }

  /** The first loop: group the brokers and count those that have a rack. */
  method GroupByRack(brokers: array<Broker>)
    returns (rackMap: map<string, seq<Broker>>, rackNames: seq<string>, brokersWithRack: nat)
    ensures Grouped(rackMap, rackNames, brokers[..]) && brokersWithRack == WithRack(brokers[..])
  {
    rackMap, rackNames, brokersWithRack := map[], [], 0;
    for i := 0 to brokers.Length
      invariant Grouped(rackMap, rackNames, brokers[..i]) && brokersWithRack == WithRack(brokers[..i])
    {
      var broker := brokers[i];
      GroupNext(rackMap, rackNames, brokers[..i], broker);
      Snoc(brokers[..i], broker);
      assert brokers[..i + 1] == brokers[..i] + [broker];
      if broker.rack != "" {
        brokersWithRack := brokersWithRack + 1;
        if broker.rack !in rackMap {
          rackMap := rackMap[broker.rack := []];
          rackNames := rackNames + [broker.rack];
        }
        rackMap := rackMap[broker.rack := rackMap[broker.rack] + [broker]];
      }
    }
    assert brokers[..brokers.Length] == brokers[..];
  }

  lemma EmittedFits(s: seq<Broker>, t: nat, r: nat)
    requires Ordered(s, IdLess) && r <= |RackNames(s)|
    ensures |Emitted(Sizes(RackLists(s)), t, r)| <= |s|
  {
    EmittedOrdered(Sizes(RackLists(s)), t, r);
    PickNoDup(s, Emitted(Sizes(RackLists(s)), t, r));
  }

  /** What is left of the lists after the first r of them have given up a head in round t. */
  ghost predicate Left(rackMap: map<string, seq<Broker>>, names: seq<string>, lists: seq<seq<Broker>>, t: nat, r: nat)
    requires |names| == |lists|
  {
    forall q :: 0 <= q < |names| ==>
      names[q] in rackMap && rackMap[names[q]] == lists[q][Min(if q < r then t + 1 else t, |lists[q]|)..]
  }

  /** What the walk has left of the racks' lists after the first r racks of round t. */
  ghost predicate Remaining(rackMap: map<string, seq<Broker>>, s: seq<Broker>, t: nat, r: nat) {
    Left(rackMap, RackNames(s), RackLists(s), t, r)
  }

  /** The slice holds, from its start, the brokers emitted before rack r of round t. */
  ghost predicate Written(out: seq<Broker>, index: int, s: seq<Broker>, t: nat, r: nat)
    requires r <= |RackNames(s)|
  {
    var slots := Emitted(Sizes(RackLists(s)), t, r);
    index == |slots| <= |out| && out[..index] == Pick(RackLists(s), slots)
  }

  lemma WriteNext(out: seq<Broker>, index: nat, s: seq<Broker>, t: nat, r: nat)
    requires r < |RackNames(s)| && index < |out| && Written(out, index, s, t, r)
    requires |RackLists(s)[r]| > t
    ensures Written(out[index := RackLists(s)[r][t]], index + 1, s, t, r + 1)
  {
    var next := out[index := RackLists(s)[r][t]];
    assert next[..index + 1] == out[..index] + [RackLists(s)[r][t]];
  }

  lemma LeftNext(rackMap: map<string, seq<Broker>>, names: seq<string>, lists: seq<seq<Broker>>, t: nat, r: nat)
    requires |names| == |lists| && NoDup(names) && r < |names| && Left(rackMap, names, lists, t, r)
    ensures |rackMap[names[r]]| > 0 <==> |lists[r]| > t
    ensures if |lists[r]| > t
      then
        rackMap[names[r]][0] == lists[r][t]
        && Left(rackMap[names[r] := rackMap[names[r]][1..]], names, lists, t, r + 1)
      else Left(rackMap, names, lists, t, r + 1)
  {
    if |lists[r]| > t {
      assert rackMap[names[r]][1..] == lists[r][t + 1..];
    }
  }

  lemma RemainingNext(rackMap: map<string, seq<Broker>>, s: seq<Broker>, t: nat, r: nat)
    requires r < |RackNames(s)| && Remaining(rackMap, s, t, r)
    ensures var name, list := RackNames(s)[r], RackLists(s)[r];
      |rackMap[name]| > 0 <==> |list| > t
    ensures var name, list := RackNames(s)[r], RackLists(s)[r];
      if |list| > t then rackMap[name][0] == list[t] && Remaining(rackMap[name := rackMap[name][1..]], s, t, r + 1)
      else Remaining(rackMap, s, t, r + 1)
  {
    NamesNoDup(s);
    LeftNext(rackMap, RackNames(s), RackLists(s), t, r);
  }

  /** One round: the head of every non-empty list, in the order of the rack names. */
  method WalkRound(brokers: array<Broker>, racks: map<string, seq<Broker>>, rackNames: seq<string>, start: nat,
                   ghost s: seq<Broker>, ghost t: nat)
    returns (rackMap: map<string, seq<Broker>>, index: nat, again: bool)
    requires Ordered(s, IdLess) && |s| == brokers.Length && rackNames == RackNames(s)
    requires Written(brokers[..], start, s, t, 0) && Remaining(racks, s, t, 0)
    modifies brokers
    ensures Written(brokers[..], index, s, t, |rackNames|) && Remaining(rackMap, s, t + 1, 0)
    ensures again <==> exists q :: 0 <= q < |rackNames| && |RackLists(s)[q]| > t
  {
    rackMap, index, again := racks, start, false;
    for r := 0 to |rackNames|
      invariant Written(brokers[..], index, s, t, r) && Remaining(rackMap, s, t, r)
      invariant again <==> exists q :: 0 <= q < r && |RackLists(s)[q]| > t
    {
      var brokerList := rackMap[rackNames[r]];
      RemainingNext(rackMap, s, t, r);
      if |brokerList| > 0 {
        EmittedFits(s, t, r + 1);
        WriteNext(brokers[..], index, s, t, r);
        rackMap := rackMap[rackNames[r] := brokerList[1..]];
        brokers[index] := brokerList[0];
        index := index + 1;
        again := true;
      }
    }
  }

  lemma WalkStart(s: seq<Broker>, racks: map<string, seq<Broker>>)
    requires Grouped(racks, RackNames(s), s)
    ensures Written(s, 0, s, 0, 0) && Remaining(racks, s, 0, 0)
  {}

  lemma WalkEnd(out: seq<Broker>, index: int, s: seq<Broker>, t: nat)
    requires Ordered(s, IdLess) && AllRacked(s) && |out| == |s|
    requires Written(out, index, s, t, 0) && t >= Longest(Sizes(RackLists(s)))
    ensures out == Alternated(s)
  {
    EmittedDone(Sizes(RackLists(s)), t, 0);
    AlternatedPermutes(s);
    assert out[..index] == out;
  }

  /** There is another round exactly while some list is longer than the rounds so far. */
  lemma AgainIff(s: seq<Broker>, t: nat)
    ensures (exists q :: 0 <= q < |RackNames(s)| && |RackLists(s)[q]| > t) <==> t < Longest(Sizes(RackLists(s)))
  {
    var sizes := Sizes(RackLists(s));
    if t < Longest(sizes) {
      var q :| 0 <= q < |sizes| && sizes[q] == Longest(sizes);
      assert |RackLists(s)[q]| > t;
    }
    assert forall q :: 0 <= q < |sizes| ==> sizes[q] == |RackLists(s)[q]| <= Longest(sizes);
  }

  /** The walk over the racks, overwriting the slice from its start until a round finds every list empty. */
  method Interleave(brokers: array<Broker>, racks: map<string, seq<Broker>>, rackNames: seq<string>)
    requires Ordered(brokers[..], IdLess) && AllRacked(brokers[..])
    requires Grouped(racks, rackNames, brokers[..])
    modifies brokers
    ensures brokers[..] == Alternated(old(brokers[..]))
  {
    ghost var s, t := brokers[..], 0;
    ghost var sizes := Sizes(RackLists(s));
    WalkStart(s, racks);
    var rackMap, index, again := racks, 0, true;
    while again
      invariant Written(brokers[..], index, s, t, 0) && Remaining(rackMap, s, t, 0)
      invariant if again then t <= Longest(sizes) else t > Longest(sizes)
      decreases again, Longest(sizes) - t
    {
      AgainIff(s, t);
      rackMap, index, again := WalkRound(brokers, rackMap, rackNames, index, s, t);
      t := t + 1;
    }
    WalkEnd(brokers[..], index, s, t);
  }

  lemma LaidOut(assignments: map<int, seq<int>>, partitions: nat, order: seq<Broker>)
    requires assignments == map p | 0 <= p < partitions :: Replicas(order, p)
    ensures forall p :: p in assignments <==> 0 <= p < partitions
    ensures forall p :: p in assignments ==> |assignments[p]| == ReplicationFactor(|order|)
    ensures forall p, r :: p in assignments && 0 <= r < ReplicationFactor(|order|) ==>
              assignments[p][r] == order[(p + r) % |order|].id
  {}

  /** The last loop: replicas of each partition, read off the reordered slice. */
  method LayOut(partitions: nat, replicationFactor: nat, brokers: array<Broker>)
    returns (assignments: map<int, seq<int>>)
    requires replicationFactor == ReplicationFactor(brokers.Length)
    ensures assignments == map p | 0 <= p < partitions :: Replicas(brokers[..], p)
    ensures forall p :: p in assignments <==> 0 <= p < partitions
    ensures forall p :: p in assignments ==> |assignments[p]| == replicationFactor
    ensures forall p, r :: p in assignments && 0 <= r < replicationFactor ==>
              assignments[p][r] == brokers[(p + r) % brokers.Length].id
  {
    assignments := map[];
    for p := 0 to partitions
      invariant assignments == map q | 0 <= q < p :: Replicas(brokers[..], q)
    {
      var replicas, k := [], p;
      for r := 0 to replicationFactor
        invariant k == p + r && replicas == Replicas(brokers[..], p)[..r]
      {
        replicas := replicas + [brokers[k % brokers.Length].id];
        k := k + 1;
      }
      assert replicas == Replicas(brokers[..], p);
      assignments := assignments[p := replicas];
    }
    LaidOut(assignments, partitions, brokers[..]);
  }

  /** Assignments and min.insync.replicas for a topic that has currentPartitions partitions. */
  method RequestedAssignments(currentPartitions: nat, brokers: array<Broker>)
    returns (assignments: map<int, seq<int>>, minISR: int)
    requires DistinctIds(brokers[..])
    modifies brokers
    ensures brokers[..] == BrokerOrder(old(brokers[..]))
    ensures assignments == Requested(currentPartitions, old(brokers[..]))
    ensures forall p :: p in assignments <==> 0 <= p < Max(currentPartitions, brokers.Length)
    ensures forall p :: p in assignments ==> |assignments[p]| == Min(brokers.Length, 3)
    ensures forall p, r :: p in assignments && 0 <= r < Min(brokers.Length, 3) ==>
              assignments[p][r] == brokers[(p + r) % brokers.Length].id
    ensures minISR == MinISR(brokers.Length) == if brokers.Length <= 2 then 1 else 2
  {
    var brokersNumber := brokers.Length;
    var partitions := Max(currentPartitions, brokersNumber);
    var replicationFactor := Min(brokersNumber, 3);
    minISR := Max(1, replicationFactor - 1);
    ghost var given := brokers[..];
    SortByIdOrdered(given);
    SortBrokers(brokers);
    var rackMap, rackNames, brokersWithRack := GroupByRack(brokers);
    if brokersNumber == brokersWithRack {
      Interleave(brokers, rackMap, rackNames);
    }
    assignments := LayOut(partitions, replicationFactor, brokers);
  }
}
