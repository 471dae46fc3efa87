/** What the placement survives: the loss of a broker, and the loss of a rack. */
module FaultTolerance {
  import opened ModArith
  import opened Sequences
  import opened RackOrder
  import opened RackSpread
  import opened RackDistance
  import opened Placement
  import opened PlacementFacts

  /** The positions of the replicas that are not on a lost broker. */
  ghost function Surviving(replicas: seq<int>, lost: set<int>): set<int> {
    set r | 0 <= r < |replicas| && replicas[r] !in lost
  }

  ghost function Below(n: nat): (s: set<int>)
    ensures |s| == n && forall r :: r in s <==> 0 <= r < n
  {
    if n == 0 then {} else Below(n - 1) + {n - 1}
  }

  lemma MostSurvive(replicas: seq<int>, lost: set<int>)
    requires forall i, j :: 0 <= i < j < |replicas| ==> !(replicas[i] in lost && replicas[j] in lost)
    ensures |Surviving(replicas, lost)| >= |replicas| - 1
  {
    var gone := Below(|replicas|) - Surviving(replicas, lost);
    if gone != {} {
      var r :| r in gone;
      assert gone == {r};
    }
    assert Below(|replicas|) == Surviving(replicas, lost) + gone;
  }

  lemma Covers(currentPartitions: nat, brokers: seq<Broker>, p: int)
    requires 0 <= p < Max(currentPartitions, |brokers|)
    ensures p in Requested(currentPartitions, brokers)
  {}

  /** From two brokers on, and only then, every partition keeps min.insync.replicas replicas when any
      one broker is lost. */
  lemma {:induction false} BrokerLoss(currentPartitions: nat, brokers: seq<Broker>)
    requires DistinctIds(brokers) && brokers != []
    ensures (forall p, id :: p in Requested(currentPartitions, brokers) ==>
               |Surviving(Requested(currentPartitions, brokers)[p], {id})| >= MinISR(|brokers|))
            <==> |brokers| >= 2
  {
    var a := Requested(currentPartitions, brokers);
    forall p, id | p in a && |brokers| >= 2
      ensures |Surviving(a[p], {id})| >= MinISR(|brokers|)
    {
      ReplicasDistinct(currentPartitions, brokers, p);
      MostSurvive(a[p], {id});
    }
    if |brokers| == 1 {
      Covers(currentPartitions, brokers, 0);
      ReplicasDistinct(currentPartitions, brokers, 0);
      assert Surviving(a[0], {a[0][0]}) == {};
    }
  }

  // ---------- racks ----------

  /** No two of the replicas are in one rack. */
  ghost predicate InDifferentRacks(replicas: seq<int>, bs: set<Broker>) {
    forall x, y :: x in bs && y in bs && x != y && x.id in replicas && y.id in replicas ==> x.rack != y.rack
  }

  /** No partition has two of its replicas in one rack. */
  ghost predicate RackDiverse(a: map<int, seq<int>>, bs: set<Broker>) {
    forall p :: p in a ==> InDifferentRacks(a[p], bs)
  }

  ghost predicate EqualRacks(bs: set<Broker>) {
    forall r1, r2 :: r1 in Racks(bs) && r2 in Racks(bs) ==> |RackMembers(bs, r1)| == |RackMembers(bs, r2)|
  }

  lemma IndexOfReplica(currentPartitions: nat, brokers: seq<Broker>, p: int, x: Broker) returns (r: nat)
    requires DistinctIds(brokers) && p in Requested(currentPartitions, brokers)
    requires x in brokers && x.id in Requested(currentPartitions, brokers)[p]
    ensures r < ReplicationFactor(|brokers|) && |BrokerOrder(brokers)| == |brokers|
    ensures BrokerOrder(brokers)[(p + r) % |brokers|] == x
  {
    var replicas := Requested(currentPartitions, brokers)[p];
    ReplicasDistinct(currentPartitions, brokers, p);
    r :| 0 <= r < |replicas| && replicas[r] == x.id;
    ReplicaAt(brokers, p, r);
    DistinctIdsSet(brokers);
  }

  /** d steps on from position p of a list of n, around the end if need be. */
  function Step(p: nat, d: nat, n: nat): (q: nat)
    requires p < n && d < n
    ensures q < n && (d > 0 ==> q != p)
  {
    if p + d < n then p + d else p + d - n
  }

  lemma StepIs(p: nat, d: nat, n: nat)
    requires p < n && d < n
    ensures (p + d) % n == Step(p, d, n)
  {
    DivModUnique(p, n, 0, p);
    ModStep(p, d, n);
  }

  lemma ReplicaIn(currentPartitions: nat, brokers: seq<Broker>, p: nat, r: nat)
    requires DistinctIds(brokers) && p < |brokers| && r < ReplicationFactor(|brokers|)
    ensures |BrokerOrder(brokers)| == |brokers| && p in Requested(currentPartitions, brokers)
    ensures var b := BrokerOrder(brokers)[Step(p, r, |brokers|)];
      b in Elems(brokers) && b.id in Requested(currentPartitions, brokers)[p]
  {
    Covers(currentPartitions, brokers, p);
    StepIs(p, r, |brokers|);
    ReplicaAt(brokers, p, r);
    assert Requested(currentPartitions, brokers)[p][r] in Requested(currentPartitions, brokers)[p];
  }

  /** Two positions fewer than RF steps apart: the partition that starts at the first has replicas on both. */
  lemma DiversePair(currentPartitions: nat, brokers: seq<Broker>, p: nat, d: nat)
    requires DistinctIds(brokers) && p < |brokers| && 0 < d < ReplicationFactor(|brokers|)
    requires RackDiverse(Requested(currentPartitions, brokers), Elems(brokers))
    ensures |BrokerOrder(brokers)| == |brokers|
    ensures BrokerOrder(brokers)[p].rack != BrokerOrder(brokers)[Step(p, d, |brokers|)].rack
  {
    ReplicaIn(currentPartitions, brokers, p, 0);
    ReplicaIn(currentPartitions, brokers, p, d);
    SamePlace(brokers, p, Step(p, d, |brokers|));
    assert InDifferentRacks(Requested(currentPartitions, brokers)[p], Elems(brokers));
  }

  lemma DiverseApart(currentPartitions: nat, brokers: seq<Broker>)
    requires DistinctIds(brokers) && RackDiverse(Requested(currentPartitions, brokers), Elems(brokers))
    ensures Apart(BrokerOrder(brokers), ReplicationFactor(|brokers|))
  {
    var order, n, rf := BrokerOrder(brokers), |brokers|, ReplicationFactor(|brokers|);
    BrokerOrderPermutes(brokers);
    forall i, j | 0 <= i < j < n && order[i].rack == order[j].rack
      ensures rf <= j - i <= n - rf
    {
      if j - i < rf {
        DiversePair(currentPartitions, brokers, i, j - i);
      } else if n - (j - i) < rf {
        DiversePair(currentPartitions, brokers, j, n - (j - i));
      }
    }
  }

  lemma ApartPair(brokers: seq<Broker>, p: nat, i: nat, j: nat)
    requires DistinctIds(brokers) && Apart(BrokerOrder(brokers), ReplicationFactor(|brokers|))
    requires i < j < ReplicationFactor(|brokers|)
    ensures |BrokerOrder(brokers)| == |brokers|
    ensures BrokerOrder(brokers)[(p + i) % |brokers|].rack != BrokerOrder(brokers)[(p + j) % |brokers|].rack
  {
    BrokerOrderPermutes(brokers);
    ModStep(p + i, j - i, |brokers|);
    assert p + i + (j - i) == p + j;
  }

  lemma ApartAt(brokers: seq<Broker>, p: nat, i: nat, j: nat, x: Broker, y: Broker)
    requires DistinctIds(brokers) && Apart(BrokerOrder(brokers), ReplicationFactor(|brokers|)) && x != y
    requires i < ReplicationFactor(|brokers|) && j < ReplicationFactor(|brokers|) && |BrokerOrder(brokers)| == |brokers|
    requires BrokerOrder(brokers)[(p + i) % |brokers|] == x && BrokerOrder(brokers)[(p + j) % |brokers|] == y
    ensures x.rack != y.rack
  {
    if i < j {
      ApartPair(brokers, p, i, j);
    } else {
      ApartPair(brokers, p, j, i);
    }
  }

  lemma ApartReplicas(currentPartitions: nat, brokers: seq<Broker>, p: int, x: Broker, y: Broker)
    requires DistinctIds(brokers) && Apart(BrokerOrder(brokers), ReplicationFactor(|brokers|))
    requires p in Requested(currentPartitions, brokers) && x in brokers && y in brokers && x != y
    requires x.id in Requested(currentPartitions, brokers)[p] && y.id in Requested(currentPartitions, brokers)[p]
    ensures x.rack != y.rack
  {
    var i := IndexOfReplica(currentPartitions, brokers, p, x);
    var j := IndexOfReplica(currentPartitions, brokers, p, y);
    ApartAt(brokers, p, i, j, x, y);
  }

  lemma ApartDiverse(currentPartitions: nat, brokers: seq<Broker>)
    requires DistinctIds(brokers) && Apart(BrokerOrder(brokers), ReplicationFactor(|brokers|))
    ensures RackDiverse(Requested(currentPartitions, brokers), Elems(brokers))
  {
    var a, bs := Requested(currentPartitions, brokers), Elems(brokers);
    forall p, x, y | p in a && x in bs && y in bs && x != y && x.id in a[p] && y.id in a[p]
      ensures x.rack != y.rack
    {
      ApartReplicas(currentPartitions, brokers, p, x, y);
    }
  }

  // ---------- the exact condition ----------

  /** The sizes of the racks, the rack with the smallest broker ID first. */
  function RackSizes(brokers: seq<Broker>): seq<nat> {
    Sizes(RackLists(SortById(brokers)))
  }

  /** RackSizes lists every rack once, in the order of their smallest broker IDs. */
  lemma {:induction false} RackSizesRanked(brokers: seq<Broker>) returns (names: seq<string>)
    requires DistinctIds(brokers) && AllRacked(brokers)
    ensures NoDup(names) && Elems(names) == Racks(Elems(brokers))
    ensures |RackSizes(brokers)| == |names| == |Racks(Elems(brokers))|
    ensures forall r :: 0 <= r < |names| ==> RackSizes(brokers)[r] == |RackMembers(Elems(brokers), names[r])| > 0
    ensures forall q, r :: 0 <= q < r < |names| ==> RackFirst(Elems(brokers), names[q], names[r])
  {
    var s := SortById(brokers);
    SortByIdOrdered(brokers);
    AllRackedSet(brokers, s);
    names := RackNames(s);
    RackNamesMembers(s);
    forall name
      ensures name in Elems(names) <==> name in Racks(Elems(s))
    {
      OfRackSet(s, name);
    }
    assert Elems(names) == Racks(Elems(s));
    ElemsSize(names);
    forall r | 0 <= r < |names|
      ensures RackSizes(brokers)[r] == |RackMembers(Elems(brokers), names[r])| > 0
    {
      assert names[r] in names;
      OfRackSet(s, names[r]);
    }
    forall q, r | 0 <= q < r < |names|
      ensures RackFirst(Elems(brokers), names[q], names[r])
    {
      RackFirstByName(s, q, r);
    }
  }

  /** The placement is rack diverse if and only if, for every rack of two brokers or more, its last two
      brokers are RF apart in the walk, and so are its last and, around the end, its first. */
  lemma {:induction false} DiverseIffSpread(currentPartitions: nat, brokers: seq<Broker>)
    requires DistinctIds(brokers) && AllRacked(brokers)
    ensures RackDiverse(Requested(currentPartitions, brokers), Elems(brokers))
            <==> Spread(RackSizes(brokers), ReplicationFactor(|brokers|))
  {
    SortByIdOrdered(brokers);
    AllRackedSet(brokers, SortById(brokers));
    ApartIffSpread(SortById(brokers), ReplicationFactor(|brokers|));
    if RackDiverse(Requested(currentPartitions, brokers), Elems(brokers)) {
      DiverseApart(currentPartitions, brokers);
    }
    if Apart(BrokerOrder(brokers), ReplicationFactor(|brokers|)) {
      ApartDiverse(currentPartitions, brokers);
    }
  }

  lemma TiedSizes(brokers: seq<Broker>) returns (m: nat)
    requires DistinctIds(brokers) && AllRacked(brokers) && LargestRacks(Elems(brokers)) != {}
    ensures forall r :: 0 <= r < |RackSizes(brokers)| ==> RackSizes(brokers)[r] <= m
    ensures Reaching(RackSizes(brokers), 0, m, m) >= |LargestRacks(Elems(brokers))|
  {
    var bs, sizes := Elems(brokers), RackSizes(brokers);
    var names := RackSizesRanked(brokers);
    var largest :| largest in LargestRacks(bs);
    m := |RackMembers(bs, largest)|;
    forall r | 0 <= r < |sizes|
      ensures sizes[r] <= m
    {
      assert names[r] in Elems(names);
    }
    var places := ReachingRacks(sizes, 0, m, m);
    forall rack | rack in LargestRacks(bs)
      ensures rack in At(names, places)
    {
      assert rack in Elems(names);
      var r :| 0 <= r < |names| && names[r] == rack;
      assert r in places;
    }
    AtSize(names, places, |names|);
    SubsetSize(LargestRacks(bs), At(names, places));
    ReachingIs(sizes, 0, m, m);
  }

  /** When at least as many racks as there are replicas share the largest size, no partition has two
      replicas in one rack, not even where its replicas wrap around the end of the broker list. */
  lemma {:induction false} DiverseIfTied(currentPartitions: nat, brokers: seq<Broker>)
    requires DistinctIds(brokers) && AllRacked(brokers)
    requires ReplicationFactor(|brokers|) <= |LargestRacks(Elems(brokers))|
    ensures RackDiverse(Requested(currentPartitions, brokers), Elems(brokers))
  {
    if brokers != [] {
      var m := TiedSizes(brokers);
      TiedSpread(RackSizes(brokers), m, ReplicationFactor(|brokers|));
      DiverseIffSpread(currentPartitions, brokers);
    }
  }

  /** The promised case: racks of equal size, at least as many as there are replicas. */
  lemma {:induction false} DiverseIfEqual(currentPartitions: nat, brokers: seq<Broker>)
    requires DistinctIds(brokers) && AllRacked(brokers) && EqualRacks(Elems(brokers))
    requires ReplicationFactor(|brokers|) <= |Racks(Elems(brokers))|
    ensures RackDiverse(Requested(currentPartitions, brokers), Elems(brokers))
  {
    assert LargestRacks(Elems(brokers)) == Racks(Elems(brokers));
    DiverseIfTied(currentPartitions, brokers);
  }

  /** With exactly as many racks as replicas, the racks must be of equal size. */
  lemma {:induction false} DiverseIffEqual(currentPartitions: nat, brokers: seq<Broker>)
    requires DistinctIds(brokers) && AllRacked(brokers)
    requires |Racks(Elems(brokers))| == ReplicationFactor(|brokers|)
    ensures RackDiverse(Requested(currentPartitions, brokers), Elems(brokers)) <==> EqualRacks(Elems(brokers))
  {
    var names := RackSizesRanked(brokers);
    DiverseIffSpread(currentPartitions, brokers);
    SpreadAllIffEqual(RackSizes(brokers));
    EqualSizes(brokers, names);
  }

  lemma EqualSizes(brokers: seq<Broker>, names: seq<string>)
    requires Elems(names) == Racks(Elems(brokers)) && |RackSizes(brokers)| == |names|
    requires forall r :: 0 <= r < |names| ==> RackSizes(brokers)[r] == |RackMembers(Elems(brokers), names[r])|
    ensures EqualRacks(Elems(brokers)) <==>
            forall q, r :: 0 <= q < |names| && 0 <= r < |names| ==> RackSizes(brokers)[q] == RackSizes(brokers)[r]
  {
    if EqualRacks(Elems(brokers)) {
      assert forall r :: 0 <= r < |names| ==> names[r] in Elems(names);
    } else {
      var r1, r2 :| r1 in Racks(Elems(brokers)) && r2 in Racks(Elems(brokers))
                    && |RackMembers(Elems(brokers), r1)| != |RackMembers(Elems(brokers), r2)|;
      assert r1 in Elems(names) && r2 in Elems(names);
      var q :| 0 <= q < |names| && names[q] == r1;
      var r :| 0 <= r < |names| && names[r] == r2;
    }
  }

  /** Three racks are not enough for three replicas when they differ in size: of four brokers the first and
      the last are neighbours around the end of the list. */
  lemma {:induction false} UnequalRacksFail(currentPartitions: nat)
    ensures var brokers := [Broker(0, "a"), Broker(1, "b"), Broker(2, "c"), Broker(3, "a")];
      !RackDiverse(Requested(currentPartitions, brokers), Elems(brokers))
  {
    var brokers := [Broker(0, "a"), Broker(1, "b"), Broker(2, "c"), Broker(3, "a")];
    var bs := Elems(brokers);
    assert bs == {brokers[0], brokers[1], brokers[2], brokers[3]};
    assert Racks(bs) == {"a", "b", "c"};
    assert RackMembers(bs, "a") == {brokers[0], brokers[3]};
    assert RackMembers(bs, "b") == {brokers[1]};
    DiverseIffEqual(currentPartitions, brokers);
  }

  // ---------- losing a rack ----------

  ghost function IdsOfRack(brokers: seq<Broker>, rack: string): set<int> {
    set b | b in RackMembers(Elems(brokers), rack) :: b.id
  }

  lemma RackLossKept(currentPartitions: nat, brokers: seq<Broker>, p: int, rack: string)
    requires DistinctIds(brokers) && |brokers| >= 2 && p in Requested(currentPartitions, brokers)
    requires RackDiverse(Requested(currentPartitions, brokers), Elems(brokers))
    ensures |Surviving(Requested(currentPartitions, brokers)[p], IdsOfRack(brokers, rack))| >= MinISR(|brokers|)
  {
    var replicas := Requested(currentPartitions, brokers)[p];
    var lost := IdsOfRack(brokers, rack);
    ReplicasDistinct(currentPartitions, brokers, p);
    assert forall i, j :: 0 <= i < j < |replicas| ==> !(replicas[i] in lost && replicas[j] in lost);
    MostSurvive(replicas, lost);
  }

  lemma FewSurvive(replicas: seq<int>, lost: set<int>, i: nat, j: nat)
    requires i < |replicas| && j < |replicas| && i != j && replicas[i] in lost && replicas[j] in lost
    ensures |Surviving(replicas, lost)| <= |replicas| - 2
  {
    SubsetSize(Surviving(replicas, lost), Below(|replicas|) - {i, j});
  }

  /** Two replicas of one partition in a rack are lost with it. */
  lemma RackLossFails(currentPartitions: nat, brokers: seq<Broker>, p: int, x: Broker, y: Broker)
    requires DistinctIds(brokers) && |brokers| >= 2 && p in Requested(currentPartitions, brokers)
    requires x in brokers && y in brokers && x != y && x.rack == y.rack
    requires x.id in Requested(currentPartitions, brokers)[p] && y.id in Requested(currentPartitions, brokers)[p]
    ensures |Surviving(Requested(currentPartitions, brokers)[p], IdsOfRack(brokers, x.rack))| < MinISR(|brokers|)
  {
    var replicas, lost := Requested(currentPartitions, brokers)[p], IdsOfRack(brokers, x.rack);
    DistinctIdsSet(brokers);
    ReplicasDistinct(currentPartitions, brokers, p);
    var i :| 0 <= i < |replicas| && replicas[i] == x.id;
    var j :| 0 <= j < |replicas| && replicas[j] == y.id;
    assert x in RackMembers(Elems(brokers), x.rack) && y in RackMembers(Elems(brokers), x.rack);
    FewSurvive(replicas, lost, i, j);
  }

  /** With two brokers or more: every partition keeps minISR replicas without any one rack if and only if no
      partition has two replicas in one rack. */
  lemma {:induction false} RackLoss(currentPartitions: nat, brokers: seq<Broker>)
    requires DistinctIds(brokers) && |brokers| >= 2
    ensures (forall p, rack :: p in Requested(currentPartitions, brokers) ==>
               |Surviving(Requested(currentPartitions, brokers)[p], IdsOfRack(brokers, rack))| >= MinISR(|brokers|))
            <==> RackDiverse(Requested(currentPartitions, brokers), Elems(brokers))
  {
    var a, bs := Requested(currentPartitions, brokers), Elems(brokers);
    if RackDiverse(a, bs) {
      forall p, rack | p in a
        ensures |Surviving(a[p], IdsOfRack(brokers, rack))| >= MinISR(|brokers|)
      {
        RackLossKept(currentPartitions, brokers, p, rack);
      }
    } else {
      var p :| p in a && !InDifferentRacks(a[p], bs);
      var x, y :| x in bs && y in bs && x != y && x.id in a[p] && y.id in a[p] && x.rack == y.rack;
      RackLossFails(currentPartitions, brokers, p, x, y);
    }
  }

  // ---------- too few racks ----------

  lemma ApartRacks(order: seq<Broker>, len: nat)
    requires Apart(order, len) && len <= |order|
    ensures |Racks(Elems(order))| >= len
  {
    var first := seq(len, r requires 0 <= r < len => order[r].rack);
    forall r | 0 <= r < len
      ensures first[r] in Racks(Elems(order))
    {
      assert order[r] in Elems(order);
    }
    ElemsSize(first);
    SubsetSize(Elems(first), Racks(Elems(order)));
  }

  /** Fewer racks than replicas: the placement cannot be diverse. */
  lemma {:induction false} DiverseNeedsRacks(currentPartitions: nat, brokers: seq<Broker>)
    requires DistinctIds(brokers) && brokers != []
    requires RackDiverse(Requested(currentPartitions, brokers), Elems(brokers))
    ensures |Racks(Elems(brokers))| >= ReplicationFactor(|brokers|)
  {
    BrokerOrderPermutes(brokers);
    DiverseApart(currentPartitions, brokers);
    ApartRacks(BrokerOrder(brokers), ReplicationFactor(|brokers|));
  }
}
