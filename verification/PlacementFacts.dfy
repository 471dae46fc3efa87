/** What the placement guarantees, whatever brokers the cluster reports. */
module PlacementFacts {
  import opened ModArith
  import opened Sequences
  import opened RackOrder
  import opened RackSpread
  import opened Placement

  // ---------- the order of the brokers ----------

  /** The reordered slice holds the same brokers and is sorted by round, then by the racks' first IDs. */
  lemma OrderSpec(brokers: seq<Broker>)
    requires DistinctIds(brokers)
    ensures multiset(BrokerOrder(brokers)) == multiset(brokers)
    ensures if AllRacked(brokers)
      then Ordered(BrokerOrder(brokers), (a, b) => Precedes(Elems(brokers), a, b))
      else Ordered(BrokerOrder(brokers), IdLess)
  {
    BrokerOrderPermutes(brokers);
    SortByIdOrdered(brokers);
    AllRackedSet(brokers, SortById(brokers));
    if AllRacked(brokers) {
      AlternatedOrder(SortById(brokers));
    }
  }

  ghost predicate FirstOfRack(bs: set<Broker>, x: Broker) {
    x in bs && forall b :: b in bs && b.rack == x.rack ==> x.id <= b.id
  }

  /** The first round takes the racks by their smallest broker ID, not by name: in the example of the
      source's comment broker 1 of rack3 comes before broker 3 of rack2. */
  lemma {:induction false} FirstRound(brokers: seq<Broker>, i: nat, j: nat)
    requires DistinctIds(brokers) && AllRacked(brokers) && i < j < |BrokerOrder(brokers)|
    requires FirstOfRack(Elems(brokers), BrokerOrder(brokers)[i])
        && FirstOfRack(Elems(brokers), BrokerOrder(brokers)[j])
    ensures BrokerOrder(brokers)[i].id < BrokerOrder(brokers)[j].id
  {
    OrderSpec(brokers);
    BrokerOrderPermutes(brokers);
    DistinctIdsSet(BrokerOrder(brokers));
    if BrokerOrder(brokers)[j].id < BrokerOrder(brokers)[i].id {
      FirstsInOrder(Elems(brokers), BrokerOrder(brokers)[j], BrokerOrder(brokers)[i]);
    }
  }

  lemma FirstsInOrder(bs: set<Broker>, x: Broker, y: Broker)
    requires FirstOfRack(bs, x) && y in bs && x.id < y.id
    ensures !Precedes(bs, y, x)
  {
    assert (set b | b in bs && b.rack == x.rack && b.id < x.id) == {};
    var before := set b | b in bs && b.rack == y.rack && b.id < y.id;
    if RackFirst(bs, y.rack, x.rack) {
      var z :| z in bs && z.rack == y.rack && forall b :: b in bs && b.rack == x.rack ==> z.id < b.id;
      assert z in before;
      assert |before| > 0;
    }
  }

  const COMMENT_BROKERS: seq<Broker> :=
    [Broker(0, "rack1"), Broker(1, "rack3"), Broker(2, "rack3"),
     Broker(3, "rack2"), Broker(4, "rack2"), Broker(5, "rack1")]

  lemma RoundsOfPair(bs: set<Broker>, x: Broker, y: Broker)
    requires RackMembers(bs, x.rack) == {x, y} && x.rack == y.rack && x.id < y.id
    ensures RoundOf(bs, x) == 0 && RoundOf(bs, y) == 1
  {
    assert forall b :: b in bs && b.rack == x.rack ==> b in RackMembers(bs, x.rack);
    assert x in RackMembers(bs, x.rack) && y in RackMembers(bs, x.rack);
    assert (set b | b in bs && b.rack == x.rack && b.id < x.id) == {};
    assert (set b | b in bs && b.rack == y.rack && b.id < y.id) == {x};
  }

  lemma SmallestFirst(bs: set<Broker>, x: Broker, y: Broker, rest: Broker)
    requires x in bs && RackMembers(bs, y.rack) == {y, rest} && x.id < y.id && x.id < rest.id
    ensures RackFirst(bs, x.rack, y.rack)
  {
    forall b | b in bs && b.rack == y.rack
      ensures x.id < b.id
    {
      assert b in RackMembers(bs, y.rack);
    }
  }

  lemma SameRound(bs: set<Broker>, order: seq<Broker>, i: nat, j: nat)
    requires |order| == 6 && (i < j < 3 || 3 <= i < j < 6)
    requires order[3].rack == order[0].rack && order[4].rack == order[1].rack && order[5].rack == order[2].rack
    requires RackFirst(bs, order[0].rack, order[1].rack) && RackFirst(bs, order[0].rack, order[2].rack)
    requires RackFirst(bs, order[1].rack, order[2].rack)
    ensures RackFirst(bs, order[i].rack, order[j].rack)
  {
    assert i == 0 || i == 1 || i == 3 || i == 4;
  }

  lemma TwoRounds(bs: set<Broker>, order: seq<Broker>)
    requires |order| == 6
    requires forall i :: 0 <= i < 6 ==> order[i] in bs && RoundOf(bs, order[i]) == if i < 3 then 0 else 1
    requires order[3].rack == order[0].rack && order[4].rack == order[1].rack && order[5].rack == order[2].rack
    requires RackFirst(bs, order[0].rack, order[1].rack) && RackFirst(bs, order[0].rack, order[2].rack)
    requires RackFirst(bs, order[1].rack, order[2].rack)
    ensures Ordered(order, (x, y) => Precedes(bs, x, y))
  {
    forall i, j | 0 <= i < j < 6
      ensures Precedes(bs, order[i], order[j])
    {
      if i < 3 <= j {
        assert RoundOf(bs, order[i]) == 0 && RoundOf(bs, order[j]) == 1;
      } else {
        SameRound(bs, order, i, j);
      }
    }
  }

  /** Whatever sequence of the brokers has the alternating order is the reordered slice. */
  lemma OrderDetermined(brokers: seq<Broker>, order: seq<Broker>)
    requires DistinctIds(brokers) && AllRacked(brokers) && Elems(order) == Elems(brokers)
    requires Ordered(order, (x, y) => Precedes(Elems(brokers), x, y))
    ensures BrokerOrder(brokers) == order
  {
    OrderSpec(brokers);
    BrokerOrderPermutes(brokers);
    PrecedesAsymmetric(Elems(brokers));
    OrderedUnique(order, BrokerOrder(brokers), (x, y) => Precedes(Elems(brokers), x, y));
  }

  /** The brokers of the source's comment come out as 0, 1, 3, 5, 2, 4. */
  lemma {:induction false} CommentExample(b: seq<Broker>)
    requires b == COMMENT_BROKERS
    ensures BrokerOrder(b) == [b[0], b[1], b[3], b[5], b[2], b[4]]
  {
    var order := [b[0], b[1], b[3], b[5], b[2], b[4]];
    ExampleOrdered(b, order);
    OrderDetermined(b, order);
  }

  lemma ExampleRacks(b: seq<Broker>)
    requires b == COMMENT_BROKERS
    ensures Elems(b) == Elems([b[0], b[1], b[3], b[5], b[2], b[4]]) == {b[0], b[1], b[2], b[3], b[4], b[5]}
    ensures RackMembers(Elems(b), b[0].rack) == {b[0], b[5]}
    ensures RackMembers(Elems(b), b[1].rack) == {b[1], b[2]}
    ensures RackMembers(Elems(b), b[3].rack) == {b[3], b[4]}
  {
    assert Elems(b) == {b[0], b[1], b[2], b[3], b[4], b[5]} == Elems([b[0], b[1], b[3], b[5], b[2], b[4]]);
  }

  lemma ExampleRounds(b: seq<Broker>, order: seq<Broker>)
    requires b == COMMENT_BROKERS && order == [b[0], b[1], b[3], b[5], b[2], b[4]]
    ensures Elems(order) == Elems(b)
    ensures forall i :: 0 <= i < 6 ==> order[i] in Elems(b) && RoundOf(Elems(b), order[i]) == if i < 3 then 0 else 1
  {
    ExampleRacks(b);
    RoundsOfPair(Elems(b), b[0], b[5]);
    RoundsOfPair(Elems(b), b[1], b[2]);
    RoundsOfPair(Elems(b), b[3], b[4]);
    assert forall i :: 0 <= i < 6 ==> order[i] in Elems(order);
  }

  lemma ExampleFirsts(b: seq<Broker>)
    requires b == COMMENT_BROKERS
    ensures var bs := Elems(b);
      RackFirst(bs, b[0].rack, b[1].rack) && RackFirst(bs, b[0].rack, b[3].rack) && RackFirst(bs, b[1].rack, b[3].rack)
  {
    ExampleRacks(b);
    SmallestFirst(Elems(b), b[0], b[1], b[2]);
    SmallestFirst(Elems(b), b[0], b[3], b[4]);
    SmallestFirst(Elems(b), b[1], b[3], b[4]);
  }

  lemma ExampleOrdered(b: seq<Broker>, order: seq<Broker>)
    requires b == COMMENT_BROKERS && order == [b[0], b[1], b[3], b[5], b[2], b[4]]
    ensures Elems(order) == Elems(b) && Ordered(order, (x, y) => Precedes(Elems(b), x, y))
  {
    ExampleRounds(b, order);
    ExampleFirsts(b);
    TwoRounds(Elems(b), order);
  }

  lemma AllRackedSet(s: seq<Broker>, t: seq<Broker>)
    requires Elems(s) == Elems(t)
    ensures AllRacked(s) <==> AllRacked(t)
  {
    assert AllRacked(s) <==> forall x :: x in Elems(s) ==> x.rack != "";
    assert AllRacked(t) <==> forall x :: x in Elems(t) ==> x.rack != "";
  }

  /** Two brokers of one rack stay at least as far apart as there are racks reaching the later one's round. */
  lemma OrderGap(brokers: seq<Broker>, i: nat, j: nat)
    requires DistinctIds(brokers) && AllRacked(brokers) && i < j < |brokers|
    ensures |BrokerOrder(brokers)| == |brokers|
    ensures var out := BrokerOrder(brokers);
      out[i].rack == out[j].rack ==> j - i >= |WiderRacks(Elems(brokers), RoundOf(Elems(brokers), out[j]))|
  {
    BrokerOrderPermutes(brokers);
    SortByIdOrdered(brokers);
    AllRackedSet(brokers, SortById(brokers));
    if BrokerOrder(brokers)[i].rack == BrokerOrder(brokers)[j].rack {
      RackGap(SortById(brokers), i, j);
    }
  }

  lemma OrderFromSet(s: seq<Broker>, t: seq<Broker>)
    requires DistinctIds(s) && DistinctIds(t) && Elems(s) == Elems(t)
    ensures BrokerOrder(s) == BrokerOrder(t) && |s| == |t|
  {
    SortByIdOrdered(s);
    SortByIdOrdered(t);
    OrderedUnique(SortById(s), SortById(t), IdLess);
  }

  /** The placement depends on which brokers there are, not on the order in which they were reported. */
  lemma PlacementFromSet(currentPartitions: nat, s: seq<Broker>, t: seq<Broker>)
    requires DistinctIds(s) && DistinctIds(t) && Elems(s) == Elems(t)
    ensures Requested(currentPartitions, s) == Requested(currentPartitions, t) && MinISR(|s|) == MinISR(|t|)
  {
    OrderFromSet(s, t);
  }

  /** Called again on the slice it has reordered, the placement is the same and so is the slice. */
  lemma PlacementAgain(currentPartitions: nat, s: seq<Broker>)
    requires DistinctIds(s)
    ensures DistinctIds(BrokerOrder(s)) && BrokerOrder(BrokerOrder(s)) == BrokerOrder(s)
    ensures Requested(currentPartitions, BrokerOrder(s)) == Requested(currentPartitions, s)
  {
    BrokerOrderPermutes(s);
    DistinctIdsSet(s);
    DistinctIdsSet(BrokerOrder(s));
    OrderFromSet(s, BrokerOrder(s));
  }

  // ---------- replicas and load ----------

  lemma ReplicaAt(brokers: seq<Broker>, p: nat, r: nat)
    requires DistinctIds(brokers) && r < ReplicationFactor(|brokers|)
    ensures |BrokerOrder(brokers)| == |brokers| && |Replicas(BrokerOrder(brokers), p)| == ReplicationFactor(|brokers|)
    ensures BrokerOrder(brokers)[(p + r) % |brokers|] in Elems(brokers)
    ensures Replicas(BrokerOrder(brokers), p)[r] == BrokerOrder(brokers)[(p + r) % |brokers|].id
  {
    BrokerOrderPermutes(brokers);
    var order, k := BrokerOrder(brokers), (p + r) % |brokers|;
    assert 0 <= k < |order|;
    assert order[k] in Elems(order);
  }

  lemma SamePlace(brokers: seq<Broker>, i: nat, j: nat)
    requires DistinctIds(brokers) && i < |brokers| && j < |brokers|
    ensures |BrokerOrder(brokers)| == |brokers|
    ensures BrokerOrder(brokers)[i].id == BrokerOrder(brokers)[j].id ==> i == j
  {
    BrokerOrderPermutes(brokers);
    DistinctIdsSet(brokers);
    DistinctIdsSet(BrokerOrder(brokers));
  }

  lemma DifferentPlaces(brokers: seq<Broker>, p: nat, i: nat, j: nat)
    requires DistinctIds(brokers) && i < j < |brokers|
    ensures |BrokerOrder(brokers)| == |brokers|
    ensures BrokerOrder(brokers)[(p + i) % |brokers|] != BrokerOrder(brokers)[(p + j) % |brokers|]
    ensures BrokerOrder(brokers)[(p + i) % |brokers|].id != BrokerOrder(brokers)[(p + j) % |brokers|].id
  {
    ModDistinct(p + i, p + j, |brokers|);
    SamePlace(brokers, (p + i) % |brokers|, (p + j) % |brokers|);
  }

  lemma DifferentReplicas(brokers: seq<Broker>, p: nat, i: nat, j: nat)
    requires DistinctIds(brokers) && i < j < ReplicationFactor(|brokers|)
    ensures |Replicas(BrokerOrder(brokers), p)| == ReplicationFactor(|brokers|)
    ensures Replicas(BrokerOrder(brokers), p)[i] != Replicas(BrokerOrder(brokers), p)[j]
  {
    ReplicaAt(brokers, p, i);
    ReplicaAt(brokers, p, j);
    DifferentPlaces(brokers, p, i, j);
  }

  /** Every partition gets min(n, 3) replicas, on different brokers of the cluster. */
  lemma ReplicasDistinct(currentPartitions: nat, brokers: seq<Broker>, p: int)
    requires DistinctIds(brokers) && p in Requested(currentPartitions, brokers)
    ensures var replicas := Requested(currentPartitions, brokers)[p];
      |replicas| == Min(|brokers|, 3) && NoDup(replicas)
      && forall id :: id in replicas ==> exists b :: b in brokers && b.id == id
  {
    var replicas := Replicas(BrokerOrder(brokers), p);
    BrokerOrderPermutes(brokers);
    forall i, j | 0 <= i < j < |replicas|
      ensures replicas[i] != replicas[j]
    {
      DifferentReplicas(brokers, p, i, j);
    }
    forall id | id in replicas
      ensures exists b :: b in brokers && b.id == id
    {
      ReplicaReported(brokers, p, id);
    }
  }

  lemma ReplicaReported(brokers: seq<Broker>, p: nat, id: int)
    requires DistinctIds(brokers) && id in Replicas(BrokerOrder(brokers), p)
    ensures exists b :: b in brokers && b.id == id
  {
    BrokerOrderPermutes(brokers);
    var r :| 0 <= r < ReplicationFactor(|brokers|) && Replicas(BrokerOrder(brokers), p)[r] == id;
    ReplicaAt(brokers, p, r);
  }

  lemma IdLessAsymmetric()
    ensures Asymmetric(IdLess)
  {}

  /** The broker at position k has k brokers with a smaller ID, unless all have a rack. */
  lemma PlaceById(brokers: seq<Broker>, k: nat)
    requires DistinctIds(brokers) && !AllRacked(brokers) && k < |brokers|
    ensures |BrokerOrder(brokers)| == |brokers|
    ensures |set b | b in Elems(brokers) && b.id < BrokerOrder(brokers)[k].id| == k
  {
    var order := BrokerOrder(brokers);
    BrokerOrderPermutes(brokers);
    OrderSpec(brokers);
    IdLessAsymmetric();
    Predecessors(order, IdLess, k, set b | b in Elems(brokers) && b.id < order[k].id);
  }

  /** If all have a rack, it has k brokers before it by round and then by the racks' first IDs. */
  lemma PlaceByRack(brokers: seq<Broker>, k: nat)
    requires DistinctIds(brokers) && AllRacked(brokers) && k < |brokers|
    ensures |BrokerOrder(brokers)| == |brokers|
    ensures |set b | b in Elems(brokers) && Precedes(Elems(brokers), b, BrokerOrder(brokers)[k])| == k
  {
    var order, less := BrokerOrder(brokers), (x, y) => Precedes(Elems(brokers), x, y);
    BrokerOrderPermutes(brokers);
    OrderSpec(brokers);
    PrecedesAsymmetric(Elems(brokers));
    Predecessors(order, less, k, set b | b in Elems(brokers) && Precedes(Elems(brokers), b, order[k]));
  }

  /** Which broker is replica r of partition p, leader included: the one with exactly (p + r) mod n brokers
      before it, counted by ID, or, if all have a rack, by round and then by the racks' first IDs. */
  lemma {:induction false} ReplicaOrder(currentPartitions: nat, brokers: seq<Broker>, p: int, r: nat)
    requires DistinctIds(brokers) && p in Requested(currentPartitions, brokers) && r < Min(|brokers|, 3)
    ensures var replicas, n := Requested(currentPartitions, brokers)[p], |brokers|;
      |replicas| == Min(n, 3) && |BrokerOrder(brokers)| == n
      && replicas[r] == BrokerOrder(brokers)[(p + r) % n].id
      && exists x :: x in brokers && x.id == replicas[r]
           && if AllRacked(brokers)
              then |set b | b in Elems(brokers) && Precedes(Elems(brokers), b, x)| == (p + r) % n
              else |set b | b in Elems(brokers) && b.id < x.id| == (p + r) % n
  {
    var k := (p + r) % |brokers|;
    ReplicaAt(brokers, p, r);
    var x := BrokerOrder(brokers)[k];
    assert x in Elems(brokers);
    if AllRacked(brokers) {
      PlaceByRack(brokers, k);
    } else {
      PlaceById(brokers, k);
    }
  }

  /** The partitions whose replica r is broker id. */
  ghost function PartitionsAt(a: map<int, seq<int>>, id: int, r: nat): set<int> {
    set p | p in a && r < |a[p]| && a[p][r] == id
  }

  /** The partitions that have a replica on broker id. */
  ghost function PartitionsOn(a: map<int, seq<int>>, id: int): set<int> {
    set p | p in a && id in a[p]
  }

  function Floor(p: nat, n: nat): nat
    requires n > 0
  {
    p / n
  }

  function Ceiling(p: nat, n: nat): nat
    requires n > 0
  {
    (p + n - 1) / n
  }

  /** Each replica position spreads the partitions evenly over the brokers; position 0 is the leader. */
  lemma {:induction false} PositionBalance(currentPartitions: nat, brokers: seq<Broker>, b: Broker, r: nat)
    requires DistinctIds(brokers) && b in brokers && r < ReplicationFactor(|brokers|)
    ensures var partitions, n := Max(currentPartitions, |brokers|), |brokers|;
      Floor(partitions, n) <= |PartitionsAt(Requested(currentPartitions, brokers), b.id, r)| <= Ceiling(partitions, n)
  {
    var a, n, order := Requested(currentPartitions, brokers), |brokers|, BrokerOrder(brokers);
    var partitions := Max(currentPartitions, n);
    BrokerOrderPermutes(brokers);
    assert b in Elems(order);
    var j :| 0 <= j < |order| && order[j] == b;
    forall p
      ensures p in PartitionsAt(a, b.id, r) <==> p in Residues(r, 0, partitions, n, j)
    {
      if 0 <= p < partitions {
        ReplicaAt(brokers, p, r);
        SamePlace(brokers, (p + r) % n, j);
        assert Leaves(r, p, n, j) <==> (r + p) % n == j;
      }
    }
    assert PartitionsAt(a, b.id, r) == Residues(r, 0, partitions, n, j);
    ResidueCount(r, partitions, n, j);
  }

  /** Every broker leads floor(P/n) or ceil(P/n) of the P partitions. */
  lemma LeaderBalance(currentPartitions: nat, brokers: seq<Broker>, b: Broker)
    requires DistinctIds(brokers) && b in brokers
    ensures var partitions, n := Max(currentPartitions, |brokers|), |brokers|;
      var leads := |PartitionsAt(Requested(currentPartitions, brokers), b.id, 0)|;
      leads == Floor(partitions, n) || leads == Ceiling(partitions, n)
  {
    PositionBalance(currentPartitions, brokers, b, 0);
    var partitions, n := Max(currentPartitions, |brokers|), |brokers|;
    FloorCeiling(partitions, n);
  }

  lemma FloorCeiling(p: nat, n: nat)
    requires n > 0
    ensures Floor(p, n) <= Ceiling(p, n) <= Floor(p, n) + 1
    ensures p == n ==> Floor(p, n) == 1 && Ceiling(p, n) == 1
  {
    if p % n == 0 {
      DivModUnique(p + n - 1, n, p / n, n - 1);
    } else {
      DivModUnique(p + n - 1, n, p / n + 1, p % n - 1);
    }
    if p == n {
      DivModUnique(n, n, 1, 0);
      DivModUnique(p + n - 1, n, 1, n - 1);
    }
  }

  /** The partitions that have one of their first r replicas on broker id. */
  ghost function PartitionsUpTo(a: map<int, seq<int>>, id: int, r: nat): set<int> {
    set p | p in a && exists k :: 0 <= k < r && k < |a[p]| && a[p][k] == id
  }

  lemma LoadNext(a: map<int, seq<int>>, id: int, r: nat)
    requires forall p :: p in a ==> NoDup(a[p])
    ensures |PartitionsUpTo(a, id, r + 1)| == |PartitionsUpTo(a, id, r)| + |PartitionsAt(a, id, r)|
  {
    var before, here := PartitionsUpTo(a, id, r), PartitionsAt(a, id, r);
    forall p | p in before
      ensures p !in here
    {
      var k :| 0 <= k < r && k < |a[p]| && a[p][k] == id;
    }
    assert before !! here;
    assert PartitionsUpTo(a, id, r + 1) == before + here;
  }

  lemma {:induction false} LoadUpTo(a: map<int, seq<int>>, id: int, r: nat, floor: nat, ceiling: nat)
    requires forall p :: p in a ==> NoDup(a[p])
    requires forall k :: 0 <= k < r ==> floor <= |PartitionsAt(a, id, k)| <= ceiling
    ensures r * floor <= |PartitionsUpTo(a, id, r)| <= r * ceiling
  {
    if r > 0 {
      LoadUpTo(a, id, r - 1, floor, ceiling);
      LoadNext(a, id, r - 1);
      assert r * floor == (r - 1) * floor + floor && r * ceiling == (r - 1) * ceiling + ceiling;
    } else {
      assert PartitionsUpTo(a, id, 0) == {};
    }
  }

  lemma LoadBounds(a: map<int, seq<int>>, id: int, rf: nat, floor: nat, ceiling: nat)
    requires forall p :: p in a ==> |a[p]| == rf && NoDup(a[p])
    requires forall k :: 0 <= k < rf ==> floor <= |PartitionsAt(a, id, k)| <= ceiling
    ensures rf * floor <= |PartitionsOn(a, id)| <= rf * ceiling
  {
    LoadUpTo(a, id, rf, floor, ceiling);
    forall p
      ensures p in PartitionsUpTo(a, id, rf) <==> p in PartitionsOn(a, id)
    {}
    assert PartitionsUpTo(a, id, rf) == PartitionsOn(a, id);
  }

  /** Every broker carries between RF * floor(P/n) and RF * ceil(P/n) replicas; exactly RF when P = n. */
  lemma ReplicaBalance(currentPartitions: nat, brokers: seq<Broker>, b: Broker)
    requires DistinctIds(brokers) && b in brokers
    ensures var n, rf := |brokers|, ReplicationFactor(|brokers|);
      var partitions, carries := Max(currentPartitions, n), |PartitionsOn(Requested(currentPartitions, brokers), b.id)|;
      rf * Floor(partitions, n) <= carries <= rf * Ceiling(partitions, n) && (partitions == n ==> carries == rf)
  {
    var n, rf := |brokers|, ReplicationFactor(|brokers|);
    var partitions := Max(currentPartitions, n);
    LoadOf(currentPartitions, brokers, b, Floor(partitions, n), Ceiling(partitions, n));
    FloorCeiling(partitions, n);
    assert partitions == n ==> rf * Floor(partitions, n) == rf && rf * Ceiling(partitions, n) == rf;
  }

  lemma LoadOf(currentPartitions: nat, brokers: seq<Broker>, b: Broker, floor: nat, ceiling: nat)
    requires DistinctIds(brokers) && b in brokers
    requires var partitions, n := Max(currentPartitions, |brokers|), |brokers|;
      floor == Floor(partitions, n) && ceiling == Ceiling(partitions, n)
    ensures var rf := ReplicationFactor(|brokers|);
      var carries := |PartitionsOn(Requested(currentPartitions, brokers), b.id)|;
      rf * floor <= carries <= rf * ceiling
  {
    var a, rf := Requested(currentPartitions, brokers), ReplicationFactor(|brokers|);
    forall p | p in a
      ensures |a[p]| == rf && NoDup(a[p])
    {
      ReplicasDistinct(currentPartitions, brokers, p);
    }
    forall k | 0 <= k < rf
      ensures floor <= |PartitionsAt(a, b.id, k)| <= ceiling
    {
      PositionBalance(currentPartitions, brokers, b, k);
    }
    LoadBounds(a, b.id, rf, floor, ceiling);
  }
}
