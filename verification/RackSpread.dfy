/** What the rack walk achieves, stated about the set of brokers alone: its exact order, and how far apart
    it keeps the brokers of one rack. */
module RackSpread {
  import opened Sequences
  import opened RackOrder

  ghost function RackMembers(bs: set<Broker>, rack: string): set<Broker> {
    set b | b in bs && b.rack == rack
  }

  ghost function Racks(bs: set<Broker>): set<string> {
    set b | b in bs :: b.rack
  }

  /** The position of b, by ID, among the brokers of its own rack. */
  ghost function RoundOf(bs: set<Broker>, b: Broker): nat {
    |set x | x in bs && x.rack == b.rack && x.id < b.id|
  }

  /** The smallest broker ID of rack r1 is below every ID of rack r2. */
  ghost predicate RackFirst(bs: set<Broker>, r1: string, r2: string) {
    exists x :: x in bs && x.rack == r1 && forall y :: y in bs && y.rack == r2 ==> x.id < y.id
  }

  /** Earlier round first; within a round, the rack with the smaller first ID. */
  ghost predicate Precedes(bs: set<Broker>, a: Broker, b: Broker) {
    a in bs && b in bs &&
    (RoundOf(bs, a) < RoundOf(bs, b) || (RoundOf(bs, a) == RoundOf(bs, b) && RackFirst(bs, a.rack, b.rack)))
  }

  /** The racks that hold more than t brokers. */
  ghost function WiderRacks(bs: set<Broker>, t: nat): set<string> {
    set rack | rack in Racks(bs) && |RackMembers(bs, rack)| > t
  }

  /** The racks that no other rack outnumbers. */
  ghost function LargestRacks(bs: set<Broker>): set<string> {
    set rack | rack in Racks(bs) &&
               forall other :: other in Racks(bs) ==> |RackMembers(bs, other)| <= |RackMembers(bs, rack)|
  }

  // ---------- from lists to sets ----------

  lemma OfRackSet(s: seq<Broker>, rack: string)
    requires Ordered(s, IdLess)
    ensures Elems(OfRack(s, rack)) == RackMembers(Elems(s), rack)
    ensures |OfRack(s, rack)| == |RackMembers(Elems(s), rack)|
    ensures AllRacked(s) ==> (rack in RackNames(s) <==> rack in Racks(Elems(s)))
  {
    OfRackMembers(s, rack);
    ElemsSize(OfRack(s, rack));
    RackNamesMembers(s);
    NoElems(OfRack(s, rack));
    if rack in Racks(Elems(s)) {
      var b :| b in Elems(s) && b.rack == rack;
      assert b in OfRack(s, rack);
    }
  }

  /** In a rack's list sorted by ID, the brokers before place t are those with a smaller ID. */
  lemma BeforeIndex(bs: set<Broker>, rack: string, list: seq<Broker>, t: nat)
    requires Ordered(list, IdLess) && t < |list| && forall b :: b in list <==> b in bs && b.rack == rack
    ensures (set x | x in bs && x.rack == rack && x.id < list[t].id) == Elems(list[..t])
  {
    forall x
      ensures x in list[..t] <==> x in bs && x.rack == rack && x.id < list[t].id
    {
      if x in list && x.id < list[t].id {
        var i :| 0 <= i < |list| && list[i] == x;
        assert list[..t][i] == x;
      }
      assert x in list[..t] ==> x in list;
    }
  }

  lemma RoundIsIndex(s: seq<Broker>, rack: string, t: nat)
    requires Ordered(s, IdLess) && t < |OfRack(s, rack)|
    ensures RoundOf(Elems(s), OfRack(s, rack)[t]) == t
  {
    var list := OfRack(s, rack);
    OfRackMembers(s, rack);
    assert list[t] in list;
    BeforeIndex(Elems(s), rack, list, t);
    ElemsSize(list[..t]);
  }

  /** The slot of a position tells the round and the rack of the broker there. */
  lemma SlotMeaning(s: seq<Broker>, k: nat)
    requires Ordered(s, IdLess) && AllRacked(s) && k < |Alternated(s)|
    ensures var names, sizes := RackNames(s), Sizes(RackLists(s));
      var e := AllSlots(sizes)[k];
      IsSlot(sizes, e)
      && Alternated(s)[k] in Elems(s) && Alternated(s)[k].rack == names[e.rack]
      && RoundOf(Elems(s), Alternated(s)[k]) == e.round
      && sizes[e.rack] == |RackMembers(Elems(s), names[e.rack])|
  {
    var names, sizes := RackNames(s), Sizes(RackLists(s));
    var e := AllSlots(sizes)[k];
    assert e in AllSlots(sizes);
    RoundIsIndex(s, names[e.rack], e.round);
    OfRackMembers(s, names[e.rack]);
    OfRackSet(s, names[e.rack]);
    assert Alternated(s)[k] == OfRack(s, names[e.rack])[e.round];
    assert Alternated(s)[k] in OfRack(s, names[e.rack]);
  }

  lemma ComparePositions(s: seq<Broker>, k: nat, l: nat)
    requires Ordered(s, IdLess) && AllRacked(s) && k < |s| && l < |s|
    ensures |Alternated(s)| == |s|
    ensures var slots, out := AllSlots(Sizes(RackLists(s))), Alternated(s);
      (k < l <==> SlotLess(slots[k], slots[l]))
      && (out[k].rack == out[l].rack <==> slots[k].rack == slots[l].rack)
  {
    var sizes := Sizes(RackLists(s));
    AlternatedPermutes(s);
    NamesNoDup(s);
    EmittedOrdered(sizes, Longest(sizes), 0);
    SlotOrder(AllSlots(sizes), k, l);
    SlotMeaning(s, k);
    SlotMeaning(s, l);
  }

  lemma SlotOrder(slots: seq<Slot>, k: nat, l: nat)
    requires Ordered(slots, SlotLess) && k < |slots| && l < |slots|
    ensures k < l <==> SlotLess(slots[k], slots[l])
  {}

  lemma SlotAt(s: seq<Broker>, rack: string, t: nat) returns (k: nat)
    requires Ordered(s, IdLess) && AllRacked(s) && rack in WiderRacks(Elems(s), t)
    ensures k < |Alternated(s)| && Alternated(s)[k].rack == rack
    ensures AllSlots(Sizes(RackLists(s)))[k].round == t
  {
    var names, sizes := RackNames(s), Sizes(RackLists(s));
    OfRackSet(s, rack);
    var r :| 0 <= r < |names| && names[r] == rack;
    EmittedComplete(sizes, Longest(sizes), 0, Slot(t, r));
    k :| 0 <= k < |AllSlots(sizes)| && AllSlots(sizes)[k] == Slot(t, r);
    SlotMeaning(s, k);
  }

  // ---------- the order ----------

  lemma PrecedesAsymmetric(bs: set<Broker>)
    ensures Asymmetric((a, b) => Precedes(bs, a, b))
  {}

  /** The walk leaves the brokers in the order Precedes, and no other sequence of them is so ordered. */
  lemma {:induction false} AlternatedOrder(s: seq<Broker>)
    requires Ordered(s, IdLess) && AllRacked(s)
    ensures Ordered(Alternated(s), (a, b) => Precedes(Elems(s), a, b))
    ensures forall out :: Elems(out) == Elems(s) && Ordered(out, (a, b) => Precedes(Elems(s), a, b)) ==>
              out == Alternated(s)
  {
    var bs, out, names, sizes := Elems(s), Alternated(s), RackNames(s), Sizes(RackLists(s));
    var slots := AllSlots(sizes);
    EmittedOrdered(sizes, Longest(sizes), 0);
    AlternatedPermutes(s);
    RackNamesOrdered(s);
    forall i, j | 0 <= i < j < |out|
      ensures Precedes(bs, out[i], out[j])
    {
      SlotMeaning(s, i);
      SlotMeaning(s, j);
      assert SlotLess(slots[i], slots[j]);
      if slots[i].round == slots[j].round {
        RackFirstByName(s, slots[i].rack, slots[j].rack);
      }
    }
    PrecedesAsymmetric(bs);
    forall other: seq<Broker> | Elems(other) == bs && Ordered(other, (a, b) => Precedes(bs, a, b))
      ensures other == out
    {
      OrderedUnique(other, out, (a, b) => Precedes(bs, a, b));
    }
  }

  lemma RackFirstByName(s: seq<Broker>, i: nat, j: nat)
    requires Ordered(s, IdLess) && i < j < |RackNames(s)|
    ensures RackFirst(Elems(s), RackNames(s)[i], RackNames(s)[j])
  {
    var names := RackNames(s);
    RackNamesOrdered(s);
    var mine, theirs := OfRack(s, names[i]), OfRack(s, names[j]);
    OfRackMembers(s, names[i]);
    OfRackMembers(s, names[j]);
    assert mine[0] in mine;
    forall y | y in Elems(s) && y.rack == names[j]
      ensures mine[0].id < y.id
    {
      assert y in theirs;
    }
  }

  // ---------- the distances ----------

  ghost function RackSeq(out: seq<Broker>): seq<string> {
    seq(|out|, k requires 0 <= k < |out| => out[k].rack)
  }

  /** A rack with a broker in the round of position j has one at position i or later, before j. */
  lemma {:induction false} WiderBetween(s: seq<Broker>, i: nat, j: nat, rack: string) returns (k: nat)
    requires Ordered(s, IdLess) && AllRacked(s) && i < j < |Alternated(s)|
    requires Alternated(s)[i].rack == Alternated(s)[j].rack
    requires rack in WiderRacks(Elems(s), RoundOf(Elems(s), Alternated(s)[j]))
    ensures i <= k < j && Alternated(s)[k].rack == rack
  {
    var slots := AllSlots(Sizes(RackLists(s)));
    AlternatedPermutes(s);
    SlotMeaning(s, i);
    SlotMeaning(s, j);
    ComparePositions(s, i, j);
    k := SlotAt(s, rack, slots[i].round);
    ComparePositions(s, k, i);
    ComparePositions(s, k, j);
    if k < i {
      var next := SlotAt(s, rack, slots[i].round + 1);
      ComparePositions(s, k, next);
      ComparePositions(s, next, i);
      ComparePositions(s, next, j);
      k := next;
    }
  }

  /** Two brokers of one rack are at least as far apart as there are racks with more brokers than the
      round of the later one. */
  lemma {:induction false} RackGap(s: seq<Broker>, i: nat, j: nat)
    requires Ordered(s, IdLess) && AllRacked(s) && i < j < |Alternated(s)|
    requires Alternated(s)[i].rack == Alternated(s)[j].rack
    ensures j - i >= |WiderRacks(Elems(s), RoundOf(Elems(s), Alternated(s)[j]))|
  {
    var between := RackSeq(Alternated(s))[i..j];
    var wide := WiderRacks(Elems(s), RoundOf(Elems(s), Alternated(s)[j]));
    forall rack | rack in wide
      ensures rack in Elems(between)
    {
      var k := WiderBetween(s, i, j, rack);
      assert between[k - i] == rack;
    }
    ElemsSize(between);
    SubsetSize(wide, Elems(between));
  }

  /** A rack of the largest size has a broker at position j or later, or one before position i. */
  lemma {:induction false} LargestAround(s: seq<Broker>, i: nat, j: nat, rack: string) returns (k: nat)
    requires Ordered(s, IdLess) && AllRacked(s) && i <= j < |Alternated(s)|
    requires Alternated(s)[i].rack == Alternated(s)[j].rack
    requires rack in LargestRacks(Elems(s))
    ensures k < |Alternated(s)| && Alternated(s)[k].rack == rack && (k < i || j <= k)
  {
    var bs := Elems(s);
    AlternatedPermutes(s);
    SlotMeaning(s, i);
    SlotMeaning(s, j);
    assert Alternated(s)[j].rack in Racks(bs);
    assert |RackMembers(bs, Alternated(s)[j].rack)| <= |RackMembers(bs, rack)|;
    k := SlotAt(s, rack, |RackMembers(bs, rack)| - 1);
    ComparePositions(s, k, j);
    if k < j {
      var first := SlotAt(s, rack, 0);
      ComparePositions(s, k, first);
      ComparePositions(s, first, i);
      ComparePositions(s, i, j);
      k := first;
    }
  }

  /** Across the end of the list: the way from position j on to position i is at least as long as there are
      racks of the largest size. */
  lemma {:induction false} RackGapAround(s: seq<Broker>, i: nat, j: nat)
    requires Ordered(s, IdLess) && AllRacked(s) && i <= j < |Alternated(s)|
    requires Alternated(s)[i].rack == Alternated(s)[j].rack
    ensures i + |s| - j >= |LargestRacks(Elems(s))|
  {
    var out, large := Alternated(s), LargestRacks(Elems(s));
    var around := RackSeq(out)[j..] + RackSeq(out)[..i];
    forall rack | rack in large
      ensures rack in Elems(around)
    {
      var k := LargestAround(s, i, j, rack);
      assert around[if k < i then |out| - j + k else k - j] == rack;
    }
    AlternatedPermutes(s);
    ElemsSize(around);
    SubsetSize(large, Elems(around));
  }

  /** Cyclically, two different positions of one rack are nowhere closer than the number of largest racks. */
  lemma {:induction false} RackGapCyclic(s: seq<Broker>, i: nat, j: nat)
    requires Ordered(s, IdLess) && AllRacked(s) && i < j < |Alternated(s)|
    requires Alternated(s)[i].rack == Alternated(s)[j].rack
    ensures |LargestRacks(Elems(s))| <= j - i <= |s| - |LargestRacks(Elems(s))|
  {
    var bs := Elems(s);
    RackGap(s, i, j);
    RackGapAround(s, i, j);
    SlotMeaning(s, j);
    var wide := WiderRacks(bs, RoundOf(bs, Alternated(s)[j]));
    assert Alternated(s)[j].rack in Racks(bs);
    assert LargestRacks(bs) <= wide;
    SubsetSize(LargestRacks(bs), wide);
  }
}
