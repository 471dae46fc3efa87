/** How the topic service orders the brokers before it lays out replicas: sorted by ID, grouped by rack,
    and overwritten in place by a round-robin walk over the racks. */
module RackOrder {
  import opened Sequences

  datatype Broker = Broker(id: int, rack: string)

  // ---------- sorting by ID ----------

  ghost predicate IdLess(x: Broker, y: Broker) {
    x.id < y.id
  }

  /** Kafka never reports two brokers with one ID. */
  ghost predicate DistinctIds(s: seq<Broker>) {
    forall i, j :: 0 <= i < j < |s| ==> s[i].id != s[j].id
  }

  ghost predicate UniqueIds(bs: set<Broker>) {
    forall x, y :: x in bs && y in bs && x.id == y.id ==> x == y
  }

  ghost predicate ById(s: seq<Broker>) {
    forall i, j :: 0 <= i < j < |s| ==> s[i].id <= s[j].id
  }

  function InsertById(b: Broker, s: seq<Broker>): seq<Broker> {
    if s == [] || b.id <= s[0].id then [b] + s else [s[0]] + InsertById(b, s[1..])
  }

  /** The result of the library's sort by ID. */
  function SortById(s: seq<Broker>): seq<Broker> {
    if s == [] then [] else InsertById(s[0], SortById(s[1..]))
  }

  lemma InsertedOrOld(b: Broker, s: seq<Broker>, rest: seq<Broker>, i: nat)
    requires i < |rest| && multiset(rest) == multiset(s) + multiset{b}
    ensures rest[i] == b || rest[i] in s
  {
    assert rest[i] in multiset(rest);
  }

  lemma PrependSmallest(b: Broker, s: seq<Broker>)
    requires ById(s) && forall i :: 0 <= i < |s| ==> b.id <= s[i].id
    ensures ById([b] + s)
  {}

  lemma {:induction false} InsertByIdKeeps(b: Broker, s: seq<Broker>)
    ensures multiset(InsertById(b, s)) == multiset(s) + multiset{b}
  {
    if s == [] || b.id <= s[0].id {
    } else {
      InsertByIdKeeps(b, s[1..]);
      assert s == [s[0]] + s[1..];
    }
  }

  lemma {:induction false} InsertByIdSorts(b: Broker, s: seq<Broker>)
    requires ById(s)
    ensures ById(InsertById(b, s))
  {
    if s == [] || b.id <= s[0].id {
    } else {
      var first, tail, rest := s[0], s[1..], InsertById(b, s[1..]);
      InsertByIdSorts(b, tail);
      InsertByIdKeeps(b, tail);
      forall i | 0 <= i < |rest|
        ensures first.id <= rest[i].id
      {
        InsertedOrOld(b, tail, rest, i);
      }
      PrependSmallest(first, rest);
    }
  }

  lemma {:induction false} SortByIdSorts(s: seq<Broker>)
    ensures ById(SortById(s)) && multiset(SortById(s)) == multiset(s)
  {
    if s == [] {
    } else {
      assert s == [s[0]] + s[1..];
      SortByIdSorts(s[1..]);
      InsertByIdSorts(s[0], SortById(s[1..]));
      InsertByIdKeeps(s[0], SortById(s[1..]));
    }
  }

  lemma DistinctIdsSet(s: seq<Broker>)
    ensures DistinctIds(s) <==> NoDup(s) && UniqueIds(Elems(s))
  {
    if NoDup(s) && UniqueIds(Elems(s)) {
      forall i, j | 0 <= i < j < |s|
        ensures s[i].id != s[j].id
      {
        assert s[i] in Elems(s) && s[j] in Elems(s);
      }
    }
  }

  /** Sorting distinct brokers gives the same brokers, now strictly ordered by ID. */
  lemma SortByIdOrdered(s: seq<Broker>)
    requires DistinctIds(s)
    ensures Ordered(SortById(s), IdLess) && Elems(SortById(s)) == Elems(s) && |SortById(s)| == |s|
  {
    var t := SortById(s);
    SortByIdSorts(s);
    DistinctIdsSet(s);
    NoDupOfMultiset(s, t);
    NoDupMultiset(s, t);
    DistinctIdsSet(t);
  }

  // ---------- grouping by rack ----------

  ghost predicate AllRacked(s: seq<Broker>) {
    forall i :: 0 <= i < |s| ==> s[i].rack != ""
  }

  function OfRack(s: seq<Broker>, rack: string): seq<Broker> {
    if s == [] then []
    else OfRack(s[..|s| - 1], rack) + if s[|s| - 1].rack == rack then [s[|s| - 1]] else []
  }

  /** The racks of s in the order in which s first mentions them. */
  function RackNames(s: seq<Broker>): seq<string> {
    if s == [] then []
    else
      var names, last := RackNames(s[..|s| - 1]), s[|s| - 1];
      if last.rack == "" || last.rack in names then names else names + [last.rack]
  }

  function WithRack(s: seq<Broker>): (n: nat)
    ensures n <= |s|
    ensures n == |s| <==> AllRacked(s)
  {
    if s == [] then 0 else WithRack(s[..|s| - 1]) + if s[|s| - 1].rack != "" then 1 else 0
  }

  function RackLists(s: seq<Broker>): seq<seq<Broker>> {
    seq(|RackNames(s)|, r requires 0 <= r < |RackNames(s)| => OfRack(s, RackNames(s)[r]))
  }

  function Sizes(lists: seq<seq<Broker>>): (sizes: seq<nat>)
    ensures |sizes| == |lists| && forall r :: 0 <= r < |lists| ==> sizes[r] == |lists[r]|
  {
    seq(|lists|, r requires 0 <= r < |lists| => |lists[r]|)
  }

  lemma {:induction false} OfRackMembers(s: seq<Broker>, rack: string)
    ensures forall b :: b in OfRack(s, rack) <==> b in s && b.rack == rack
    ensures Ordered(s, IdLess) ==> Ordered(OfRack(s, rack), IdLess)
  {
    if s == [] {
    } else {
      OfRackMembers(s[..|s| - 1], rack);
      assert s == s[..|s| - 1] + [s[|s| - 1]];
    }
  }

  lemma {:induction false} RackNamesMembers(s: seq<Broker>)
    ensures NoDup(RackNames(s))
    ensures forall rack :: rack in RackNames(s) <==> rack != "" && OfRack(s, rack) != []
  {
    if s == [] {
    } else {
      RackNamesMembers(s[..|s| - 1]);
    }
  }

  lemma NamesNoDup(s: seq<Broker>)
    ensures NoDup(RackNames(s))
  {
    RackNamesMembers(s);
  }

  /** In a list sorted by ID, racks mentioned earlier have the smaller first ID. */
  lemma {:induction false} RackNamesOrdered(s: seq<Broker>)
    requires Ordered(s, IdLess)
    ensures var names := RackNames(s);
      forall i, j :: 0 <= i < j < |names| ==>
        OfRack(s, names[i]) != [] && OfRack(s, names[j]) != [] && OfRack(s, names[i])[0].id < OfRack(s, names[j])[0].id
  {
    RackNamesMembers(s);
    if s == [] {
    } else {
      var init, last := s[..|s| - 1], s[|s| - 1];
      RackNamesMembers(init);
      RackNamesOrdered(init);
      var names := RackNames(s);
      forall i, j | 0 <= i < j < |names|
        ensures OfRack(s, names[i]) != [] && OfRack(s, names[j]) != []
        ensures OfRack(s, names[i])[0].id < OfRack(s, names[j])[0].id
      {
        assert names[i] in names && names[j] in names;
        OfRackMembers(init, names[i]);
        assert names[i] in RackNames(init);
        assert OfRack(init, names[i])[0] in init;
      }
    }
  }

  // ---------- the round-robin walk ----------

  /** One visit of the walk: which round, and which rack (by its index in the list of names). */
  datatype Slot = Slot(round: nat, rack: nat)

  ghost predicate SlotLess(a: Slot, b: Slot) {
    a.round < b.round || (a.round == b.round && a.rack < b.rack)
  }

  ghost predicate IsSlot(sizes: seq<nat>, e: Slot) {
    e.rack < |sizes| && e.round < sizes[e.rack]
  }

  /** The visits that find a broker, of all rounds before t and of the first r racks in round t. */
  function Emitted(sizes: seq<nat>, t: nat, r: nat): (es: seq<Slot>)
    requires r <= |sizes|
    ensures forall e :: e in es ==> IsSlot(sizes, e)
    decreases t, r
  {
    if r > 0 then Emitted(sizes, t, r - 1) + if sizes[r - 1] > t then [Slot(t, r - 1)] else []
    else if t > 0 then Emitted(sizes, t - 1, |sizes|)
    else []
  }

  function Longest(sizes: seq<nat>): (m: nat)
    ensures forall r :: 0 <= r < |sizes| ==> sizes[r] <= m
    ensures m > 0 ==> m in sizes
  {
    if sizes == [] then 0
    else
      var m := Longest(sizes[1..]);
      assert forall r :: 1 <= r < |sizes| ==> sizes[r] == sizes[1..][r - 1];
      if sizes[0] > m then sizes[0] else m
  }

  function AllSlots(sizes: seq<nat>): (es: seq<Slot>)
    ensures forall e :: e in es ==> IsSlot(sizes, e)
  {
    Emitted(sizes, Longest(sizes), 0)
  }

  function Pick(lists: seq<seq<Broker>>, slots: seq<Slot>): seq<Broker>
    requires forall e :: e in slots ==> IsSlot(Sizes(lists), e)
  {
    seq(|slots|, k requires 0 <= k < |slots| =>
      assert IsSlot(Sizes(lists), slots[k]);
      lists[slots[k].rack][slots[k].round])
  }

  /** The brokers of s, already sorted, as the walk leaves them. */
  function Alternated(s: seq<Broker>): seq<Broker> {
    if WithRack(s) == |s| then Pick(RackLists(s), AllSlots(Sizes(RackLists(s)))) else s
  }

  lemma {:induction false} EmittedOrdered(sizes: seq<nat>, t: nat, r: nat)
    requires r <= |sizes|
    ensures Ordered(Emitted(sizes, t, r), SlotLess)
    ensures forall e :: e in Emitted(sizes, t, r) ==> SlotLess(e, Slot(t, r))
    decreases t, r
  {
    if r > 0 {
      EmittedOrdered(sizes, t, r - 1);
    } else if t == 0 {
    } else {
      EmittedOrdered(sizes, t - 1, |sizes|);
    }
  }

  lemma {:induction false} EmittedComplete(sizes: seq<nat>, t: nat, r: nat, e: Slot)
    requires r <= |sizes| && IsSlot(sizes, e) && SlotLess(e, Slot(t, r))
    ensures e in Emitted(sizes, t, r)
    decreases t, r
  {
    if r > 0 {
      if e != Slot(t, r - 1) {
        EmittedComplete(sizes, t, r - 1, e);
      }
    } else {
      EmittedComplete(sizes, t - 1, |sizes|, e);
    }
  }

  /** Rounds after the longest rack is used up emit nothing. */
  lemma {:induction false} EmittedDone(sizes: seq<nat>, t: nat, r: nat)
    requires r <= |sizes| && t >= Longest(sizes)
    ensures Emitted(sizes, t, r) == AllSlots(sizes)
    decreases t, r
  {
    if r > 0 {
      EmittedDone(sizes, t, r - 1);
    } else if t == Longest(sizes) {
    } else {
      EmittedDone(sizes, t - 1, |sizes|);
    }
  }

  /** Different visits find different brokers, all of them brokers of s. */
  lemma PickNoDup(s: seq<Broker>, slots: seq<Slot>)
    requires Ordered(s, IdLess)
    requires Ordered(slots, SlotLess) && forall e :: e in slots ==> IsSlot(Sizes(RackLists(s)), e)
    ensures NoDup(Pick(RackLists(s), slots))
    ensures Elems(Pick(RackLists(s), slots)) <= Elems(s)
    ensures |slots| <= |s|
  {
    var lists, names := RackLists(s), RackNames(s);
    var out := Pick(lists, slots);
    RackNamesMembers(s);
    forall k | 0 <= k < |out|
      ensures slots[k] in slots
      ensures out[k] in s && out[k].rack == names[slots[k].rack]
    {
      assert slots[k] in slots;
      OfRackMembers(s, names[slots[k].rack]);
      assert out[k] in OfRack(s, names[slots[k].rack]);
    }
    forall i, j | 0 <= i < j < |out|
      ensures out[i] != out[j]
    {
      assert slots[i] in slots && slots[j] in slots;
      OfRackMembers(s, names[slots[i].rack]);
    }
    ElemsSize(out);
    ElemsSize(s);
    SubsetSize(Elems(out), Elems(s));
  }

  /** The walk visits every broker. */
  lemma PickComplete(s: seq<Broker>)
    requires Ordered(s, IdLess) && AllRacked(s)
    ensures Elems(s) <= Elems(Alternated(s))
  {
    var lists, names := RackLists(s), RackNames(s);
    var sizes := Sizes(lists);
    RackNamesMembers(s);
    forall b | b in s
      ensures b in Alternated(s)
    {
      OfRackMembers(s, b.rack);
      assert b in OfRack(s, b.rack) && b.rack in names;
      var r :| 0 <= r < |names| && names[r] == b.rack;
      var t :| 0 <= t < |lists[r]| && lists[r][t] == b;
      EmittedComplete(sizes, Longest(sizes), 0, Slot(t, r));
      var k :| 0 <= k < |AllSlots(sizes)| && AllSlots(sizes)[k] == Slot(t, r);
      assert Alternated(s)[k] == b;
    }
  }

  /** The walk rearranges the brokers: none is lost, none is repeated. */
  lemma AlternatedPermutes(s: seq<Broker>)
    requires Ordered(s, IdLess)
    ensures NoDup(Alternated(s)) && Elems(Alternated(s)) == Elems(s)
    ensures multiset(Alternated(s)) == multiset(s) && |Alternated(s)| == |s|
  {
    if AllRacked(s) {
      var sizes := Sizes(RackLists(s));
      EmittedOrdered(sizes, Longest(sizes), 0);
      PickNoDup(s, AllSlots(sizes));
      PickComplete(s);
    }
    NoDupMultiset(Alternated(s), s);
  }
}
