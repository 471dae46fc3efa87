/** Exactly how far apart the rack walk leaves the brokers of one rack, also around the end of the list. The
    racks' sizes, ranked by smallest broker ID, decide it. */
module RackDistance {
  import opened Sequences
  import opened RackOrder
  import opened RackSpread

  /** How many of the first `r` racks hold `a` brokers or more, and of the others `b` or more. */
  function Reaching(sizes: seq<nat>, r: nat, a: nat, b: nat): nat {
    if sizes == [] then 0
    else
      var last := |sizes| - 1;
      Reaching(sizes[..last], r, a, b) + if sizes[last] >= (if last < r then a else b) then 1 else 0
  }

  /** What the racks hold beyond m brokers each. */
  function Surplus(sizes: seq<nat>, m: nat): nat {
    if sizes == [] then 0
    else
      var last := |sizes| - 1;
      Surplus(sizes[..last], m) + if sizes[last] > m then sizes[last] - m else 0
  }

  /** From the last but one broker of rack r to the last: the rest of one round and the start of the next. */
  function NearGap(sizes: seq<nat>, r: nat): nat
    requires r < |sizes| && sizes[r] >= 2
  {
    Reaching(sizes, r, sizes[r], sizes[r] - 1)
  }

  /** From the last broker of rack r around the end of the list to its first: the rest of the round, all
      later rounds, and the start of the first. */
  function AroundGap(sizes: seq<nat>, r: nat): nat
    requires r < |sizes|
  {
    Reaching(sizes, r, 1, sizes[r]) + Surplus(sizes, sizes[r])
  }

  /** Both are at least len for every rack with two brokers or more. */
  predicate Spread(sizes: seq<nat>, len: nat) {
    forall r :: 0 <= r < |sizes| && sizes[r] >= 2 ==> NearGap(sizes, r) >= len && AroundGap(sizes, r) >= len
  }

  // ---------- positions as sums ----------

  /** How many brokers the walk has taken from the racks before rack r in round t. */
  function Taken(sizes: seq<nat>, t: nat, r: nat): nat {
    if sizes == [] then 0
    else
      var last := |sizes| - 1;
      var rounds := if last < r then t + 1 else t;
      Taken(sizes[..last], t, r) + if sizes[last] < rounds then sizes[last] else rounds
  }

  lemma {:induction false} TakenRack(sizes: seq<nat>, t: nat, r: nat)
    requires 0 < r
    ensures Taken(sizes, t, r) == Taken(sizes, t, r - 1) + if r <= |sizes| && sizes[r - 1] > t then 1 else 0
  {
    if sizes == [] {
    } else {
      TakenRack(sizes[..|sizes| - 1], t, r);
    }
  }

  lemma {:induction false} TakenRound(sizes: seq<nat>, t: nat, r: nat)
    requires r >= |sizes|
    ensures Taken(sizes, t, r) == Taken(sizes, t + 1, 0)
    ensures Taken(sizes, 0, 0) == 0
  {
    if sizes == [] {
    } else {
      TakenRound(sizes[..|sizes| - 1], t, r);
    }
  }

  lemma {:induction false} EmittedSize(sizes: seq<nat>, t: nat, r: nat)
    requires r <= |sizes|
    ensures |Emitted(sizes, t, r)| == Taken(sizes, t, r)
    decreases t, r
  {
    if r > 0 {
      EmittedSize(sizes, t, r - 1);
      TakenRack(sizes, t, r);
    } else if t > 0 {
      EmittedSize(sizes, t - 1, |sizes|);
      TakenRound(sizes, t - 1, |sizes|);
    } else {
      TakenRound(sizes, 0, |sizes|);
    }
  }

  lemma {:induction false} EmittedPrefix(sizes: seq<nat>, t: nat, r: nat, u: nat, q: nat)
    requires r <= |sizes| && q <= |sizes| && (t < u || (t == u && r <= q))
    ensures Emitted(sizes, t, r) <= Emitted(sizes, u, q)
    decreases u, q
  {
    if t == u && r == q {
    } else if q > 0 {
      EmittedPrefix(sizes, t, r, u, q - 1);
    } else {
      EmittedPrefix(sizes, t, r, u - 1, |sizes|);
    }
  }

  /** The visit to rack r in round t is visit number Taken(sizes, t, r). */
  lemma SlotPlace(sizes: seq<nat>, t: nat, r: nat)
    requires IsSlot(sizes, Slot(t, r))
    ensures Taken(sizes, t, r) < |AllSlots(sizes)| && AllSlots(sizes)[Taken(sizes, t, r)] == Slot(t, r)
  {
    EmittedSize(sizes, t, r);
    EmittedPrefix(sizes, t, r + 1, Longest(sizes), 0);
    assert Emitted(sizes, t, r + 1) == Emitted(sizes, t, r) + [Slot(t, r)];
  }

  lemma PlaceOfSlot(sizes: seq<nat>, k: nat)
    requires k < |AllSlots(sizes)|
    ensures var e := AllSlots(sizes)[k]; IsSlot(sizes, e) && k == Taken(sizes, e.round, e.rack)
  {
    var e := AllSlots(sizes)[k];
    assert e in AllSlots(sizes);
    SlotPlace(sizes, e.round, e.rack);
    EmittedOrdered(sizes, Longest(sizes), 0);
  }

  // ---------- the two gaps ----------

  lemma {:induction false} NearGapIs(sizes: seq<nat>, t: nat, r: nat)
    ensures Taken(sizes, t + 1, r) == Taken(sizes, t, r) + Reaching(sizes, r, t + 2, t + 1)
  {
    if sizes == [] {
    } else {
      NearGapIs(sizes[..|sizes| - 1], t, r);
    }
  }

  lemma {:induction false} AroundGapIs(sizes: seq<nat>, size: nat, r: nat, enough: nat)
    requires size > 0 && forall q :: 0 <= q < |sizes| ==> sizes[q] <= enough
    ensures Taken(sizes, enough, 0) - Taken(sizes, size - 1, r) + Taken(sizes, 0, r)
            == Reaching(sizes, r, 1, size) + Surplus(sizes, size)
  {
    if sizes == [] {
    } else {
      AroundGapIs(sizes[..|sizes| - 1], size, r, enough);
    }
  }

  lemma {:induction false} TakenGrows(sizes: seq<nat>, t: nat, u: nat, r: nat)
    requires t <= u
    ensures Taken(sizes, t, r) <= Taken(sizes, u, r)
  {
    if sizes == [] {
    } else {
      TakenGrows(sizes[..|sizes| - 1], t, u, r);
    }
  }

  lemma {:induction false} ReachingShrinks(sizes: seq<nat>, r: nat, a: nat, b: nat, c: nat, d: nat)
    requires a <= c && b <= d
    ensures Reaching(sizes, r, c, d) <= Reaching(sizes, r, a, b)
  {
    if sizes == [] {
    } else {
      ReachingShrinks(sizes[..|sizes| - 1], r, a, b, c, d);
    }
  }

  lemma AllTaken(sizes: seq<nat>) returns (longest: nat)
    ensures |AllSlots(sizes)| == Taken(sizes, longest, 0)
    ensures forall q :: 0 <= q < |sizes| ==> sizes[q] <= longest
  {
    longest := Longest(sizes);
    EmittedSize(sizes, longest, 0);
  }

  /** The two gaps are the smallest distances: the last two visits to rack r, and its last and its first. */
  lemma GapsOfRack(sizes: seq<nat>, r: nat, size: nat)
    requires r < |sizes| && sizes[r] == size >= 2
    ensures Taken(sizes, size - 1, r) - Taken(sizes, size - 2, r) == NearGap(sizes, r)
    ensures |AllSlots(sizes)| - Taken(sizes, size - 1, r) + Taken(sizes, 0, r) == AroundGap(sizes, r)
  {
    NearGapIs(sizes, size - 2, r);
    var longest := AllTaken(sizes);
    AroundGapIs(sizes, size, r, longest);
  }

  lemma NearAtLeast(sizes: seq<nat>, r: nat, t: nat, u: nat, size: nat)
    requires t < u < size
    ensures Taken(sizes, u, r) - Taken(sizes, t, r) >= Reaching(sizes, r, size, size - 1)
  {
    NearGapIs(sizes, t, r);
    TakenGrows(sizes, t + 1, u, r);
    ReachingShrinks(sizes, r, t + 2, t + 1, size, size - 1);
  }

  lemma AroundAtLeast(sizes: seq<nat>, r: nat, t: nat, u: nat, size: nat)
    requires t < u < size
    ensures Taken(sizes, u, r) - Taken(sizes, t, r) <= Taken(sizes, size - 1, r) - Taken(sizes, 0, r)
  {
    TakenGrows(sizes, u, size - 1, r);
    TakenGrows(sizes, 0, t, r);
  }

  lemma GapsAtLeast(sizes: seq<nat>, r: nat, t: nat, u: nat, size: nat)
    requires r < |sizes| && t < u < size == sizes[r]
    ensures Taken(sizes, u, r) - Taken(sizes, t, r) >= NearGap(sizes, r)
    ensures |AllSlots(sizes)| - Taken(sizes, u, r) + Taken(sizes, t, r) >= AroundGap(sizes, r)
  {
    var near, around, all := NearGap(sizes, r), AroundGap(sizes, r), |AllSlots(sizes)|;
    assert near == Reaching(sizes, r, size, size - 1);
    NearAtLeast(sizes, r, t, u, size);
    AroundAtLeast(sizes, r, t, u, size);
    GapsOfRack(sizes, r, size);
    assert all - Taken(sizes, size - 1, r) + Taken(sizes, 0, r) == around;
  }

  // ---------- the gaps decide ----------

  /** No two visits to one rack are closer than len, going either way around. */
  ghost predicate SlotsApart(slots: seq<Slot>, len: nat) {
    forall i, j :: 0 <= i < j < |slots| && slots[i].rack == slots[j].rack ==> len <= j - i <= |slots| - len
  }

  lemma SpreadPair(sizes: seq<nat>, len: nat, i: nat, j: nat)
    requires Spread(sizes, len) && i < j < |AllSlots(sizes)| && AllSlots(sizes)[i].rack == AllSlots(sizes)[j].rack
    ensures len <= j - i <= |AllSlots(sizes)| - len
  {
    EmittedOrdered(sizes, Longest(sizes), 0);
    PlaceOfSlot(sizes, i);
    PlaceOfSlot(sizes, j);
    var r := AllSlots(sizes)[i].rack;
    GapsAtLeast(sizes, r, AllSlots(sizes)[i].round, AllSlots(sizes)[j].round, sizes[r]);
  }

  lemma ApartRack(sizes: seq<nat>, len: nat, r: nat)
    requires SlotsApart(AllSlots(sizes), len) && r < |sizes| && sizes[r] >= 2
    ensures NearGap(sizes, r) >= len && AroundGap(sizes, r) >= len
  {
    var size := sizes[r];
    SlotPlace(sizes, 0, r);
    SlotPlace(sizes, size - 2, r);
    SlotPlace(sizes, size - 1, r);
    TakenGrows(sizes, 0, size - 1, r);
    TakenGrows(sizes, size - 2, size - 1, r);
    GapsOfRack(sizes, r, size);
  }

  lemma {:induction false} SlotsApartIff(sizes: seq<nat>, len: nat)
    ensures SlotsApart(AllSlots(sizes), len) <==> Spread(sizes, len)
  {
    if SlotsApart(AllSlots(sizes), len) {
      forall r | 0 <= r < |sizes| && sizes[r] >= 2
        ensures NearGap(sizes, r) >= len && AroundGap(sizes, r) >= len
      {
        ApartRack(sizes, len, r);
      }
    }
    if Spread(sizes, len) {
      forall i, j | 0 <= i < j < |AllSlots(sizes)| && AllSlots(sizes)[i].rack == AllSlots(sizes)[j].rack
        ensures len <= j - i <= |AllSlots(sizes)| - len
      {
        SpreadPair(sizes, len, i, j);
      }
    }
  }

  // ---------- special cases ----------

  ghost function ReachingRacks(sizes: seq<nat>, r: nat, a: nat, b: nat): set<int> {
    set q | 0 <= q < |sizes| && sizes[q] >= (if q < r then a else b)
  }

  lemma {:induction false} ReachingIs(sizes: seq<nat>, r: nat, a: nat, b: nat)
    ensures Reaching(sizes, r, a, b) == |ReachingRacks(sizes, r, a, b)|
  {
    if sizes == [] {
    } else {
      var last := |sizes| - 1;
      ReachingIs(sizes[..last], r, a, b);
      var more := if sizes[last] >= (if last < r then a else b) then {last} else {};
      assert ReachingRacks(sizes, r, a, b) == ReachingRacks(sizes[..last], r, a, b) + more;
    }
  }

  lemma {:induction false} ReachingAll(sizes: seq<nat>, r: nat, a: nat, b: nat)
    ensures Reaching(sizes, r, a, b) <= |sizes|
    ensures Reaching(sizes, r, a, b) == |sizes| <==> forall q :: 0 <= q < |sizes| ==> sizes[q] >= if q < r then a else b
  {
    if sizes == [] {
    } else {
      ReachingAll(sizes[..|sizes| - 1], r, a, b);
      assert forall q :: 0 <= q < |sizes| - 1 ==> sizes[..|sizes| - 1][q] == sizes[q];
    }
  }

  lemma {:induction false} SurplusNone(sizes: seq<nat>, m: nat)
    requires forall q :: 0 <= q < |sizes| ==> sizes[q] <= m
    ensures Surplus(sizes, m) == 0
  {
    if sizes == [] {
    } else {
      SurplusNone(sizes[..|sizes| - 1], m);
    }
  }

  /** With len racks of the largest size the gaps are wide enough. */
  lemma TiedSpread(sizes: seq<nat>, m: nat, len: nat)
    requires forall q :: 0 <= q < |sizes| ==> sizes[q] <= m
    requires Reaching(sizes, 0, m, m) >= len
    ensures Spread(sizes, len)
  {
    forall r | 0 <= r < |sizes| && sizes[r] >= 2
      ensures NearGap(sizes, r) >= len && AroundGap(sizes, r) >= len
    {
      var size := sizes[r];
      ReachingIs(sizes, 0, m, m);
      ReachingIs(sizes, r, m, m);
      assert ReachingRacks(sizes, 0, m, m) == ReachingRacks(sizes, r, m, m);
      ReachingShrinks(sizes, r, size, size - 1, m, m);
      ReachingShrinks(sizes, r, 1, size, m, m);
    }
  }

  lemma EqualIfSpread(sizes: seq<nat>, r: nat, size: nat)
    requires r < |sizes| && size == sizes[r] >= 2 && forall q :: 0 <= q < |sizes| ==> sizes[q] <= size
    requires NearGap(sizes, r) >= |sizes| && AroundGap(sizes, r) >= |sizes|
    ensures forall q :: 0 <= q < |sizes| ==> sizes[q] == size
  {
    ReachingAll(sizes, r, size, size - 1);
    ReachingAll(sizes, r, 1, size);
    SurplusNone(sizes, size);
  }

  /** Gaps as wide as there are racks: only racks of equal size have them. */
  lemma {:induction false} SpreadAllIffEqual(sizes: seq<nat>)
    requires forall r :: 0 <= r < |sizes| ==> sizes[r] > 0
    ensures Spread(sizes, |sizes|) <==> forall q, r :: 0 <= q < |sizes| && 0 <= r < |sizes| ==> sizes[q] == sizes[r]
  {
    var m := Longest(sizes);
    if sizes != [] {
      assert sizes[0] <= m;
      var r :| 0 <= r < |sizes| && sizes[r] == m;
      if Spread(sizes, |sizes|) && m >= 2 {
        EqualIfSpread(sizes, r, m);
      }
      if forall q, r :: 0 <= q < |sizes| && 0 <= r < |sizes| ==> sizes[q] == sizes[r] {
        ReachingAll(sizes, 0, m, m);
        TiedSpread(sizes, m, |sizes|);
      }
    }
  }

  // ---------- the brokers ----------

  /** No two brokers of one rack are closer than len, going either way around the list. */
  ghost predicate Apart(order: seq<Broker>, len: nat) {
    forall i, j :: 0 <= i < j < |order| && order[i].rack == order[j].rack ==> len <= j - i <= |order| - len
  }

  /** The walk keeps the brokers of one rack len apart, around the end included, if and only if the two gaps
      of every rack are at least len. */
  lemma {:induction false} ApartIffSpread(s: seq<Broker>, len: nat)
    requires Ordered(s, IdLess) && AllRacked(s)
    ensures Apart(Alternated(s), len) <==> Spread(Sizes(RackLists(s)), len)
  {
    ApartAsSlots(s, Alternated(s), AllSlots(Sizes(RackLists(s))), len);
    SlotsApartIff(Sizes(RackLists(s)), len);
  }

  lemma ApartAsSlots(s: seq<Broker>, order: seq<Broker>, slots: seq<Slot>, len: nat)
    requires Ordered(s, IdLess) && AllRacked(s) && order == Alternated(s) && slots == AllSlots(Sizes(RackLists(s)))
    ensures Apart(order, len) <==> SlotsApart(slots, len)
  {
    AlternatedPermutes(s);
    forall i, j | 0 <= i < j < |order|
      ensures order[i].rack == order[j].rack <==> slots[i].rack == slots[j].rack
    {
      ComparePositions(s, i, j);
    }
  }
}
