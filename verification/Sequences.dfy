/** Facts about sequences without repetitions and about the sizes of sets, shared by the other modules. */
module Sequences {

  /** No value occurs twice in s. */
  ghost predicate NoDup<T>(s: seq<T>) {
    forall i, j :: 0 <= i < j < |s| ==> s[i] != s[j]
  }

  /** The values of s. */
  ghost function Elems<T>(s: seq<T>): set<T> {
    set x | x in s
  }

  /** Every value of s is `less` than every later value of s. */
  ghost predicate Ordered<T>(s: seq<T>, less: (T, T) -> bool) {
    forall i, j :: 0 <= i < j < |s| ==> less(s[i], s[j])
  }

  ghost predicate Asymmetric<T(!new)>(less: (T, T) -> bool) {
    forall x, y :: less(x, y) ==> !less(y, x)
  }

  lemma {:induction false} ElemsSize<T>(s: seq<T>)
    ensures |Elems(s)| <= |s|
    ensures NoDup(s) ==> |Elems(s)| == |s|
  {
    if s == [] {
    } else {
      var init, last := s[..|s| - 1], s[|s| - 1];
      ElemsSize(init);
      assert Elems(s) == Elems(init) + {last};
    }
  }

  lemma ElemsSnoc<T>(s: seq<T>, x: T)
    ensures Elems(s + [x]) == Elems(s) + {x}
  {}

  lemma {:induction false} SubsetSize<T>(a: set<T>, b: set<T>)
    requires a <= b
    ensures |a| <= |b|
    ensures |a| == |b| ==> a == b
  {
    assert b == a + (b - a);
    assert |b| == |a| + |b - a|;
  }

  lemma NoElems<T>(s: seq<T>)
    ensures s == [] <==> Elems(s) == {}
  {
    if s != [] {
      assert s[0] in Elems(s);
    }
  }

  /** Two orderings of the same values by one asymmetric relation are the same sequence. */
  lemma {:induction false} OrderedUnique<T(!new)>(a: seq<T>, b: seq<T>, less: (T, T) -> bool)
    requires Asymmetric(less) && Ordered(a, less) && Ordered(b, less)
    requires Elems(a) == Elems(b)
    ensures a == b
  {
    NoElems(a);
    NoElems(b);
    if a == [] {
    } else {
      assert a[0] in Elems(b) && b[0] in Elems(a);
      assert a[0] == b[0];
      forall x
        ensures x in Elems(a[1..]) <==> x in Elems(b[1..])
      {
        assert x in a <==> x == a[0] || x in a[1..];
        assert x in b <==> x == b[0] || x in b[1..];
        assert x in Elems(a) <==> x in Elems(b);
      }
      OrderedUnique(a[1..], b[1..], less);
    }
  }

  /** In a sequence ordered by an asymmetric relation, value number k has exactly k values before it. */
  lemma Predecessors<T(!new)>(s: seq<T>, less: (T, T) -> bool, k: nat, before: set<T>)
    requires Asymmetric(less) && Ordered(s, less) && k < |s|
    requires forall x :: x in before <==> x in Elems(s) && less(x, s[k])
    ensures |before| == k
  {
    forall x
      ensures x in before <==> x in Elems(s[..k])
    {
      if x in s && less(x, s[k]) {
        var i :| 0 <= i < |s| && s[i] == x;
        assert i < k;
        assert s[..k][i] == x;
      }
      assert x in s[..k] ==> x in s;
    }
    assert before == Elems(s[..k]);
    ElemsSize(s[..k]);
  }

  /** Sequences without repetitions that hold the same values hold them equally often. */
  lemma {:induction false} NoDupMultiset<T>(a: seq<T>, b: seq<T>)
    requires NoDup(a) && NoDup(b) && Elems(a) == Elems(b)
    ensures multiset(a) == multiset(b) && |a| == |b|
  {
    ElemsSize(a);
    ElemsSize(b);
    forall x
      ensures multiset(a)[x] == multiset(b)[x]
    {
      NoDupCount(a, x);
      NoDupCount(b, x);
      assert x in Elems(a) <==> x in Elems(b);
    }
  }

  lemma {:induction false} NoDupCount<T>(s: seq<T>, x: T)
    requires NoDup(s)
    ensures multiset(s)[x] == if x in s then 1 else 0
  {
    if s == [] {
    } else {
      NoDupCount(s[1..], x);
      assert s == [s[0]] + s[1..];
    }
  }

  lemma NoDupOfMultiset<T>(a: seq<T>, b: seq<T>)
    requires NoDup(a) && multiset(a) == multiset(b)
    ensures NoDup(b) && Elems(a) == Elems(b)
  {
    forall x
      ensures x in a <==> x in b
    {
      assert x in multiset(a) <==> x in multiset(b);
    }
    forall i, j | 0 <= i < j < |b|
      ensures b[i] != b[j]
    {
      if b[i] == b[j] {
        var x := b[i];
        assert b == b[..i] + [x] + b[i + 1..j] + [x] + b[j + 1..];
        assert multiset(b)[x] >= 2;
        NoDupCount(a, x);
      }
    }
  }

  /** The values at the given places. */
  ghost function At<T>(order: seq<T>, places: set<int>): set<T>
    requires forall i :: i in places ==> 0 <= i < |order|
  {
    set i | i in places :: order[i]
  }

  lemma AtRemove<T>(order: seq<T>, places: set<int>, i: int)
    requires NoDup(order) && i in places
    requires forall j :: j in places ==> 0 <= j < |order|
    ensures order[i] !in At(order, places - {i})
    ensures At(order, places) == At(order, places - {i}) + {order[i]}
  {}

  lemma {:induction false} AtSize<T>(order: seq<T>, places: set<int>, m: nat)
    requires NoDup(order) && m <= |order|
    requires forall i :: i in places ==> 0 <= i < m
    ensures |At(order, places)| == |places|
  {
    if m == 0 {
      assert forall i :: i !in places;
      assert places == {};
    } else if m - 1 in places {
      AtSize(order, places - {m - 1}, m - 1);
      AtRemove(order, places, m - 1);
    } else {
      AtSize(order, places, m - 1);
    }
  }
}
