/** The ring of samples behind the consumed percentage: a fixed buffer, overwritten in place, that always
    holds the most recent samples. */
module TimeWindowRing {
  import opened GoInts
  import opened ModArith

  const MAX_BUFFER_BUCKETS: int := 384

  function Buckets(size: Int64, sampling: Int64): Int64
    requires sampling != 0
  {
    var bufferSize := Div64(size, sampling);
    if bufferSize > MAX_BUFFER_BUCKETS then MAX_BUFFER_BUCKETS else bufferSize
  }

  /** The last n values of the history, or all of it while it is shorter. */
  function Last<T>(history: seq<T>, n: nat): seq<T> {
    if |history| <= n then history else history[|history| - n..]
  }

  /** The number of the oldest value a ring of n buckets still holds after k values. */
  function Oldest(k: nat, n: nat): nat {
    if k <= n then 0 else k - n
  }

  /** The bucket of value number j. */
  function Place(j: nat, n: nat): (b: nat)
    requires n > 0
    ensures b < n
  {
    j % n
  }

  /** Where the next value goes, and when it displaces the oldest one. */
  lemma NextPlace(k: nat, n: nat)
    requires k > 0 && n > 0
    ensures (Place(k - 1, n) + 1) % n == Place(k, n)
    ensures Place(k, n) == Place(Oldest(k, n), n) <==> k >= n
    ensures k >= n ==> (Place(Oldest(k, n), n) + 1) % n == Place(Oldest(k + 1, n), n)
  {
    ModSucc(k - 1, n);
    if k >= n {
      ModAddMultiple(k - n, n, 1);
      ModSucc(k - n, n);
    } else {
      DivModUnique(k, n, 0, k);
      DivModUnique(0, n, 0, 0);
    }
  }

  /** Every value not yet displaced is in its bucket. */
  ghost predicate Holds(buckets: seq<UInt64>, history: seq<UInt64>)
    requires buckets != []
  {
    forall j :: Oldest(|history|, |buckets|) <= j < |history| ==> buckets[Place(j, |buckets|)] == history[j]
  }

  lemma HoldsNext(buckets: seq<UInt64>, history: seq<UInt64>, value: UInt64)
    requires buckets != [] && Holds(buckets, history)
    ensures Holds(buckets[Place(|history|, |buckets|) := value], history + [value])
  {
    forall j | Oldest(|history| + 1, |buckets|) <= j < |history|
      ensures Place(j, |buckets|) != Place(|history|, |buckets|)
    {
      ModDistinct(j, |history|, |buckets|);
    }
  }

  /** The live buckets, read in ring order from the tail. */
  ghost function Live(buckets: seq<UInt64>, tail: nat, count: nat): seq<UInt64>
    requires buckets != []
  {
    seq(count, i requires 0 <= i < count => buckets[Place(tail + i, |buckets|)])
  }

  lemma PlaceFrom(j: nat, i: nat, n: nat)
    requires n > 0
    ensures Place(Place(j, n) + i, n) == Place(j + i, n)
  {
    ModAddMultiple(j % n + i, n, j / n);
    assert j + i == j % n + i + (j / n) * n;
  }

  lemma LiveIsLast(buckets: seq<UInt64>, history: seq<UInt64>)
    requires buckets != [] && Holds(buckets, history)
    ensures var n, k := |buckets|, |history|;
      Live(buckets, Place(Oldest(k, n), n), if k <= n then k else n) == Last(history, n)
  {
    var n, k := |buckets|, |history|;
    var oldest, live := Oldest(k, n), Live(buckets, Place(Oldest(k, n), n), if k <= n then k else n);
    forall i | 0 <= i < |live|
      ensures live[i] == history[oldest + i]
    {
      PlaceFrom(oldest, i, n);
      assert live[i] == buckets[Place(oldest + i, n)];
    }
  }

  lemma LivePlaces(buckets: seq<UInt64>, tail: nat, count: nat, history: seq<UInt64>)
    requires buckets != [] && Live(buckets, tail, count) == Last(history, |buckets|)
    ensures count <= |history|
    ensures forall j :: |history| - count <= j < |history| ==>
              history[j] == buckets[(tail + j - (|history| - count)) % |buckets|]
  {
    var live, first := Live(buckets, tail, count), |history| - count;
    forall j | first <= j < |history|
      ensures history[j] == buckets[(tail + j - first) % |buckets|]
    {
      assert live[j - first] == buckets[Place(tail + (j - first), |buckets|)];
      assert live[j - first] == Last(history, |buckets|)[j - first];
      assert tail + (j - first) == tail + j - first;
    }
  }

  class TimeWindowRing {
    const buffer: array<UInt64>
    var tail: int
    var head: int
    var count: int
    const size: Int64
    const sampling: Int64

    /** Every value put so far, in order. */
    ghost var history: seq<UInt64>

    ghost predicate Valid()
      reads this, buffer
    {
      var n, k := buffer.Length, |history|;
      if k == 0 then tail == -1 && head == -1 && count == 0
      else
        n > 0 && head == Place(k - 1, n) && tail == Place(Oldest(k, n), n) && count == (if k <= n then k else n)
        && Holds(buffer[..], history)
    }

    /** Go panics on a zero sampling rate and on a negative buffer length. */
    constructor (size: Int64, sampling: Int64)
      requires sampling != 0 && Buckets(size, sampling) >= 0
      ensures Valid() && fresh(buffer) && history == []
      ensures buffer.Length == Buckets(size, sampling)
      ensures this.size == Wrap64(Buckets(size, sampling) * sampling) && this.sampling == sampling
    {
      var bufferSize := Div64(size, sampling);
      if bufferSize > MAX_BUFFER_BUCKETS {
        bufferSize := MAX_BUFFER_BUCKETS;
      }
      buffer := new UInt64[bufferSize](_ => 0);
      tail, head, count := -1, -1, 0;
      this.size, this.sampling := Wrap64(bufferSize * sampling), sampling;
      history := [];
    }

    method Put(value: UInt64)
      requires Valid() && buffer.Length > 0
      modifies this, buffer
      ensures Valid() && history == old(history) + [value]
    {
      ghost var n, k := buffer.Length, |history|;
      HoldsNext(buffer[..], history, value);
      if k > 0 {
        NextPlace(k, n);
      } else {
        DivModUnique(0, n, 0, 0);
      }
      head := (head + 1) % buffer.Length;
      buffer[head] := value;
      if head == tail {
        tail := (tail + 1) % buffer.Length;
      }
      if tail == -1 {
        tail := 0;
      }
      if count < buffer.Length {
        count := count + 1;
      }
      history := history + [value];
    }

    /** The last value put. */
    method Head() returns (r: UInt64)
      requires Valid() && !IsEmpty()
      ensures history != [] && r == history[|history| - 1]
    {
      r := buffer[head];
    }

    /** The first value of the window. */
    method Tail() returns (r: UInt64)
      requires Valid() && !IsEmpty()
      ensures history != [] && r == Last(history, buffer.Length)[0]
      ensures r == history[if |history| <= buffer.Length then 0 else |history| - buffer.Length]
    {
      r := buffer[tail];
    }

    predicate IsEmpty()
      reads this
    {
      tail == -1 && head == -1
    }

    function Count(): int
      reads this
    {
      count
    }

    /** The live buckets are the last values of the history, and Count says how many they are. */
    lemma Refines()
      requires Valid()
      ensures IsEmpty() <==> history == []
      ensures Count() == |Last(history, buffer.Length)|
      ensures Count() == if |history| <= buffer.Length then |history| else buffer.Length
      ensures forall j :: |history| - Count() <= j < |history| ==>
                history[j] == buffer[(tail + j - (|history| - Count())) % buffer.Length]
      ensures !IsEmpty() ==> Live(buffer[..], tail, count) == Last(history, buffer.Length)
    {
      if history != [] {
        LiveIsLast(buffer[..], history);
        LivePlaces(buffer[..], tail, count, history);
      }
    }
  }
}
