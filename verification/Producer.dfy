/** The producer: one message to every partition of an assignment, numbered without gaps. */
module Producer {
  import opened GoInts
  import opened ModArith

  datatype Message = Message(partition: int, messageId: Int64)

  class ProducerService {
    /** The messages handed to the client so far, accepted by the cluster or not. */
    var sent: seq<Message>
    var index: Int64
    /** The counter sampled by the status service. */
    var recordsProduced: UInt64
    var refreshes: nat

    /** Index and counter both count the messages sent, each modulo 2^64. */
    ghost predicate Valid()
      reads this
    {
      index == Wrap64(|sent|) && recordsProduced == WrapU64(|sent|)
      && forall i :: 0 <= i < |sent| ==> sent[i].messageId == Wrap64(i + 1)
    }

    constructor ()
      ensures Valid() && sent == [] && refreshes == 0
    {
      sent, index, recordsProduced, refreshes := [], 0, 0, 0;
    }

    method NewCanaryMessage() returns (messageId: Int64)
      requires index == Wrap64(|sent|)
      modifies this`index
      ensures index == messageId == Wrap64(|sent| + 1)
    {
      WrapStep(|sent|);
      index := Wrap64(index as int + 1);
      messageId := index;
    }

    /** One message to each of the partitions 0 .. n-1, in this order, numbered on from the last one. */
    method Send(partitionsAssignments: map<int, seq<int>>)
      requires Valid()
      modifies this`sent, this`index, this`recordsProduced
      ensures Valid() && old(sent) <= sent && |sent| == |old(sent)| + |partitionsAssignments|
      ensures forall k :: |old(sent)| <= k < |sent| ==> sent[k] == Message(k - |old(sent)|, Wrap64(k + 1))
      ensures index == Wrap64(|old(sent)| + |partitionsAssignments|)
      ensures recordsProduced == WrapU64(|old(sent)| + |partitionsAssignments|)
    {
      var numPartitions := |partitionsAssignments|;
      ghost var before := sent;
      for i := 0 to numPartitions
        invariant Valid() && before <= sent && |sent| == |before| + i
        invariant forall k :: |before| <= k < |sent| ==> sent[k] == Message(k - |before|, Wrap64(k + 1))
      {
        var messageId := NewCanaryMessage();
        WrapStep(|sent|);
        sent := sent + [Message(i, messageId)];
        recordsProduced := WrapU64(recordsProduced as int + 1);
      }
    }

    method Refresh()
      modifies this`refreshes
      ensures refreshes == old(refreshes) + 1
    {
      refreshes := refreshes + 1;
    }
  }

  lemma WrapStep(n: int)
    ensures Wrap64(Wrap64(n) as int + 1) == Wrap64(n + 1) && WrapU64(WrapU64(n) as int + 1) == WrapU64(n + 1)
  {
    ModSucc(n + TWO_63, TWO_64);
    ModSucc(n, TWO_64);
  }

  /** Messages fewer than 2^64 apart have different IDs, across the wrap of the index too. */
  lemma {:induction false} MessageIdsDiffer(p: ProducerService, i: nat, j: nat)
    requires p.Valid() && i < j < |p.sent| && j - i < TWO_64
    ensures p.sent[i].messageId != p.sent[j].messageId
  {
    ModDistinct(i + 1 + TWO_63, j + 1 + TWO_63, TWO_64);
  }
}
