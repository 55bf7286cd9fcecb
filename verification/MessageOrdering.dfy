/** Ordered message partitions (src/queue/message-ordering.service.ts): each partition refines a first-in first-out
    queue of the messages added and not yet removed. */
module MessageOrdering {
  import opened Common

  datatype MessageId = MessageId(text: string)

  datatype Payload = Payload(json: string)

  datatype Pid = Pid(text: string)

  datatype Message = Message(id: MessageId, data: Payload, sequence: nat)

  datatype Partition = Partition(queueName: string, key: string, messages: seq<Message>, processing: bool)

  function PartitionId(queueName: string, key: string): Pid { Pid(queueName + ":" + key) }

  /** Which partitions of a shorter and a longer queue name share an id: the longer name must extend the shorter one
      by a colon, and the rest of it begins the other's key. */
  lemma SharedId(q1: string, k1: string, q2: string, k2: string)
    requires |q1| < |q2|
    ensures PartitionId(q1, k1) == PartitionId(q2, k2) <==> q1 + ":" <= q2 && k1 == q2[|q1| + 1..] + ":" + k2
  {
    var p1, p2 := PartitionId(q1, k1).text, PartitionId(q2, k2).text;
    if p1 == p2 {
      assert p1[..|q1| + 1] == q1 + ":" && p2[..|q1| + 1] == q2[..|q1| + 1];
      assert p1[|q1| + 1..] == k1 && p2[|q1| + 1..] == q2[|q1| + 1..] + ":" + k2;
    }
    if q1 + ":" <= q2 && k1 == q2[|q1| + 1..] + ":" + k2 {
      assert q2 == q1 + ":" + q2[|q1| + 1..];
      assert p1 == p2;
    }
  }

  lemma SameLengthNames(q1: string, k1: string, q2: string, k2: string)
    requires |q1| == |q2| && PartitionId(q1, k1) == PartitionId(q2, k2)
    ensures q1 == q2 && k1 == k2
  {
    var p1, p2 := PartitionId(q1, k1).text, PartitionId(q2, k2).text;
    assert p1[..|q1|] == q1 && p2[..|q1|] == q2;
    assert p1[|q1| + 1..] == k1 && p2[|q1| + 1..] == k2;
  }

  /** Two queues can share a partition exactly when one name extends the other by a colon. */
  lemma QueuesMixIff(q1: string, q2: string)
    requires q1 != q2
    ensures (exists k1, k2 :: PartitionId(q1, k1) == PartitionId(q2, k2)) <==> (q1 + ":" <= q2 || q2 + ":" <= q1)
  {
    forall k1, k2 | PartitionId(q1, k1) == PartitionId(q2, k2) ensures q1 + ":" <= q2 || q2 + ":" <= q1 {
      if |q1| < |q2| {
        SharedId(q1, k1, q2, k2);
      } else if |q2| < |q1| {
        SharedId(q2, k2, q1, k1);
      } else {
        SameLengthNames(q1, k1, q2, k2);
      }
    }
    if q1 + ":" <= q2 {
      SharedId(q1, q2[|q1| + 1..] + ":" + "", q2, "");
    } else if q2 + ":" <= q1 {
      SharedId(q2, q1[|q2| + 1..] + ":" + "", q1, "");
    }
  }

  lemma ExtensionHasColon(shorter: string, longer: string)
    requires shorter + ":" <= longer
    ensures ':' in longer
  {
    assert longer[|shorter|] == (shorter + ":")[|shorter|];
  }

  /** In particular the partitions of queues whose names contain no colon never mix. */
  lemma PartitionsNeverMix(q1: string, k1: string, q2: string, k2: string)
    requires ':' !in q1 && ':' !in q2 && PartitionId(q1, k1) == PartitionId(q2, k2)
    ensures q1 == q2 && k1 == k2
  {
    if q1 == q2 {
      SameLengthNames(q1, k1, q2, k2);
    } else {
      QueuesMixIff(q1, q2);
      ExtensionHasColon(if q1 + ":" <= q2 then q1 else q2, if q1 + ":" <= q2 then q2 else q1);
      assert false;
    }
  }

  /** And a queue whose name extends another's by a colon does share one of its partitions. */
  lemma ColonsMixPartitions(a: string, b: string, c: string)
    ensures PartitionId(a + ":" + b, c) == PartitionId(a, b + ":" + c)
  {
    var longer := a + ":" + b;
    assert longer[|a| + 1..] == b;
    SharedId(a, b + ":" + c, longer, c);
  }

  // ---------- Sorting by sequence number ----------

  function Insert(m: Message, s: seq<Message>): seq<Message> {
    if s == [] || m.sequence < s[0].sequence then [m] + s else [s[0]] + Insert(m, s[1..])
  }

  /** A stable sort by sequence number. */
  function Sorted(s: seq<Message>): seq<Message> {
    if s == [] then [] else Insert(s[|s| - 1], Sorted(s[..|s| - 1]))
  }

  predicate Increasing(s: seq<Message>) {
    forall i, j :: 0 <= i < j < |s| ==> s[i].sequence < s[j].sequence
  }

  lemma {:induction false} InsertLast(m: Message, s: seq<Message>)
    requires forall i :: 0 <= i < |s| ==> s[i].sequence < m.sequence
    ensures Insert(m, s) == s + [m]
  {
    if s != [] {
      InsertLast(m, s[1..]);
    }
  }

  /** On strictly increasing numbers the sort is the identity. */
  lemma {:induction false} SortIsIdentity(s: seq<Message>)
    requires Increasing(s)
    ensures Sorted(s) == s
  {
    if s != [] {
      SortIsIdentity(s[..|s| - 1]);
      InsertLast(s[|s| - 1], s[..|s| - 1]);
    }
  }

  // ---------- The queue a partition stands for ----------

  datatype Item = Item(id: MessageId, data: Payload)

  function Items(s: seq<Message>): seq<Item> {
    seq(|s|, i requires 0 <= i < |s| => Item(s[i].id, s[i].data))
  }

  /** Everything but the item at `i`, in its order. */
  function Remove<T>(s: seq<T>, i: nat): (r: seq<T>)
    requires i < |s|
    ensures |r| == |s| - 1
    ensures forall j :: 0 <= j < |r| ==> r[j] == if j < i then s[j] else s[j + 1]
  {
    s[..i] + s[i + 1..]
  }

  /** Position of the first message with the given id, or the length. */
  function FirstIndex(s: seq<Item>, id: MessageId): (i: nat)
    ensures i <= |s| && (i < |s| ==> s[i].id == id)
    ensures forall j :: 0 <= j < i ==> s[j].id != id
  {
    if s == [] || s[0].id == id then 0 else 1 + FirstIndex(s[1..], id)
  }

  function Queue(partitions: map<Pid, Partition>, pid: Pid): seq<Item> {
    if pid in partitions then Items(partitions[pid].messages) else []
  }

  /** A partition that does not exist is not busy. */
  predicate Busy(partitions: map<Pid, Partition>, pid: Pid) {
    pid in partitions && partitions[pid].processing
  }

  function Counter(sequenceNumbers: map<Pid, nat>, pid: Pid): nat {
    if pid in sequenceNumbers then sequenceNumbers[pid] else 0
  }

  predicate SameAt(before: map<Pid, Partition>, after: map<Pid, Partition>, pid: Pid) {
    Queue(after, pid) == Queue(before, pid) && Busy(after, pid) == Busy(before, pid)
  }

  /** No partition but the given one can be told apart from what it was. */
  ghost predicate OthersSame(before: map<Pid, Partition>, after: map<Pid, Partition>, pid: Pid) {
    forall other: Pid :: other != pid ==> SameAt(before, after, other)
  }

  predicate IsLowest(m: Message, s: seq<Message>) {
    m in s && forall i :: 0 <= i < |s| ==> m.sequence <= s[i].sequence
  }

  predicate Below(s: seq<Message>, bound: nat) {
    forall i :: 0 <= i < |s| ==> s[i].sequence <= bound
  }

  /** Sequence numbers grow along a partition and never exceed its counter. */
  predicate Numbered(s: seq<Message>, counter: nat) {
    Increasing(s) && Below(s, counter)
  }

  lemma FirstIndexUnique(s: seq<Item>, id: MessageId, i: nat)
    requires i <= |s| && (i < |s| ==> s[i].id == id) && forall j :: 0 <= j < i ==> s[j].id != id
    ensures FirstIndex(s, id) == i
  {
  }

  lemma RemovalKeepsOrder(s: seq<Message>, counter: nat, i: nat)
    requires Numbered(s, counter) && i < |s|
    ensures Numbered(Remove(s, i), counter)
  {
    var t := Remove(s, i);
    forall a, b | 0 <= a < b < |t| ensures t[a].sequence < t[b].sequence {
      assert t[a] == s[if a < i then a else a + 1] && t[b] == s[if b < i then b else b + 1];
    }
    forall a | 0 <= a < |t| ensures t[a].sequence <= counter {
      assert t[a] == s[if a < i then a else a + 1];
    }
  }

  lemma RemovalOfItem(s: seq<Message>, i: nat)
    requires i < |s|
    ensures Items(Remove(s, i)) == Remove(Items(s), i)
  {
  }

  lemma PushNumbered(s: seq<Message>, counter: nat, m: Message)
    requires Numbered(s, counter) && m.sequence == counter + 1
    ensures Numbered(s + [m], counter + 1)
  {
    var t := s + [m];
    forall i | 0 <= i < |t| ensures t[i].sequence <= counter + 1 {
      assert i < |s| ==> t[i] == s[i];
    }
    forall i, j | 0 <= i < j < |t| ensures t[i].sequence < t[j].sequence {
      assert t[i] == s[i] && (j < |s| ==> t[j] == s[j]);
    }
  }

  lemma PushItems(s: seq<Message>, m: Message)
    ensures Items(s + [m]) == Items(s) + [Item(m.id, m.data)]
  {
  }

  /** The next number goes to the back, and the sort leaves it there. */
  lemma PushKeepsOrder(s: seq<Message>, counter: nat, m: Message)
    requires Numbered(s, counter) && m.sequence == counter + 1
    ensures Numbered(Sorted(s + [m]), counter + 1)
    ensures Items(Sorted(s + [m])) == Items(s) + [Item(m.id, m.data)]
  {
    PushNumbered(s, counter, m);
    SortIsIdentity(s + [m]);
    PushItems(s, m);
  }

  lemma WriteLeavesOthers(before: map<Pid, Partition>, pid: Pid, p: Partition)
    ensures OthersSame(before, before[pid := p], pid)
  {
  }

  lemma OthersCompose(a: map<Pid, Partition>, b: map<Pid, Partition>, c: map<Pid, Partition>, pid: Pid)
    requires OthersSame(a, b, pid) && OthersSame(b, c, pid)
    ensures OthersSame(a, c, pid)
  {
    forall other: Pid | other != pid ensures SameAt(a, c, other) {
      assert SameAt(a, b, other) && SameAt(b, c, other);
    }
  }

  // ---------- Cleanup ----------

  predicate Kept(p: Partition) { p.messages != [] || p.processing }

  /** The idle empty partitions outside `rest` are gone, and nothing else changed. */
  ghost predicate Cleaned(before: map<Pid, Partition>, after: map<Pid, Partition>, rest: set<Pid>) {
    && rest <= after.Keys <= before.Keys
    && (forall pid :: pid in after ==> after[pid] == before[pid])
    && forall pid :: pid in before && pid !in rest ==> (pid in after <==> Kept(before[pid]))
  }

  lemma CleanedLooksSame(before: map<Pid, Partition>, after: map<Pid, Partition>)
    requires Cleaned(before, after, {})
    ensures forall pid :: SameAt(before, after, pid)
    ensures forall pid :: pid in after <==> pid in before && Kept(before[pid])
  {
  }

  lemma CleanOneMore(before: map<Pid, Partition>, after: map<Pid, Partition>, rest: set<Pid>, pid: Pid)
    requires Cleaned(before, after, rest) && pid in rest
    ensures Kept(after[pid]) ==> Cleaned(before, after, rest - {pid})
    ensures !Kept(after[pid]) ==> Cleaned(before, after - {pid}, rest - {pid}) && |after - {pid}| == |after| - 1
  {
    assert (after - {pid}).Keys == after.Keys - {pid};
  }

  /** A partition is filed under its own queue name and key. */
  predicate Named(pid: Pid, p: Partition) { pid == PartitionId(p.queueName, p.key) }

  predicate Consistent(partitions: map<Pid, Partition>, sequenceNumbers: map<Pid, nat>) {
    && partitions.Keys == sequenceNumbers.Keys
    && (forall pid :: pid in partitions ==> Numbered(partitions[pid].messages, sequenceNumbers[pid]))
    && (forall pid :: pid in partitions ==> Named(pid, partitions[pid]))
  }

  lemma WriteKeepsConsistent(partitions: map<Pid, Partition>, sequenceNumbers: map<Pid, nat>, pid: Pid, p: Partition,
                             counter: nat)
    requires Consistent(partitions, sequenceNumbers) && Numbered(p.messages, counter) && Named(pid, p)
    ensures Consistent(partitions[pid := p], sequenceNumbers[pid := counter])
  {
  }

  lemma DropKeepsConsistent(partitions: map<Pid, Partition>, sequenceNumbers: map<Pid, nat>, pid: Pid)
    requires Consistent(partitions, sequenceNumbers)
    ensures Consistent(partitions - {pid}, sequenceNumbers - {pid})
  {
  }

  class MessageOrderingService {
    var partitions: map<Pid, Partition>
    var sequenceNumbers: map<Pid, nat>

    constructor ()
      ensures Valid() && partitions == map[]
    {
      partitions, sequenceNumbers := map[], map[];
    }

    ghost predicate Valid()
      reads this
    {
      Consistent(partitions, sequenceNumbers)
    }

    /** Adds at the back of the partition's queue under the next number of its counter; the sort leaves it there. */
    method AddMessage(queueName: string, key: string, id: MessageId, data: Payload) returns (sequence: nat)
      requires Valid()
      modifies this
      ensures Valid()
      ensures var pid := PartitionId(queueName, key);
        && sequence == Counter(old(sequenceNumbers), pid) + 1 == Counter(sequenceNumbers, pid)
        && Queue(partitions, pid) == Queue(old(partitions), pid) + [Item(id, data)]
        && Busy(partitions, pid) == Busy(old(partitions), pid)
        && OthersSame(old(partitions), partitions, pid)
    {
      var pid := PartitionId(queueName, key);
      GetOrCreate(pid, queueName, key);
      var partition := partitions[pid];
      sequence := Counter(sequenceNumbers, pid) + 1;
      var message := Message(id, data, sequence);
      ghost var created := partitions;
      PushKeepsOrder(partition.messages, sequence - 1, message);
      partition := partition.(messages := Sorted(partition.messages + [message]));
      WriteKeepsConsistent(partitions, sequenceNumbers, pid, partition, sequence);
      WriteLeavesOthers(partitions, pid, partition);
      sequenceNumbers := sequenceNumbers[pid := sequence];
      partitions := partitions[pid := partition];
      OthersCompose(old(partitions), created, partitions, pid);
    }

    /** Creating a missing partition changes no queue. */
    method GetOrCreate(pid: Pid, queueName: string, key: string)
      requires Valid() && pid == PartitionId(queueName, key)
      modifies this
      ensures Valid() && pid in partitions
      ensures SameAt(old(partitions), partitions, pid) && OthersSame(old(partitions), partitions, pid)
      ensures Counter(sequenceNumbers, pid) == Counter(old(sequenceNumbers), pid)
    {
      if pid !in partitions {
        var partition := Partition(queueName, key, [], false);
        WriteKeepsConsistent(partitions, sequenceNumbers, pid, partition, 0);
        WriteLeavesOthers(partitions, pid, partition);
        partitions := partitions[pid := partition];
        sequenceNumbers := sequenceNumbers[pid := 0];
      }
    }

    /** The head of the queue, unless the partition is busy. */
    method GetNextMessage(queueName: string, key: string) returns (next: Option<Message>)
      requires Valid()
      ensures var pid := PartitionId(queueName, key); var q := Queue(partitions, pid);
        && (next.None? <==> q == [] || Busy(partitions, pid))
        && (next.Some? ==> q[0] == Item(next.value.id, next.value.data) && IsLowest(next.value, partitions[pid].messages))
    {
      var pid := PartitionId(queueName, key);
      if pid !in partitions || |partitions[pid].messages| == 0 {
        return None;
      }
      if partitions[pid].processing {
        return None;
      }
      next := Some(partitions[pid].messages[0]);
    }

    method MarkPartitionProcessing(queueName: string, key: string, processing: bool)
      requires Valid()
      modifies this`partitions
      ensures Valid()
      ensures var pid := PartitionId(queueName, key);
        && Queue(partitions, pid) == Queue(old(partitions), pid)
        && Busy(partitions, pid) == (pid in old(partitions) && processing)
        && OthersSame(old(partitions), partitions, pid)
    {
      var pid := PartitionId(queueName, key);
      if pid in partitions {
        partitions := partitions[pid := partitions[pid].(processing := processing)];
      }
    }

    /** Takes the earliest message with that id out of the queue and keeps the order of the rest. */
    method RemoveMessage(queueName: string, key: string, id: MessageId) returns (removed: bool)
      requires Valid()
      modifies this`partitions
      ensures Valid()
      ensures var pid := PartitionId(queueName, key); var q := Queue(old(partitions), pid); var i := FirstIndex(q, id);
        && removed == (i < |q|)
        && Queue(partitions, pid) == (if i < |q| then Remove(q, i) else q)
        && Busy(partitions, pid) == Busy(old(partitions), pid)
        && OthersSame(old(partitions), partitions, pid)
    {
      var pid := PartitionId(queueName, key);
      if pid !in partitions {
        return false;
      }
      var partition := partitions[pid];
      var messages := partition.messages;
      var index := 0;
      while index < |messages| && messages[index].id != id
        invariant 0 <= index <= |messages|
        invariant forall j :: 0 <= j < index ==> messages[j].id != id
      {
        index := index + 1;
      }
      FirstIndexUnique(Items(messages), id, index);
      if index == |messages| {
        return false;
      }
      RemovalKeepsOrder(messages, sequenceNumbers[pid], index);
      RemovalOfItem(messages, index);
      partition := partition.(messages := Remove(messages, index));
      WriteKeepsConsistent(partitions, sequenceNumbers, pid, partition, sequenceNumbers[pid]);
      WriteLeavesOthers(partitions, pid, partition);
      assert sequenceNumbers[pid := sequenceNumbers[pid]] == sequenceNumbers;
      partitions := partitions[pid := partition];
      removed := true;
    }

    /** Empties the queue and restarts the numbering. */
    method ClearPartition(queueName: string, key: string) returns (cleared: bool)
      requires Valid()
      modifies this
      ensures Valid()
      ensures var pid := PartitionId(queueName, key);
        && cleared == (pid in old(partitions))
        && Queue(partitions, pid) == []
        && Counter(sequenceNumbers, pid) == 0
        && Busy(partitions, pid) == Busy(old(partitions), pid)
        && OthersSame(old(partitions), partitions, pid)
    {
      var pid := PartitionId(queueName, key);
      if pid !in partitions {
        return false;
      }
      partitions := partitions[pid := partitions[pid].(messages := [])];
      sequenceNumbers := sequenceNumbers[pid := 0];
      cleared := true;
    }

    /** Forgets one partition and its counter if it is empty and idle. */
    method DropIfIdle(pid: Pid) returns (removed: bool)
      requires Valid() && pid in partitions
      modifies this
      ensures Valid() && removed == !Kept(old(partitions)[pid])
      ensures partitions == if removed then old(partitions) - {pid} else old(partitions)
    {
      removed := |partitions[pid].messages| == 0 && !partitions[pid].processing;
      if removed {
        DropKeepsConsistent(partitions, sequenceNumbers, pid);
        partitions := partitions - {pid};
        sequenceNumbers := sequenceNumbers - {pid};
      }
    }

    /** Forgetting idle empty partitions, counters included, leaves every queue as it was. */
    method CleanupEmptyPartitions() returns (removedCount: nat)
      requires Valid()
      modifies this
      ensures Valid()
      ensures forall pid :: SameAt(old(partitions), partitions, pid)
      ensures forall pid :: pid in partitions <==> pid in old(partitions) && Kept(old(partitions)[pid])
      ensures removedCount == |old(partitions)| - |partitions|
    {
      removedCount := 0;
      var rest := partitions.Keys;
      while rest != {}
        invariant Valid() && Cleaned(old(partitions), partitions, rest)
        invariant removedCount == |old(partitions)| - |partitions|
        decreases rest
      {
        var pid :| pid in rest;
        CleanOneMore(old(partitions), partitions, rest, pid);
        var removed := DropIfIdle(pid);
        if removed {
          removedCount := removedCount + 1;
        }
        rest := rest - {pid};
      }
      CleanedLooksSame(old(partitions), partitions);
    }
  }
}
