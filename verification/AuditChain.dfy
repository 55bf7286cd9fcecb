/** The hash-chained audit log (src/audit-log/audit-log.service.ts). The hash is a parameter: what is proved holds
    for every hash that never collides and never yields the genesis marker. */
module AuditChain {

  datatype Checksum = Checksum(text: string)

  const GENESIS := Checksum("GENESIS")

  /** `payload` stands for the serialised fields that enter the checksum together with the previous checksum. */
  datatype Entry = Entry(payload: string, previous: Checksum, checksum: Checksum)

  type Hash = (string, Checksum) -> Checksum

  predicate NoCollision(h: Hash, p: string, x: Checksum, q: string, y: Checksum) {
    h(p, x) == h(q, y) ==> p == q && x == y
  }

  ghost predicate CollisionFree(h: Hash) {
    forall p, x, q, y :: NoCollision(h, p, x, q, y)
  }

  ghost predicate NeverGenesis(h: Hash) {
    forall p, x :: h(p, x) != GENESIS
  }

  function LastChecksum(log: seq<Entry>): Checksum {
    if log == [] then GENESIS else log[|log| - 1].checksum
  }

  function Appended(h: Hash, log: seq<Entry>, payload: string): seq<Entry> {
    log + [Entry(payload, LastChecksum(log), h(payload, LastChecksum(log)))]
  }

  predicate EntryWritten(h: Hash, log: seq<Entry>, i: nat)
    requires i < |log|
  {
    && log[i].previous == (if i == 0 then GENESIS else log[i - 1].checksum)
    && log[i].checksum == h(log[i].payload, log[i].previous)
  }

  /** A log that sequential appends have written. */
  ghost predicate Written(h: Hash, log: seq<Entry>) {
    forall i :: 0 <= i < |log| ==> EntryWritten(h, log, i)
  }

  lemma AppendKeepsWritten(h: Hash, log: seq<Entry>, payload: string)
    requires Written(h, log)
    ensures Written(h, Appended(h, log, payload))
  {
    var log' := Appended(h, log, payload);
    forall i | 0 <= i < |log'| ensures EntryWritten(h, log', i) {
      if i < |log| {
        assert EntryWritten(h, log, i);
      }
    }
  }

  /** No two entries of a written log share a checksum, even when their payloads agree. */
  lemma {:induction false} ChecksumsDistinct(h: Hash, log: seq<Entry>, i: nat, j: nat)
    requires CollisionFree(h) && NeverGenesis(h) && Written(h, log) && i < j < |log|
    ensures log[i].checksum != log[j].checksum
  {
    assert EntryWritten(h, log, i) && EntryWritten(h, log, j) && EntryWritten(h, log, j - 1);
    assert NoCollision(h, log[i].payload, log[i].previous, log[j].payload, log[j].previous);
    if i > 0 {
      ChecksumsDistinct(h, log, i - 1, j - 1);
    }
  }

  /** The last checksum binds the whole log: two written logs agree on it exactly when they are equal. */
  lemma {:induction false} LastChecksumBinds(h: Hash, a: seq<Entry>, b: seq<Entry>)
    requires CollisionFree(h) && NeverGenesis(h) && Written(h, a) && Written(h, b)
    ensures LastChecksum(a) == LastChecksum(b) <==> a == b
    decreases |a|
  {
    if a != [] {
      assert EntryWritten(h, a, |a| - 1);
    }
    if b != [] {
      assert EntryWritten(h, b, |b| - 1);
    }
    if a != [] && b != [] && LastChecksum(a) == LastChecksum(b) {
      var x, y, front, front' := a[|a| - 1], b[|b| - 1], a[..|a| - 1], b[..|b| - 1];
      assert NoCollision(h, x.payload, x.previous, y.payload, y.previous);
      WrittenFront(h, a);
      WrittenFront(h, b);
      LastChecksumBinds(h, front, front');
      assert a == front + [x] && b == front' + [y];
    }
  }

  lemma WrittenFront(h: Hash, log: seq<Entry>)
    requires Written(h, log) && log != []
    ensures Written(h, log[..|log| - 1]) && log[|log| - 1].previous == LastChecksum(log[..|log| - 1])
  {
    var front := log[..|log| - 1];
    forall i | 0 <= i < |front| ensures EntryWritten(h, front, i) {
      assert EntryWritten(h, log, i);
    }
    assert EntryWritten(h, log, |log| - 1);
  }

  // ---------- Verification of a stored sequence ----------

  predicate Linked(e: Entry, next: Entry) { next.previous == e.checksum }

  ghost predicate AllLinked(s: seq<Entry>) {
    forall i, j :: 0 <= i < |s| && j == i + 1 < |s| ==> Linked(s[i], s[j])
  }

  /** The entry `next` is reported unless it follows `e`. */
  function Gap(e: Entry, next: Entry): seq<Entry> { if Linked(e, next) then [] else [next] }

  /** The entries that do not follow their predecessor. */
  function Broken(s: seq<Entry>): seq<Entry> {
    if |s| < 2 then [] else Gap(s[0], s[1]) + Broken(s[1..])
  }

  lemma {:induction false} NothingBroken(s: seq<Entry>)
    ensures Broken(s) == [] <==> AllLinked(s)
  {
    if |s| >= 2 {
      var t := s[1..];
      NothingBroken(t);
      if AllLinked(t) && Linked(s[0], s[1]) {
        forall i, j | 0 <= i < |s| && j == i + 1 < |s| ensures Linked(s[i], s[j]) {
          if i > 0 {
            assert Linked(t[i - 1], t[j - 1]);
          }
        }
      } else if !AllLinked(t) {
        var i, j :| 0 <= i < |t| && j == i + 1 < |t| && !Linked(t[i], t[j]);
        assert !Linked(s[i + 1], s[j + 1]);
      }
    }
  }

  /** What is reported of two logs put together. */
  lemma {:induction false} BrokenAppend(a: seq<Entry>, b: seq<Entry>)
    requires a != [] && b != []
    ensures Broken(a + b) == Broken(a) + Gap(a[|a| - 1], b[0]) + Broken(b)
  {
    assert (a + b)[1..] == a[1..] + b;
    if |a| == 1 {
      assert a[1..] + b == b;
    } else {
      BrokenAppend(a[1..], b);
    }
  }

  /** The entries at the given positions of a log, in the given order. */
  function Select(log: seq<Entry>, at: seq<nat>): seq<Entry>
    requires forall k :: 0 <= k < |at| ==> at[k] < |log|
  {
    seq(|at|, k requires 0 <= k < |at| => log[at[k]])
  }

  /** In a written log one entry links to another exactly when it comes right before it. */
  lemma LinkedIffAdjacent(h: Hash, log: seq<Entry>, i: nat, j: nat)
    requires CollisionFree(h) && NeverGenesis(h) && Written(h, log) && i < |log| && j < |log|
    ensures Linked(log[i], log[j]) <==> j == i + 1
  {
    assert EntryWritten(h, log, i) && EntryWritten(h, log, j);
    if j > 0 && i != j - 1 {
      if i < j - 1 {
        ChecksumsDistinct(h, log, i, j - 1);
      } else {
        ChecksumsDistinct(h, log, j - 1, i);
      }
    }
  }

  /** Any selection of entries, with whatever omissions, repetitions and reorderings, verifies exactly when it is a
      contiguous stretch of the log in order. */
  lemma ValidIffContiguous(h: Hash, log: seq<Entry>, at: seq<nat>)
    requires CollisionFree(h) && NeverGenesis(h) && Written(h, log)
    requires forall k :: 0 <= k < |at| ==> at[k] < |log|
    ensures Broken(Select(log, at)) == [] <==>
      forall k, m :: 0 <= k < |at| && m == k + 1 < |at| ==> at[m] == at[k] + 1
  {
    var s := Select(log, at);
    NothingBroken(s);
    forall k, m | 0 <= k < |at| && m == k + 1 < |at| ensures Linked(s[k], s[m]) <==> at[m] == at[k] + 1 {
      LinkedIffAdjacent(h, log, at[k], at[m]);
    }
    if AllLinked(s) {
      forall k, m | 0 <= k < |at| && m == k + 1 < |at| ensures at[m] == at[k] + 1 {
        assert Linked(s[k], s[m]);
      }
    }
  }

  /** Such a stretch is a slice of the log. */
  lemma {:induction false} ContiguousIsSlice(log: seq<Entry>, at: seq<nat>)
    requires at != [] && forall k :: 0 <= k < |at| ==> at[k] < |log|
    requires forall k, m :: 0 <= k < |at| && m == k + 1 < |at| ==> at[m] == at[k] + 1
    ensures at[0] + |at| <= |log| && Select(log, at) == log[at[0]..at[0] + |at|]
    ensures forall k :: 0 <= k < |at| ==> at[k] == at[0] + k
  {
    if |at| > 1 {
      var t := at[..|at| - 1];
      ContiguousIsSlice(log, t);
      var k := |at| - 2;
      assert t[k] == t[0] + k;
      assert at[k + 1] == at[k] + 1;
      forall i | 0 <= i < |at| ensures at[i] == at[0] + i {
        if i < |t| {
          assert t[i] == t[0] + i;
        }
      }
    }
  }

  lemma WrittenIsLinked(h: Hash, log: seq<Entry>, i: nat, j: nat)
    requires Written(h, log) && i <= j <= |log|
    ensures Broken(log[i..j]) == []
  {
    var s := log[i..j];
    forall k, m | 0 <= k < |s| && m == k + 1 < |s| ensures Linked(s[k], s[m]) {
      assert EntryWritten(h, log, i + m);
    }
    NothingBroken(s);
  }

  /** Cutting an interior block out of a written log is reported as exactly the entry after the cut. */
  lemma CutReportsNextEntry(h: Hash, log: seq<Entry>, i: nat, j: nat)
    requires CollisionFree(h) && NeverGenesis(h) && Written(h, log) && 0 < i < j < |log|
    ensures Broken(log[..i] + log[j..]) == [log[j]]
  {
    WrittenIsLinked(h, log, 0, i);
    WrittenIsLinked(h, log, j, |log|);
    assert log[0..i] == log[..i] && log[j..|log|] == log[j..];
    BrokenAppend(log[..i], log[j..]);
    LinkedIffAdjacent(h, log, i - 1, j);
    assert log[..i][|log[..i]| - 1] == log[i - 1];
  }

  /** Where the entries stand that do not follow their predecessor. */
  function BrokenAt(s: seq<Entry>): (at: seq<nat>)
    ensures forall k :: 0 <= k < |at| ==> at[k] < |s|
  {
    if |s| < 2 then []
    else BrokenAt(s[..|s| - 1]) + if Linked(s[|s| - 2], s[|s| - 1]) then [] else [|s| - 1]
  }

  lemma {:induction false} BrokenIsSelected(s: seq<Entry>)
    ensures Broken(s) == Select(s, BrokenAt(s))
  {
    if |s| >= 2 {
      var front, last := s[..|s| - 1], s[|s| - 1];
      BrokenIsSelected(front);
      BrokenAppend(front, [last]);
      assert front + [last] == s;
      assert Broken([last]) == [];
      assert Gap(front[|front| - 1], last) == if Linked(s[|s| - 2], last) then [] else [last];
    }
  }

  /** Verification compares stored checksums and never recomputes one: payloads may be rewritten at will without
      changing its verdict, and the same positions are reported. */
  lemma {:induction false} PayloadsAreNotVerified(s: seq<Entry>, t: seq<Entry>)
    requires |s| == |t|
    requires forall i :: 0 <= i < |s| ==> s[i].previous == t[i].previous && s[i].checksum == t[i].checksum
    ensures BrokenAt(s) == BrokenAt(t)
    ensures Broken(s) == Select(s, BrokenAt(s)) && Broken(t) == Select(t, BrokenAt(s))
  {
    SamePositions(s, t);
    BrokenIsSelected(s);
    BrokenIsSelected(t);
  }

  lemma {:induction false} SamePositions(s: seq<Entry>, t: seq<Entry>)
    requires |s| == |t|
    requires forall i :: 0 <= i < |s| ==> s[i].previous == t[i].previous && s[i].checksum == t[i].checksum
    ensures BrokenAt(s) == BrokenAt(t)
  {
    if |s| >= 2 {
      SamePositions(s[..|s| - 1], t[..|t| - 1]);
    }
  }

  class AuditLogService {
    const h: Hash
    var logs: seq<Entry>

    constructor (h: Hash)
      ensures this.h == h && logs == [] && Written(h, logs)
    {
      this.h := h;
      logs := [];
    }

    method Log(payload: string) returns (saved: Entry)
      requires Written(h, logs)
      modifies this`logs
      ensures Written(h, logs) && logs == old(logs) + [saved]
      ensures saved.payload == payload && saved.checksum == h(payload, saved.previous)
      ensures saved.previous == if old(logs) == [] then GENESIS else old(logs)[|old(logs)| - 1].checksum
    {
      var previousChecksum := if |logs| > 0 then logs[|logs| - 1].checksum else GENESIS;
      var checksum := h(payload, previousChecksum);
      saved := Entry(payload, previousChecksum, checksum);
      AppendKeepsWritten(h, logs, payload);
      logs := logs + [saved];
    }

    method VerifyChainIntegrity() returns (broken: seq<Entry>, valid: bool)
      ensures broken == Broken(logs)
      ensures valid <==> AllLinked(logs)
    {
      broken := [];
      var i := 1;
      while i < |logs|
        invariant 1 <= i && (i <= |logs| || |logs| == 0)
        invariant broken == Broken(logs[..if i <= |logs| then i else |logs|])
      {
        assert logs[..i + 1] == logs[..i] + [logs[i]];
        BrokenAppend(logs[..i], [logs[i]]);
        if logs[i].previous != logs[i - 1].checksum {
          broken := broken + [logs[i]];
        }
        i := i + 1;
      }
      assert logs[..|logs|] == logs;
      NothingBroken(logs);
      valid := |broken| == 0;
    }
  }
}
