/** The deduplication cache (src/queue/message-deduplication.service.ts). */
module Deduplication {
  import opened Common
  import opened CanonicalJson

  datatype MessageId = MessageId(text: string)

  datatype Entry = Entry(id: MessageId, fingerprint: string, timestamp: int, expiresAt: int)

  /** The hash of the serialised normal form, as one function of the normal form. */
  type Fingerprint = Json -> string

  ghost predicate CollisionFree(h: Fingerprint) {
    forall a, b :: h(a) == h(b) ==> a == b
  }

  // ---------- Sorting by time ----------

  ghost predicate DistinctIds(s: seq<Entry>) {
    forall i, j :: 0 <= i < j < |s| ==> s[i].id != s[j].id
  }

  ghost predicate OldestFirst(s: seq<Entry>) {
    forall i, j :: 0 <= i < j < |s| ==> s[i].timestamp <= s[j].timestamp
  }

  /** Inserts `e`, which came last, after everything that is not later. */
  function InsertByTime(e: Entry, s: seq<Entry>): seq<Entry> {
    if s == [] || e.timestamp < s[0].timestamp then [e] + s else [s[0]] + InsertByTime(e, s[1..])
  }

  /** A stable sort, oldest first. */
  function SortByTime(s: seq<Entry>): seq<Entry> {
    if s == [] then [] else InsertByTime(s[|s| - 1], SortByTime(s[..|s| - 1]))
  }

  lemma {:induction false} InsertElements(e: Entry, s: seq<Entry>)
    ensures |InsertByTime(e, s)| == |s| + 1
    ensures forall x :: x in InsertByTime(e, s) <==> x == e || x in s
  {
    if s != [] {
      InsertElements(e, s[1..]);
      assert forall x :: x in s <==> x == s[0] || x in s[1..];
    }
  }

  lemma {:induction false} InsertOldestFirst(e: Entry, s: seq<Entry>)
    requires OldestFirst(s)
    ensures OldestFirst(InsertByTime(e, s))
  {
    if s != [] && e.timestamp >= s[0].timestamp {
      var r := InsertByTime(e, s[1..]);
      InsertOldestFirst(e, s[1..]);
      InsertElements(e, s[1..]);
      forall i | 0 <= i < |r| ensures s[0].timestamp <= r[i].timestamp {
        assert r[i] in r;
      }
    }
  }

  lemma {:induction false} InsertDistinct(e: Entry, s: seq<Entry>)
    requires DistinctIds(s) && forall i :: 0 <= i < |s| ==> s[i].id != e.id
    ensures DistinctIds(InsertByTime(e, s))
  {
    if s != [] && e.timestamp >= s[0].timestamp {
      var r := InsertByTime(e, s[1..]);
      InsertDistinct(e, s[1..]);
      InsertElements(e, s[1..]);
      forall i | 0 <= i < |r| ensures s[0].id != r[i].id {
        assert r[i] in r;
      }
    }
  }

  lemma {:induction false} InsertNewest(e: Entry, s: seq<Entry>)
    requires forall i :: 0 <= i < |s| ==> s[i].timestamp <= e.timestamp
    ensures InsertByTime(e, s) == s + [e]
  {
    if s != [] {
      InsertNewest(e, s[1..]);
    }
  }

  lemma {:induction false} SortKeepsEntries(s: seq<Entry>)
    requires DistinctIds(s)
    ensures |SortByTime(s)| == |s| && OldestFirst(SortByTime(s)) && DistinctIds(SortByTime(s))
    ensures forall x :: x in SortByTime(s) <==> x in s
  {
    if s != [] {
      var t, e := s[..|s| - 1], s[|s| - 1];
      SortKeepsEntries(t);
      var r := SortByTime(t);
      InsertElements(e, r);
      InsertOldestFirst(e, r);
      forall i | 0 <= i < |r| ensures r[i].id != e.id {
        assert r[i] in t;
      }
      InsertDistinct(e, r);
      assert forall x :: x in s <==> x == e || x in t;
    }
  }

  /** A newest entry that came last stays last. */
  lemma NewestStaysLast(s: seq<Entry>)
    requires DistinctIds(s) && s != []
    requires forall i :: 0 <= i < |s| ==> s[i].timestamp <= s[|s| - 1].timestamp
    ensures SortByTime(s) == SortByTime(s[..|s| - 1]) + [s[|s| - 1]]
  {
    var t, e := s[..|s| - 1], s[|s| - 1];
    SortKeepsEntries(t);
    forall i | 0 <= i < |SortByTime(t)| ensures SortByTime(t)[i].timestamp <= e.timestamp {
      assert SortByTime(t)[i] in t;
    }
    InsertNewest(e, SortByTime(t));
  }

  // ---------- The cache: a Map with its insertion order ----------

  datatype Table = Table(entries: map<MessageId, Entry>, order: seq<MessageId>)

  function Elements(ids: seq<MessageId>): set<MessageId> { set id | id in ids }

  ghost predicate DistinctOrder(order: seq<MessageId>) {
    forall i, j :: 0 <= i < j < |order| ==> order[i] != order[j]
  }

  /** The order lists every key once. */
  ghost predicate Listed(t: Table) {
    && Elements(t.order) == t.entries.Keys
    && DistinctOrder(t.order)
    && (forall id :: id in t.entries ==> t.entries[id].id == id)
  }

  /** `Map.set`: a new key goes to the end, an existing one keeps its place. */
  function Put(t: Table, e: Entry): Table {
    Table(t.entries[e.id := e], if e.id in t.entries then t.order else t.order + [e.id])
  }

  function Without(order: seq<MessageId>, id: MessageId): seq<MessageId> {
    if order == [] then [] else if order[0] == id then Without(order[1..], id) else [order[0]] + Without(order[1..], id)
  }

  /** `Map.delete`. */
  function Drop(t: Table, id: MessageId): Table {
    Table(t.entries - {id}, Without(t.order, id))
  }

  function DropAll(t: Table, ids: seq<MessageId>): Table {
    if ids == [] then t else Drop(DropAll(t, ids[..|ids| - 1]), ids[|ids| - 1])
  }

  lemma DropNext(t: Table, ids: seq<MessageId>, i: nat)
    requires i < |ids|
    ensures DropAll(t, ids[..i + 1]) == Drop(DropAll(t, ids[..i]), ids[i])
  {
    assert ids[..i + 1][..i] == ids[..i];
  }

  /** `Array.from(map.values())`. */
  function Values(t: Table): seq<Entry> {
    seq(|t.order|, i requires 0 <= i < |t.order| =>
      if t.order[i] in t.entries then t.entries[t.order[i]] else Entry(t.order[i], "", 0, 0))
  }

  lemma {:induction false} WithoutElements(order: seq<MessageId>, id: MessageId)
    ensures Elements(Without(order, id)) == Elements(order) - {id}
    ensures DistinctOrder(order) ==> DistinctOrder(Without(order, id))
  {
    if order != [] {
      var r := Without(order[1..], id);
      WithoutElements(order[1..], id);
      assert Elements(order) == Elements(order[1..]) + {order[0]};
      if order[0] != id {
        assert Elements([order[0]] + r) == Elements(r) + {order[0]};
        forall i | 0 <= i < |r| && DistinctOrder(order) ensures r[i] != order[0] {
          assert r[i] in Elements(r);
        }
      }
    }
  }

  lemma DropListed(t: Table, id: MessageId)
    requires Listed(t)
    ensures Listed(Drop(t, id))
  {
    WithoutElements(t.order, id);
  }

  lemma PutListed(t: Table, e: Entry)
    requires Listed(t)
    ensures Listed(Put(t, e))
  {
    if e.id !in t.entries {
      assert Elements(t.order + [e.id]) == Elements(t.order) + {e.id};
      forall i | 0 <= i < |t.order| ensures t.order[i] != e.id {
        assert t.order[i] in Elements(t.order);
      }
    }
  }

  lemma {:induction false} DropAllListed(t: Table, ids: seq<MessageId>)
    requires Listed(t)
    ensures Listed(DropAll(t, ids)) && DropAll(t, ids).entries == t.entries - Elements(ids)
  {
    if ids == [] {
      assert t.entries - Elements(ids) == t.entries;
    } else {
      var front := ids[..|ids| - 1];
      DropAllListed(t, front);
      DropListed(DropAll(t, front), ids[|ids| - 1]);
      assert Elements(ids) == Elements(front) + {ids[|ids| - 1]};
    }
  }

  lemma ValuesOfListed(t: Table)
    requires Listed(t)
    ensures DistinctIds(Values(t)) && |Values(t)| == |t.order| == |t.entries|
    ensures forall x: Entry :: x in Values(t) <==> x.id in t.entries && t.entries[x.id] == x
  {
    var s := Values(t);
    forall i | 0 <= i < |t.order| ensures t.order[i] in t.entries && s[i].id == t.order[i] {
      assert t.order[i] in Elements(t.order);
    }
    forall x: Entry | x.id in t.entries && t.entries[x.id] == x ensures x in s {
      assert x.id in Elements(t.order);
      var i :| 0 <= i < |t.order| && t.order[i] == x.id;
      assert s[i] == x;
    }
    ElementsSize(t.order);
  }

  lemma {:induction false} ElementsSize(ids: seq<MessageId>)
    requires DistinctOrder(ids)
    ensures |Elements(ids)| == |ids|
  {
    if ids != [] {
      var front := ids[..|ids| - 1];
      ElementsSize(front);
      assert Elements(ids) == Elements(front) + {ids[|ids| - 1]};
    }
  }

  // ---------- Eviction ----------

  /** Ten per cent, rounded up. */
  function Tenth(n: nat): (t: nat)
    ensures n <= 10 * t < n + 10
  {
    (n + 9) / 10
  }

  function Take(s: seq<Entry>, n: nat): seq<Entry> { if n <= |s| then s[..n] else s }

  /** The entries a full cache gives up: the oldest tenth. */
  function Victims(all: seq<Entry>): seq<Entry> { Take(SortByTime(all), Tenth(|all|)) }

  function IdsOf(s: seq<Entry>): seq<MessageId> {
    seq(|s|, i requires 0 <= i < |s| => s[i].id)
  }

  function Evict(t: Table): Table { DropAll(t, IdsOf(Victims(Values(t)))) }

  lemma VictimsAreOldest(all: seq<Entry>)
    requires DistinctIds(all)
    ensures |Victims(all)| == Tenth(|all|) && DistinctIds(Victims(all))
    ensures forall gone, kept :: gone in Victims(all) && kept in all && kept !in Victims(all) ==> gone.timestamp <= kept.timestamp
    ensures forall gone :: gone in Victims(all) ==> gone in all
  {
    SortKeepsEntries(all);
    var s := SortByTime(all);
    var n := Tenth(|all|);
    forall gone, kept | gone in s[..n] && kept in all && kept !in s[..n] ensures gone.timestamp <= kept.timestamp {
      assert s == s[..n] + s[n..] && kept in s[n..];
    }
  }

  /** A newest entry that came last survives, unless it is alone. */
  lemma NewestSurvives(all: seq<Entry>)
    requires DistinctIds(all) && |all| >= 2
    requires forall i :: 0 <= i < |all| ==> all[i].timestamp <= all[|all| - 1].timestamp
    ensures all[|all| - 1] !in Victims(all)
  {
    SortKeepsEntries(all);
    NewestStaysLast(all);
    var t, e := all[..|all| - 1], all[|all| - 1];
    SortKeepsEntries(t);
    forall i | 0 <= i < Tenth(|all|) ensures Victims(all)[i] != e {
      assert Victims(all)[i] == SortByTime(t)[i] && SortByTime(t)[i] in t;
    }
  }

  lemma VictimIds(t: Table)
    requires Listed(t)
    ensures var ids := Elements(IdsOf(Victims(Values(t))));
      && ids <= t.entries.Keys && |ids| == Tenth(|t.entries|)
      && forall id :: id in ids <==> id in t.entries && t.entries[id] in Victims(Values(t))
  {
    ValuesOfListed(t);
    VictimsAreOldest(Values(t));
    var v := Victims(Values(t));
    var ids := IdsOf(v);
    forall i | 0 <= i < |v| ensures v[i].id in t.entries && t.entries[v[i].id] == v[i] {
      assert v[i] in v;
    }
    forall id ensures id in Elements(ids) <==> id in t.entries && t.entries[id] in v {
      if id in t.entries && t.entries[id] in v {
        var i :| 0 <= i < |v| && v[i] == t.entries[id];
        assert ids[i] == id;
      }
    }
    ElementsSize(ids);
  }

  /** Eviction takes exactly a tenth, and nothing that stays is older than anything that goes. */
  lemma EvictTakesOldestTenth(t: Table)
    requires Listed(t)
    ensures Listed(Evict(t)) && |Evict(t).entries| == |t.entries| - Tenth(|t.entries|)
    ensures forall id :: id in Evict(t).entries ==> id in t.entries && Evict(t).entries[id] == t.entries[id]
    ensures forall gone, kept :: gone in t.entries && gone !in Evict(t).entries && kept in Evict(t).entries ==>
      t.entries[gone].timestamp <= t.entries[kept].timestamp
  {
    var ids := IdsOf(Victims(Values(t)));
    VictimIds(t);
    DropAllListed(t, ids);
    assert Evict(t).entries.Keys == t.entries.Keys - Elements(ids);
    ValuesOfListed(t);
    VictimsAreOldest(Values(t));
    forall gone, kept | gone in t.entries && gone !in Evict(t).entries && kept in Evict(t).entries
      ensures t.entries[gone].timestamp <= t.entries[kept].timestamp
    {
      assert t.entries[gone] in Victims(Values(t)) && t.entries[kept] !in Victims(Values(t));
      assert t.entries[kept] in Values(t);
    }
  }

  function Registered(t: Table, e: Entry, maxEntries: nat): Table {
    if |Put(t, e).entries| > maxEntries then Evict(Put(t, e)) else Put(t, e)
  }

  /** What a registration promises: at most the maximum is left, the new entry among it; only entries that are no
      younger than any that stays were dropped, and no other entry changed. */
  ghost predicate Bounded(t: Table, e: Entry, maxEntries: nat, r: Table) {
    && Listed(r) && |r.entries| <= maxEntries
    && (maxEntries >= 1 ==> e.id in r.entries && r.entries[e.id] == e)
    && (forall id :: id in r.entries && id != e.id ==> id in t.entries && r.entries[id] == t.entries[id])
    && (forall gone, kept :: gone in t.entries && gone != e.id && gone !in r.entries && kept in r.entries ==>
          t.entries[gone].timestamp <= r.entries[kept].timestamp)
  }

  /** Nothing is dropped unless the cache overflows, and then no more than a tenth, rounded up. */
  ghost predicate Frugal(t: Table, e: Entry, maxEntries: nat, r: Table) {
    && (|t.entries[e.id := e]| <= maxEntries ==> r.entries == t.entries[e.id := e])
    && (|t.entries[e.id := e]| > maxEntries ==> 10 * |r.entries| > 9 * |t.entries[e.id := e]| - 10)
  }

  lemma RegisterIsFrugal(t: Table, e: Entry, maxEntries: nat)
    requires Listed(t)
    ensures Frugal(t, e, maxEntries, Registered(t, e, maxEntries))
  {
    PutListed(t, e);
    EvictTakesOldestTenth(Put(t, e));
  }

  lemma EvictionBounded(t: Table, e: Entry, maxEntries: nat)
    requires Listed(t) && |t.entries| <= maxEntries < |Put(t, e).entries|
    requires forall id :: id in t.entries ==> t.entries[id].timestamp <= e.timestamp
    ensures Bounded(t, e, maxEntries, Evict(Put(t, e)))
  {
    var p, r := Put(t, e), Evict(Put(t, e));
    PutListed(t, e);
    NewKey(t.entries, e);
    EvictTakesOldestTenth(p);
    if maxEntries >= 1 {
      PutNewSurvives(t, e);
    }
    forall id | id in r.entries && id != e.id ensures id in t.entries && r.entries[id] == t.entries[id] {
      assert id in p.entries;
    }
    forall gone, kept | gone in t.entries && gone != e.id && gone !in r.entries && kept in r.entries
      ensures t.entries[gone].timestamp <= r.entries[kept].timestamp
    {
      assert gone in p.entries && p.entries[gone] == t.entries[gone];
    }
  }

  lemma NewKey(m: map<MessageId, Entry>, e: Entry)
    requires |m| < |m[e.id := e]|
    ensures e.id !in m && |m[e.id := e]| == |m| + 1
  {
    assert m[e.id := e].Keys == m.Keys + {e.id};
    assert e.id in m.Keys ==> m.Keys + {e.id} == m.Keys;
  }

  lemma RegisterKeepsBound(t: Table, e: Entry, maxEntries: nat)
    requires Listed(t) && |t.entries| <= maxEntries
    requires forall id :: id in t.entries ==> t.entries[id].timestamp <= e.timestamp
    ensures Bounded(t, e, maxEntries, Registered(t, e, maxEntries))
  {
    if |Put(t, e).entries| > maxEntries {
      EvictionBounded(t, e, maxEntries);
    } else {
      PutListed(t, e);
    }
  }

  lemma PutNewSurvives(t: Table, e: Entry)
    requires Listed(t) && e.id !in t.entries && t.entries != map[]
    requires forall id :: id in t.entries ==> t.entries[id].timestamp <= e.timestamp
    ensures e.id in Evict(Put(t, e)).entries
  {
    var p := Put(t, e);
    PutListed(t, e);
    ValuesOfListed(p);
    var all := Values(p);
    var last := |all| - 1;
    assert all[last] == e;
    forall i | 0 <= i < |all| ensures all[i].timestamp <= all[last].timestamp {
      assert all[i] in all;
    }
    NewestSurvives(all);
    VictimIds(p);
    DropAllListed(p, IdsOf(Victims(all)));
  }

  lemma VictimsInOrder(t: Table)
    requires Listed(t)
    ensures |Victims(Values(t))| == Tenth(|t.entries|) <= |SortByTime(Values(t))|
    ensures forall i :: 0 <= i < |Victims(Values(t))| ==> Victims(Values(t))[i] == SortByTime(Values(t))[i]
  {
    ValuesOfListed(t);
    SortKeepsEntries(Values(t));
  }

  /** `mark` is the fingerprint of the plain value `data`. */
  ghost predicate Prints(h: Fingerprint, data: Json, mark: string) {
    WellFormed(data) && mark == h(Normalize(data))
  }

  /** Without collisions equal fingerprints mean equal content. */
  lemma PrintsDecide(h: Fingerprint, a: Json, b: Json, mark: string)
    requires CollisionFree(h) && Prints(h, a, mark) && WellFormed(b)
    ensures mark == h(Normalize(b)) <==> Same(Stripped(a), Stripped(b))
  {
    NormalFormsDecide(a, b);
  }

  /** The two maps have the same keys, and fingerprints are those of the contents. */
  ghost predicate Tracks(h: Fingerprint, entries: map<MessageId, Entry>, fingerprints: map<MessageId, string>,
                         content: map<MessageId, Json>) {
    && fingerprints.Keys == entries.Keys && content.Keys == entries.Keys
    && (forall id :: id in content ==> Prints(h, content[id], fingerprints[id]))
  }

  ghost predicate Contains(fingerprints: map<MessageId, string>, mark: string) {
    exists id :: id in fingerprints && fingerprints[id] == mark
  }

  lemma FingerprintsDecide(h: Fingerprint, entries: map<MessageId, Entry>, fingerprints: map<MessageId, string>,
                           content: map<MessageId, Json>, data: Json)
    requires CollisionFree(h) && Tracks(h, entries, fingerprints, content) && WellFormed(data)
    ensures Contains(fingerprints, h(Normalize(data))) <==>
      exists id :: id in content && Same(Stripped(content[id]), Stripped(data))
  {
    forall id | id in content
      ensures fingerprints[id] == h(Normalize(data)) <==> Same(Stripped(content[id]), Stripped(data))
    {
      PrintsDecide(h, content[id], data, fingerprints[id]);
    }
  }

  lemma PutTracks(h: Fingerprint, entries: map<MessageId, Entry>, fingerprints: map<MessageId, string>,
                  content: map<MessageId, Json>, id: MessageId, e: Entry, mark: string, data: Json)
    requires Tracks(h, entries, fingerprints, content) && Prints(h, data, mark)
    ensures Tracks(h, entries[id := e], fingerprints[id := mark], content[id := data])
  {
  }

  lemma DropTracks(h: Fingerprint, entries: map<MessageId, Entry>, fingerprints: map<MessageId, string>,
                   content: map<MessageId, Json>, id: MessageId)
    requires Tracks(h, entries, fingerprints, content)
    ensures Tracks(h, entries - {id}, fingerprints - {id}, content - {id})
  {
  }

  ghost predicate Part<T>(after: map<MessageId, T>, before: map<MessageId, T>) {
    forall id :: id in after ==> id in before && after[id] == before[id]
  }

  lemma PartDrop<T>(after: map<MessageId, T>, before: map<MessageId, T>, id: MessageId)
    requires Part(after, before)
    ensures Part(after - {id}, before)
  {
  }

  /** Outside `rest` exactly the entries that have not expired are left. */
  ghost predicate Purged(before: map<MessageId, Entry>, after: map<MessageId, Entry>, now: int, rest: set<MessageId>) {
    && rest <= after.Keys && Part(after, before)
    && forall id :: id in before && id !in rest ==> (id in after <==> before[id].expiresAt > now)
  }

  lemma PurgeOneMore(before: map<MessageId, Entry>, after: map<MessageId, Entry>, now: int, rest: set<MessageId>, id: MessageId)
    requires Purged(before, after, now, rest) && id in rest
    ensures after[id].expiresAt <= now ==> Purged(before, after - {id}, now, rest - {id})
    ensures after[id].expiresAt > now ==> Purged(before, after, now, rest - {id})
  {
  }

  /** At most `maxEntries` entries, none of them later than `clock`, each expiring `windowMs` after its registration. */
  ghost predicate InBounds(entries: map<MessageId, Entry>, maxEntries: nat, windowMs: int, clock: int) {
    && |entries| <= maxEntries
    && forall id :: id in entries ==>
      entries[id].timestamp <= clock && entries[id].expiresAt == entries[id].timestamp + windowMs
  }

  lemma PartInBounds(after: map<MessageId, Entry>, before: map<MessageId, Entry>, maxEntries: nat, windowMs: int, clock: int)
    requires Part(after, before) && InBounds(before, maxEntries, windowMs, clock)
    ensures InBounds(after, maxEntries, windowMs, clock)
  {
    assert after.Keys <= before.Keys;
    SubsetSize(after.Keys, before.Keys);
  }

  /** What a registration promises of the new table `r`. */
  ghost predicate WellRegistered(t: Table, e: Entry, maxEntries: nat, r: Table) {
    Bounded(t, e, maxEntries, r) && Frugal(t, e, maxEntries, r)
  }

  /** A registration at `clock` or later leaves the cache bounded, and drops nothing without need. */
  lemma RegisterInBounds(t: Table, e: Entry, maxEntries: nat, windowMs: int, clock: int)
    requires Listed(t) && InBounds(t.entries, maxEntries, windowMs, clock)
    requires clock <= e.timestamp && e.expiresAt == e.timestamp + windowMs
    ensures WellRegistered(t, e, maxEntries, Registered(t, e, maxEntries))
    ensures InBounds(Registered(t, e, maxEntries).entries, maxEntries, windowMs, e.timestamp)
  {
    RegisterKeepsBound(t, e, maxEntries);
    RegisterIsFrugal(t, e, maxEntries);
    RegisteredEntries(t, e, maxEntries);
  }

  lemma RegisteredEntries(t: Table, e: Entry, maxEntries: nat)
    requires Listed(t)
    ensures Part(Registered(t, e, maxEntries).entries, t.entries[e.id := e])
  {
    PutListed(t, e);
    EvictTakesOldestTenth(Put(t, e));
  }

  class MessageDeduplicationService {
    const fingerprintOf: Fingerprint
    const maxEntries: nat
    const windowMs: int
    var table: Table
    var fingerprints: map<MessageId, string>
    /** What each tracked message contained. */
    ghost var content: map<MessageId, Json>
    /** The time of the latest registration. */
    ghost var clock: int

    constructor (fingerprintOf: Fingerprint, maxEntries: nat, windowMs: int, ghost start: int)
      ensures this.fingerprintOf == fingerprintOf && this.maxEntries == maxEntries && this.windowMs == windowMs
      ensures Valid() && table == Table(map[], []) && clock == start
    {
      this.fingerprintOf, this.maxEntries, this.windowMs := fingerprintOf, maxEntries, windowMs;
      table, fingerprints, content, clock := Table(map[], []), map[], map[], start;
    }

    function NewEntry(messageId: MessageId, data: Json, now: int): Entry {
      Entry(messageId, fingerprintOf(Normalize(data)), now, now + windowMs)
    }

    ghost predicate Consistent()
      reads this
    {
      Listed(table) && Tracks(fingerprintOf, table.entries, fingerprints, content)
    }

    ghost predicate Valid()
      reads this
    {
      Consistent() && InBounds(table.entries, maxEntries, windowMs, clock)
    }

    /** True exactly when some tracked message has the same content up to key order, under whatever id. */
    method IsDuplicate(messageId: MessageId, data: Json) returns (duplicate: bool)
      requires Valid() && WellFormed(data) && CollisionFree(fingerprintOf)
      ensures duplicate <==> exists id :: id in content && Same(Stripped(content[id]), Stripped(data))
    {
      var fingerprint := fingerprintOf(Normalize(data));
      duplicate := messageId in fingerprints && fingerprints[messageId] == fingerprint;
      var rest := fingerprints.Keys;
      while rest != {} && !duplicate
        invariant rest <= fingerprints.Keys
        invariant duplicate ==> Contains(fingerprints, fingerprint)
        invariant !duplicate ==> forall id :: id in fingerprints && id !in rest ==> fingerprints[id] != fingerprint
        invariant !duplicate && messageId in fingerprints ==> fingerprints[messageId] != fingerprint
        decreases rest
      {
        var existingId :| existingId in rest;
        if fingerprints[existingId] == fingerprint && existingId != messageId {
          duplicate := true;
        }
        rest := rest - {existingId};
      }
      FingerprintsDecide(fingerprintOf, table.entries, fingerprints, content, data);
    }

    /** Tracks a message; a cache that overflows gives up its oldest tenth. What is left is within the maximum and
        contains the new entry. */
    method RegisterMessage(messageId: MessageId, data: Json, now: int)
      requires Valid() && WellFormed(data) && clock <= now
      modifies this
      ensures Valid() && clock == now
      ensures
        var e := NewEntry(messageId, data, now);
        table == Registered(old(table), e, maxEntries) && WellRegistered(old(table), e, maxEntries, table)
      ensures Part(content, old(content)[messageId := data])
    {
      RegisterInBounds(table, NewEntry(messageId, data, now), maxEntries, windowMs, clock);
      clock := now;
      Enlist(messageId, data, now);
    }

    /** The entry is set first; then the cache is cut back if it has grown too large. */
    method Enlist(messageId: MessageId, data: Json, now: int)
      requires Consistent() && WellFormed(data)
      modifies this`table, this`fingerprints, this`content
      ensures Consistent()
      ensures table == Registered(old(table), NewEntry(messageId, data, now), maxEntries)
      ensures Part(content, old(content)[messageId := data])
    {
      Track(messageId, data, now);
      if |table.entries| > maxEntries {
        CleanupOldestEntries();
      }
    }

    /** Sets the entry and its fingerprint. */
    method Track(messageId: MessageId, data: Json, now: int)
      requires Consistent() && WellFormed(data)
      modifies this`table, this`fingerprints, this`content
      ensures Consistent()
      ensures table == Put(old(table), NewEntry(messageId, data, now))
      ensures content == old(content)[messageId := data]
    {
      var fingerprint := fingerprintOf(Normalize(data));
      var entry := Entry(messageId, fingerprint, now, now + windowMs);
      PutListed(table, entry);
      PutTracks(fingerprintOf, table.entries, fingerprints, content, messageId, entry, fingerprint, data);
      table := Put(table, entry);
      fingerprints := fingerprints[messageId := fingerprint];
      content := content[messageId := data];
    }

    method UnregisterMessage(messageId: MessageId)
      requires Valid()
      modifies this`table, this`fingerprints, this`content
      ensures Valid()
      ensures table == Drop(old(table), messageId) && content == old(content) - {messageId}
    {
      PartDrop(table.entries, table.entries, messageId);
      PartInBounds(table.entries - {messageId}, table.entries, maxEntries, windowMs, clock);
      Delete(messageId);
    }

    /** Deletes the message from both maps. */
    method Delete(messageId: MessageId)
      requires Consistent()
      modifies this`table, this`fingerprints, this`content
      ensures Consistent()
      ensures table == Drop(old(table), messageId) && content == old(content) - {messageId}
    {
      DropListed(table, messageId);
      DropTracks(fingerprintOf, table.entries, fingerprints, content, messageId);
      table := Drop(table, messageId);
      fingerprints := fingerprints - {messageId};
      content := content - {messageId};
    }

    method CleanupOldestEntries()
      requires Consistent()
      modifies this`table, this`fingerprints, this`content
      ensures Consistent()
      ensures table == Evict(old(table)) && Part(content, old(content))
    {
      var entries := SortByTime(Values(table));
      VictimsInOrder(table);
      DropInTurn(entries, Tenth(|table.entries|), IdsOf(Victims(Values(table))));
    }

    /** Unregisters the first `removeCount` entries one after the other. */
    method DropInTurn(entries: seq<Entry>, removeCount: nat, ghost ids: seq<MessageId>)
      requires Consistent() && removeCount == |ids| <= |entries|
      requires forall i :: 0 <= i < removeCount ==> entries[i].id == ids[i]
      modifies this`table, this`fingerprints, this`content
      ensures Consistent()
      ensures table == DropAll(old(table), ids) && Part(content, old(content))
    {
      var i := 0;
      while i < removeCount
        invariant 0 <= i <= removeCount
        invariant Consistent() && Part(content, old(content))
        invariant table == DropAll(old(table), ids[..i])
      {
        DropNext(old(table), ids, i);
        PartDrop(content, old(content), ids[i]);
        Delete(entries[i].id);
        i := i + 1;
      }
      assert ids[..i] == ids;
    }

    /** Drops what has expired and nothing else. */
    method CleanupExpiredEntries(now: int)
      requires Valid()
      modifies this`table, this`fingerprints, this`content
      ensures Valid()
      ensures forall id :: id in table.entries <==>
        id in old(table).entries && now - old(table).entries[id].timestamp < windowMs
      ensures Part(table.entries, old(table).entries) && Part(content, old(content))
    {
      var rest := table.entries.Keys;
      while rest != {}
        invariant Consistent() && Purged(old(table).entries, table.entries, now, rest) && Part(content, old(content))
        decreases rest
      {
        var id :| id in rest;
        PurgeOneMore(old(table).entries, table.entries, now, rest, id);
        PartDrop(content, old(content), id);
        if table.entries[id].expiresAt <= now {
          Delete(id);
        }
        rest := rest - {id};
      }
      PartInBounds(table.entries, old(table).entries, maxEntries, windowMs, clock);
    }
  }
}
