/** Normalisation of message data before fingerprinting (src/queue/message-deduplication.service.ts): two values get
    the same normal form exactly when they agree up to the order of object keys, with null and undefined
    identified, and apart from fields named `__proto__`, which the normal form loses. */
module CanonicalJson {
  import opened Common

  /** Plain data. An object lists its fields in insertion order, each key once. */
  datatype Json = Null | Undefined | Scalar(text: string) | Arr(items: seq<Json>) | Obj(fields: seq<Field>)
  datatype Field = Field(key: string, value: Json)

  ghost predicate DistinctKeys(fs: seq<Field>) {
    forall i, j :: 0 <= i < j < |fs| ==> fs[i].key != fs[j].key
  }

  ghost predicate WellFormed(j: Json) {
    match j
    case Arr(items) => forall i :: 0 <= i < |items| ==> WellFormed(items[i])
    case Obj(fields) => DistinctKeys(fields) && forall i :: 0 <= i < |fields| ==> WellFormed(fields[i].value)
    case _ => true
  }

  const PROTO := "__proto__"

  predicate Named(f: Field) { f.key != PROTO }

  /** Assigning to a property of that name sets the prototype of the object, not a field. */
  function Assigned(fs: seq<Field>): seq<Field> {
    if fs == [] then [] else if Named(fs[0]) then [fs[0]] + Assigned(fs[1..]) else Assigned(fs[1..])
  }

  /** No object in it, at any depth, has a field named `__proto__`. */
  ghost predicate Plain(j: Json) {
    match j
    case Arr(items) => forall i :: 0 <= i < |items| ==> Plain(items[i])
    case Obj(fields) => forall i :: 0 <= i < |fields| ==> Named(fields[i]) && Plain(fields[i].value)
    case _ => true
  }

  /** The value without its fields of that name. */
  function Stripped(j: Json): Json {
    match j
    case Arr(items) => Arr(seq(|items|, i requires 0 <= i < |items| => Stripped(items[i])))
    case Obj(fields) =>
      Obj(Assigned(seq(|fields|, i requires 0 <= i < |fields| => Field(fields[i].key, Stripped(fields[i].value)))))
    case Null => Null
    case Undefined => Undefined
    case Scalar(text) => Scalar(text)
  }

  // ---------- The order of keys ----------

  /** Lexicographic order of code units. */
  predicate Less(a: string, b: string) {
    if b == "" then false
    else if a == "" then true
    else a[0] < b[0] || (a[0] == b[0] && Less(a[1..], b[1..]))
  }

  lemma {:induction false} LessIrreflexive(a: string)
    ensures !Less(a, a)
  {
    if a != "" {
      LessIrreflexive(a[1..]);
    }
  }

  lemma {:induction false} LessTotal(a: string, b: string)
    ensures a == b || Less(a, b) || Less(b, a)
    ensures !(Less(a, b) && Less(b, a)) && !Less(a, a)
  {
    LessIrreflexive(a);
    if a != "" && b != "" {
      LessTotal(a[1..], b[1..]);
      assert a == [a[0]] + a[1..] && b == [b[0]] + b[1..];
    }
  }

  lemma {:induction false} LessTransitive(a: string, b: string, c: string)
    requires Less(a, b) && Less(b, c)
    ensures Less(a, c)
  {
    if a != "" && a[0] == b[0] == c[0] {
      LessTransitive(a[1..], b[1..], c[1..]);
    }
  }

  // ---------- Normal forms ----------

  function Insert(f: Field, fs: seq<Field>): seq<Field> {
    if fs == [] || Less(f.key, fs[0].key) then [f] + fs else [fs[0]] + Insert(f, fs[1..])
  }

  function SortFields(fs: seq<Field>): seq<Field> {
    if fs == [] then [] else Insert(fs[0], SortFields(fs[1..]))
  }

  function Normalize(j: Json): Json {
    match j
    case Null => Null
    case Undefined => Null
    case Scalar(text) => Scalar(text)
    case Arr(items) => Arr(seq(|items|, i requires 0 <= i < |items| => Normalize(items[i])))
    case Obj(fields) =>
      Obj(SortFields(Assigned(
        seq(|fields|, i requires 0 <= i < |fields| => Field(fields[i].key, Normalize(fields[i].value))))))
  }

  /** Same content up to key order. */
  ghost predicate Same(a: Json, b: Json) {
    match a
    case Scalar(text) => b == Scalar(text)
    case Arr(items) => b.Arr? && |items| == |b.items| && forall i :: 0 <= i < |items| ==> Same(items[i], b.items[i])
    case Obj(fields) =>
      && b.Obj? && |fields| == |b.fields|
      && (forall i :: 0 <= i < |fields| ==>
            exists j :: 0 <= j < |b.fields| && b.fields[j].key == fields[i].key && Same(fields[i].value, b.fields[j].value))
    case _ => b.Null? || b.Undefined?
  }

  // ---------- Sorted fields are determined by their lookups ----------

  function Get(fs: seq<Field>, key: string): Option<Json> {
    if fs == [] then None else if fs[0].key == key then Some(fs[0].value) else Get(fs[1..], key)
  }

  ghost predicate Ascending(fs: seq<Field>) {
    fs == [] || (Ascending(fs[1..]) && forall i :: 1 <= i < |fs| ==> Less(fs[0].key, fs[i].key))
  }

  lemma {:induction false} GetFinds(fs: seq<Field>, i: nat)
    requires DistinctKeys(fs) && i < |fs|
    ensures Get(fs, fs[i].key) == Some(fs[i].value)
  {
    if i > 0 {
      GetFinds(fs[1..], i - 1);
    }
  }

  lemma {:induction false} GetMisses(fs: seq<Field>, key: string)
    requires forall i :: 0 <= i < |fs| ==> fs[i].key != key
    ensures Get(fs, key) == None
  {
    if fs != [] {
      GetMisses(fs[1..], key);
    }
  }

  lemma {:induction false} GetWitness(fs: seq<Field>, key: string) returns (i: nat)
    requires Get(fs, key).Some?
    ensures i < |fs| && fs[i].key == key && fs[i].value == Get(fs, key).value
  {
    if fs[0].key == key {
      i := 0;
    } else {
      i := GetWitness(fs[1..], key);
      i := i + 1;
    }
  }

  lemma {:induction false} InsertKeeps(f: Field, fs: seq<Field>, key: string)
    requires Ascending(fs) && Get(fs, f.key).None?
    ensures Ascending(Insert(f, fs)) && |Insert(f, fs)| == |fs| + 1
    ensures Get(Insert(f, fs), key) == if key == f.key then Some(f.value) else Get(fs, key)
    ensures forall x :: x in Insert(f, fs) ==> x == f || x in fs
  {
    if fs != [] {
      LessTotal(f.key, fs[0].key);
      var out := Insert(f, fs);
      if Less(f.key, fs[0].key) {
        forall i | 1 <= i < |out| ensures Less(f.key, out[i].key) {
          if i > 1 {
            LessTransitive(f.key, fs[0].key, fs[i - 1].key);
          }
        }
        assert out[1..] == fs;
      } else {
        InsertKeeps(f, fs[1..], key);
        var rest := Insert(f, fs[1..]);
        assert out[1..] == rest;
        forall i | 1 <= i < |out| ensures Less(fs[0].key, out[i].key) {
          assert out[i] == rest[i - 1] && rest[i - 1] in rest;
          if out[i] != f {
            var k :| 0 <= k < |fs[1..]| && fs[1..][k] == out[i];
            assert Less(fs[0].key, fs[k + 1].key);
          }
        }
      }
    }
  }

  lemma {:induction false} SortKeeps(fs: seq<Field>, key: string)
    requires DistinctKeys(fs)
    ensures Ascending(SortFields(fs)) && |SortFields(fs)| == |fs|
    ensures Get(SortFields(fs), key) == Get(fs, key)
  {
    if fs != [] {
      SortKeeps(fs[1..], key);
      SortKeeps(fs[1..], fs[0].key);
      GetMisses(fs[1..], fs[0].key);
      InsertKeeps(fs[0], SortFields(fs[1..]), key);
    }
  }

  /** Two ascending field lists with the same lookups are the same list. */
  lemma {:induction false} AscendingUnique(s: seq<Field>, t: seq<Field>)
    requires Ascending(s) && Ascending(t) && |s| == |t|
    requires forall key :: Get(s, key) == Get(t, key)
    ensures s == t
  {
    if s != [] {
      assert s[0].key == t[0].key by {
        LessTotal(s[0].key, t[0].key);
        assert Get(s, s[0].key).Some? && Get(t, t[0].key).Some?;
        var i := GetWitness(t, s[0].key);
        var j := GetWitness(s, t[0].key);
      }
      assert Get(s, s[0].key) == Get(t, s[0].key);
      forall key ensures Get(s[1..], key) == Get(t[1..], key) {
        if key == s[0].key {
          NotInTail(s);
          NotInTail(t);
        } else {
          assert Get(s, key) == Get(t, key);
        }
      }
      AscendingUnique(s[1..], t[1..]);
      assert s == [s[0]] + s[1..] && t == [t[0]] + t[1..];
    }
  }

  lemma NotInTail(s: seq<Field>)
    requires s != [] && Ascending(s)
    ensures Get(s[1..], s[0].key) == None
  {
    forall i | 0 <= i < |s[1..]| ensures s[1..][i].key != s[0].key {
      LessTotal(s[0].key, s[i + 1].key);
    }
    GetMisses(s[1..], s[0].key);
  }

  // ---------- Main result ----------

  function NormalFields(fs: seq<Field>): seq<Field> {
    seq(|fs|, i requires 0 <= i < |fs| => Field(fs[i].key, Normalize(fs[i].value)))
  }

  lemma NormalFieldsDistinct(fs: seq<Field>)
    requires DistinctKeys(fs)
    ensures DistinctKeys(NormalFields(fs))
  {
  }

  ghost predicate SameLookups(s: seq<Field>, t: seq<Field>) {
    forall key :: Get(s, key) == Get(t, key)
  }

  lemma SortedAgree(s: seq<Field>, t: seq<Field>)
    requires DistinctKeys(s) && DistinctKeys(t)
    ensures SortFields(s) == SortFields(t) <==> |s| == |t| && SameLookups(s, t)
  {
    var ss, st := SortFields(s), SortFields(t);
    SortKeeps(s, "");
    SortKeeps(t, "");
    forall key ensures Get(ss, key) == Get(s, key) && Get(st, key) == Get(t, key) {
      SortKeeps(s, key);
      SortKeeps(t, key);
    }
    if |s| == |t| && SameLookups(s, t) {
      AscendingUnique(ss, st);
    }
    if ss == st {
      forall key ensures Get(s, key) == Get(t, key) {
        assert Get(ss, key) == Get(s, key);
      }
    }
  }

  /** Objects have one normal form exactly when every key leads to the same normal form in both. */
  lemma ObjectsAgree(f: seq<Field>, g: seq<Field>)
    requires DistinctKeys(f) && DistinctKeys(g) && AllNamed(f) && AllNamed(g)
    ensures Normalize(Obj(f)) == Normalize(Obj(g)) <==> |f| == |g| && SameLookups(NormalFields(f), NormalFields(g))
  {
    NormalFieldsDistinct(f);
    NormalFieldsDistinct(g);
    SortedAgree(NormalFields(f), NormalFields(g));
    NormalizeObject(f);
    NormalizeObject(g);
  }

  predicate AllNamed(fs: seq<Field>) {
    forall i :: 0 <= i < |fs| ==> Named(fs[i])
  }

  lemma {:induction false} AssignedAll(fs: seq<Field>)
    requires AllNamed(fs)
    ensures Assigned(fs) == fs
  {
    if fs != [] {
      AssignedAll(fs[1..]);
    }
  }

  lemma NormalizeObject(f: seq<Field>)
    requires AllNamed(f)
    ensures Normalize(Obj(f)) == Obj(SortFields(NormalFields(f)))
  {
    AssignedAll(NormalFields(f));
  }

  /** A field of one object and its counterpart in the other. */
  lemma NormalFieldFound(fs: seq<Field>, i: nat)
    requires DistinctKeys(fs) && i < |fs|
    ensures Get(NormalFields(fs), fs[i].key) == Some(Normalize(fs[i].value))
  {
    NormalFieldsDistinct(fs);
    GetFinds(NormalFields(fs), i);
  }

  /** From agreeing lookups to matching fields. */
  lemma LookupsMatchFields(f: seq<Field>, g: seq<Field>, i: nat) returns (j: nat)
    requires DistinctKeys(f) && DistinctKeys(g) && i < |f|
    requires Get(NormalFields(f), f[i].key) == Get(NormalFields(g), f[i].key)
    ensures j < |g| && g[j].key == f[i].key && Normalize(f[i].value) == Normalize(g[j].value)
  {
    NormalFieldFound(f, i);
    j := GetWitness(NormalFields(g), f[i].key);
  }

  /** `g` has at least the keys of `f`, and it has no more fields: it has the same keys. */
  lemma SameKeys(f: seq<Field>, g: seq<Field>, key: string)
    requires DistinctKeys(f) && DistinctKeys(g) && |f| == |g|
    requires forall i :: 0 <= i < |f| ==> exists j :: 0 <= j < |g| && g[j].key == f[i].key
    requires exists j :: 0 <= j < |g| && g[j].key == key
    ensures exists i :: 0 <= i < |f| && f[i].key == key
  {
    var kf, kg := Keys(f), Keys(g);
    KeysSize(f);
    KeysSize(g);
    assert kf <= kg;
    SubsetSize(kf, kg);
    assert key in kf;
  }

  function Keys(fs: seq<Field>): set<string> {
    set i | 0 <= i < |fs| :: fs[i].key
  }

  lemma {:induction false} KeysSize(fs: seq<Field>)
    requires DistinctKeys(fs)
    ensures |Keys(fs)| == |fs|
  {
    if fs != [] {
      var t := fs[..|fs| - 1];
      KeysSize(t);
      assert Keys(fs) == Keys(t) + {fs[|fs| - 1].key};
    }
  }

  /** Plain values have the same normal form exactly when they have the same content up to key order. */
  lemma {:induction false} PlainFormsDecide(a: Json, b: Json)
    requires WellFormed(a) && WellFormed(b) && Plain(a) && Plain(b)
    ensures Normalize(a) == Normalize(b) <==> Same(a, b)
    decreases a
  {
    match a
    case Arr(items) =>
      if b.Arr? {
        ArraysDecide(items, b.items);
      } else {
        NotAnArray(a, b);
      }
    case Obj(fields) =>
      if b.Obj? {
        ObjectsDecide(fields, b.fields);
      }
    case _ =>
  }

  lemma NotAnArray(a: Json, b: Json)
    requires a.Arr? && !b.Arr?
    ensures Normalize(a) != Normalize(b)
  {
  }

  lemma {:induction false} ArraysDecide(s: seq<Json>, t: seq<Json>)
    requires WellFormed(Arr(s)) && WellFormed(Arr(t)) && Plain(Arr(s)) && Plain(Arr(t))
    ensures Normalize(Arr(s)) == Normalize(Arr(t)) <==> Same(Arr(s), Arr(t))
    decreases Arr(s), 0
  {
    if |s| == |t| {
      var ns, nt := Normalize(Arr(s)).items, Normalize(Arr(t)).items;
      forall i | 0 <= i < |s| ensures ns[i] == nt[i] <==> Same(s[i], t[i]) {
        PlainFormsDecide(s[i], t[i]);
      }
    }
  }

  lemma {:induction false} ObjectsDecide(f: seq<Field>, g: seq<Field>)
    requires WellFormed(Obj(f)) && WellFormed(Obj(g)) && Plain(Obj(f)) && Plain(Obj(g))
    ensures Normalize(Obj(f)) == Normalize(Obj(g)) <==> Same(Obj(f), Obj(g))
    decreases Obj(f), 0
  {
    ObjectsAgree(f, g);
    forall i, j | 0 <= i < |f| && 0 <= j < |g|
      ensures Normalize(f[i].value) == Normalize(g[j].value) <==> Same(f[i].value, g[j].value)
    {
      PlainFormsDecide(f[i].value, g[j].value);
    }
    if Normalize(Obj(f)) == Normalize(Obj(g)) {
      forall i | 0 <= i < |f|
        ensures exists j :: 0 <= j < |g| && g[j].key == f[i].key && Same(f[i].value, g[j].value)
      {
        var j := LookupsMatchFields(f, g, i);
      }
    }
    if Same(Obj(f), Obj(g)) {
      forall key ensures Get(NormalFields(f), key) == Get(NormalFields(g), key) {
        MatchedLookup(f, g, key);
      }
    }
  }

  lemma MatchedLookup(f: seq<Field>, g: seq<Field>, key: string)
    requires DistinctKeys(f) && DistinctKeys(g) && |f| == |g|
    requires forall i :: 0 <= i < |f| ==>
      exists j :: 0 <= j < |g| && g[j].key == f[i].key && Normalize(f[i].value) == Normalize(g[j].value)
    ensures Get(NormalFields(f), key) == Get(NormalFields(g), key)
  {
    if i :| 0 <= i < |f| && f[i].key == key {
      var j :| 0 <= j < |g| && g[j].key == f[i].key && Normalize(f[i].value) == Normalize(g[j].value);
      NormalFieldFound(f, i);
      NormalFieldFound(g, j);
    } else {
      GetMisses(NormalFields(f), key);
      forall j | 0 <= j < |g| ensures g[j].key != key {
        if g[j].key == key {
          SameKeys(f, g, key);
        }
      }
      GetMisses(NormalFields(g), key);
    }
  }

  // ---------- Fields named __proto__ ----------

  /** What `Assigned` keeps, and that it works key by key. */
  lemma {:induction false} AssignedKeeps(fs: seq<Field>)
    ensures AllNamed(Assigned(fs)) && |Assigned(fs)| <= |fs|
    ensures forall x :: x in Assigned(fs) ==> x in fs
    ensures DistinctKeys(fs) ==> DistinctKeys(Assigned(fs))
  {
    if fs != [] {
      AssignedKeeps(fs[1..]);
      var rest := Assigned(fs[1..]);
      if DistinctKeys(fs) && Named(fs[0]) {
        forall i | 0 <= i < |rest| ensures rest[i].key != fs[0].key {
          assert rest[i] in fs[1..];
        }
      }
    }
  }

  function StrippedFields(fs: seq<Field>): seq<Field> {
    seq(|fs|, i requires 0 <= i < |fs| => Field(fs[i].key, Stripped(fs[i].value)))
  }

  /** `g` has the keys of `f` and values with the same normal forms. */
  predicate Renders(f: seq<Field>, g: seq<Field>) {
    |f| == |g| && forall i :: 0 <= i < |f| ==> f[i].key == g[i].key && Normalize(f[i].value) == Normalize(g[i].value)
  }

  lemma {:induction false} AssignedRenders(f: seq<Field>, g: seq<Field>)
    requires Renders(f, g)
    ensures Renders(Assigned(f), Assigned(g))
  {
    if f != [] {
      AssignedRenders(f[1..], g[1..]);
    }
  }

  lemma {:induction false} NormalFieldsOfAssigned(f: seq<Field>)
    ensures NormalFields(Assigned(f)) == Assigned(NormalFields(f))
  {
    if f != [] {
      NormalFieldsOfAssigned(f[1..]);
      assert NormalFields(f)[1..] == NormalFields(f[1..]);
      if Named(f[0]) {
        assert NormalFields(Assigned(f)) == [NormalFields(f)[0]] + NormalFields(Assigned(f[1..]));
      }
    }
  }

  lemma RenderedAlike(f: seq<Field>, g: seq<Field>)
    requires Renders(f, g)
    ensures NormalFields(f) == NormalFields(g)
  {
  }

  /** An object is normalised like its stripped form, once its values are. */
  lemma StrippedObject(fields: seq<Field>)
    requires Renders(fields, StrippedFields(fields))
    ensures Normalize(Obj(Assigned(StrippedFields(fields)))) == Normalize(Obj(fields))
  {
    var g := StrippedFields(fields);
    RenderedAlike(fields, g);
    NormalFieldsOfAssigned(g);
    AssignedKeeps(NormalFields(g));
    AssignedAll(Assigned(NormalFields(g)));
    assert Normalize(Obj(Assigned(g))) == Obj(SortFields(Assigned(NormalFields(Assigned(g)))));
    assert Normalize(Obj(fields)) == Obj(SortFields(Assigned(NormalFields(fields))));
  }

  /** Stripping changes no normal form, and leaves a plain value. */
  lemma {:induction false} StrippedIsPlain(j: Json)
    requires WellFormed(j)
    ensures Normalize(Stripped(j)) == Normalize(j)
    ensures WellFormed(Stripped(j)) && Plain(Stripped(j))
  {
    match j
    case Arr(items) =>
      forall i | 0 <= i < |items|
        ensures Normalize(Stripped(items[i])) == Normalize(items[i])
        ensures WellFormed(Stripped(items[i])) && Plain(Stripped(items[i]))
      {
        StrippedIsPlain(items[i]);
      }
      assert Normalize(Stripped(j)).items == Normalize(j).items;
    case Obj(fields) =>
      forall i | 0 <= i < |fields|
        ensures Normalize(Stripped(fields[i].value)) == Normalize(fields[i].value)
        ensures WellFormed(Stripped(fields[i].value)) && Plain(Stripped(fields[i].value))
      {
        StrippedIsPlain(fields[i].value);
      }
      StrippedObject(fields);
      AssignedKeeps(StrippedFields(fields));
      assert Stripped(j) == Obj(Assigned(StrippedFields(fields)));
      forall x | x in StrippedFields(fields) ensures WellFormed(x.value) && Plain(x.value) {
      }
    case _ =>
  }

  /** Values have the same normal form exactly when they have the same content up to key order, apart from fields
      named `__proto__`. */
  lemma NormalFormsDecide(a: Json, b: Json)
    requires WellFormed(a) && WellFormed(b)
    ensures Normalize(a) == Normalize(b) <==> Same(Stripped(a), Stripped(b))
  {
    StrippedIsPlain(a);
    StrippedIsPlain(b);
    PlainFormsDecide(Stripped(a), Stripped(b));
  }

  /** On plain values nothing is lost. */
  lemma {:induction false} PlainIsStripped(j: Json)
    requires Plain(j)
    ensures Stripped(j) == j
  {
    match j
    case Arr(items) =>
      forall i | 0 <= i < |items| ensures Stripped(items[i]) == items[i] {
        PlainIsStripped(items[i]);
      }
    case Obj(fields) =>
      forall i | 0 <= i < |fields| ensures Stripped(fields[i].value) == fields[i].value {
        PlainIsStripped(fields[i].value);
      }
      assert StrippedFields(fields) == fields;
      AssignedAll(fields);
    case _ =>
  }
}
